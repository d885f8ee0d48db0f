/**
 * One agent session: its stored owner, sockets, idle alarm, and the in-memory agent that is
 * created on demand and evicted when idle. A step is what runs between two awaits. Commands take
 * their steps in any interleaving: the per-session command lock is dropped by an eviction, so
 * nothing here relies on it. Storage, sockets and the alarm are used in serialized turns of the
 * entity; the registries of the process are not guarded by a turn.
 */
module AgentSession {
  import opened Options

  // ------------------------------------------------------------ state

  datatype Owner = Owner(organizationId: string, projectId: string, userId: string)

  predicate SameOwner(left: Owner, right: Owner) {
    left.organizationId == right.organizationId && left.projectId == right.projectId && left.userId == right.userId
  }

  /** `Authorized`: the owner check passed, the socket is not attached yet. `Gone`: was attached, then removed. */
  datatype SocketPhase = Authorized | Rejected | Attached | Gone

  datatype Connection = Connection(owner: Owner, phase: SocketPhase)

  /** A Pi agent as far as the session uses it. */
  datatype Agent = Agent(owner: Owner, streaming: bool)

  /** One `#create`: the awaits of the log, of the factory and of the model, then its outcome. */
  datatype CreationPhase = ReadingLog | MakingAgent | ResolvingModel | Made(agent: nat) | Died

  /** `cleared`: the `finally` callback took it off the record. */
  datatype Creation = Creation(owner: Owner, phase: CreationPhase, cleared: bool)

  /** What the factory gave `#create`, and whether the log holds a model change still to be resolved. */
  datatype Outcome = CreateFailed | NoModelChange | ModelToResolve

  /**
   * How far a command got: waiting for a creation, holding an agent, awaiting the host's `preparePrompt`
   * after the streaming check, done, or dead.
   */
  datatype Progress = Awaiting(creation: nat) | Holding(agent: nat) | Preparing(agent: nat) | Done | AccessDenied | Dead

  datatype Command = Command(connection: nat, progress: Progress)

  /**
   * `evicting`: an alarm has decided to evict and awaits the deletion of the alarm; it holds the entity's
   * turn and the live agent it saw. `agents` lists the agents that were published.
   */
  datatype State = State(
    idleTimeout: int,
    owner: Option<Owner>,
    connections: seq<Connection>,
    alarm: Option<int>,
    evicting: Option<Option<nat>>,
    live: Option<nat>,
    creating: Option<nat>,
    agents: seq<Agent>,
    subscribed: set<nat>,
    creations: seq<Creation>,
    commands: seq<Command>)

  /** A session of which a former process may have stored the owner and an alarm. */
  function Start(idleTimeout: int, owner: Option<Owner>, alarm: Option<int>): State {
    State(idleTimeout, owner, [], alarm, None, None, None, [], {}, [], [])
  }

  predicate NoneAttached(connections: seq<Connection>) {
    forall c :: 0 <= c < |connections| ==> !connections[c].phase.Attached?
  }

  // ------------------------------------------------------------ steps

  datatype Event =
    | Connect(owner: Owner)
    | Attach(connection: nat)
    | Disconnect(connection: nat, now: int)
    | GetOrCreate(connection: nat)
    | LogRead(creation: nat)
    | AgentMade(creation: nat, outcome: Outcome)
    | ModelResolved(creation: nat, ok: bool)
    | CreationCleared(creation: nat)
    | CreationAwaited(command: nat)
    | PromptChecked(command: nat)
    | PromptStarts(command: nat)
    | TurnEnds(agent: nat)
    | AlarmChecked(now: int)
    | AlarmEnds

  /** The steps that need the entity's turn; the log is read in a turn, too. */
  predicate NeedsTurn(e: Event) {
    e.Connect? || e.Attach? || e.Disconnect? || e.LogRead? || e.AlarmChecked?
  }

  predicate Enabled(s: State, e: Event) {
    (NeedsTurn(e) ==> s.evicting.None?) &&
    match e
    case Connect(_) => true
    case Attach(c) => c < |s.connections| && s.connections[c].phase.Authorized?
    case Disconnect(c, _) => c < |s.connections|
    case GetOrCreate(c) => c < |s.connections| && (s.connections[c].phase.Attached? || s.connections[c].phase.Gone?)
    case LogRead(p) => p < |s.creations| && s.creations[p].phase.ReadingLog?
    case AgentMade(p, _) => p < |s.creations| && s.creations[p].phase.MakingAgent?
    case ModelResolved(p, _) => p < |s.creations| && s.creations[p].phase.ResolvingModel?
    case CreationCleared(p) =>
      p < |s.creations| && (s.creations[p].phase.Made? || s.creations[p].phase.Died?) && !s.creations[p].cleared
    case CreationAwaited(k) =>
      k < |s.commands| && s.commands[k].progress.Awaiting?
      && s.commands[k].progress.creation < |s.creations| && s.creations[s.commands[k].progress.creation].cleared
    case PromptChecked(k) => k < |s.commands| && s.commands[k].progress.Holding? && s.commands[k].progress.agent < |s.agents|
    case PromptStarts(k) => k < |s.commands| && s.commands[k].progress.Preparing? && s.commands[k].progress.agent < |s.agents|
    case TurnEnds(a) => a < |s.agents|
    case AlarmChecked(_) => true
    case AlarmEnds => s.evicting.Some?
  }

  function SetCreation(s: State, p: nat, phase: CreationPhase): State
    requires p < |s.creations|
  {
    s.(creations := s.creations[p := s.creations[p].(phase := phase)])
  }

  /** `#getOrCreate` up to its await. */
  function StepGetOrCreate(s: State, c: nat): State
    requires c < |s.connections|
  {
    if s.live.Some? && s.live.value < |s.agents| then
      var progress := if SameOwner(s.agents[s.live.value].owner, s.connections[c].owner) then Holding(s.live.value) else AccessDenied;
      s.(commands := s.commands + [Command(c, progress)])
    else if s.creating.Some? then s.(commands := s.commands + [Command(c, Awaiting(s.creating.value))])
    else
      var p := |s.creations|;
      s.(creations := s.creations + [Creation(s.connections[c].owner, ReadingLog, false)],
         creating := Some(p),
         commands := s.commands + [Command(c, Awaiting(p))])
  }

  /** The last, synchronous part of `#create`: subscribe and publish. */
  function StepPublish(s: State, p: nat): State
    requires p < |s.creations|
  {
    var a := |s.agents|;
    SetCreation(s, p, Made(a)).(
      agents := s.agents + [Agent(s.creations[p].owner, false)], subscribed := s.subscribed + {a}, live := Some(a))
  }

  /** `onAlarm` up to the await that precedes the eviction. */
  function StepAlarm(s: State, now: int): State {
    if s.alarm.None? || s.alarm.value > now then s
    else if !NoneAttached(s.connections) then s.(alarm := None)
    else if s.live.Some? && s.live.value < |s.agents| && s.agents[s.live.value].streaming then s.(alarm := Some(now + s.idleTimeout))
    else s.(alarm := None, evicting := Some(s.live))
  }

  /** The rest of it: unsubscribe the agent seen then, and clear the registry. */
  function StepEvict(s: State): State {
    var seen := if s.evicting.Some? then s.evicting.value else None;
    s.(subscribed := if seen.Some? then s.subscribed - {seen.value} else s.subscribed, live := None, evicting := None)
  }

  /** One step; a step that is not enabled changes nothing. */
  function Step(s: State, e: Event): State {
    if !Enabled(s, e) then s else
    match e
    case Connect(owner) =>
      var granted := s.owner.None? || SameOwner(s.owner.value, owner);
      s.(owner := if s.owner.None? then Some(owner) else s.owner,
         connections := s.connections + [Connection(owner, if granted then Authorized else Rejected)])
    case Attach(c) => s.(connections := s.connections[c := s.connections[c].(phase := Attached)], alarm := None)
    case Disconnect(c, now) =>
      var rest := if s.connections[c].phase.Attached? then s.connections[c := s.connections[c].(phase := Gone)] else s.connections;
      s.(connections := rest, alarm := if NoneAttached(rest) then Some(now + s.idleTimeout) else s.alarm)
    case GetOrCreate(c) => StepGetOrCreate(s, c)
    case LogRead(p) => SetCreation(s, p, MakingAgent)
    case AgentMade(p, outcome) =>
      (match outcome
       case CreateFailed => SetCreation(s, p, Died)
       case NoModelChange => StepPublish(s, p)
       case ModelToResolve => SetCreation(s, p, ResolvingModel))
    case ModelResolved(p, ok) => if ok then StepPublish(s, p) else SetCreation(s, p, Died)
    case CreationCleared(p) => s.(creating := None, creations := s.creations[p := s.creations[p].(cleared := true)])
    case CreationAwaited(k) =>
      var phase := s.creations[s.commands[k].progress.creation].phase;
      s.(commands := s.commands[k := s.commands[k].(progress := if phase.Made? then Holding(phase.agent) else Dead)])
    case PromptChecked(k) =>
      var a := s.commands[k].progress.agent;
      s.(commands := s.commands[k := s.commands[k].(progress := if s.agents[a].streaming then Done else Preparing(a))])
    case PromptStarts(k) =>
      var a := s.commands[k].progress.agent;
      s.(agents := s.agents[a := s.agents[a].(streaming := true)],
         commands := s.commands[k := s.commands[k].(progress := Done)])
    case TurnEnds(a) => s.(agents := s.agents[a := s.agents[a].(streaming := false)])
    case AlarmChecked(now) => StepAlarm(s, now)
    case AlarmEnds => StepEvict(s)
  }

  function Reached(s: State, events: seq<Event>): State {
    if events == [] then s else Step(Reached(s, events[..|events| - 1]), events[|events| - 1])
  }

  // ------------------------------------------------------------ what every run keeps

  predicate Unfinished(phase: CreationPhase) {
    phase.ReadingLog? || phase.MakingAgent? || phase.ResolvingModel?
  }

  /** At most one creation on record, none finished before the record is cleared, and none while an agent is live. */
  ghost predicate SingleCreation(s: State) {
    && (s.creating.Some? ==> s.creating.value < |s.creations| && !s.creations[s.creating.value].cleared)
    && (forall p :: 0 <= p < |s.creations| && !s.creations[p].cleared ==> s.creating == Some(p))
    && (forall p :: 0 <= p < |s.creations| && s.creations[p].cleared ==> !Unfinished(s.creations[p].phase))
    && (forall p :: 0 <= p < |s.creations| && Unfinished(s.creations[p].phase) ==> s.live.None?)
  }

  /** The live agent is subscribed, and nothing is that was never published. */
  ghost predicate LiveSubscribed(s: State) {
    && (s.live.Some? ==> s.live.value < |s.agents| && s.live.value in s.subscribed)
    && (forall a :: a in s.subscribed ==> a < |s.agents|)
  }

  /** While an eviction is under way nobody is attached, and an agent it saw is still the live one. */
  ghost predicate EvictionSteady(s: State) {
    s.evicting.Some? ==>
      && NoneAttached(s.connections) && s.alarm.None?
      && (s.evicting.value.Some? ==> s.live == s.evicting.value)
  }

  /** Everything that got past the owner check belongs to the stored owner. */
  ghost predicate OneOwner(s: State) {
    && (forall c :: 0 <= c < |s.connections| && !s.connections[c].phase.Rejected? ==> s.owner == Some(s.connections[c].owner))
    && (forall a :: 0 <= a < |s.agents| ==> s.owner == Some(s.agents[a].owner))
    && (forall p :: 0 <= p < |s.creations| ==> s.owner == Some(s.creations[p].owner))
    && (forall p :: 0 <= p < |s.creations| && s.creations[p].phase.Made? ==> s.creations[p].phase.agent < |s.agents|)
  }

  /** No command was ever denied, and each holds or waits for an existing agent. */
  ghost predicate CommandsServed(s: State) {
    forall k :: 0 <= k < |s.commands| ==>
      && s.commands[k].connection < |s.connections|
      && match s.commands[k].progress
         case Awaiting(p) => p < |s.creations|
         case Holding(a) => a < |s.agents|
         case Preparing(a) => a < |s.agents|
         case Done => true
         case AccessDenied => false
         case Dead => true
  }

  /** An attached socket keeps the alarm off, once a socket has been attached or removed. */
  ghost predicate AlarmOff(s: State) {
    s.alarm.Some? ==> NoneAttached(s.connections)
  }

  ghost predicate Sound(s: State) {
    SingleCreation(s) && LiveSubscribed(s) && EvictionSteady(s) && OneOwner(s) && CommandsServed(s) && AlarmOff(s)
  }

  // ------------------------------------------------------------ the session object

  /** The durable entity of the session and the registries of the process, for one session id. */
  class Session {
    const idleTimeoutMs: int
    var storedOwner: Option<Owner>
    var connections: seq<Connection>
    var alarm: Option<int>
    var evicting: Option<Option<nat>>
    var live: Option<nat>
    var creating: Option<nat>
    var agents: seq<Agent>
    var subscribed: set<nat>
    var creations: seq<Creation>
    var commands: seq<Command>

    ghost function Contents(): State
      reads this
    {
      State(idleTimeoutMs, storedOwner, connections, alarm, evicting, live, creating, agents, subscribed, creations, commands)
    }

    constructor (idleTimeoutMs: int, storedOwner: Option<Owner>, alarm: Option<int>)
      ensures Contents() == Start(idleTimeoutMs, storedOwner, alarm)
    {
      this.idleTimeoutMs := idleTimeoutMs;
      this.storedOwner, this.alarm := storedOwner, alarm;
      connections, evicting, live, creating := [], None, None, None;
      agents, subscribed, creations, commands := [], {}, [], [];
    }

    /** `ensureSessionOwner`: stores the owner if there is none, and compares otherwise. */
    method EnsureOwner(owner: Owner) returns (granted: bool)
      modifies `storedOwner
      ensures storedOwner == if old(storedOwner).None? then Some(owner) else old(storedOwner)
      ensures granted <==> storedOwner == Some(owner)
    {
      if storedOwner.Some? {
        return SameOwner(storedOwner.value, owner);
      }
      storedOwner := Some(owner);
      return true;
    }

    /** `connect` up to its first await. */
    method Connect(owner: Owner) returns (granted: bool)
      requires evicting.None?
      modifies this
      ensures granted <==> old(storedOwner).None? || old(storedOwner) == Some(owner)
      ensures Contents() == Step(old(Contents()), Event.Connect(owner))
    {
      granted := EnsureOwner(owner);
      connections := connections + [Connection(owner, if granted then Authorized else Rejected)];
    }

    method Attach(connection: nat)
      requires Enabled(Contents(), Event.Attach(connection))
      modifies this
      ensures Contents() == Step(old(Contents()), Event.Attach(connection))
    {
      connections := connections[connection := connections[connection].(phase := Attached)];
      alarm := None;
    }

    method Disconnect(connection: nat, now: int)
      requires Enabled(Contents(), Event.Disconnect(connection, now))
      modifies this
      ensures Contents() == Step(old(Contents()), Event.Disconnect(connection, now))
    {
      if connections[connection].phase.Attached? {
        connections := connections[connection := connections[connection].(phase := Gone)];
      }
      if NoneAttached(connections) {
        alarm := Some(now + idleTimeoutMs);
      }
    }

    /** `#getOrCreate` up to its await. */
    method GetOrCreate(connection: nat)
      requires Enabled(Contents(), Event.GetOrCreate(connection)) && LiveSubscribed(Contents())
      modifies this
      ensures Contents() == Step(old(Contents()), Event.GetOrCreate(connection))
    {
      if live.Some? {
        if !SameOwner(agents[live.value].owner, connections[connection].owner) {
          commands := commands + [Command(connection, AccessDenied)];
          return;
        }
        commands := commands + [Command(connection, Holding(live.value))];
        return;
      }
      if creating.Some? {
        commands := commands + [Command(connection, Awaiting(creating.value))];
        return;
      }
      var creation := |creations|;
      creations := creations + [Creation(connections[connection].owner, ReadingLog, false)];
      creating := Some(creation);
      commands := commands + [Command(connection, Awaiting(creation))];
    }

    method SetPhase(creation: nat, phase: CreationPhase)
      requires creation < |creations|
      modifies `creations
      ensures creations == old(creations)[creation := old(creations)[creation].(phase := phase)]
    {
      creations := creations[creation := creations[creation].(phase := phase)];
    }

    method LogRead(creation: nat)
      requires Enabled(Contents(), Event.LogRead(creation))
      modifies this
      ensures Contents() == Step(old(Contents()), Event.LogRead(creation))
    {
      SetPhase(creation, MakingAgent);
    }

    /** The end of `#create`: subscribe to the agent and publish it as the live one. */
    method Publish(creation: nat)
      requires creation < |creations|
      modifies this
      ensures Contents() == StepPublish(old(Contents()), creation)
    {
      var agent := |agents|;
      agents := agents + [Agent(creations[creation].owner, false)];
      subscribed := subscribed + {agent};
      live := Some(agent);
      SetPhase(creation, Made(agent));
    }

    /** The factory answered; without a model change in the log there is nothing more to await. */
    method AgentMade(creation: nat, outcome: Outcome)
      requires Enabled(Contents(), Event.AgentMade(creation, outcome))
      modifies this
      ensures Contents() == Step(old(Contents()), Event.AgentMade(creation, outcome))
    {
      match outcome
      case CreateFailed => SetPhase(creation, Died);
      case NoModelChange => Publish(creation);
      case ModelToResolve => SetPhase(creation, ResolvingModel);
    }

    method ModelResolved(creation: nat, ok: bool)
      requires Enabled(Contents(), Event.ModelResolved(creation, ok))
      modifies this
      ensures Contents() == Step(old(Contents()), Event.ModelResolved(creation, ok))
    {
      if ok {
        Publish(creation);
      } else {
        SetPhase(creation, Died);
      }
    }

    /** The `finally` callback of `#getOrCreate`. */
    method CreationCleared(creation: nat)
      requires Enabled(Contents(), Event.CreationCleared(creation))
      modifies this
      ensures Contents() == Step(old(Contents()), Event.CreationCleared(creation))
    {
      creating := None;
      creations := creations[creation := creations[creation].(cleared := true)];
    }

    method CreationAwaited(command: nat)
      requires Enabled(Contents(), Event.CreationAwaited(command))
      modifies this
      ensures Contents() == Step(old(Contents()), Event.CreationAwaited(command))
    {
      var phase := creations[commands[command].progress.creation].phase;
      if phase.Made? {
        commands := commands[command := commands[command].(progress := Holding(phase.agent))];
      } else {
        commands := commands[command := commands[command].(progress := Dead)];
      }
    }

    /** A prompt up to the host's `preparePrompt`: refused while a turn runs. */
    method CheckPrompt(command: nat) returns (accepted: bool)
      requires Enabled(Contents(), PromptChecked(command))
      modifies this
      ensures accepted <==> !old(agents)[old(commands)[command].progress.agent].streaming
      ensures Contents() == Step(old(Contents()), PromptChecked(command))
    {
      var agent := commands[command].progress.agent;
      if agents[agent].streaming {
        commands := commands[command := commands[command].(progress := Done)];
        return false;
      }
      commands := commands[command := commands[command].(progress := Preparing(agent))];
      return true;
    }

    /** After `preparePrompt` the turn starts, whatever happened meanwhile. */
    method StartPrompt(command: nat)
      requires Enabled(Contents(), PromptStarts(command))
      modifies this
      ensures Contents() == Step(old(Contents()), PromptStarts(command))
    {
      var agent := commands[command].progress.agent;
      agents := agents[agent := agents[agent].(streaming := true)];
      commands := commands[command := commands[command].(progress := Done)];
    }

    method TurnEnds(agent: nat)
      requires agent < |agents|
      modifies this
      ensures Contents() == Step(old(Contents()), Event.TurnEnds(agent))
    {
      agents := agents[agent := agents[agent].(streaming := false)];
    }

    /** `onAlarm` up to its last await: goes on to evict exactly when due, nobody is attached and no turn runs. */
    method CheckAlarm(now: int) returns (evicts: bool)
      requires Enabled(Contents(), AlarmChecked(now)) && LiveSubscribed(Contents())
      modifies this
      ensures evicts <==> && old(alarm).Some? && old(alarm).value <= now && NoneAttached(old(connections))
                          && !(old(live).Some? && old(agents)[old(live).value].streaming)
      ensures evicts <==> evicting == Some(old(live))
      ensures Contents() == Step(old(Contents()), AlarmChecked(now))
    {
      if alarm.None? || alarm.value > now {
        return false;
      }
      if !NoneAttached(connections) {
        alarm := None;
        return false;
      }
      if live.Some? {
        if agents[live.value].streaming {
          alarm := Some(now + idleTimeoutMs);
          return false;
        }
      }
      alarm := None;
      evicting := Some(live);
      return true;
    }

    /** The rest of `onAlarm`: it looks at neither the registry nor the agent again. */
    method FinishAlarm()
      requires Enabled(Contents(), AlarmEnds)
      modifies this
      ensures Contents() == Step(old(Contents()), AlarmEnds)
    {
      if evicting.value.Some? {
        subscribed := subscribed - {evicting.value.value};
      }
      live := None;
      evicting := None;
    }
  }

  lemma {:induction false} PhaseKeepsSingleCreation(s: State, p: nat, phase: CreationPhase)
    requires SingleCreation(s) && p < |s.creations| && Unfinished(s.creations[p].phase)
    ensures SingleCreation(SetCreation(s, p, phase))
    ensures !Unfinished(phase) ==> SingleCreation(StepPublish(s, p))
  {}

  lemma {:induction false} GetOrCreateKeepsSingleCreation(s: State, c: nat)
    requires SingleCreation(s) && c < |s.connections| && (s.live.Some? ==> s.live.value < |s.agents|)
    ensures SingleCreation(StepGetOrCreate(s, c))
  {}

  lemma {:induction false} StepKeepsSingleCreation(s: State, e: Event)
    requires Sound(s)
    ensures SingleCreation(Step(s, e))
  {
    hide OneOwner, CommandsServed, AlarmOff, EvictionSteady, NoneAttached, StepGetOrCreate, StepPublish, SetCreation;
    if Enabled(s, e) {
      match e
      case GetOrCreate(c) => GetOrCreateKeepsSingleCreation(s, c);
      case LogRead(p) => PhaseKeepsSingleCreation(s, p, MakingAgent);
      case AgentMade(p, outcome) => PhaseKeepsSingleCreation(s, p, if outcome.ModelToResolve? then ResolvingModel else Died);
      case ModelResolved(p, _) => PhaseKeepsSingleCreation(s, p, Died);
      case _ =>
    }
  }

  lemma {:induction false} StepKeepsLiveSubscribed(s: State, e: Event)
    requires Sound(s)
    ensures LiveSubscribed(Step(s, e))
  {
    hide OneOwner, CommandsServed, AlarmOff, SingleCreation, NoneAttached;
  }

  lemma {:induction false} StepKeepsEvictionSteady(s: State, e: Event)
    requires Sound(s)
    ensures EvictionSteady(Step(s, e))
  {
    hide OneOwner, CommandsServed, AlarmOff, NoneAttached;
  }

  lemma {:induction false} StepKeepsOneOwner(s: State, e: Event)
    requires Sound(s)
    ensures OneOwner(Step(s, e))
    ensures s.owner.Some? ==> Step(s, e).owner == s.owner
  {
    hide SingleCreation, CommandsServed, AlarmOff, LiveSubscribed, EvictionSteady, NoneAttached;
  }

  lemma {:induction false} StepKeepsCommandsServed(s: State, e: Event)
    requires Sound(s)
    ensures CommandsServed(Step(s, e))
  {
    hide AlarmOff, EvictionSteady, NoneAttached;
  }

  lemma {:induction false} StepKeepsAlarmOff(s: State, e: Event)
    requires Sound(s)
    ensures AlarmOff(Step(s, e))
  {
    hide SingleCreation, LiveSubscribed, OneOwner, CommandsServed;
  }

  lemma {:induction false} StepKeepsSound(s: State, e: Event)
    requires Sound(s)
    ensures Sound(Step(s, e))
    ensures s.owner.Some? ==> Step(s, e).owner == s.owner
  {
    hide Step, SingleCreation, LiveSubscribed, EvictionSteady, OneOwner, CommandsServed, AlarmOff;
    StepKeepsSingleCreation(s, e);
    StepKeepsLiveSubscribed(s, e);
    StepKeepsEvictionSteady(s, e);
    StepKeepsOneOwner(s, e);
    StepKeepsCommandsServed(s, e);
    StepKeepsAlarmOff(s, e);
  }

  /** From any sound state, whatever happens: the owner stays once it is set. */
  lemma {:induction false} ReachedIsSound(s: State, events: seq<Event>)
    requires Sound(s)
    ensures Sound(Reached(s, events))
    ensures s.owner.Some? ==> Reached(s, events).owner == s.owner
  {
    hide Step, Sound;
    if events != [] {
      ReachedIsSound(s, events[..|events| - 1]);
      StepKeepsSound(Reached(s, events[..|events| - 1]), events[|events| - 1]);
    }
  }

  lemma StartIsSound(idleTimeout: int, owner: Option<Owner>, alarm: Option<int>)
    ensures Sound(Start(idleTimeout, owner, alarm))
  {}

  /**
   * Over every interleaving: the stored owner never changes once set, every attached connection and
   * every agent share it, no command is denied, the live agent is subscribed, and at most one creation
   * is under way, never beside a live agent.
   */
  lemma {:induction false} SessionSafety(idleTimeout: int, owner: Option<Owner>, alarm: Option<int>, events: seq<Event>, later: seq<Event>)
    ensures
      var s := Reached(Start(idleTimeout, owner, alarm), events);
      && (s.owner.Some? ==> Reached(s, later).owner == s.owner)
      && (forall c :: 0 <= c < |s.connections| && s.connections[c].phase.Attached? ==> s.owner == Some(s.connections[c].owner))
      && (forall a :: 0 <= a < |s.agents| ==> s.owner == Some(s.agents[a].owner))
      && (forall k :: 0 <= k < |s.commands| ==> !s.commands[k].progress.AccessDenied?)
      && (s.live.Some? ==> s.live.value < |s.agents| && s.live.value in s.subscribed)
      && (forall p, q :: 0 <= p < |s.creations| && 0 <= q < |s.creations| ==>
            Unfinished(s.creations[p].phase) && Unfinished(s.creations[q].phase) ==> p == q && s.live.None?)
  {
    hide Step;
    StartIsSound(idleTimeout, owner, alarm);
    ReachedIsSound(Start(idleTimeout, owner, alarm), events);
    ReachedIsSound(Reached(Start(idleTimeout, owner, alarm), events), later);
  }
}
