/**
 * When an idle alarm does what it is for. Between its last look at the live agent and the eviction
 * the alarm awaits, and other steps run: an agent may be published, and a turn may start.
 */
module AgentSessionAlarms {
  import opened Options
  import opened Histories
  import opened AgentSession

  // ------------------------------------------------------------ what can happen to an agent

  /** A new agent becomes the live one. */
  predicate Publishes(s: State, e: Event) {
    Enabled(s, e) && ((e.AgentMade? && e.outcome.NoModelChange?) || (e.ModelResolved? && e.ok))
  }

  /** The alarm unsubscribes agent `a`. */
  predicate Evicts(s: State, e: Event, a: nat) {
    e.AlarmEnds? && s.evicting == Some(Some(a))
  }

  /** The alarm clears the registry of agent `a`, which it never saw, and leaves it subscribed. */
  predicate Orphans(s: State, e: Event, a: nat) {
    e.AlarmEnds? && s.evicting.Some? && s.live == Some(a) && s.evicting.value != Some(a)
  }

  predicate StartsTurn(s: State, e: Event, a: nat) {
    Enabled(s, e) && e.PromptStarts? && s.commands[e.command].progress.agent == a
  }

  predicate OneSubscribed(s: State) {
    s.subscribed == if s.live.Some? then {s.live.value} else {}
  }

  // ------------------------------------------------------------ one subscribed agent

  /** The eviction leaves exactly the live agent subscribed if and only if the live agent is still the one it saw. */
  lemma EvictionKeepsOneSubscribedIff(s: State)
    requires Sound(s) && s.evicting.Some? && OneSubscribed(s)
    ensures OneSubscribed(Step(s, AlarmEnds)) <==> s.live == s.evicting.value
  {
    hide SingleCreation, OneOwner, CommandsServed, AlarmOff, NoneAttached;
    if s.live.Some? && s.live != s.evicting.value {
      assert s.live.value in Step(s, AlarmEnds).subscribed;
    }
  }

  /** One step, for agent `a`: published and subscribed; or unsubscribed; or neither. */
  lemma SubscriptionStep(s: State, e: Event, a: nat)
    requires Sound(s)
    ensures
      var t := Step(s, e);
      && (a in t.subscribed <==> (a in s.subscribed && !Evicts(s, e, a)) || (a == |s.agents| && Publishes(s, e)))
      && |t.agents| == |s.agents| + (if Publishes(s, e) then 1 else 0)
      && (t.live == Some(a) <==> (s.live == Some(a) && !(e.AlarmEnds? && s.evicting.Some?)) || (a == |s.agents| && Publishes(s, e)))
  {
    hide OneOwner, CommandsServed, AlarmOff, NoneAttached;
  }

  /** An alarm of the run evicted agent `a`. */
  ghost predicate Evicted(s: State, events: seq<Event>, a: nat) {
    Once(prefix => Reached(s, prefix), events, (x, e) => Evicts(x, e, a))
  }

  /** An alarm of the run orphaned agent `a`. */
  ghost predicate Orphaned(s: State, events: seq<Event>, a: nat) {
    Once(prefix => Reached(s, prefix), events, (x, e) => Orphans(x, e, a))
  }

  lemma {:induction false} AlarmHistoryStep(s: State, events: seq<Event>, a: nat)
    requires events != []
    ensures
      var earlier, e := events[..|events| - 1], events[|events| - 1];
      && (Evicted(s, events, a) <==> Evicts(Reached(s, earlier), e, a) || Evicted(s, earlier, a))
      && (Orphaned(s, events, a) <==> Orphans(Reached(s, earlier), e, a) || Orphaned(s, earlier, a))
  {
    hide Evicts, Orphans, Reached, Once;
    OnceStep(prefix => Reached(s, prefix), events, (x, e) => Evicts(x, e, a));
    OnceStep(prefix => Reached(s, prefix), events, (x, e) => Orphans(x, e, a));
  }

  /** What is known of agent `a`, given whether it was evicted or orphaned. */
  predicate Told(s: State, a: nat, evicted: bool, orphaned: bool) {
    && (a in s.subscribed <==> s.live == Some(a) || orphaned)
    && (a < |s.agents| ==> (a !in s.subscribed <==> evicted))
    && (evicted || orphaned ==> a < |s.agents| && s.live != Some(a))
  }

  lemma ToldStep(s: State, e: Event, a: nat, evicted: bool, orphaned: bool)
    requires Sound(s) && Told(s, a, evicted, orphaned)
    ensures Told(Step(s, e), a, evicted || Evicts(s, e, a), orphaned || Orphans(s, e, a))
  {
    hide Step, Publishes, SingleCreation, OneOwner, CommandsServed, AlarmOff, NoneAttached;
    SubscriptionStep(s, e, a);
  }

  lemma {:induction false} ToldThroughout(s: State, events: seq<Event>, a: nat)
    requires Sound(s) && Told(s, a, false, false)
    ensures Told(Reached(s, events), a, Evicted(s, events, a), Orphaned(s, events, a))
  {
    hide Step, Sound, Told, Evicts, Orphans;
    if events != [] {
      var earlier := events[..|events| - 1];
      ToldThroughout(s, earlier, a);
      ReachedIsSound(s, earlier);
      AlarmHistoryStep(s, events, a);
      ToldStep(Reached(s, earlier), events[|events| - 1], a, Evicted(s, earlier, a), Orphaned(s, earlier, a));
    }
  }

  /**
   * Over every run: an agent is subscribed exactly if it is live, or an alarm that never saw it cleared the
   * registry; a published agent is unsubscribed exactly if an alarm evicted it.
   */
  lemma {:induction false} SubscribedExactly(idleTimeout: int, owner: Option<Owner>, alarm: Option<int>, events: seq<Event>, a: nat)
    ensures
      var s0 := Start(idleTimeout, owner, alarm);
      var s := Reached(s0, events);
      && (a in s.subscribed <==> s.live == Some(a) || Orphaned(s0, events, a))
      && (a < |s.agents| ==> (a !in s.subscribed <==> Evicted(s0, events, a)))
  {
    hide Step, Evicted, Orphaned;
    var s0 := Start(idleTimeout, owner, alarm);
    StartIsSound(idleTimeout, owner, alarm);
    ToldThroughout(s0, events, a);
  }

  /** The run has one subscribed agent at most, the live one, exactly if no alarm orphaned an agent. */
  lemma {:induction false} OneSubscribedIff(idleTimeout: int, owner: Option<Owner>, alarm: Option<int>, events: seq<Event>)
    ensures
      var s0 := Start(idleTimeout, owner, alarm);
      OneSubscribed(Reached(s0, events)) <==> forall a :: !Orphaned(s0, events, a)
  {
    hide Step, Evicted, Orphaned, Reached;
    var s0 := Start(idleTimeout, owner, alarm);
    var s := Reached(s0, events);
    forall a: nat
      ensures a in s.subscribed <==> s.live == Some(a) || Orphaned(s0, events, a)
      ensures Orphaned(s0, events, a) ==> s.live != Some(a)
    {
      StartIsSound(idleTimeout, owner, alarm);
      ToldThroughout(s0, events, a);
    }
  }

  // ------------------------------------------------------------ the gap between the check and the eviction

  /** The alarm decides to evict. */
  predicate Decides(s: State, now: int) {
    && Enabled(s, AlarmChecked(now))
    && s.alarm.Some? && s.alarm.value <= now && NoneAttached(s.connections)
    && !(s.live.Some? && s.live.value < |s.agents| && s.agents[s.live.value].streaming)
  }

  /** Steps that can come between the check and the eviction. */
  predicate Gap(events: seq<Event>) {
    forall n :: 0 <= n < |events| ==> !events[n].AlarmEnds?
  }

  /** A creation has read the log and can publish without another turn of the entity. */
  predicate AboutToPublish(s: State) {
    exists p :: 0 <= p < |s.creations| && (s.creations[p].phase.MakingAgent? || s.creations[p].phase.ResolvingModel?)
  }

  lemma PublishedWasAboutTo(s: State, e: Event)
    ensures Publishes(s, e) ==> AboutToPublish(s)
  {
    if Publishes(s, e) {
      assert s.creations[e.creation].phase.MakingAgent? || s.creations[e.creation].phase.ResolvingModel?;
    }
  }

  /** In the gap an agent that was seen stays live; and if none was seen and none is about to be, none is published. */
  lemma {:induction false} GapSteady(s: State, e: Event)
    requires Sound(s) && s.evicting.Some? && !e.AlarmEnds? && OneSubscribed(s)
    requires s.evicting.value.Some? || (s.live.None? && !AboutToPublish(s))
    ensures
      var t := Step(s, e);
      && t.evicting == s.evicting && OneSubscribed(t)
      && (t.evicting.value.Some? || (t.live.None? && !AboutToPublish(t)))
  {
    hide OneOwner, CommandsServed, AlarmOff, NoneAttached;
    PublishedWasAboutTo(s, e);
  }

  lemma {:induction false} GapThroughout(s: State, gap: seq<Event>)
    requires Sound(s) && s.evicting.Some? && Gap(gap) && OneSubscribed(s)
    requires s.evicting.value.Some? || (s.live.None? && !AboutToPublish(s))
    ensures
      var t := Reached(s, gap);
      && Sound(t) && t.evicting == s.evicting && OneSubscribed(t)
      && (t.evicting.value.Some? || (t.live.None? && !AboutToPublish(t)))
  {
    hide Step, Sound, AboutToPublish;
    if gap != [] {
      var earlier := gap[..|gap| - 1];
      GapThroughout(s, earlier);
      GapSteady(Reached(s, earlier), gap[|gap| - 1]);
      StepKeepsSound(Reached(s, earlier), gap[|gap| - 1]);
    }
  }

  lemma DecisionIs(s: State, now: int)
    requires Decides(s, now)
    ensures Step(s, AlarmChecked(now)) == s.(alarm := None, evicting := Some(s.live))
  {}

  lemma ReachedOne(s: State, e: Event)
    ensures Reached(s, [e]) == Step(s, e)
  {
    assert [e][..0] == [];
  }

  /** The step by which a creation that has read the log publishes. */
  lemma PublishingStep(s: State) returns (e: Event)
    requires AboutToPublish(s)
    ensures Publishes(s, e) && !e.AlarmEnds?
  {
    var p :| 0 <= p < |s.creations| && (s.creations[p].phase.MakingAgent? || s.creations[p].phase.ResolvingModel?);
    e := if s.creations[p].phase.MakingAgent? then AgentMade(p, NoModelChange) else ModelResolved(p, true);
  }

  /**
   * What can be told when the alarm decides: some continuation leaves an agent subscribed that is not live
   * if and only if no agent is live and a creation has already read the log.
   */
  lemma {:induction false} DecisionSafeIff(s: State, now: int)
    requires Sound(s) && OneSubscribed(s) && Decides(s, now)
    ensures
      var decided := Step(s, AlarmChecked(now));
      (exists gap :: Gap(gap) && !OneSubscribed(Step(Reached(decided, gap), AlarmEnds))) <==>
      s.live.None? && AboutToPublish(s)
  {
    hide Step, Sound, Decides, AboutToPublish, OneSubscribed, Reached;
    var decided := Step(s, AlarmChecked(now));
    DecisionIs(s, now);
    StepKeepsSound(s, AlarmChecked(now));
    SameButAlarm(s, decided);
    if s.live.None? && AboutToPublish(s) {
      var e := PublishingStep(decided);
      ReachedOne(decided, e);
      OrphanedInGap(decided, e);
      assert Gap([e]) && !OneSubscribed(Step(Reached(decided, [e]), AlarmEnds));
    } else {
      forall gap | Gap(gap) ensures OneSubscribed(Step(Reached(decided, gap), AlarmEnds)) {
        SafeGap(decided, gap);
      }
    }
  }

  lemma SameButAlarm(s: State, t: State)
    requires t == s.(alarm := None, evicting := Some(s.live))
    ensures OneSubscribed(t) <==> OneSubscribed(s)
    ensures AboutToPublish(t) <==> AboutToPublish(s)
  {}

  lemma OrphanedInGap(s: State, e: Event)
    requires Sound(s) && s.evicting == Some(None) && s.live.None? && Publishes(s, e)
    ensures !OneSubscribed(Step(Step(s, e), AlarmEnds))
  {
    hide SingleCreation, OneOwner, CommandsServed, AlarmOff, NoneAttached;
    assert |s.agents| in Step(Step(s, e), AlarmEnds).subscribed;
  }

  lemma SafeGap(s: State, gap: seq<Event>)
    requires Sound(s) && s.evicting == Some(s.live) && OneSubscribed(s) && Gap(gap)
    requires s.live.Some? || !AboutToPublish(s)
    ensures OneSubscribed(Step(Reached(s, gap), AlarmEnds))
  {
    hide Step, SingleCreation, OneOwner, CommandsServed, AlarmOff, NoneAttached, Reached, AboutToPublish;
    GapThroughout(s, gap);
    EvictionKeepsOneSubscribedIff(Reached(s, gap));
  }

  // ------------------------------------------------------------ turns

  predicate IsStreaming(s: State, a: nat) {
    a < |s.agents| && s.agents[a].streaming
  }

  lemma StreamingStep(s: State, e: Event, a: nat)
    ensures IsStreaming(Step(s, e), a) <==> StartsTurn(s, e, a) || (IsStreaming(s, a) && e != TurnEnds(a))
    ensures |s.agents| <= |Step(s, e).agents|
  {}

  /** A turn of the agent started in the run and has not ended. */
  ghost predicate InTurn(s: State, events: seq<Event>, a: nat) {
    Since(prefix => Reached(s, prefix), events, (x, e) => StartsTurn(x, e, a), (x, e) => e == TurnEnds(a))
  }

  lemma {:induction false} InTurnStep(s: State, events: seq<Event>, a: nat)
    requires events != []
    ensures
      var earlier, e := events[..|events| - 1], events[|events| - 1];
      InTurn(s, events, a) <==> StartsTurn(Reached(s, earlier), e, a) || (InTurn(s, earlier, a) && e != TurnEnds(a))
  {
    hide StartsTurn, Reached, Since;
    SinceStep(prefix => Reached(s, prefix), events, (x, e) => StartsTurn(x, e, a), (x, e) => e == TurnEnds(a));
  }

  /** An agent streams exactly if a turn of it started and has not ended; a new agent does not stream. */
  lemma {:induction false} StreamingExactly(s: State, events: seq<Event>, a: nat)
    requires !IsStreaming(s, a)
    ensures IsStreaming(Reached(s, events), a) <==> InTurn(s, events, a)
    ensures |s.agents| <= |Reached(s, events).agents|
  {
    hide Step, StartsTurn;
    if events != [] {
      var earlier := events[..|events| - 1];
      StreamingExactly(s, earlier, a);
      StreamingStep(Reached(s, earlier), events[|events| - 1], a);
      InTurnStep(s, events, a);
    }
  }

  /**
   * An agent goes away only by an alarm that was due, with no socket attached from its check to its end and the
   * agent idle at its check. It is idle at its end exactly if no turn of it started in between and still runs.
   */
  lemma {:induction false} EvictsIdleIff(s: State, now: int, gap: seq<Event>)
    requires Sound(s) && Decides(s, now) && s.live.Some? && Gap(gap)
    ensures
      var a, decided := s.live.value, Step(s, AlarmChecked(now));
      var t := Reached(decided, gap);
      && t.live == Some(a) && NoneAttached(t.connections) && Evicts(t, AlarmEnds, a)
      && a < |t.agents| && (t.agents[a].streaming <==> InTurn(decided, gap, a))
      && Step(t, AlarmEnds).live.None? && a !in Step(t, AlarmEnds).subscribed
  {
    hide Reached, SingleCreation, OneOwner, CommandsServed, AlarmOff, NoneAttached, InTurn;
    var decided := Step(s, AlarmChecked(now));
    DecisionIs(s, now);
    StepKeepsSound(s, AlarmChecked(now));
    ReachedIsSound(decided, gap);
    EvictionStays(decided, gap);
    StreamingExactly(decided, gap, s.live.value);
  }

  lemma {:induction false} EvictionStays(s: State, gap: seq<Event>)
    requires s.evicting.Some? && Gap(gap)
    ensures Reached(s, gap).evicting == s.evicting
  {
    if gap != [] {
      EvictionStays(s, gap[..|gap| - 1]);
    }
  }

  /** The live agent is lost in no other way. */
  lemma OnlyAlarmsEvict(s: State, e: Event)
    requires Sound(s) && s.live.Some? && Step(s, e).live != s.live
    ensures e.AlarmEnds? && s.evicting.Some? && NoneAttached(s.connections) && Step(s, e).live.None?
  {
    hide CommandsServed, AlarmOff, NoneAttached;
  }

  /** A turn starts on an agent that nobody is subscribed to exactly if an alarm evicted the agent before. */
  lemma {:induction false} TurnUnloggedIff(idleTimeout: int, owner: Option<Owner>, alarm: Option<int>, events: seq<Event>, k: nat)
    requires Enabled(Reached(Start(idleTimeout, owner, alarm), events), PromptStarts(k))
    ensures
      var s0 := Start(idleTimeout, owner, alarm);
      var s := Reached(s0, events);
      s.commands[k].progress.agent !in s.subscribed <==> Evicted(s0, events, s.commands[k].progress.agent)
  {
    hide Step, Evicted, Reached, Orphaned;
    SubscribedExactly(idleTimeout, owner, alarm, events, Reached(Start(idleTimeout, owner, alarm), events).commands[k].progress.agent);
  }

  // ------------------------------------------------------------ agents that no alarm will evict

  /** A live agent with nobody attached has an alarm set, or is being evicted. */
  predicate Armed(s: State) {
    s.live.Some? && NoneAttached(s.connections) && s.evicting.None? ==> s.alarm.Some?
  }

  /** An agent is published with nobody attached, no alarm set and no eviction under way. */
  predicate Leaks(s: State, e: Event) {
    Publishes(s, e) && NoneAttached(s.connections) && s.alarm.None? && s.evicting.None?
  }

  /** A socket is attached or removed. */
  predicate Rearms(s: State, e: Event) {
    Enabled(s, e) && (e.Attach? || e.Disconnect?)
  }

  lemma ArmedStep(s: State, e: Event)
    requires Sound(s)
    ensures !Armed(Step(s, e)) <==> Leaks(s, e) || (!Armed(s) && !Rearms(s, e))
  {
    hide OneOwner, CommandsServed;
    var t := Step(s, e);
    if Enabled(s, e) {
      if e.Attach? {
        assert t.connections[e.connection].phase.Attached?;
      } else if e.Connect? {
        assert t.connections[..|s.connections|] == s.connections;
        assert forall c :: 0 <= c < |s.connections| ==> t.connections[c] == s.connections[c];
      }
    }
  }

  /** In one step, the alarm is lost exactly by such a publication. */
  lemma ArmedLostIff(s: State, e: Event)
    requires Sound(s) && Armed(s)
    ensures !Armed(Step(s, e)) <==> Leaks(s, e)
  {
    hide Step, Sound, Armed, Leaks, Rearms;
    ArmedStep(s, e);
  }

  /** An agent was published that way, and no socket was attached or removed since. */
  ghost predicate LeakedSince(s: State, events: seq<Event>) {
    Since(prefix => Reached(s, prefix), events, Leaks, Rearms)
  }

  lemma {:induction false} LeakedSinceStep(s: State, events: seq<Event>)
    requires events != []
    ensures
      var earlier, e := events[..|events| - 1], events[|events| - 1];
      LeakedSince(s, events) <==> Leaks(Reached(s, earlier), e) || (LeakedSince(s, earlier) && !Rearms(Reached(s, earlier), e))
  {
    hide Leaks, Rearms, Reached, Since;
    SinceStep(prefix => Reached(s, prefix), events, Leaks, Rearms);
  }

  /** Over every run: a live agent is left without an alarm exactly if it was published so and nothing rearmed it. */
  lemma {:induction false} LeakedExactly(s: State, events: seq<Event>)
    requires Sound(s) && Armed(s)
    ensures !Armed(Reached(s, events)) <==> LeakedSince(s, events)
  {
    hide Step, Sound, Armed, Leaks, Rearms;
    if events != [] {
      var earlier := events[..|events| - 1];
      LeakedExactly(s, earlier);
      ReachedIsSound(s, earlier);
      ArmedStep(Reached(s, earlier), events[|events| - 1]);
      LeakedSinceStep(s, events);
    }
  }

  // ------------------------------------------------------------ runs in which it goes wrong

  lemma Extend(s: State, events: seq<Event>, e: Event) returns (more: seq<Event>)
    ensures more == events + [e] && Reached(s, more) == Step(Reached(s, events), e)
  {
    more := events + [e];
    assert more[..|events|] == events;
  }

  lemma NothingReached(s: State)
    ensures Reached(s, []) == s
  {}

  /** A first client connects and its first command waits for an agent that the factory is making. */
  lemma FirstCommand(idleTimeout: nat, owner: Owner) returns (events: seq<Event>)
    ensures
      var s := Start(idleTimeout, None, None);
      Reached(s, events) == s.(
        owner := Some(owner), connections := [Connection(owner, Attached)], creating := Some(0),
        creations := [Creation(owner, MakingAgent, false)], commands := [Command(0, Awaiting(0))])
  {
    hide Reached;
    var s := Start(idleTimeout, None, None);
    NothingReached(s);
    events := Extend(s, [], Connect(owner));
    events := Extend(s, events, Attach(0));
    events := Extend(s, events, GetOrCreate(0));
    events := Extend(s, events, LogRead(0));
  }

  /** The agent is published, and the command holds it. */
  lemma FirstAgent(idleTimeout: nat, owner: Owner) returns (events: seq<Event>)
    ensures
      var s := Start(idleTimeout, None, None);
      Reached(s, events) == s.(
        owner := Some(owner), connections := [Connection(owner, Attached)], live := Some(0), agents := [Agent(owner, false)],
        subscribed := {0}, creations := [Creation(owner, Made(0), true)], commands := [Command(0, Holding(0))])
  {
    hide Reached;
    var s := Start(idleTimeout, None, None);
    events := FirstCommand(idleTimeout, owner);
    events := Extend(s, events, AgentMade(0, NoModelChange));
    events := Extend(s, events, CreationCleared(0));
    events := Extend(s, events, CreationAwaited(0));
  }

  /** The factory answers between the alarm's check and its end: two agents end up subscribed, one of them live. */
  lemma TwoSubscribed(idleTimeout: nat, owner: Owner, now: int) returns (events: seq<Event>)
    ensures
      var s := Reached(Start(idleTimeout, None, None), events);
      s.live == Some(1) && s.subscribed == {0, 1}
  {
    hide Reached;
    var s := Start(idleTimeout, None, None);
    events := FirstCommand(idleTimeout, owner);
    events := Extend(s, events, Disconnect(0, now));
    events := Extend(s, events, AlarmChecked(now + idleTimeout));
    events := Extend(s, events, AgentMade(0, NoModelChange));
    events := Extend(s, events, AlarmEnds);
    assert Reached(s, events) == s.(
      owner := Some(owner), connections := [Connection(owner, Gone)], creating := Some(0), agents := [Agent(owner, false)],
      subscribed := {0}, creations := [Creation(owner, Made(0), false)], commands := [Command(0, Awaiting(0))]);
    events := Extend(s, events, CreationCleared(0));
    events := Extend(s, events, GetOrCreate(0));
    events := Extend(s, events, LogRead(1));
    events := Extend(s, events, AgentMade(1, NoModelChange));
  }

  /** A turn starts between the alarm's check and its end: the agent is evicted while it streams. */
  lemma EvictedInTurn(idleTimeout: nat, owner: Owner, now: int) returns (events: seq<Event>)
    ensures
      var s := Reached(Start(idleTimeout, None, None), events);
      s.agents == [Agent(owner, true)] && Evicts(s, AlarmEnds, 0)
  {
    hide Reached;
    var s := Start(idleTimeout, None, None);
    events := FirstAgent(idleTimeout, owner);
    events := Extend(s, events, PromptChecked(0));
    events := Extend(s, events, Disconnect(0, now));
    events := Extend(s, events, AlarmChecked(now + idleTimeout));
    events := Extend(s, events, PromptStarts(0));
  }

  /** A command that was preparing its prompt when the alarm fired starts its turn on the evicted agent. */
  lemma PromptAfterEviction(idleTimeout: nat, owner: Owner, now: int) returns (events: seq<Event>)
    ensures
      var s := Reached(Start(idleTimeout, None, None), events);
      s.agents == [Agent(owner, true)] && s.live.None? && s.subscribed == {}
  {
    hide Reached;
    var s := Start(idleTimeout, None, None);
    events := FirstAgent(idleTimeout, owner);
    events := Extend(s, events, PromptChecked(0));
    events := Extend(s, events, Disconnect(0, now));
    events := Extend(s, events, AlarmChecked(now + idleTimeout));
    events := Extend(s, events, AlarmEnds);
    events := Extend(s, events, PromptStarts(0));
  }

  /** A command that asks for an agent after the eviction makes one that no alarm will evict as things stand. */
  lemma LateCommandLeaksAgent(idleTimeout: nat, owner: Owner, now: int) returns (events: seq<Event>)
    ensures
      var s := Reached(Start(idleTimeout, None, None), events);
      s.live == Some(0) && !Armed(s) && forall at :: Step(s, AlarmChecked(at)) == s
  {
    hide Reached;
    var s := Start(idleTimeout, None, None);
    NothingReached(s);
    events := Extend(s, [], Connect(owner));
    events := Extend(s, events, Attach(0));
    events := Extend(s, events, Disconnect(0, now));
    events := Extend(s, events, AlarmChecked(now + idleTimeout));
    events := Extend(s, events, AlarmEnds);
    assert Reached(s, events) == s.(owner := Some(owner), connections := [Connection(owner, Gone)]);
    events := Extend(s, events, GetOrCreate(0));
    events := Extend(s, events, LogRead(0));
    events := Extend(s, events, AgentMade(0, NoModelChange));
  }
}
