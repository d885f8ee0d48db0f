/**
 * The model choice across evictions. Commands are whole here and evictions fall between them; an
 * evicted agent is made again from the session log by the next command that needs one.
 */
module SessionModels {
  import opened Options
  import opened Utf8Chunks
  import opened SessionLog

  datatype Model = Model(provider: string, id: string, settings: int)

  /** The host's part: the model of a newly created agent, and the resolution of a provider and a model id. */
  datatype Factory = Factory(standard: Model, resolve: (string, string) -> Option<Model>)

  /** The log, and the live agent's model if there is an agent. */
  datatype State = State(log: seq<Body>, model: Option<Model>)

  /** The last model change in the log. */
  function LastChange(log: seq<Body>): (r: Option<Body>)
    ensures r.Some? ==> r.value.ModelChange? && r.value in log
    ensures r.None? ==> forall i :: 0 <= i < |log| ==> !log[i].ModelChange?
  {
    if log == [] then None
    else if log[|log| - 1].ModelChange? then Some(log[|log| - 1])
    else LastChange(log[..|log| - 1])
  }

  function Restored(factory: Factory, provider: string, id: string): Model {
    match factory.resolve(provider, id)
    case Some(model) => model
    case None => factory.standard
  }

  /** The model `#create` gives an agent. */
  function ModelFrom(factory: Factory, log: seq<Body>): Model {
    match LastChange(log)
    case Some(ModelChange(provider, id)) => Restored(factory, provider, id)
    case _ => factory.standard
  }

  /** `messagesFromSessionLog`: what the factory is given. */
  function Messages(log: seq<Body>): seq<Text> {
    if log == [] then []
    else Messages(log[..|log| - 1]) + if log[|log| - 1].Message? then [log[|log| - 1].message] else []
  }

  // ------------------------------------------------------------ commands

  /** `Use`: a command that only needs the agent. `Turn`: a turn that ends and logs its messages. */
  datatype Command = Use | SetModel(provider: string, id: string) | Turn(messages: seq<Text>) | Evict

  function Live(factory: Factory, s: State): State {
    if s.model.Some? then s else s.(model := Some(ModelFrom(factory, s.log)))
  }

  function Bodies(messages: seq<Text>): seq<Body> {
    if messages == [] then [] else Bodies(messages[..|messages| - 1]) + [Message(messages[|messages| - 1])]
  }

  function Step(factory: Factory, s: State, c: Command): State {
    match c
    case Use => Live(factory, s)
    case SetModel(provider, id) =>
      (match factory.resolve(provider, id)
       case None => Live(factory, s)
       case Some(model) => State(s.log + [ModelChange(model.provider, model.id)], Some(model)))
    case Turn(messages) => Live(factory, s).(log := s.log + Bodies(messages))
    case Evict => s.(model := None)
  }

  function Run(factory: Factory, commands: seq<Command>): State {
    if commands == [] then State([], None)
    else Step(factory, Run(factory, commands[..|commands| - 1]), commands[|commands| - 1])
  }

  function WithoutEvictions(commands: seq<Command>): seq<Command> {
    if commands == [] then []
    else
      WithoutEvictions(commands[..|commands| - 1])
      + if commands[|commands| - 1].Evict? then [] else [commands[|commands| - 1]]
  }

  /** The agent's model and the log in memory and storage. */
  class SessionModel {
    const factory: Factory
    var log: seq<Body>
    var model: Option<Model>

    ghost function Contents(): State
      reads this
    {
      State(log, model)
    }

    constructor (factory: Factory)
      ensures Contents() == Run(factory, []) && this.factory == factory
    {
      this.factory := factory;
      log, model := [], None;
    }

    static method FindLastChange(log: seq<Body>) returns (change: Option<Body>)
      ensures change == LastChange(log)
    {
      var i := |log|;
      assert log[..i] == log;
      while i > 0
        invariant 0 <= i <= |log|
        invariant LastChange(log) == LastChange(log[..i])
      {
        if log[i - 1].ModelChange? {
          return Some(log[i - 1]);
        }
        i := i - 1;
        assert log[..i + 1][..i] == log[..i];
      }
      return None;
    }

    method GetOrCreate()
      modifies `model
      ensures Contents() == Live(factory, old(Contents()))
    {
      if model.Some? {
        return;
      }
      var created := factory.standard;
      var change := FindLastChange(log);
      if change.Some? {
        var resolved := factory.resolve(change.value.provider, change.value.modelId);
        if resolved.Some? {
          created := resolved.value;
        }
      }
      model := Some(created);
    }

    method ChooseModel(provider: string, id: string) returns (known: bool)
      modifies this
      ensures known == factory.resolve(provider, id).Some?
      ensures Contents() == Step(factory, old(Contents()), SetModel(provider, id))
    {
      GetOrCreate();
      var resolved := factory.resolve(provider, id);
      if resolved.None? {
        return false;
      }
      model := resolved;
      log := log + [ModelChange(resolved.value.provider, resolved.value.id)];
      return true;
    }

    /** A turn that ended: its messages are appended to the log. */
    method LogTurn(messages: seq<Text>)
      modifies this
      ensures Contents() == Step(factory, old(Contents()), Turn(messages))
    {
      GetOrCreate();
      var first := log;
      var i := 0;
      while i < |messages|
        invariant 0 <= i <= |messages|
        invariant model == Live(factory, old(Contents())).model
        invariant log == first + Bodies(messages[..i])
      {
        log := log + [Message(messages[i])];
        assert messages[..i + 1][..i] == messages[..i];
        i := i + 1;
      }
      assert messages[..i] == messages;
    }

    method EvictAgent()
      modifies `model
      ensures Contents() == Step(factory, old(Contents()), Evict)
    {
      model := None;
    }
  }

  // ------------------------------------------------------------ evictions do not show

  /** Resolving a resolved model's own provider and id gives it back. */
  ghost predicate Restores(factory: Factory) {
    forall provider, id ::
      factory.resolve(provider, id).Some? ==>
        var model := factory.resolve(provider, id).value;
        Restored(factory, model.provider, model.id) == model
  }

  /** The run and the same run without its evictions: one log, one set of messages, one model. */
  ghost predicate Invisible(factory: Factory, commands: seq<Command>) {
    var evicting, steady := Run(factory, commands), Run(factory, WithoutEvictions(commands));
    && evicting.log == steady.log
    && Messages(evicting.log) == Messages(steady.log)
    && Live(factory, evicting).model == Live(factory, steady).model
  }

  lemma NoChangeInOne(log: seq<Body>, message: Text)
    ensures LastChange(log + [Message(message)]) == LastChange(log)
  {
    assert (log + [Message(message)])[..|log|] == log;
  }

  lemma {:induction false} NoChangeIn(log: seq<Body>, messages: seq<Text>)
    ensures LastChange(log + Bodies(messages)) == LastChange(log)
  {
    if messages == [] {
      assert log + Bodies(messages) == log;
    } else {
      hide LastChange;
      var n := |messages| - 1;
      NoChangeIn(log, messages[..n]);
      NoChangeInOne(log + Bodies(messages[..n]), messages[n]);
      assert log + Bodies(messages) == log + Bodies(messages[..n]) + [Message(messages[n])];
    }
  }

  /** The live agent always has the model the log says. */
  lemma {:induction false} ModelFollowsLog(factory: Factory, commands: seq<Command>)
    requires Restores(factory)
    ensures
      var s := Run(factory, commands);
      s.model.Some? ==> s.model.value == ModelFrom(factory, s.log)
  {
    if commands != [] {
      var s := Run(factory, commands[..|commands| - 1]);
      ModelFollowsLog(factory, commands[..|commands| - 1]);
      match commands[|commands| - 1]
      case SetModel(provider, id) =>
        if factory.resolve(provider, id).Some? {
          var model := factory.resolve(provider, id).value;
          assert (s.log + [ModelChange(model.provider, model.id)])[|s.log|] == ModelChange(model.provider, model.id);
        }
      case Turn(messages) => NoChangeIn(s.log, messages);
      case _ =>
    }
  }

  lemma StepLog(factory: Factory, s: State, t: State, c: Command)
    requires s.log == t.log
    ensures Step(factory, s, c).log == Step(factory, t, c).log
    ensures c.Evict? ==> Step(factory, s, c).log == s.log
  {}

  lemma {:induction false} SameLog(factory: Factory, commands: seq<Command>)
    ensures Run(factory, commands).log == Run(factory, WithoutEvictions(commands)).log
  {
    hide Step, Live;
    if commands != [] {
      var earlier, last := commands[..|commands| - 1], commands[|commands| - 1];
      var steady := WithoutEvictions(commands);
      SameLog(factory, earlier);
      StepLog(factory, Run(factory, earlier), Run(factory, WithoutEvictions(earlier)), last);
      if last.Evict? {
        assert steady == WithoutEvictions(earlier);
      } else {
        assert steady[..|steady| - 1] == WithoutEvictions(earlier);
      }
    }
  }

  /** With one known model change and an eviction, the model shown is the restored one. */
  lemma EvictionShows(factory: Factory, provider: string, id: string)
    requires factory.resolve(provider, id).Some?
    requires Invisible(factory, [SetModel(provider, id), Evict])
    ensures
      var model := factory.resolve(provider, id).value;
      Restored(factory, model.provider, model.id) == model
  {
    var choose, evict := SetModel(provider, id), Evict;
    var commands := [choose, evict];
    assert commands[..1] == [choose] && [choose][..0] == [];
    assert WithoutEvictions([choose]) == [choose] by { assert WithoutEvictions([]) == []; }
    assert WithoutEvictions(commands) == [choose];
    var model := factory.resolve(provider, id).value;
    assert Run(factory, []) == State([], None);
    assert Run(factory, [choose]) == State([ModelChange(model.provider, model.id)], Some(model));
    assert Run(factory, commands) == State([ModelChange(model.provider, model.id)], None);
  }

  /** Evictions are invisible in every run exactly when every resolvable model restores to itself. */
  lemma {:induction false} EvictionsInvisibleIff(factory: Factory)
    ensures (forall commands :: Invisible(factory, commands)) <==> Restores(factory)
  {
    if Restores(factory) {
      forall commands ensures Invisible(factory, commands) {
        SameLog(factory, commands);
        ModelFollowsLog(factory, commands);
        ModelFollowsLog(factory, WithoutEvictions(commands));
      }
    }
    if forall commands :: Invisible(factory, commands) {
      forall provider, id | factory.resolve(provider, id).Some?
        ensures
          var model := factory.resolve(provider, id).value;
          Restored(factory, model.provider, model.id) == model
      {
        EvictionShows(factory, provider, id);
      }
    }
  }

  // ------------------------------------------------------------ a run told from its commands

  /** The messages of all turns, in order. */
  function TurnMessages(commands: seq<Command>): seq<Text> {
    if commands == [] then []
    else (if commands[0].Turn? then commands[0].messages else []) + TurnMessages(commands[1..])
  }

  lemma {:induction false} TurnMessagesSnoc(commands: seq<Command>, c: Command)
    ensures TurnMessages(commands + [c]) == TurnMessages(commands) + if c.Turn? then c.messages else []
  {
    if commands == [] {
      assert [c][1..] == [];
    } else {
      TurnMessagesSnoc(commands[1..], c);
      assert (commands + [c])[1..] == commands[1..] + [c];
    }
  }

  lemma {:induction false} MessagesConcat(log: seq<Body>, messages: seq<Text>)
    ensures Messages(log + Bodies(messages)) == Messages(log) + messages
  {
    hide Messages;
    if messages == [] {
      assert log + Bodies(messages) == log;
    } else {
      var n := |messages| - 1;
      var earlier := log + Bodies(messages[..n]);
      MessagesConcat(log, messages[..n]);
      assert log + Bodies(messages) == earlier + [Message(messages[n])];
      OneMoreMessage(earlier, messages[n]);
      assert messages == messages[..n] + [messages[n]];
    }
  }

  lemma OneMoreMessage(log: seq<Body>, message: Text)
    ensures Messages(log + [Message(message)]) == Messages(log) + [message]
  {
    assert (log + [Message(message)])[..|log|] == log;
  }

  /** Whatever is evicted when: a new agent is given the messages of all turns so far, in order. */
  lemma {:induction false} MessagesAreTurns(factory: Factory, commands: seq<Command>)
    ensures Messages(Run(factory, commands).log) == TurnMessages(commands)
  {
    hide Messages, Bodies;
    if commands == [] {
      NoMessages();
    } else {
      var n := |commands| - 1;
      MessagesAreTurns(factory, commands[..n]);
      assert commands == commands[..n] + [commands[n]];
      TurnMessagesSnoc(commands[..n], commands[n]);
      var log := Run(factory, commands[..n]).log;
      match commands[n]
      case Turn(messages) => MessagesConcat(log, messages);
      case SetModel(provider, id) =>
        if factory.resolve(provider, id).Some? {
          var model := factory.resolve(provider, id).value;
          ChangeIsNoMessage(log, model);
        }
      case _ =>
    }
  }

  lemma NoMessages()
    ensures Messages([]) == []
  {}

  lemma ChangeIsNoMessage(log: seq<Body>, model: Model)
    ensures Messages(log + [ModelChange(model.provider, model.id)]) == Messages(log)
  {
    assert (log + [ModelChange(model.provider, model.id)])[..|log|] == log;
  }

  /** Command `n` chooses a model that is known. */
  predicate Chooses(factory: Factory, commands: seq<Command>, n: nat)
    requires n < |commands|
  {
    commands[n].SetModel? && factory.resolve(commands[n].provider, commands[n].id).Some?
  }

  /** Command `n` is the last of those. */
  ghost predicate ChoosesLast(factory: Factory, commands: seq<Command>, n: nat) {
    n < |commands| && Chooses(factory, commands, n) && forall m :: n < m < |commands| ==> !Chooses(factory, commands, m)
  }

  /** The model is the one a new agent gets after this choice, or after none. */
  predicate IsModelOf(factory: Factory, model: Model, chosen: Option<Model>) {
    match chosen
    case None => model == factory.standard
    case Some(choice) =>
      match factory.resolve(choice.provider, choice.id)
      case Some(known) => model == known
      case None => model == factory.standard
  }

  /** A new agent's model is given by the last known choice of the run; without one it is the standard model. */
  lemma {:induction false} NewAgentsModel(factory: Factory, commands: seq<Command>, n: nat)
    ensures ChoosesLast(factory, commands, n) ==>
              IsModelOf(factory, ModelFrom(factory, Run(factory, commands).log),
                        Some(factory.resolve(commands[n].provider, commands[n].id).value))
    ensures (forall m :: 0 <= m < |commands| ==> !Chooses(factory, commands, m)) ==>
              IsModelOf(factory, ModelFrom(factory, Run(factory, commands).log), None)
  {
    if commands != [] {
      var k := |commands| - 1;
      var earlier, s := commands[..k], Run(factory, commands[..k]);
      forall m | 0 <= m < k ensures Chooses(factory, earlier, m) <==> Chooses(factory, commands, m) {}
      NewAgentsModel(factory, earlier, n);
      match commands[k]
      case SetModel(provider, id) =>
        if Chooses(factory, commands, k) {
          var model := factory.resolve(provider, id).value;
          assert (s.log + [ModelChange(model.provider, model.id)])[|s.log|] == ModelChange(model.provider, model.id);
        }
      case Turn(messages) => NoChangeIn(s.log, messages);
      case _ =>
    }
  }

  /** With a factory that restores what it resolves, any agent has the last chosen model, whatever was evicted since. */
  lemma {:induction false} AgentHasLastChoice(factory: Factory, commands: seq<Command>, n: nat)
    requires Restores(factory) && ChoosesLast(factory, commands, n)
    ensures Live(factory, Run(factory, commands)).model == factory.resolve(commands[n].provider, commands[n].id)
  {
    hide Run, ModelFrom;
    ModelFollowsLog(factory, commands);
    NewAgentsModel(factory, commands, n);
  }
}
