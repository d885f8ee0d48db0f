/**
 * A session told from its history: how long it idles before it is evicted, who is attached, and
 * which agent a command gets.
 */
module AgentSessionTimes {
  import opened Options
  import opened Histories
  import opened AgentSession
  import opened AgentSessionAlarms

  // ------------------------------------------------------------ idling

  predicate Streaming(s: State) {
    s.live.Some? && s.live.value < |s.agents| && s.agents[s.live.value].streaming
  }

  /** The alarm is checked at `now` and has expired. */
  predicate Due(s: State, e: Event, now: int) {
    Enabled(s, e) && e == AlarmChecked(now) && s.alarm.Some? && s.alarm.value <= now
  }

  /** At `now` a removal leaves nobody attached, or an expired alarm finds the session left alone with a turn running. */
  predicate IdlesFrom(s: State, e: Event, now: int) {
    || (Enabled(s, e) && e.Disconnect? && e.now == now
        && forall c :: 0 <= c < |s.connections| && c != e.connection ==> !s.connections[c].phase.Attached?)
    || (Due(s, e, now) && NoneAttached(s.connections) && Streaming(s))
  }

  /** Idling begins anew or ends: somebody is attached, or an expired alarm is checked. */
  predicate Interrupts(s: State, e: Event) {
    || (Enabled(s, e) && e.Attach?)
    || (e.Disconnect? && IdlesFrom(s, e, e.now))
    || (e.AlarmChecked? && Due(s, e, e.now))
  }

  /** The session has been idle since the clock read `now`. */
  ghost predicate IdleSince(s: State, events: seq<Event>, now: int) {
    Since(prefix => Reached(s, prefix), events, (x, e) => IdlesFrom(x, e, now), Interrupts)
  }

  ghost predicate Interrupted(s: State, events: seq<Event>) {
    Once(prefix => Reached(s, prefix), events, Interrupts)
  }

  lemma {:induction false} IdleStep(s: State, events: seq<Event>, now: int)
    requires events != []
    ensures
      var earlier, e := events[..|events| - 1], events[|events| - 1];
      && (IdleSince(s, events, now) <==>
            IdlesFrom(Reached(s, earlier), e, now) || (IdleSince(s, earlier, now) && !Interrupts(Reached(s, earlier), e)))
      && (Interrupted(s, events) <==> Interrupts(Reached(s, earlier), e) || Interrupted(s, earlier))
  {
    hide IdlesFrom, Interrupts, Reached, Since, Once;
    SinceStep(prefix => Reached(s, prefix), events, (x, e) => IdlesFrom(x, e, now), Interrupts);
    OnceStep(prefix => Reached(s, prefix), events, Interrupts);
  }

  lemma AlarmStep(s: State, e: Event, t: int)
    ensures Step(s, e).alarm == Some(t) <==>
            IdlesFrom(s, e, t - s.idleTimeout) || (s.alarm == Some(t) && !Interrupts(s, e))
    ensures Step(s, e).idleTimeout == s.idleTimeout
  {
    if Enabled(s, e) && e.Disconnect? {
      var gone := s.connections[e.connection];
      var rest := if gone.phase.Attached? then s.connections[e.connection := gone.(phase := Gone)] else s.connections;
      assert NoneAttached(rest) <==>
             forall c :: 0 <= c < |s.connections| && c != e.connection ==> !s.connections[c].phase.Attached? by {
        assert !rest[e.connection].phase.Attached?;
        assert forall c :: 0 <= c < |s.connections| && c != e.connection ==> rest[c] == s.connections[c];
      }
    }
  }

  /**
   * Over every run: the alarm is set to one idle timeout after the moment since which the session idles, and only
   * then, except that an alarm of a former process stays until it is interrupted.
   */
  lemma {:induction false} AlarmExactly(idleTimeout: int, owner: Option<Owner>, alarm: Option<int>, events: seq<Event>, t: int)
    ensures
      var s0 := Start(idleTimeout, owner, alarm);
      && Reached(s0, events).idleTimeout == idleTimeout
      && (Reached(s0, events).alarm == Some(t) <==>
            IdleSince(s0, events, t - idleTimeout) || (alarm == Some(t) && !Interrupted(s0, events)))
  {
    hide Step, IdlesFrom, Interrupts;
    var s0 := Start(idleTimeout, owner, alarm);
    if events != [] {
      var earlier := events[..|events| - 1];
      AlarmExactly(idleTimeout, owner, alarm, earlier, t);
      AlarmStep(Reached(s0, earlier), events[|events| - 1], t);
      IdleStep(s0, events, t - idleTimeout);
    }
  }

  /**
   * A check of the alarm decides to evict exactly if the session has been idle for one idle timeout at least, nobody
   * is attached and no turn of the live agent runs.
   */
  lemma {:induction false} EvictsAfterIdleIff(idleTimeout: int, owner: Option<Owner>, events: seq<Event>, now: int)
    requires Enabled(Reached(Start(idleTimeout, owner, None), events), AlarmChecked(now))
    ensures
      var s0 := Start(idleTimeout, owner, None);
      var s := Reached(s0, events);
      Step(s, AlarmChecked(now)).evicting.Some? <==>
        && (exists since: int :: IdleSince(s0, events, since) && since + idleTimeout <= now)
        && NoneAttached(s.connections) && !Streaming(s)
  {
    hide Reached, IdleSince;
    var s0 := Start(idleTimeout, owner, None);
    var s := Reached(s0, events);
    if s.alarm.Some? {
      AlarmExactly(idleTimeout, owner, None, events, s.alarm.value);
    }
    forall since: int ensures IdleSince(s0, events, since) ==> s.alarm == Some(since + idleTimeout) {
      AlarmExactly(idleTimeout, owner, None, events, since + idleTimeout);
    }
  }

  /** Nobody was attached at any moment after step `n`. */
  ghost predicate NobodySince(s: State, events: seq<Event>, n: nat) {
    forall m: nat :: n < m <= |events| ==> NoneAttached(Reached(s, events[..m]).connections)
  }

  /** A session idle since some reading was left alone by a step at that reading, and nobody was attached ever since. */
  lemma {:induction false} IdleMeansAlone(idleTimeout: int, owner: Option<Owner>, alarm: Option<int>, events: seq<Event>, now: int)
    requires IdleSince(Start(idleTimeout, owner, alarm), events, now)
    ensures
      var s0 := Start(idleTimeout, owner, alarm);
      exists n :: 0 <= n < |events| && IdlesFrom(Reached(s0, events[..n]), events[n], now) && NobodySince(s0, events, n)
  {
    hide IdlesFrom, Interrupts, Reached, AlarmOff, NoneAttached;
    var s0 := Start(idleTimeout, owner, alarm);
    var n :| 0 <= n < |events| &&
      BeginsAt(prefix => Reached(s0, prefix), events, (x, e) => IdlesFrom(x, e, now), Interrupts, n);
    forall m: nat | n < m <= |events| ensures NoneAttached(Reached(s0, events[..m]).connections) {
      IdleInPrefix(s0, events, now, n, m);
      AlarmExactly(idleTimeout, owner, alarm, events[..m], now + idleTimeout);
      StartIsSound(idleTimeout, owner, alarm);
      ReachedIsSound(s0, events[..m]);
      SetAlarmMeansAlone(Reached(s0, events[..m]));
    }
  }

  lemma SetAlarmMeansAlone(s: State)
    requires Sound(s) && s.alarm.Some?
    ensures NoneAttached(s.connections)
  {}

  lemma {:induction false} IdleInPrefix(s: State, events: seq<Event>, now: int, n: nat, m: nat)
    requires n < m <= |events|
    requires BeginsAt(prefix => Reached(s, prefix), events, (x, e) => IdlesFrom(x, e, now), Interrupts, n)
    ensures IdleSince(s, events[..m], now)
  {
    hide IdlesFrom, Interrupts, Reached;
    var part := events[..m];
    forall k | 0 <= k < m ensures part[..k] == events[..k] && part[k] == events[k] {}
    assert BeginsAt(prefix => Reached(s, prefix), part, (x, e) => IdlesFrom(x, e, now), Interrupts, n);
  }

  // ------------------------------------------------------------ who is attached

  ghost predicate AttachedLast(s: State, events: seq<Event>, c: nat) {
    Since(prefix => Reached(s, prefix), events, (x, e) => Enabled(x, e) && e == Attach(c),
          (x, e) => Enabled(x, e) && e.Disconnect? && e.connection == c)
  }

  lemma {:induction false} AttachedLastStep(s: State, events: seq<Event>, c: nat)
    requires events != []
    ensures
      var earlier, e := events[..|events| - 1], events[|events| - 1];
      var x := Reached(s, earlier);
      AttachedLast(s, events, c) <==>
        (Enabled(x, e) && e == Attach(c)) || (AttachedLast(s, earlier, c) && !(Enabled(x, e) && e.Disconnect? && e.connection == c))
  {
    hide Enabled, Reached, Since;
    SinceStep(prefix => Reached(s, prefix), events, (x, e) => Enabled(x, e) && e == Attach(c),
              (x, e) => Enabled(x, e) && e.Disconnect? && e.connection == c);
  }

  predicate IsAttached(s: State, c: nat) {
    c < |s.connections| && s.connections[c].phase.Attached?
  }

  lemma AttachStep(s: State, e: Event, c: nat)
    ensures IsAttached(Step(s, e), c) <==>
            (Enabled(s, e) && e == Attach(c)) || (IsAttached(s, c) && !(Enabled(s, e) && e.Disconnect? && e.connection == c))
  {}

  /** A connection was turned away exactly if its owner is not the stored one. */
  ghost predicate TurnedAwayRightly(s: State) {
    && (s.connections != [] ==> s.owner.Some?)
    && forall c :: 0 <= c < |s.connections| ==> (s.connections[c].phase.Rejected? <==> s.owner != Some(s.connections[c].owner))
  }

  lemma SameOwnerIs(left: Owner, right: Owner)
    ensures SameOwner(left, right) <==> left == right
  {
    assert left == Owner(left.organizationId, left.projectId, left.userId);
    assert right == Owner(right.organizationId, right.projectId, right.userId);
  }

  lemma OthersKeepConnections(s: State, e: Event)
    requires !e.Connect? && !e.Attach? && !e.Disconnect?
    ensures Step(s, e).connections == s.connections && Step(s, e).owner == s.owner
  {}

  /** Attaching and removing turn nobody away and take nobody back. */
  lemma SocketsKeepRejections(s: State, e: Event)
    requires e.Attach? || e.Disconnect?
    ensures Step(s, e).owner == s.owner && |Step(s, e).connections| == |s.connections|
    ensures forall c :: 0 <= c < |s.connections| ==>
              && Step(s, e).connections[c].owner == s.connections[c].owner
              && (Step(s, e).connections[c].phase.Rejected? <==> s.connections[c].phase.Rejected?)
  {}

  lemma ConnectIs(s: State, owner: Owner)
    requires s.evicting.None?
    ensures
      var t := Step(s, Connect(owner));
      && t.owner.Some? && (s.owner.Some? ==> t.owner == s.owner) && (s.owner.None? ==> t.owner == Some(owner))
      && |t.connections| == |s.connections| + 1 && t.connections[..|s.connections|] == s.connections
      && t.connections[|s.connections|].owner == owner
      && (t.connections[|s.connections|].phase.Rejected? <==> t.owner != Some(owner))
  {
    hide SameOwner;
    if s.owner.Some? { SameOwnerIs(s.owner.value, owner); }
  }

  lemma StepTurnsAwayRightly(s: State, e: Event)
    requires TurnedAwayRightly(s)
    ensures TurnedAwayRightly(Step(s, e))
  {
    hide Step;
    if e.Connect? {
      if s.evicting.None? {
        ConnectIs(s, e.owner);
        var t := Step(s, e);
        assert forall c :: 0 <= c < |s.connections| ==> t.connections[..|s.connections|][c] == t.connections[c];
      } else {
        ConnectBlocked(s, e.owner);
      }
    } else if e.Attach? || e.Disconnect? {
      SocketsKeepRejections(s, e);
      var t := Step(s, e);
      forall c | 0 <= c < |t.connections| ensures t.connections[c].phase.Rejected? <==> t.owner != Some(t.connections[c].owner) {
        var was := s.connections[c];
        assert was.phase.Rejected? <==> s.owner != Some(was.owner);
      }
    } else {
      OthersKeepConnections(s, e);
    }
  }

  lemma ConnectBlocked(s: State, owner: Owner)
    requires s.evicting.Some?
    ensures Step(s, Connect(owner)) == s
  {}

  /**
   * Over every run: a connection is attached exactly if it was and has not been removed since, and rejected exactly
   * if its owner is another than the stored one.
   */
  lemma {:induction false} ConnectionsExactly(idleTimeout: int, owner: Option<Owner>, alarm: Option<int>, events: seq<Event>, c: nat)
    ensures
      var s0 := Start(idleTimeout, owner, alarm);
      var s := Reached(s0, events);
      && (IsAttached(s, c) <==> AttachedLast(s0, events, c))
      && TurnedAwayRightly(s)
  {
    hide Step, Enabled;
    if events != [] {
      var s0 := Start(idleTimeout, owner, alarm);
      var earlier := events[..|events| - 1];
      ConnectionsExactly(idleTimeout, owner, alarm, earlier, c);
      AttachStep(Reached(s0, earlier), events[|events| - 1], c);
      StepTurnsAwayRightly(Reached(s0, earlier), events[|events| - 1]);
      AttachedLastStep(s0, events, c);
    }
  }

  // ------------------------------------------------------------ which agent a command gets

  /** Command `k` asks while agent `a` is live. */
  predicate FindsLive(s: State, e: Event, k: nat, a: nat) {
    Enabled(s, e) && e.GetOrCreate? && |s.commands| == k && s.live == Some(a)
  }

  /** Command `k` asks while no agent is live, and joins or starts creation `p`. */
  predicate JoinsCreation(s: State, e: Event, k: nat, p: nat) {
    && Enabled(s, e) && e.GetOrCreate? && |s.commands| == k && s.live.None?
    && p == if s.creating.Some? then s.creating.value else |s.creations|
  }

  /** Creation `p` publishes agent `a`. */
  predicate Makes(s: State, e: Event, p: nat, a: nat) {
    Publishes(s, e) && e.creation == p && |s.agents| == a
  }

  ghost predicate MadeBy(s: State, events: seq<Event>, p: nat, a: nat) {
    Once(prefix => Reached(s, prefix), events, (x, e) => Makes(x, e, p, a))
  }

  lemma {:induction false} MadeByStep(s: State, events: seq<Event>, p: nat, a: nat)
    requires events != []
    ensures
      var earlier, e := events[..|events| - 1], events[|events| - 1];
      MadeBy(s, events, p, a) <==> Makes(Reached(s, earlier), e, p, a) || MadeBy(s, earlier, p, a)
  {
    hide Makes, Reached, Once;
    OnceStep(prefix => Reached(s, prefix), events, (x, e) => Makes(x, e, p, a));
  }

  predicate IsMade(s: State, p: nat, a: nat) {
    p < |s.creations| && s.creations[p].phase == Made(a)
  }

  lemma MadeStep(s: State, e: Event, p: nat, a: nat)
    ensures IsMade(Step(s, e), p, a) <==> Makes(s, e, p, a) || IsMade(s, p, a)
  {}

  lemma {:induction false} MadeExactly(idleTimeout: int, owner: Option<Owner>, alarm: Option<int>, events: seq<Event>, p: nat, a: nat)
    ensures
      var s0 := Start(idleTimeout, owner, alarm);
      IsMade(Reached(s0, events), p, a) <==> MadeBy(s0, events, p, a)
  {
    hide Step, Makes;
    if events != [] {
      var s0 := Start(idleTimeout, owner, alarm);
      var earlier := events[..|events| - 1];
      MadeExactly(idleTimeout, owner, alarm, earlier, p, a);
      MadeStep(Reached(s0, earlier), events[|events| - 1], p, a);
      MadeByStep(s0, events, p, a);
    }
  }

  // ------------------------------------------------------------ the stages of a command

  /** The await of command `k` ends, and the creation it awaited had made agent `a`, or none. */
  predicate Receives(s: State, e: Event, k: nat, a: nat) {
    AwaitEnds(s, e, k) && IsMade(s, s.commands[k].progress.creation, a)
  }

  predicate AwaitEnds(s: State, e: Event, k: nat) {
    Enabled(s, e) && e == CreationAwaited(k)
  }

  predicate PromptCheckedOf(s: State, e: Event, k: nat) {
    Enabled(s, e) && e == PromptChecked(k)
  }

  /** Command `k` finds its agent `a` without a turn. */
  predicate GoesOn(s: State, e: Event, k: nat, a: nat) {
    PromptCheckedOf(s, e, k) && s.commands[k].progress.agent == a && !IsStreaming(s, a)
  }

  predicate PromptStartsOf(s: State, e: Event, k: nat) {
    Enabled(s, e) && e == PromptStarts(k)
  }

  ghost predicate WaitingSince(s: State, events: seq<Event>, k: nat, p: nat) {
    Since(prefix => Reached(s, prefix), events, (x, e) => JoinsCreation(x, e, k, p), (x, e) => AwaitEnds(x, e, k))
  }

  ghost predicate HoldingSince(s: State, events: seq<Event>, k: nat, a: nat) {
    Since(prefix => Reached(s, prefix), events, (x, e) => FindsLive(x, e, k, a) || Receives(x, e, k, a), (x, e) => PromptCheckedOf(x, e, k))
  }

  ghost predicate PreparingSince(s: State, events: seq<Event>, k: nat, a: nat) {
    Since(prefix => Reached(s, prefix), events, (x, e) => GoesOn(x, e, k, a), (x, e) => PromptStartsOf(x, e, k))
  }

  lemma {:induction false} StagesStep(s: State, events: seq<Event>, k: nat, p: nat, a: nat)
    requires events != []
    ensures
      var earlier, e := events[..|events| - 1], events[|events| - 1];
      var x := Reached(s, earlier);
      && (WaitingSince(s, events, k, p) <==> JoinsCreation(x, e, k, p) || (WaitingSince(s, earlier, k, p) && !AwaitEnds(x, e, k)))
      && (HoldingSince(s, events, k, a) <==>
            FindsLive(x, e, k, a) || Receives(x, e, k, a) || (HoldingSince(s, earlier, k, a) && !PromptCheckedOf(x, e, k)))
      && (PreparingSince(s, events, k, a) <==> GoesOn(x, e, k, a) || (PreparingSince(s, earlier, k, a) && !PromptStartsOf(x, e, k)))
  {
    hide JoinsCreation, AwaitEnds, FindsLive, Receives, PromptCheckedOf, GoesOn, PromptStartsOf, Reached, Since;
    SinceStep(prefix => Reached(s, prefix), events, (x, e) => JoinsCreation(x, e, k, p), (x, e) => AwaitEnds(x, e, k));
    SinceStep(prefix => Reached(s, prefix), events, (x, e) => FindsLive(x, e, k, a) || Receives(x, e, k, a), (x, e) => PromptCheckedOf(x, e, k));
    SinceStep(prefix => Reached(s, prefix), events, (x, e) => GoesOn(x, e, k, a), (x, e) => PromptStartsOf(x, e, k));
  }

  predicate IsAt(s: State, k: nat, progress: Progress) {
    k < |s.commands| && s.commands[k].progress == progress
  }

  lemma WaitingStep(s: State, e: Event, k: nat, p: nat)
    requires LiveSubscribed(s)
    ensures IsAt(Step(s, e), k, Awaiting(p)) <==> JoinsCreation(s, e, k, p) || (IsAt(s, k, Awaiting(p)) && !AwaitEnds(s, e, k))
  {}

  lemma HoldingStep(s: State, e: Event, k: nat, a: nat)
    requires LiveSubscribed(s) && OneOwner(s)
    ensures IsAt(Step(s, e), k, Holding(a)) <==>
            FindsLive(s, e, k, a) || Receives(s, e, k, a) || (IsAt(s, k, Holding(a)) && !PromptCheckedOf(s, e, k))
  {}

  lemma PreparingStep(s: State, e: Event, k: nat, a: nat)
    requires LiveSubscribed(s)
    ensures IsAt(Step(s, e), k, Preparing(a)) <==>
            GoesOn(s, e, k, a) || (IsAt(s, k, Preparing(a)) && !PromptStartsOf(s, e, k))
  {}

  /**
   * Over every run: a command waits for the creation it joined; holds the agent that was live when it asked, or that
   * its creation made; and prepares a prompt if no turn ran when that was checked. Each lasts until the next stage.
   */
  lemma {:induction false} CommandsExactly(idleTimeout: int, owner: Option<Owner>, alarm: Option<int>, events: seq<Event>, k: nat, p: nat, a: nat)
    ensures
      var s0 := Start(idleTimeout, owner, alarm);
      var s := Reached(s0, events);
      && (IsAt(s, k, Awaiting(p)) <==> WaitingSince(s0, events, k, p))
      && (IsAt(s, k, Holding(a)) <==> HoldingSince(s0, events, k, a))
      && (IsAt(s, k, Preparing(a)) <==> PreparingSince(s0, events, k, a))
  {
    hide Step, JoinsCreation, AwaitEnds, FindsLive, Receives, PromptCheckedOf, GoesOn, PromptStartsOf,
      LiveSubscribed, OneOwner, SingleCreation, CommandsServed, EvictionSteady, AlarmOff;
    if events != [] {
      var s0 := Start(idleTimeout, owner, alarm);
      var earlier, e := events[..|events| - 1], events[|events| - 1];
      CommandsExactly(idleTimeout, owner, alarm, earlier, k, p, a);
      StartIsSound(idleTimeout, owner, alarm);
      ReachedIsSound(s0, earlier);
      WaitingStep(Reached(s0, earlier), e, k, p);
      HoldingStep(Reached(s0, earlier), e, k, a);
      PreparingStep(Reached(s0, earlier), e, k, a);
      StagesStep(s0, events, k, p, a);
    }
  }
}
