/**
 * The delivery protocol: claim the key, acknowledge, apply in the background, and release
 * the key when applying failed. A run interleaves the steps of any number of handlers.
 */
module WebhookDelivery {
  import opened Histories
  import opened Webhooks

  // ------------------------------------------------------------ state and steps

  datatype Phase = Running | Succeeded | Failed

  /** A background `dispatchWebhook`: its key, when the key was claimed, and how far it got. */
  datatype Job = Job(key: Key, claimedAt: int, phase: Phase)

  /** Jobs are listed in the order their claims were granted. */
  datatype State = State(claimed: Generations, jobs: seq<Job>, clock: int)

  /** `Deliver`: a verified delivery is claimed. `Finish`: job `index` ends, releasing its key if it failed. */
  datatype Event =
    | Deliver(key: Key, now: int)
    | Finish(index: nat, ok: bool, now: int)

  function Start(window: int, now: int): State {
    State(Generations(window, now, {}, {}), [], now)
  }

  predicate Enabled(s: State, e: Event) {
    e.Finish? ==> e.index < |s.jobs| && s.jobs[e.index].phase.Running?
  }

  /** One step; finishing a job that is not running changes nothing. */
  function Step(s: State, e: Event): State {
    if !Enabled(s, e) then s else
    match e
    case Deliver(key, now) =>
      State(
        s.claimed.Claimed(key, now),
        if s.claimed.Grants(key, now) then s.jobs + [Job(key, now, Running)] else s.jobs,
        now)
    case Finish(index, ok, now) =>
      var job := s.jobs[index];
      State(
        if ok then s.claimed else s.claimed.Released(job.key),
        s.jobs[index := job.(phase := if ok then Succeeded else Failed)],
        now)
  }

  // ------------------------------------------------------------ the handlers

  /** What reading and verifying a request body comes to. */
  datatype Request = TooLarge | BadSignature | Verified(key: Key)

  datatype Response = Response(status: int, duplicate: bool)

  const SERVICE_UNAVAILABLE := 503
  const ENTITY_TOO_LARGE := 413
  const BAD_REQUEST := 400
  const OK := 200

  class WebhookServer {
    const hasSecret: bool
    const deliveries: DedupeSet
    var jobs: seq<Job>
    var clock: int

    ghost function Contents(): State
      reads this, deliveries
    {
      State(deliveries.Contents(), jobs, clock)
    }

    constructor (hasSecret: bool, window: int, now: int)
      ensures Contents() == Start(window, now) && this.hasSecret == hasSecret && fresh(deliveries)
    {
      this.hasSecret := hasSecret;
      deliveries := new DedupeSet(window, now);
      jobs, clock := [], now;
    }

    /** Only a verified request of a configured server reaches the claim; a duplicate is acknowledged but starts no job. */
    method HandleWebhook(request: Request, now: int) returns (response: Response)
      modifies this, deliveries
      ensures 200 <= response.status < 300 <==> hasSecret && request.Verified?
      ensures response.status == 503 <==> !hasSecret
      ensures response.status == 413 <==> hasSecret && request.TooLarge?
      ensures response.status == 400 <==> hasSecret && request.BadSignature?
      ensures response.duplicate <==> hasSecret && request.Verified? && !old(Contents()).claimed.Grants(request.key, now)
      ensures Contents() ==
              if hasSecret && request.Verified? then Step(old(Contents()), Deliver(request.key, now)) else old(Contents())
    {
      if !hasSecret {
        return Response(SERVICE_UNAVAILABLE, false);
      }
      match request
      case TooLarge => return Response(ENTITY_TOO_LARGE, false);
      case BadSignature => return Response(BAD_REQUEST, false);
      case Verified(key) =>
        var granted := deliveries.Claim(key, now);
        clock := now;
        if !granted {
          return Response(OK, true);
        }
        jobs := jobs + [Job(key, now, Running)];
        return Response(OK, false);
    }

    /** The end of a background job. */
    method DispatchWebhook(index: nat, applied: bool, now: int)
      requires index < |jobs| && jobs[index].phase.Running?
      modifies this, deliveries
      ensures Contents() == Step(old(Contents()), Finish(index, applied, now))
    {
      if !applied {
        deliveries.Release(jobs[index].key);
        jobs := jobs[index := jobs[index].(phase := Failed)];
      } else {
        jobs := jobs[index := jobs[index].(phase := Succeeded)];
      }
      clock := now;
    }
  }

  // ------------------------------------------------------------ runs

  function Reached(s: State, events: seq<Event>): State {
    if events == [] then s else Step(Reached(s, events[..|events| - 1]), events[|events| - 1])
  }

  /** Delivery of `key` at `now` is claimed as job number `i`. */
  predicate Begins(s: State, e: Event, i: nat, key: Key, now: int) {
    e == Deliver(key, now) && s.claimed.Grants(key, now) && |s.jobs| == i
  }

  predicate Ends(s: State, e: Event, i: nat, ok: bool) {
    Enabled(s, e) && e.Finish? && e.index == i && e.ok == ok
  }

  ghost predicate Begun(s: State, events: seq<Event>, i: nat, key: Key, now: int) {
    Once(prefix => Reached(s, prefix), events, (x, e) => Begins(x, e, i, key, now))
  }

  ghost predicate Ended(s: State, events: seq<Event>, i: nat, ok: bool) {
    Once(prefix => Reached(s, prefix), events, (x, e) => Ends(x, e, i, ok))
  }

  lemma {:induction false} JobHistoryStep(s: State, events: seq<Event>, i: nat, key: Key, now: int, ok: bool)
    requires events != []
    ensures
      var earlier, e := events[..|events| - 1], events[|events| - 1];
      && (Begun(s, events, i, key, now) <==> Begins(Reached(s, earlier), e, i, key, now) || Begun(s, earlier, i, key, now))
      && (Ended(s, events, i, ok) <==> Ends(Reached(s, earlier), e, i, ok) || Ended(s, earlier, i, ok))
  {
    hide Begins, Ends, Reached, Once;
    OnceStep(prefix => Reached(s, prefix), events, (x, e) => Begins(x, e, i, key, now));
    OnceStep(prefix => Reached(s, prefix), events, (x, e) => Ends(x, e, i, ok));
  }

  predicate IsJob(s: State, i: nat, key: Key, now: int) {
    i < |s.jobs| && s.jobs[i].key == key && s.jobs[i].claimedAt == now
  }

  predicate IsOver(s: State, i: nat, ok: bool) {
    i < |s.jobs| && s.jobs[i].phase == if ok then Succeeded else Failed
  }

  lemma JobStep(s: State, e: Event, i: nat, key: Key, now: int, ok: bool)
    ensures IsJob(Step(s, e), i, key, now) <==> Begins(s, e, i, key, now) || IsJob(s, i, key, now)
    ensures IsOver(Step(s, e), i, ok) <==> Ends(s, e, i, ok) || IsOver(s, i, ok)
  {}

  /** Over every run: the jobs are exactly the granted deliveries, and each is over exactly if it ended so. */
  lemma {:induction false} JobsExactly(window: int, start: int, events: seq<Event>, i: nat, key: Key, now: int, ok: bool)
    ensures
      var s0 := Start(window, start);
      && (IsJob(Reached(s0, events), i, key, now) <==> Begun(s0, events, i, key, now))
      && (IsOver(Reached(s0, events), i, ok) <==> Ended(s0, events, i, ok))
  {
    hide Step, Begins, Ends;
    if events != [] {
      var s0 := Start(window, start);
      var earlier := events[..|events| - 1];
      JobsExactly(window, start, earlier, i, key, now, ok);
      JobStep(Reached(s0, earlier), events[|events| - 1], i, key, now, ok);
      JobHistoryStep(s0, events, i, key, now, ok);
    }
  }

  /** A job of this key that has not failed. */
  ghost predicate HasJob(s: State, key: Key) {
    exists i :: 0 <= i < |s.jobs| && s.jobs[i].key == key && !s.jobs[i].phase.Failed?
  }

  /** Every key that is remembered has one. */
  ghost predicate RememberedHaveJobs(s: State) {
    forall key :: s.claimed.Remembers(key) ==> HasJob(s, key)
  }

  lemma {:induction false} JobKept(s: State, e: Event, key: Key)
    requires HasJob(s, key)
    requires Enabled(s, e) && e.Finish? && !e.ok ==> s.jobs[e.index].key != key
    ensures HasJob(Step(s, e), key)
  {
    var i :| 0 <= i < |s.jobs| && s.jobs[i].key == key && !s.jobs[i].phase.Failed?;
    var t := Step(s, e);
    assert t.jobs[i].key == key && !t.jobs[i].phase.Failed?;
  }

  lemma {:induction false} StepKeepsJobs(s: State, e: Event)
    requires RememberedHaveJobs(s)
    ensures RememberedHaveJobs(Step(s, e))
    ensures e.Deliver? ==> HasJob(Step(s, e), e.key)
  {
    hide HasJob;
    var t := Step(s, e);
    forall key | t.claimed.Remembers(key) || (e.Deliver? && key == e.key) ensures HasJob(t, key) {
      if s.claimed.Remembers(key) && !(e.Deliver? && e.key == key && s.claimed.Grants(key, e.now)) {
        JobKept(s, e, key);
      } else {
        NewJob(s, e.key, e.now);
      }
    }
  }

  lemma NewJob(s: State, key: Key, now: int)
    requires s.claimed.Grants(key, now)
    ensures HasJob(Step(s, Deliver(key, now)), key)
  {
    var t := Step(s, Deliver(key, now));
    assert t.jobs[|s.jobs|] == Job(key, now, Running);
  }

  /** Whatever is acknowledged, as new or as a duplicate, is being applied or has been: its key has a job that has not failed. */
  lemma {:induction false} AcknowledgedHasJob(window: int, start: int, events: seq<Event>, key: Key, now: int)
    ensures HasJob(Step(Reached(Start(window, start), events), Deliver(key, now)), key)
  {
    hide Step, HasJob;
    JobsThroughout(window, start, events);
    StepKeepsJobs(Reached(Start(window, start), events), Deliver(key, now));
  }

  lemma {:induction false} JobsThroughout(window: int, start: int, events: seq<Event>)
    ensures RememberedHaveJobs(Reached(Start(window, start), events))
  {
    hide Step, HasJob;
    if events != [] {
      JobsThroughout(window, start, events[..|events| - 1]);
      StepKeepsJobs(Reached(Start(window, start), events[..|events| - 1]), events[|events| - 1]);
    }
  }

  /** It need not stay so: once the job fails, both the delivery and its duplicate are acknowledged and nothing is applied. */
  lemma AcknowledgedThenFailed(window: int, key: Key)
    requires window > 0
    ensures
      var s := Reached(Start(window, 0), [Deliver(key, 0), Deliver(key, 0), Finish(0, false, 0)]);
      s.jobs == [Job(key, 0, Failed)]
  {
    var first, third := Deliver(key, 0), Finish(0, false, 0);
    assert [first, first, third][..2] == [first, first] && [first, first][..1] == [first] && [first][..0] == [];
    var s0 := Start(window, 0);
    assert Reached(s0, []) == s0;
    var s1 := Step(s0, first);
    assert Reached(s0, [first]) == s1 && s1.claimed.current == {key} && s1.jobs == [Job(key, 0, Running)];
    assert Reached(s0, [first, first]) == s1;
  }

  // ------------------------------------------------------------ prompt runs

  /** The clock does not go back, and every job that runs has run for at most `limit`. */
  ghost predicate TimelyWithin(s: State, e: Event, limit: int) {
    && s.clock <= e.now
    && forall i :: 0 <= i < |s.jobs| && s.jobs[i].phase.Running? ==> e.now - s.jobs[i].claimedAt <= limit
  }

  ghost predicate Timely(s: State, e: Event) {
    TimelyWithin(s, e, s.claimed.window)
  }

  ghost predicate Prompt(s: State, events: seq<Event>) {
    forall n :: 0 <= n < |events| ==> Timely(Reached(s, events[..n]), events[n])
  }

  /** The set still knows the job's key, or a window has passed since the claim. */
  predicate Covered(g: Generations, clock: int, job: Job) {
    || (job.key in g.current && job.claimedAt - g.rotatedAt < g.window)
    || (job.key in g.previous && job.claimedAt < g.rotatedAt)
    || job.claimedAt + g.window < clock
  }

  /**
   * What every prompt run keeps: per key only the latest job can be running, a later claim comes
   * more than a window after one that succeeded, and both kinds of job stay covered.
   */
  ghost predicate Safe(s: State) {
    && s.claimed.window > 0
    && s.claimed.rotatedAt <= s.clock
    && (forall i :: 0 <= i < |s.jobs| ==> s.jobs[i].claimedAt <= s.clock)
    && (forall i, j :: 0 <= i < j < |s.jobs| && s.jobs[i].key == s.jobs[j].key ==> !s.jobs[i].phase.Running?)
    && (forall i, j :: 0 <= i < j < |s.jobs| && s.jobs[i].key == s.jobs[j].key && s.jobs[i].phase.Succeeded? ==>
          s.jobs[i].claimedAt + s.claimed.window < s.jobs[j].claimedAt)
    && (forall i :: 0 <= i < |s.jobs| && !s.jobs[i].phase.Failed? ==> Covered(s.claimed, s.clock, s.jobs[i]))
  }

  lemma CoveredThroughClaim(g: Generations, clock: int, job: Job, key: Key, now: int)
    requires g.window > 0 && g.rotatedAt <= clock <= now && Covered(g, clock, job)
    ensures Covered(g.Claimed(key, now), now, job)
    ensures key == job.key && g.Grants(key, now) ==> job.claimedAt + g.window < now
  {}

  lemma {:induction false} DeliverKeepsSafe(s: State, key: Key, now: int)
    requires Safe(s) && Timely(s, Deliver(key, now))
    ensures Safe(Step(s, Deliver(key, now)))
  {
    hide Covered;
    forall i | 0 <= i < |s.jobs| && !s.jobs[i].phase.Failed?
      ensures Covered(s.claimed.Claimed(key, now), now, s.jobs[i])
      ensures key == s.jobs[i].key && s.claimed.Grants(key, now) ==> s.jobs[i].claimedAt + s.claimed.window < now
    {
      CoveredThroughClaim(s.claimed, s.clock, s.jobs[i], key, now);
    }
    NewJobCovered(s.claimed, key, now);
  }

  lemma NewJobCovered(g: Generations, key: Key, now: int)
    requires g.window > 0
    ensures g.Grants(key, now) ==> Covered(g.Claimed(key, now), now, Job(key, now, Running))
  {}

  lemma {:induction false} FinishKeepsSafe(s: State, index: nat, ok: bool, now: int)
    requires Safe(s) && Timely(s, Finish(index, ok, now))
    ensures Safe(Step(s, Finish(index, ok, now)))
  {}

  /** Over all interleavings of deliveries and job ends in which every job ends within a window. */
  lemma {:induction false} PromptRunsAreSafe(window: int, now: int, events: seq<Event>)
    requires window > 0 && Prompt(Start(window, now), events)
    ensures Safe(Reached(Start(window, now), events))
  {
    hide Safe, Step;
    if events == [] {
      StartIsSafe(window, now);
    } else {
      var n := |events| - 1;
      forall m | 0 <= m < n ensures events[..n][..m] == events[..m] && events[..n][m] == events[m] {}
      PromptRunsAreSafe(window, now, events[..n]);
      match events[n]
      case Deliver(key, at) => DeliverKeepsSafe(Reached(Start(window, now), events[..n]), key, at);
      case Finish(index, ok, at) => FinishKeepsSafe(Reached(Start(window, now), events[..n]), index, ok, at);
    }
  }

  lemma StartIsSafe(window: int, now: int)
    requires window > 0
    ensures Safe(Start(window, now))
  {}

  // ------------------------------------------------------------ what this means for deliveries

  /** At most one apply per key is in flight, and after a success none starts for more than a window. */
  lemma {:induction false} OneApplyAtATime(window: int, now: int, events: seq<Event>, i: nat, j: nat)
    requires window > 0 && Prompt(Start(window, now), events)
    requires
      var jobs := Reached(Start(window, now), events).jobs;
      i < j < |jobs| && jobs[i].key == jobs[j].key
    ensures
      var jobs := Reached(Start(window, now), events).jobs;
      && !jobs[i].phase.Running?
      && (jobs[i].phase.Succeeded? ==> jobs[j].claimedAt - jobs[i].claimedAt > window)
  {
    hide Step;
    PromptRunsAreSafe(window, now, events);
    SameWindow(Start(window, now), events);
  }

  lemma {:induction false} SameWindow(s: State, events: seq<Event>)
    ensures Reached(s, events).claimed.window == s.claimed.window
  {
    if events != [] {
      SameWindow(s, events[..|events| - 1]);
    }
  }

  /**
   * A failing job frees only its own claim: every other job of the key is over, and one that
   * succeeded was claimed more than a window before.
   */
  lemma {:induction false} ReleaseFreesOwnClaim(window: int, now: int, events: seq<Event>, index: nat, m: nat)
    requires window > 0 && Prompt(Start(window, now), events)
    requires
      var s := Reached(Start(window, now), events);
      && index < |s.jobs| && s.jobs[index].phase.Running?
      && m < |s.jobs| && m != index && s.jobs[m].key == s.jobs[index].key
    ensures
      var jobs := Reached(Start(window, now), events).jobs;
      m < index && !jobs[m].phase.Running? && (jobs[m].phase.Succeeded? ==> jobs[index].claimedAt - jobs[m].claimedAt > window)
  {
    if m < index {
      OneApplyAtATime(window, now, events, m, index);
    } else {
      OneApplyAtATime(window, now, events, index, m);
    }
  }

  lemma ForgottenStaysForgotten(g: Generations, key: Key, other: Key, now: int)
    requires !g.Remembers(key)
    ensures key != other ==> !g.Claimed(other, now).Remembers(key)
    ensures !g.Released(other).Remembers(key)
    ensures g.Grants(key, now)
  {}

  /** After a failed apply the key can be claimed at any later time, until somebody claims it. */
  lemma {:induction false} FailedApplyIsRetried(s: State, index: nat, now: int, later: seq<Event>, retryAt: int)
    requires index < |s.jobs| && s.jobs[index].phase.Running?
    requires forall n :: 0 <= n < |later| && later[n].Deliver? ==> later[n].key != s.jobs[index].key
    ensures !Reached(Step(s, Finish(index, false, now)), later).claimed.Remembers(s.jobs[index].key)
    ensures Reached(Step(s, Finish(index, false, now)), later).claimed.Grants(s.jobs[index].key, retryAt)
    decreases |later|
  {
    var key := s.jobs[index].key;
    var failed := Step(s, Finish(index, false, now));
    if later == [] {
      ForgottenStaysForgotten(failed.claimed, key, key, retryAt);
    } else {
      var n := |later| - 1;
      var before := Reached(failed, later[..n]);
      FailedApplyIsRetried(s, index, now, later[..n], retryAt);
      var released := if Enabled(before, later[n]) && later[n].Finish? then before.jobs[later[n].index].key else key;
      ForgottenStaysForgotten(before.claimed, key, if later[n].Deliver? then later[n].key else released, later[n].now);
      ForgottenStaysForgotten(Step(before, later[n]).claimed, key, key, retryAt);
    }
  }

  /**
   * The bound is tight: with an apply that takes one time unit more than a window, two applies of
   * one key run at once, and the failure of the first frees the claim of the second.
   */
  lemma SlowApplyOverlaps(window: int, key: Key, other: Key)
    requires window > 0 && key != other
    ensures
      var events := [Deliver(key, window - 1), Deliver(other, window), Deliver(key, 2 * window)];
      var s := Reached(Start(window, 0), events);
      && s.jobs == [Job(key, window - 1, Running), Job(other, window, Running), Job(key, 2 * window, Running)]
      && s.claimed.Remembers(key)
      && !Step(s, Finish(0, false, 2 * window)).claimed.Remembers(key)
  {
    var first, second, third := Deliver(key, window - 1), Deliver(other, window), Deliver(key, 2 * window);
    assert [first, second, third][..2] == [first, second];
    assert [first, second][..1] == [first];
    assert [first][..0] == [];
    var s0 := Start(window, 0);
    assert Reached(s0, []) == s0;
    var s1 := Step(s0, first);
    assert s1.claimed.current == {key};
    assert Reached(s0, [first]) == s1;
    var s2 := Step(s1, second);
    assert Reached(s0, [first, second]) == s2;
    assert s2.claimed.current == {other} && s2.claimed.previous == {key};
    var s3 := Step(s2, third);
    assert Reached(s0, [first, second, third]) == s3;
    assert s3.claimed.current == {key} && s3.claimed.previous == {other};
  }

  // ------------------------------------------------------------ how long an apply may take

  /** As `Prompt`, with every apply ending within `limit` of its claim. */
  ghost predicate EndsWithin(s: State, events: seq<Event>, limit: int) {
    forall n :: 0 <= n < |events| ==> TimelyWithin(Reached(s, events[..n]), events[n], limit)
  }

  /** No two applies of one key are in flight. */
  ghost predicate NoOverlap(s: State) {
    forall i, j :: 0 <= i < j < |s.jobs| && s.jobs[i].key == s.jobs[j].key ==>
      !(s.jobs[i].phase.Running? && s.jobs[j].phase.Running?)
  }

  lemma {:induction false} WithinWindowIsPrompt(window: int, now: int, events: seq<Event>, limit: int)
    requires limit <= window && EndsWithin(Start(window, now), events, limit)
    ensures Prompt(Start(window, now), events)
  {
    forall n | 0 <= n < |events| ensures Timely(Reached(Start(window, now), events[..n]), events[n]) {
      assert TimelyWithin(Reached(Start(window, now), events[..n]), events[n], limit);
      SameWindow(Start(window, now), events[..n]);
    }
  }

  lemma {:induction false} SlowRun(window: int, limit: int) returns (events: seq<Event>)
    requires 0 < window < limit
    ensures EndsWithin(Start(window, 0), events, limit) && !NoOverlap(Reached(Start(window, 0), events))
  {
    var first, second, third := Deliver("a", window - 1), Deliver("b", window), Deliver("a", 2 * window);
    events := [first, second, third];
    SlowApplyOverlaps(window, "a", "b");
    var s0 := Start(window, 0);
    var s1 := Step(s0, first);
    var s2 := Step(s1, second);
    assert events[..0] == [] && events[..1] == [first] && events[..2] == [first, second];
    assert [first][..0] == [] && [first, second][..1] == [first];
    assert Reached(s0, events[..0]) == s0 && Reached(s0, events[..1]) == s1 && Reached(s0, events[..2]) == s2;
    assert s1.jobs == [Job("a", window - 1, Running)];
    assert s2.jobs == [Job("a", window - 1, Running), Job("b", window, Running)];
    var s := Reached(s0, events);
    assert s.jobs[0] == Job("a", window - 1, Running) && s.jobs[2] == Job("a", 2 * window, Running);
  }

  /** The exact bound: applies that end within `limit` never overlap, in any run, if and only if `limit` is at most a window. */
  lemma {:induction false} NoOverlapIff(window: int, limit: int)
    requires window > 0
    ensures
      (forall now, events :: EndsWithin(Start(window, now), events, limit) ==> NoOverlap(Reached(Start(window, now), events)))
      <==> limit <= window
  {
    hide Step, Prompt, Reached, EndsWithin;
    if limit <= window {
      forall now, events | EndsWithin(Start(window, now), events, limit)
        ensures NoOverlap(Reached(Start(window, now), events))
      {
        WithinWindowIsPrompt(window, now, events, limit);
        PromptRunsAreSafe(window, now, events);
      }
    } else {
      var events := SlowRun(window, limit);
    }
  }
}
