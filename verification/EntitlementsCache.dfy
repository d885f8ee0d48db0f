/**
 * The entitlement cache: a TTL cache with one fetch per person at a time and stale answers
 * on failure. A step is what runs between two awaits; promise callbacks are steps of their own,
 * so the entry is stored one step before the in-flight record goes.
 */
module EntitlementsCache {
  import opened Options

  type Id = string

  datatype Grant = Grant(perkId: string, active: bool)

  datatype Entry = Entry(grants: seq<Grant>, hasPro: bool, fetchedAt: int)

  predicate HasPro(perkId: Option<string>, grants: seq<Grant>) {
    perkId.Some? && exists i :: 0 <= i < |grants| && grants[i].perkId == perkId.value && grants[i].active
  }

  // ------------------------------------------------------------ promises

  /** The lookup of the perk id: `Found(None)` when no perk has the slug. */
  datatype Lookup = Asking | Found(perkId: Option<string>) | LookupFailed

  /**
   * A fetch of one person's grants. `Answered`: `fetchSnapshot` resolved. `Landed`: the entry is
   * stored. `Rejected`: it threw. `Cleared`: the in-flight record is gone and the promise settled.
   */
  datatype Phase =
    | NeedsPerk(lookup: nat)
    | NeedsGrants(perkId: Option<string>)
    | Answered(entry: Entry)
    | Landed(entry: Entry)
    | Rejected
    | Cleared(result: Option<Entry>, clearedAt: int)

  datatype Fetch = Fetch(id: Id, phase: Phase)

  datatype Answer = Waiting(fetch: nat) | Served(entry: Entry, stale: bool) | Unavailable

  /** One `resolve` call: when it began, what was cached then, the fetch it waits or waited for, its answer. */
  datatype Call = Call(id: Id, at: int, cached: Option<Entry>, joined: Option<nat>, answer: Answer)

  datatype GrantsResult = Grants(grants: seq<Grant>) | PersonNotFound | GrantsFailed

  datatype State = State(
    ttl: int,
    entries: map<Id, Entry>,
    inFlight: map<Id, nat>,
    perkId: Option<nat>,
    lookups: seq<Lookup>,
    fetches: seq<Fetch>,
    calls: seq<Call>,
    clock: int)

  function Start(ttl: int, now: int): State {
    State(ttl, map[], map[], None, [], [], [], now)
  }

  // ------------------------------------------------------------ steps

  datatype Event =
    | Resolve(id: Id, now: int)
    | Invalidate(id: Id)
    | LookupSettles(lookup: nat, result: Lookup)
    | PerkArrives(fetch: nat)
    | GrantsArrive(fetch: nat, reply: GrantsResult, now: int)
    | Lands(fetch: nat)
    | Clears(fetch: nat, now: int)
    | Resumes(call: nat)

  predicate Enabled(s: State, e: Event) {
    match e
    case Resolve(_, now) => s.clock <= now
    case Invalidate(_) => true
    case LookupSettles(l, result) => l < |s.lookups| && s.lookups[l].Asking? && !result.Asking?
    case PerkArrives(f) =>
      f < |s.fetches| && s.fetches[f].phase.NeedsPerk?
      && s.fetches[f].phase.lookup < |s.lookups| && !s.lookups[s.fetches[f].phase.lookup].Asking?
    case GrantsArrive(f, _, now) => f < |s.fetches| && s.fetches[f].phase.NeedsGrants? && s.clock <= now
    case Lands(f) => f < |s.fetches| && s.fetches[f].phase.Answered?
    case Clears(f, now) => f < |s.fetches| && (s.fetches[f].phase.Landed? || s.fetches[f].phase.Rejected?) && s.clock <= now
    case Resumes(c) =>
      c < |s.calls| && s.calls[c].answer.Waiting?
      && s.calls[c].answer.fetch < |s.fetches| && s.fetches[s.calls[c].answer.fetch].phase.Cleared?
  }

  predicate Fresh(s: State, id: Id, now: int) {
    id in s.entries && now - s.entries[id].fetchedAt < s.ttl
  }

  function Cached(s: State, id: Id): Option<Entry> {
    if id in s.entries then Some(s.entries[id]) else None
  }

  /** The grants a fetch goes on with: an unknown person has none. */
  function GrantsOf(result: GrantsResult): Option<seq<Grant>> {
    match result
    case Grants(grants) => Some(grants)
    case PersonNotFound => Some([])
    case GrantsFailed => None
  }

  function WithPhase(s: State, f: nat, phase: Phase): State
    requires f < |s.fetches|
  {
    s.(fetches := s.fetches[f := s.fetches[f].(phase := phase)])
  }

  predicate MovesFetch(e: Event) {
    e.PerkArrives? || e.GrantsArrive? || e.Lands? || e.Clears?
  }

  /** The next phase of the fetch the event moves on. */
  function PhaseAfter(s: State, e: Event): Phase
    requires MovesFetch(e) && Enabled(s, e)
  {
    match e
    case PerkArrives(f) =>
      var lookup := s.lookups[s.fetches[f].phase.lookup];
      if lookup.Found? then NeedsGrants(lookup.perkId) else Rejected
    case GrantsArrive(f, reply, now) =>
      var grants := GrantsOf(reply);
      if grants.Some? then Answered(Entry(grants.value, HasPro(s.fetches[f].phase.perkId, grants.value), now)) else Rejected
    case Lands(f) => Landed(s.fetches[f].phase.entry)
    case Clears(f, now) => Cleared(if s.fetches[f].phase.Landed? then Some(s.fetches[f].phase.entry) else None, now)
  }

  function StepResolve(s: State, id: Id, now: int): State {
    var cached := Cached(s, id);
    if Fresh(s, id, now) then
      s.(clock := now, calls := s.calls + [Call(id, now, cached, None, Served(cached.value, false))])
    else if id in s.inFlight then
      s.(clock := now, calls := s.calls + [Call(id, now, cached, Some(s.inFlight[id]), Waiting(s.inFlight[id]))])
    else
      var l := if s.perkId.Some? then s.perkId.value else |s.lookups|;
      var f := |s.fetches|;
      s.(clock := now,
         perkId := Some(l),
         lookups := if s.perkId.Some? then s.lookups else s.lookups + [Asking],
         fetches := s.fetches + [Fetch(id, NeedsPerk(l))],
         inFlight := s.inFlight[id := f],
         calls := s.calls + [Call(id, now, cached, Some(f), Waiting(f))])
  }

  /** What a waiting call answers once its fetch has settled. */
  function AnswerOf(cached: Option<Entry>, result: Option<Entry>): Answer {
    if result.Some? then Served(result.value, false)
    else if cached.Some? then Served(cached.value, true)
    else Unavailable
  }

  /** One step; a step that is not enabled changes nothing. */
  function Step(s: State, e: Event): State {
    if !Enabled(s, e) then s else
    match e
    case Resolve(id, now) => StepResolve(s, id, now)
    case Invalidate(id) => s.(entries := s.entries - {id})
    case LookupSettles(l, result) =>
      s.(lookups := s.lookups[l := result], perkId := if result.LookupFailed? then None else s.perkId)
    case PerkArrives(f) => WithPhase(s, f, PhaseAfter(s, e))
    case GrantsArrive(f, _, now) => WithPhase(s, f, PhaseAfter(s, e)).(clock := now)
    case Lands(f) => WithPhase(s, f, PhaseAfter(s, e)).(entries := s.entries[s.fetches[f].id := s.fetches[f].phase.entry])
    case Clears(f, now) => WithPhase(s, f, PhaseAfter(s, e)).(inFlight := s.inFlight - {s.fetches[f].id}, clock := now)
    case Resumes(c) =>
      var call := s.calls[c];
      s.(calls := s.calls[c := call.(answer := AnswerOf(call.cached, s.fetches[call.answer.fetch].phase.result))])
  }

  function Reached(s: State, events: seq<Event>): State {
    if events == [] then s else Step(Reached(s, events[..|events| - 1]), events[|events| - 1])
  }

  // ------------------------------------------------------------ the cache object

  /** `createEntitlementsCache`: its three variables, and the promises and calls still outstanding. */
  class Cache {
    const ttlMs: int
    var entries: map<Id, Entry>
    var inFlight: map<Id, nat>
    var perkIdPromise: Option<nat>
    var lookups: seq<Lookup>
    var fetches: seq<Fetch>
    var calls: seq<Call>
    var clock: int

    ghost function Contents(): State
      reads this
    {
      State(ttlMs, entries, inFlight, perkIdPromise, lookups, fetches, calls, clock)
    }

    constructor (ttlMs: int, now: int)
      ensures Contents() == Start(ttlMs, now)
    {
      this.ttlMs := ttlMs;
      entries, inFlight, perkIdPromise := map[], map[], None;
      lookups, fetches, calls, clock := [], [], [], now;
    }

    /** The lookup that is held on to, or a new one. */
    method ResolvePerkId() returns (lookup: nat)
      modifies `perkIdPromise, `lookups
      ensures perkIdPromise == Some(lookup)
      ensures old(perkIdPromise).Some? ==> perkIdPromise == old(perkIdPromise) && lookups == old(lookups)
      ensures old(perkIdPromise).None? ==> lookup == |old(lookups)| && lookups == old(lookups) + [Asking]
    {
      if perkIdPromise.Some? {
        return perkIdPromise.value;
      }
      lookup := |lookups|;
      lookups := lookups + [Asking];
      perkIdPromise := Some(lookup);
    }

    /** The fetch in flight for this person, or a new one. */
    method Refresh(id: Id) returns (fetch: nat)
      modifies `perkIdPromise, `lookups, `fetches, `inFlight
      ensures id in inFlight && inFlight[id] == fetch
      ensures id in old(inFlight) ==> unchanged(this)
      ensures id !in old(inFlight) ==>
                && perkIdPromise.Some?
                && perkIdPromise == (if old(perkIdPromise).Some? then old(perkIdPromise) else Some(|old(lookups)|))
                && lookups == (if old(perkIdPromise).Some? then old(lookups) else old(lookups) + [Asking])
                && fetch == |old(fetches)|
                && fetches == old(fetches) + [Fetch(id, NeedsPerk(perkIdPromise.value))]
                && inFlight == old(inFlight)[id := fetch]
    {
      if id in inFlight {
        return inFlight[id];
      }
      var lookup := ResolvePerkId();
      fetch := |fetches|;
      fetches := fetches + [Fetch(id, NeedsPerk(lookup))];
      inFlight := inFlight[id := fetch];
    }

    /** `resolve` up to its first await. */
    method Resolve(id: Id, now: int)
      requires clock <= now
      modifies this
      ensures Contents() == Step(old(Contents()), Event.Resolve(id, now))
    {
      var cached := if id in entries then Some(entries[id]) else None;
      clock := now;
      if cached.Some? && now - cached.value.fetchedAt < ttlMs {
        calls := calls + [Call(id, now, cached, None, Served(cached.value, false))];
        return;
      }
      var fetch := Refresh(id);
      calls := calls + [Call(id, now, cached, Some(fetch), Waiting(fetch))];
    }

    method Invalidate(id: Id)
      modifies this
      ensures Contents() == Step(old(Contents()), Event.Invalidate(id))
    {
      entries := entries - {id};
    }

    /** `findPerkId` settles; a failure clears the promise so that the next fetch asks again. */
    method LookupSettled(lookup: nat, result: Lookup)
      requires Enabled(Contents(), LookupSettles(lookup, result))
      modifies this
      ensures Contents() == Step(old(Contents()), LookupSettles(lookup, result))
    {
      lookups := lookups[lookup := result];
      if result.LookupFailed? {
        perkIdPromise := None;
      }
    }

    method PerkArrived(fetch: nat)
      requires Enabled(Contents(), PerkArrives(fetch))
      modifies this
      ensures Contents() == Step(old(Contents()), PerkArrives(fetch))
    {
      var lookup := lookups[fetches[fetch].phase.lookup];
      if lookup.Found? {
        fetches := fetches[fetch := fetches[fetch].(phase := NeedsGrants(lookup.perkId))];
      } else {
        fetches := fetches[fetch := fetches[fetch].(phase := Rejected)];
      }
    }

    static method HasActiveGrant(perkId: Option<string>, grants: seq<Grant>) returns (pro: bool)
      ensures pro == HasPro(perkId, grants)
    {
      if perkId.None? {
        return false;
      }
      var i := 0;
      while i < |grants|
        invariant i <= |grants|
        invariant forall j :: 0 <= j < i ==> !(grants[j].perkId == perkId.value && grants[j].active)
      {
        if grants[i].perkId == perkId.value && grants[i].active {
          return true;
        }
        i := i + 1;
      }
      return false;
    }

    /** The rest of `fetchSnapshot`: an unknown person has no grants, any other failure rejects. */
    method GrantsArrived(fetch: nat, reply: GrantsResult, now: int)
      requires Enabled(Contents(), GrantsArrive(fetch, reply, now))
      modifies this
      ensures Contents() == Step(old(Contents()), GrantsArrive(fetch, reply, now))
    {
      clock := now;
      var grants: seq<Grant>;
      match reply {
        case Grants(found) => grants := found;
        case PersonNotFound => grants := [];
        case GrantsFailed =>
          fetches := fetches[fetch := fetches[fetch].(phase := Rejected)];
          return;
      }
      var pro := HasActiveGrant(fetches[fetch].phase.perkId, grants);
      fetches := fetches[fetch := fetches[fetch].(phase := Answered(Entry(grants, pro, now)))];
    }

    /** The `then` callback of a fetch. */
    method Landed(fetch: nat)
      requires Enabled(Contents(), Lands(fetch))
      modifies this
      ensures Contents() == Step(old(Contents()), Lands(fetch))
    {
      var entry := fetches[fetch].phase.entry;
      entries := entries[fetches[fetch].id := entry];
      fetches := fetches[fetch := fetches[fetch].(phase := Phase.Landed(entry))];
    }

    /** The `finally` callback of a fetch. */
    method Cleared(fetch: nat, now: int)
      requires Enabled(Contents(), Clears(fetch, now))
      modifies this
      ensures Contents() == Step(old(Contents()), Clears(fetch, now))
    {
      clock := now;
      inFlight := inFlight - {fetches[fetch].id};
      var result := if fetches[fetch].phase.Landed? then Some(fetches[fetch].phase.entry) else None;
      fetches := fetches[fetch := fetches[fetch].(phase := Phase.Cleared(result, now))];
    }

    /** The rest of `resolve` after its await. */
    method Resumed(call: nat)
      requires Enabled(Contents(), Resumes(call))
      modifies this
      ensures Contents() == Step(old(Contents()), Resumes(call))
    {
      var result := fetches[calls[call].answer.fetch].phase.result;
      var cached := calls[call].cached;
      if result.Some? {
        calls := calls[call := calls[call].(answer := Served(result.value, false))];
      } else if cached.Some? {
        calls := calls[call := calls[call].(answer := Served(cached.value, true))];
      } else {
        calls := calls[call := calls[call].(answer := Unavailable)];
      }
    }
  }

  // ------------------------------------------------------------ what every run keeps

  /** In-flight records are exactly the fetches that have not been cleared: at most one per person. */
  ghost predicate SingleFlight(s: State) {
    && (forall id :: id in s.inFlight ==>
          s.inFlight[id] < |s.fetches| && s.fetches[s.inFlight[id]].id == id && !s.fetches[s.inFlight[id]].phase.Cleared?)
    && (forall f :: 0 <= f < |s.fetches| && !s.fetches[f].phase.Cleared? ==>
          s.fetches[f].id in s.inFlight && s.inFlight[s.fetches[f].id] == f)
  }

  /** The entry a fetch came up with. */
  function EntryOf(phase: Phase): Option<Entry> {
    match phase
    case Answered(entry) => Some(entry)
    case Landed(entry) => Some(entry)
    case Cleared(result, _) => result
    case _ => None
  }

  /** The perk ids the phase was computed with. */
  ghost predicate UsesPerk(phase: Phase, lookups: seq<Lookup>, perkId: Option<nat>) {
    && (phase.NeedsPerk? ==> phase.lookup < |lookups|)
    && (phase.NeedsGrants? || EntryOf(phase).Some? ==>
          && perkId.Some? && perkId.value < |lookups| && lookups[perkId.value].Found?
          && (phase.NeedsGrants? ==> lookups[perkId.value].perkId == phase.perkId)
          && (EntryOf(phase).Some? ==>
                EntryOf(phase).value.hasPro == HasPro(lookups[perkId.value].perkId, EntryOf(phase).value.grants)))
  }

  /**
   * A lookup that runs or succeeded is the one the cache holds on to, so there is one perk id,
   * and every entry says whether the grants hold that perk.
   */
  ghost predicate OnePerk(s: State) {
    && (s.perkId.Some? ==> s.perkId.value < |s.lookups|)
    && (forall l :: 0 <= l < |s.lookups| && !s.lookups[l].LookupFailed? ==> s.perkId == Some(l))
    && (forall f :: 0 <= f < |s.fetches| ==> UsesPerk(s.fetches[f].phase, s.lookups, s.perkId))
  }

  /** The entry was stored by a fetch for this person. */
  ghost predicate Stored(s: State, id: Id, entry: Entry) {
    exists f :: 0 <= f < |s.fetches| && StoredBy(s.fetches[f], id, entry)
  }

  predicate StoredBy(fetch: Fetch, id: Id, entry: Entry) {
    fetch.id == id && (fetch.phase == Landed(entry) || (fetch.phase.Cleared? && fetch.phase.result == Some(entry)))
  }

  /** The call's fetch is for the same person and was cleared, if it was, no earlier than the call began. */
  ghost predicate Overlaps(s: State, c: Call) {
    && c.joined.Some? && c.joined.value < |s.fetches|
    && s.fetches[c.joined.value].id == c.id
    && (s.fetches[c.joined.value].phase.Cleared? ==> c.at <= s.fetches[c.joined.value].phase.clearedAt)
  }

  predicate Expired(c: Call, ttl: int) {
    c.cached.Some? ==> c.at - c.cached.value.fetchedAt >= ttl
  }

  /** The fetch the call waited for is over, with this result. */
  ghost predicate JoinedResult(s: State, c: Call, result: Option<Entry>) {
    Overlaps(s, c) && s.fetches[c.joined.value].phase.Cleared? && s.fetches[c.joined.value].phase.result == result
  }

  /**
   * Where an answer comes from. Not stale: an entry stored less than the TTL before the call, or the
   * result of a fetch that was in flight during the call. Stale: what was cached when the call
   * began, too old, after the fetch failed. Unavailable: nothing was cached and the fetch failed.
   */
  ghost predicate Justified(s: State, c: Call) {
    && c.at <= s.clock
    && (c.cached.Some? ==> Stored(s, c.id, c.cached.value))
    && match c.answer
       case Waiting(f) => c.joined == Some(f) && Overlaps(s, c) && Expired(c, s.ttl)
       case Served(entry, stale) =>
         if stale then c.cached == Some(entry) && c.at - entry.fetchedAt >= s.ttl && JoinedResult(s, c, None)
         else if c.joined.None? then c.cached == Some(entry) && c.at - entry.fetchedAt < s.ttl
         else JoinedResult(s, c, Some(entry)) && Expired(c, s.ttl)
       case Unavailable => c.cached.None? && JoinedResult(s, c, None)
  }

  ghost predicate Sound(s: State) {
    && SingleFlight(s)
    && OnePerk(s)
    && (forall id :: id in s.entries ==> Stored(s, id, s.entries[id]))
    && (forall c :: 0 <= c < |s.calls| ==> Justified(s, s.calls[c]))
  }

  // ------------------------------------------------------------ one step

  lemma {:induction false} PhaseKeepsSingleFlight(s: State, f: nat, phase: Phase)
    requires SingleFlight(s) && f < |s.fetches| && !s.fetches[f].phase.Cleared? && !phase.Cleared?
    ensures SingleFlight(WithPhase(s, f, phase))
  {}

  lemma {:induction false} ClearKeepsSingleFlight(s: State, f: nat, phase: Phase)
    requires SingleFlight(s) && f < |s.fetches| && !s.fetches[f].phase.Cleared? && phase.Cleared?
    ensures SingleFlight(WithPhase(s, f, phase).(inFlight := s.inFlight - {s.fetches[f].id}))
  {}

  lemma {:induction false} ResolveKeepsSingleFlight(s: State, id: Id, now: int)
    requires SingleFlight(s)
    ensures SingleFlight(StepResolve(s, id, now))
  {}

  lemma {:induction false} StepKeepsSingleFlight(s: State, e: Event)
    requires SingleFlight(s)
    ensures SingleFlight(Step(s, e))
  {
    hide HasPro, AnswerOf, GrantsOf, StepResolve, WithPhase, PhaseAfter;
    if Enabled(s, e) {
      if MovesFetch(e) {
        PhasesAdvance(s, e);
        if e.Clears? {
          ClearKeepsSingleFlight(s, e.fetch, PhaseAfter(s, e));
        } else {
          PhaseKeepsSingleFlight(s, e.fetch, PhaseAfter(s, e));
        }
      } else if e.Resolve? {
        ResolveKeepsSingleFlight(s, e.id, e.now);
      }
    }
  }

  /** A fetch moves from phase to phase in one direction, and never changes the entry it came up with. */
  predicate Advances(from: Phase, to: Phase, clock: int) {
    && (to.NeedsPerk? ==> from == to)
    && (from.Cleared? ==> to == from)
    && (from.Landed? ==> to == from || (to.Cleared? && to.result == Some(from.entry)))
    && (from.Answered? ==> to == from || to == Landed(from.entry))
    && (from.Rejected? ==> to == from || (to.Cleared? && to.result == None))
    && (to.Cleared? && !from.Cleared? ==> clock <= to.clearedAt)
  }

  lemma PhasesAdvance(s: State, e: Event)
    requires MovesFetch(e) && Enabled(s, e)
    ensures !s.fetches[e.fetch].phase.Cleared?
    ensures PhaseAfter(s, e).Cleared? <==> e.Clears?
    ensures !PhaseAfter(s, e).NeedsPerk?
    ensures Advances(s.fetches[e.fetch].phase, PhaseAfter(s, e), s.clock)
  {}

  /** What every step leaves alone. */
  ghost predicate Grows(s: State, t: State) {
    && t.ttl == s.ttl && s.clock <= t.clock
    && |s.fetches| <= |t.fetches|
    && (forall f :: 0 <= f < |s.fetches| ==> s.fetches[f].id == t.fetches[f].id)
    && (forall f :: 0 <= f < |s.fetches| ==> Advances(s.fetches[f].phase, t.fetches[f].phase, s.clock))
  }

  lemma {:induction false} StepGrows(s: State, e: Event)
    ensures Grows(s, Step(s, e))
  {
    hide PhaseAfter, GrantsOf, AnswerOf, Advances;
    forall f | 0 <= f < |s.fetches| ensures Advances(s.fetches[f].phase, s.fetches[f].phase, s.clock) {
      AdvancesSelf(s.fetches[f].phase, s.clock);
    }
    if Enabled(s, e) && MovesFetch(e) {
      PhasesAdvance(s, e);
    }
  }

  lemma AdvancesSelf(phase: Phase, clock: int)
    ensures Advances(phase, phase, clock)
  {}

  lemma {:induction false} StoredGrows(s: State, t: State, id: Id, entry: Entry)
    requires Grows(s, t) && Stored(s, id, entry)
    ensures Stored(t, id, entry)
  {
    var f :| 0 <= f < |s.fetches| && StoredBy(s.fetches[f], id, entry);
    assert StoredBy(t.fetches[f], id, entry);
  }

  lemma {:induction false} JustifiedGrows(s: State, t: State, c: Call)
    requires Grows(s, t) && Justified(s, c)
    ensures Justified(t, c)
  {
    hide Stored, Advances;
    if c.cached.Some? {
      StoredGrows(s, t, c.id, c.cached.value);
    }
    if c.joined.Some? && c.joined.value < |s.fetches| {
      ClearedGrows(s, t, c.joined.value);
    }
  }

  lemma ClearedGrows(s: State, t: State, f: nat)
    requires Grows(s, t) && f < |s.fetches|
    ensures s.fetches[f].phase.Cleared? ==> t.fetches[f].phase == s.fetches[f].phase
    ensures t.fetches[f].phase.Cleared? && !s.fetches[f].phase.Cleared? ==> s.clock <= t.fetches[f].phase.clearedAt
    ensures t.fetches[f].id == s.fetches[f].id
  {}

  /** The call a `resolve` adds is justified in the state it leaves. */
  lemma {:induction false} NewCallJustified(s: State, id: Id, now: int)
    requires Sound(s) && Enabled(s, Resolve(id, now))
    ensures
      var t := StepResolve(s, id, now);
      |t.calls| == |s.calls| + 1 && t.calls[..|s.calls|] == s.calls && Justified(t, t.calls[|s.calls|])
  {
    hide Stored, OnePerk, Advances, Grows;
    var t := StepResolve(s, id, now);
    assert t == Step(s, Resolve(id, now));
    StepGrows(s, Resolve(id, now));
    if id in s.entries {
      StoredGrows(s, t, id, s.entries[id]);
    }
  }

  lemma ResumedCallJustified(s: State, c: nat)
    requires Enabled(s, Resumes(c)) && Justified(s, s.calls[c])
    ensures
      var call := s.calls[c];
      Justified(s, call.(answer := AnswerOf(call.cached, s.fetches[call.answer.fetch].phase.result)))
  {
    hide Stored;
  }

  lemma {:induction false} StepKeepsJustified(s: State, e: Event)
    requires Sound(s)
    ensures
      var t := Step(s, e);
      forall c :: 0 <= c < |t.calls| ==> Justified(t, t.calls[c])
  {
    hide Justified, StepResolve, PhaseAfter, AnswerOf, Grows, SingleFlight, OnePerk, Stored;
    var t := Step(s, e);
    StepGrows(s, e);
    forall c | 0 <= c < |s.calls| ensures Justified(t, s.calls[c]) {
      JustifiedGrows(s, t, s.calls[c]);
    }
    if Enabled(s, e) {
      if e.Resolve? {
        NewCallJustified(s, e.id, e.now);
        assert forall c :: 0 <= c < |s.calls| ==> t.calls[..|s.calls|][c] == s.calls[c];
      } else if e.Resumes? {
        ResumedCallJustified(s, e.call);
        var call := s.calls[e.call];
        JustifiedGrows(s, t, call.(answer := AnswerOf(call.cached, s.fetches[call.answer.fetch].phase.result)));
      }
    }
  }

  lemma {:induction false} StepKeepsStored(s: State, e: Event)
    requires forall id :: id in s.entries ==> Stored(s, id, s.entries[id])
    ensures
      var t := Step(s, e);
      forall id :: id in t.entries ==> Stored(t, id, t.entries[id])
  {
    hide Stored, Grows, AnswerOf;
    var t := Step(s, e);
    StepGrows(s, e);
    forall id | id in t.entries ensures Stored(t, id, t.entries[id]) {
      if id in s.entries && t.entries[id] == s.entries[id] {
        StoredGrows(s, t, id, s.entries[id]);
      } else {
        LandedIsStored(t, e.fetch, t.entries[id]);
      }
    }
  }

  lemma LandedIsStored(s: State, f: nat, entry: Entry)
    requires f < |s.fetches| && s.fetches[f].phase == Landed(entry)
    ensures Stored(s, s.fetches[f].id, entry)
  {
    assert StoredBy(s.fetches[f], s.fetches[f].id, entry);
  }

  /** Moving on a fetch keeps it on the one perk id. */
  lemma PhaseUsesPerk(s: State, e: Event)
    requires OnePerk(s) && MovesFetch(e) && Enabled(s, e)
    ensures UsesPerk(PhaseAfter(s, e), s.lookups, s.perkId)
  {
    hide HasPro, GrantsOf;
    assert UsesPerk(s.fetches[e.fetch].phase, s.lookups, s.perkId);
  }

  /** Settling the running lookup disturbs no fetch that already has its perk id. */
  lemma SettlingKeepsPerk(s: State, l: nat, result: Lookup, f: nat)
    requires OnePerk(s) && Enabled(s, LookupSettles(l, result)) && f < |s.fetches|
    ensures
      var t := Step(s, LookupSettles(l, result));
      UsesPerk(s.fetches[f].phase, t.lookups, t.perkId)
  {
    hide HasPro;
    assert UsesPerk(s.fetches[f].phase, s.lookups, s.perkId);
  }

  lemma AskingKeepsPerk(s: State, f: nat)
    requires OnePerk(s) && f < |s.fetches| && s.perkId.None?
    ensures UsesPerk(s.fetches[f].phase, s.lookups + [Asking], Some(|s.lookups|))
  {
    hide HasPro;
    assert UsesPerk(s.fetches[f].phase, s.lookups, s.perkId);
  }

  lemma {:induction false} StepKeepsOnePerk(s: State, e: Event)
    requires OnePerk(s)
    ensures OnePerk(Step(s, e))
  {
    hide UsesPerk, PhaseAfter, AnswerOf;
    if Enabled(s, e) {
      if MovesFetch(e) {
        PhaseUsesPerk(s, e);
      } else if e.LookupSettles? {
        forall f: nat | f < |s.fetches|
          ensures UsesPerk(s.fetches[f].phase, Step(s, e).lookups, Step(s, e).perkId)
        {
          SettlingKeepsPerk(s, e.lookup, e.result, f);
        }
      } else if e.Resolve? {
        ResolveKeepsOnePerk(s, e.id, e.now);
      }
    }
  }

  lemma {:induction false} ResolveKeepsOnePerk(s: State, id: Id, now: int)
    requires OnePerk(s)
    ensures OnePerk(StepResolve(s, id, now))
  {
    hide UsesPerk;
    if s.perkId.None? {
      forall f: nat | f < |s.fetches| ensures UsesPerk(s.fetches[f].phase, s.lookups + [Asking], Some(|s.lookups|)) {
        AskingKeepsPerk(s, f);
      }
    }
    NewFetchUsesPerk(s.lookups, s.perkId);
  }

  lemma NewFetchUsesPerk(lookups: seq<Lookup>, perkId: Option<nat>)
    requires perkId.Some? ==> perkId.value < |lookups|
    ensures perkId.Some? ==> UsesPerk(NeedsPerk(perkId.value), lookups, perkId)
    ensures UsesPerk(NeedsPerk(|lookups|), lookups + [Asking], Some(|lookups|))
  {}

  lemma {:induction false} StepKeepsSound(s: State, e: Event)
    requires Sound(s)
    ensures Sound(Step(s, e))
  {
    hide Step, SingleFlight, OnePerk, Stored, Justified;
    StepKeepsSingleFlight(s, e);
    StepKeepsOnePerk(s, e);
    StepKeepsStored(s, e);
    StepKeepsJustified(s, e);
  }

  lemma {:induction false} ReachedIsSound(s: State, events: seq<Event>)
    requires Sound(s)
    ensures Sound(Reached(s, events))
  {
    hide Step, Sound;
    if events != [] {
      ReachedIsSound(s, events[..|events| - 1]);
      StepKeepsSound(Reached(s, events[..|events| - 1]), events[|events| - 1]);
    }
  }

  /** Over every interleaving of calls, invalidations and promise callbacks. */
  lemma RunsAreSound(ttl: int, now: int, events: seq<Event>)
    ensures Sound(Reached(Start(ttl, now), events))
  {
    ReachedIsSound(Start(ttl, now), events);
  }

  /** Single flight: two fetches of one person are never both under way. */
  lemma {:induction false} AtMostOneFetch(ttl: int, now: int, events: seq<Event>, f: nat, g: nat)
    requires
      var fetches := Reached(Start(ttl, now), events).fetches;
      && f < |fetches| && g < |fetches| && fetches[f].id == fetches[g].id
      && !fetches[f].phase.Cleared? && !fetches[g].phase.Cleared?
    ensures f == g
  {
    hide Step, OnePerk, Stored, Justified;
    RunsAreSound(ttl, now, events);
  }

  /**
   * An answer that is not stale is what a fetch for this person stored: one less than the TTL old when
   * the call began, or one that was still in flight then.
   */
  lemma {:induction false} FreshAnswer(ttl: int, now: int, events: seq<Event>, c: nat)
    requires
      var calls := Reached(Start(ttl, now), events).calls;
      c < |calls| && calls[c].answer.Served? && !calls[c].answer.stale
    ensures
      var s := Reached(Start(ttl, now), events);
      var call, entry := s.calls[c], s.calls[c].answer.entry;
      exists f :: 0 <= f < |s.fetches| && StoredBy(s.fetches[f], call.id, entry) &&
        (call.at - entry.fetchedAt < ttl || (s.fetches[f].phase.Cleared? && call.at <= s.fetches[f].phase.clearedAt))
  {
    hide Step, OnePerk, SingleFlight;
    RunsAreSound(ttl, now, events);
    TtlStays(Start(ttl, now), events);
    var s := Reached(Start(ttl, now), events);
    assert Justified(s, s.calls[c]);
    if s.calls[c].joined.Some? {
      assert StoredBy(s.fetches[s.calls[c].joined.value], s.calls[c].id, s.calls[c].answer.entry);
    }
  }

  /**
   * Any other answer follows a failed fetch that was in flight during the call, and depends only on
   * what was cached when the call began: that entry, too old, is served stale; without one the call fails.
   */
  lemma {:induction false} AnswerAfterFailure(ttl: int, now: int, events: seq<Event>, c: nat)
    requires
      var calls := Reached(Start(ttl, now), events).calls;
      c < |calls| && (calls[c].answer.Unavailable? || (calls[c].answer.Served? && calls[c].answer.stale))
    ensures
      var s := Reached(Start(ttl, now), events);
      var call := s.calls[c];
      && call.joined.Some? && call.joined.value < |s.fetches|
      && s.fetches[call.joined.value].phase.Cleared? && s.fetches[call.joined.value].phase.result.None?
      && s.fetches[call.joined.value].id == call.id && call.at <= s.fetches[call.joined.value].phase.clearedAt
      && (call.answer.Unavailable? <==> call.cached.None?)
      && (call.answer.Served? ==> call.cached == Some(call.answer.entry) && call.at - call.answer.entry.fetchedAt >= ttl)
  {
    hide Step, OnePerk, SingleFlight, Stored;
    RunsAreSound(ttl, now, events);
    TtlStays(Start(ttl, now), events);
    var s := Reached(Start(ttl, now), events);
    assert Justified(s, s.calls[c]);
  }

  lemma {:induction false} TtlStays(s: State, events: seq<Event>)
    ensures Reached(s, events).ttl == s.ttl
  {
    if events != [] {
      TtlStays(s, events[..|events| - 1]);
      StepGrows(Reached(s, events[..|events| - 1]), events[|events| - 1]);
    }
  }

  /** Every entry ever fetched says whether its grants hold this perk. */
  ghost predicate AllSayPro(fetches: seq<Fetch>, perkId: Option<string>) {
    forall f :: 0 <= f < |fetches| && EntryOf(fetches[f].phase).Some? ==>
      var entry := EntryOf(fetches[f].phase).value;
      entry.hasPro == HasPro(perkId, entry.grants)
  }

  /** One perk id decides every entry of a run. */
  lemma {:induction false} OnePerkId(ttl: int, now: int, events: seq<Event>)
    ensures exists perkId :: AllSayPro(Reached(Start(ttl, now), events).fetches, perkId)
  {
    hide Step, SingleFlight, Stored, Justified, HasPro;
    RunsAreSound(ttl, now, events);
    var s := Reached(Start(ttl, now), events);
    var perkId := if s.perkId.Some? && s.lookups[s.perkId.value].Found? then s.lookups[s.perkId.value].perkId else None;
    forall f | 0 <= f < |s.fetches| ensures UsesPerk(s.fetches[f].phase, s.lookups, s.perkId) {}
    assert AllSayPro(s.fetches, perkId);
  }

  // ------------------------------------------------------------ failure is not denial

  /** Calls from number `m` on for this person began with an answer in the cache. */
  ghost predicate CachedSince(s: State, m: nat, id: Id) {
    && m <= |s.calls|
    && id in s.entries
    && forall c :: m <= c < |s.calls| && s.calls[c].id == id ==> s.calls[c].cached.Some?
  }

  lemma StepKeepsCached(s: State, e: Event, m: nat, id: Id)
    requires CachedSince(s, m, id) && e != Invalidate(id)
    ensures CachedSince(Step(s, e), m, id)
  {
    hide AnswerOf, PhaseAfter;
  }

  /**
   * Once an answer is cached, no failure of any kind removes it or turns a later call away:
   * only an invalidation of that person does.
   */
  lemma {:induction false} FailureIsNotDenial(s: State, later: seq<Event>, id: Id)
    requires Sound(s) && id in s.entries
    requires forall n :: 0 <= n < |later| ==> later[n] != Invalidate(id)
    ensures
      var t := Reached(s, later);
      && id in t.entries
      && |s.calls| <= |t.calls|
      && forall c :: |s.calls| <= c < |t.calls| && t.calls[c].id == id ==> !t.calls[c].answer.Unavailable?
  {
    hide Step, Stored, SingleFlight, OnePerk;
    CachedThroughout(s, later, id);
    ReachedIsSound(s, later);
    var t := Reached(s, later);
    forall c | |s.calls| <= c < |t.calls| && t.calls[c].id == id ensures !t.calls[c].answer.Unavailable? {
      assert Justified(t, t.calls[c]);
    }
  }

  lemma {:induction false} CachedThroughout(s: State, later: seq<Event>, id: Id)
    requires id in s.entries
    requires forall n :: 0 <= n < |later| ==> later[n] != Invalidate(id)
    ensures CachedSince(Reached(s, later), |s.calls|, id)
  {
    hide Step;
    if later != [] {
      CachedThroughout(s, later[..|later| - 1], id);
      StepKeepsCached(Reached(s, later[..|later| - 1]), later[|later| - 1], |s.calls|, id);
    }
  }

  // ------------------------------------------------------------ what an invalidation reaches

  /** The fetch can no longer produce an entry. */
  predicate Doomed(s: State, f: nat)
    requires f < |s.fetches|
  {
    match s.fetches[f].phase
    case NeedsPerk(l) => l < |s.lookups| && s.lookups[l].LookupFailed?
    case Rejected => true
    case Cleared(result, _) => result.None?
    case _ => false
  }

  /** Stored by a fetch that began after the first `n`. */
  ghost predicate StoredAfter(s: State, n: nat, id: Id, entry: Entry) {
    exists f :: n <= f < |s.fetches| && StoredBy(s.fetches[f], id, entry)
  }

  /** Every answer a call gives that began after the invalidation comes from a fetch that did, too. */
  ghost predicate InvalidationHolds(s: State, id: Id) {
    forall later, c ::
      var t := Reached(Step(s, Invalidate(id)), later);
      |s.calls| <= c < |t.calls| && t.calls[c].id == id && t.calls[c].answer.Served? ==>
        StoredAfter(t, |s.fetches|, id, t.calls[c].answer.entry)
  }

  /** What a run keeps after an invalidation that found nothing usable in flight. */
  ghost predicate OnlyNew(s: State, n: nat, m: nat, id: Id) {
    && n <= |s.fetches| && m <= |s.calls|
    && (id in s.inFlight ==> s.inFlight[id] < |s.fetches| && (s.inFlight[id] >= n || Doomed(s, s.inFlight[id])))
    && (id in s.entries ==> StoredAfter(s, n, id, s.entries[id]))
    && (forall c :: m <= c < |s.calls| && s.calls[c].id == id ==> NewCall(s, n, s.calls[c]))
  }

  ghost predicate NewCall(s: State, n: nat, c: Call) {
    && (c.cached.Some? ==> StoredAfter(s, n, c.id, c.cached.value))
    && (c.joined.Some? ==> c.joined.value < |s.fetches| && (c.joined.value >= n || Doomed(s, c.joined.value)))
    && (c.answer.Served? ==> StoredAfter(s, n, c.id, c.answer.entry))
  }

  lemma {:induction false} StoredAfterGrows(s: State, t: State, n: nat, id: Id, entry: Entry)
    requires Grows(s, t) && StoredAfter(s, n, id, entry)
    ensures StoredAfter(t, n, id, entry)
  {
    var f :| n <= f < |s.fetches| && StoredBy(s.fetches[f], id, entry);
    assert StoredBy(t.fetches[f], id, entry);
  }

  lemma {:induction false} DoomedStays(s: State, e: Event, f: nat)
    requires f < |s.fetches| && Doomed(s, f)
    ensures f < |Step(s, e).fetches| && Doomed(Step(s, e), f)
  {
    hide AnswerOf;
  }

  lemma {:induction false} NewCallStays(s: State, e: Event, n: nat, c: Call)
    requires NewCall(s, n, c)
    ensures NewCall(Step(s, e), n, c)
  {
    hide Step, Doomed, StoredAfter;
    StepGrows(s, e);
    if c.cached.Some? { StoredAfterGrows(s, Step(s, e), n, c.id, c.cached.value); }
    if c.answer.Served? { StoredAfterGrows(s, Step(s, e), n, c.id, c.answer.entry); }
    if c.joined.Some? && c.joined.value < n { DoomedStays(s, e, c.joined.value); }
  }

  lemma ResumedCallIsNew(s: State, n: nat, c: nat)
    requires Sound(s) && Enabled(s, Resumes(c)) && NewCall(s, n, s.calls[c])
    ensures
      var call := s.calls[c];
      NewCall(s, n, call.(answer := AnswerOf(call.cached, s.fetches[call.answer.fetch].phase.result)))
  {
    hide Stored, SingleFlight, OnePerk;
    var call := s.calls[c];
    assert Justified(s, call);
    var f := call.answer.fetch;
    if s.fetches[f].phase.result.Some? {
      assert StoredBy(s.fetches[f], call.id, s.fetches[f].phase.result.value);
    }
  }

  lemma {:induction false} FlightStaysNew(s: State, e: Event, n: nat, m: nat, id: Id)
    requires Sound(s) && OnlyNew(s, n, m, id)
    ensures
      var t := Step(s, e);
      id in t.inFlight ==> t.inFlight[id] < |t.fetches| && (t.inFlight[id] >= n || Doomed(t, t.inFlight[id]))
  {
    hide AnswerOf, PhaseAfter, NewCall, StoredAfter, Stored, Justified, OnePerk, SingleFlight, Doomed;
    if id in s.inFlight && s.inFlight[id] < n {
      DoomedStays(s, e, s.inFlight[id]);
    }
  }

  lemma {:induction false} EntryStaysNew(s: State, e: Event, n: nat, m: nat, id: Id)
    requires Sound(s) && OnlyNew(s, n, m, id)
    ensures
      var t := Step(s, e);
      id in t.entries ==> StoredAfter(t, n, id, t.entries[id])
  {
    hide AnswerOf, NewCall, Stored, Justified, OnePerk, Grows, StoredAfter;
    var t := Step(s, e);
    StepGrows(s, e);
    if id in t.entries {
      if id in s.entries && t.entries[id] == s.entries[id] {
        StoredAfterGrows(s, t, n, id, s.entries[id]);
      } else {
        assert e.Lands? && s.fetches[e.fetch].id == id && e.fetch >= n;
        LandedIsStoredAfter(t, n, e.fetch, t.entries[id]);
      }
    }
  }

  lemma LandedIsStoredAfter(s: State, n: nat, f: nat, entry: Entry)
    requires n <= f < |s.fetches| && s.fetches[f].phase == Landed(entry)
    ensures StoredAfter(s, n, s.fetches[f].id, entry)
  {
    assert StoredBy(s.fetches[f], s.fetches[f].id, entry);
  }

  lemma {:induction false} AddedCallIsNew(s: State, now: int, n: nat, m: nat, id: Id)
    requires OnlyNew(s, n, m, id) && Enabled(s, Resolve(id, now))
    ensures
      var t := StepResolve(s, id, now);
      |t.calls| == |s.calls| + 1 && NewCall(t, n, t.calls[|s.calls|])
  {
    hide StoredAfter, Grows;
    var t := StepResolve(s, id, now);
    assert t == Step(s, Resolve(id, now));
    StepGrows(s, Resolve(id, now));
    if id in s.entries {
      StoredAfterGrows(s, t, n, id, s.entries[id]);
    }
  }

  lemma {:induction false} CallsStayNew(s: State, e: Event, n: nat, m: nat, id: Id)
    requires Sound(s) && OnlyNew(s, n, m, id)
    ensures
      var t := Step(s, e);
      m <= |t.calls| && forall c :: m <= c < |t.calls| && t.calls[c].id == id ==> NewCall(t, n, t.calls[c])
  {
    hide AnswerOf, PhaseAfter, NewCall, StoredAfter, Sound, Doomed;
    var t := Step(s, e);
    forall c | m <= c < |s.calls| && s.calls[c].id == id ensures NewCall(t, n, s.calls[c]) {
      NewCallStays(s, e, n, s.calls[c]);
    }
    if Enabled(s, e) {
      if e.Resolve? && e.id == id {
        AddedCallIsNew(s, e.now, n, m, id);
      } else if e.Resumes? && m <= e.call && s.calls[e.call].id == id {
        ResumedCallIsNew(s, n, e.call);
        var call := s.calls[e.call];
        NewCallStays(s, e, n, call.(answer := AnswerOf(call.cached, s.fetches[call.answer.fetch].phase.result)));
      }
    }
  }

  lemma {:induction false} StepKeepsOnlyNew(s: State, e: Event, n: nat, m: nat, id: Id)
    requires Sound(s) && OnlyNew(s, n, m, id)
    ensures OnlyNew(Step(s, e), n, m, id)
  {
    hide Step, NewCall, StoredAfter, Sound, Doomed, Advances;
    FlightStaysNew(s, e, n, m, id);
    EntryStaysNew(s, e, n, m, id);
    CallsStayNew(s, e, n, m, id);
    StepGrows(s, e);
  }

  lemma {:induction false} OnlyNewThroughout(s: State, later: seq<Event>, n: nat, m: nat, id: Id)
    requires Sound(s) && OnlyNew(s, n, m, id)
    ensures OnlyNew(Reached(s, later), n, m, id)
  {
    hide Step, Sound, OnlyNew;
    if later != [] {
      var earlier := later[..|later| - 1];
      OnlyNewThroughout(s, earlier, n, m, id);
      ReachedIsSound(s, earlier);
      StepKeepsOnlyNew(Reached(s, earlier), later[|later| - 1], n, m, id);
    }
  }

  lemma NothingInFlightHolds(s: State, id: Id)
    requires Sound(s) && (id in s.inFlight ==> Doomed(s, s.inFlight[id]))
    ensures InvalidationHolds(s, id)
  {
    hide Step, SingleFlight, OnePerk, Stored, Justified, StoredAfter, Doomed;
    var t0 := Step(s, Invalidate(id));
    InvalidatedOnlyNew(s, id);
    StepKeepsSound(s, Invalidate(id));
    forall later, c |
      var t := Reached(t0, later);
      |s.calls| <= c < |t.calls| && t.calls[c].id == id && t.calls[c].answer.Served?
      ensures
        var t := Reached(t0, later);
        StoredAfter(t, |s.fetches|, id, t.calls[c].answer.entry)
    {
      OnlyNewThroughout(t0, later, |s.fetches|, |s.calls|, id);
    }
  }

  lemma InvalidatedOnlyNew(s: State, id: Id)
    requires SingleFlight(s) && (id in s.inFlight ==> Doomed(s, s.inFlight[id]))
    ensures OnlyNew(Step(s, Invalidate(id)), |s.fetches|, |s.calls|, id)
  {}

  lemma {:induction false} ReachedCons(s: State, e: Event, rest: seq<Event>)
    ensures Reached(s, [e] + rest) == Reached(Step(s, e), rest)
  {
    hide Step;
    var events := [e] + rest;
    if rest == [] {
      assert events == [e] && [e][..0] == [];
      assert Reached(s, []) == s;
    } else {
      ReachedCons(s, e, rest[..|rest| - 1]);
      assert events[..|events| - 1] == [e] + rest[..|rest| - 1];
    }
  }

  /** Call `c` waits for fetch `f`, which has not failed. */
  predicate Awaits(s: State, c: nat, f: nat) {
    && c < |s.calls| && s.calls[c].answer == Waiting(f)
    && f < |s.fetches| && !Doomed(s, f)
    && (s.fetches[f].phase.NeedsPerk? ==> s.fetches[f].phase.lookup < |s.lookups|)
  }

  /** How many steps the fetch is from settling. */
  function StepsLeft(s: State, f: nat): nat
    requires f < |s.fetches|
  {
    match s.fetches[f].phase
    case NeedsPerk(l) => if l < |s.lookups| && s.lookups[l].Asking? then 5 else 4
    case NeedsGrants(_) => 3
    case Answered(_) => 2
    case Landed(_) => 1
    case _ => 0
  }

  /** A next event that moves the fetch on towards success. */
  function Onward(s: State, f: nat): Event
    requires f < |s.fetches|
  {
    match s.fetches[f].phase
    case NeedsPerk(l) => if l < |s.lookups| && s.lookups[l].Asking? then LookupSettles(l, Found(None)) else PerkArrives(f)
    case NeedsGrants(_) => GrantsArrive(f, Grants([]), s.clock)
    case Answered(_) => Lands(f)
    case _ => Clears(f, s.clock)
  }

  lemma OnwardProgress(s: State, c: nat, f: nat)
    requires Awaits(s, c, f) && StepsLeft(s, f) > 0
    ensures
      var t := Step(s, Onward(s, f));
      && Awaits(t, c, f) && StepsLeft(t, f) < StepsLeft(s, f)
      && t.calls == s.calls && |t.fetches| == |s.fetches|
  {
    hide AnswerOf, HasPro;
  }

  lemma {:induction false} WaitEndsServed(s: State, c: nat, f: nat) returns (events: seq<Event>)
    requires Awaits(s, c, f)
    ensures
      var t := Reached(s, events);
      && |t.fetches| == |s.fetches| && |t.calls| == |s.calls|
      && t.calls[c].answer.Served? && t.calls[c].id == s.calls[c].id
    decreases StepsLeft(s, f)
  {
    if StepsLeft(s, f) == 0 {
      events := [Resumes(c)];
      assert events[..0] == [];
      assert Reached(s, []) == s;
    } else {
      hide Step, Onward, StepsLeft, Awaits, Doomed;
      OnwardProgress(s, c, f);
      var rest := WaitEndsServed(Step(s, Onward(s, f)), c, f);
      ReachedCons(s, Onward(s, f), rest);
      events := [Onward(s, f)] + rest;
    }
  }

  /** A call that begins right after the invalidation joins the fetch that is in flight. */
  lemma {:induction false} FlightOutlivesInvalidation(s: State, id: Id)
    requires Sound(s) && id in s.inFlight && !Doomed(s, s.inFlight[id])
    ensures !InvalidationHolds(s, id)
  {
    hide Stored, Justified, UsesPerk, StoredBy;
    var f, c := s.inFlight[id], |s.calls|;
    var t0 := Step(s, Invalidate(id));
    var join := Resolve(id, s.clock);
    JoinsFlight(s, id);
    var rest := WaitEndsServed(Step(t0, join), c, f);
    ReachedCons(t0, join, rest);
    var t := Reached(t0, [join] + rest);
    assert |t.fetches| == |s.fetches|;
    assert !StoredAfter(t, |s.fetches|, id, t.calls[c].answer.entry);
  }

  lemma JoinsFlight(s: State, id: Id)
    requires SingleFlight(s) && OnePerk(s) && id in s.inFlight && !Doomed(s, s.inFlight[id])
    ensures
      var t := Step(Step(s, Invalidate(id)), Resolve(id, s.clock));
      && Awaits(t, |s.calls|, s.inFlight[id])
      && t.fetches == s.fetches && |t.calls| == |s.calls| + 1 && t.calls[|s.calls|].id == id
  {
    hide AnswerOf;
    assert UsesPerk(s.fetches[s.inFlight[id]].phase, s.lookups, s.perkId);
  }

  /**
   * An invalidation does not cancel a fetch: later answers are all fetched anew exactly when the
   * person had no fetch in flight, or one that already failed.
   */
  lemma InvalidationHoldsIff(s: State, id: Id)
    requires Sound(s)
    ensures InvalidationHolds(s, id) <==> (id in s.inFlight ==> Doomed(s, s.inFlight[id]))
  {
    hide InvalidationHolds, Doomed;
    if id in s.inFlight && !Doomed(s, s.inFlight[id]) {
      FlightOutlivesInvalidation(s, id);
    } else {
      NothingInFlightHolds(s, id);
    }
  }
}
