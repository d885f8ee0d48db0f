/**
 * The entitlement cache told from the replies of a run: what a fetch comes up with, what is cached,
 * and what calls are answered, in terms of what the server said and nothing else.
 */
module EntitlementsHistory {
  import opened Options
  import opened Histories
  import opened EntitlementsCache

  // ------------------------------------------------------------ replies

  /** At `now` the server answers fetch `f`: the person has these grants, or there is no such person. */
  predicate Answers(s: State, e: Event, f: nat, grants: seq<Grant>, now: int) {
    && Enabled(s, e) && e.GrantsArrive? && e.fetch == f && e.now == now
    && (e.reply == Grants(grants) || (e.reply.PersonNotFound? && grants == []))
  }

  /** The fetch fails: the server could not say, or the perk id could not be looked up. */
  predicate Fails(s: State, e: Event, f: nat) {
    Enabled(s, e) &&
    ((e.GrantsArrive? && e.fetch == f && e.reply.GrantsFailed?) ||
     (e.PerkArrives? && e.fetch == f && s.lookups[s.fetches[f].phase.lookup].LookupFailed?))
  }

  predicate FindsPerk(s: State, e: Event, perkId: Option<string>) {
    Enabled(s, e) && e.LookupSettles? && e.result == Found(perkId)
  }

  ghost predicate WasAnswered(s: State, events: seq<Event>, f: nat, grants: seq<Grant>, now: int) {
    Once(prefix => Reached(s, prefix), events, (x, e) => Answers(x, e, f, grants, now))
  }

  ghost predicate HasFailed(s: State, events: seq<Event>, f: nat) {
    Once(prefix => Reached(s, prefix), events, (x, e) => Fails(x, e, f))
  }

  ghost predicate PerkWasFound(s: State, events: seq<Event>, perkId: Option<string>) {
    Once(prefix => Reached(s, prefix), events, (x, e) => FindsPerk(x, e, perkId))
  }

  lemma {:induction false} RepliesStep(s: State, events: seq<Event>, f: nat, grants: seq<Grant>, now: int)
    requires events != []
    ensures
      var earlier, e := events[..|events| - 1], events[|events| - 1];
      && (WasAnswered(s, events, f, grants, now) <==>
            Answers(Reached(s, earlier), e, f, grants, now) || WasAnswered(s, earlier, f, grants, now))
      && (HasFailed(s, events, f) <==> Fails(Reached(s, earlier), e, f) || HasFailed(s, earlier, f))
  {
    hide Answers, Fails, Reached, Once;
    OnceStep(prefix => Reached(s, prefix), events, (x, e) => Answers(x, e, f, grants, now));
    OnceStep(prefix => Reached(s, prefix), events, (x, e) => Fails(x, e, f));
  }

  lemma {:induction false} PerkFoundStep(s: State, events: seq<Event>, perkId: Option<string>)
    requires events != []
    ensures
      var earlier, e := events[..|events| - 1], events[|events| - 1];
      PerkWasFound(s, events, perkId) <==> FindsPerk(Reached(s, earlier), e, perkId) || PerkWasFound(s, earlier, perkId)
  {
    hide FindsPerk, Reached, Once;
    OnceStep(prefix => Reached(s, prefix), events, (x, e) => FindsPerk(x, e, perkId));
  }

  // ------------------------------------------------------------ what a fetch comes up with

  predicate CameUpWith(s: State, f: nat, grants: seq<Grant>, now: int) {
    f < |s.fetches| && EntryOf(s.fetches[f].phase).Some?
    && EntryOf(s.fetches[f].phase).value.grants == grants && EntryOf(s.fetches[f].phase).value.fetchedAt == now
  }

  predicate HasNoResult(s: State, f: nat) {
    f < |s.fetches| && (s.fetches[f].phase.Rejected? || (s.fetches[f].phase.Cleared? && s.fetches[f].phase.result.None?))
  }

  lemma CameUpWithStep(s: State, e: Event, f: nat, grants: seq<Grant>, now: int)
    ensures CameUpWith(Step(s, e), f, grants, now) <==> Answers(s, e, f, grants, now) || CameUpWith(s, f, grants, now)
  {
    hide AnswerOf, HasPro;
  }

  lemma HasNoResultStep(s: State, e: Event, f: nat)
    ensures HasNoResult(Step(s, e), f) <==> Fails(s, e, f) || HasNoResult(s, f)
  {
    hide AnswerOf, HasPro;
  }

  /**
   * Over every run: a fetch has an entry exactly if the server answered it, with the grants and at the time of
   * that answer; and it has ended without one exactly if it failed.
   */
  lemma {:induction false} FetchedExactly(ttl: int, start: int, events: seq<Event>, f: nat, grants: seq<Grant>, now: int)
    ensures
      var s0 := Start(ttl, start);
      && (CameUpWith(Reached(s0, events), f, grants, now) <==> WasAnswered(s0, events, f, grants, now))
      && (HasNoResult(Reached(s0, events), f) <==> HasFailed(s0, events, f))
  {
    hide Step, Answers, Fails, CameUpWith, HasNoResult;
    var s0 := Start(ttl, start);
    if events == [] {
      assert !CameUpWith(s0, f, grants, now) && !HasNoResult(s0, f) by { NothingFetched(ttl, start, f, grants, now); }
    } else {
      var earlier := events[..|events| - 1];
      FetchedExactly(ttl, start, earlier, f, grants, now);
      CameUpWithStep(Reached(s0, earlier), events[|events| - 1], f, grants, now);
      HasNoResultStep(Reached(s0, earlier), events[|events| - 1], f);
      RepliesStep(s0, events, f, grants, now);
    }
  }

  lemma NothingFetched(ttl: int, start: int, f: nat, grants: seq<Grant>, now: int)
    ensures !CameUpWith(Start(ttl, start), f, grants, now) && !HasNoResult(Start(ttl, start), f)
  {}

  /** A failed fetch never has an entry, whatever follows. */
  lemma {:induction false} FailedNeverAnswers(s: State, later: seq<Event>, f: nat, grants: seq<Grant>, now: int)
    requires HasNoResult(s, f)
    ensures HasNoResult(Reached(s, later), f) && !CameUpWith(Reached(s, later), f, grants, now)
  {
    hide Step, Fails;
    if later != [] {
      FailedNeverAnswers(s, later[..|later| - 1], f, grants, now);
      HasNoResultStep(Reached(s, later[..|later| - 1]), later[|later| - 1], f);
    }
  }

  // ------------------------------------------------------------ the perk

  lemma FoundStep(s: State, e: Event, perkId: Option<string>)
    ensures Found(perkId) in Step(s, e).lookups <==> FindsPerk(s, e, perkId) || Found(perkId) in s.lookups
  {
    hide AnswerOf, PhaseAfter;
    var t := Step(s, e);
    if Enabled(s, e) {
      if e.LookupSettles? {
        assert t.lookups[e.lookup] == e.result;
        forall l | 0 <= l < |s.lookups| && l != e.lookup ensures t.lookups[l] == s.lookups[l] {}
        assert Found(perkId) in s.lookups ==> exists l :: 0 <= l < |s.lookups| && l != e.lookup && s.lookups[l] == Found(perkId);
      } else if e.Resolve? {
        assert t.lookups == s.lookups || t.lookups == s.lookups + [Asking];
      }
    }
  }

  lemma {:induction false} FoundExactly(ttl: int, start: int, events: seq<Event>, perkId: Option<string>)
    ensures
      var s0 := Start(ttl, start);
      Found(perkId) in Reached(s0, events).lookups <==> PerkWasFound(s0, events, perkId)
  {
    hide Step, FindsPerk;
    if events != [] {
      var s0 := Start(ttl, start);
      var earlier := events[..|events| - 1];
      FoundExactly(ttl, start, earlier, perkId);
      FoundStep(Reached(s0, earlier), events[|events| - 1], perkId);
      PerkFoundStep(s0, events, perkId);
    }
  }

  /** Over every run: at most one perk id is ever found. */
  lemma {:induction false} OnePerkFound(ttl: int, start: int, events: seq<Event>, p: Option<string>, q: Option<string>)
    requires PerkWasFound(Start(ttl, start), events, p) && PerkWasFound(Start(ttl, start), events, q)
    ensures p == q
  {
    hide Step, SingleFlight, Stored, Justified, PerkWasFound, UsesPerk;
    FoundExactly(ttl, start, events, p);
    FoundExactly(ttl, start, events, q);
    RunsAreSound(ttl, start, events);
  }

  /** Access is one active grant of the perk that was found, by whichever fetch asked for it. */
  lemma {:induction false} ProExactly(ttl: int, start: int, events: seq<Event>, f: nat)
    requires
      var s := Reached(Start(ttl, start), events);
      f < |s.fetches| && EntryOf(s.fetches[f].phase).Some?
    ensures
      var s0 := Start(ttl, start);
      var entry := EntryOf(Reached(s0, events).fetches[f].phase).value;
      exists perkId ::
        && PerkWasFound(s0, events, perkId)
        && (entry.hasPro <==> exists grant :: grant in entry.grants && grant.active && perkId == Some(grant.perkId))
  {
    hide Step, SingleFlight, Stored, Justified, PerkWasFound;
    RunsAreSound(ttl, start, events);
    var s0 := Start(ttl, start);
    var s := Reached(s0, events);
    assert UsesPerk(s.fetches[f].phase, s.lookups, s.perkId);
    var perkId := s.lookups[s.perkId.value].perkId;
    assert Found(perkId) in s.lookups;
    FoundExactly(ttl, start, events, perkId);
    var grants := EntryOf(s.fetches[f].phase).value.grants;
    assert HasPro(perkId, grants) <==> exists grant :: grant in grants && grant.active && perkId == Some(grant.perkId);
  }

  /** The lookup held on to has not failed. */
  predicate NotPoisoned(s: State) {
    s.perkId.Some? ==> s.perkId.value < |s.lookups| && !s.lookups[s.perkId.value].LookupFailed?
  }

  lemma StepKeepsNotPoisoned(s: State, e: Event)
    requires NotPoisoned(s)
    ensures NotPoisoned(Step(s, e))
  {
    hide AnswerOf, HasPro;
  }

  lemma {:induction false} RunsNotPoisoned(ttl: int, start: int, events: seq<Event>)
    ensures NotPoisoned(Reached(Start(ttl, start), events))
  {
    hide Step;
    if events != [] {
      RunsNotPoisoned(ttl, start, events[..|events| - 1]);
      StepKeepsNotPoisoned(Reached(Start(ttl, start), events[..|events| - 1]), events[|events| - 1]);
    }
  }

  /** A failed lookup poisons no later fetch: each starts on a lookup that runs or succeeded. */
  lemma {:induction false} FetchStartsAfresh(ttl: int, start: int, events: seq<Event>, id: Id, now: int)
    ensures
      var s := Reached(Start(ttl, start), events);
      var t := Step(s, Resolve(id, now));
      |t.fetches| > |s.fetches| ==>
        var phase := t.fetches[|s.fetches|].phase;
        phase.NeedsPerk? && phase.lookup < |t.lookups| && !t.lookups[phase.lookup].LookupFailed?
  {
    hide Reached;
    RunsNotPoisoned(ttl, start, events);
  }

  // ------------------------------------------------------------ what is cached

  /** A fetch for the person lands with this entry. */
  predicate Stores(s: State, e: Event, id: Id, entry: Entry) {
    Enabled(s, e) && e.Lands? && s.fetches[e.fetch] == Fetch(id, Answered(entry))
  }

  /** The cached entry is replaced or dropped. */
  predicate Replaces(s: State, e: Event, id: Id) {
    Enabled(s, e) && (e == Invalidate(id) || (e.Lands? && s.fetches[e.fetch].id == id))
  }

  ghost predicate StoredLast(s: State, events: seq<Event>, id: Id, entry: Entry) {
    Since(prefix => Reached(s, prefix), events, (x, e) => Stores(x, e, id, entry), (x, e) => Replaces(x, e, id))
  }

  lemma {:induction false} StoredLastStep(s: State, events: seq<Event>, id: Id, entry: Entry)
    requires events != []
    ensures
      var earlier, e := events[..|events| - 1], events[|events| - 1];
      StoredLast(s, events, id, entry) <==>
        Stores(Reached(s, earlier), e, id, entry) || (StoredLast(s, earlier, id, entry) && !Replaces(Reached(s, earlier), e, id))
  {
    hide Stores, Replaces, Reached, Since;
    SinceStep(prefix => Reached(s, prefix), events, (x, e) => Stores(x, e, id, entry), (x, e) => Replaces(x, e, id));
  }

  lemma CachedStep(s: State, e: Event, id: Id, entry: Entry)
    ensures
      var t := Step(s, e);
      (id in t.entries && t.entries[id] == entry) <==>
      Stores(s, e, id, entry) || (id in s.entries && s.entries[id] == entry && !Replaces(s, e, id))
  {
    hide AnswerOf, HasPro, GrantsOf;
  }

  /** Over every run: an entry is cached exactly if a fetch for the person landed with it and nothing replaced it since. */
  lemma {:induction false} CachedExactly(ttl: int, start: int, events: seq<Event>, id: Id, entry: Entry)
    ensures
      var s0 := Start(ttl, start);
      var s := Reached(s0, events);
      id in s.entries && s.entries[id] == entry <==> StoredLast(s0, events, id, entry)
  {
    hide Step, Stores, Replaces;
    if events != [] {
      var s0 := Start(ttl, start);
      var earlier := events[..|events| - 1];
      CachedExactly(ttl, start, earlier, id, entry);
      CachedStep(Reached(s0, earlier), events[|events| - 1], id, entry);
      StoredLastStep(s0, events, id, entry);
    }
  }

  // ------------------------------------------------------------ one resolve

  /** A fetch for this person is under way. */
  predicate UnderWay(s: State, id: Id, f: nat) {
    f < |s.fetches| && s.fetches[f].id == id && !s.fetches[f].phase.Cleared?
  }

  /**
   * A call is answered at once exactly if an entry younger than the TTL is cached; otherwise it waits for the fetch
   * of its person under way, or starts the only one. No other fetch and no other call is touched.
   */
  lemma {:induction false} ResolveAnswers(s: State, id: Id, now: int)
    requires Sound(s) && s.clock <= now
    ensures
      var t, c := Step(s, Resolve(id, now)), |s.calls|;
      && |t.calls| == c + 1 && t.calls[..c] == s.calls
      && t.calls[c].id == id && t.calls[c].at == now
      && (t.calls[c].answer.Served? <==> id in s.entries && now - s.entries[id].fetchedAt < s.ttl)
      && (t.calls[c].answer.Served? ==> t.calls[c].answer == Served(s.entries[id], false) && t.fetches == s.fetches)
      && (!t.calls[c].answer.Served? ==>
            && t.calls[c].answer.Waiting? && UnderWay(t, id, t.calls[c].answer.fetch)
            && (t.fetches == s.fetches || ((forall f: nat :: !UnderWay(s, id, f)) && t.fetches[..|t.fetches| - 1] == s.fetches)))
  {
    hide OnePerk, Stored, Justified;
    forall f: nat ensures UnderWay(s, id, f) ==> id in s.inFlight {}
  }

  // ------------------------------------------------------------ failure is not denial

  /** No fetch for the person that is under way has an answer. */
  ghost predicate NoneAnswered(s: State, id: Id) {
    forall f: nat :: UnderWay(s, id, f) ==> EntryOf(s.fetches[f].phase).None?
  }

  /** The step brings an answer for the person. */
  ghost predicate AnswersPerson(s: State, e: Event, id: Id) {
    Enabled(s, e) && e.GrantsArrive? && s.fetches[e.fetch].id == id && !e.reply.GrantsFailed?
  }

  /** In these steps every fetch for the person that ends fails, and nobody invalidates the person. */
  ghost predicate OnlyFailures(s: State, later: seq<Event>, id: Id) {
    forall n :: 0 <= n < |later| ==> later[n] != Invalidate(id) && !AnswersPerson(Reached(s, later[..n]), later[n], id)
  }

  /** How a call that began with this entry cached fares while every fetch fails. */
  predicate ServedFrom(s: State, c: Call, entry: Entry) {
    && c.cached == Some(entry)
    && (c.answer.Waiting? ==> UnderWay(s, c.id, c.answer.fetch) || HasNoResult(s, c.answer.fetch))
    && (c.answer.Served? ==> c.answer == Served(entry, c.at - entry.fetchedAt >= s.ttl))
    && (c.answer.Waiting? ==> c.at - entry.fetchedAt >= s.ttl)
    && !c.answer.Unavailable?
  }

  /** The entry is cached, and all calls of the person from number `m` on live off it. */
  ghost predicate LivesOff(s: State, m: nat, id: Id, entry: Entry) {
    && m <= |s.calls|
    && id in s.entries && s.entries[id] == entry
    && NoneAnswered(s, id)
    && forall c :: m <= c < |s.calls| && s.calls[c].id == id ==> ServedFrom(s, s.calls[c], entry)
  }

  lemma {:induction false} NoneAnsweredStep(s: State, e: Event, id: Id)
    requires NoneAnswered(s, id) && !AnswersPerson(s, e, id)
    ensures NoneAnswered(Step(s, e), id)
  {
    hide AnswerOf, HasPro;
    forall f: nat | UnderWay(Step(s, e), id, f) ensures EntryOf(Step(s, e).fetches[f].phase).None? {
      assert f < |s.fetches| ==> UnderWay(s, id, f);
    }
  }

  lemma {:induction false} EntryKept(s: State, e: Event, id: Id)
    requires id in s.entries && NoneAnswered(s, id) && e != Invalidate(id)
    ensures id in Step(s, e).entries && Step(s, e).entries[id] == s.entries[id]
  {
    hide AnswerOf, HasPro;
    if Enabled(s, e) && e.Lands? {
      LandingHasAnswer(s, e.fetch);
    }
  }

  lemma LandingHasAnswer(s: State, f: nat)
    requires Enabled(s, Lands(f))
    ensures !NoneAnswered(s, s.fetches[f].id)
  {
    assert UnderWay(s, s.fetches[f].id, f);
  }

  lemma {:induction false} WaitStep(s: State, e: Event, id: Id, f: nat)
    requires NoneAnswered(s, id) && !AnswersPerson(s, e, id)
    requires UnderWay(s, id, f) || HasNoResult(s, f)
    ensures UnderWay(Step(s, e), id, f) || HasNoResult(Step(s, e), f)
  {
    hide AnswerOf, HasPro;
    assert UnderWay(s, id, f) ==> EntryOf(s.fetches[f].phase).None?;
  }

  lemma {:induction false} CallKept(s: State, e: Event, c: Call, entry: Entry)
    requires NoneAnswered(s, c.id) && !AnswersPerson(s, e, c.id) && ServedFrom(s, c, entry)
    ensures ServedFrom(Step(s, e), c, entry)
  {
    hide Step, AnswerOf, NoneAnswered, AnswersPerson;
    StepGrows(s, e);
    if c.answer.Waiting? {
      WaitStep(s, e, c.id, c.answer.fetch);
    }
  }

  lemma ResumedCallKept(s: State, c: nat, entry: Entry)
    requires Enabled(s, Resumes(c)) && ServedFrom(s, s.calls[c], entry)
    ensures
      var call := s.calls[c];
      ServedFrom(s, call.(answer := AnswerOf(call.cached, s.fetches[call.answer.fetch].phase.result)), entry)
  {}

  lemma {:induction false} LivesOffStep(s: State, e: Event, m: nat, id: Id, entry: Entry)
    requires Sound(s) && LivesOff(s, m, id, entry) && e != Invalidate(id) && !AnswersPerson(s, e, id)
    ensures LivesOff(Step(s, e), m, id, entry)
  {
    hide AnswerOf, PhaseAfter, ServedFrom, OnePerk, Stored, Justified, SingleFlight, NoneAnswered, AnswersPerson;
    var t := Step(s, e);
    NoneAnsweredStep(s, e, id);
    EntryKept(s, e, id);
    forall c | m <= c < |s.calls| && s.calls[c].id == id ensures ServedFrom(t, s.calls[c], entry) {
      CallKept(s, e, s.calls[c], entry);
    }
    if Enabled(s, e) {
      if e.Resolve? && e.id == id {
        NewCallServed(s, id, e.now, entry);
      } else if e.Resumes? && m <= e.call && s.calls[e.call].id == id {
        var call := s.calls[e.call];
        ResumedCallKept(s, e.call, entry);
        CallKept(s, e, call.(answer := AnswerOf(call.cached, s.fetches[call.answer.fetch].phase.result)), entry);
      }
    }
  }

  lemma NewCallServed(s: State, id: Id, now: int, entry: Entry)
    requires Sound(s) && s.clock <= now && id in s.entries && s.entries[id] == entry
    ensures
      var t := StepResolve(s, id, now);
      |t.calls| == |s.calls| + 1 && ServedFrom(t, t.calls[|s.calls|], entry)
  {
    hide OnePerk, Stored, Justified;
  }

  lemma {:induction false} OnlyFailuresEarlier(s: State, later: seq<Event>, id: Id)
    requires later != [] && OnlyFailures(s, later, id)
    ensures OnlyFailures(s, later[..|later| - 1], id)
  {
    hide AnswersPerson, Reached;
    var earlier := later[..|later| - 1];
    forall n | 0 <= n < |earlier| ensures earlier[n] == later[n] && earlier[..n] == later[..n] {}
  }

  lemma {:induction false} LivesOffThroughout(s: State, later: seq<Event>, m: nat, id: Id, entry: Entry)
    requires Sound(s) && LivesOff(s, m, id, entry) && OnlyFailures(s, later, id)
    ensures LivesOff(Reached(s, later), m, id, entry)
  {
    hide Step, Sound, LivesOff, AnswersPerson;
    if later != [] {
      var earlier := later[..|later| - 1];
      OnlyFailuresEarlier(s, later, id);
      LivesOffThroughout(s, earlier, m, id, entry);
      ReachedIsSound(s, earlier);
      LivesOffStep(Reached(s, earlier), later[|later| - 1], m, id, entry);
    }
  }

  /**
   * While every fetch for the person fails, the entry in the cache stays the same one, and every later call is
   * answered with it: as stale exactly if it was too old when the call began.
   */
  lemma {:induction false} FailureServesSame(s: State, later: seq<Event>, id: Id)
    requires Sound(s) && id in s.entries && NoneAnswered(s, id) && OnlyFailures(s, later, id)
    ensures
      var t := Reached(s, later);
      && id in t.entries && t.entries[id] == s.entries[id] && |s.calls| <= |t.calls|
      && forall c :: |s.calls| <= c < |t.calls| && t.calls[c].id == id && !t.calls[c].answer.Waiting? ==>
           t.calls[c].answer == Served(s.entries[id], t.calls[c].at - s.entries[id].fetchedAt >= t.ttl)
  {
    hide Step, Sound, NoneAnswered, OnlyFailures, Reached;
    LivesOffThroughout(s, later, |s.calls|, id, s.entries[id]);
  }
}
