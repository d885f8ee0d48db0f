/**
 * The React Native client told from its history: which names events carry, what is buffered, handed over
 * or dropped, and when a client is published or ended.
 */
module ReactNativeHistory {
  import opened Options
  import opened Histories
  import opened ReactNativeClient

  // ------------------------------------------------------------ trimming

  /** `name[i..j]` is what is left of the name between the spaces it begins and those it ends with. */
  ghost predicate LeavesOut(name: string, i: int, j: int) {
    0 <= i <= j <= |name| && forall k :: 0 <= k < i || j <= k < |name| ==> IsSpace(name[k])
  }

  ghost predicate Trimmed(name: string, r: string) {
    && (r == "" || !(IsSpace(r[0]) || IsSpace(r[|r| - 1])))
    && exists i, j | LeavesOut(name, i, j) :: r == name[i..j]
  }

  lemma {:induction false} TrimTrims(name: string)
    ensures Trimmed(name, Trim(name))
  {
    hide IsSpace;
    var r := Trim(name);
    if name != "" && IsSpace(name[0]) {
      TrimTrims(name[1..]);
      var i, j :| LeavesOut(name[1..], i, j) && r == name[1..][i..j];
      forall k | 0 <= k < i + 1 || j + 1 <= k < |name| ensures IsSpace(name[k]) {
        assert k > 0 ==> name[k] == name[1..][k - 1];
      }
      assert LeavesOut(name, i + 1, j + 1) && r == name[i + 1..j + 1];
    } else if name != "" && IsSpace(name[|name| - 1]) {
      var n := |name| - 1;
      TrimTrims(name[..n]);
      var i, j :| LeavesOut(name[..n], i, j) && r == name[..n][i..j];
      forall k | 0 <= k < i || j <= k < |name| ensures IsSpace(name[k]) {
        assert k < n ==> name[k] == name[..n][k];
      }
      assert LeavesOut(name, i, j) && r == name[i..j];
    } else {
      assert LeavesOut(name, 0, |name|) && name == name[0..|name|];
    }
  }

  /** Nothing else is left of it. */
  lemma {:induction false} TrimmedUnique(name: string, r: string, q: string)
    requires Trimmed(name, r) && Trimmed(name, q)
    ensures r == q
  {
    hide IsSpace;
    var i, j :| LeavesOut(name, i, j) && r == name[i..j];
    var m, n :| LeavesOut(name, m, n) && q == name[m..n];
    if r != "" {
      assert !IsSpace(name[i]) && !IsSpace(name[j - 1]);
      assert m <= i && j <= n;
    }
    if q != "" {
      assert !IsSpace(name[m]) && !IsSpace(name[n - 1]);
      assert i <= m && n <= j;
    }
  }

  // ------------------------------------------------------------ steps

  predicate Publishes(s: State, e: Step, c: nat) {
    e.InitSettles? && e.ok && Enabled(s, e) && s.clients == c
  }

  predicate EndCompletes(s: State, e: Step) {
    e.EndSettles? && e.ok && Enabled(s, e)
  }

  /** An `init` that starts a run: no other is active and no client is published. */
  predicate Starts(s: State, e: Step) {
    e.Init? && s.initInFlight.None? && s.client.None?
  }

  /** Event `k` comes after an `end`. */
  predicate Drops(s: State, e: Step, k: nat) {
    e.Capture? && |s.captured| == k && s.ended
  }

  /** Event `k` goes to client `c`: alone under the name it was captured with, or with the buffer. */
  predicate Hands(s: State, e: Step, h: Handing) {
    if h.buffered then Publishes(s, e, h.client) && Event(h.eventName, h.serial) in s.buffer
    else e == Capture(h.eventName) && |s.captured| == h.serial && !s.ended && s.client == Some(h.client)
  }

  /** Event `k` is buffered, under what is left of its name, if anything is. */
  predicate Accepts(s: State, e: Step, event: Event) {
    && e.Capture? && |s.captured| == event.serial && !s.ended && s.client.None?
    && Trim(e.eventName) == event.eventName && event.eventName != ""
  }

  predicate ClearsBuffer(s: State, e: Step) {
    e.TransferSettles? && Enabled(s, e)
  }

  // ------------------------------------------------------------ histories

  ghost predicate PublishedSince(steps: seq<Step>, c: nat) {
    Since(prefix => Reached(prefix), steps, (x, e) => Publishes(x, e, c),
          (x, e) => EndCompletes(x, e) || (exists d: nat :: Publishes(x, e, d)))
  }

  ghost predicate EndedSince(steps: seq<Step>) {
    Since(prefix => Reached(prefix), steps, EndCompletes, Starts)
  }

  ghost predicate WasDropped(steps: seq<Step>, k: nat) {
    Once(prefix => Reached(prefix), steps, (x, e) => Drops(x, e, k))
  }

  ghost predicate WasHanded(steps: seq<Step>, h: Handing) {
    Once(prefix => Reached(prefix), steps, (x, e) => Hands(x, e, h))
  }

  ghost predicate AcceptedSince(steps: seq<Step>, event: Event) {
    Since(prefix => Reached(prefix), steps, (x, e) => Accepts(x, e, event), ClearsBuffer)
  }

  lemma {:induction false} ClientHistoryStep(steps: seq<Step>, c: nat)
    requires steps != []
    ensures
      var earlier, e := steps[..|steps| - 1], steps[|steps| - 1];
      var x := Reached(earlier);
      && (PublishedSince(steps, c) <==>
            Publishes(x, e, c) || (PublishedSince(earlier, c) && !EndCompletes(x, e) && !(exists d: nat :: Publishes(x, e, d))))
      && (EndedSince(steps) <==> EndCompletes(x, e) || (EndedSince(earlier) && !Starts(x, e)))
  {
    hide Publishes, EndCompletes, Starts, Reached, Since;
    SinceStep(prefix => Reached(prefix), steps, (x, e) => Publishes(x, e, c),
              (x, e) => EndCompletes(x, e) || (exists d: nat :: Publishes(x, e, d)));
    SinceStep(prefix => Reached(prefix), steps, EndCompletes, Starts);
  }

  lemma {:induction false} EventHistoryStep(steps: seq<Step>, k: nat, h: Handing, event: Event)
    requires steps != []
    ensures
      var earlier, e := steps[..|steps| - 1], steps[|steps| - 1];
      var x := Reached(earlier);
      && (WasDropped(steps, k) <==> Drops(x, e, k) || WasDropped(earlier, k))
      && (WasHanded(steps, h) <==> Hands(x, e, h) || WasHanded(earlier, h))
      && (AcceptedSince(steps, event) <==> Accepts(x, e, event) || (AcceptedSince(earlier, event) && !ClearsBuffer(x, e)))
  {
    hide Drops, Hands, Accepts, ClearsBuffer, Reached, Since, Once;
    OnceStep(prefix => Reached(prefix), steps, (x, e) => Drops(x, e, k));
    OnceStep(prefix => Reached(prefix), steps, (x, e) => Hands(x, e, h));
    SinceStep(prefix => Reached(prefix), steps, (x, e) => Accepts(x, e, event), ClearsBuffer);
  }

  // ------------------------------------------------------------ what a run amounts to

  lemma ClientStep(s: State, e: Step, c: nat)
    ensures Next(s, e).client == Some(c) <==>
            Publishes(s, e, c) || (s.client == Some(c) && !EndCompletes(s, e) && !(exists d: nat :: Publishes(s, e, d)))
    ensures Next(s, e).ended <==> EndCompletes(s, e) || (s.ended && !Starts(s, e))
  {
    hide Captured;
    assert e.InitSettles? && e.ok && Enabled(s, e) ==> Publishes(s, e, s.clients);
    if e.Capture? {
      CaptureFrame(s, e.eventName);
    }
  }

  /**
   * Over every run: a client is published exactly if it was and no `end` completed and no other was published since;
   * `ended` is set exactly if an `end` completed and no `init` started a run since.
   */
  lemma {:induction false} ClientExactly(steps: seq<Step>, c: nat)
    ensures Reached(steps).client == Some(c) <==> PublishedSince(steps, c)
    ensures Reached(steps).ended <==> EndedSince(steps)
  {
    hide Next, Publishes, EndCompletes, Starts;
    if steps != [] {
      var earlier := steps[..|steps| - 1];
      ClientExactly(earlier, c);
      ClientStep(Reached(earlier), steps[|steps| - 1], c);
      ClientHistoryStep(steps, c);
    }
  }

  lemma DroppedStep(s: State, e: Step, k: nat)
    ensures k in Next(s, e).dropped <==> Drops(s, e, k) || k in s.dropped
  {}

  lemma HandedStep(s: State, e: Step, h: Handing)
    ensures h in Next(s, e).handed <==> Hands(s, e, h) || h in s.handed
  {
    hide Latest, Serials, Trim;
    if e.InitSettles? && e.ok && Enabled(s, e) {
      HandingsIn(s.clients, s.buffer, h);
    }
  }

  lemma HandingsIn(client: nat, events: seq<Event>, h: Handing)
    ensures h in Handings(client, events) <==> h.client == client && h.buffered && Event(h.eventName, h.serial) in events
  {
    var r := Handings(client, events);
    if h.client == client && h.buffered && Event(h.eventName, h.serial) in events {
      var i :| 0 <= i < |events| && events[i] == Event(h.eventName, h.serial);
      assert r[i] == h;
    }
  }

  lemma AcceptedStep(s: State, e: Step, event: Event)
    ensures event in Next(s, e).accepted <==> Accepts(s, e, event) || (event in s.accepted && !ClearsBuffer(s, e))
  {
    hide Latest, Serials, Handings, Trim;
  }

  /**
   * Over every run: an event is dropped exactly if it was captured while ended; handed to a client exactly if it was
   * captured, under its own name, while that client was published, or was in the buffer when the client was
   * published; and accepted exactly if it was captured before any of that, under its trimmed name, and the
   * buffer has not been cleared since.
   */
  lemma {:induction false} EventsExactly(steps: seq<Step>, k: nat, h: Handing, event: Event)
    ensures
      var s := Reached(steps);
      && (k in s.dropped <==> WasDropped(steps, k))
      && (h in s.handed <==> WasHanded(steps, h))
      && (event in s.accepted <==> AcceptedSince(steps, event))
  {
    hide Next, Drops, Hands, Accepts, ClearsBuffer;
    if steps != [] {
      var earlier := steps[..|steps| - 1];
      EventsExactly(earlier, k, h, event);
      DroppedStep(Reached(earlier), steps[|steps| - 1], k);
      HandedStep(Reached(earlier), steps[|steps| - 1], h);
      AcceptedStep(Reached(earlier), steps[|steps| - 1], event);
      EventHistoryStep(steps, k, h, event);
    }
  }

  // ------------------------------------------------------------ names and the bound

  /** The event carries what is left of the name it was captured with, which is not nothing. */
  ghost predicate NamedAs(s: State, event: Event) {
    event.serial < |s.captured| && Trimmed(s.captured[event.serial], event.eventName) && event.eventName != ""
  }

  ghost predicate NamesKept(s: State) {
    && (forall i :: 0 <= i < |s.accepted| ==> NamedAs(s, s.accepted[i]))
    && (forall i :: 0 <= i < |s.buffer| ==> NamedAs(s, s.buffer[i]))
    && (forall i :: 0 <= i < |s.handed| ==>
          var h := s.handed[i];
          if h.buffered then NamedAs(s, Event(h.eventName, h.serial))
          else h.serial < |s.captured| && s.captured[h.serial] == h.eventName)
  }

  lemma {:induction false} CaptureKeepsNames(s: State, name: string)
    requires NamesKept(s)
    ensures NamesKept(Captured(s, name))
  {
    hide Trim, Trimmed, Serials;
    TrimTrims(name);
    var t := Captured(s, name);
    forall event | NamedAs(s, event) ensures NamedAs(t, event) {}
  }

  lemma {:induction false} StepKeepsNames(s: State, e: Step)
    requires NamesKept(s)
    ensures NamesKept(Next(s, e))
  {
    hide Captured, Trimmed, Trim;
    if e.Capture? { CaptureKeepsNames(s, e.eventName); }
  }

  /**
   * Over every run: the buffer holds at most 100 events, the latest accepted ones. What is in it, and what was handed
   * over from it, carries the trimmed name, which is never blank; an event handed over alone keeps its name.
   */
  lemma {:induction false} NamesAndBound(steps: seq<Step>)
    ensures
      var s := Reached(steps);
      && NamesKept(s)
      && |s.buffer| == (if |s.accepted| < 100 then |s.accepted| else 100)
      && s.buffer == s.accepted[|s.accepted| - |s.buffer|..]
  {
    hide Next, NamesKept, Ordered, Conserved, SingleInit;
    RunsAreSound(steps);
    NamesThroughout(steps);
  }

  lemma {:induction false} NamesThroughout(steps: seq<Step>)
    ensures NamesKept(Reached(steps))
  {
    hide Next;
    if steps != [] {
      hide NamesKept;
      NamesThroughout(steps[..|steps| - 1]);
      StepKeepsNames(Reached(steps[..|steps| - 1]), steps[|steps| - 1]);
    }
  }
}
