/**
 * The React Native client: `init`, `end` and `capture` interleaved at their awaits, with the
 * bounded buffer of events captured before the first `init` completes.
 */
module ReactNativeClient {
  import opened Histories
  import opened Options

  const PRE_INIT_BUFFER_CAP: nat := 100

  // ------------------------------------------------------------ event names

  predicate IsSpace(c: char) {
    || c in {'\t', '\n', '\U{000B}', '\U{000C}', '\r', ' ', '\U{00A0}', '\U{1680}'}
    || '\U{2000}' <= c <= '\U{200A}'
    || c in {'\U{2028}', '\U{2029}', '\U{202F}', '\U{205F}', '\U{3000}', '\U{FEFF}'}
  }

  function Trim(name: string): string {
    if name == "" then ""
    else if IsSpace(name[0]) then Trim(name[1..])
    else if IsSpace(name[|name| - 1]) then Trim(name[..|name| - 1])
    else name
  }

  // ------------------------------------------------------------ state

  /** A buffered event; `serial` numbers the `capture` calls. */
  datatype Event = Event(eventName: string, serial: nat)

  /** One event given to an initialized facade client: alone, or with the buffer. */
  datatype Handing = Handing(client: nat, serial: nat, eventName: string, buffered: bool)

  /** One `runInit`. `Settled`: its promise resolved. `Cleared`: the in-flight record is gone too. */
  datatype Run = Initializing | Transferring(events: seq<Event>) | Finishing | Settled | Cleared

  /** One `end` call: awaiting the flush, awaiting the facade's own `end`, or over. */
  datatype EndCall = Flushing | Ending | Over(ok: bool)

  /** `clients` counts the facades made, `captured` lists the capture calls, `accepted` what was buffered since the last clear. */
  datatype State = State(
    client: Option<nat>,
    ended: bool,
    initInFlight: Option<nat>,
    buffer: seq<Event>,
    runs: seq<Run>,
    ends: seq<EndCall>,
    clients: nat,
    captured: seq<string>,
    accepted: seq<Event>,
    handed: seq<Handing>,
    evicted: seq<nat>,
    dropped: seq<nat>)

  function Start(): State {
    State(None, false, None, [], [], [], 0, [], [], [], [], [])
  }

  // ------------------------------------------------------------ steps of an enabled client

  datatype Step =
    | Capture(eventName: string)
    | Init
    | InitSettles(run: nat, ok: bool)
    | TransferSettles(run: nat)
    | RunSettles(run: nat)
    | RunCleared(run: nat)
    | End
    | EndFlushed(call: nat)
    | EndSettles(call: nat, ok: bool)

  predicate Enabled(s: State, e: Step) {
    match e
    case Capture(_) => true
    case Init => true
    case InitSettles(r, _) => r < |s.runs| && s.runs[r].Initializing?
    case TransferSettles(r) => r < |s.runs| && s.runs[r].Transferring?
    case RunSettles(r) => r < |s.runs| && s.runs[r].Finishing?
    case RunCleared(r) => r < |s.runs| && s.runs[r].Settled?
    case End => true
    case EndFlushed(c) => c < |s.ends| && s.ends[c].Flushing?
    case EndSettles(c, _) => c < |s.ends| && s.ends[c].Ending?
  }

  function Latest(events: seq<Event>, n: nat): seq<Event> {
    if |events| <= n then events else events[|events| - n..]
  }

  function Serials(events: seq<Event>): (r: seq<nat>)
    ensures |r| == |events|
    ensures forall i :: 0 <= i < |r| ==> r[i] == events[i].serial
  {
    seq(|events|, i requires 0 <= i < |events| => events[i].serial)
  }

  function Handings(client: nat, events: seq<Event>): (r: seq<Handing>)
    ensures |r| == |events|
    ensures forall i :: 0 <= i < |r| ==> r[i] == Handing(client, events[i].serial, events[i].eventName, true)
  {
    seq(|events|, i requires 0 <= i < |events| => Handing(client, events[i].serial, events[i].eventName, true))
  }

  function Captured(s: State, name: string): State {
    var serial := |s.captured|;
    var t := s.(captured := s.captured + [name]);
    if s.ended then t.(dropped := s.dropped + [serial])
    else if s.client.Some? then t.(handed := s.handed + [Handing(s.client.value, serial, name, false)])
    else if Trim(name) == "" then t
    else
      var all := s.buffer + [Event(Trim(name), serial)];
      var kept := Latest(all, PRE_INIT_BUFFER_CAP);
      t.(buffer := kept,
         accepted := s.accepted + [Event(Trim(name), serial)],
         evicted := s.evicted + Serials(all[..|all| - |kept|]))
  }

  /** The facade is ready: it is published, and the buffer handed to it, before the next await. */
  function Published(s: State, r: nat): State
    requires r < |s.runs|
  {
    var client := s.clients;
    s.(client := Some(client),
       clients := client + 1,
       handed := s.handed + Handings(client, s.buffer),
       runs := s.runs[r := if s.buffer == [] then Finishing else Transferring(s.buffer)])
  }

  function Next(s: State, e: Step): State {
    if !Enabled(s, e) then s else
    match e
    case Capture(name) => Captured(s, name)
    case Init =>
      if s.initInFlight.Some? || s.client.Some? then s
      else s.(ended := false, initInFlight := Some(|s.runs|), runs := s.runs + [Initializing])
    case InitSettles(r, ok) => if ok then Published(s, r) else s.(runs := s.runs[r := Settled])
    case TransferSettles(r) => s.(buffer := [], accepted := [], runs := s.runs[r := Finishing])
    case RunSettles(r) => s.(runs := s.runs[r := Settled])
    case RunCleared(r) => s.(initInFlight := None, runs := s.runs[r := Cleared])
    case End => s.(ends := s.ends + [if s.client.Some? then Flushing else Over(false)])
    case EndFlushed(c) => s.(ends := s.ends[c := if s.client.Some? then Ending else Over(false)])
    case EndSettles(c, ok) =>
      if ok then s.(client := None, ended := true, ends := s.ends[c := Over(true)])
      else s.(ends := s.ends[c := Over(false)])
  }

  function Continued(s: State, steps: seq<Step>): State {
    if steps == [] then s else Next(Continued(s, steps[..|steps| - 1]), steps[|steps| - 1])
  }

  function Reached(steps: seq<Step>): State {
    Continued(Start(), steps)
  }

  // ------------------------------------------------------------ the client object

  class VoidhashClient {
    const enabled: bool
    var initializedClient: Option<nat>
    var ended: bool
    var initInFlight: Option<nat>
    var preInitAnalyticsBuffer: seq<Event>
    var runs: seq<Run>
    var ends: seq<EndCall>
    var clients: nat
    var captured: seq<string>
    ghost var accepted: seq<Event>
    var handed: seq<Handing>
    var evicted: seq<nat>
    var dropped: seq<nat>

    ghost function Contents(): State
      reads this
    {
      State(initializedClient, ended, initInFlight, preInitAnalyticsBuffer, runs, ends, clients,
            captured, accepted, handed, evicted, dropped)
    }

    constructor (enabled: bool)
      ensures Contents() == Start() && this.enabled == enabled
    {
      this.enabled := enabled;
      initializedClient, ended, initInFlight, preInitAnalyticsBuffer := None, false, None, [];
      runs, ends, clients := [], [], 0;
      captured, accepted, handed, evicted, dropped := [], [], [], [], [];
    }

    /** A disabled client ignores the call; the parts after an await exist on an enabled client only. */
    method Capture(eventName: string)
      modifies this
      ensures Contents() == if enabled then Next(old(Contents()), Step.Capture(eventName)) else old(Contents())
    {
      if !enabled {
        return;
      }
      var serial := |captured|;
      captured := captured + [eventName];
      if ended {
        dropped := dropped + [serial];
        return;
      }
      if initializedClient.None? {
        var normalized := Trim(eventName);
        if normalized != "" {
          preInitAnalyticsBuffer := preInitAnalyticsBuffer + [Event(normalized, serial)];
          accepted := accepted + [Event(normalized, serial)];
          var overflow := |preInitAnalyticsBuffer| - PRE_INIT_BUFFER_CAP;
          if overflow > 0 {
            var oldest := preInitAnalyticsBuffer[..overflow];
            preInitAnalyticsBuffer := preInitAnalyticsBuffer[overflow..];
            ReportEvicted(oldest);
          }
        }
        return;
      }
      handed := handed + [Handing(initializedClient.value, serial, eventName, false)];
    }

    method ReportEvicted(events: seq<Event>)
      modifies `evicted
      ensures evicted == old(evicted) + Serials(events)
    {
      var i := 0;
      while i < |events|
        invariant i <= |events|
        invariant evicted == old(evicted) + Serials(events)[..i]
      {
        evicted := evicted + [events[i].serial];
        i := i + 1;
      }
    }

    method Init()
      modifies this
      ensures Contents() == if enabled then Next(old(Contents()), Step.Init) else old(Contents())
    {
      if !enabled {
        return;
      }
      if initInFlight.Some? {
        return;
      }
      if initializedClient.Some? {
        return;
      }
      if ended {
        ended := false;
      }
      runs := runs + [Initializing];
      initInFlight := Some(|runs| - 1);
    }

    /** `runInit` after the facade was made, or was not. */
    method InitSettled(run: nat, ok: bool)
      requires Enabled(Contents(), InitSettles(run, ok))
      modifies this
      ensures Contents() == Next(old(Contents()), InitSettles(run, ok))
    {
      if !ok {
        runs := runs[run := Settled];
        return;
      }
      var client := clients;
      clients := clients + 1;
      initializedClient := Some(client);
      handed := handed + Handings(client, preInitAnalyticsBuffer);
      if preInitAnalyticsBuffer != [] {
        runs := runs[run := Transferring(preInitAnalyticsBuffer)];
      } else {
        runs := runs[run := Finishing];
      }
    }

    /** The transfer was answered; a failure is only logged. */
    method TransferSettled(run: nat)
      requires Enabled(Contents(), TransferSettles(run))
      modifies this
      ensures Contents() == Next(old(Contents()), TransferSettles(run))
    {
      preInitAnalyticsBuffer := [];
      accepted := [];
      runs := runs[run := Finishing];
    }

    method RunSettled(run: nat)
      requires Enabled(Contents(), RunSettles(run))
      modifies this
      ensures Contents() == Next(old(Contents()), RunSettles(run))
    {
      runs := runs[run := Settled];
    }

    /** The `finally` callback of `init`. */
    method InitCleared(run: nat)
      requires Enabled(Contents(), RunCleared(run))
      modifies this
      ensures Contents() == Next(old(Contents()), RunCleared(run))
    {
      initInFlight := None;
      runs := runs[run := Cleared];
    }

    method End()
      modifies this
      ensures Contents() == if enabled then Next(old(Contents()), Step.End) else old(Contents())
    {
      if !enabled {
        return;
      }
      if initializedClient.None? {
        ends := ends + [Over(false)];
        return;
      }
      ends := ends + [Flushing];
    }

    /** `end` after its flush: it reads the client again, and fails when there is none. */
    method EndFlushed(call: nat)
      requires Enabled(Contents(), Step.EndFlushed(call))
      modifies this
      ensures Contents() == Next(old(Contents()), Step.EndFlushed(call))
    {
      if initializedClient.None? {
        ends := ends[call := Over(false)];
      } else {
        ends := ends[call := Ending];
      }
    }

    method EndSettled(call: nat, ok: bool)
      requires Enabled(Contents(), EndSettles(call, ok))
      modifies this
      ensures Contents() == Next(old(Contents()), EndSettles(call, ok))
    {
      if !ok {
        ends := ends[call := Over(false)];
        return;
      }
      initializedClient := None;
      ended := true;
      ends := ends[call := Over(true)];
    }
  }

  // ------------------------------------------------------------ what every run keeps

  /** At most one `runInit` is active: the one on record. */
  ghost predicate SingleInit(s: State) {
    && (s.initInFlight.Some? ==> s.initInFlight.value < |s.runs| && !s.runs[s.initInFlight.value].Cleared?)
    && (forall r :: 0 <= r < |s.runs| && !s.runs[r].Cleared? ==> s.initInFlight == Some(r))
  }

  /** The buffer is being transferred: its events are already in the facade's hands. */
  predicate InTransfer(s: State) {
    && s.initInFlight.Some? && s.initInFlight.value < |s.runs|
    && s.runs[s.initInFlight.value].Transferring?
  }

  /** Events that wait in the buffer and were not handed on yet. */
  function AwaitingInit(s: State): seq<Event> {
    if InTransfer(s) then [] else s.buffer
  }

  /** While the transfer is awaited nothing reaches the buffer, so clearing it loses nothing. */
  ghost predicate TransferSafe(s: State) {
    && (InTransfer(s) ==> s.buffer == s.runs[s.initInFlight.value].events && (s.client.Some? || s.ended))
    && (s.client.Some? ==> AwaitingInit(s) == [])
    && s.buffer == Latest(s.accepted, PRE_INIT_BUFFER_CAP)
  }

  lemma {:induction false} StepKeepsSingleInit(s: State, e: Step)
    requires SingleInit(s)
    ensures SingleInit(Next(s, e))
  {
    hide Captured, Latest;
    if e.Capture? {
      CaptureFrame(s, e.eventName);
    }
  }

  lemma CaptureFrame(s: State, name: string)
    ensures
      var t := Captured(s, name);
      t.(captured := s.captured, dropped := s.dropped, handed := s.handed,
         buffer := s.buffer, accepted := s.accepted, evicted := s.evicted) == s
  {}

  lemma LatestSnoc(events: seq<Event>, e: Event, n: nat)
    requires n > 0
    ensures Latest(Latest(events, n) + [e], n) == Latest(events + [e], n)
  {}

  lemma LatestNone(n: nat)
    ensures Latest([], n) == []
  {}

  lemma {:induction false} StepKeepsTransferSafe(s: State, e: Step)
    requires SingleInit(s) && TransferSafe(s)
    ensures TransferSafe(Next(s, e))
  {
    hide Latest, Trim, Serials, Handings;
    if e.Capture? {
      LatestSnoc(s.accepted, Event(Trim(e.eventName), |s.captured|), PRE_INIT_BUFFER_CAP);
    }
    if e.TransferSettles? {
      LatestNone(PRE_INIT_BUFFER_CAP);
    }
  }

  // ------------------------------------------------------------ conservation

  /** Where the captured events are, by serial. */
  datatype Ledger = Ledger(captured: seq<string>, handed: seq<nat>, waiting: seq<nat>, evicted: seq<nat>, dropped: seq<nat>)

  function HandedSerials(s: State): (r: seq<nat>)
    ensures |r| == |s.handed|
    ensures forall i :: 0 <= i < |r| ==> r[i] == s.handed[i].serial
  {
    seq(|s.handed|, i requires 0 <= i < |s.handed| => s.handed[i].serial)
  }

  function LedgerOf(s: State): Ledger {
    Ledger(s.captured, HandedSerials(s), Serials(AwaitingInit(s)), s.evicted, s.dropped)
  }

  /** In how many of the four places a captured event is. */
  function Places(l: Ledger, k: nat): nat {
    (if k in l.handed then 1 else 0) + (if k in l.waiting then 1 else 0)
    + (if k in l.evicted then 1 else 0) + (if k in l.dropped then 1 else 0)
  }

  ghost predicate Increasing(serials: seq<nat>, bound: nat) {
    && (forall i :: 0 <= i < |serials| ==> serials[i] < bound)
    && (forall i, j :: 0 <= i < j < |serials| ==> serials[i] < serials[j])
  }

  ghost predicate Before(a: seq<nat>, b: seq<nat>) {
    forall i, j :: 0 <= i < |a| && 0 <= j < |b| ==> a[i] < b[j]
  }

  /** In capture order without repetition in each place; what waits is later than all handed on or evicted. */
  ghost predicate Ordered(l: Ledger) {
    && Increasing(l.handed, |l.captured|) && Increasing(l.waiting, |l.captured|)
    && Increasing(l.evicted, |l.captured|) && Increasing(l.dropped, |l.captured|)
    && Before(l.handed, l.waiting) && Before(l.evicted, l.waiting)
  }

  /** Every captured event is in exactly one place; a blank one may be in none. */
  ghost predicate Conserved(l: Ledger) {
    forall k :: 0 <= k < |l.captured| ==> Places(l, k) <= 1 && (Trim(l.captured[k]) != "" ==> Places(l, k) == 1)
  }

  lemma {:induction false} DropKeeps(l: Ledger, name: string)
    requires Ordered(l) && Conserved(l)
    ensures
      var t := l.(captured := l.captured + [name], dropped := l.dropped + [|l.captured|]);
      Ordered(t) && Conserved(t)
  {
    hide Trim;
    var t := l.(captured := l.captured + [name], dropped := l.dropped + [|l.captured|]);
    forall k | 0 <= k < |l.captured| ensures Places(t, k) == Places(l, k) && t.captured[k] == l.captured[k] {}
  }

  lemma {:induction false} HandKeeps(l: Ledger, name: string)
    requires Ordered(l) && Conserved(l) && l.waiting == []
    ensures
      var t := l.(captured := l.captured + [name], handed := l.handed + [|l.captured|]);
      Ordered(t) && Conserved(t)
  {
    hide Trim;
    var t := l.(captured := l.captured + [name], handed := l.handed + [|l.captured|]);
    forall k | 0 <= k < |l.captured| ensures Places(t, k) == Places(l, k) && t.captured[k] == l.captured[k] {}
  }

  lemma {:induction false} BlankKeeps(l: Ledger, name: string)
    requires Ordered(l) && Conserved(l) && Trim(name) == ""
    ensures
      var t := l.(captured := l.captured + [name]);
      Ordered(t) && Conserved(t)
  {
    hide Trim;
    var t := l.(captured := l.captured + [name]);
    forall k | 0 <= k < |l.captured| ensures Places(t, k) == Places(l, k) && t.captured[k] == l.captured[k] {}
  }

  lemma {:induction false} AcceptKeeps(l: Ledger, name: string)
    requires Ordered(l) && Conserved(l)
    ensures
      var t := l.(captured := l.captured + [name], waiting := l.waiting + [|l.captured|]);
      Ordered(t) && Conserved(t)
  {
    hide Trim;
    var t := l.(captured := l.captured + [name], waiting := l.waiting + [|l.captured|]);
    forall k | 0 <= k < |l.captured| ensures Places(t, k) == Places(l, k) && t.captured[k] == l.captured[k] {}
  }

  lemma {:induction false} Halves(serials: seq<nat>, n: nat, bound: nat)
    requires Increasing(serials, bound) && n <= |serials|
    ensures Increasing(serials[..n], bound) && Increasing(serials[n..], bound) && Before(serials[..n], serials[n..])
    ensures forall k :: k in serials <==> k in serials[..n] || k in serials[n..]
    ensures forall k :: !(k in serials[..n] && k in serials[n..])
  {
    assert serials == serials[..n] + serials[n..];
  }

  lemma BeforeHalves(a: seq<nat>, serials: seq<nat>, n: nat)
    requires Before(a, serials) && n <= |serials|
    ensures Before(a, serials[..n]) && Before(a, serials[n..])
  {}

  lemma Joined(a: seq<nat>, b: seq<nat>, c: seq<nat>, bound: nat)
    requires Increasing(a, bound) && Increasing(b, bound) && Before(a, b)
    ensures Increasing(a + b, bound)
    ensures Before(a, c) && Before(b, c) ==> Before(a + b, c)
  {}

  lemma {:induction false} EvictKeeps(l: Ledger, n: nat)
    requires Ordered(l) && Conserved(l) && n <= |l.waiting|
    ensures
      var t := l.(waiting := l.waiting[n..], evicted := l.evicted + l.waiting[..n]);
      Ordered(t) && Conserved(t)
  {
    hide Trim, Increasing, Before;
    var oldest, rest := l.waiting[..n], l.waiting[n..];
    var t := l.(waiting := rest, evicted := l.evicted + oldest);
    Halves(l.waiting, n, |l.captured|);
    BeforeHalves(l.handed, l.waiting, n);
    BeforeHalves(l.evicted, l.waiting, n);
    Joined(l.evicted, oldest, rest, |l.captured|);
    forall k | 0 <= k < |l.captured| ensures Places(t, k) == Places(l, k) {}
  }

  lemma {:induction false} HandAllKeeps(l: Ledger)
    requires Ordered(l) && Conserved(l)
    ensures
      var t := l.(waiting := [], handed := l.handed + l.waiting);
      Ordered(t) && Conserved(t)
  {
    hide Trim;
    var t := l.(waiting := [], handed := l.handed + l.waiting);
    Joined(l.handed, l.waiting, [], |l.captured|);
    forall k | 0 <= k < |l.captured| ensures Places(t, k) == Places(l, k) {}
  }

  lemma {:induction false} CaptureKeepsLedger(s: State, name: string)
    requires TransferSafe(s) && Ordered(LedgerOf(s)) && Conserved(LedgerOf(s))
    ensures Ordered(LedgerOf(Captured(s, name))) && Conserved(LedgerOf(Captured(s, name)))
  {
    hide Trim, Ordered, Conserved;
    var l, t := LedgerOf(s), LedgerOf(Captured(s, name));
    if s.ended {
      DropKeeps(l, name);
    } else if s.client.Some? {
      HandKeeps(l, name);
      assert t.handed == l.handed + [|l.captured|];
    } else if Trim(name) == "" {
      BlankKeeps(l, name);
    } else {
      AcceptKeeps(l, name);
      var m := l.(captured := l.captured + [name], waiting := l.waiting + [|l.captured|]);
      var n := if |m.waiting| <= PRE_INIT_BUFFER_CAP then 0 else |m.waiting| - PRE_INIT_BUFFER_CAP;
      EvictKeeps(m, n);
      assert t.waiting == m.waiting[n..];
      assert t.evicted == m.evicted + m.waiting[..n];
    }
  }

  lemma {:induction false} PublishKeepsLedger(s: State, r: nat)
    requires SingleInit(s) && Enabled(s, InitSettles(r, true)) && Ordered(LedgerOf(s)) && Conserved(LedgerOf(s))
    ensures Ordered(LedgerOf(Published(s, r))) && Conserved(LedgerOf(Published(s, r)))
  {
    hide Trim, Ordered, Conserved;
    var l, t := LedgerOf(s), LedgerOf(Published(s, r));
    HandAllKeeps(l);
    assert t.handed == l.handed + l.waiting;
    assert t.waiting == [];
  }

  /** What every interleaving keeps. */
  ghost predicate Sound(s: State) {
    SingleInit(s) && TransferSafe(s) && Ordered(LedgerOf(s)) && Conserved(LedgerOf(s))
  }

  lemma {:induction false} StepKeepsSound(s: State, e: Step)
    requires Sound(s)
    ensures Sound(Next(s, e))
  {
    hide Captured, Published, SingleInit, TransferSafe, Ordered, Conserved;
    StepKeepsSingleInit(s, e);
    StepKeepsTransferSafe(s, e);
    if e.Capture? {
      CaptureKeepsLedger(s, e.eventName);
    } else if e.InitSettles? && e.ok && Enabled(s, e) {
      PublishKeepsLedger(s, e.run);
    } else {
      OtherKeepsLedger(s, e);
    }
  }

  lemma {:induction false} OtherKeepsLedger(s: State, e: Step)
    requires SingleInit(s) && TransferSafe(s)
    requires !e.Capture? && !(e.InitSettles? && e.ok && Enabled(s, e))
    ensures LedgerOf(Next(s, e)) == LedgerOf(s)
  {
    hide Captured, Published, Trim, Latest;
  }

  /**
   * Over every interleaving of `capture`, `init` and `end`: one active `runInit` at most, the buffer
   * holds the latest events accepted since it was last cleared, clearing it loses nothing, and every
   * captured non-blank event is in exactly one of handed on, waiting, evicted, dropped after `end`.
   */
  lemma {:induction false} RunsAreSound(steps: seq<Step>)
    ensures Sound(Reached(steps))
  {
    hide Next, Sound;
    if steps == [] {
      StartIsSound();
    } else {
      RunsAreSound(steps[..|steps| - 1]);
      StepKeepsSound(Reached(steps[..|steps| - 1]), steps[|steps| - 1]);
    }
  }

  lemma StartIsSound()
    ensures Sound(Start())
  {}

  /** At most one `runInit` is active. */
  lemma {:induction false} AtMostOneInit(steps: seq<Step>, r: nat, q: nat)
    requires
      var runs := Reached(steps).runs;
      r < |runs| && q < |runs| && !runs[r].Cleared? && !runs[q].Cleared?
    ensures r == q
  {
    hide Next, TransferSafe, Ordered, Conserved;
    RunsAreSound(steps);
  }

  /**
   * Event conservation: a captured non-blank event is in exactly one of handed to a facade, waiting
   * in the buffer, reported evicted, reported dropped; a blank one in none or in one.
   */
  lemma {:induction false} EventConservation(steps: seq<Step>, k: nat)
    requires k < |Reached(steps).captured|
    ensures
      var l := LedgerOf(Reached(steps));
      Places(l, k) <= 1 && (Trim(l.captured[k]) != "" ==> Places(l, k) == 1)
  {
    hide Next, TransferSafe, Ordered, Trim, Places;
    RunsAreSound(steps);
  }

  /** Facades are handed events in the order in which they were captured, whatever way they took. */
  lemma {:induction false} HandedInOrder(steps: seq<Step>, i: nat, j: nat)
    requires i < j < |Reached(steps).handed|
    ensures Reached(steps).handed[i].serial < Reached(steps).handed[j].serial
  {
    hide Next, TransferSafe, Conserved;
    RunsAreSound(steps);
    var s := Reached(steps);
    assert HandedSerials(s)[i] < HandedSerials(s)[j];
  }

  // ------------------------------------------------------------ end() and re-init

  predicate NoEndPending(s: State) {
    forall c :: 0 <= c < |s.ends| ==> s.ends[c].Over?
  }

  /** No `end` call begins while another is under way. */
  ghost predicate SerialEnds(steps: seq<Step>) {
    forall n :: 0 <= n < |steps| && steps[n] == End ==> NoEndPending(Reached(steps[..n]))
  }

  /** An ended client is not published, and a pending `end` is the only one and still has its client. */
  ghost predicate Consistent(s: State) {
    && !(s.ended && s.client.Some?)
    && (forall c :: 0 <= c < |s.ends| && !s.ends[c].Over? ==> s.client.Some?)
    && (forall c, d :: 0 <= c < d < |s.ends| ==> s.ends[c].Over? || s.ends[d].Over?)
    && (forall r :: 0 <= r < |s.runs| && s.runs[r].Initializing? ==> s.client.None? && !s.ended)
  }

  lemma {:induction false} StepKeepsConsistent(s: State, e: Step)
    requires SingleInit(s) && Consistent(s) && (e == End ==> NoEndPending(s))
    ensures Consistent(Next(s, e))
  {
    hide Captured, Latest;
    if e.Capture? {
      CaptureFrame(s, e.eventName);
    }
  }

  /** With one `end` at a time, events are dropped only while no client is published. */
  lemma {:induction false} SerialEndsStayConsistent(steps: seq<Step>)
    requires SerialEnds(steps)
    ensures Consistent(Reached(steps))
  {
    hide Next, Consistent, NoEndPending, SingleInit, TransferSafe, Ordered, Conserved;
    if steps == [] {
      StartIsConsistent();
    } else {
      var earlier := steps[..|steps| - 1];
      forall n | 0 <= n < |earlier| ensures earlier[..n] == steps[..n] && earlier[n] == steps[n] {}
      SerialEndsStayConsistent(earlier);
      RunsAreSound(earlier);
      StepKeepsConsistent(Reached(earlier), steps[|steps| - 1]);
    }
  }

  lemma StartIsConsistent()
    ensures Consistent(Start())
  {}

  lemma ReachedSnoc(steps: seq<Step>, e: Step)
    ensures Reached(steps + [e]) == Next(Reached(steps), e)
  {
    assert (steps + [e])[..|steps|] == steps;
  }

  /** A client is published while `ended` is set: every event it could take is dropped. */
  predicate Stuck(s: State) {
    s.ended && s.client.Some?
  }

  /** A run of `init` publishes its client although an `end` has completed since the run began. */
  predicate Sticks(s: State, e: Step) {
    e.InitSettles? && e.ok && Enabled(s, e) && s.ended
  }

  /** An `end` completes, which takes the client away. */
  predicate Unsticks(s: State, e: Step) {
    e.EndSettles? && e.ok && Enabled(s, e)
  }

  lemma StuckStep(s: State, e: Step)
    ensures Stuck(Next(s, e)) <==> Sticks(s, e) || (Stuck(s) && !Unsticks(s, e))
  {
    hide Captured;
    if e.Capture? {
      CaptureFrame(s, e.eventName);
    }
  }

  /** Some run published its client after an `end`, and no `end` completed since then. */
  ghost predicate StuckSince(steps: seq<Step>) {
    Since(prefix => Reached(prefix), steps, Sticks, Unsticks)
  }

  lemma {:induction false} StuckSinceStep(steps: seq<Step>)
    requires steps != []
    ensures
      var earlier, e := steps[..|steps| - 1], steps[|steps| - 1];
      StuckSince(steps) <==> Sticks(Reached(earlier), e) || (StuckSince(earlier) && !Unsticks(Reached(earlier), e))
  {
    hide Sticks, Unsticks, Reached, Since;
    SinceStep(prefix => Reached(prefix), steps, Sticks, Unsticks);
  }

  /** Over every run: a published client drops every event exactly if it was published after an `end` and not ended since. */
  lemma {:induction false} StuckExactly(steps: seq<Step>)
    ensures Stuck(Reached(steps)) <==> StuckSince(steps)
  {
    hide Next, Stuck, Sticks, Unsticks;
    if steps == [] {
      StartNotStuck();
    } else {
      StuckExactly(steps[..|steps| - 1]);
      StuckStep(Reached(steps[..|steps| - 1]), steps[|steps| - 1]);
      StuckSinceStep(steps);
    }
  }

  lemma StartNotStuck()
    ensures !Stuck(Start())
  {}

  /** Steps that are not calls of `init` or `end`. */
  predicate NoCalls(steps: seq<Step>) {
    forall n :: 0 <= n < |steps| ==> steps[n] != Init && steps[n] != End
  }

  predicate EndUnderWay(s: State) {
    exists c :: 0 <= c < |s.ends| && s.ends[c].Ending?
  }

  predicate InitUnderWay(s: State) {
    exists r :: 0 <= r < |s.runs| && s.runs[r].Initializing?
  }

  /** No client will be published, or none is yet, no `end` has completed and none awaits its facade. */
  predicate CannotStick(s: State) {
    !Stuck(s) && (InitUnderWay(s) ==> s.client.None? && !s.ended && !EndUnderWay(s))
  }

  lemma CannotStickStep(s: State, e: Step)
    requires SingleInit(s) && CannotStick(s) && e != Init && e != End
    ensures CannotStick(Next(s, e))
  {
    hide Captured;
    var t := Next(s, e);
    if e.Capture? {
      CaptureFrame(s, e.eventName);
    }
    if Enabled(s, e) && InitUnderWay(t) {
      var r :| 0 <= r < |t.runs| && t.runs[r].Initializing?;
      assert s.runs[r].Initializing?;
      forall c | 0 <= c < |t.ends| ensures !t.ends[c].Ending? {
        assert !s.ends[c].Ending?;
      }
    }
  }

  lemma {:induction false} CannotStickThroughout(s: State, steps: seq<Step>)
    requires SingleInit(s) && CannotStick(s) && NoCalls(steps)
    ensures SingleInit(Continued(s, steps)) && CannotStick(Continued(s, steps))
  {
    hide Next, SingleInit, CannotStick;
    if steps != [] {
      var earlier := steps[..|steps| - 1];
      CannotStickThroughout(s, earlier);
      CannotStickStep(Continued(s, earlier), steps[|steps| - 1]);
      StepKeepsSingleInit(Continued(s, earlier), steps[|steps| - 1]);
    }
  }

  /** An `end` that awaits its facade completes, and then the run publishes. */
  lemma StickingSteps(s: State, c: nat, r: nat) returns (steps: seq<Step>)
    requires c < |s.ends| && s.ends[c].Ending? && r < |s.runs| && s.runs[r].Initializing?
    ensures NoCalls(steps) && Stuck(Continued(s, steps))
  {
    var first, second := EndSettles(c, true), InitSettles(r, true);
    steps := [first, second];
    assert steps[..1] == [first] && [first][..0] == [];
    assert Continued(s, []) == s;
    assert Continued(s, [first]) == Next(s, first);
  }

  /**
   * What a caller can tell when its `init` starts a run: without further calls of `init` or `end`, the new
   * client can come to drop every event if and only if some earlier `end` still awaits its facade.
   */
  lemma {:induction false} InitSafeIff(s: State)
    requires SingleInit(s) && s.initInFlight.None? && s.client.None?
    ensures
      var started := Next(s, Init);
      (exists steps :: NoCalls(steps) && Stuck(Continued(started, steps))) <==> EndUnderWay(s)
  {
    hide Continued, CannotStick;
    var started := Next(s, Init);
    assert started.runs[|s.runs|].Initializing?;
    if EndUnderWay(s) {
      var c :| 0 <= c < |s.ends| && s.ends[c].Ending?;
      var steps := StickingSteps(started, c, |s.runs|);
    } else {
      StepKeepsSingleInit(s, Init);
      StartedCannotStick(s);
      forall steps | NoCalls(steps) ensures !Stuck(Continued(started, steps)) {
        CannotStickThroughout(started, steps);
        NotStuck(Continued(started, steps));
      }
    }
  }

  lemma StartedCannotStick(s: State)
    requires s.initInFlight.None? && s.client.None? && !EndUnderWay(s)
    ensures CannotStick(Next(s, Init))
  {}

  lemma NotStuck(s: State)
    requires CannotStick(s)
    ensures !Stuck(s)
  {}

  /** Two overlapping `end` calls with an `init` between them leave a published client that drops every event. */
  lemma OverlappingEndsDropEvents(name: string) returns (steps: seq<Step>)
    ensures
      var s := Reached(steps);
      s.ended && s.client == Some(1) && Next(s, Capture(name)).dropped == [0]
  {
    hide Reached;
    StartReached();
    steps := [Init];
    ReachedSnoc([], Init);
    assert [] + [Init] == steps;
    steps := Extend(steps, InitSettles(0, true));
    steps := Extend(steps, RunSettles(0));
    steps := Extend(steps, RunCleared(0));
    assert Reached(steps) == Start().(client := Some(0), clients := 1, runs := [Cleared]);
    steps := Extend(steps, End);
    steps := Extend(steps, End);
    steps := Extend(steps, EndFlushed(0));
    steps := Extend(steps, EndFlushed(1));
    assert Reached(steps) == Start().(client := Some(0), clients := 1, runs := [Cleared], ends := [Ending, Ending]);
    steps := Extend(steps, EndSettles(0, true));
    steps := Extend(steps, Init);
    assert Reached(steps) ==
           Start().(clients := 1, runs := [Cleared, Initializing], initInFlight := Some(1), ends := [Over(true), Ending]);
    steps := Extend(steps, EndSettles(1, true));
    steps := Extend(steps, InitSettles(1, true));
  }

  lemma StartReached()
    ensures Reached([]) == Start()
  {}

  lemma Extend(steps: seq<Step>, e: Step) returns (more: seq<Step>)
    ensures Reached(more) == Next(Reached(steps), e)
  {
    more := steps + [e];
    ReachedSnoc(steps, e);
  }
}
