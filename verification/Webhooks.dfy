/** Webhook de-duplication: two generations of claimed keys, and the claim/apply/release protocol around them. */
module Webhooks {

  type Key = string

  // ------------------------------------------------------------ the two generations

  /** What a `dedupeSet` holds; times and the window are in nanoseconds. */
  datatype Generations = Generations(window: int, rotatedAt: int, current: set<Key>, previous: set<Key>) {
    function Rotated(now: int): Generations {
      if now - rotatedAt < window then this
      else Generations(window, now, {}, current)
    }

    predicate Remembers(key: Key) {
      key in current || key in previous
    }

    /** Whether a claim of `key` at `now` is granted. */
    predicate Grants(key: Key, now: int) {
      !Rotated(now).Remembers(key)
    }

    function Claimed(key: Key, now: int): Generations {
      var g := Rotated(now);
      if g.Remembers(key) then g else g.(current := g.current + {key})
    }

    function Released(key: Key): Generations {
      this.(current := current - {key}, previous := previous - {key})
    }
  }

  /** `dedupeSet`; the mutex makes every method one step. */
  class DedupeSet {
    const window: int
    var rotatedAt: int
    var current: set<Key>
    var previous: set<Key>

    ghost function Contents(): Generations
      reads this
    {
      Generations(window, rotatedAt, current, previous)
    }

    constructor (window: int, now: int)
      ensures Contents() == Generations(window, now, {}, {})
    {
      this.window := window;
      rotatedAt, current, previous := now, {}, {};
    }

    method RotateLocked(now: int)
      modifies this
      ensures Contents() == old(Contents()).Rotated(now)
    {
      if now - rotatedAt < window {
        return;
      }
      previous := current;
      current := {};
      rotatedAt := now;
    }

    method Claim(key: Key, now: int) returns (granted: bool)
      modifies this
      ensures granted == old(Contents()).Grants(key, now)
      ensures Contents() == old(Contents()).Claimed(key, now)
    {
      RotateLocked(now);
      if key in current {
        return false;
      }
      if key in previous {
        return false;
      }
      current := current + {key};
      return true;
    }

    method Release(key: Key)
      modifies this
      ensures Contents() == old(Contents()).Released(key)
    {
      current := current - {key};
      previous := previous - {key};
    }
  }

  // ------------------------------------------------------------ runs of claims and releases

  datatype Call = Claim(key: Key, now: int) | Release(key: Key)

  function Do(g: Generations, c: Call): Generations {
    match c
    case Claim(key, now) => g.Claimed(key, now)
    case Release(key) => g.Released(key)
  }

  function After(g: Generations, calls: seq<Call>): Generations {
    if calls == [] then g else Do(After(g, calls[..|calls| - 1]), calls[|calls| - 1])
  }

  /** Call `i` is a claim of `key` that was granted. */
  predicate Wins(g: Generations, calls: seq<Call>, i: nat, key: Key)
    requires i < |calls|
  {
    calls[i].Claim? && calls[i].key == key && After(g, calls[..i]).Grants(key, calls[i].now)
  }

  /** How many of the calls rotated the generations: a fact about clock readings, not about keys. */
  function Rotations(g: Generations, calls: seq<Call>): nat {
    if calls == [] then 0
    else
      var n := |calls| - 1;
      Rotations(g, calls[..n])
      + if calls[n].Claim? && calls[n].now - LastRotation(g, calls[..n]) >= g.window then 1 else 0
  }

  /** The clock reading of the last rotation. */
  function LastRotation(g: Generations, calls: seq<Call>): int {
    if calls == [] then g.rotatedAt
    else
      var n := |calls| - 1;
      var earlier := LastRotation(g, calls[..n]);
      if calls[n].Claim? && calls[n].now - earlier >= g.window then calls[n].now else earlier
  }

  lemma {:induction false} RotatesByClock(g: Generations, calls: seq<Call>)
    ensures After(g, calls).window == g.window && After(g, calls).rotatedAt == LastRotation(g, calls)
  {
    if calls != [] {
      RotatesByClock(g, calls[..|calls| - 1]);
    }
  }

  /** A granted claim of `key` by call `i` that nobody released since, `age` rotations ago. */
  ghost predicate Unreleased(g: Generations, calls: seq<Call>, i: nat, key: Key, age: int) {
    && i < |calls|
    && Wins(g, calls, i, key)
    && (forall m :: i < m < |calls| ==> calls[m] != Release(key))
    && Rotations(g, calls) - Rotations(g, calls[..i + 1]) == age
  }

  ghost predicate HasUnreleased(g: Generations, calls: seq<Call>, key: Key, age: int) {
    exists i :: Unreleased(g, calls, i, key, age)
  }

  /** How many rotations the last call makes. */
  function LastRotates(g: Generations, calls: seq<Call>): int
    requires calls != []
  {
    Rotations(g, calls) - Rotations(g, calls[..|calls| - 1])
  }

  lemma {:induction false} UnreleasedEarlier(g: Generations, calls: seq<Call>, i: nat, key: Key, age: int)
    requires calls != [] && i < |calls| - 1
    ensures Unreleased(g, calls, i, key, age) <==>
              && calls[|calls| - 1] != Release(key)
              && Unreleased(g, calls[..|calls| - 1], i, key, age - LastRotates(g, calls))
  {
    hide After, Rotations, LastRotation;
    var n := |calls| - 1;
    assert calls[..n][..i] == calls[..i] && calls[..n][..i + 1] == calls[..i + 1];
    assert forall m :: i < m < n ==> calls[..n][m] == calls[m];
  }

  lemma {:induction false} HasUnreleasedStep(g: Generations, calls: seq<Call>, key: Key, age: int)
    requires calls != []
    ensures HasUnreleased(g, calls, key, age) <==>
              || (Wins(g, calls, |calls| - 1, key) && age == 0)
              || (calls[|calls| - 1] != Release(key) && HasUnreleased(g, calls[..|calls| - 1], key, age - LastRotates(g, calls)))
  {
    hide After, Rotations, LastRotation, Wins;
    var n := |calls| - 1;
    assert calls[..n + 1] == calls;
    if Wins(g, calls, n, key) && age == 0 {
      assert Unreleased(g, calls, n, key, 0);
    }
    var rest := age - LastRotates(g, calls);
    forall i: nat | i < n
      ensures Unreleased(g, calls, i, key, age) <==> calls[n] != Release(key) && Unreleased(g, calls[..n], i, key, rest)
    {
      UnreleasedEarlier(g, calls, i, key, age);
    }
  }

  lemma {:induction false} NoNegativeAge(g: Generations, calls: seq<Call>, key: Key)
    ensures !HasUnreleased(g, calls, key, -1)
  {
    forall n: nat | n <= |calls| ensures Rotations(g, calls[..n]) <= Rotations(g, calls) {
      RotationsGrow(g, calls, n);
    }
  }

  lemma {:induction false} RotationsGrow(g: Generations, calls: seq<Call>, i: nat)
    requires i <= |calls|
    ensures Rotations(g, calls[..i]) <= Rotations(g, calls)
    decreases |calls|
  {
    if i == |calls| {
      assert calls[..i] == calls;
    } else {
      var n := |calls| - 1;
      RotationsGrow(g, calls[..n], i);
      assert calls[..n][..i] == calls[..i];
    }
  }

  /** What the two sets hold: the keys of unreleased granted claims of this generation and of the one before. */
  lemma {:induction false} GenerationsHold(window: int, start: int, calls: seq<Call>, key: Key)
    ensures
      var g := Generations(window, start, {}, {});
      && (key in After(g, calls).current <==> HasUnreleased(g, calls, key, 0))
      && (key in After(g, calls).previous <==> HasUnreleased(g, calls, key, 1))
  {
    hide HasUnreleased;
    var g := Generations(window, start, {}, {});
    if calls == [] {
      NothingUnreleased(g, key, 0);
      NothingUnreleased(g, key, 1);
    } else {
      var n := |calls| - 1;
      GenerationsHold(window, start, calls[..n], key);
      HasUnreleasedStep(g, calls, key, 0);
      HasUnreleasedStep(g, calls, key, 1);
      NoNegativeAge(g, calls[..n], key);
      RotatesByClock(g, calls[..n]);
    }
  }

  lemma NothingUnreleased(g: Generations, key: Key, age: int)
    ensures !HasUnreleased(g, [], key, age)
  {}

  /**
   * A claim is refused exactly when some earlier granted claim of its key was never released
   * and at most one rotation came after it, counting a rotation this claim itself makes.
   */
  lemma {:induction false} ClaimRefusedIff(window: int, start: int, calls: seq<Call>, key: Key, now: int)
    ensures
      var g := Generations(window, start, {}, {});
      var next := calls + [Claim(key, now)];
      !After(g, calls).Grants(key, now) <==>
      exists i :: 0 <= i < |calls| && Wins(g, calls, i, key) && (forall m :: i < m < |calls| ==> calls[m] != Release(key))
                  && Rotations(g, next) - Rotations(g, calls[..i + 1]) <= 1
  {
    hide After, Rotations, LastRotation, Wins;
    var g := Generations(window, start, {}, {});
    var next := calls + [Claim(key, now)];
    assert next[..|calls|] == calls;
    GenerationsHold(window, start, calls, key);
    LastClaimRotates(g, calls, key, now);
    forall n: nat | n <= |calls| ensures Rotations(g, calls[..n]) <= Rotations(g, calls) {
      RotationsGrow(g, calls, n);
    }
    forall i: nat | i < |calls| && Wins(g, calls, i, key) && (forall m :: i < m < |calls| ==> calls[m] != Release(key))
      ensures Unreleased(g, calls, i, key, Rotations(g, calls) - Rotations(g, calls[..i + 1]))
    {}
  }

  lemma LastClaimRotates(g: Generations, calls: seq<Call>, key: Key, now: int)
    ensures
      Rotations(g, calls + [Claim(key, now)]) - Rotations(g, calls) ==
      if now - After(g, calls).rotatedAt < g.window then 0 else 1
    ensures After(g, calls).window == g.window
  {
    assert (calls + [Claim(key, now)])[..|calls|] == calls;
    RotatesByClock(g, calls);
  }

  // ------------------------------------------------------------ how long a key is remembered

  /** Clock readings never go back. */
  ghost predicate InOrder(start: int, calls: seq<Call>) {
    && (forall i :: 0 <= i < |calls| && calls[i].Claim? ==> start <= calls[i].now)
    && (forall i, j :: 0 <= i < j < |calls| && calls[i].Claim? && calls[j].Claim? ==> calls[i].now <= calls[j].now)
  }

  lemma {:induction false} LastRotationPast(g: Generations, calls: seq<Call>, now: int)
    requires g.window > 0 && g.rotatedAt <= now
    requires forall i :: 0 <= i < |calls| && calls[i].Claim? ==> calls[i].now <= now
    ensures LastRotation(g, calls) <= now
  {
    if calls != [] {
      LastRotationPast(g, calls[..|calls| - 1], now);
    }
  }

  /** After claim `i`, the first later rotation is later than it and the second by more than a window. */
  lemma {:induction false} RotationsSpread(g: Generations, calls: seq<Call>, i: nat)
    requires i < |calls| && calls[i].Claim? && g.window > 0 && InOrder(g.rotatedAt, calls)
    ensures
      var rotations, last := Rotations(g, calls) - Rotations(g, calls[..i + 1]), LastRotation(g, calls);
      && (rotations == 0 ==> calls[i].now - last < g.window)
      && (rotations == 1 ==> calls[i].now < last)
      && (rotations >= 2 ==> calls[i].now + g.window < last)
    decreases |calls|
  {
    var n := |calls| - 1;
    RotationsGrow(g, calls, i + 1);
    if i == n {
      assert calls[..i + 1] == calls;
    } else {
      RotationsSpread(g, calls[..n], i);
      RotationsGrow(g, calls[..n], i + 1);
      assert calls[..n][..i + 1] == calls[..i + 1];
    }
  }

  /** Two granted claims of one key with no release of it between are strictly more than a window apart. */
  lemma {:induction false} GrantsMoreThanWindowApart(window: int, start: int, calls: seq<Call>, i: nat, j: nat, key: Key)
    requires window > 0 && InOrder(start, calls) && i < j < |calls|
    requires
      var g := Generations(window, start, {}, {});
      Wins(g, calls, i, key) && Wins(g, calls, j, key)
    requires forall m :: i < m < j ==> calls[m] != Release(key)
    ensures calls[j].now - calls[i].now > window
  {
    hide After, Rotations, LastRotation;
    var g := Generations(window, start, {}, {});
    var earlier, upTo := calls[..j], calls[..j + 1];
    ClaimRefusedIff(window, start, earlier, key, calls[j].now);
    assert earlier + [calls[j]] == upTo && upTo[..i + 1] == calls[..i + 1] == earlier[..i + 1] && earlier[..i] == calls[..i];
    assert Wins(g, earlier, i, key);
    RotationsSpread(g, upTo, i);
    LastRotationPast(g, upTo, calls[j].now);
  }

  /**
   * What the two-window bound of the comment needs: some claim, of any key, at least a window
   * after the remembered one, and the new claim at least a window after that.
   */
  lemma {:induction false} BusyWindowsForget(window: int, start: int, calls: seq<Call>, i: nat, m: nat, key: Key, now: int)
    requires window > 0 && i < m < |calls| && calls[i].Claim? && calls[m].Claim?
    requires InOrder(start, calls + [Claim(key, now)])
    requires calls[m].now - calls[i].now >= window && now - calls[m].now >= window
    requires forall n :: i < n < |calls| && calls[n].Claim? ==> calls[n].key != key
    ensures After(Generations(window, start, {}, {}), calls).Grants(key, now)
  {
    hide After, Rotations, LastRotation;
    var g := Generations(window, start, {}, {});
    var next := calls + [Claim(key, now)];
    var n := |calls|;
    assert next[..n] == calls && next[..m + 1] == calls[..m + 1] && next[..m] == calls[..m];
    assert next[..i + 1] == calls[..i + 1] == next[..m][..i + 1];
    assert next[n] == Claim(key, now) && next[m] == calls[m] && next[..n + 1] == next;
    RotationDue(g, next, i, m);
    RotationDue(g, next, m, n);
    ClaimRefusedIff(window, start, calls, key, now);
    forall w: nat | w < n && Wins(g, calls, w, key) ensures Rotations(g, calls[..w + 1]) <= Rotations(g, calls[..i + 1]) {
      assert w <= i;
      assert calls[..i + 1][..w + 1] == calls[..w + 1];
      RotationsGrow(g, calls[..i + 1], w + 1);
    }
  }

  /** A claim at least a window after another leaves a rotation between them. */
  lemma {:induction false} RotationDue(g: Generations, calls: seq<Call>, i: nat, m: nat)
    requires i < m < |calls| && calls[i].Claim? && calls[m].Claim? && g.window > 0
    requires InOrder(g.rotatedAt, calls) && calls[m].now - calls[i].now >= g.window
    ensures Rotations(g, calls[..m + 1]) >= Rotations(g, calls[..i + 1]) + 1
  {
    var upTo := calls[..m + 1];
    assert upTo[..m] == calls[..m] && upTo[..i + 1] == calls[..i + 1] == calls[..m][..i + 1];
    RotationsGrow(g, calls[..m], i + 1);
    if Rotations(g, calls[..m]) == Rotations(g, calls[..i + 1]) {
      SameLastRotation(g, calls[..m], i + 1);
      LastRotationPast(g, calls[..i + 1], calls[i].now);
    }
  }

  lemma {:induction false} SameLastRotation(g: Generations, calls: seq<Call>, i: nat)
    requires i <= |calls| && Rotations(g, calls) == Rotations(g, calls[..i])
    ensures LastRotation(g, calls) == LastRotation(g, calls[..i])
    decreases |calls|
  {
    if i < |calls| {
      var n := |calls| - 1;
      assert calls[..n][..i] == calls[..i];
      RotationsGrow(g, calls[..n], i);
      SameLastRotation(g, calls[..n], i);
    } else {
      assert calls[..i] == calls;
    }
  }

  /** Only claims rotate: a key claimed once is still refused however long the set then sits idle. */
  lemma IdleSetNeverForgets(window: int, start: int, key: Key, gap: nat)
    requires window > 0
    ensures !After(Generations(window, start, {}, {}), [Claim(key, start)]).Grants(key, start + gap)
  {
    assert [Claim(key, start)][..0] == [];
  }
}
