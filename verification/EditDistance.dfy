/** Did-you-mean suggestions: the row-by-row edit distance and the search for the nearest name. */
module EditDistance {
  import opened Options

  // ------------------------------------------------------------ the row fold

  /** `Arr.range`: both ends included, and never empty. */
  function Range(from: nat, to: nat): (r: seq<nat>)
    ensures from <= to ==> |r| == to - from + 1 && forall k :: 0 <= k < |r| ==> r[k] == from + k
    ensures to < from ==> r == [from]
  {
    if from <= to then seq(to - from + 1, k requires 0 <= k => from + k) else [from]
  }

  /** A character of a string, or nothing past its end. */
  function CharAt(s: string, i: nat): Option<char> {
    if i < |s| then Some(s[i]) else None
  }

  function Min3(x: nat, y: nat, z: nat): nat {
    if x <= y && x <= z then x else if y <= z then y else z
  }

  /** One row: folds the columns, reading the row above; `None` when it reads past that row's end. */
  function FoldRow(above: seq<nat>, a: string, b: string, row: nat, columns: seq<nat>, current: seq<nat>): Option<seq<nat>>
    requires row > 0 && forall k :: 0 <= k < |columns| ==> columns[k] > 0
    decreases columns
  {
    if columns == [] then Some(current)
    else
      var column := columns[0];
      if column >= |above| || column - 1 >= |current| then None
      else
        var diagonal, up, left := above[column - 1], above[column], current[column - 1];
        var distance := if CharAt(a, row - 1) == CharAt(b, column - 1) then diagonal else 1 + Min3(diagonal, up, left);
        FoldRow(above, a, b, row, columns[1..], current + [distance])
  }

  function FoldRows(above: seq<nat>, a: string, b: string, rows: seq<nat>): Option<seq<nat>>
    requires forall k :: 0 <= k < |rows| ==> rows[k] > 0
    decreases rows
  {
    if rows == [] then Some(above)
    else
      match FoldRow(above, a, b, rows[0], Range(1, |b|), [rows[0]])
      case None => None
      case Some(next) => FoldRows(next, a, b, rows[1..])
  }

  /** `levenshtein`: `None` stands for the read past the end of a row. */
  function Levenshtein(a: string, b: string): Option<nat> {
    match FoldRows(seq(|b| + 1, k requires 0 <= k => k), a, b, Range(1, |a|))
    case None => None
    case Some(last) => if |b| < |last| then Some(last[|b|]) else None
  }

  // ------------------------------------------------------------ edit scripts

  /** One operation of a script; the last one concerns the ends of the two strings. */
  datatype Op = Keep | InsertChar(c: char) | Delete | Substitute(c: char)

  function Cost(ops: seq<Op>): nat {
    if ops == [] then 0 else Cost(ops[..|ops| - 1]) + if ops[|ops| - 1].Keep? then 0 else 1
  }

  /** What a script makes of `a`; `None` if it does not use up `a` exactly. */
  function Perform(ops: seq<Op>, a: string): Option<string> {
    if ops == [] then (if a == "" then Some("") else None)
    else
      var before, last := ops[..|ops| - 1], ops[|ops| - 1];
      if last.InsertChar? then Extend(Perform(before, a), [last.c])
      else if a == "" then None
      else
        var rest := Perform(before, a[..|a| - 1]);
        match last
        case Keep => Extend(rest, [a[|a| - 1]])
        case Delete => rest
        case Substitute(c) => Extend(rest, [c])
        case InsertChar(_) => None
  }

  function Extend(s: Option<string>, tail: string): Option<string> {
    if s.None? then None else Some(s.value + tail)
  }

  ghost predicate Turns(ops: seq<Op>, a: string, b: string) {
    Perform(ops, a) == Some(b)
  }

  // ------------------------------------------------------------ the distance

  /** The recursion on last characters that the rows tabulate. */
  function Distance(a: string, b: string): nat
    decreases |a| + |b|
  {
    if a == "" then |b|
    else if b == "" then |a|
    else
      var a', b' := a[..|a| - 1], b[..|b| - 1];
      if a[|a| - 1] == b[|b| - 1] then Distance(a', b')
      else 1 + Min3(Distance(a', b'), Distance(a', b), Distance(a, b'))
  }

  lemma {:induction false} TurnsLast(ops: seq<Op>, last: Op, a: string, b: string)
    requires Turns(ops + [last], a, b)
    ensures last.InsertChar? ==> b != "" && Turns(ops, a, b[..|b| - 1])
    ensures last.Delete? ==> a != "" && Turns(ops, a[..|a| - 1], b)
    ensures last.Keep? ==> a != "" && b != "" && a[|a| - 1] == b[|b| - 1] && Turns(ops, a[..|a| - 1], b[..|b| - 1])
    ensures last.Substitute? ==> a != "" && b != "" && b[|b| - 1] == last.c && Turns(ops, a[..|a| - 1], b[..|b| - 1])
    ensures last.InsertChar? ==> b[|b| - 1] == last.c
    ensures Cost(ops + [last]) == Cost(ops) + if last.Keep? then 0 else 1
  {
    assert (ops + [last])[..|ops|] == ops;
  }

  lemma {:induction false} TurnsSnoc(ops: seq<Op>, last: Op, a: string, b: string)
    requires Turns(ops, a, b)
    ensures last.InsertChar? ==> Turns(ops + [last], a, b + [last.c])
    ensures last.Delete? ==> forall c :: Turns(ops + [last], a + [c], b)
    ensures last.Keep? ==> forall c :: Turns(ops + [last], a + [c], b + [c])
    ensures last.Substitute? ==> forall c :: Turns(ops + [last], a + [c], b + [last.c])
    ensures Cost(ops + [last]) == Cost(ops) + if last.Keep? then 0 else 1
  {
    assert (ops + [last])[..|ops|] == ops;
    forall c: char ensures (a + [c])[..|a| + 1 - 1] == a {}
  }

  /** Neighbouring distances differ by at most one. */
  lemma {:induction false} DistanceNear(a: string, b: string)
    ensures a != "" ==> Distance(a[..|a| - 1], b) <= Distance(a, b) + 1 && Distance(a, b) <= Distance(a[..|a| - 1], b) + 1
    ensures b != "" ==> Distance(a, b[..|b| - 1]) <= Distance(a, b) + 1 && Distance(a, b) <= Distance(a, b[..|b| - 1]) + 1
    decreases |a| + |b|
  {
    if a != "" && b != "" {
      DistanceNear(a[..|a| - 1], b[..|b| - 1]);
      DistanceNear(a[..|a| - 1], b);
      DistanceNear(a, b[..|b| - 1]);
    }
  }

  /** No script is cheaper than the distance. */
  lemma {:induction false} DistanceLowerBound(ops: seq<Op>, a: string, b: string)
    requires Turns(ops, a, b)
    ensures Distance(a, b) <= Cost(ops)
    decreases |ops|
  {
    if ops != [] {
      var before, last := ops[..|ops| - 1], ops[|ops| - 1];
      assert ops == before + [last];
      TurnsLast(before, last, a, b);
      DistanceNear(a, b);
      var a', b' := if a == "" then a else a[..|a| - 1], if b == "" then b else b[..|b| - 1];
      if last.InsertChar? {
        DistanceLowerBound(before, a, b');
      } else if last.Delete? {
        DistanceLowerBound(before, a', b);
      } else {
        DistanceLowerBound(before, a', b');
        DistanceNear(a', b');
        DistanceNear(a', b);
      }
    }
  }

  /** Some script costs exactly the distance. */
  lemma {:induction false} DistanceReached(a: string, b: string) returns (ops: seq<Op>)
    ensures Turns(ops, a, b) && Cost(ops) == Distance(a, b)
    decreases |a| + |b|
  {
    if a == "" && b == "" {
      ops := [];
    } else if a == "" {
      ops := DistanceReached(a, b[..|b| - 1]);
      TurnsSnoc(ops, InsertChar(b[|b| - 1]), a, b[..|b| - 1]);
      ops := ops + [InsertChar(b[|b| - 1])];
      assert b[..|b| - 1] + [b[|b| - 1]] == b;
    } else if b == "" {
      ops := DistanceReached(a[..|a| - 1], b);
      TurnsSnoc(ops, Delete, a[..|a| - 1], b);
      ops := ops + [Delete];
      assert a[..|a| - 1] + [a[|a| - 1]] == a;
    } else {
      var a', b', x, y := a[..|a| - 1], b[..|b| - 1], a[|a| - 1], b[|b| - 1];
      assert a' + [x] == a && b' + [y] == b;
      if x == y {
        ops := DistanceReached(a', b');
        TurnsSnoc(ops, Keep, a', b');
        ops := ops + [Keep];
      } else if Distance(a, b) == 1 + Distance(a', b') {
        ops := DistanceReached(a', b');
        TurnsSnoc(ops, Substitute(y), a', b');
        ops := ops + [Substitute(y)];
      } else if Distance(a, b) == 1 + Distance(a', b) {
        ops := DistanceReached(a', b);
        TurnsSnoc(ops, Delete, a', b);
        ops := ops + [Delete];
      } else {
        ops := DistanceReached(a, b');
        TurnsSnoc(ops, InsertChar(y), a, b');
        ops := ops + [InsertChar(y)];
      }
    }
  }

  /** The script for `a` to `b` followed by the one for `b` to `c`, as one script. */
  lemma {:induction false} Compose(first: seq<Op>, second: seq<Op>, a: string, b: string, c: string) returns (ops: seq<Op>)
    requires Turns(first, a, b) && Turns(second, b, c)
    ensures Turns(ops, a, c) && Cost(ops) <= Cost(first) + Cost(second)
    decreases |first| + |second|
  {
    if first == [] && second == [] {
      return [];
    }
    var f, g := if first == [] then first else first[..|first| - 1], if second == [] then second else second[..|second| - 1];
    if second != [] {
      assert second == g + [second[|second| - 1]];
      TurnsLast(g, second[|second| - 1], b, c);
    }
    if first != [] {
      assert first == f + [first[|first| - 1]];
      TurnsLast(f, first[|first| - 1], a, b);
    }
    var a', b', c' := if a == "" then a else a[..|a| - 1], if b == "" then b else b[..|b| - 1], if c == "" then c else c[..|c| - 1];
    assert a != "" ==> a' + [a[|a| - 1]] == a;
    assert c != "" ==> c' + [c[|c| - 1]] == c;
    if second != [] && second[|second| - 1].InsertChar? {
      ops := Compose(first, g, a, b, c');
      TurnsSnoc(ops, second[|second| - 1], a, c');
      ops := ops + [second[|second| - 1]];
    } else if first != [] && first[|first| - 1].Delete? {
      ops := Compose(f, second, a', b, c);
      TurnsSnoc(ops, Delete, a', c);
      ops := ops + [Delete];
    } else {
      var p, q := first[|first| - 1], second[|second| - 1];
      ops := Compose(f, g, if p.InsertChar? then a else a', b', if q.Delete? then c else c');
      if p.InsertChar? && q.Delete? {
      } else if p.InsertChar? {
        TurnsSnoc(ops, InsertChar(c[|c| - 1]), a, c');
        ops := ops + [InsertChar(c[|c| - 1])];
      } else if q.Delete? {
        TurnsSnoc(ops, Delete, a', c);
        ops := ops + [Delete];
      } else {
        var last := if p.Keep? && q.Keep? then Keep else Substitute(c[|c| - 1]);
        TurnsSnoc(ops, last, a', c');
        ops := ops + [last];
      }
    }
  }

  // ------------------------------------------------------------ the fold computes the distance

  /** What a row is meant to hold. */
  ghost predicate Tabulates(row: seq<nat>, prefix: string, b: string) {
    |row| <= |b| + 1 && forall j :: 0 <= j < |row| ==> row[j] == Distance(prefix, b[..j])
  }

  lemma CellIsDistance(a: string, b: string, row: nat, j: nat)
    requires 0 < row <= |a| && 0 < j <= |b|
    ensures
      var diagonal, up, left := Distance(a[..row - 1], b[..j - 1]), Distance(a[..row - 1], b[..j]), Distance(a[..row], b[..j - 1]);
      Distance(a[..row], b[..j]) == if a[row - 1] == b[j - 1] then diagonal else 1 + Min3(diagonal, up, left)
  {
    assert a[..row][..row - 1] == a[..row - 1] && b[..j][..j - 1] == b[..j - 1];
  }

  lemma {:induction false} FoldRowDistances(above: seq<nat>, a: string, b: string, row: nat, columns: seq<nat>, current: seq<nat>)
    requires 0 < row <= |a| && 0 < |current| <= |b| + 1 && |columns| == |b| + 1 - |current|
    requires forall k :: 0 <= k < |columns| ==> columns[k] == |current| + k
    requires |above| == |b| + 1 && Tabulates(above, a[..row - 1], b)
    requires Tabulates(current, a[..row], b)
    ensures
      var r := FoldRow(above, a, b, row, columns, current);
      r.Some? && |r.value| == |b| + 1 && Tabulates(r.value, a[..row], b)
    decreases |columns|
  {
    hide Distance;
    if columns != [] {
      var j := |current|;
      assert columns[0] == j;
      CellIsDistance(a, b, row, j);
      FoldRowDistances(above, a, b, row, columns[1..], current + [Distance(a[..row], b[..j])]);
    }
  }

  /** With an empty first string the single row holds 1, 1, 2, 3, ... */
  lemma {:induction false} FoldEmptyRow(above: seq<nat>, b: string, columns: seq<nat>, current: seq<nat>)
    requires 0 < |current| <= |b| + 1 && |columns| == |b| + 1 - |current|
    requires forall k :: 0 <= k < |columns| ==> columns[k] == |current| + k
    requires |above| == |b| + 1 && forall j :: 0 <= j <= |b| ==> above[j] == j
    requires forall j :: 0 <= j < |current| ==> current[j] == if j == 0 then 1 else j
    ensures
      var r := FoldRow(above, "", b, 1, columns, current);
      r.Some? && |r.value| == |b| + 1 && r.value[|b|] == if b == "" then 1 else |b|
    decreases |columns|
  {
    if columns != [] {
      var j := |current|;
      assert columns[0] == j && CharAt("", 0) != CharAt(b, j - 1);
      FoldEmptyRow(above, b, columns[1..], current + [j]);
    }
  }

  lemma {:induction false} FoldRowsDistances(above: seq<nat>, a: string, b: string, rows: seq<nat>)
    requires a != "" && b != "" && |rows| <= |a|
    requires forall k :: 0 <= k < |rows| ==> rows[k] == |a| - |rows| + 1 + k
    requires |above| == |b| + 1 && Tabulates(above, a[..|a| - |rows|], b)
    ensures
      var r := FoldRows(above, a, b, rows);
      r.Some? && |r.value| == |b| + 1 && Tabulates(r.value, a, b)
    decreases |rows|
  {
    if rows == [] {
      assert a[..|a|] == a;
    } else {
      var row := rows[0];
      assert b[..0] == "";
      FoldRowDistances(above, a, b, row, Range(1, |b|), [row]);
      FoldRowsDistances(FoldRow(above, a, b, row, Range(1, |b|), [row]).value, a, b, rows[1..]);
    }
  }

  /**
   * The fold gives the edit distance for every pair whose second string is not empty, and
   * only then: with an empty second string it reads past the end of a row.
   */
  lemma {:induction false} LevenshteinIsDistance(a: string, b: string)
    ensures Levenshtein(a, b) == Some(Distance(a, b)) <==> b != ""
    ensures b == "" ==> Levenshtein(a, b) == None
  {
    var first := seq(|b| + 1, k requires 0 <= k => k);
    if b == "" {
      var rows := Range(1, |a|);
      assert FoldRow(first, a, b, rows[0], [1], [rows[0]]) == None;
    } else if a == "" {
      FoldEmptyRow(first, b, Range(1, |b|), [1]);
      var next := FoldRow(first, a, b, 1, Range(1, |b|), [1]).value;
      assert Range(1, 0) == [1];
      assert FoldRows(next, a, b, [1][1..]) == Some(next);
    } else {
      FoldRowsDistances(first, a, b, Range(1, |a|));
      assert b[..|b|] == b;
    }
  }

  /** The fold's answer is the least cost of any script, for every pair it answers. */
  lemma {:induction false} LevenshteinIsLeast(a: string, b: string, ops: seq<Op>)
    requires b != "" && Turns(ops, a, b)
    ensures Levenshtein(a, b).Some? && Levenshtein(a, b).value <= Cost(ops)
    ensures exists best :: Turns(best, a, b) && Cost(best) == Levenshtein(a, b).value
  {
    LevenshteinIsDistance(a, b);
    DistanceLowerBound(ops, a, b);
    var best := DistanceReached(a, b);
  }

  lemma {:induction false} DistanceSymmetric(a: string, b: string)
    ensures Distance(a, b) == Distance(b, a)
    decreases |a| + |b|
  {
    if a != "" && b != "" {
      DistanceSymmetric(a[..|a| - 1], b[..|b| - 1]);
      DistanceSymmetric(a[..|a| - 1], b);
      DistanceSymmetric(a, b[..|b| - 1]);
    }
  }

  /** The answers form a metric on non-empty strings. */
  lemma {:induction false} LevenshteinMetric(a: string, b: string, c: string)
    requires a != "" && b != "" && c != ""
    ensures Levenshtein(a, b).Some? && Levenshtein(b, c).Some? && Levenshtein(a, c).Some?
    ensures Levenshtein(a, b) == Levenshtein(b, a)
    ensures Levenshtein(a, b) == Some(0) <==> a == b
    ensures Levenshtein(a, c).value <= Levenshtein(a, b).value + Levenshtein(b, c).value
  {
    LevenshteinIsDistance(a, b);
    LevenshteinIsDistance(b, a);
    LevenshteinIsDistance(b, c);
    LevenshteinIsDistance(a, c);
    DistanceSymmetric(a, b);
    DistanceZero(a, b);
    var first := DistanceReached(a, b);
    var second := DistanceReached(b, c);
    var both := Compose(first, second, a, b, c);
    DistanceLowerBound(both, a, c);
  }

  lemma {:induction false} DistanceZero(a: string, b: string)
    ensures Distance(a, b) == 0 <==> a == b
  {
    if a != "" && b != "" {
      DistanceZero(a[..|a| - 1], b[..|b| - 1]);
      assert a == a[..|a| - 1] + [a[|a| - 1]];
      assert b == b[..|b| - 1] + [b[|b| - 1]];
    }
  }

  // ------------------------------------------------------------ the nearest name

  datatype Suggestion = Found(name: string) | NothingClose | ReadPastEnd

  function Threshold(key: string): nat {
    if |key| / 2 + 1 < 3 then |key| / 2 + 1 else 3
  }

  /** At most 3 edits, and all but one of them at most half the key's length. */
  predicate Close(key: string, distance: nat) {
    distance <= 3 && 2 * (distance - 1) <= |key|
  }

  lemma ThresholdIs(key: string)
    ensures forall d: nat :: d <= Threshold(key) <==> Close(key, d)
  {}

  /** What the comment on `nearestField` promises: a distance of at most 3 and less than half the key's length. */
  predicate AsCommented(key: string, distance: nat) {
    distance <= 3 && 2 * distance < |key|
  }

  /** The threshold in the code is that one exactly for keys of seven or more characters. */
  lemma ThresholdAsCommentedIff(key: string)
    ensures (forall d: nat :: d <= Threshold(key) <==> AsCommented(key, d)) <==> |key| >= 7
  {
    assert |key| < 7 ==> !AsCommented(key, Threshold(key));
  }

  /** Candidate `k` is the earliest of those at the least distance from the key. */
  ghost predicate Nearest(key: string, candidates: seq<string>, lower: string -> string, k: nat) {
    k < |candidates| && forall j :: 0 <= j < |candidates| ==>
      var d, e := Distance(lower(key), lower(candidates[k])), Distance(lower(key), lower(candidates[j]));
      d <= e && (j < k ==> d < e)
  }

  /** "b" is suggested for "a", at a distance of the whole key. */
  lemma FarSuggestion()
    ensures
      var lower := (s: string) => s;
      && Nearest("a", ["b"], lower, 0)
      && Distance(lower("a"), lower("b")) <= Threshold("a") && !AsCommented("a", Distance(lower("a"), lower("b")))
  {
    assert "a"[..0] == "" && "b"[..0] == "";
    assert Distance("", "") == 0 && Distance("a", "") == 1 && Distance("", "b") == 1;
    assert Distance("a", "b") == 1;
  }

  /**
   * `nearestField`: the earliest candidate at the least distance from the key, if that
   * distance is within the threshold. `lower` is `toLowerCase`.
   */
  method NearestField(key: string, candidates: seq<string>, lower: string -> string) returns (r: Suggestion)
    ensures r.ReadPastEnd? <==> exists k :: 0 <= k < |candidates| && lower(candidates[k]) == ""
    ensures r.Found? ==> exists k: nat :: Nearest(key, candidates, lower, k) && candidates[k] == r.name
    ensures !r.ReadPastEnd? ==> (r.NothingClose? <==>
              forall j :: 0 <= j < |candidates| ==> !Close(key, Distance(lower(key), lower(candidates[j]))))
  {
    hide Distance, Levenshtein;
    ThresholdIs(key);
    var best: Option<nat> := None;
    var bestDistance := 0;
    var i := 0;
    while i < |candidates|
      invariant i <= |candidates|
      invariant forall j :: 0 <= j < i ==> lower(candidates[j]) != ""
      invariant best.None? <==> i == 0
      invariant best.Some? ==> Nearest(key, candidates[..i], lower, best.value)
      invariant best.Some? ==> bestDistance == Distance(lower(key), lower(candidates[best.value]))
    {
      var distance := Levenshtein(lower(key), lower(candidates[i]));
      LevenshteinIsDistance(lower(key), lower(candidates[i]));
      if distance.None? {
        return ReadPastEnd;
      }
      assert candidates[..i + 1] == candidates[..i] + [candidates[i]];
      if best.None? || distance.value < bestDistance {
        best, bestDistance := Some(i), distance.value;
      }
      i := i + 1;
    }
    assert candidates[..i] == candidates;
    if best.Some? && bestDistance <= Threshold(key) {
      return Found(candidates[best.value]);
    }
    return NothingClose;
  }
}
