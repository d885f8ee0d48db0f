/** The storage keys of one agent session, and why no two of them are ever the same string. */
module SessionKeys {

  const LOG_META_KEY := "agent-session/log/meta"
  const LOG_ENTRY_PREFIX := "agent-session/log/entry/"
  const OWNER_KEY := "agent-session/owner"

  datatype Key =
    | LogMeta
    | Owner
    | EntryMeta(index: nat)
    | EntryChunk(index: nat, chunk: nat)

  function Digit(d: nat): char
    requires d < 10
  {
    '0' + d as char
  }

  function Decimal(n: nat): string {
    if n < 10 then [Digit(n)] else Decimal(n / 10) + [Digit(n % 10)]
  }

  /** `padStart(width, "0")`: longer numbers are left as they are. */
  function PadStart(s: string, width: nat): string
    decreases width - |s|
  {
    if |s| < width then PadStart("0" + s, width) else s
  }

  function EntryPrefix(index: nat): string {
    LOG_ENTRY_PREFIX + PadStart(Decimal(index), 12) + "/"
  }

  function Render(key: Key): string {
    match key
    case LogMeta => LOG_META_KEY
    case Owner => OWNER_KEY
    case EntryMeta(index) => EntryPrefix(index) + "meta"
    case EntryChunk(index, chunk) => EntryPrefix(index) + "chunk/" + PadStart(Decimal(chunk), 6)
  }

  // ------------------------------------------------------------ reading a number back

  predicate IsDigit(c: char) {
    '0' <= c <= '9'
  }

  function Value(s: string): nat {
    if s == "" then 0
    else 10 * Value(s[..|s| - 1]) + if IsDigit(s[|s| - 1]) then (s[|s| - 1] - '0') as nat else 0
  }

  lemma {:induction false} DecimalReads(n: nat)
    ensures Value(Decimal(n)) == n
    ensures forall i :: 0 <= i < |Decimal(n)| ==> IsDigit(Decimal(n)[i])
  {
    var s := Decimal(n);
    if n < 10 {
      assert s[..0] == "";
    } else {
      DecimalReads(n / 10);
      assert s[..|s| - 1] == Decimal(n / 10);
    }
  }

  lemma {:induction false} LeadingZero(s: string)
    ensures Value("0" + s) == Value(s)
  {
    var z := "0" + s;
    if s == "" {
      assert z[..0] == "";
    } else {
      LeadingZero(s[..|s| - 1]);
      assert z[..|z| - 1] == "0" + s[..|s| - 1];
    }
  }

  lemma {:induction false} PadReads(s: string, width: nat)
    requires forall i :: 0 <= i < |s| ==> IsDigit(s[i])
    ensures Value(PadStart(s, width)) == Value(s)
    ensures forall i :: 0 <= i < |PadStart(s, width)| ==> IsDigit(PadStart(s, width)[i])
    decreases width - |s|
  {
    if |s| < width {
      LeadingZero(s);
      PadReads("0" + s, width);
    }
  }

  lemma NumberReads(n: nat, width: nat)
    ensures Value(PadStart(Decimal(n), width)) == n
    ensures '/' !in PadStart(Decimal(n), width)
  {
    DecimalReads(n);
    PadReads(Decimal(n), width);
  }

  // ------------------------------------------------------------ splitting at a slash

  lemma SplitUnique(u1: string, v1: string, u2: string, v2: string)
    requires '/' !in u1 && '/' !in u2 && u1 + "/" + v1 == u2 + "/" + v2
    ensures u1 == u2 && v1 == v2
  {
    var w := u1 + "/" + v1;
    assert w == u2 + "/" + v2;
    assert w[|u1|] == '/' && forall i :: 0 <= i < |u1| ==> w[i] == u1[i];
    assert w[|u2|] == '/' && forall i :: 0 <= i < |u2| ==> w[i] == u2[i];
    assert |u1| == |u2|;
    assert u1 == w[..|u1|] && u2 == w[..|u2|];
    assert v1 == w[|u1| + 1..] && v2 == w[|u2| + 1..];
  }

  /** What follows the entry prefix, split at its first slash. */
  lemma EntryTail(key: Key)
    requires key.EntryMeta? || key.EntryChunk?
    ensures Render(key) == LOG_ENTRY_PREFIX + (PadStart(Decimal(key.index), 12) + "/" +
              (if key.EntryMeta? then "meta" else "chunk" + "/" + PadStart(Decimal(key.chunk), 6)))
  {}

  lemma SamePrefix(p: string, s: string, t: string)
    requires p + s == p + t
    ensures s == t
  {
    assert s == (p + s)[|p|..] && t == (p + t)[|p|..];
  }

  /** Different keys are different strings, for every index and chunk number. */
  lemma KeysNeverCollide(k1: Key, k2: Key)
    requires k1 != k2
    ensures Render(k1) != Render(k2)
  {
    if k1.LogMeta? || k1.Owner? {
      FixedKeys(k1, k2);
    } else if k2.LogMeta? || k2.Owner? {
      FixedKeys(k2, k1);
    } else if Render(k1) == Render(k2) {
      EntryKeys(k1, k2);
    }
  }

  lemma FixedKeys(k1: Key, k2: Key)
    requires k1.LogMeta? || k1.Owner?
    ensures k1 != k2 ==> Render(k1) != Render(k2)
  {
    assert LOG_META_KEY[18] == 'm' && LOG_ENTRY_PREFIX[18] == 'e';
    assert LOG_META_KEY[14] == 'l' && LOG_ENTRY_PREFIX[14] == 'l' && OWNER_KEY[14] == 'o';
    if k2.EntryMeta? || k2.EntryChunk? {
      EntryTail(k2);
      assert Render(k2)[14] == LOG_ENTRY_PREFIX[14] && Render(k2)[18] == LOG_ENTRY_PREFIX[18];
    }
  }

  lemma EntryKeys(k1: Key, k2: Key)
    requires (k1.EntryMeta? || k1.EntryChunk?) && (k2.EntryMeta? || k2.EntryChunk?)
    requires Render(k1) == Render(k2)
    ensures k1 == k2
  {
    EntryTail(k1);
    EntryTail(k2);
    var u1, u2 := PadStart(Decimal(k1.index), 12), PadStart(Decimal(k2.index), 12);
    var v1 := if k1.EntryMeta? then "meta" else "chunk" + "/" + PadStart(Decimal(k1.chunk), 6);
    var v2 := if k2.EntryMeta? then "meta" else "chunk" + "/" + PadStart(Decimal(k2.chunk), 6);
    SamePrefix(LOG_ENTRY_PREFIX, u1 + "/" + v1, u2 + "/" + v2);
    NumberReads(k1.index, 12);
    NumberReads(k2.index, 12);
    SplitUnique(u1, v1, u2, v2);
    assert "meta"[0] == 'm';
    assert k1.EntryChunk? ==> v1[0] == 'c';
    assert k2.EntryChunk? ==> v2[0] == 'c';
    if k1.EntryChunk? && k2.EntryChunk? {
      NumberReads(k1.chunk, 6);
      NumberReads(k2.chunk, 6);
      SplitUnique("chunk", PadStart(Decimal(k1.chunk), 6), "chunk", PadStart(Decimal(k2.chunk), 6));
    }
  }

  // ------------------------------------------------------------ the order of keys

  function PowerOfTen(n: nat): nat {
    if n == 0 then 1 else 10 * PowerOfTen(n - 1)
  }

  /** Two strings first differ at some place, where the first has the smaller character. */
  ghost predicate LexLess(a: string, b: string) {
    exists k :: 0 <= k < |a| && k < |b| && a[..k] == b[..k] && a[k] < b[k]
  }

  lemma {:induction false} DecimalLength(n: nat, width: nat)
    requires width > 0
    ensures |Decimal(n)| <= width <==> n < PowerOfTen(width)
  {
    if n >= 10 && width > 1 {
      DecimalLength(n / 10, width - 1);
    } else if n >= 10 {
      assert PowerOfTen(1) == 10 * PowerOfTen(0);
    } else {
      PowerAtLeast(width);
    }
  }

  lemma {:induction false} PowerAtLeast(width: nat)
    requires width > 0
    ensures PowerOfTen(width) >= 10
  {
    if width > 1 { PowerAtLeast(width - 1); }
  }

  lemma {:induction false} PaddedLength(s: string, width: nat)
    ensures |PadStart(s, width)| == if |s| < width then width else |s|
    decreases width - |s|
  {
    if |s| < width { PaddedLength("0" + s, width); }
  }

  predicate AllDigits(s: string) {
    forall i :: 0 <= i < |s| ==> IsDigit(s[i])
  }

  lemma {:induction false} LexIsLess(a: string, b: string, k: nat)
    requires |a| == |b| && AllDigits(a) && AllDigits(b)
    requires k < |a| && a[..k] == b[..k] && a[k] < b[k]
    ensures Value(a) < Value(b)
  {
    var n := |a| - 1;
    if k < n {
      assert a[..n][..k] == a[..k] && b[..n][..k] == b[..k];
      LexIsLess(a[..n], b[..n], k);
    }
  }

  lemma {:induction false} FirstDifference(a: string, b: string) returns (k: nat)
    requires |a| == |b| && a != b
    ensures k < |a| && a[..k] == b[..k] && a[k] != b[k]
  {
    var n := |a| - 1;
    if a[..n] != b[..n] {
      k := FirstDifference(a[..n], b[..n]);
      assert a[..n][..k] == a[..k] && b[..n][..k] == b[..k];
    } else {
      k := n;
    }
  }

  /** Numbers of at most `width` digits are ordered as their padded strings. */
  lemma {:induction false} PaddedInOrder(i: nat, j: nat, width: nat)
    requires width > 0 && i < j < PowerOfTen(width)
    ensures |PadStart(Decimal(i), width)| == width && |PadStart(Decimal(j), width)| == width
    ensures LexLess(PadStart(Decimal(i), width), PadStart(Decimal(j), width))
  {
    var a, b := PadStart(Decimal(i), width), PadStart(Decimal(j), width);
    DecimalLength(i, width);
    DecimalLength(j, width);
    PaddedLength(Decimal(i), width);
    PaddedLength(Decimal(j), width);
    DecimalReads(i);
    DecimalReads(j);
    PadReads(Decimal(i), width);
    PadReads(Decimal(j), width);
    var k := FirstDifference(a, b);
    if b[k] < a[k] { LexIsLess(b, a, k); }
  }

  lemma LexInContext(p: string, a: string, b: string, s: string, t: string)
    requires LexLess(a, b)
    ensures LexLess(p + a + s, p + b + t)
  {
    var k :| 0 <= k < |a| && k < |b| && a[..k] == b[..k] && a[k] < b[k];
    var x, y, n := p + a + s, p + b + t, |p| + k;
    assert x[..n] == p + a[..k] && y[..n] == p + b[..k];
    assert x[n] == a[k] && y[n] == b[k];
  }

  function IndexPart(index: nat): string {
    PadStart(Decimal(index), 12)
  }

  function AfterIndex(key: Key): string
    requires key.EntryMeta? || key.EntryChunk?
  {
    "/" + if key.EntryMeta? then "meta" else "chunk/" + PadStart(Decimal(key.chunk), 6)
  }

  lemma RenderParts(key: Key)
    requires key.EntryMeta? || key.EntryChunk?
    ensures Render(key) == LOG_ENTRY_PREFIX + IndexPart(key.index) + AfterIndex(key)
  {}

  /** Up to the number of digits the keys are padded to, keys sort as entries do, and an entry's chunks as they follow each other. */
  lemma KeysSortByIndex(k1: Key, k2: Key)
    requires (k1.EntryMeta? || k1.EntryChunk?) && (k2.EntryMeta? || k2.EntryChunk?)
    ensures k1.index < k2.index < PowerOfTen(12) ==> LexLess(Render(k1), Render(k2))
    ensures k1.EntryChunk? && k2.EntryChunk? && k1.index == k2.index && k1.chunk < k2.chunk < PowerOfTen(6) ==>
              LexLess(Render(k1), Render(k2))
  {
    hide PadStart, Decimal, LexLess;
    RenderParts(k1);
    RenderParts(k2);
    if k1.index < k2.index < PowerOfTen(12) {
      PaddedInOrder(k1.index, k2.index, 12);
      LexInContext(LOG_ENTRY_PREFIX, IndexPart(k1.index), IndexPart(k2.index), AfterIndex(k1), AfterIndex(k2));
    } else if k1.EntryChunk? && k2.EntryChunk? && k1.index == k2.index && k1.chunk < k2.chunk < PowerOfTen(6) {
      PaddedInOrder(k1.chunk, k2.chunk, 6);
      var p := LOG_ENTRY_PREFIX + IndexPart(k1.index) + "/chunk/";
      LexInContext(p, PadStart(Decimal(k1.chunk), 6), PadStart(Decimal(k2.chunk), 6), "", "");
      assert Render(k1) == p + PadStart(Decimal(k1.chunk), 6) + "";
      assert Render(k2) == p + PadStart(Decimal(k2.chunk), 6) + "";
    }
  }
}
