/**
 * Cutting a text into UTF-8 chunks (RFC 3629) that can be decoded one by one.
 * Texts are sequences of Unicode scalar values.
 */
module Utf8Chunks {
  import opened Options

  newtype Byte = b: int | 0 <= b < 256
  type Scalar = c: int | 0 <= c < 0xD800 || 0xE000 <= c < 0x110000
  type Text = seq<Scalar>

  const BOM: Scalar := 0xFEFF

  // ------------------------------------------------------------ encoding

  /** Section 3 of RFC 3629. */
  function EncodeOne(c: Scalar): (r: seq<Byte>)
    ensures 1 <= |r| <= 4
  {
    if c < 0x80 then [c as Byte]
    else if c < 0x800 then [(0xC0 + c / 64) as Byte, (0x80 + c % 64) as Byte]
    else if c < 0x10000 then [(0xE0 + c / 4096) as Byte, (0x80 + c / 64 % 64) as Byte, (0x80 + c % 64) as Byte]
    else [(0xF0 + c / 262144) as Byte, (0x80 + c / 4096 % 64) as Byte, (0x80 + c / 64 % 64) as Byte, (0x80 + c % 64) as Byte]
  }

  function Encode(text: Text): seq<Byte> {
    if text == [] then [] else EncodeOne(text[0]) + Encode(text[1..])
  }

  /** `(byte & 0xc0) === 0x80`. */
  predicate IsContinuation(b: Byte) {
    0x80 <= b < 0xC0
  }

  lemma OneLeadByte(c: Scalar)
    ensures !IsContinuation(EncodeOne(c)[0])
    ensures forall j :: 0 < j < |EncodeOne(c)| ==> IsContinuation(EncodeOne(c)[j])
  {}

  lemma {:induction false} EncodeConcat(s: Text, t: Text)
    ensures Encode(s + t) == Encode(s) + Encode(t)
  {
    hide Encode, EncodeOne;
    NothingEncoded();
    if s == [] {
      assert s + t == t;
    } else {
      EncodeConcat(s[1..], t);
      EncodeFirst(s);
      EncodeFirst(s + t);
      assert (s + t)[1..] == s[1..] + t;
    }
  }

  lemma NothingEncoded()
    ensures Encode([]) == []
  {}

  lemma EncodeFirst(text: Text)
    requires text != []
    ensures Encode(text) == EncodeOne(text[0]) + Encode(text[1..])
  {}

  // ------------------------------------------------------------ decoding

  /** The first scalar of a byte sequence and its length, if the bytes begin with a well-formed one. */
  function DecodeOne(bytes: seq<Byte>): (r: Option<(Scalar, nat)>)
    ensures r.Some? ==> 1 <= r.value.1 <= |bytes| && r.value.1 <= 4
  {
    if bytes == [] then None
    else
      var b0 := bytes[0] as int;
      if b0 < 0x80 then Some((b0, 1))
      else if 0xC2 <= b0 < 0xE0 then
        if |bytes| >= 2 && IsContinuation(bytes[1])
        then Some(((b0 - 0xC0) * 64 + (bytes[1] as int - 0x80), 2)) else None
      else if 0xE0 <= b0 < 0xF0 then
        if |bytes| >= 3 && IsContinuation(bytes[1]) && IsContinuation(bytes[2]) then
          var c := (b0 - 0xE0) * 4096 + (bytes[1] as int - 0x80) * 64 + (bytes[2] as int - 0x80);
          if 0x800 <= c && !(0xD800 <= c < 0xE000) then Some((c, 3)) else None
        else None
      else if 0xF0 <= b0 < 0xF5 then
        if |bytes| >= 4 && IsContinuation(bytes[1]) && IsContinuation(bytes[2]) && IsContinuation(bytes[3]) then
          var c := (b0 - 0xF0) * 262144 + (bytes[1] as int - 0x80) * 4096 + (bytes[2] as int - 0x80) * 64 + (bytes[3] as int - 0x80);
          if 0x10000 <= c < 0x110000 then Some((c, 4)) else None
        else None
      else None
  }

  /** Strict decoding: `None` where the decoder would substitute U+FFFD. */
  function Decode(bytes: seq<Byte>): Option<Text>
    decreases |bytes|
  {
    if bytes == [] then Some([])
    else
      match DecodeOne(bytes)
      case None => None
      case Some((c, n)) =>
        match Decode(bytes[n..])
        case None => None
        case Some(rest) => Some([c] + rest)
  }

  /** The base-64 digits of a scalar. */
  lemma Digits(c: nat)
    ensures c == c / 64 * 64 + c % 64
    ensures c / 64 == c / 4096 * 64 + c / 64 % 64
    ensures c / 4096 == c / 262144 * 64 + c / 4096 % 64
  {}

  lemma DecodeThree(c: Scalar, bytes: seq<Byte>)
    requires 0x800 <= c < 0x10000 && |bytes| >= 3
    requires bytes[0] as int == 0xE0 + c / 4096 && bytes[1] as int == 0x80 + c / 64 % 64 && bytes[2] as int == 0x80 + c % 64
    ensures DecodeOne(bytes) == Some((c, 3))
  {
    Digits(c);
  }

  lemma DecodeFour(c: Scalar, bytes: seq<Byte>)
    requires 0x10000 <= c && |bytes| >= 4
    requires bytes[0] as int == 0xF0 + c / 262144 && bytes[1] as int == 0x80 + c / 4096 % 64
    requires bytes[2] as int == 0x80 + c / 64 % 64 && bytes[3] as int == 0x80 + c % 64
    ensures DecodeOne(bytes) == Some((c, 4))
  {
    Digits(c);
  }

  lemma DecodeOneEncoded(c: Scalar, rest: seq<Byte>)
    ensures DecodeOne(EncodeOne(c) + rest) == Some((c, |EncodeOne(c)|))
  {
    var bytes := EncodeOne(c) + rest;
    if c < 0x800 {
      Digits(c);
      assert c >= 0x80 ==> bytes[1] as int == 0x80 + c % 64;
    } else if c < 0x10000 {
      DecodeThree(c, bytes);
    } else {
      DecodeFour(c, bytes);
    }
  }

  /** Decoding undoes encoding. */
  lemma {:induction false} DecodeEncoded(text: Text)
    ensures Decode(Encode(text)) == Some(text)
  {
    hide EncodeOne, DecodeOne;
    if text != [] {
      var one, rest := EncodeOne(text[0]), Encode(text[1..]);
      DecodeOneEncoded(text[0], rest);
      DecodeEncoded(text[1..]);
      var bytes := one + rest;
      assert Encode(text) == bytes && bytes != [];
      assert bytes[|one|..] == rest;
      assert [text[0]] + text[1..] == text;
    }
  }

  /** Encoding undoes decoding: only well-formed bytes decode. */
  lemma {:induction false} EncodeDecoded(bytes: seq<Byte>)
    requires Decode(bytes).Some?
    ensures Encode(Decode(bytes).value) == bytes
    decreases |bytes|
  {
    hide EncodeOne, DecodeOne;
    if bytes != [] {
      var (c, n) := DecodeOne(bytes).value;
      EncodeDecodedOne(bytes);
      EncodeDecoded(bytes[n..]);
      var rest := Decode(bytes[n..]).value;
      assert ([c] + rest)[1..] == rest;
      assert bytes == bytes[..n] + bytes[n..];
    }
  }

  lemma EncodeDecodedOne(bytes: seq<Byte>)
    requires DecodeOne(bytes).Some?
    ensures EncodeOne(DecodeOne(bytes).value.0) == bytes[..DecodeOne(bytes).value.1]
  {
    var n := DecodeOne(bytes).value.1;
    if n == 3 {
      EncodeThreeDecoded(bytes);
    } else if n == 4 {
      EncodeFourDecoded(bytes);
    } else if n == 2 {
      var c := DecodeOne(bytes).value.0;
      assert c / 64 == bytes[0] as int - 0xC0 && c % 64 == bytes[1] as int - 0x80;
    }
  }

  lemma EncodeThreeDecoded(bytes: seq<Byte>)
    requires DecodeOne(bytes).Some? && DecodeOne(bytes).value.1 == 3
    ensures EncodeOne(DecodeOne(bytes).value.0) == bytes[..3]
  {
    DigitsThree(bytes[0] as int - 0xE0, bytes[1] as int - 0x80, bytes[2] as int - 0x80);
  }

  lemma EncodeFourDecoded(bytes: seq<Byte>)
    requires DecodeOne(bytes).Some? && DecodeOne(bytes).value.1 == 4
    ensures EncodeOne(DecodeOne(bytes).value.0) == bytes[..4]
  {
    DigitsFour(bytes[0] as int - 0xF0, bytes[1] as int - 0x80, bytes[2] as int - 0x80, bytes[3] as int - 0x80);
  }

  lemma DigitsThree(x: nat, y: nat, z: nat)
    requires y < 64 && z < 64
    ensures
      var c := x * 4096 + y * 64 + z;
      c / 4096 == x && c / 64 % 64 == y && c % 64 == z
  {
    var c := x * 4096 + y * 64 + z;
    assert c / 64 == x * 64 + y;
  }

  lemma DigitsFour(w: nat, x: nat, y: nat, z: nat)
    requires x < 64 && y < 64 && z < 64
    ensures
      var c := w * 262144 + x * 4096 + y * 64 + z;
      c / 262144 == w && c / 4096 % 64 == x && c / 64 % 64 == y && c % 64 == z
  {
    var c := w * 262144 + x * 4096 + y * 64 + z;
    assert c / 64 == w * 4096 + x * 64 + y;
    assert c / 4096 == w * 64 + x;
  }

  /** One non-streaming `TextDecoder.decode`: a leading byte order mark is dropped. */
  function TextDecode(bytes: seq<Byte>): Option<Text> {
    match Decode(bytes)
    case None => None
    case Some(text) => Some(DropBom(text))
  }

  function DropBom(text: Text): Text {
    if text != [] && text[0] == BOM then text[1..] else text
  }

  // ------------------------------------------------------------ chunking

  /** `findChunkEnd`: steps back while the byte at `end` continues a character. */
  function FindChunkEnd(bytes: seq<Byte>, end: int): int {
    if 0 <= end < |bytes| && IsContinuation(bytes[end]) then FindChunkEnd(bytes, end - 1) else end
  }

  /** `readChunks`, before decoding; `None` if it would stay at one offset forever. */
  function ReadChunks(bytes: seq<Byte>, offset: nat, limit: nat): Option<seq<seq<Byte>>>
    decreases |bytes| - offset
  {
    if offset >= |bytes| then Some([])
    else
      var end := FindChunkEnd(bytes, if offset + limit < |bytes| then offset + limit else |bytes|);
      if end <= offset || end > |bytes| then None
      else
        match ReadChunks(bytes, end, limit)
        case None => None
        case Some(rest) => Some([bytes[offset..end]] + rest)
  }

  /** How many whole characters fit into `limit` bytes. */
  function CharsWithin(text: Text, limit: nat): (n: nat)
    ensures n <= |text|
  {
    if text == [] || |EncodeOne(text[0])| > limit then 0
    else 1 + CharsWithin(text[1..], limit - |EncodeOne(text[0])|)
  }

  /** The chunks as texts: as many whole characters as fit, then the rest. */
  function TextChunks(text: Text, limit: nat): seq<Text>
    requires limit >= 4
    decreases |text|
  {
    if text == [] then []
    else
      var n := CharsWithin(text, limit);
      assert n > 0;
      [text[..n]] + TextChunks(text[n..], limit)
  }

  function EncodeAll(chunks: seq<Text>): seq<seq<Byte>> {
    if chunks == [] then [] else [Encode(chunks[0])] + EncodeAll(chunks[1..])
  }

  lemma {:induction false} CharsWithinFits(text: Text, limit: nat)
    ensures
      var n := CharsWithin(text, limit);
      && |Encode(text[..n])| <= limit
      && (n < |text| ==> |Encode(text[..n])| + |EncodeOne(text[n])| > limit)
  {
    if text != [] && |EncodeOne(text[0])| <= limit {
      var n := CharsWithin(text, limit);
      CharsWithinFits(text[1..], limit - |EncodeOne(text[0])|);
      assert text[..n][1..] == text[1..][..n - 1];
    }
  }

  /** Stepping back from `end` stops at `start` when only continuation bytes lie between. */
  lemma {:induction false} FindStops(bytes: seq<Byte>, start: nat, end: nat)
    requires start <= end < |bytes| && !IsContinuation(bytes[start])
    requires forall j :: start < j <= end ==> IsContinuation(bytes[j])
    ensures FindChunkEnd(bytes, end) == start
    decreases end - start
  {
    if start < end { FindStops(bytes, start, end - 1); }
  }

  /** The bytes before position `k`, of the next `n` characters, and of the rest. */
  lemma {:induction false} SplitAt(text: Text, k: nat, n: nat)
    requires k + n <= |text|
    ensures Encode(text[..k + n]) == Encode(text[..k]) + Encode(text[k..k + n])
    ensures Encode(text) == Encode(text[..k + n]) + Encode(text[k + n..])
  {
    hide Encode;
    assert text[..k + n] == text[..k] + text[k..k + n];
    assert text == text[..k + n] + text[k + n..];
    EncodeConcat(text[..k], text[k..k + n]);
    EncodeConcat(text[..k + n], text[k + n..]);
  }

  /** Where `findChunkEnd` starts looking. */
  function Furthest(bytes: seq<Byte>, offset: nat, limit: nat): nat
    requires offset <= |bytes|
  {
    if offset + limit < |bytes| then offset + limit else |bytes|
  }

  /** A character that starts at `s` and reaches past `end`: `findChunkEnd` steps back to `s`. */
  lemma {:induction false} StepsBackTo(bytes: seq<Byte>, c: Scalar, s: nat, end: nat)
    requires s + |EncodeOne(c)| <= |bytes| && bytes[s..s + |EncodeOne(c)|] == EncodeOne(c)
    requires s <= end < s + |EncodeOne(c)|
    ensures FindChunkEnd(bytes, end) == s
  {
    hide EncodeOne;
    OneLeadByte(c);
    var one := bytes[s..s + |EncodeOne(c)|];
    assert bytes[s] == one[0];
    forall j | s < j <= end ensures IsContinuation(bytes[j]) {
      assert bytes[j] == one[j - s];
    }
    FindStops(bytes, s, end);
  }

  /**
   * From any character boundary, `findChunkEnd` lands on the last boundary within the limit,
   * at most three bytes back.
   */
  lemma {:induction false} FindsBoundary(text: Text, k: nat, limit: nat)
    requires k <= |text|
    ensures |Encode(text[..k])| <= |Encode(text)|
    ensures
      var bytes, n := Encode(text), CharsWithin(text[k..], limit);
      var end := Furthest(bytes, |Encode(text[..k])|, limit);
      FindChunkEnd(bytes, end) == |Encode(text[..k + n])| && end - 3 <= |Encode(text[..k + n])| <= end
  {
    hide EncodeOne, Encode, CharsWithin;
    var bytes, n := Encode(text), CharsWithin(text[k..], limit);
    SplitAt(text, k, 0);
    SplitAt(text, k, n);
    CharsWithinFits(text[k..], limit);
    assert text[k..][..n] == text[k..k + n];
    var s, end := |Encode(text[..k + n])|, Furthest(bytes, |Encode(text[..k])|, limit);
    if k + n < |text| {
      var c := text[k + n];
      EncodeFirst(text[k + n..]);
      assert text[k..][n] == c;
      assert bytes[s..s + |EncodeOne(c)|] == EncodeOne(c);
      StepsBackTo(bytes, c, s, end);
    } else {
      assert text[..k + n] == text;
    }
  }

  /** With a limit of at least four bytes the loop always advances and cuts on character boundaries. */
  lemma {:induction false} ReadsTextChunks(text: Text, k: nat, limit: nat)
    requires limit >= 4 && k <= |text|
    ensures ReadChunks(Encode(text), |Encode(text[..k])|, limit) == Some(EncodeAll(TextChunks(text[k..], limit)))
    decreases |text| - k
  {
    hide EncodeOne, Encode, CharsWithin, FindChunkEnd;
    var bytes, offset := Encode(text), |Encode(text[..k])|;
    if k == |text| {
      assert text[..k] == text;
    } else {
      var n := CharsWithin(text[k..], limit);
      SomeFits(text[k..], limit);
      FindsBoundary(text, k, limit);
      SplitAt(text, k, n);
      EncodeFirst(text[k..k + n]);
      ReadsTextChunks(text, k + n, limit);
      var end := |Encode(text[..k + n])|;
      assert bytes[offset..end] == Encode(text[k..k + n]);
      assert text[k..][n..] == text[k + n..] && text[k..][..n] == text[k..k + n];
      var chunks := TextChunks(text[k..], limit);
      assert chunks == [text[k..k + n]] + TextChunks(text[k + n..], limit);
      assert chunks[1..] == TextChunks(text[k + n..], limit);
    }
  }

  lemma SomeFits(text: Text, limit: nat)
    requires limit >= 4 && text != []
    ensures CharsWithin(text, limit) > 0
  {}

  /** For a limit below four there are texts on which it never advances. */
  lemma LimitOfFourNeeded(limit: nat)
    requires limit < 4
    ensures ReadChunks(Encode([0x10000]), 0, limit) == None
  {
    var bytes := Encode([0x10000]);
    assert bytes == EncodeOne(0x10000);
    OneLeadByte(0x10000);
    FindStops(bytes, 0, limit);
  }

  /** The chunks make up the text, none is empty, and each encodes within the limit. */
  lemma {:induction false} ChunksPartition(text: Text, limit: nat)
    requires limit >= 4
    ensures Join(TextChunks(text, limit)) == text
    ensures forall i :: 0 <= i < |TextChunks(text, limit)| ==>
              TextChunks(text, limit)[i] != [] && |Encode(TextChunks(text, limit)[i])| <= limit
    decreases |text|
  {
    hide EncodeOne, Encode, CharsWithin;
    if text != [] {
      var n := CharsWithin(text, limit);
      SomeFits(text, limit);
      CharsWithinFits(text, limit);
      ChunksPartition(text[n..], limit);
      var chunks := TextChunks(text, limit);
      assert chunks == [text[..n]] + TextChunks(text[n..], limit);
      assert chunks[1..] == TextChunks(text[n..], limit);
    }
  }

  function Join(chunks: seq<Text>): Text {
    if chunks == [] then [] else chunks[0] + Join(chunks[1..])
  }

  /**
   * A greedy cut of the text: no empty chunk, none beyond the limit, and none that leaves room
   * for the first character of the chunk after it.
   */
  ghost predicate Chunking(text: Text, limit: nat, chunks: seq<Text>) {
    && Join(chunks) == text
    && (forall i :: 0 <= i < |chunks| ==> chunks[i] != [] && |Encode(chunks[i])| <= limit)
    && (forall i :: 0 < i < |chunks| ==> |Encode(chunks[i - 1])| + |EncodeOne(chunks[i][0])| > limit)
  }

  /** The chunks are the one greedy cut there is. */
  lemma {:induction false} ChunkingIff(text: Text, limit: nat, chunks: seq<Text>)
    requires limit >= 4
    ensures Chunking(text, limit, chunks) <==> chunks == TextChunks(text, limit)
  {
    if Chunking(text, limit, chunks) {
      ChunkingUnique(text, limit, chunks);
    }
    ChunksGreedy(text, limit);
  }

  lemma {:induction false} ChunksGreedy(text: Text, limit: nat)
    requires limit >= 4
    ensures Chunking(text, limit, TextChunks(text, limit))
    decreases |text|
  {
    hide EncodeOne, Encode, CharsWithin;
    if text != [] {
      var n, chunks := CharsWithin(text, limit), TextChunks(text, limit);
      SomeFits(text, limit);
      CharsWithinFits(text, limit);
      ChunksPartition(text, limit);
      var rest := TextChunks(text[n..], limit);
      ChunksGreedy(text[n..], limit);
      assert chunks == [text[..n]] + rest;
      forall i | 0 < i < |chunks| ensures |Encode(chunks[i - 1])| + |EncodeOne(chunks[i][0])| > limit {
        if i == 1 {
          assert rest[0] == text[n..][..CharsWithin(text[n..], limit)];
          assert chunks[1][0] == text[n];
        } else {
          assert chunks[i] == rest[i - 1] && chunks[i - 1] == rest[i - 2];
        }
      }
    }
  }

  /** Whole characters that fit, with no room for the one after them, are all that fit. */
  lemma {:induction false} FitsAre(text: Text, limit: nat, n: nat)
    requires n <= |text| && |Encode(text[..n])| <= limit
    requires n < |text| ==> |Encode(text[..n])| + |EncodeOne(text[n])| > limit
    ensures CharsWithin(text, limit) == n
  {
    hide EncodeOne;
    if n > 0 {
      assert text[..n][1..] == text[1..][..n - 1];
      FitsAre(text[1..], limit - |EncodeOne(text[0])|, n - 1);
    }
  }

  lemma {:induction false} ChunkingUnique(text: Text, limit: nat, chunks: seq<Text>)
    requires limit >= 4 && Chunking(text, limit, chunks)
    ensures chunks == TextChunks(text, limit)
    decreases |chunks|
  {
    hide EncodeOne, Encode, CharsWithin;
    if chunks != [] {
      var n := |chunks[0]|;
      var rest := chunks[1..];
      assert text[..n] == chunks[0] && text[n..] == Join(rest);
      if rest != [] {
        assert text[n..][..|rest[0]|] == rest[0];
        assert text[n] == rest[0][0];
      }
      FitsAre(text, limit, n);
      ChunkingUnique(text[n..], limit, rest);
    }
  }

  // ------------------------------------------------------------ the round trip

  function DecodeAll(chunks: seq<seq<Byte>>): Option<seq<Text>> {
    if chunks == [] then Some([])
    else
      match (TextDecode(chunks[0]), DecodeAll(chunks[1..]))
      case (Some(first), Some(rest)) => Some([first] + rest)
      case _ => None
  }

  /** `serializeEntry` on an encoded entry: the chunk texts that are stored. */
  function Serialize(text: Text, limit: nat): Option<seq<Text>> {
    match ReadChunks(Encode(text), 0, limit)
    case None => None
    case Some(chunks) => DecodeAll(chunks)
  }

  function DropBoms(chunks: seq<Text>): seq<Text> {
    if chunks == [] then [] else [DropBom(chunks[0])] + DropBoms(chunks[1..])
  }

  lemma {:induction false} DecodeAllEncoded(chunks: seq<Text>)
    ensures DecodeAll(EncodeAll(chunks)) == Some(DropBoms(chunks))
  {
    if chunks != [] {
      DecodeEncoded(chunks[0]);
      DecodeAllEncoded(chunks[1..]);
    }
  }

  /** What is stored is the chunk texts, each without a byte order mark at its start. */
  lemma {:induction false} SerializeIs(text: Text, limit: nat)
    requires limit >= 4
    ensures Serialize(text, limit) == Some(DropBoms(TextChunks(text, limit)))
  {
    ReadsTextChunks(text, 0, limit);
    assert text[..0] == [] && text[0..] == text;
    DecodeAllEncoded(TextChunks(text, limit));
  }

  /** No chunk begins with a byte order mark. */
  ghost predicate CutsCleanly(text: Text, limit: nat)
    requires limit >= 4
  {
    forall i :: 0 <= i < |TextChunks(text, limit)| ==>
      TextChunks(text, limit)[i] != [] && TextChunks(text, limit)[i][0] != BOM
  }

  lemma {:induction false} DropBomsLength(chunks: seq<Text>)
    ensures |Join(DropBoms(chunks))| <= |Join(chunks)|
    ensures |Join(DropBoms(chunks))| == |Join(chunks)| <==>
            forall i :: 0 <= i < |chunks| ==> chunks[i] == [] || chunks[i][0] != BOM
    ensures (forall i :: 0 <= i < |chunks| ==> chunks[i] == [] || chunks[i][0] != BOM) ==> DropBoms(chunks) == chunks
  {
    if chunks != [] {
      DropBomsLength(chunks[1..]);
      assert (forall i :: 0 <= i < |chunks| ==> chunks[i] == [] || chunks[i][0] != BOM) <==>
             ((chunks[0] == [] || chunks[0][0] != BOM) &&
              forall i :: 0 <= i < |chunks[1..]| ==> chunks[1..][i] == [] || chunks[1..][i][0] != BOM) by {
        assert forall i :: 0 < i < |chunks| ==> chunks[i] == chunks[1..][i - 1];
      }
    }
  }

  /**
   * Joining the stored chunks gives the text back exactly when no chunk begins with a byte
   * order mark. A text without U+FEFF always qualifies.
   */
  lemma {:induction false} RoundTrip(text: Text, limit: nat)
    requires limit >= 4
    ensures Serialize(text, limit).Some?
    ensures Join(Serialize(text, limit).value) == text <==> CutsCleanly(text, limit)
    ensures BOM !in text ==> CutsCleanly(text, limit)
  {
    SerializeIs(text, limit);
    var chunks := TextChunks(text, limit);
    ChunksPartition(text, limit);
    DropBomsLength(chunks);
    if BOM !in text {
      forall i | 0 <= i < |chunks| ensures chunks[i] != [] && chunks[i][0] != BOM {
        InJoin(chunks, i);
      }
    }
  }

  lemma {:induction false} InJoin(chunks: seq<Text>, i: nat)
    requires i < |chunks|
    ensures forall c :: c in chunks[i] ==> c in Join(chunks)
  {
    if i > 0 { InJoin(chunks[1..], i - 1); }
  }

  /** At every limit some text is not recovered: one whose second chunk begins with U+FEFF. */
  lemma BomAfterFullChunkIsLost(limit: nat)
    requires limit >= 4
    ensures exists text: Text :: Serialize(text, limit).Some? && Join(Serialize(text, limit).value) != text
  {
    var filler: Text := seq(limit, i => 0x61);
    var text := filler + [BOM];
    FillerFits(text, limit);
    assert text[limit..] == [BOM];
    assert TextChunks(text, limit)[1] == TextChunks(text[limit..], limit)[0];
    assert CharsWithin([BOM], limit) == 1 by { assert EncodeOne(BOM) == [0xEF, 0xBB, 0xBF]; }
    assert TextChunks([BOM], limit)[0] == [BOM][..1];
    RoundTrip(text, limit);
  }

  lemma {:induction false} FillerFits(text: Text, n: nat)
    requires |text| == n + 1 && (forall i :: 0 <= i < n ==> text[i] == 0x61) && text[n] == BOM
    ensures CharsWithin(text, n) == n
  {
    if n > 0 { FillerFits(text[1..], n - 1); }
  }
}
