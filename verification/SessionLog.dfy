/**
 * The append-only session log over a key-value store.
 *
 * The store is indexed by `Key`; `SessionKeys.KeysNeverCollide` is what makes that the
 * same as a store indexed by the rendered strings. An entry's JSON text goes through a
 * codec that is a parameter.
 */
module SessionLog {
  import opened Options
  import opened Utf8Chunks
  import opened SessionKeys

  const SESSION_LOG_CHUNK_BYTES: nat := 120 * 1024
  const MAX_SAFE_INTEGER: int := 9007199254740991

  // ------------------------------------------------------------ stored values

  datatype Stored =
    | TextValue(text: Text)
    | NumberValue(number: int)
    | RecordValue(fields: map<string, Stored>)
    | OtherValue

  type Store = map<Key, Stored>

  function Get(kv: Store, key: Key): Option<Stored> {
    if key in kv then Some(kv[key]) else None
  }

  datatype Meta = Meta(count: nat, headId: Option<Text>)

  /** `parseMeta`: anything but a record with a safe, non-negative count reads as an empty log. */
  function ParseMeta(value: Option<Stored>): Meta {
    if value.None? || !value.value.RecordValue? then Meta(0, None)
    else
      var fields := value.value.fields;
      if "count" !in fields || !fields["count"].NumberValue? then Meta(0, None)
      else
        var count := fields["count"].number;
        if count < 0 || count > MAX_SAFE_INTEGER then Meta(0, None)
        else if "headId" in fields && fields["headId"].TextValue? then Meta(count, Some(fields["headId"].text))
        else Meta(count, None)
  }

  /** `parseEntryMeta`. */
  function ParseEntryMeta(value: Option<Stored>): Option<nat> {
    if value.None? || !value.value.RecordValue? then None
    else
      var fields := value.value.fields;
      if "chunks" !in fields || !fields["chunks"].NumberValue? then None
      else
        var chunks := fields["chunks"].number;
        if chunks <= 0 || chunks > MAX_SAFE_INTEGER then None else Some(chunks)
  }

  function MetaRecord(meta: Meta): Stored {
    RecordValue(map["count" := NumberValue(meta.count)]
                + if meta.headId.Some? then map["headId" := TextValue(meta.headId.value)] else map[])
  }

  function EntryRecord(chunks: nat): Stored {
    RecordValue(map["chunks" := NumberValue(chunks)])
  }

  // ------------------------------------------------------------ entries

  datatype Body =
    | Message(message: Text)
    | ModelChange(provider: string, modelId: string)
    | Compaction(summary: Text, firstKeptEntryId: Text)
    | BranchSummary(summary: Text, fromEntryId: Text)
    | Label(text: Text)

  datatype Entry = Entry(id: Text, parentId: Option<Text>, timestamp: int, body: Body)

  /** JSON encoding and decoding of entries. */
  datatype Codec = Codec(encode: Entry -> Text, decode: Text -> Option<Entry>)

  /** An entry the storage format can hold: decodable, non-empty and cut cleanly into chunks. */
  ghost predicate Storable(codec: Codec, e: Entry) {
    var text := codec.encode(e);
    && codec.decode(text) == Some(e)
    && text != []
    && |text| <= MAX_SAFE_INTEGER
    && CutsCleanly(text, SESSION_LOG_CHUNK_BYTES)
  }

  /** The chunk texts of an entry. */
  function ChunksOf(codec: Codec, e: Entry): seq<Text> {
    match Serialize(codec.encode(e), SESSION_LOG_CHUNK_BYTES)
    case Some(chunks) => chunks
    case None => []
  }

  // ------------------------------------------------------------ reading

  /** The first `n` chunk texts of entry `index`; `None` when one is missing. */
  function ReadChunkTexts(kv: Store, index: nat, n: nat): Option<seq<Text>> {
    if n == 0 then Some([])
    else
      match ReadChunkTexts(kv, index, n - 1)
      case None => None
      case Some(chunks) =>
        match Get(kv, EntryChunk(index, n - 1))
        case Some(TextValue(text)) => Some(chunks + [text])
        case _ => None
  }

  /** `readEntry`: `None` where the source dies. */
  function ReadEntry(kv: Store, index: nat, codec: Codec): Option<Entry> {
    match ParseEntryMeta(Get(kv, EntryMeta(index)))
    case None => None
    case Some(n) =>
      match ReadChunkTexts(kv, index, n)
      case None => None
      case Some(chunks) => codec.decode(Join(chunks))
  }

  function ReadUpTo(kv: Store, count: nat, codec: Codec): Option<seq<Entry>> {
    if count == 0 then Some([])
    else
      match (ReadUpTo(kv, count - 1, codec), ReadEntry(kv, count - 1, codec))
      case (Some(entries), Some(e)) => Some(entries + [e])
      case _ => None
  }

  /** `readSessionLog`. */
  function ReadLog(kv: Store, codec: Codec): Option<seq<Entry>> {
    ReadUpTo(kv, ParseMeta(Get(kv, LogMeta)).count, codec)
  }

  /** The log reads as `log` exactly if each counted entry reads as the one in its place. */
  lemma {:induction false} ReadLogIff(kv: Store, codec: Codec, log: seq<Entry>)
    ensures ReadLog(kv, codec) == Some(log) <==>
            && |log| == ParseMeta(Get(kv, LogMeta)).count
            && forall i: nat :: i < |log| ==> ReadEntry(kv, i, codec) == Some(log[i])
  {
    hide ParseMeta, ReadEntry;
    ReadUpToIff(kv, ParseMeta(Get(kv, LogMeta)).count, codec, log);
  }

  /** The log reads as empty unless its record counts a positive safe number of entries; a malformed record is none. */
  lemma EmptyLogIff(kv: Store, codec: Codec)
    ensures ReadLog(kv, codec) == Some([]) <==>
            !(&& LogMeta in kv && kv[LogMeta].RecordValue? && "count" in kv[LogMeta].fields
              && exists n: int :: 0 < n <= 9007199254740991 && kv[LogMeta].fields["count"] == NumberValue(n))
  {
    ReadLogIff(kv, codec, []);
    var count := ParseMeta(Get(kv, LogMeta)).count;
    assert count > 0 ==> kv[LogMeta].fields["count"] == NumberValue(count);
  }

  lemma {:induction false} ReadUpToIff(kv: Store, count: nat, codec: Codec, log: seq<Entry>)
    ensures ReadUpTo(kv, count, codec) == Some(log) <==>
            && |log| == count
            && forall i: nat :: i < |log| ==> ReadEntry(kv, i, codec) == Some(log[i])
  {
    hide ReadEntry;
    if count > 0 {
      var n := count - 1;
      if ReadUpTo(kv, count, codec) == Some(log) {
        var earlier := ReadUpTo(kv, n, codec).value;
        ReadUpToIff(kv, n, codec, earlier);
        assert log == earlier + [ReadEntry(kv, n, codec).value];
      }
      if |log| == count {
        ReadUpToIff(kv, n, codec, log[..n]);
        assert log[..n] + [log[n]] == log;
      }
    }
  }

  /**
   * An entry is read exactly if its record counts its chunks, each of them is stored as a text,
   * and the texts together decode.
   */
  lemma {:induction false} ReadEntryIff(kv: Store, index: nat, codec: Codec, e: Entry)
    ensures ReadEntry(kv, index, codec) == Some(e) <==>
            exists texts: seq<Text> :: StoredAs(kv, index, texts) && codec.decode(Join(texts)) == Some(e)
  {
    hide Join;
    var count := ParseEntryMeta(Get(kv, EntryMeta(index)));
    if ReadEntry(kv, index, codec) == Some(e) {
      var texts := ReadChunkTexts(kv, index, count.value).value;
      ReadChunkTextsIff(kv, index, count.value, texts);
      assert StoredAs(kv, index, texts);
    }
    if texts: seq<Text> :| StoredAs(kv, index, texts) && codec.decode(Join(texts)) == Some(e) {
      assert count == Some(|texts|);
      ReadChunkTextsIff(kv, index, |texts|, texts);
    }
  }

  ghost predicate StoredAs(kv: Store, index: nat, texts: seq<Text>) {
    && 0 < |texts| <= MAX_SAFE_INTEGER
    && EntryMeta(index) in kv && kv[EntryMeta(index)].RecordValue?
    && "chunks" in kv[EntryMeta(index)].fields && kv[EntryMeta(index)].fields["chunks"] == NumberValue(|texts|)
    && forall c: nat :: c < |texts| ==> Get(kv, EntryChunk(index, c)) == Some(TextValue(texts[c]))
  }

  lemma {:induction false} ReadChunkTextsIff(kv: Store, index: nat, n: nat, texts: seq<Text>)
    ensures ReadChunkTexts(kv, index, n) == Some(texts) <==>
            |texts| == n && forall c: nat :: c < n ==> Get(kv, EntryChunk(index, c)) == Some(TextValue(texts[c]))
  {
    if n > 0 {
      if ReadChunkTexts(kv, index, n) == Some(texts) {
        var earlier := ReadChunkTexts(kv, index, n - 1).value;
        ReadChunkTextsIff(kv, index, n - 1, earlier);
        assert texts == earlier + [texts[|texts| - 1]];
      }
      if |texts| == n {
        ReadChunkTextsIff(kv, index, n - 1, texts[..n - 1]);
        assert texts[..n - 1] + [texts[n - 1]] == texts;
      }
    }
  }

  // ------------------------------------------------------------ appending

  /** One write to the store. */
  datatype Put = Put(key: Key, value: Stored)

  function Apply(kv: Store, puts: seq<Put>): Store {
    if puts == [] then kv
    else Apply(kv, puts[..|puts| - 1])[puts[|puts| - 1].key := puts[|puts| - 1].value]
  }

  function ChunkPuts(index: nat, chunks: seq<Text>): seq<Put> {
    if chunks == [] then []
    else ChunkPuts(index, chunks[..|chunks| - 1]) + [Put(EntryChunk(index, |chunks| - 1), TextValue(chunks[|chunks| - 1]))]
  }

  function EntryPuts(index: nat, chunks: seq<Text>): seq<Put> {
    ChunkPuts(index, chunks) + [Put(EntryMeta(index), EntryRecord(|chunks|))]
  }

  /** The entries an append stamps: fresh ids and times, each one the child of the one before. */
  function Stamped(head: Option<Text>, bodies: seq<Body>, ids: nat -> Text, clock: nat -> int): (r: seq<Entry>)
    ensures |r| == |bodies|
  {
    if bodies == [] then []
    else
      var n := |bodies| - 1;
      Stamped(head, bodies[..n], ids, clock)
      + [Entry(ids(n), if n == 0 then head else Some(ids(n - 1)), clock(n), bodies[n])]
  }

  function AllEntryPuts(start: nat, entries: seq<Entry>, codec: Codec): seq<Put> {
    if entries == [] then []
    else
      var n := |entries| - 1;
      AllEntryPuts(start, entries[..n], codec) + EntryPuts(start + n, ChunksOf(codec, entries[n]))
  }

  function HeadAfter(meta: Meta, entries: seq<Entry>): Meta {
    if entries == [] then meta else Meta(meta.count + |entries|, Some(entries[|entries| - 1].id))
  }

  /** All writes of one append, in order: every entry's chunks and record, then the log record. */
  function AppendPuts(meta: Meta, entries: seq<Entry>, codec: Codec): seq<Put> {
    if entries == [] then []
    else AllEntryPuts(meta.count, entries, codec) + [Put(LogMeta, MetaRecord(HeadAfter(meta, entries)))]
  }

  // ------------------------------------------------------------ what is written

  /**
   * The writes of one entry: a greedy cut of its text, each chunk without a byte order mark at
   * its start, under the entry's chunk keys in order, and then how many there are.
   */
  ghost predicate WritesEntry(puts: seq<Put>, index: nat, text: Text) {
    exists raw: seq<Text> | Chunking(text, 122880, raw) ::
      && |puts| == |raw| + 1
      && (forall c: nat :: c < |raw| ==> WritesChunk(puts[c], index, c, raw[c]))
      && puts[|raw|] == Put(EntryMeta(index), RecordValue(map["chunks" := NumberValue(|raw|)]))
  }

  ghost predicate WritesChunk(put: Put, index: nat, c: nat, raw: Text) {
    && put.key == EntryChunk(index, c)
    && put.value.TextValue?
    && (put.value.text == raw || [BOM] + put.value.text == raw)
    && (raw != [] && raw[0] == BOM ==> put.value.text != raw)
  }

  /** The writes of entries one after another, in slots from `start` on. */
  ghost predicate WritesEntries(puts: seq<Put>, start: nat, entries: seq<Entry>, codec: Codec)
    decreases |entries|
  {
    if entries == [] then puts == []
    else
      var n := |entries| - 1;
      exists k | 0 <= k <= |puts| ::
        && WritesEntries(puts[..k], start, entries[..n], codec)
        && WritesEntry(puts[k..], start + n, codec.encode(entries[n]))
  }

  /** The writes of an append: its entries after those already counted, then the log record. */
  ghost predicate WritesAppend(puts: seq<Put>, before: Meta, entries: seq<Entry>, codec: Codec) {
    if entries == [] then puts == []
    else
      && puts != []
      && WritesEntries(puts[..|puts| - 1], before.count, entries, codec)
      && puts[|puts| - 1] == Put(LogMeta, RecordValue(map[
           "count" := NumberValue(before.count + |entries|),
           "headId" := TextValue(entries[|entries| - 1].id)]))
  }

  lemma {:induction false} ChunkPutsAt(index: nat, chunks: seq<Text>)
    ensures |ChunkPuts(index, chunks)| == |chunks|
    ensures forall c: nat :: c < |chunks| ==> ChunkPuts(index, chunks)[c] == Put(EntryChunk(index, c), TextValue(chunks[c]))
  {
    if chunks != [] { ChunkPutsAt(index, chunks[..|chunks| - 1]); }
  }

  lemma {:induction false} DropBomsAt(chunks: seq<Text>)
    ensures |DropBoms(chunks)| == |chunks|
    ensures forall c :: 0 <= c < |chunks| ==> DropBoms(chunks)[c] == DropBom(chunks[c])
  {
    if chunks != [] { DropBomsAt(chunks[1..]); }
  }

  /** Chunks written in order, made from a greedy cut by dropping byte order marks. */
  lemma CutWrites(index: nat, text: Text, raw: seq<Text>, chunks: seq<Text>)
    requires Chunking(text, 122880, raw) && |chunks| == |raw|
    requires forall c :: 0 <= c < |raw| ==> chunks[c] == DropBom(raw[c])
    ensures WritesEntry(EntryPuts(index, chunks), index, text)
  {
    hide ChunkPuts, Chunking, WritesChunk;
    ChunkPutsAt(index, chunks);
    var puts := EntryPuts(index, chunks);
    forall c: nat | c < |raw| ensures WritesChunk(puts[c], index, c, raw[c]) {
      assert puts[c] == Put(EntryChunk(index, c), TextValue(DropBom(raw[c])));
      DroppedIsChunk(index, c, raw[c]);
    }
  }

  lemma DroppedIsChunk(index: nat, c: nat, raw: Text)
    ensures WritesChunk(Put(EntryChunk(index, c), TextValue(DropBom(raw))), index, c, raw)
  {
    assert raw != [] && raw[0] == BOM ==> [BOM] + raw[1..] == raw;
  }

  lemma {:induction false} EntryWrites(index: nat, e: Entry, codec: Codec)
    ensures WritesEntry(EntryPuts(index, ChunksOf(codec, e)), index, codec.encode(e))
  {
    hide EntryPuts, TextChunks, DropBoms, Chunking, WritesEntry, Serialize;
    var text := codec.encode(e);
    var raw := TextChunks(text, SESSION_LOG_CHUNK_BYTES);
    SerializeIs(text, SESSION_LOG_CHUNK_BYTES);
    DropBomsAt(raw);
    ChunksGreedy(text, SESSION_LOG_CHUNK_BYTES);
    CutWrites(index, text, raw, DropBoms(raw));
  }

  lemma {:induction false} EntriesWrite(start: nat, entries: seq<Entry>, codec: Codec)
    ensures WritesEntries(AllEntryPuts(start, entries, codec), start, entries, codec)
  {
    hide EntryPuts, ChunksOf, WritesEntry;
    if entries != [] {
      var n := |entries| - 1;
      EntriesWrite(start, entries[..n], codec);
      EntryWrites(start + n, entries[n], codec);
      var earlier, more := AllEntryPuts(start, entries[..n], codec), EntryPuts(start + n, ChunksOf(codec, entries[n]));
      var puts := AllEntryPuts(start, entries, codec);
      assert puts[..|earlier|] == earlier && puts[|earlier|..] == more;
    }
  }

  /** Every append writes greedy cuts of its entries' texts and then the log record. */
  lemma {:induction false} AppendWrites(before: Meta, entries: seq<Entry>, codec: Codec)
    ensures WritesAppend(AppendPuts(before, entries, codec), before, entries, codec)
  {
    hide AllEntryPuts, WritesEntries;
    if entries != [] {
      EntriesWrite(before.count, entries, codec);
      var puts := AppendPuts(before, entries, codec);
      assert puts[..|puts| - 1] == AllEntryPuts(before.count, entries, codec);
      assert MetaRecord(HeadAfter(before, entries)).fields == map[
          "count" := NumberValue(before.count + |entries|), "headId" := TextValue(entries[|entries| - 1].id)];
    }
  }

  /** The write stores a chunk of an entry, within the limit of one stored value. */
  ghost predicate FitsOneValue(put: Put) {
    put.key.EntryChunk? ==> put.value.TextValue? && |Encode(put.value.text)| <= 122880
  }

  /**
   * The chunk values of one entry fit. One is empty exactly if it is the last and the text
   * left for it is a single U+FEFF, and then the entry's text ends in that character.
   * Without U+FEFF in the text, a value leaves no room for the first character of the next.
   */
  lemma {:induction false} EntryValues(puts: seq<Put>, index: nat, text: Text)
    requires WritesEntry(puts, index, text)
    ensures puts != [] && forall k :: 0 <= k < |puts| ==> FitsOneValue(puts[k])
    ensures forall k :: 0 <= k < |puts| - 1 ==> puts[k].key.EntryChunk? && puts[k].value.TextValue?
    ensures forall k :: 0 <= k < |puts| - 1 && puts[k].value.text == [] ==>
              k == |puts| - 2 && text != [] && text[|text| - 1] == BOM
    ensures BOM !in text ==> forall k :: 0 < k < |puts| - 1 ==>
              && puts[k].value.text != []
              && |Encode(puts[k - 1].value.text)| + |EncodeOne(puts[k].value.text[0])| > 122880
  {
    hide Chunking, Encode, EncodeOne, WritesChunk, Join, FitsOneValue;
    var raw: seq<Text> :| Chunking(text, SESSION_LOG_CHUNK_BYTES, raw) && |puts| == |raw| + 1
      && (forall c: nat :: c < |raw| ==> WritesChunk(puts[c], index, c, raw[c]))
      && puts[|raw|] == Put(EntryMeta(index), RecordValue(map["chunks" := NumberValue(|raw|)]));
    forall k: nat | k < |raw|
      ensures FitsOneValue(puts[k]) && puts[k].key.EntryChunk? && puts[k].value.TextValue?
      ensures puts[k].value.text == [] ==> k == |raw| - 1 && text != [] && text[|text| - 1] == BOM
    {
      ChunkValue(puts[k], text, index, k, raw);
    }
    assert FitsOneValue(puts[|raw|]) by { NotAChunk(puts[|raw|]); }
    if BOM !in text {
      forall k | 0 < k < |raw|
        ensures puts[k].value.text != [] && |Encode(puts[k - 1].value.text)| + |EncodeOne(puts[k].value.text[0])| > 122880
      {
        NoRoom(puts[k - 1], puts[k], text, index, k, raw);
      }
    }
  }

  lemma NotAChunk(put: Put)
    requires !put.key.EntryChunk?
    ensures FitsOneValue(put)
  {}

  lemma ChunkValue(put: Put, text: Text, index: nat, c: nat, raw: seq<Text>)
    requires Chunking(text, SESSION_LOG_CHUNK_BYTES, raw) && c < |raw| && WritesChunk(put, index, c, raw[c])
    ensures FitsOneValue(put) && put.key.EntryChunk? && put.value.TextValue?
    ensures put.value.text == [] ==> c == |raw| - 1 && text != [] && text[|text| - 1] == BOM
  {
    hide EncodeOne, Join;
    var next := c + 1;
    assert next < |raw| ==> |Encode(raw[next - 1])| + |EncodeOne(raw[next][0])| > SESSION_LOG_CHUNK_BYTES;
    if put.value.text != raw[c] {
      assert raw[c][1..] == put.value.text;
      EncodeFirst(raw[c]);
    }
    if put.value.text == [] {
      assert raw[c] == [BOM];
      assert Encode(raw[c][1..]) == [];
      EncodeFirst(raw[c]);
      LastOfJoin(raw);
    }
  }

  lemma {:induction false} LastOfJoin(chunks: seq<Text>)
    requires chunks != [] && chunks[|chunks| - 1] != []
    ensures Join(chunks) != []
    ensures Join(chunks)[|Join(chunks)| - 1] == chunks[|chunks| - 1][|chunks[|chunks| - 1]| - 1]
  {
    if |chunks| > 1 { LastOfJoin(chunks[1..]); }
  }

  lemma NoRoom(put1: Put, put2: Put, text: Text, index: nat, c: nat, raw: seq<Text>)
    requires Chunking(text, SESSION_LOG_CHUNK_BYTES, raw) && 0 < c < |raw| && BOM !in text
    requires WritesChunk(put1, index, c - 1, raw[c - 1]) && WritesChunk(put2, index, c, raw[c])
    ensures put2.value.text != []
    ensures |Encode(put1.value.text)| + |EncodeOne(put2.value.text[0])| > SESSION_LOG_CHUNK_BYTES
  {
    hide EncodeOne, Encode, Join;
    InJoin(raw, c - 1);
    InJoin(raw, c);
    assert raw[c - 1][0] != BOM && raw[c][0] != BOM;
  }

  /** Every chunk an append writes fits into one stored value. */
  lemma {:induction false} AppendValuesFit(puts: seq<Put>, before: Meta, entries: seq<Entry>, codec: Codec)
    requires WritesAppend(puts, before, entries, codec)
    ensures forall k :: 0 <= k < |puts| ==> FitsOneValue(puts[k])
  {
    hide WritesEntries, FitsOneValue;
    if entries != [] {
      EntriesValuesFit(puts[..|puts| - 1], before.count, entries, codec);
      NotAChunk(puts[|puts| - 1]);
      forall k | 0 <= k < |puts| - 1 ensures FitsOneValue(puts[k]) {
        assert puts[..|puts| - 1][k] == puts[k];
      }
    }
  }

  lemma {:induction false} EntriesValuesFit(puts: seq<Put>, start: nat, entries: seq<Entry>, codec: Codec)
    requires WritesEntries(puts, start, entries, codec)
    ensures forall k :: 0 <= k < |puts| ==> FitsOneValue(puts[k])
    decreases |entries|
  {
    hide WritesEntry, FitsOneValue;
    if entries != [] {
      var n := |entries| - 1;
      var m :| 0 <= m <= |puts| && WritesEntries(puts[..m], start, entries[..n], codec)
        && WritesEntry(puts[m..], start + n, codec.encode(entries[n]));
      EntriesValuesFit(puts[..m], start, entries[..n], codec);
      EntryValues(puts[m..], start + n, codec.encode(entries[n]));
      forall k | 0 <= k < |puts| ensures FitsOneValue(puts[k]) {
        assert puts[k] == if k < m then puts[..m][k] else puts[m..][k - m];
      }
    }
  }

  /** A text that fills one value and ends in U+FEFF is stored with an empty second chunk. */
  lemma {:induction false} EmptyChunkWritten(puts: seq<Put>, index: nat, text: Text)
    requires |text| == SESSION_LOG_CHUNK_BYTES + 1 && text[SESSION_LOG_CHUNK_BYTES] == BOM
    requires forall i :: 0 <= i < SESSION_LOG_CHUNK_BYTES ==> text[i] == 0x61
    requires WritesEntry(puts, index, text)
    ensures |puts| == 3 && puts[1] == Put(EntryChunk(index, 1), TextValue([]))
  {
    hide CharsWithin, Encode, EncodeOne;
    var raw: seq<Text> :| Chunking(text, SESSION_LOG_CHUNK_BYTES, raw) && |puts| == |raw| + 1
      && (forall c: nat :: c < |raw| ==> WritesChunk(puts[c], index, c, raw[c]))
      && puts[|raw|] == Put(EntryMeta(index), RecordValue(map["chunks" := NumberValue(|raw|)]));
    ChunkingUnique(text, SESSION_LOG_CHUNK_BYTES, raw);
    FillerFits(text, SESSION_LOG_CHUNK_BYTES);
    var rest := text[SESSION_LOG_CHUNK_BYTES..];
    assert rest == [BOM];
    SomeFits(rest, SESSION_LOG_CHUNK_BYTES);
    assert CharsWithin(rest, SESSION_LOG_CHUNK_BYTES) == 1;
    assert TextChunks(rest[1..], SESSION_LOG_CHUNK_BYTES) == [];
    assert TextChunks(rest, SESSION_LOG_CHUNK_BYTES) == [rest[..1]] + TextChunks(rest[1..], SESSION_LOG_CHUNK_BYTES);
    assert WritesChunk(puts[1], index, 1, [BOM]);
  }

  /** The durable entity: its key-value store and the writes made so far. */
  class DurableEntity {
    var kv: Store
    ghost var puts: seq<Put>

    constructor ()
      ensures kv == map[] && puts == []
    {
      kv, puts := map[], [];
    }

    method PutValue(key: Key, value: Stored)
      modifies this
      ensures kv == old(kv)[key := value] && puts == old(puts) + [Put(key, value)]
    {
      kv := kv[key := value];
      puts := puts + [Put(key, value)];
    }

    /** Writes one entry: its chunks in order, then its record. */
    method PutEntry(index: nat, chunks: seq<Text>)
      modifies this
      ensures puts == old(puts) + EntryPuts(index, chunks)
      ensures kv == Apply(old(kv), EntryPuts(index, chunks))
    {
      var c := 0;
      while c < |chunks|
        invariant c <= |chunks|
        invariant puts == old(puts) + ChunkPuts(index, chunks[..c])
        invariant kv == Apply(old(kv), ChunkPuts(index, chunks[..c]))
      {
        ghost var done := ChunkPuts(index, chunks[..c]);
        var put := Put(EntryChunk(index, c), TextValue(chunks[c]));
        assert chunks[..c + 1][..c] == chunks[..c];
        assert (done + [put])[..|done|] == done;
        PutValue(put.key, put.value);
        c := c + 1;
      }
      assert chunks[..c] == chunks;
      ghost var done := ChunkPuts(index, chunks);
      assert (done + [Put(EntryMeta(index), EntryRecord(|chunks|))])[..|done|] == done;
      PutValue(EntryMeta(index), EntryRecord(|chunks|));
    }

    /** `appendSessionLog`: the writes are those of `AppendPuts`, made in that order. */
    method AppendSessionLog(bodies: seq<Body>, ids: nat -> Text, clock: nat -> int, codec: Codec)
      returns (appended: seq<Entry>)
      modifies this
      ensures appended == Stamped(ParseMeta(Get(old(kv), LogMeta)).headId, bodies, ids, clock)
      ensures puts == old(puts) + AppendPuts(ParseMeta(Get(old(kv), LogMeta)), appended, codec)
      ensures kv == Apply(old(kv), AppendPuts(ParseMeta(Get(old(kv), LogMeta)), appended, codec))
      ensures |old(puts)| <= |puts|
      ensures WritesAppend(puts[|old(puts)|..], ParseMeta(Get(old(kv), LogMeta)), appended, codec)
    {
      hide Stamped, AllEntryPuts, EntryPuts, Apply, ChunksOf, ParseMeta, WritesAppend;
      appended := [];
      NothingStamped(ParseMeta(Get(kv, LogMeta)).headId, bodies, ids, clock, codec, kv);
      if bodies == [] {
        AppendWrites(ParseMeta(Get(kv, LogMeta)), [], codec);
        return;
      }
      ghost var first := ParseMeta(Get(kv, LogMeta));
      var meta := ParseMeta(Get(kv, LogMeta));
      var i := 0;
      while i < |bodies|
        invariant i <= |bodies|
        invariant appended == Stamped(first.headId, bodies[..i], ids, clock)
        invariant meta == HeadAfter(first, appended)
        invariant puts == old(puts) + AllEntryPuts(first.count, appended, codec)
        invariant kv == Apply(old(kv), AllEntryPuts(first.count, appended, codec))
      {
        var entry := Entry(ids(i), meta.headId, clock(i), bodies[i]);
        StampedNext(first.headId, bodies, i, ids, clock);
        AllPutsNext(old(kv), first.count, appended, entry, codec);
        PutEntry(meta.count, ChunksOf(codec, entry));
        appended := appended + [entry];
        meta := Meta(meta.count + 1, Some(entry.id));
        i := i + 1;
      }
      assert bodies[..i] == bodies;
      ApplySnoc(old(kv), AllEntryPuts(first.count, appended, codec), Put(LogMeta, MetaRecord(meta)));
      PutValue(LogMeta, MetaRecord(meta));
      AppendWrites(first, appended, codec);
      assert puts[|old(puts)|..] == AppendPuts(first, appended, codec);
    }
  }

  lemma NothingStamped(head: Option<Text>, bodies: seq<Body>, ids: nat -> Text, clock: nat -> int, codec: Codec, kv: Store)
    ensures Stamped(head, bodies[..0], ids, clock) == []
    ensures forall start: nat :: AllEntryPuts(start, [], codec) == []
    ensures Apply(kv, []) == kv
  {}

  lemma {:induction false} ApplySnoc(kv: Store, puts: seq<Put>, put: Put)
    ensures Apply(kv, puts + [put]) == Apply(kv, puts)[put.key := put.value]
  {
    assert (puts + [put])[..|puts|] == puts;
  }

  lemma NothingApplied(kv: Store)
    ensures Apply(kv, []) == kv
  {}

  lemma {:induction false} AllPutsNext(kv: Store, start: nat, entries: seq<Entry>, e: Entry, codec: Codec)
    ensures
      var earlier, more := AllEntryPuts(start, entries, codec), EntryPuts(start + |entries|, ChunksOf(codec, e));
      && AllEntryPuts(start, entries + [e], codec) == earlier + more
      && Apply(kv, AllEntryPuts(start, entries + [e], codec)) == Apply(Apply(kv, earlier), more)
  {
    hide Apply, EntryPuts, ChunksOf;
    assert (entries + [e])[..|entries|] == entries;
    ApplyConcat(kv, AllEntryPuts(start, entries, codec), EntryPuts(start + |entries|, ChunksOf(codec, e)));
  }

  lemma {:induction false} ApplyConcat(kv: Store, p: seq<Put>, q: seq<Put>)
    ensures Apply(kv, p + q) == Apply(Apply(kv, p), q)
  {
    if q == [] {
      assert p + q == p;
    } else {
      ApplyConcat(kv, p, q[..|q| - 1]);
      assert (p + q)[..|p + q| - 1] == p + q[..|q| - 1];
    }
  }

  lemma StampedNext(head: Option<Text>, bodies: seq<Body>, i: nat, ids: nat -> Text, clock: nat -> int)
    requires i < |bodies|
    ensures
      var before := Stamped(head, bodies[..i], ids, clock);
      Stamped(head, bodies[..i + 1], ids, clock) ==
        before + [Entry(ids(i), if i == 0 then head else Some(ids(i - 1)), clock(i), bodies[i])]
    ensures i > 0 ==> Stamped(head, bodies[..i], ids, clock)[i - 1].id == ids(i - 1)
  {
    assert bodies[..i + 1][..i] == bodies[..i];
  }

  // ------------------------------------------------------------ what a write leaves alone

  /** The two stores agree on the log record and on the first `count` entries. */
  ghost predicate SameLog(kv1: Store, kv2: Store, count: nat) {
    && (forall i: nat :: i < count ==> Get(kv1, EntryMeta(i)) == Get(kv2, EntryMeta(i)))
    && (forall i: nat, c: nat :: i < count ==> Get(kv1, EntryChunk(i, c)) == Get(kv2, EntryChunk(i, c)))
  }

  lemma {:induction false} SameChunks(kv1: Store, kv2: Store, index: nat, n: nat, count: nat)
    requires SameLog(kv1, kv2, count) && index < count
    ensures ReadChunkTexts(kv1, index, n) == ReadChunkTexts(kv2, index, n)
  {
    if n > 0 {
      SameChunks(kv1, kv2, index, n - 1, count);
      assert Get(kv1, EntryChunk(index, n - 1)) == Get(kv2, EntryChunk(index, n - 1));
    }
  }

  lemma {:induction false} SameRead(kv1: Store, kv2: Store, upTo: nat, count: nat, codec: Codec)
    requires SameLog(kv1, kv2, count) && upTo <= count
    ensures ReadUpTo(kv1, upTo, codec) == ReadUpTo(kv2, upTo, codec)
  {
    if upTo > 0 {
      SameRead(kv1, kv2, upTo - 1, count, codec);
      assert Get(kv1, EntryMeta(upTo - 1)) == Get(kv2, EntryMeta(upTo - 1));
      match ParseEntryMeta(Get(kv1, EntryMeta(upTo - 1)))
      case None =>
      case Some(n) => SameChunks(kv1, kv2, upTo - 1, n, count);
    }
  }

  /** The write goes to an entry slot at `start` or later. */
  predicate AtOrAfter(put: Put, start: nat) {
    (put.key.EntryMeta? || put.key.EntryChunk?) && put.key.index >= start
  }

  ghost predicate AllAtOrAfter(puts: seq<Put>, start: nat) {
    forall k :: 0 <= k < |puts| ==> AtOrAfter(puts[k], start)
  }

  /** Writes to later slots leave the log record and the earlier entries as they are. */
  lemma {:induction false} LaterPutsKeep(kv: Store, puts: seq<Put>, start: nat)
    requires AllAtOrAfter(puts, start)
    ensures SameLog(kv, Apply(kv, puts), start)
    ensures Get(Apply(kv, puts), LogMeta) == Get(kv, LogMeta)
  {
    if puts != [] {
      var last := |puts| - 1;
      LaterPutsKeep(kv, puts[..last], start);
      assert AtOrAfter(puts[last], start);
      assert SameLog(Apply(kv, puts[..last]), Apply(kv, puts), start);
    }
  }

  lemma {:induction false} EntryPutsLater(index: nat, chunks: seq<Text>)
    ensures AllAtOrAfter(EntryPuts(index, chunks), index)
    ensures AllAtOrAfter(ChunkPuts(index, chunks), index)
  {
    if chunks != [] { EntryPutsLater(index, chunks[..|chunks| - 1]); }
  }

  lemma {:induction false} AllEntryPutsLater(start: nat, entries: seq<Entry>, codec: Codec)
    ensures AllAtOrAfter(AllEntryPuts(start, entries, codec), start)
  {
    hide EntryPuts, ChunksOf;
    if entries != [] {
      AllEntryPutsLater(start, entries[..|entries| - 1], codec);
      EntryPutsLater(start + |entries| - 1, ChunksOf(codec, entries[|entries| - 1]));
    }
  }

  /**
   * Crash safety: after any strict prefix of the writes of an append, the log reads exactly
   * as before, whatever it read as.
   */
  lemma {:induction false} InterruptedAppendInvisible(kv: Store, entries: seq<Entry>, codec: Codec, done: nat)
    requires done < |AppendPuts(ParseMeta(Get(kv, LogMeta)), entries, codec)|
    ensures
      var after := Apply(kv, AppendPuts(ParseMeta(Get(kv, LogMeta)), entries, codec)[..done]);
      ReadLog(after, codec) == ReadLog(kv, codec) && Get(after, LogMeta) == Get(kv, LogMeta)
  {
    var meta := ParseMeta(Get(kv, LogMeta));
    var body := AllEntryPuts(meta.count, entries, codec);
    AllEntryPutsLater(meta.count, entries, codec);
    var puts := AppendPuts(meta, entries, codec)[..done];
    assert forall k :: 0 <= k < done ==> puts[k] == body[k];
    LaterPutsKeep(kv, puts, meta.count);
    SameRead(kv, Apply(kv, puts), meta.count, meta.count, codec);
  }

  // ------------------------------------------------------------ a complete append

  /** The chunks just written are what is read, whatever was in the slots before. */
  lemma {:induction false} ChunksWritten(kv: Store, index: nat, chunks: seq<Text>, n: nat)
    requires n <= |chunks|
    ensures ReadChunkTexts(Apply(kv, EntryPuts(index, chunks)), index, n) == Some(chunks[..n])
  {
    var after := Apply(kv, EntryPuts(index, chunks));
    if n > 0 {
      ChunksWritten(kv, index, chunks, n - 1);
      ChunkWritten(kv, index, chunks, n - 1);
      ApplySnoc(kv, ChunkPuts(index, chunks), Put(EntryMeta(index), EntryRecord(|chunks|)));
      assert chunks[..n - 1] + [chunks[n - 1]] == chunks[..n];
    }
  }

  lemma {:induction false} ChunkWritten(kv: Store, index: nat, chunks: seq<Text>, c: nat)
    requires c < |chunks|
    ensures Get(Apply(kv, ChunkPuts(index, chunks)), EntryChunk(index, c)) == Some(TextValue(chunks[c]))
  {
    var last := |chunks| - 1;
    ApplySnoc(kv, ChunkPuts(index, chunks[..last]), Put(EntryChunk(index, last), TextValue(chunks[last])));
    if c < last { ChunkWritten(kv, index, chunks[..last], c); }
  }

  /** An entry that can be stored is read back from where it was written. */
  lemma {:induction false} EntryReadsBack(kv: Store, index: nat, e: Entry, codec: Codec)
    requires Storable(codec, e)
    ensures ReadEntry(Apply(kv, EntryPuts(index, ChunksOf(codec, e))), index, codec) == Some(e)
  {
    hide Apply, ReadChunkTexts, ChunkPuts, Serialize, TextChunks, DropBoms, Join, CutsCleanly;
    var text, chunks := codec.encode(e), ChunksOf(codec, e);
    RoundTrip(text, SESSION_LOG_CHUNK_BYTES);
    SerializeIs(text, SESSION_LOG_CHUNK_BYTES);
    ChunkCount(text);
    assert Join(chunks) == text;
    ApplySnoc(kv, ChunkPuts(index, chunks), Put(EntryMeta(index), EntryRecord(|chunks|)));
    ChunksWritten(kv, index, chunks, |chunks|);
    assert chunks[..|chunks|] == chunks;
  }

  /** A non-empty text has at least one chunk and no more chunks than characters. */
  lemma {:induction false} ChunkCount(text: Text)
    ensures
      var chunks := DropBoms(TextChunks(text, SESSION_LOG_CHUNK_BYTES));
      |chunks| <= |text| && (text != [] ==> |chunks| > 0)
  {
    DropBomsSize(TextChunks(text, SESSION_LOG_CHUNK_BYTES));
    CountBound(text);
  }

  lemma {:induction false} CountBound(text: Text)
    ensures |TextChunks(text, SESSION_LOG_CHUNK_BYTES)| <= |text|
    ensures text != [] ==> |TextChunks(text, SESSION_LOG_CHUNK_BYTES)| > 0
    decreases |text|
  {
    if text != [] {
      var n := CharsWithin(text, SESSION_LOG_CHUNK_BYTES);
      SomeFits(text, SESSION_LOG_CHUNK_BYTES);
      CountBound(text[n..]);
    }
  }

  lemma {:induction false} DropBomsSize(chunks: seq<Text>)
    ensures |DropBoms(chunks)| == |chunks|
  {
    if chunks != [] { DropBomsSize(chunks[1..]); }
  }

  lemma {:induction false} EntriesReadBack(kv: Store, start: nat, entries: seq<Entry>, codec: Codec)
    requires forall i :: 0 <= i < |entries| ==> Storable(codec, entries[i])
    requires ReadUpTo(kv, start, codec).Some?
    ensures
      var after := Apply(kv, AllEntryPuts(start, entries, codec));
      ReadUpTo(after, start + |entries|, codec) == Some(ReadUpTo(kv, start, codec).value + entries)
  {
    hide Apply, EntryPuts, ChunksOf, ReadEntry, Storable;
    if entries == [] {
      NothingApplied(kv);
      assert ReadUpTo(kv, start, codec).value + [] == ReadUpTo(kv, start, codec).value;
    } else {
      var n := |entries| - 1;
      var e := entries[n];
      EntriesReadBack(kv, start, entries[..n], codec);
      assert entries[..n] + [e] == entries;
      AllPutsNext(kv, start, entries[..n], e, codec);
      var before := Apply(kv, AllEntryPuts(start, entries[..n], codec));
      var after := Apply(before, EntryPuts(start + n, ChunksOf(codec, e)));
      EntryReadsBack(before, start + n, e, codec);
      EntryPutsLater(start + n, ChunksOf(codec, e));
      LaterPutsKeep(before, EntryPuts(start + n, ChunksOf(codec, e)), start + n);
      SameRead(before, after, start + n, start + n, codec);
      var earlier := ReadUpTo(kv, start, codec).value;
      assert (earlier + entries[..n]) + [e] == earlier + entries;
    }
  }

  /** The log record written last is what is read as the log record. */
  lemma MetaReadsBack(meta: Meta)
    requires meta.count <= MAX_SAFE_INTEGER
    ensures ParseMeta(Some(MetaRecord(meta))) == meta
  {}

  lemma {:induction false} LogMetaApart(kv: Store, value: Stored, upTo: nat, codec: Codec)
    ensures ReadUpTo(kv[LogMeta := value], upTo, codec) == ReadUpTo(kv, upTo, codec)
  {
    SameRead(kv, kv[LogMeta := value], upTo, upTo, codec);
  }

  /** All writes done: the log reads as the old log followed by the new entries. */
  lemma {:induction false} CompleteAppendVisible(kv: Store, entries: seq<Entry>, codec: Codec)
    requires forall i :: 0 <= i < |entries| ==> Storable(codec, entries[i])
    requires ReadLog(kv, codec).Some?
    requires ParseMeta(Get(kv, LogMeta)).count + |entries| <= MAX_SAFE_INTEGER
    ensures
      var meta := ParseMeta(Get(kv, LogMeta));
      var after := Apply(kv, AppendPuts(meta, entries, codec));
      && ReadLog(after, codec) == Some(ReadLog(kv, codec).value + entries)
      && ParseMeta(Get(after, LogMeta)) == HeadAfter(meta, entries)
  {
    hide Apply, ReadUpTo, AllEntryPuts, ParseMeta, MetaRecord, Storable;
    NothingApplied(kv);
    var meta := ParseMeta(Get(kv, LogMeta));
    if entries == [] {
      assert ReadLog(kv, codec).value + [] == ReadLog(kv, codec).value;
    } else {
      var body := AllEntryPuts(meta.count, entries, codec);
      EntriesReadBack(kv, meta.count, entries, codec);
      ApplySnoc(kv, body, Put(LogMeta, MetaRecord(HeadAfter(meta, entries))));
      MetaReadsBack(HeadAfter(meta, entries));
      LogMetaApart(Apply(kv, body), MetaRecord(HeadAfter(meta, entries)), meta.count + |entries|, codec);
    }
  }

  // ------------------------------------------------------------ the chain

  /** Every entry's parent is the entry before it; the first hangs under `head`. */
  ghost predicate Linked(head: Option<Text>, entries: seq<Entry>) {
    forall i :: 0 <= i < |entries| ==> entries[i].parentId == LastId(head, entries[..i])
  }

  function LastId(head: Option<Text>, entries: seq<Entry>): Option<Text> {
    if entries == [] then head else Some(entries[|entries| - 1].id)
  }

  /** The stored log is one chain from a root with no parent, and its record counts and heads it. */
  ghost predicate Chain(kv: Store, codec: Codec): (r: bool)
    ensures r ==> ReadLog(kv, codec).Some?
  {
    var meta, log := ParseMeta(Get(kv, LogMeta)), ReadLog(kv, codec);
    && log.Some?
    && |log.value| == meta.count
    && Linked(None, log.value)
    && meta.headId == LastId(None, log.value)
  }

  lemma {:induction false} StampedAt(head: Option<Text>, bodies: seq<Body>, ids: nat -> Text, clock: nat -> int, i: nat)
    requires i < |bodies|
    ensures Stamped(head, bodies, ids, clock)[i] == Entry(ids(i), if i == 0 then head else Some(ids(i - 1)), clock(i), bodies[i])
    decreases |bodies|
  {
    var n := |bodies| - 1;
    if i < n {
      StampedAt(head, bodies[..n], ids, clock, i);
    }
  }

  /** Stamping links each new entry to the one before it, in the order of the bodies. */
  lemma {:induction false} StampedLinked(head: Option<Text>, bodies: seq<Body>, ids: nat -> Text, clock: nat -> int)
    ensures Linked(head, Stamped(head, bodies, ids, clock))
    ensures forall i :: 0 <= i < |bodies| ==>
              && Stamped(head, bodies, ids, clock)[i].id == ids(i)
              && Stamped(head, bodies, ids, clock)[i].timestamp == clock(i)
              && Stamped(head, bodies, ids, clock)[i].body == bodies[i]
  {
    hide Stamped;
    var r := Stamped(head, bodies, ids, clock);
    forall i | 0 <= i < |bodies|
      ensures r[i].id == ids(i) && r[i].timestamp == clock(i) && r[i].body == bodies[i] && r[i].parentId == LastId(head, r[..i])
    {
      StampedAt(head, bodies, ids, clock, i);
      if i > 0 {
        StampedAt(head, bodies, ids, clock, i - 1);
      }
    }
  }

  /** One call of the append, cut short after `done` writes, or complete. */
  datatype Attempt = Attempt(bodies: seq<Body>, ids: nat -> Text, clock: nat -> int, done: nat)

  function EntriesOf(kv: Store, a: Attempt): (r: seq<Entry>)
    ensures |r| == |a.bodies|
  {
    Stamped(ParseMeta(Get(kv, LogMeta)).headId, a.bodies, a.ids, a.clock)
  }

  function PutsOf(kv: Store, a: Attempt, codec: Codec): seq<Put> {
    AppendPuts(ParseMeta(Get(kv, LogMeta)), EntriesOf(kv, a), codec)
  }

  predicate Completes(kv: Store, a: Attempt, codec: Codec) {
    a.done >= |PutsOf(kv, a, codec)|
  }

  function AfterAttempt(kv: Store, a: Attempt, codec: Codec): Store {
    var puts := PutsOf(kv, a, codec);
    Apply(kv, if a.done < |puts| then puts[..a.done] else puts)
  }

  function AfterAll(kv: Store, attempts: seq<Attempt>, codec: Codec): Store {
    if attempts == [] then kv
    else AfterAttempt(AfterAll(kv, attempts[..|attempts| - 1], codec), attempts[|attempts| - 1], codec)
  }

  /** The entries of the attempts that completed, in order. */
  function Committed(kv: Store, attempts: seq<Attempt>, codec: Codec): seq<Entry> {
    if attempts == [] then []
    else
      var before, a := AfterAll(kv, attempts[..|attempts| - 1], codec), attempts[|attempts| - 1];
      Committed(kv, attempts[..|attempts| - 1], codec) + if Completes(before, a, codec) then EntriesOf(before, a) else []
  }

  /** Every attempt's entries can be stored, and the count stays a safe integer. */
  ghost predicate Reasonable(kv: Store, attempts: seq<Attempt>, codec: Codec) {
    forall n :: 0 <= n < |attempts| ==>
      var before := AfterAll(kv, attempts[..n], codec);
      && ParseMeta(Get(before, LogMeta)).count + |attempts[n].bodies| <= MAX_SAFE_INTEGER
      && forall i :: 0 <= i < |attempts[n].bodies| ==> Storable(codec, EntriesOf(before, attempts[n])[i])
  }

  lemma {:induction false} AttemptKeepsChain(kv: Store, a: Attempt, codec: Codec)
    requires Chain(kv, codec)
    requires ParseMeta(Get(kv, LogMeta)).count + |a.bodies| <= MAX_SAFE_INTEGER
    requires forall i :: 0 <= i < |a.bodies| ==> Storable(codec, EntriesOf(kv, a)[i])
    ensures Chain(AfterAttempt(kv, a, codec), codec)
    ensures ReadLog(AfterAttempt(kv, a, codec), codec) ==
            Some(ReadLog(kv, codec).value + if Completes(kv, a, codec) then EntriesOf(kv, a) else [])
  {
    hide AppendPuts, Stamped, Apply, ReadLog, ParseMeta, Storable, HeadAfter;
    var meta, log, more := ParseMeta(Get(kv, LogMeta)), ReadLog(kv, codec).value, EntriesOf(kv, a);
    if Completes(kv, a, codec) {
      CompleteAppendVisible(kv, more, codec);
      StampedLinked(meta.headId, a.bodies, a.ids, a.clock);
      HeadAfterIs(meta, more);
      LinkedConcat(log, more, meta.headId);
    } else {
      InterruptedAppendInvisible(kv, more, codec, a.done);
      assert log + [] == log;
    }
  }

  lemma HeadAfterIs(meta: Meta, more: seq<Entry>)
    ensures HeadAfter(meta, more) == Meta(meta.count + |more|, LastId(meta.headId, more))
  {}

  lemma LinkedConcat(log: seq<Entry>, more: seq<Entry>, head: Option<Text>)
    requires Linked(None, log) && Linked(head, more) && head == LastId(None, log)
    ensures Linked(None, log + more) && LastId(None, log + more) == LastId(head, more)
  {
    var all := log + more;
    forall i | 0 <= i < |all| ensures all[i].parentId == LastId(None, all[..i]) {
      if i < |log| {
        assert all[..i] == log[..i];
      } else {
        assert all[..i] == log + more[..i - |log|];
      }
    }
  }

  /**
   * Over any run of appends, interrupted at any write or complete, the log is one chain and
   * holds exactly the committed entries, in order.
   */
  lemma {:induction false} LogIsOneChain(kv: Store, attempts: seq<Attempt>, codec: Codec)
    requires Chain(kv, codec) && Reasonable(kv, attempts, codec)
    ensures Chain(AfterAll(kv, attempts, codec), codec)
    ensures ReadLog(AfterAll(kv, attempts, codec), codec) ==
            Some(ReadLog(kv, codec).value + Committed(kv, attempts, codec))
  {
    hide AfterAttempt, EntriesOf, Completes, ReadLog, Storable, ParseMeta, Chain, Reasonable, Linked;
    var log := ReadLog(kv, codec).value;
    if attempts == [] {
      assert log + [] == log;
    } else {
      var n := |attempts| - 1;
      var earlier := attempts[..n];
      ReasonableEarlier(kv, attempts, codec);
      LogIsOneChain(kv, earlier, codec);
      var before := AfterAll(kv, earlier, codec);
      AttemptKeepsChain(before, attempts[n], codec);
      var more := if Completes(before, attempts[n], codec) then EntriesOf(before, attempts[n]) else [];
      assert (log + Committed(kv, earlier, codec)) + more == log + (Committed(kv, earlier, codec) + more);
    }
  }

  lemma {:induction false} ReasonableEarlier(kv: Store, attempts: seq<Attempt>, codec: Codec)
    requires attempts != [] && Reasonable(kv, attempts, codec)
    ensures
      var n := |attempts| - 1;
      var before := AfterAll(kv, attempts[..n], codec);
      && Reasonable(kv, attempts[..n], codec)
      && ParseMeta(Get(before, LogMeta)).count + |attempts[n].bodies| <= MAX_SAFE_INTEGER
      && forall i :: 0 <= i < |attempts[n].bodies| ==> Storable(codec, EntriesOf(before, attempts[n])[i])
  {
    hide AfterAttempt, EntriesOf, Storable, ParseMeta, AfterAll;
    var n := |attempts| - 1;
    forall m | 0 <= m < n ensures attempts[..n][..m] == attempts[..m] && attempts[..n][m] == attempts[m] {}
  }

  lemma EmptyStoreIsChain(codec: Codec)
    ensures Chain(map[], codec)
  {}
}
