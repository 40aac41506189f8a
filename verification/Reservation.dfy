/** The reservation against the writers: what they emit is what the manifest entry they record describes. */
module Reservation {
  import opened Wire
  import opened Chunking
  import opened DictSpec
  import opened SharedDict
  import opened Directory
  import opened DirectoryMeaning
  import opened DirectoryRoundTrip
  import opened Layouts
  import opened Packing
  import opened BlockAccum
  import opened ColumnFile
  import opened DictRegion
  import opened DictColumnFile
  import opened ScanBound
  import opened Holdings
  import FrameSource

  /** The manifest entry a writer records for a sealed column laid out as an object. */
  function Entry(a: Sealed, dir: Bytes, obj: Bytes, region: Option<Bytes>, entries: seq<Value>, rowBytes: nat, slack: nat): Desc {
    Desc(|obj|, if region.Some? then |region.value| else 0, Raw(entries), |entries|, if a.variable then a.blockRows else 0,
         a.variable && a.timeBounds, rowBytes, slack, SizingOf(a, |dir|))
  }

  /** Frames, region and directory are all of the object that the entry counts. */
  lemma PartsFit(dir: Bytes, region: Option<Bytes>, data: Bytes, streamed: bool)
    ensures |data| + (if region.Some? then |region.value| else 0) + |dir| <= |ObjectBytes(dir, region, data, streamed)|
  {
    hide PutU32;
  }

  /** An entry describes the column it was recorded for, under every layout. */
  lemma EntryDescribes(a: Sealed, dir: Bytes, data: Bytes, region: Option<Bytes>, streamed: bool, entries: seq<Value>, rows: nat, rowBytes: nat, slack: nat)
    requires a.blockRows > 0 && |data| == TotalLen(a.frames)
    requires !a.variable ==> |Lens(a.frames)| == (rows + a.blockRows - 1) / a.blockRows
    ensures Describes(Entry(a, dir, ObjectBytes(dir, region, data, streamed), region, entries, rowBytes, slack), a, entries, rows)
  {
    hide Lens; hide TotalLen; hide Raw; hide ObjectBytes;
    PartsFit(dir, region, data, streamed);
  }

  lemma GranuleCount(ss: seq<Bytes>, limit: nat, c: Codec)
    requires Flatten(GroupsOf(ss, limit)) == ss
    ensures |Lens(Recs(GroupsOf(ss, limit), c))| == |ss|
  {
    hide Flatten; hide Lens; hide Recs; hide GroupsOf;
    LensAre(GroupsOf(ss, limit), c);
  }

  /**
   A column of fixed granules as written, with or without a dictionary behind it, kept or streamed: the
   entry recorded for it reserves at least what any scan of it holds.
   */
  lemma FixedReserved(
    ss: seq<Bytes>, limit: nat, blockRows: nat, region: Option<Bytes>, streamed: bool, codec: Codec, env: Env,
    entries: seq<Value>, rows: nat, rowBytes: nat, slack: nat, access: Access, readerBytes: nat)
    requires 0 < blockRows < TWO63 && StreamsFit(ss, limit, GroupsOf(ss, limit), codec) && |ss| == (rows + blockRows - 1) / blockRows
    ensures var a := FixedColumn(ss, limit, blockRows, codec);
            var dir, data := StoredDir(a, false, env).0, Data(GroupsOf(ss, limit), codec);
            var d := Entry(a, dir, ObjectBytes(dir, region, data, streamed), region, entries, rowBytes, slack);
            Resident(DirOf(a), entries, |data|, access, readerBytes, slack, rows, rowBytes) <= Steady(d, rows, access, readerBytes)
  {
    hide Flatten; hide Lens; hide Recs; hide GroupsOf; hide Data; hide TotalLen; hide StoredDir; hide ObjectBytes; hide Resident; hide Steady; hide DirOf; hide WriterOk; hide Describes;
    var a := FixedColumn(ss, limit, blockRows, codec);
    var dir, data := StoredDir(a, false, env).0, Data(GroupsOf(ss, limit), codec);
    FixedIsOk(ss, limit, blockRows, codec);
    GranuleCount(ss, limit, codec);
    DataLen(GroupsOf(ss, limit), codec);
    EntryDescribes(a, dir, data, region, streamed, entries, rows, rowBytes, slack);
    BoundHolds(Entry(a, dir, ObjectBytes(dir, region, data, streamed), region, entries, rowBytes, slack), a, entries, rows, access, readerBytes);
  }

  /** And a column of variable-size chunks, its directory compacted or not. */
  lemma ChunksReserved(
    ss: seq<Bytes>, chunks: seq<ChunkRec>, limit: nat, blockRows: nat, timeBounds: bool, compact: bool, streamed: bool, codec: Codec, env: Env,
    rowBytes: nat, slack: nat, access: Access, readerBytes: nat)
    requires 0 < blockRows < TWO63 && StreamsFit(ss, limit, Singles(ss), codec)
    requires |chunks| == |ss| && ChunksOk(chunks, blockRows, timeBounds) && RowSum(chunks) <= MAX_PART_ROWS
    ensures var a := ChunkColumn(ss, chunks, blockRows, timeBounds, codec);
            var dir, data, rows := StoredDir(a, compact, env).0, Data(Singles(ss), codec), RowSum(chunks);
            var d := Entry(a, dir, ObjectBytes(dir, None, data, streamed), None, [], rowBytes, slack);
            Resident(DirOf(a), [], |data|, access, readerBytes, slack, rows, rowBytes) <= Steady(d, rows, access, readerBytes)
  {
    hide Flatten; hide Lens; hide Recs; hide Singles; hide Data; hide TotalLen; hide StoredDir; hide ObjectBytes; hide Resident; hide Steady; hide DirOf; hide WriterOk; hide Describes; hide ChunksOk; hide RowSum;
    var a := ChunkColumn(ss, chunks, blockRows, timeBounds, codec);
    var dir, data := StoredDir(a, compact, env).0, Data(Singles(ss), codec);
    ChunksAreOk(ss, chunks, limit, blockRows, timeBounds, codec);
    DataLen(Singles(ss), codec);
    EntryDescribes(a, dir, data, None, streamed, [], RowSum(chunks), rowBytes, slack);
    BoundHolds(Entry(a, dir, ObjectBytes(dir, None, data, streamed), None, [], rowBytes, slack), a, [], RowSum(chunks), access, readerBytes);
  }

  /** From rows: the bytes column of any rows, its dictionary counted as the trailer layout records it. */
  lemma BytesReserved(
    rows: seq<Value>, blockRows: nat, cap: nat, limit: nat, streamed: bool, enc: seq<Value> -> Bytes, codec: Codec, env: Env,
    rowBytes: nat, slack: nat, access: Access, readerBytes: nat)
    requires 0 < blockRows < TWO63
    requires var ss := StreamsOf(Encode(cap, Chunks(rows, blockRows)).granules, enc); StreamsFit(ss, limit, GroupsOf(ss, limit), codec)
    ensures var col := Encode(cap, Chunks(rows, blockRows));
            var ss := StreamsOf(col.granules, enc);
            var a := FixedColumn(ss, limit, blockRows, codec);
            var dir, data, region := StoredDir(a, false, env).0, Data(GroupsOf(ss, limit), codec), Some(Region(col.dict, codec));
            var d := Entry(a, dir, ObjectBytes(dir, region, data, streamed), region, col.dict, rowBytes, slack);
            Resident(DirOf(a), col.dict, |data|, access, readerBytes, slack, |rows|, rowBytes) <= Steady(d, |rows|, access, readerBytes)
  {
    hide Encode; hide Chunks; hide Flatten; hide GroupsOf; hide Data; hide StoredDir; hide ObjectBytes; hide Resident; hide Steady; hide DirOf; hide StreamsFit; hide Region; hide FixedColumn; hide Entry; hide Packable; hide EncodeGranule;
    var col := Encode(cap, Chunks(rows, blockRows));
    var ss := StreamsOf(col.granules, enc);
    ChunkCount(rows, blockRows);
    EncodedPackable(cap, Chunks(rows, blockRows));
    FixedReserved(ss, limit, blockRows, Some(Region(col.dict, codec)), streamed, codec, env, col.dict, |rows|, rowBytes, slack, access, readerBytes);
  }

  /**
   What a read-ahead scan of a bytes column holds in any state of its frame source, whichever frames are
   decompressed and whichever granule is decoded, was reserved for.
   */
  lemma HeldReserved(
    rows: seq<Value>, blockRows: nat, cap: nat, limit: nat, streamed: bool, enc: seq<Value> -> Bytes, codec: Codec, env: Env,
    rowBytes: nat, slack: nat, s: FrameSource.Source, w: nat, readerBytes: nat, f: nat, h: nat, g: nat)
    requires 0 < blockRows < TWO63 && cap <= MAX_SHARED_DICT_RAW
    requires var ss := StreamsOf(Encode(cap, Chunks(rows, blockRows)).granules, enc);
             && StreamsFit(ss, limit, GroupsOf(ss, limit), codec)
             && var a := FixedColumn(ss, limit, blockRows, codec);
             f < |a.frames| && h < |a.frames| && s.Valid() && SourceOf(s, a, w)
    ensures var col := Encode(cap, Chunks(rows, blockRows));
            var ss := StreamsOf(col.granules, enc);
            var a := FixedColumn(ss, limit, blockRows, codec);
            var dir, data, region := StoredDir(a, false, env).0, Data(GroupsOf(ss, limit), codec), Some(Region(col.dict, codec));
            var d := Entry(a, dir, ObjectBytes(dir, region, data, streamed), region, col.dict, rowBytes, slack);
            |s.ahead| <= s.room && s.room + readerBytes + Common(a, col.dict, slack, |rows|, rowBytes, f, h, g) <= Steady(d, |rows|, Ahead(w), readerBytes)
  {
    hide Encode; hide Chunks; hide Flatten; hide GroupsOf; hide Data; hide StoredDir; hide ObjectBytes; hide Resident; hide Steady; hide DirOf; hide Region; hide Entry; hide Packable; hide EncodeGranule; hide Common; hide WriterOk; hide TotalLen; hide Raw; hide Recs;
    var col := Encode(cap, Chunks(rows, blockRows));
    var ss := StreamsOf(col.granules, enc);
    var a := FixedColumn(ss, limit, blockRows, codec);
    FixedIsOk(ss, limit, blockRows, codec);
    DataLen(GroupsOf(ss, limit), codec);
    EncodeBounds(cap, Chunks(rows, blockRows));
    RawWithinCharge(col.dict);
    AheadCovered(a, col.dict, s, w, |Data(GroupsOf(ss, limit), codec)|, readerBytes, slack, |rows|, rowBytes, f, h, g);
    BytesReserved(rows, blockRows, cap, limit, streamed, enc, codec, env, rowBytes, slack, Ahead(w), readerBytes);
  }
}
