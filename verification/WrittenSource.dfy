/** A decoder opened on a bytes column as written: every block it decodes is the rows the column was given. */
module WrittenSource {
  import opened Wire
  import opened Chunking
  import opened DictSpec
  import opened SharedDict
  import opened Directory
  import opened DirectoryMeaning
  import opened DirectoryRoundTrip
  import opened Layouts
  import opened LayoutsAgree
  import opened Packing
  import opened BlockAccum
  import opened ColumnFile
  import opened DictRegion
  import opened DictColumnFile
  import BS = BlockStreams
  import Lease
  import MergeRun

  /** The column of some rows as the batch writer seals it. */
  ghost function SealedColumn(rows: seq<Value>, blockRows: nat, cap: int, limit: nat, enc: seq<Value> -> Bytes, codec: Codec): Sealed
    requires blockRows > 0
  {
    FixedColumn(StreamsOf(Encode(cap, Chunks(rows, blockRows)).granules, enc), limit, blockRows, codec)
  }

  ghost function FrameData(rows: seq<Value>, blockRows: nat, cap: int, limit: nat, enc: seq<Value> -> Bytes, codec: Codec): Bytes
    requires blockRows > 0
  {
    Data(GroupsOf(StreamsOf(Encode(cap, Chunks(rows, blockRows)).granules, enc), limit), codec)
  }

  /** A decoder's source over it: the parsed directory, its frames as they load, the finished dictionary. */
  ghost function SourceFor(rows: seq<Value>, blockRows: nat, cap: int, limit: nat, enc: seq<Value> -> Bytes, dec: Bytes -> Result<Lease.Spans>, codec: Codec): Lease.Source
    requires blockRows > 0
  {
    var d := DirOf(SealedColumn(rows, blockRows, cap, limit, enc, codec));
    Lease.Source(|rows|, blockRows, Encode(cap, Chunks(rows, blockRows)).dict, true, true, dec,
                 ViewOf(d, false), LoadAll(d, FrameData(rows, blockRows, cap, limit, enc, codec), codec))
  }

  /** A column fit to be written and read: its codec lawful, its streams within a column's limits. */
  ghost predicate Fit(rows: seq<Value>, blockRows: nat, cap: nat, limit: nat, enc: seq<Value> -> Bytes, dec: Bytes -> Result<Lease.Spans>, codec: Codec) {
    && 0 < blockRows < TWO63 && cap <= MAX_SHARED_DICT_RAW && Lease.PointsInside(dec)
    && SharedDict.Lawful(enc, Lease.Columns(dec)) && codec.Lawful()
    && var ss := StreamsOf(Encode(cap, Chunks(rows, blockRows)).granules, enc); StreamsFit(ss, limit, GroupsOf(ss, limit), codec)
  }

  /** A block's rows, the last one's included, are its chunk's. */
  lemma CountIs(rows: seq<Value>, blockRows: nat, src: Lease.Source, blk: nat)
    requires blockRows > 0 && blk < |Chunks(rows, blockRows)| && src.rows == |rows| && src.blockRows == blockRows
    ensures src.Count(blk) == |Chunks(rows, blockRows)[blk]| && blk * blockRows < |rows|
  {
    hide Chunks;
    ChunkNumber(rows, blockRows, blk);
  }

  lemma {:induction false} FramesUnbroken(a: Sealed, gs: seq<seq<Bytes>>, c: Codec)
    requires c.Lawful() && a.frames == Recs(gs, c) && |Data(gs, c)| <= MAX_INT32
    ensures |LoadAll(DirOf(a), Data(gs, c), c)| == |gs| && forall f :: 0 <= f < |gs| ==> LoadAll(DirOf(a), Data(gs, c), c)[f].Frame?
  {
    hide Data; hide DirOf; hide Recs; hide LoadFrame;
    DirShape(a, gs, c);
    forall f | 0 <= f < |gs| ensures LoadAll(DirOf(a), Data(gs, c), c)[f].Frame? {
      FrameLoads(a, gs, c, f);
    }
  }

  /** The directory of a fixed-granule column is one a decode walk can follow. */
  lemma ViewWf(a: Sealed, gs: seq<seq<Bytes>>, c: Codec)
    requires c.Lawful() && a.frames == Recs(gs, c) && |Data(gs, c)| <= MAX_INT32 && !a.variable
    ensures var v := ViewOf(DirOf(a), false); v.Wf(|LoadAll(DirOf(a), Data(gs, c), c)|) && v.Granules() >= |Flatten(gs)|
  {
    hide Data; hide Flatten; hide Recs; hide LoadFrame; hide Owners; hide Offsets; hide Lens; hide Ends32; hide Crcs; hide Raws;
    if |Flatten(gs)| > 0 {
      ColumnReadsBack(a, gs, c, |Flatten(gs)| - 1);
    } else {
      TableLens(0, gs, c);
    }
  }

  /**
   Opened on the column of any rows, a decoder's block blk is well-formed and reads, row for row, as that
   block of the rows was written; and no other block is in range.
   */
  lemma BlockIsWritten(rows: seq<Value>, blockRows: nat, cap: nat, limit: nat, enc: seq<Value> -> Bytes, dec: Bytes -> Result<Lease.Spans>, codec: Codec, blk: int)
    requires Fit(rows, blockRows, cap, limit, enc, dec, codec)
    ensures var src, chunks := SourceFor(rows, blockRows, cap, limit, enc, dec, codec), Chunks(rows, blockRows);
            && src.Wf() && (src.InRange(blk) <==> 0 <= blk < |chunks|)
            && (src.InRange(blk) ==> var r := src.Fresh(blk); r.Ok? && r.value.Wf() && r.value.Rows() == chunks[blk])
            && forall f :: 0 <= f < |src.frames| ==> src.frames[f].Frame?
  {
    hide Chunks; hide Encode; hide Data; hide Flatten; hide GroupsOf; hide ReadGranule; hide DirOf; hide Recs; hide EncodeGranule; hide Packable; hide SharedDict.Lawful; hide LoadAll; hide ViewOf; hide DecodeGranule; hide Lease.PointsInside; hide GivesBack; hide Lease.Columns;
    var chunks := Chunks(rows, blockRows);
    var col := Encode(cap, chunks);
    var ss := StreamsOf(col.granules, enc);
    var a, gs := FixedColumn(ss, limit, blockRows, codec), GroupsOf(ss, limit);
    FixedIsOk(ss, limit, blockRows, codec);
    EncodedPackable(cap, chunks);
    ViewWf(a, gs, codec);
    FramesUnbroken(a, gs, codec);
    RangeIs(rows, blockRows, blk);
    if 0 <= blk < |chunks| {
      SealedGivesBack(a, gs, codec);
      GranuleComesBack(cap, chunks, blk, enc, Lease.Columns(dec), ss, DirOf(a), Data(gs, codec), codec);
      CountIs(rows, blockRows, SourceFor(rows, blockRows, cap, limit, enc, dec, codec), blk);
      StreamIs(DirOf(a), Data(gs, codec), codec, blk);
    }
  }

  lemma StreamIs(d: Dir, data: Bytes, c: Codec, k: nat)
    requires ViewOf(d, false).Wf(|LoadAll(d, data, c)|) && k < ViewOf(d, false).Granules()
    ensures ReadGranule(d, data, c, false, k) == BS.GranuleStream(ViewOf(d, false), LoadAll(d, data, c), k)
  {
    hide LoadAll; hide ViewOf;
  }

  /** A block starts within the rows exactly when the cut has it. */
  lemma RangeIs(rows: seq<Value>, blockRows: nat, blk: int)
    requires blockRows > 0
    ensures 0 <= blk && blk * blockRows < |rows| <==> 0 <= blk < |Chunks(rows, blockRows)|
  {
    hide Chunks;
    ChunkCount(rows, blockRows);
    var g := |Chunks(rows, blockRows)|;
    if 0 <= blk < g {
      ChunkNumber(rows, blockRows, blk);
    }
    if g <= blk && rows != [] {
      CeilCovers(|rows|, blockRows, g);
      MulOrder(g, blk, blockRows);
    }
  }

  /** So at any point of any merge over columns as written, a decoded block is the rows written there. */
  lemma MergeReadsWritten(sources: seq<Lease.Source>, ops: seq<MergeRun.Op>, d: nat, blk: int,
                          rows: seq<Value>, blockRows: nat, cap: nat, limit: nat, enc: seq<Value> -> Bytes, dec: Bytes -> Result<Lease.Spans>, codec: Codec)
    requires MergeRun.AllWf(sources) && MergeRun.Unbroken(sources) && d < |sources|
    requires Fit(rows, blockRows, cap, limit, enc, dec, codec) && sources[d] == SourceFor(rows, blockRows, cap, limit, enc, dec, codec)
    requires 0 <= blk < |Chunks(rows, blockRows)|
    ensures var st, next := MergeRun.Run(sources, ops), MergeRun.Step(sources, MergeRun.Run(sources, ops), MergeRun.Decode(d, blk));
            && |next.pieces| == |st.pieces| + 1 && next.Usable(next.pieces[|st.pieces|])
            && next.pieces[|st.pieces|].col.Wf() && next.pieces[|st.pieces|].col.Rows() == Chunks(rows, blockRows)[blk]
  {
    hide SourceFor; hide Fit; hide MergeRun.Run; hide MergeRun.Step; hide Lease.Source.Fresh; hide DictColumn.Wf; hide DictColumn.Rows; hide Chunks;
    BlockIsWritten(rows, blockRows, cap, limit, enc, dec, codec, blk);
    MergeRun.DecodesFresh(sources, ops, d, blk);
  }
}
