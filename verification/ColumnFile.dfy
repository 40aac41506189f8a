/**
 A whole column, written and read back: granule streams through the accumulator, a sink attached at any
 moment or never, any layout, any way in, and every granule's stream comes back.
 */
module ColumnFile {
  import opened Wire
  import opened Chunking
  import opened Directory
  import opened DirectoryMeaning
  import opened DirectoryRoundTrip
  import opened Layouts
  import opened Packing
  import opened BlockAccum
  import opened LayoutsAgree

  /** What a fixed-granule column is sealed over. */
  function FixedColumn(ss: seq<Bytes>, limit: nat, blockRows: nat, c: Codec): Sealed {
    Sealed(blockRows, Recs(GroupsOf(ss, limit), c), false, false, [])
  }

  function GroupsOf(ss: seq<Bytes>, limit: nat): seq<seq<Bytes>> { Close(AddAll(EMPTY, ss, limit)).groups }

  /** Streams one to a frame. */
  function Singles(ss: seq<Bytes>): seq<seq<Bytes>> { seq(|ss|, i requires 0 <= i < |ss| => [ss[i]]) }

  function ChunkColumn(ss: seq<Bytes>, chunks: seq<ChunkRec>, blockRows: nat, timeBounds: bool, c: Codec): Sealed {
    Sealed(blockRows, Recs(Singles(ss), c), true, timeBounds, chunks)
  }

  // ------------------------------------------------------------ writing

  /**
   Writes a column of fixed granules. The bytes depend on whether a sink was attached, never on when:
   before the first granule, between any two, or after the last.
   */
  method WriteFixed(ss: seq<Bytes>, limit: nat, blockRows: nat, region: Option<Bytes>, attachAt: nat, codec: Codec, env: Env)
    returns (obj: Bytes, sizing: Sizing)
    requires limit > 0
    ensures var a := FixedColumn(ss, limit, blockRows, codec);
            var dir := StoredDir(a, false, env).0;
            && obj == ObjectBytes(dir, region, Data(GroupsOf(ss, limit), codec), attachAt <= |ss|)
            && sizing == SizingOf(a, |dir|)
  {
    hide StoredDir; hide ObjectBytes; hide Add; hide Close; hide BlockAccum.Valid; hide RecordsOk; hide Data; hide SizingOf; hide Recs;
    var acc := new BlockAccum(codec, env, limit, false, false, false);
    var w := new Sink();
    for i := 0 to |ss|
      invariant acc.Valid() && acc.codec == codec && acc.env == env && acc.compressBytes == limit && fresh(acc) && fresh(w)
      invariant !acc.variable && !acc.timeBounds && !acc.compactDir && acc.chunkRows == []
      invariant acc.sink == (if attachAt < i then w else null) && (attachAt >= i ==> w.bytes == [])
      invariant acc.packing == AddAll(EMPTY, ss[..i], limit)
    {
      if i == attachAt {
        acc.Attach(w);
      }
      acc.AddGranule(ss[i]);
      assert ss[..i + 1][..i] == ss[..i];
    }
    assert ss[..|ss|] == ss;
    if attachAt == |ss| {
      acc.Attach(w);
    }
    var whole, n := acc.Finish(blockRows, region);
    assert acc.SealedAs(acc.packing, blockRows) == FixedColumn(ss, limit, blockRows, codec);
    obj := if whole.Some? then whole.value else w.bytes;
    CloseOpen(AddAll(EMPTY, ss, limit));
    sizing := acc.SizeUp(blockRows);
  }

  lemma CloseOpen(p: Packing)
    ensures Close(p).open == []
  {
  }

  /** Writes a column of variable-size chunks, one frame each. */
  method WriteChunks(ss: seq<Bytes>, rows: seq<nat>, mins: seq<int>, maxs: seq<int>, timeBounds: bool, compact: bool,
                     limit: nat, blockRows: nat, attachAt: nat, codec: Codec, env: Env)
    returns (obj: Bytes, sizing: Sizing, packed: bool)
    requires limit > 0 && |rows| == |mins| == |maxs| == |ss|
    ensures var a := ChunkColumn(ss, ChunkRecs(rows, mins, maxs, timeBounds), blockRows, timeBounds, codec);
            var (dir, small) := StoredDir(a, compact, env);
            && obj == ObjectBytes(dir, None, Data(Singles(ss), codec), attachAt <= |ss|)
            && sizing == SizingOf(a, |dir|) && packed == small
  {
    hide StoredDir; hide ObjectBytes; hide Add; hide Close; hide BlockAccum.Valid; hide RecordsOk; hide Data; hide SizingOf; hide Recs;
    var acc := new BlockAccum(codec, env, limit, true, timeBounds, compact);
    var w := new Sink();
    for i := 0 to |ss|
      invariant acc.Valid() && acc.codec == codec && acc.env == env && acc.compressBytes == limit && fresh(acc) && fresh(w)
      invariant acc.variable && acc.timeBounds == timeBounds && acc.compactDir == compact
      invariant acc.sink == (if attachAt < i then w else null) && (attachAt >= i ==> w.bytes == [])
      invariant acc.packing == Packing(Singles(ss[..i]), [])
      invariant acc.chunkRows == rows[..i] && (timeBounds ==> acc.minKeys == mins[..i] && acc.maxKeys == maxs[..i])
    {
      if i == attachAt {
        acc.Attach(w);
      }
      acc.AddGranule(ss[i]);
      acc.SealChunk(rows[i], mins[i], maxs[i]);
      OneChunk(ss[..i], ss[i], limit);
      assert ss[..i] + [ss[i]] == ss[..i + 1];
      assert rows[..i] + [rows[i]] == rows[..i + 1] && mins[..i] + [mins[i]] == mins[..i + 1] && maxs[..i] + [maxs[i]] == maxs[..i + 1];
    }
    assert ss[..|ss|] == ss && rows[..|rows|] == rows && mins[..|mins|] == mins && maxs[..|maxs|] == maxs;
    if attachAt == |ss| {
      acc.Attach(w);
    }
    var whole, n := acc.Finish(blockRows, None);
    CloseNothing(Singles(ss));
    assert acc.SealedAs(acc.packing, blockRows) == ChunkColumn(ss, ChunkRecs(rows, mins, maxs, timeBounds), blockRows, timeBounds, codec);
    obj, packed := if whole.Some? then whole.value else w.bytes, acc.packedDir;
    sizing := acc.SizeUp(blockRows);
  }

  lemma OneChunk(ss: seq<Bytes>, s: Bytes, limit: nat)
    ensures Close(Add(Packing(Singles(ss), []), s, limit)) == Packing(Singles(ss + [s]), [])
  {
    hide Flatten;
    assert [] + [s] == [s];
    assert Singles(ss) + [[s]] == Singles(ss + [s]);
  }

  lemma CloseNothing(gs: seq<seq<Bytes>>)
    ensures Close(Packing(gs, [])) == Packing(gs, [])
  {
  }

  // ------------------------------------------------------------ what is written is fit to be read

  /** Streams a column can hold: no frame past an int32 span, the frames together under 2 GiB. */
  ghost predicate StreamsFit(ss: seq<Bytes>, limit: nat, gs: seq<seq<Bytes>>, c: Codec) {
    && 0 < limit && |ss| < TWO63 && |Flatten(ss)| <= MAX_INT64 && |Data(gs, c)| <= MAX_INT32
    && forall i :: 0 <= i < |ss| ==> |ss[i]| + limit <= MAX_INT32 + 1
  }

  lemma {:induction false} GroupsCount(gs: seq<seq<Bytes>>)
    requires forall i :: 0 <= i < |gs| ==> gs[i] != []
    ensures |gs| <= |Flatten(gs)|
  {
    if gs != [] {
      GroupsCount(gs[1..]);
    }
  }

  lemma {:induction false} GroupIn(gs: seq<seq<Bytes>>, i: nat, j: nat)
    requires i < |gs| && j < |gs[i]|
    ensures gs[i][j] in Flatten(gs) && |gs[i]| <= |Flatten(gs)|
  {
    if i > 0 {
      GroupIn(gs[1..], i - 1, j);
    }
  }

  lemma TightFits(gs: seq<seq<Bytes>>, limit: nat, i: nat)
    requires i < |gs| && Tight(gs[i], limit)
    requires forall s :: s in Flatten(gs) ==> |s| + limit <= MAX_INT32 + 1
    ensures |Flatten(gs[i])| <= MAX_INT32 && gs[i] != [] && |gs[i]| <= |Flatten(gs)|
  {
    hide Flatten;
    var g := gs[i];
    var front, last := g[..|g| - 1], g[|g| - 1];
    GroupIn(gs, i, |g| - 1);
    FlattenSnoc(front, last);
    assert front + [last] == g;
  }

  /** Whatever the grouping, tight frames of fitting streams are a directory a reader accepts. */
  lemma FramesAreFit(gs: seq<seq<Bytes>>, limit: nat, c: Codec)
    requires StreamsFit(Flatten(gs), limit, gs, c)
    requires forall i :: 0 <= i < |gs| ==> Tight(gs[i], limit)
    ensures var fs := Recs(gs, c);
            && |Lens(fs)| < TWO63 && |fs| < TWO63 && FramesFit(fs) && NonEmpty(fs) && Sum(Lens(fs)) <= MAX_INT64
            && (forall i :: 0 <= i < |fs| ==> Sum(fs[i].lens) <= MAX_INT32)
  {
    hide Flatten; hide Lens; hide Sum; hide TotalLen; hide FrameOf; hide Data; hide Tight;
    var fs := Recs(gs, c);
    LensAre(gs, c);
    LensSum(Flatten(gs));
    DataLen(gs, c);
    assert forall s :: s in Flatten(gs) ==> |s| + limit <= MAX_INT32 + 1;
    forall i | 0 <= i < |gs| ensures Sum(fs[i].lens) <= MAX_INT32 && gs[i] != [] && |gs[i]| <= |Flatten(gs)| && fs[i].len <= TotalLen(fs) {
      TightFits(gs, limit, i);
      LensSum(gs[i]);
      CountsFit(fs, i);
    }
    GroupsCount(gs);
  }

  /** A fixed-granule column as written meets what its reader demands of it. */
  lemma FixedIsOk(ss: seq<Bytes>, limit: nat, blockRows: nat, c: Codec)
    requires 0 < blockRows < TWO63 && StreamsFit(ss, limit, GroupsOf(ss, limit), c)
    ensures WriterOk(FixedColumn(ss, limit, blockRows, c)) && Flatten(GroupsOf(ss, limit)) == ss
  {
    hide Flatten; hide Lens; hide Sum; hide Recs; hide Add; hide Close; hide AddAll; hide Data; hide Tight; hide Packed;
    AddAllKeeps(ss, limit);
    CloseKeeps(AddAll(EMPTY, ss, limit), limit);
    FramesAreFit(GroupsOf(ss, limit), limit, c);
  }

  lemma {:induction false} SinglesFlatten(ss: seq<Bytes>)
    ensures Flatten(Singles(ss)) == ss
  {
    if ss != [] {
      SinglesFlatten(ss[1..]);
      assert Singles(ss)[1..] == Singles(ss[1..]);
    }
  }

  /** A column of chunks as written meets what its reader demands of it. */
  lemma ChunksAreOk(ss: seq<Bytes>, chunks: seq<ChunkRec>, limit: nat, blockRows: nat, timeBounds: bool, c: Codec)
    requires 0 < blockRows < TWO63 && StreamsFit(ss, limit, Singles(ss), c)
    requires |chunks| == |ss| && ChunksOk(chunks, blockRows, timeBounds) && RowSum(chunks) <= MAX_PART_ROWS
    ensures WriterOk(ChunkColumn(ss, chunks, blockRows, timeBounds, c)) && Flatten(Singles(ss)) == ss
  {
    hide Flatten; hide Lens; hide Sum; hide FrameOf; hide Data; hide RowSum;
    var gs := Singles(ss);
    SinglesFlatten(ss);
    forall i | 0 <= i < |gs| ensures Tight(gs[i], limit) {
      assert gs[i][..|gs[i]| - 1] == [];
      FlattenNil<byte>();
    }
    FramesAreFit(gs, limit, c);
  }

  // ------------------------------------------------------------ written, then read

  /** An opened column gives back every stream that was written, in order, and no more. */
  ghost predicate GivesBack(d: Dir, data: Bytes, c: Codec, variable: bool, ss: seq<Bytes>) {
    d.granules == |ss| && forall k :: 0 <= k < |ss| ==> ReadGranule(d, data, c, variable, k) == Ok(ss[k])
  }

  lemma GivesCount(d: Dir, data: Bytes, c: Codec, variable: bool, ss: seq<Bytes>)
    requires GivesBack(d, data, c, variable, ss)
    ensures d.granules == |ss|
  {
  }

  lemma SealedGivesBack(a: Sealed, gs: seq<seq<Bytes>>, c: Codec)
    requires c.Lawful() && a.frames == Recs(gs, c) && |Data(gs, c)| <= MAX_INT32 && (a.variable ==> OneEach(a.frames))
    ensures GivesBack(DirOf(a), Data(gs, c), c, a.variable, Flatten(gs))
  {
    hide Data; hide Flatten; hide ReadGranule; hide DirOf; hide Recs;
    forall k | 0 <= k < |Flatten(gs)| ensures ReadGranule(DirOf(a), Data(gs, c), c, a.variable, k) == Ok(Flatten(gs)[k]) {
      ColumnReadsBack(a, gs, c, k);
    }
    GranuleCount(a, gs, c);
  }

  lemma GranuleCount(a: Sealed, gs: seq<seq<Bytes>>, c: Codec)
    requires a.frames == Recs(gs, c)
    ensures DirOf(a).granules == |Flatten(gs)|
  {
    TableLens(0, gs, c);
  }

  /** What a reader needs to know of the manifest: it records this column, or nothing. */
  ghost predicate Recorded(chk: Check, a: Sealed, dir: Bytes) {
    CheckFor(chk, a) && (chk.sizing.Some? ==> chk.sizing.value.dirLen == |dir|)
  }

  /** A fixed-granule column written without a sink. */
  lemma KeptColumnReads(ss: seq<Bytes>, limit: nat, blockRows: nat, c: Codec, env: Env, chk: Check, pre: Bytes, post: Bytes)
    requires c.Lawful() && env.Lawful() && 0 < blockRows < TWO63 && StreamsFit(ss, limit, GroupsOf(ss, limit), c)
    requires var a := FixedColumn(ss, limit, blockRows, c);
             var dir := StoredDir(a, false, env).0;
             |dir| < 0x1_0000_0000 && Recorded(chk, a, dir)
    ensures var a := FixedColumn(ss, limit, blockRows, c);
            var dir := StoredDir(a, false, env).0;
            var data := Data(GroupsOf(ss, limit), c);
            var obj := ObjectBytes(dir, None, data, false);
            && ParseLeading(obj, chk, false, env) == Ok(Opened(DirOf(a), data))
            && ReadLeading(pre + obj + post, |pre|, |obj|, chk, false, env) == Ok(Ranged(DirOf(a), |pre| + |dir|))
            && ClampRange(pre + obj + post, |pre| + |dir|, |data|) == data
            && GivesBack(DirOf(a), data, c, false, ss)
  {
    hide Flatten; hide Data; hide EncodeDir; hide ParseLeading; hide ReadLeading; hide ClampRange; hide GivesBack; hide DirOf; hide WriterOk; hide CheckFor; hide Recs; hide GroupsOf; hide StreamsFit;
    var l := FixedLaid(ss, limit, blockRows, c, env, chk);
    LeadingWhole(l, chk, env);
    LeadingRanged(l, chk, env, pre, post);
    var obj := l.dir + l.data;
    Within(pre, obj, post, |l.dir|, |l.data|);
    assert obj[|l.dir|..|l.dir| + |l.data|] == l.data;
  }

  /** The column ready to be laid out, and what it gives back. */
  lemma FixedLaid(ss: seq<Bytes>, limit: nat, blockRows: nat, c: Codec, env: Env, chk: Check) returns (l: Laid)
    requires c.Lawful() && env.Lawful() && 0 < blockRows < TWO63 && StreamsFit(ss, limit, GroupsOf(ss, limit), c)
    requires var a := FixedColumn(ss, limit, blockRows, c);
             var dir := StoredDir(a, false, env).0;
             |dir| < 0x1_0000_0000 && Recorded(chk, a, dir)
    ensures var a := FixedColumn(ss, limit, blockRows, c);
            l == Laid(a, StoredDir(a, false, env).0, false, Data(GroupsOf(ss, limit), c)) && Ready(l, chk, env)
            && GivesBack(DirOf(a), l.data, c, false, ss)
  {
    hide Flatten; hide Data; hide EncodeDir; hide GivesBack; hide DirOf; hide WriterOk; hide CheckFor; hide Recs; hide GroupsOf; hide TotalLen;
    var a, gs := FixedColumn(ss, limit, blockRows, c), GroupsOf(ss, limit);
    l := Laid(a, StoredDir(a, false, env).0, false, Data(gs, c));
    FixedIsOk(ss, limit, blockRows, c);
    DataLen(gs, c);
    SealedGivesBack(a, gs, c);
  }

  /** The same streams, sink attached at any moment: the footer layout gives the same back. */
  lemma StreamedColumnReads(ss: seq<Bytes>, limit: nat, blockRows: nat, c: Codec, env: Env, chk: Check, pre: Bytes, post: Bytes)
    requires c.Lawful() && env.Lawful() && 0 < blockRows < TWO63 && StreamsFit(ss, limit, GroupsOf(ss, limit), c)
    requires var a := FixedColumn(ss, limit, blockRows, c);
             var dir := StoredDir(a, false, env).0;
             |dir| < 0x1_0000_0000 && Recorded(chk, a, dir)
    ensures var a := FixedColumn(ss, limit, blockRows, c);
            var data := Data(GroupsOf(ss, limit), c);
            var obj := ObjectBytes(StoredDir(a, false, env).0, None, data, true);
            && ParseFooter(obj, chk, false, env) == Ok(Opened(DirOf(a), data))
            && ReadFooter(pre + obj + post, |pre|, |obj|, chk, false, env) == Ok(Ranged(DirOf(a), |pre|))
            && ClampRange(pre + obj + post, |pre|, |data|) == data
            && GivesBack(DirOf(a), data, c, false, ss)
  {
    hide Flatten; hide Data; hide EncodeDir; hide ParseFooter; hide ReadFooter; hide ClampRange; hide GivesBack; hide DirOf; hide WriterOk; hide CheckFor; hide Recs; hide GroupsOf; hide StreamsFit; hide PutU32;
    var l := FixedLaid(ss, limit, blockRows, c, env, chk);
    FooterWhole(l, chk, env);
    FooterRanged(l, chk, env, pre, post);
    var obj := Footer(l.dir, l.data);
    Within(pre, obj, post, 0, |l.data|);
    assert obj[0..|l.data|] == l.data;
  }

  /** With a dictionary region, kept or streamed, the trailer layout gives the streams and the region back. */
  lemma TrailerColumnReads(ss: seq<Bytes>, limit: nat, blockRows: nat, region: Bytes, streamed: bool, c: Codec, env: Env, chk: Check)
    requires c.Lawful() && env.Lawful() && 0 < blockRows < TWO63 && StreamsFit(ss, limit, GroupsOf(ss, limit), c)
    requires var a := FixedColumn(ss, limit, blockRows, c);
             var dir := StoredDir(a, false, env).0;
             |dir| < 0x1_0000_0000 && Recorded(chk, a, dir)
    ensures var a := FixedColumn(ss, limit, blockRows, c);
            var data := Data(GroupsOf(ss, limit), c);
            var obj := ObjectBytes(StoredDir(a, false, env).0, Some(region), data, streamed);
            && ParseTrailer(obj, |data|, |region|, chk, env) == Ok(Opened(DirOf(a), data))
            && ReadTrailer(obj, |obj|, |data|, |region|, chk, env) == Ok((region, Ranged(DirOf(a), 0)))
            && ClampRange(obj, |data|, |region|) == region
            && GivesBack(DirOf(a), data, c, false, ss)
  {
    hide Flatten; hide Data; hide EncodeDir; hide ParseTrailer; hide ReadTrailer; hide GivesBack; hide DirOf; hide WriterOk; hide CheckFor; hide Recs; hide GroupsOf; hide StreamsFit; hide PutU32;
    var l := FixedLaid(ss, limit, blockRows, c, env, chk);
    TrailerWhole(l, region, chk, env);
    TrailerRanged(l, region, chk, env);
    var obj := Trailer(l.dir, region, l.data);
    assert obj[|l.data|..|l.data| + |region|] == region;
  }

  /** Chunks of variable size, their directory packed or not, leading or behind: all give the streams back. */
  lemma ChunkColumnReads(
    ss: seq<Bytes>, chunks: seq<ChunkRec>, limit: nat, blockRows: nat, timeBounds: bool, c: Codec, env: Env, chk: Check, pre: Bytes, post: Bytes)
    requires c.Lawful() && env.Lawful() && 0 < blockRows < TWO63 && StreamsFit(ss, limit, Singles(ss), c)
    requires |chunks| == |ss| && ChunksOk(chunks, blockRows, timeBounds) && RowSum(chunks) <= MAX_PART_ROWS
    requires var a := ChunkColumn(ss, chunks, blockRows, timeBounds, c);
             var dir := StoredDir(a, true, env).0;
             |dir| < 0x1_0000_0000 && Recorded(chk, a, dir) && chk.sizing.Some? && |EncodeDir(a, env.crc)| <= MAX_INT64
    ensures var a := ChunkColumn(ss, chunks, blockRows, timeBounds, c);
            var (dir, packed) := StoredDir(a, true, env);
            var data := Data(Singles(ss), c);
            var kept, streamed := ObjectBytes(dir, None, data, false), ObjectBytes(dir, None, data, true);
            && ParseLeading(kept, chk, packed, env) == Ok(Opened(DirOf(a), data))
            && ReadLeading(pre + kept + post, |pre|, |kept|, chk, packed, env) == Ok(Ranged(DirOf(a), |pre| + |dir|))
            && ParseFooter(streamed, chk, packed, env) == Ok(Opened(DirOf(a), data))
            && ReadFooter(pre + streamed + post, |pre|, |streamed|, chk, packed, env) == Ok(Ranged(DirOf(a), |pre|))
            && GivesBack(DirOf(a), data, c, true, ss)
  {
    hide Flatten; hide Data; hide EncodeDir; hide ParseLeading; hide ReadLeading; hide ParseFooter; hide ReadFooter; hide GivesBack; hide DirOf; hide CheckFor; hide Recs; hide PutU32; hide Singles; hide Lens; hide Sum; hide ChunksOk; hide RowSum; hide TotalLen;
    var a, gs := ChunkColumn(ss, chunks, blockRows, timeBounds, c), Singles(ss);
    var (dir, packed) := StoredDir(a, true, env);
    var l := Laid(a, dir, packed, Data(gs, c));
    ChunksAreOk(ss, chunks, limit, blockRows, timeBounds, c);
    DataLen(gs, c);
    SealedGivesBack(a, gs, c);
    LeadingWhole(l, chk, env);
    LeadingRanged(l, chk, env, pre, post);
    FooterWhole(l, chk, env);
    FooterRanged(l, chk, env, pre, post);
  }
}
