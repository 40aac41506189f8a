/** What a reader may rely on in any directory that opens, whatever bytes it was given. */
module DirectorySound {
  import opened Wire
  import opened Chunking
  import opened Directory
  import opened DirectoryParse
  import opened Layouts

  // ------------------------------------------------------------ the frames

  /** Offsets that run from nothing to total, none before the one before it. */
  ghost predicate Runs(off: seq<int>, total: int) {
    && off != [] && off[0] == 0 && off[|off| - 1] == total
    && forall i :: 0 <= i < |off| - 1 ==> off[i] <= off[i + 1]
  }

  /** The longest gap between offsets is largest. */
  ghost predicate Widest(off: seq<int>, largest: int) {
    && (forall i :: 0 <= i < |off| - 1 ==> off[i + 1] - off[i] <= largest)
    && (largest == 0 || exists i :: 0 <= i < |off| - 1 && off[i + 1] - off[i] == largest)
  }

  /** Granules' frames, each a frame there is, in order. */
  ghost predicate InOrder(gFrame: seq<int>, frames: int) {
    && (forall g :: 0 <= g < |gFrame| ==> 0 <= gFrame[g] < frames)
    && forall g :: 0 <= g < |gFrame| - 1 ==> gFrame[g] <= gFrame[g + 1]
  }

  ghost predicate TableSound(t: Table, packed: bool, checked: bool, dataMax: nat) {
    && 0 <= t.total <= dataMax && Runs(t.frameOff, t.total) && Widest(t.frameOff, t.largest)
    && |t.crcs| == (if checked then |t.frameOff| - 1 else 0)
    && |t.gFrame| == (if packed then t.g else 0) && InOrder(t.gFrame, |t.frameOff| - 1)
    && (!packed ==> t.g == |t.frameOff| - 1)
  }

  lemma RunsOn(off: seq<int>, total: int, len: nat)
    requires Runs(off, total)
    ensures Runs(off + [total + len], total + len)
  {
  }

  lemma WidestOn(off: seq<int>, total: int, largest: int, len: nat)
    requires Runs(off, total) && Widest(off, largest)
    ensures Widest(off + [total + len], Max(largest, len))
  {
    var more := off + [total + len];
    var last := |off| - 1;
    assert more[last + 1] - more[last] == len;
    if largest > len && largest != 0 {
      var i :| 0 <= i < |off| - 1 && off[i + 1] - off[i] == largest;
      assert more[i + 1] - more[i] == largest;
    }
  }

  lemma InOrderOn(gFrame: seq<int>, frames: nat, count: nat)
    requires InOrder(gFrame, frames)
    ensures InOrder(gFrame + Repeat(frames, count), frames + 1)
  {
  }

  lemma StepSound(t: Table, e: Entry, granules: nat, packed: bool, checked: bool, dataMax: nat)
    requires TableSound(t, packed, checked, dataMax) && dataMax <= MAX_INT32
    ensures var r := StepFrame(t, e, granules, packed, checked, dataMax);
            r.Ok? ==> TableSound(r.value, packed, checked, dataMax) && |r.value.frameOff| == |t.frameOff| + 1
  {
    hide Runs; hide Widest; hide InOrder;
    if StepFrame(t, e, granules, packed, checked, dataMax).Ok? {
      RunsSome(t.frameOff, t.total);
      RunsOn(t.frameOff, t.total, e.len);
      WidestOn(t.frameOff, t.total, t.largest, e.len);
      InOrderOn(t.gFrame, |t.frameOff| - 1, if packed then e.count else 0);
      assert !packed ==> t.gFrame + Repeat(|t.frameOff| - 1, 0) == t.gFrame;
    }
  }

  lemma RunsSome(off: seq<int>, total: int)
    requires Runs(off, total)
    ensures off != []
  {
  }

  lemma {:induction false} FramesSound(b: Bytes, n: nat, t: Table, granules: nat, packed: bool, checked: bool, dataMax: nat)
    requires TableSound(t, packed, checked, dataMax) && dataMax <= MAX_INT32
    ensures var r := ReadFrames(b, n, t, granules, packed, checked, dataMax);
            r.Ok? ==> TableSound(r.value.value, packed, checked, dataMax) && |r.value.value.frameOff| == |t.frameOff| + n
    decreases n
  {
    hide TableSound; hide ReadEntry; hide StepFrame;
    if n > 0 && ReadEntry(b, checked).Ok? {
      var Read(e, k) := ReadEntry(b, checked).value;
      StepSound(t, e, granules, packed, checked, dataMax);
      var s := StepFrame(t, e, granules, packed, checked, dataMax);
      if s.Ok? {
        FramesSound(b[k..], n - 1, s.value, granules, packed, checked, dataMax);
      }
    }
  }

  // ------------------------------------------------------------ the granule lengths

  /** The lengths as they stand in the bytes. */
  function LensRead(b: Bytes, n: nat): seq<nat> {
    if n == 0 || Uvarint(b).Err? then [] else [Uvarint(b).value.value] + LensRead(b[Uvarint(b).value.n..], n - 1)
  }

  /** A length int64 can hold, as every length a writer seals is. */
  predicate Small(l: nat) { l < TWO63 }

  ghost predicate AllSmall(ls: seq<nat>) { forall i :: 0 <= i < |ls| ==> Small(ls[i]) }

  function SpanEnd(s: Spans, g: nat): int
    requires g < |s.gOff| && g < |s.gLen|
  {
    s.gOff[g] + s.gLen[g]
  }

  /** Granule g's span begins where the one before it in the frame ends. */
  ghost predicate Follows(s: Spans, gFrame: seq<int>, g: nat)
    requires g < |s.gOff| == |s.gLen| <= |gFrame|
  {
    0 <= s.gLen[g] && s.gOff[g] == if g > 0 && gFrame[g - 1] == gFrame[g] then SpanEnd(s, g - 1) else 0
  }

  /** Granule g lies in what its frame decompresses to, and the last of a frame ends it. */
  ghost predicate Ends(s: Spans, gFrame: seq<int>, g: nat)
    requires g < |s.gOff| == |s.gLen| <= |gFrame|
  {
    && 0 <= s.gOff[g] && 0 <= gFrame[g] < |s.frameRaw| && SpanEnd(s, g) <= s.frameRaw[gFrame[g]]
    && (g + 1 == |s.gOff| || gFrame[g + 1] != gFrame[g] ==> SpanEnd(s, g) == s.frameRaw[gFrame[g]])
  }

  /** The spans read so far tile their frames. */
  ghost predicate Tiles(s: Spans, gFrame: seq<int>) {
    && |s.gOff| == |s.gLen| <= |gFrame|
    && (forall g :: 0 <= g < |s.gOff| ==> Follows(s, gFrame, g)) && (forall g :: 0 <= g < |s.gOff| ==> Ends(s, gFrame, g))
  }

  /** The running state is that of the last span. */
  ghost predicate AtLast(s: Spans, gFrame: seq<int>) {
    && |s.gOff| == |s.gLen| <= |gFrame|
    && if s.gOff == [] then s.prev == -1 && s.off == 0 else s.prev == gFrame[|s.gOff| - 1] && s.off == SpanEnd(s, |s.gOff| - 1)
  }

  lemma LenExact(off: int, l: nat)
    requires 0 <= off && off + AsInt64(l) <= MAX_INT32
    ensures AsInt32(l) == l <==> Small(l)
    ensures Small(l) ==> l <= MAX_INT32 && AsInt32(off + AsInt32(l)) == off + l
  {
  }

  lemma {:induction false} OrderedTo(gFrame: seq<int>, frames: int, g: nat, h: nat)
    requires InOrder(gFrame, frames) && g <= h < |gFrame|
    ensures gFrame[g] <= gFrame[h]
    decreases h - g
  {
    if g < h {
      OrderedTo(gFrame, frames, g, h - 1);
      assert gFrame[h - 1] <= gFrame[h - 1 + 1];
    }
  }

  lemma StepTiles(s: Spans, l: nat, gFrame: seq<int>, sizing: Option<Sizing>, rawMax: int)
    requires Tiles(s, gFrame) && AtLast(s, gFrame) && |s.gOff| < |gFrame| && InOrder(gFrame, |s.frameRaw|) && Small(l)
    ensures var r := StepLen(s, l, gFrame[|s.gOff|], true, sizing, rawMax);
            r.Ok? ==> Tiles(r.value, gFrame) && AtLast(r.value, gFrame) && r.value.gLen == s.gLen + [l] && |r.value.frameRaw| == |s.frameRaw|
  {
    hide AsInt32; hide AsInt64; hide Wrap64; hide InOrder;
    var i := |s.gOff|;
    FrameThere(gFrame, |s.frameRaw|, i);
    var f := gFrame[i];
    var r := StepLen(s, l, f, true, sizing, rawMax);
    if r.Ok? {
      var off := if f != s.prev then 0 else s.off;
      LastNonNegative(s, gFrame);
      LenExact(off, l);
      FirstOrNot(s, gFrame);
      var t := r.value;
      assert t.gOff == s.gOff + [off] && t.gLen == s.gLen + [l] && t.frameRaw == s.frameRaw[f := off + l];
      forall g | 0 <= g < |t.gOff| ensures Follows(t, gFrame, g) {
        if g < i {
          assert Follows(s, gFrame, g);
        }
      }
      forall g | 0 <= g < |t.gOff| ensures Ends(t, gFrame, g) {
        if g < i {
          assert Ends(s, gFrame, g) && Ends(s, gFrame, i - 1);
          OrderedTo(gFrame, |s.frameRaw|, g, i - 1);
          OrderedTo(gFrame, |s.frameRaw|, i - 1, i);
          if gFrame[g] == f && g + 1 < i {
            OrderedTo(gFrame, |s.frameRaw|, g, g + 1);
            OrderedTo(gFrame, |s.frameRaw|, g + 1, i - 1);
          }
        }
      }
    }
  }

  lemma FrameThere(gFrame: seq<int>, frames: int, i: nat)
    requires InOrder(gFrame, frames) && i < |gFrame|
    ensures 0 <= gFrame[i] < frames
  {
  }

  lemma LastNonNegative(s: Spans, gFrame: seq<int>)
    requires Tiles(s, gFrame) && AtLast(s, gFrame)
    ensures 0 <= s.off
  {
    if s.gOff != [] {
      assert Follows(s, gFrame, |s.gOff| - 1) && Ends(s, gFrame, |s.gOff| - 1);
    }
  }

  lemma FirstOrNot(s: Spans, gFrame: seq<int>)
    requires AtLast(s, gFrame) && |s.gOff| < |gFrame| && gFrame[|s.gOff|] >= 0
    ensures var i := |s.gOff|; gFrame[i] == s.prev <==> i > 0 && gFrame[i - 1] == gFrame[i]
  {
  }

  /** Read to the end: small lengths are recorded as they stand and tile their frames. */
  lemma {:induction false} LensTile(b: Bytes, i: nat, n: nat, s: Spans, gFrame: seq<int>, sizing: Option<Sizing>, rawMax: int)
    requires i <= n == |gFrame| && |s.gOff| == i && FramesIn(gFrame, true, n, |s.frameRaw|) && InOrder(gFrame, |s.frameRaw|)
    requires Tiles(s, gFrame) && AtLast(s, gFrame) && AllSmall(LensRead(b, n - i)) && ReadLens(b, i, n, s, gFrame, true, sizing, rawMax).Ok?
    ensures var r := ReadLens(b, i, n, s, gFrame, true, sizing, rawMax).value.value;
            r.gLen == s.gLen + LensRead(b, n - i) && Tiles(r, gFrame) && |r.gOff| == n
    decreases n - i
  {
    hide Tiles; hide AtLast; hide StepLen; hide InOrder; hide Uvarint;
    if i < n {
      var Read(l, k) := Uvarint(b).value;
      var more := LensRead(b[k..], n - i - 1);
      assert LensRead(b, n - i) == [l] + more;
      forall j | 0 <= j < |more| ensures Small(more[j]) {
        assert more[j] == LensRead(b, n - i)[j + 1];
      }
      assert Small(LensRead(b, n - i)[0]);
      TilesLens(s, gFrame);
      StepTiles(s, l, gFrame, sizing, rawMax);
      var t := StepLen(s, l, gFrame[i], true, sizing, rawMax).value;
      TilesLens(t, gFrame);
      LensTile(b[k..], i + 1, n, t, gFrame, sizing, rawMax);
      assert s.gLen + [l] + more == s.gLen + ([l] + more);
    }
  }

  lemma TilesLens(s: Spans, gFrame: seq<int>)
    requires Tiles(s, gFrame)
    ensures |s.gOff| == |s.gLen|
  {
  }

  ghost predicate AllInt32(ls: seq<int>) { forall i :: 0 <= i < |ls| ==> ls[i] <= MAX_INT32 }

  /** Whatever the lengths, as many are recorded as are read, each within int32. */
  lemma {:induction false} LensKept(b: Bytes, i: nat, n: nat, s: Spans, gFrame: seq<int>, sizing: Option<Sizing>, rawMax: int)
    requires i <= n == |gFrame| && FramesIn(gFrame, true, n, |s.frameRaw|) && AllInt32(s.gLen) && ReadLens(b, i, n, s, gFrame, true, sizing, rawMax).Ok?
    ensures var r := ReadLens(b, i, n, s, gFrame, true, sizing, rawMax).value.value;
            |LensRead(b, n - i)| == n - i && |r.gLen| == |s.gLen| + (n - i) && AllInt32(r.gLen)
    decreases n - i
  {
    hide Uvarint; hide AllInt32; hide StepLen;
    if i < n {
      var Read(l, k) := Uvarint(b).value;
      LenKept(s, l, gFrame[i], sizing, rawMax);
      LensKept(b[k..], i + 1, n, StepLen(s, l, gFrame[i], true, sizing, rawMax).value, gFrame, sizing, rawMax);
    }
  }

  lemma LenKept(s: Spans, l: nat, f: int, sizing: Option<Sizing>, rawMax: int)
    requires 0 <= f < |s.frameRaw| && AllInt32(s.gLen)
    ensures var r := StepLen(s, l, f, true, sizing, rawMax);
            r.Ok? ==> |r.value.gLen| == |s.gLen| + 1 && AllInt32(r.value.gLen)
  {
  }

  /**
   Any granule lengths that open over frames in order: they are recorded as they stand in the bytes if and
   only if each is one int64 can hold, and then their spans tile what the frames decompress to.
   */
  lemma SpansSoundIff(b: Bytes, h: Header, gFrame: seq<int>, chk: Check)
    requires chk.maxBlockRows == 0 && |gFrame| == h.granules && InOrder(gFrame, h.frames) && FramesIn(gFrame, true, h.granules, h.frames)
    requires ParseLens(b, h, gFrame, chk).Ok?
    ensures var s := ParseLens(b, h, gFrame, chk).value.value;
            && (s.gLen == LensRead(b, h.granules) <==> AllSmall(LensRead(b, h.granules)))
            && (AllSmall(LensRead(b, h.granules)) ==> Tiles(s, gFrame) && |s.gOff| == h.granules)
  {
    hide ReadLens; hide Tiles; hide InOrder; hide LensRead;
    var ls, first := LensRead(b, h.granules), EmptySpans(h.frames);
    LensKept(b, 0, h.granules, first, gFrame, chk.sizing, RawLimit(chk, h.granules));
    if AllSmall(ls) {
      NothingTiles(first, gFrame);
      LensTile(b, 0, h.granules, first, gFrame, chk.sizing, RawLimit(chk, h.granules));
      assert [] + ls == ls;
    }
    var s := ParseLens(b, h, gFrame, chk).value.value;
    if s.gLen == ls {
      forall i | 0 <= i < |ls| ensures Small(ls[i]) {
        assert s.gLen[i] <= MAX_INT32;
      }
    }
  }

  /** How they differ: a length of 2^63 is negative as an int64, passes the bound, and is recorded as 0. */
  lemma HugeLength()
    ensures var r := StepLen(EmptySpans(1), TWO63, 0, true, None, -1);
            r.Ok? && r.value.gLen == [0]
  {
    assert AsInt64(TWO63) == -TWO63 && AsInt32(TWO63) == 0;
  }

  lemma NothingTiles(s: Spans, gFrame: seq<int>)
    requires s.gOff == [] && s.gLen == [] && s.prev == -1 && s.off == 0
    ensures Tiles(s, gFrame) && AtLast(s, gFrame)
  {
  }

  // ------------------------------------------------------------ the chunk rows

  /** Row starts that step by 1 to most rows, from nothing to sum. */
  ghost predicate Climbs(starts: seq<int>, sum: int, most: int) {
    && starts != [] && starts[0] == 0 && starts[|starts| - 1] == sum
    && forall i :: 0 <= i < |starts| - 1 ==> 1 <= starts[i + 1] - starts[i] <= most
  }

  ghost predicate Ranges(mins: seq<int>, maxs: seq<int>, n: int) {
    && |mins| == |maxs| == n
    && forall i :: 0 <= i < n ==> IsInt64(mins[i]) && IsInt64(maxs[i]) && mins[i] <= maxs[i]
  }

  ghost predicate ChunksSound(c: Chunked, most: nat, timeBounds: bool) {
    && Climbs(c.rowStarts, c.sum, most) && c.sum <= MAX_PART_ROWS
    && Ranges(c.minKeys, c.maxKeys, if timeBounds then |c.rowStarts| - 1 else 0)
  }

  lemma {:induction false} RowsSound(b: Bytes, n: nat, c: Chunked, most: nat, timeBounds: bool)
    requires ChunksSound(c, most, timeBounds)
    ensures var r := ReadChunks(b, n, c, most, timeBounds);
            r.Ok? ==> ChunksSound(r.value.value, most, timeBounds) && |r.value.value.rowStarts| == |c.rowStarts| + n
    decreases n
  {
    hide ChunksSound; hide ReadChunk; hide StepChunk;
    if n > 0 && ReadChunk(b, timeBounds).Ok? {
      var Read(e, k) := ReadChunk(b, timeBounds).value;
      ChunkSound(c, e, most, timeBounds);
      var s := StepChunk(c, e, most, timeBounds);
      if s.Ok? {
        RowsSound(b[k..], n - 1, s.value, most, timeBounds);
      }
    }
  }

  lemma ChunkSound(c: Chunked, e: ChunkEntry, most: nat, timeBounds: bool)
    requires ChunksSound(c, most, timeBounds)
    ensures var r := StepChunk(c, e, most, timeBounds);
            r.Ok? ==> ChunksSound(r.value, most, timeBounds) && |r.value.rowStarts| == |c.rowStarts| + 1
  {
    hide Climbs; hide Ranges;
    var r := StepChunk(c, e, most, timeBounds);
    if r.Ok? {
      ClimbsOn(c.rowStarts, c.sum, most, e.rows);
      if timeBounds {
        var lo := Wrap64(c.previous + e.delta);
        RangesOn(c.minKeys, c.maxKeys, |c.rowStarts| - 1, lo, Wrap64(lo + e.span));
      }
    }
  }

  lemma ClimbsOn(starts: seq<int>, sum: int, most: int, rows: int)
    requires Climbs(starts, sum, most) && 1 <= rows <= most
    ensures starts != [] && Climbs(starts + [sum + rows], sum + rows, most)
  {
  }

  lemma RangesOn(mins: seq<int>, maxs: seq<int>, n: int, lo: int, hi: int)
    requires Ranges(mins, maxs, n) && IsInt64(lo) && IsInt64(hi) && lo <= hi
    ensures Ranges(mins + [lo], maxs + [hi], n + 1)
  {
  }

  // ------------------------------------------------------------ the directory

  /** The frames tile the data, in the number and no longer than the manifest says; granules follow them. */
  ghost predicate FramesHold(d: Dir, total: int, chk: Check) {
    && Runs(d.frameOff, total) && |d.frameCRC| == (if chk.checked then |d.frameOff| - 1 else 0)
    && InOrder(d.gFrame, |d.frameOff| - 1) && |d.gFrame| == (if chk.maxBlockRows == 0 then d.granules else 0)
    && (chk.maxBlockRows > 0 ==> d.granules == |d.frameOff| - 1)
    && (chk.sizing.Some? ==>
          && d.granules == chk.sizing.value.numGranules && |d.frameOff| - 1 == chk.sizing.value.numFrames
          && Widest(d.frameOff, chk.sizing.value.maxFrameBytes))
  }

  /** Chunks have at least a row and at most the manifest's, add up to its rows, and their keys are ranges. */
  ghost predicate RowsHold(d: Dir, chk: Check) {
    chk.maxBlockRows > 0 ==>
      && |d.rowStarts| == d.granules + 1 && Climbs(d.rowStarts, d.rowStarts[d.granules], chk.maxBlockRows)
      && (chk.rows > 0 ==> d.rowStarts[d.granules] == chk.rows)
      && Ranges(d.minKeys, d.maxKeys, if chk.timeBounds then d.granules else 0)
  }

  lemma FieldsFrames(b: Bytes, dataMax: nat, chk: Check)
    requires ParseFields(b, dataMax, chk).Ok? && dataMax <= MAX_INT32
    ensures var p := ParseFields(b, dataMax, chk).value;
            FramesHold(p.dir, p.total, chk) && p.total <= dataMax
  {
    hide ReadFrames; hide ReadLens; hide ReadChunks; hide Uvarint; hide Runs; hide Widest; hide InOrder;
    var Read(h, n) := ParseHeader(b).value;
    TableStarts(chk.maxBlockRows == 0, chk.checked, dataMax);
    FramesSound(b[n..], h.frames, EMPTY_TABLE, h.granules, chk.maxBlockRows == 0, chk.checked, dataMax);
  }

  function SpansOf(d: Dir): Spans { Spans(0, -1, d.gOff, d.gLen, d.frameRaw, 0, 0, 0) }

  /** A directory of packed frames: where its granule lengths stand, and that small ones give spans that tile the frames. */
  lemma FieldsSpansIff(b: Bytes, dataMax: nat, chk: Check) returns (at: nat)
    requires ParseFields(b, dataMax, chk).Ok? && dataMax <= MAX_INT32 && chk.maxBlockRows == 0
    ensures at <= |b|
    ensures var d := ParseFields(b, dataMax, chk).value.dir;
            var lens := LensRead(b[at..], d.granules);
            && (d.gLen == lens <==> AllSmall(lens)) && (AllSmall(lens) ==> Tiles(SpansOf(d), d.gFrame) && |d.gLen| == d.granules)
  {
    hide ReadFrames; hide ReadLens; hide ReadChunks; hide Uvarint; hide Runs; hide Widest; hide InOrder; hide LensRead; hide AllSmall; hide Follows; hide Ends;
    var Read(h, n) := ParseHeader(b).value;
    TableStarts(true, chk.checked, dataMax);
    FramesSound(b[n..], h.frames, EMPTY_TABLE, h.granules, true, chk.checked, dataMax);
    var Read(t, m) := ParseTable(b[n..], h, dataMax, chk).value;
    at := n + m;
    SpansSoundIff(b[at..], h, t.gFrame, chk);
    var s := ParseLens(b[at..], h, t.gFrame, chk).value.value;
    var d := ParseFields(b, dataMax, chk).value.dir;
    if Tiles(s, t.gFrame) {
      SameSpans(s, SpansOf(d), t.gFrame);
    }
  }

  lemma SameSpans(s: Spans, t: Spans, gFrame: seq<int>)
    requires Tiles(s, gFrame) && t.gOff == s.gOff && t.gLen == s.gLen && t.frameRaw == s.frameRaw
    ensures Tiles(t, gFrame)
  {
    forall g | 0 <= g < |t.gOff| ensures Follows(t, gFrame, g) && Ends(t, gFrame, g) {
      assert Follows(s, gFrame, g) && Ends(s, gFrame, g);
    }
  }

  lemma TableStarts(packed: bool, checked: bool, dataMax: nat)
    ensures TableSound(EMPTY_TABLE, packed, checked, dataMax)
  {
  }

  lemma FieldsRows(b: Bytes, dataMax: nat, chk: Check)
    requires ParseFields(b, dataMax, chk).Ok?
    ensures RowsHold(ParseFields(b, dataMax, chk).value.dir, chk)
  {
    hide ReadFrames; hide ReadLens; hide ReadChunks; hide Uvarint; hide Climbs; hide Ranges;
    if chk.maxBlockRows > 0 {
      var Read(h, n) := ParseHeader(b).value;
      var Read(t, m) := ParseTable(b[n..], h, dataMax, chk).value;
      var Read(s, k) := ParseLens(b[n + m..], h, t.gFrame, chk).value;
      var first := NO_CHUNKS.(rowStarts := [0]);
      ChunksStart(first, chk);
      RowsSound(b[n + m + k..], h.granules, first, chk.maxBlockRows, chk.timeBounds);
      var c := ParseChunks(b[n + m + k..], h, chk).value.value;
      ClimbsTo(c.rowStarts, c.sum, chk.maxBlockRows);
    }
  }

  lemma ChunksStart(c: Chunked, chk: Check)
    requires c == NO_CHUNKS.(rowStarts := [0])
    ensures ChunksSound(c, chk.maxBlockRows, chk.timeBounds)
  {
  }

  lemma ClimbsTo(starts: seq<int>, sum: int, most: int)
    requires Climbs(starts, sum, most)
    ensures starts != [] && starts[|starts| - 1] == sum
  {
  }

  /** The directory's last four bytes are the checksum of all before them. */
  ghost predicate Vouched(dir: Bytes, crc: Bytes -> uint32) {
    |dir| >= CRC_BYTES && CrcAt(dir, |dir| - CRC_BYTES, crc)
  }

  /**
   Any bytes at all that open as a plain directory over frames of a length offsets can hold: the checksum
   agrees, the length is the manifest's, the frames tile exactly those bytes, the longest is the one the
   manifest records, and chunk rows add up.
   */
  lemma OpensSound(dir: Bytes, frameBytes: nat, chk: Check, env: Env)
    requires ParsePlain(dir, frameBytes, chk, env).Ok? && frameBytes <= MAX_INT32
    ensures var d := ParsePlain(dir, frameBytes, chk, env).value;
            && FramesHold(d, frameBytes, chk) && RowsHold(d, chk)
            && (chk.checked ==> Vouched(dir, env.crc)) && (chk.sizing.Some? ==> |dir| == chk.sizing.value.dirLen)
  {
    hide ParseFields; hide FramesHold; hide RowsHold;
    FieldsFrames(dir, frameBytes, chk);
    FieldsRows(dir, frameBytes, chk);
  }

  /** Packed, the same of what it unpacks to, whose length it records; and its own checksum agrees. */
  lemma CompactSound(dir: Bytes, frameBytes: nat, chk: Check, env: Env)
    requires ParseCompact(dir, frameBytes, chk, env).Ok? && frameBytes <= MAX_INT32
    ensures var d := ParseCompact(dir, frameBytes, chk, env).value;
            && FramesHold(d, frameBytes, chk) && RowsHold(d, chk)
            && Vouched(dir, env.crc) && chk.sizing.Some? && |dir| == chk.sizing.value.dirLen
  {
    hide ParsePlain; hide Uvarint; hide Vouched; hide Runs; hide Widest; hide InOrder; hide RowsHold;
    var Read(n, k) := Uvarint(dir[..|dir| - CRC_BYTES]).value;
    var raw := env.unpack(dir[k..|dir| - CRC_BYTES]).value;
    var inner := chk.(sizing := Some(chk.sizing.value.(dirLen := n)));
    OpensSound(raw, frameBytes, inner, env);
    RowsSame(ParsePlain(raw, frameBytes, inner, env).value, inner, chk);
    VouchedIs(dir, env.crc);
  }

  lemma RowsSame(d: Dir, inner: Check, chk: Check)
    requires RowsHold(d, inner) && inner.maxBlockRows == chk.maxBlockRows && inner.rows == chk.rows && inner.timeBounds == chk.timeBounds
    ensures RowsHold(d, chk)
  {
  }

  lemma VouchedIs(dir: Bytes, crc: Bytes -> uint32)
    requires |dir| >= CRC_BYTES && CrcAt(dir, |dir| - CRC_BYTES, crc)
    ensures Vouched(dir, crc)
  {
  }

  // ------------------------------------------------------------ whole objects

  /** What an opened object comes to: its frames tile the data it serves, under a directory that is vouched for. */
  ghost predicate OpenedSound(o: Opened, dir: Bytes, chk: Check, env: Env) {
    && FramesHold(o.dir, |o.data|, chk) && RowsHold(o.dir, chk)
    && (chk.checked ==> Vouched(dir, env.crc)) && (chk.sizing.Some? ==> |dir| == chk.sizing.value.dirLen)
  }

  lemma DetachedSound(dir: Bytes, data: Bytes, chk: Check, compact: bool, env: Env)
    requires ParseDetached(dir, |data|, chk, compact, env).Ok? && |data| <= MAX_INT32
    ensures OpenedSound(Opened(ParseDetached(dir, |data|, chk, compact, env).value, data), dir, chk, env)
  {
    hide ParsePlain; hide ParseCompact; hide FramesHold; hide RowsHold; hide Vouched;
    if compact {
      CompactSound(dir, |data|, chk, env);
    } else {
      OpensSound(dir, |data|, chk, env);
    }
  }

  /** A footer object that opens is its data, its directory and the directory's length. */
  lemma FooterSound(obj: Bytes, chk: Check, compact: bool, env: Env) returns (dir: Bytes)
    requires ParseFooter(obj, chk, compact, env).Ok? && |obj| <= MAX_INT32
    ensures var o := ParseFooter(obj, chk, compact, env).value;
            && OpenedSound(o, dir, chk, env)
            && |obj| == |o.data| + |dir| + FOOTER_LEN_BYTES && o.data + dir == obj[..|o.data| + |dir|]
            && U32(obj[|o.data| + |dir|..]) == |dir|
  {
    hide ParseDetached; hide OpenedSound; hide U32;
    var end := |obj| - FOOTER_LEN_BYTES;
    var dirLen := U32(obj[end..]);
    dir := obj[end - dirLen..end];
    DetachedSound(dir, obj[..end - dirLen], chk, compact, env);
  }

  /** A trailer object that opens is its data, its dictionary's region, its directory and that directory's length. */
  lemma TrailerSound(obj: Bytes, dictOff: nat, dictLen: nat, chk: Check, env: Env) returns (dir: Bytes)
    requires ParseTrailer(obj, dictOff, dictLen, chk, env).Ok? && |obj| <= MAX_INT32
    ensures var o := ParseTrailer(obj, dictOff, dictLen, chk, env).value;
            && OpenedSound(o, dir, chk, env)
            && |obj| == dictOff + dictLen + |dir| + FOOTER_LEN_BYTES && o.data == obj[..dictOff]
            && dir == obj[dictOff + dictLen..dictOff + dictLen + |dir|] && U32(obj[dictOff + dictLen + |dir|..]) == |dir|
  {
    hide ParseDetached; hide OpenedSound; hide U32;
    var end := |obj| - FOOTER_LEN_BYTES;
    dir := obj[dictOff + dictLen..end];
    DetachedSound(dir, obj[..dictOff], chk, false, env);
  }

  /** An object that opens from its head begins with its directory, and its data comes next. */
  lemma LeadingSound(obj: Bytes, chk: Check, compact: bool, env: Env) returns (dir: Bytes)
    requires ParseLeading(obj, chk, compact, env).Ok? && |obj| <= MAX_INT32
    ensures var o := ParseLeading(obj, chk, compact, env).value;
            OpenedSound(o, dir, chk, env) && dir + o.data <= obj
  {
    hide ParseDetached; hide ParseFields; hide OpenedSound; hide U32;
    if compact {
      var n := chk.sizing.value.dirLen;
      dir := obj[..n];
      DetachedSound(dir, obj[n..], chk, true, env);
    } else {
      var p := ParseFields(obj, |obj|, chk).value;
      var pos := if chk.checked then p.pos + CRC_BYTES else p.pos;
      dir := obj[..pos];
      FieldsFrames(obj, |obj|, chk);
      FieldsRows(obj, |obj|, chk);
      if chk.checked {
        HeadVouched(obj, p.pos, env.crc);
      }
      LeadingIs(Opened(p.dir, obj[pos..pos + p.total]), dir, chk, env);
      assert obj[..pos] + obj[pos..pos + p.total] == obj[..pos + p.total];
    }
  }

  lemma LeadingIs(o: Opened, dir: Bytes, chk: Check, env: Env)
    requires FramesHold(o.dir, |o.data|, chk) && RowsHold(o.dir, chk)
    requires (chk.checked ==> Vouched(dir, env.crc)) && DirLenOk(chk, |dir|)
    ensures OpenedSound(o, dir, chk, env)
  {
  }

  lemma HeadVouched(obj: Bytes, pos: nat, crc: Bytes -> uint32)
    requires CrcAt(obj, pos, crc)
    ensures Vouched(obj[..pos + CRC_BYTES], crc)
  {
    assert obj[..pos + CRC_BYTES][..pos] == obj[..pos];
    assert obj[..pos + CRC_BYTES][pos..] == obj[pos..][..CRC_BYTES];
  }
}
