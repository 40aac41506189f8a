/** What a written directory means: the spans its bytes stand for, and that parsing recovers them. */
module DirectoryMeaning {
  import opened Wire
  import opened Chunking
  import opened Directory
  import opened DirectoryParse

  function Sum(ls: seq<nat>): nat {
    if ls == [] then 0 else ls[0] + Sum(ls[1..])
  }

  function MaxOf(m: int, ls: seq<nat>): int
    decreases ls
  {
    if ls == [] then m else MaxOf(Max(m, ls[0]), ls[1..])
  }

  /** The offset of each of a run of spans laid end to end from off. */
  function Starts(off: int, ls: seq<nat>): seq<int>
    decreases ls
  {
    if ls == [] then [] else [off] + Starts(off + ls[0], ls[1..])
  }

  // ------------------------------------------------------------ the frame table

  function TotalLen(fs: seq<FrameRec>): nat {
    if fs == [] then 0 else fs[0].len + TotalLen(fs[1..])
  }

  function MaxLen(m: nat, fs: seq<FrameRec>): nat
    decreases fs
  {
    if fs == [] then m else MaxLen(Max(m, fs[0].len), fs[1..])
  }

  /** Where each frame ends. */
  function Ends(total: int, fs: seq<FrameRec>): seq<int>
    decreases fs
  {
    if fs == [] then [] else [total + fs[0].len] + Ends(total + fs[0].len, fs[1..])
  }

  /** The frame ends as the parser stores them, in int32. */
  function Ends32(total: int, fs: seq<FrameRec>): seq<int>
    decreases fs
  {
    if fs == [] then [] else [AsInt32(total + fs[0].len)] + Ends32(total + fs[0].len, fs[1..])
  }

  /** Each granule's frame. */
  function Owners(f: int, fs: seq<FrameRec>): seq<int>
    decreases fs
  {
    if fs == [] then [] else Repeat(f, |fs[0].lens|) + Owners(f + 1, fs[1..])
  }

  function Crcs(fs: seq<FrameRec>): seq<uint32> {
    if fs == [] then [] else [fs[0].crc] + Crcs(fs[1..])
  }

  ghost predicate OneEach(fs: seq<FrameRec>) { forall i :: 0 <= i < |fs| ==> |fs[i].lens| == 1 }

  lemma {:induction false} StepFramesOk(t: Table, fs: seq<FrameRec>, granules: nat, packed: bool, dataMax: nat)
    requires t.frameOff != [] && t.g + |Lens(fs)| <= granules && t.total + TotalLen(fs) <= dataMax && 0 <= t.total
    requires packed || OneEach(fs)
    ensures StepFrames(t, fs, granules, packed, dataMax)
         == Ok(Table(t.total + TotalLen(fs), t.g + |Lens(fs)|, MaxLen(t.largest, fs), t.frameOff + Ends32(t.total, fs),
                     if packed then t.gFrame + Owners(|t.frameOff| - 1, fs) else t.gFrame, t.crcs + Crcs(fs)))
    decreases fs
  {
    if fs == [] {
      assert t.frameOff + [] == t.frameOff && t.gFrame + [] == t.gFrame && t.crcs + [] == t.crcs;
    } else {
      var f := fs[0];
      hide AsInt32;
      var s := StepFrame(t, Entry(|f.lens|, f.len, f.crc), granules, packed, true, dataMax);
      StepFramesOk(s.value, fs[1..], granules, packed, dataMax);
      hide StepFrames;
      StepFramesHead(t, fs, granules, packed, dataMax);
      Assoc(t.frameOff, [AsInt32(t.total + f.len)], Ends32(t.total + f.len, fs[1..]));
      Assoc(t.crcs, [f.crc], Crcs(fs[1..]));
      Assoc(t.gFrame, Repeat(|t.frameOff| - 1, |f.lens|), Owners(|t.frameOff|, fs[1..]));
    }
  }

  // ------------------------------------------------------------ the granule spans

  /** Each granule's offset within its frame. */
  function Offsets(fs: seq<FrameRec>): seq<int> {
    if fs == [] then [] else Starts(0, fs[0].lens) + Offsets(fs[1..])
  }

  function Raws(fs: seq<FrameRec>): seq<int> {
    if fs == [] then [] else [Sum(fs[0].lens)] + Raws(fs[1..])
  }

  function MaxRaw(m: int, fs: seq<FrameRec>): int
    decreases fs
  {
    if fs == [] then m else MaxRaw(Max(m, Sum(fs[0].lens)), fs[1..])
  }

  predicate Fits(sizing: Option<Sizing>, rawMax: int, maxGran: int, maxFrame: int, total: int) {
    && (sizing.Some? ==> maxGran <= sizing.value.maxGranuleRaw && maxFrame <= sizing.value.maxFrameRaw)
    && (rawMax >= 0 ==> total <= rawMax)
  }

  lemma {:induction false} MaxOfGrows(m: int, ls: seq<nat>)
    ensures m <= MaxOf(m, ls)
    decreases ls
  {
    if ls != [] {
      MaxOfGrows(Max(m, ls[0]), ls[1..]);
    }
  }

  lemma {:induction false} MaxRawGrows(m: int, fs: seq<FrameRec>)
    ensures m <= MaxRaw(m, fs)
    decreases fs
  {
    if fs != [] {
      MaxRawGrows(Max(m, Sum(fs[0].lens)), fs[1..]);
    }
  }

  /** The spans after a run of granules of one frame. */
  function AfterRun(s: Spans, ls: seq<nat>, f: int, packed: bool): Spans
    requires 0 <= f < |s.frameRaw|
  {
    if ls == [] then s
    else
      var off := if f != s.prev then 0 else s.off;
      Spans(off + Sum(ls), f, if packed then s.gOff + Starts(off, ls) else s.gOff, if packed then s.gLen + ls else s.gLen,
            s.frameRaw[f := off + Sum(ls)], s.total + Sum(ls), MaxOf(s.maxGran, ls), Max(s.maxFrame, off + Sum(ls)))
  }

  lemma IntExact(v: nat)
    ensures v <= MAX_INT32 ==> AsInt32(v) == v
    ensures v <= MAX_INT64 ==> AsInt64(v) == v && Wrap64(v) == v
  {
  }

  lemma One(l: nat, m: int, off: int)
    ensures Sum([l]) == l && MaxOf(m, [l]) == Max(m, l) && Starts(off, [l]) == [off]
  {
    var ls := [l];
    assert ls[1..] == [];
    assert Sum(ls) == l + Sum(ls[1..]);
    assert MaxOf(m, ls) == MaxOf(Max(m, l), ls[1..]);
    assert Starts(off, ls) == [off] + Starts(off + l, ls[1..]);
  }

  lemma StepLenOk(s: Spans, l: nat, f: int, packed: bool, sizing: Option<Sizing>, rawMax: int)
    requires 0 <= f < |s.frameRaw| && 0 <= s.off && 0 <= s.total && s.total + l <= MAX_INT64
    requires (if f != s.prev then 0 else s.off) + l <= MAX_INT32
    requires Fits(sizing, rawMax, Max(s.maxGran, l), Max(s.maxFrame, (if f != s.prev then 0 else s.off) + l), s.total + l)
    ensures StepLen(s, l, f, packed, sizing, rawMax) == Ok(AfterRun(s, [l], f, packed))
  {
    hide AsInt32; hide AsInt64; hide Wrap64; hide Sum; hide MaxOf; hide Starts;
    var off := if f != s.prev then 0 else s.off;
    One(l, s.maxGran, off);
    IntExact(l);
    IntExact(off + l);
    IntExact(s.total + l);
  }

  lemma {:induction false} RunOk(
    s: Spans, ls: seq<nat>, more: seq<nat>, i: nat, f: int, gFrame: seq<int>, packed: bool, sizing: Option<Sizing>, rawMax: int)
    requires 0 <= f < |s.frameRaw| && FramesIn(gFrame, packed, i + |ls| + |more|, |s.frameRaw|)
    requires forall k :: i <= k < i + |ls| ==> FrameAt(gFrame, packed, k) == f
    requires 0 <= s.off && 0 <= s.total && s.total + Sum(ls) <= MAX_INT64
    requires (if f != s.prev then 0 else s.off) + Sum(ls) <= MAX_INT32
    requires Fits(sizing, rawMax, MaxOf(s.maxGran, ls), Max(s.maxFrame, (if f != s.prev then 0 else s.off) + Sum(ls)), s.total + Sum(ls))
    ensures StepLens(s, ls + more, i, gFrame, packed, sizing, rawMax)
         == StepLens(AfterRun(s, ls, f, packed), more, i + |ls|, gFrame, packed, sizing, rawMax)
    decreases ls
  {
    hide StepLens; hide StepLen; hide AfterRun; hide Sum; hide MaxOf; hide FrameAt;
    if ls == [] {
      assert ls + more == more;
      RunNothing(s, f, packed);
    } else {
      var l, rest := ls[0], ls[1..];
      assert (ls + more)[0] == l && (ls + more)[1..] == rest + more;
      assert [l] + rest == ls;
      Cons(l, rest, s.maxGran, 0);
      MaxOfGrows(Max(s.maxGran, l), rest);
      StepLenOk(s, l, f, packed, sizing, rawMax);
      StepLensHead(s, ls + more, i, gFrame, packed, sizing, rawMax);
      var s' := AfterRun(s, [l], f, packed);
      assert FrameAt(gFrame, packed, i) == f;
      RunAfter(s, l, rest, f, packed);
      RunOk(s', rest, more, i + 1, f, gFrame, packed, sizing, rawMax);
    }
  }

  lemma RunNothing(s: Spans, f: int, packed: bool)
    requires 0 <= f < |s.frameRaw|
    ensures AfterRun(s, [], f, packed) == s
  {
  }

  /** Running on from one granule is running the whole. */
  lemma RunAfter(s: Spans, l: nat, rest: seq<nat>, f: int, packed: bool)
    requires 0 <= f < |s.frameRaw|
    ensures var s' := AfterRun(s, [l], f, packed);
            && s'.prev == f && s'.off == (if f != s.prev then 0 else s.off) + l && s'.total == s.total + l
            && s'.maxGran == Max(s.maxGran, l) && s'.maxFrame == Max(s.maxFrame, s'.off) && |s'.frameRaw| == |s.frameRaw|
            && AfterRun(s', rest, f, packed) == AfterRun(s, [l] + rest, f, packed)
  {
    hide Sum; hide MaxOf; hide Starts;
    var off := if f != s.prev then 0 else s.off;
    One(l, s.maxGran, off);
    Cons(l, rest, s.maxGran, off);
    Assoc(s.gOff, [off], Starts(off + l, rest));
    Assoc(s.gLen, [l], rest);
    if rest == [] {
      assert [l] + rest == [l];
    }
  }

  lemma Cons(l: nat, rest: seq<nat>, m: int, off: int)
    ensures Sum([l] + rest) == l + Sum(rest)
    ensures MaxOf(m, [l] + rest) == MaxOf(Max(m, l), rest)
    ensures Starts(off, [l] + rest) == [off] + Starts(off + l, rest)
  {
    var all := [l] + rest;
    assert all[0] == l && all[1..] == rest;
    ConsStarts(l, rest, all, off);
  }

  lemma ConsStarts(l: nat, rest: seq<nat>, all: seq<nat>, off: int)
    requires all != [] && all[0] == l && all[1..] == rest
    ensures Starts(off, all) == [off] + Starts(off + l, rest)
  {
  }

  // ------------------------------------------------------------ all frames' granules

  ghost predicate NonEmpty(fs: seq<FrameRec>) { forall i :: 0 <= i < |fs| ==> fs[i].lens != [] }

  /** Granules from i on belong to fs, numbered from f. */
  ghost predicate Owned(gFrame: seq<int>, packed: bool, i: nat, f: nat, fs: seq<FrameRec>) {
    if packed then |gFrame| == i + |Lens(fs)| && gFrame[i..] == Owners(f, fs) else i == f && OneEach(fs)
  }

  function AfterAll(s: Spans, fs: seq<FrameRec>, f: nat, packed: bool): Spans
    requires f + |fs| == |s.frameRaw|
    decreases fs
  {
    if fs == [] then s else AfterAll(AfterRun(s, fs[0].lens, f, packed), fs[1..], f + 1, packed)
  }

  lemma OwnedHead(gFrame: seq<int>, packed: bool, i: nat, f: nat, fs: seq<FrameRec>)
    requires fs != [] && Owned(gFrame, packed, i, f, fs)
    ensures forall k :: i <= k < i + |fs[0].lens| ==> (packed ==> k < |gFrame|) && FrameAt(gFrame, packed, k) == f
    ensures Owned(gFrame, packed, i + |fs[0].lens|, f + 1, fs[1..])
    ensures |Lens(fs)| == |fs[0].lens| + |Lens(fs[1..])|
  {
    if packed {
      var n := |fs[0].lens|;
      var head, tail := Repeat(f, n), Owners(f + 1, fs[1..]);
      assert gFrame[i..] == head + tail;
      forall k | i <= k < i + n ensures gFrame[k] == f {
        assert gFrame[k] == gFrame[i..][k - i];
      }
      DropPrefix(head, tail);
      assert gFrame[i + n..] == gFrame[i..][n..];
    }
  }

  lemma {:induction false} AllRunsOk(
    s: Spans, fs: seq<FrameRec>, i: nat, f: nat, gFrame: seq<int>, packed: bool, sizing: Option<Sizing>, rawMax: int)
    requires f + |fs| == |s.frameRaw| && s.prev < f && NonEmpty(fs) && Owned(gFrame, packed, i, f, fs)
    requires FramesIn(gFrame, packed, i + |Lens(fs)|, |s.frameRaw|)
    requires 0 <= s.off && 0 <= s.total && s.total + Sum(Lens(fs)) <= MAX_INT64
    requires forall k :: 0 <= k < |fs| ==> Sum(fs[k].lens) <= MAX_INT32
    requires Fits(sizing, rawMax, MaxOf(s.maxGran, Lens(fs)), MaxRaw(s.maxFrame, fs), s.total + Sum(Lens(fs)))
    ensures StepLens(s, Lens(fs), i, gFrame, packed, sizing, rawMax) == Ok(AfterAll(s, fs, f, packed))
    decreases fs
  {
    hide StepLens; hide Sum; hide MaxOf; hide FrameAt; hide FramesIn; hide AfterRun; hide Owned;
    if fs == [] {
      LensNil([], s, i, gFrame, packed, sizing, rawMax);
    } else {
      var ls, more := fs[0].lens, Lens(fs[1..]);
      OwnedHead(gFrame, packed, i, f, fs);
      SumConcat(ls, more);
      MaxOfConcat(s.maxGran, ls, more);
      MaxOfGrows(MaxOf(s.maxGran, ls), more);
      MaxRawGrows(Max(s.maxFrame, Sum(ls)), fs[1..]);
      RunOk(s, ls, more, i, f, gFrame, packed, sizing, rawMax);
      RunFields(s, ls, f, packed);
      AllRunsOk(AfterRun(s, ls, f, packed), fs[1..], i + |ls|, f + 1, gFrame, packed, sizing, rawMax);
    }
  }

  lemma RunFields(s: Spans, ls: seq<nat>, f: int, packed: bool)
    requires 0 <= f < |s.frameRaw| && ls != [] && s.prev != f
    ensures var t := AfterRun(s, ls, f, packed);
            && t.off == Sum(ls) && t.prev == f && t.total == s.total + Sum(ls) && t.maxGran == MaxOf(s.maxGran, ls)
            && t.maxFrame == Max(s.maxFrame, Sum(ls)) && t.frameRaw == s.frameRaw[f := Sum(ls)]
            && t.gOff == (if packed then s.gOff + Starts(0, ls) else s.gOff) && t.gLen == (if packed then s.gLen + ls else s.gLen)
  {
  }

  lemma {:induction false} SumConcat(a: seq<nat>, b: seq<nat>)
    ensures Sum(a + b) == Sum(a) + Sum(b)
  {
    if a == [] {
      assert a + b == b;
    } else {
      SumConcat(a[1..], b);
      assert (a + b)[0] == a[0] && (a + b)[1..] == a[1..] + b;
    }
  }

  lemma {:induction false} MaxOfConcat(m: int, a: seq<nat>, b: seq<nat>)
    ensures MaxOf(m, a + b) == MaxOf(MaxOf(m, a), b)
    decreases a
  {
    if a == [] {
      assert a + b == b;
    } else {
      MaxOfConcat(Max(m, a[0]), a[1..], b);
      assert (a + b)[0] == a[0] && (a + b)[1..] == a[1..] + b;
    }
  }

  /** The granule spans, frame sizes and totals a full walk ends with. */
  lemma {:induction false} AfterAllFields(s: Spans, fs: seq<FrameRec>, f: nat, packed: bool)
    requires f + |fs| == |s.frameRaw| && s.prev < f && NonEmpty(fs)
    ensures var t := AfterAll(s, fs, f, packed);
            && t.total == s.total + Sum(Lens(fs)) && t.maxGran == MaxOf(s.maxGran, Lens(fs)) && t.maxFrame == MaxRaw(s.maxFrame, fs)
            && t.frameRaw == s.frameRaw[..f] + Raws(fs)
            && t.gOff == (if packed then s.gOff + Offsets(fs) else s.gOff)
            && t.gLen == (if packed then s.gLen + Lens(fs) else s.gLen)
    decreases fs
  {
    hide AfterRun; hide MaxOf; hide Sum; hide Starts;
    if fs == [] {
      AfterAllNil(s, f);
      assert s.gOff + [] == s.gOff && s.gLen + [] == s.gLen;
    } else {
      var ls, more := fs[0].lens, Lens(fs[1..]);
      var s' := AfterRun(s, ls, f, packed);
      RunFields(s, ls, f, packed);
      AfterAllFields(s', fs[1..], f + 1, packed);
      SumConcat(ls, more);
      MaxOfConcat(s.maxGran, ls, more);
      assert s'.frameRaw[..f + 1] == s.frameRaw[..f] + [Sum(ls)];
      Assoc(s.frameRaw[..f], [Sum(ls)], Raws(fs[1..]));
      Assoc(s.gOff, Starts(0, ls), Offsets(fs[1..]));
      Assoc(s.gLen, ls, more);
    }
  }

  lemma AfterAllNil(s: Spans, f: nat)
    requires f == |s.frameRaw|
    ensures s.frameRaw[..f] + [] == s.frameRaw && Sum([]) == 0 && MaxOf(s.maxGran, []) == s.maxGran
  {
  }

  // ------------------------------------------------------------ the chunk rows

  function RowStarts(sum: int, cs: seq<ChunkRec>): seq<int>
    decreases cs
  {
    if cs == [] then [] else [sum + cs[0].rows] + RowStarts(sum + cs[0].rows, cs[1..])
  }

  function RowSum(cs: seq<ChunkRec>): nat {
    if cs == [] then 0 else cs[0].rows + RowSum(cs[1..])
  }

  function Mins(cs: seq<ChunkRec>): seq<int> { seq(|cs|, i requires 0 <= i < |cs| => cs[i].min) }

  function Maxs(cs: seq<ChunkRec>): seq<int> { seq(|cs|, i requires 0 <= i < |cs| => cs[i].max) }

  /** Chunks a writer seals: none empty, none past the row cap, keys in order. */
  ghost predicate ChunksOk(cs: seq<ChunkRec>, maxBlockRows: nat, timeBounds: bool) {
    forall i :: 0 <= i < |cs| ==>
      0 < cs[i].rows <= maxBlockRows && (timeBounds ==> IsInt64(cs[i].min) && IsInt64(cs[i].max) && cs[i].min <= cs[i].max)
  }

  /** Key bounds come back exactly, whatever their differences overflow to. */
  lemma {:induction false} StepChunksOk(c: Chunked, cs: seq<ChunkRec>, maxBlockRows: nat, timeBounds: bool)
    requires ChunksOk(cs, maxBlockRows, timeBounds) && 0 <= c.sum && c.sum + RowSum(cs) <= MAX_PART_ROWS
    ensures var r := StepChunks(c, cs, c.previous, maxBlockRows, timeBounds);
            && r.Ok? && r.value.sum == c.sum + RowSum(cs) && r.value.rowStarts == c.rowStarts + RowStarts(c.sum, cs)
            && r.value.minKeys == (if timeBounds then c.minKeys + Mins(cs) else c.minKeys)
            && r.value.maxKeys == (if timeBounds then c.maxKeys + Maxs(cs) else c.maxKeys)
    decreases cs
  {
    hide StepChunk; hide StepChunks; hide Mins; hide Maxs; hide Wrap64; hide EntryOf;
    if cs == [] {
      ChunksNil([], c, c.previous, maxBlockRows, timeBounds);
      KeysNil();
      assert c.rowStarts + [] == c.rowStarts && c.minKeys + [] == c.minKeys && c.maxKeys + [] == c.maxKeys;
    } else {
      var h := cs[0];
      StepChunksHead(c, cs, c.previous, maxBlockRows, timeBounds);
      StepChunkOk(c, h, maxBlockRows, timeBounds);
      var s := StepChunk(c, EntryOf(h, timeBounds, c.previous), maxBlockRows, timeBounds).value;
      if !timeBounds {
        PreviousUnused(s, cs[1..], s.previous, h.min, maxBlockRows);
      }
      StepChunksOk(s, cs[1..], maxBlockRows, timeBounds);
      KeysHead(cs);
      Assoc(c.rowStarts, [c.sum + h.rows], RowStarts(c.sum + h.rows, cs[1..]));
      Assoc(c.minKeys, [h.min], Mins(cs[1..]));
      Assoc(c.maxKeys, [h.max], Maxs(cs[1..]));
    }
  }

  lemma StepChunkOk(c: Chunked, h: ChunkRec, maxBlockRows: nat, timeBounds: bool)
    requires 0 < h.rows <= maxBlockRows && c.sum + h.rows <= MAX_PART_ROWS
    requires timeBounds ==> IsInt64(h.min) && IsInt64(h.max) && h.min <= h.max
    ensures StepChunk(c, EntryOf(h, timeBounds, c.previous), maxBlockRows, timeBounds)
         == Ok(Chunked(c.sum + h.rows, if timeBounds then h.min else c.previous, c.rowStarts + [c.sum + h.rows],
                       if timeBounds then c.minKeys + [h.min] else c.minKeys, if timeBounds then c.maxKeys + [h.max] else c.maxKeys))
  {
    hide Wrap64;
    if timeBounds {
      WrapDelta(h.min, c.previous);
      WrapDelta(h.max, h.min);
    }
  }

  lemma KeysNil()
    ensures Mins([]) == [] && Maxs([]) == []
  {
  }

  lemma KeysHead(cs: seq<ChunkRec>)
    requires cs != []
    ensures Mins(cs) == [cs[0].min] + Mins(cs[1..]) && Maxs(cs) == [cs[0].max] + Maxs(cs[1..])
  {
  }

  lemma {:induction false} PreviousUnused(c: Chunked, cs: seq<ChunkRec>, p: int, q: int, maxBlockRows: nat)
    ensures StepChunks(c, cs, p, maxBlockRows, false) == StepChunks(c, cs, q, maxBlockRows, false)
  {
  }
}
