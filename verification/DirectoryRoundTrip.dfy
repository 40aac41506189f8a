/** A written directory parses back to exactly the spans that were sealed. */
module DirectoryRoundTrip {
  import opened Wire
  import opened Chunking
  import opened Directory
  import opened DirectoryParse
  import opened DirectoryMeaning

  /** What a writer can have sealed: no empty frame, every frame within what an int32 span addresses. */
  ghost predicate WriterOk(a: Sealed) {
    && 0 < a.blockRows < TWO63 && |Lens(a.frames)| < TWO63 && |a.frames| < TWO63
    && FramesFit(a.frames) && NonEmpty(a.frames) && Sum(Lens(a.frames)) <= MAX_INT64
    && (forall i :: 0 <= i < |a.frames| ==> Sum(a.frames[i].lens) <= MAX_INT32)
    && (a.variable ==>
          && OneEach(a.frames) && |a.chunks| == |a.frames| && ChunksOk(a.chunks, a.blockRows, a.timeBounds)
          && RowSum(a.chunks) <= MAX_PART_ROWS)
  }

  function SizingOf(a: Sealed, dirLen: int): Sizing {
    Sizing(Sum(Lens(a.frames)), dirLen, |Lens(a.frames)|, |a.frames|, MaxLen(0, a.frames), MaxRaw(0, a.frames), MaxOf(0, Lens(a.frames)))
  }

  /** What a manifest written beside the column has a reader check. */
  ghost predicate CheckFor(chk: Check, a: Sealed) {
    && chk.checked && chk.maxBlockRows == (if a.variable then a.blockRows else 0)
    && (a.variable ==> chk.timeBounds == a.timeBounds && (chk.rows > 0 ==> chk.rows == RowSum(a.chunks)))
    && (chk.sizing.Some? ==> chk.sizing.value == SizingOf(a, chk.sizing.value.dirLen))
    && (RawLimit(chk, |Lens(a.frames)|) < 0 || Sum(Lens(a.frames)) <= RawLimit(chk, |Lens(a.frames)|))
  }

  /** The directory a column's sealed frames stand for. */
  function DirOf(a: Sealed): Dir {
    Dir(a.blockRows, |Lens(a.frames)|, [0] + Ends32(0, a.frames), Crcs(a.frames), Raws(a.frames),
        if a.variable then [] else Owners(0, a.frames), if a.variable then [] else Offsets(a.frames),
        if a.variable then [] else Lens(a.frames),
        if a.variable then [0] + RowStarts(0, a.chunks) else [],
        if a.variable && a.timeBounds then Mins(a.chunks) else [], if a.variable && a.timeBounds then Maxs(a.chunks) else [])
  }

  function PutHeader(h: Header): Bytes { PutUvarint(h.granules) + PutUvarint(h.blockRows) + PutUvarint(h.frames) }

  lemma HeaderRoundTrip(h: Header, rest: Bytes)
    requires h.granules < TWO64 && h.blockRows < TWO64 && h.frames < TWO64
    ensures ParseHeader(PutHeader(h) + rest) == Ok(Read(h, |PutHeader(h)|))
  {
    hide PutUvarint; hide Uvarint;
    var p, q, w := PutUvarint(h.granules), PutUvarint(h.blockRows), PutUvarint(h.frames);
    UvarintRoundTrip(h.granules, q + (w + rest));
    UvarintRoundTrip(h.blockRows, w + rest);
    UvarintRoundTrip(h.frames, rest);
    Assoc(p + q, w, rest);
    Assoc(p, q, w + rest);
    DropPrefix(p, q + (w + rest));
    DropPrefix(p + q, w + rest);
  }

  lemma {:induction false} LensLong(ls: seq<nat>)
    ensures |PutLens(ls)| >= |ls|
  {
    if ls != [] {
      LensLong(ls[1..]);
    }
  }

  lemma {:induction false} FramesLong(fs: seq<FrameRec>)
    ensures |PutFrames(fs)| >= |fs|
  {
    if fs != [] {
      FramesLong(fs[1..]);
    }
  }

  lemma {:induction false} OwnersCount(f: nat, fs: seq<FrameRec>, k: nat)
    requires k < |Lens(fs)|
    ensures |Owners(f, fs)| == |Lens(fs)| && f <= Owners(f, fs)[k] < f + |fs|
    decreases fs
  {
    if k < |fs[0].lens| {
      if |Lens(fs[1..])| > 0 {
        OwnersCount(f + 1, fs[1..], 0);
      } else {
        OwnersEmpty(f + 1, fs[1..]);
      }
    } else {
      OwnersCount(f + 1, fs[1..], k - |fs[0].lens|);
    }
  }

  lemma {:induction false} OwnersEmpty(f: nat, fs: seq<FrameRec>)
    requires Lens(fs) == []
    ensures Owners(f, fs) == []
    decreases fs
  {
    if fs != [] {
      OwnersEmpty(f + 1, fs[1..]);
    }
  }

  lemma OwnersShape(fs: seq<FrameRec>)
    ensures FramesIn(Owners(0, fs), true, |Lens(fs)|, |fs|) && |Owners(0, fs)| == |Lens(fs)|
  {
    if Lens(fs) == [] {
      OwnersEmpty(0, fs);
    } else {
      OwnersCount(0, fs, 0);
    }
    forall k | 0 <= k < |Lens(fs)| ensures k < |Owners(0, fs)| && 0 <= FrameAt(Owners(0, fs), true, k) < |fs| {
      OwnersCount(0, fs, k);
    }
  }

  lemma {:induction false} OneEachCount(fs: seq<FrameRec>)
    requires OneEach(fs)
    ensures |Lens(fs)| == |fs|
  {
    if fs != [] {
      OneEachCount(fs[1..]);
    }
  }

  lemma {:induction false} LensFit(fs: seq<FrameRec>)
    requires forall i :: 0 <= i < |fs| ==> Sum(fs[i].lens) <= MAX_INT32
    ensures forall k :: 0 <= k < |Lens(fs)| ==> Lens(fs)[k] < TWO64
  {
    if fs != [] {
      LensFit(fs[1..]);
      forall k | 0 <= k < |fs[0].lens| ensures fs[0].lens[k] < TWO64 {
        SumBounds(fs[0].lens, k);
      }
    }
  }

  lemma {:induction false} SumBounds(ls: seq<nat>, k: nat)
    requires k < |ls|
    ensures ls[k] <= Sum(ls)
  {
    if k > 0 {
      SumBounds(ls[1..], k - 1);
    }
  }

  // ------------------------------------------------------------ the parts of the fields

  lemma TablePart(a: Sealed, rest: Bytes, dataMax: nat, chk: Check, h: Header)
    requires WriterOk(a) && CheckFor(chk, a) && TotalLen(a.frames) <= dataMax
    requires h == Header(|Lens(a.frames)|, a.blockRows, |a.frames|)
    ensures ParseTable(PutFrames(a.frames) + rest, h, dataMax, chk)
         == Ok(Read(Table(TotalLen(a.frames), |Lens(a.frames)|, MaxLen(0, a.frames), [0] + Ends32(0, a.frames),
                          if a.variable then [] else Owners(0, a.frames), Crcs(a.frames)), |PutFrames(a.frames)|))
  {
    hide PutFrames; hide ReadFrames; hide StepFrames; hide Ends32; hide Lens;
    var packed := !a.variable;
    FramesRoundTrip(a.frames, rest, EMPTY_TABLE, h.granules, packed, dataMax);
    StepFramesOk(EMPTY_TABLE, a.frames, h.granules, packed, dataMax);
    assert [] + Owners(0, a.frames) == Owners(0, a.frames);
    assert [] + Crcs(a.frames) == Crcs(a.frames);
  }

  lemma LensPart(a: Sealed, rest: Bytes, chk: Check, h: Header)
    requires WriterOk(a) && CheckFor(chk, a)
    requires h == Header(|Lens(a.frames)|, a.blockRows, |a.frames|)
    ensures var gFrame := if a.variable then [] else Owners(0, a.frames);
            && FramesIn(gFrame, !a.variable, h.granules, h.frames)
            && var r := ParseLens(PutLens(Lens(a.frames)) + rest, h, gFrame, chk);
            && r.Ok? && r.value.n == |PutLens(Lens(a.frames))| && r.value.value.frameRaw == Raws(a.frames)
            && r.value.value.gOff == (if a.variable then [] else Offsets(a.frames))
            && r.value.value.gLen == (if a.variable then [] else Lens(a.frames))
  {
    hide PutLens; hide ReadLens; hide StepLens; hide Lens; hide Sum; hide MaxOf; hide Raws; hide Offsets; hide Owners; hide RawLimit;
    var packed, gFrame := !a.variable, if a.variable then [] else Owners(0, a.frames);
    var s := EmptySpans(h.frames);
    if packed {
      OwnersShape(a.frames);
    } else {
      OneEachCount(a.frames);
    }
    LensFit(a.frames);
    LensRoundTrip(Lens(a.frames), rest, s, 0, gFrame, packed, chk.sizing, RawLimit(chk, h.granules));
    AllRunsOk(s, a.frames, 0, 0, gFrame, packed, chk.sizing, RawLimit(chk, h.granules));
    AfterAllFields(s, a.frames, 0, packed);
    assert s.frameRaw[..0] + Raws(a.frames) == Raws(a.frames);
    assert [] + Offsets(a.frames) == Offsets(a.frames) && [] + Lens(a.frames) == Lens(a.frames);
  }

  lemma ChunksPart(a: Sealed, rest: Bytes, chk: Check, h: Header)
    requires WriterOk(a) && CheckFor(chk, a)
    requires h == Header(|Lens(a.frames)|, a.blockRows, |a.frames|)
    ensures var enc := if a.variable then PutChunks(a.chunks, a.timeBounds, 0) else [];
            var r := ParseChunks(enc + rest, h, chk);
            && r.Ok? && r.value.n == |enc|
            && r.value.value.rowStarts == DirOf(a).rowStarts && r.value.value.minKeys == DirOf(a).minKeys
            && r.value.value.maxKeys == DirOf(a).maxKeys
  {
    if a.variable {
      hide PutChunks; hide ReadChunks; hide StepChunks; hide Lens; hide RowSum; hide Mins; hide Maxs; hide RowStarts;
      OneEachCount(a.frames);
      var c := NO_CHUNKS.(rowStarts := [0]);
      ChunksRoundTrip(a.chunks, rest, c, 0, a.blockRows, a.timeBounds);
      StepChunksOk(c, a.chunks, a.blockRows, a.timeBounds);
      assert [] + Mins(a.chunks) == Mins(a.chunks) && [] + Maxs(a.chunks) == Maxs(a.chunks);
    }
  }

  /** Directory fields round trip, whatever follows them. */
  lemma FieldsRoundTrip(a: Sealed, rest: Bytes, dataMax: nat, chk: Check)
    requires WriterOk(a) && CheckFor(chk, a) && TotalLen(a.frames) <= dataMax
    ensures ParseFields(Fields(a) + rest, dataMax, chk) == Ok(Parsed(DirOf(a), |Fields(a)|, TotalLen(a.frames)))
  {
    hide PutFrames; hide PutLens; hide PutChunks; hide Lens; hide ParseHeader; hide ParseTable; hide ParseLens; hide ParseChunks; hide PutUvarint; hide WriterOk; hide CheckFor; hide FramesIn;
    var h := Header(|Lens(a.frames)|, a.blockRows, |a.frames|);
    var hd, tb, ln := PutHeader(h), PutFrames(a.frames), PutLens(Lens(a.frames));
    var ck := if a.variable then PutChunks(a.chunks, a.timeBounds, 0) else [];
    var r3 := ck + rest;
    var r2 := ln + r3;
    var r1 := tb + r2;
    var b := Fields(a) + rest;
    assert Fields(a) == hd + tb + ln + ck;
    Regroup(hd, tb, ln, ck, rest);
    HeaderFits(a, chk, h, |b|);
    HeaderRoundTrip(h, r1);
    DropPrefix(hd, r1);
    TablePart(a, r2, dataMax, chk, h);
    DropPrefix(hd + tb, r2);
    LensPart(a, r3, chk, h);
    DropPrefix(hd + tb + ln, r3);
    ChunksPart(a, rest, chk, h);
    IntExact(a.blockRows);
  }

  lemma Regroup(p: Bytes, q: Bytes, r: Bytes, s: Bytes, t: Bytes)
    ensures p + q + r + s + t == p + (q + (r + (s + t)))
    ensures p + q + r + s + t == (p + q) + (r + (s + t))
    ensures p + q + r + s + t == (p + q + r) + (s + t)
  {
    Assoc(p + q + r, s, t);
    Assoc(p + q, r, s + t);
    Assoc(p, q, r + (s + t));
  }

  lemma HeaderFits(a: Sealed, chk: Check, h: Header, n: nat)
    requires WriterOk(a) && CheckFor(chk, a) && n >= |Fields(a)|
    requires h == Header(|Lens(a.frames)|, a.blockRows, |a.frames|)
    ensures HeaderOk(h, n, chk)
    ensures a.blockRows <= MAX_INT64 && h.granules < TWO64 && h.blockRows < TWO64 && h.frames < TWO64
  {
    hide PutFrames; hide PutLens; hide PutChunks; hide Lens; hide PutUvarint;
    LensLong(Lens(a.frames));
    FramesLong(a.frames);
    if a.variable {
      OneEachCount(a.frames);
    }
  }
}
