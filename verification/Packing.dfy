/**
 Granule streams packed into compressed frames, and what a reader finds at the spans of the directory
 sealed over them: every stream, whole, at its own granule.
 */
module Packing {
  import opened Wire
  import opened Chunking
  import opened Directory
  import opened DirectoryMeaning
  import opened DirectoryRoundTrip
  import BS = BlockStreams

  /** The frames' compressor and checksum. */
  datatype Codec = Codec(pack: Bytes -> Bytes, unpack: Bytes -> Result<Bytes>, crc: Bytes -> uint32) {
    ghost predicate Lawful() {
      forall b :: unpack(pack(b)) == Ok(b)
    }
  }

  /** Streams on their way into frames: the frames sealed so far, and the one being filled. */
  datatype Packing = Packing(groups: seq<seq<Bytes>>, open: seq<Bytes>)

  const EMPTY := Packing([], [])

  /** A frame is sealed by the stream that brings it to the limit. */
  function Add(p: Packing, s: Bytes, limit: nat): Packing {
    var open := p.open + [s];
    if |Flatten(open)| >= limit then Packing(p.groups + [open], []) else Packing(p.groups, open)
  }

  function Close(p: Packing): Packing {
    if p.open == [] then p else Packing(p.groups + [p.open], [])
  }

  function AddAll(p: Packing, ss: seq<Bytes>, limit: nat): Packing {
    if ss == [] then p else Add(AddAll(p, ss[..|ss| - 1], limit), ss[|ss| - 1], limit)
  }

  function LensOf(g: seq<Bytes>): seq<nat> { seq(|g|, i requires 0 <= i < |g| => |g[i]|) }

  function FrameOf(g: seq<Bytes>, c: Codec): Bytes { c.pack(Flatten(g)) }

  function RecOf(g: seq<Bytes>, c: Codec): FrameRec {
    FrameRec(LensOf(g), |FrameOf(g, c)|, c.crc(FrameOf(g, c)))
  }

  function Recs(gs: seq<seq<Bytes>>, c: Codec): seq<FrameRec> {
    seq(|gs|, i requires 0 <= i < |gs| => RecOf(gs[i], c))
  }

  function FramesOf(gs: seq<seq<Bytes>>, c: Codec): seq<Bytes> {
    seq(|gs|, i requires 0 <= i < |gs| => FrameOf(gs[i], c))
  }

  /** The frames' bytes, end to end. */
  function Data(gs: seq<seq<Bytes>>, c: Codec): Bytes { Flatten(FramesOf(gs, c)) }

  // ------------------------------------------------------------ what packing keeps

  /** What every packing keeps: no empty frame, and no frame past the limit but by its last stream. */
  ghost predicate Packed(p: Packing, limit: nat) {
    && (forall i :: 0 <= i < |p.groups| ==> Tight(p.groups[i], limit))
    && |Flatten(p.open)| < limit
  }

  ghost predicate Tight(g: seq<Bytes>, limit: nat) {
    g != [] && |Flatten(g[..|g| - 1])| < limit
  }

  lemma AddKeeps(p: Packing, s: Bytes, limit: nat)
    requires Packed(p, limit)
    ensures Packed(Add(p, s, limit), limit)
    ensures Flatten(Add(p, s, limit).groups) + Add(p, s, limit).open == Flatten(p.groups) + p.open + [s]
  {
    hide Flatten;
    var open := p.open + [s];
    assert open[..|open| - 1] == p.open;
    FlattenSnoc(p.groups, open);
    Assoc(Flatten(p.groups), p.open, [s]);
    NoneFlat(Packing([], []));
  }

  lemma NoneFlat(p: Packing)
    requires p == EMPTY
    ensures Flatten(p.groups) == [] && Flatten(p.open) == []
  {
  }

  /** No stream is lost, added or moved by packing, and every frame is as tight as the limit asks. */
  lemma {:induction false} AddAllKeeps(ss: seq<Bytes>, limit: nat)
    requires limit > 0
    ensures Packed(AddAll(EMPTY, ss, limit), limit)
    ensures Flatten(AddAll(EMPTY, ss, limit).groups) + AddAll(EMPTY, ss, limit).open == ss
  {
    hide Add; hide Packed; hide Flatten;
    if ss == [] {
      StartsPacked(limit);
    } else {
      var front, last := ss[..|ss| - 1], ss[|ss| - 1];
      AddAllKeeps(front, limit);
      AddKeeps(AddAll(EMPTY, front, limit), last, limit);
      assert front + [last] == ss;
    }
  }

  lemma StartsPacked(limit: nat)
    requires limit > 0
    ensures Packed(EMPTY, limit) && Flatten(EMPTY.groups) + EMPTY.open == []
  {
  }

  lemma CloseKeeps(p: Packing, limit: nat)
    requires Packed(p, limit)
    ensures Flatten(Close(p).groups) == Flatten(p.groups) + p.open
    ensures forall i :: 0 <= i < |Close(p).groups| ==> Tight(Close(p).groups[i], limit)
  {
    hide Flatten;
    var g := p.open;
    if g != [] {
      FlattenSnoc(p.groups, g);
      FlattenConcat(g[..|g| - 1], [g[|g| - 1]]);
      assert g[..|g| - 1] + [g[|g| - 1]] == g;
    } else {
      assert Flatten(p.groups) + [] == Flatten(p.groups);
    }
  }

  // ------------------------------------------------------------ lengths

  lemma RecsTail(gs: seq<seq<Bytes>>, c: Codec)
    requires gs != []
    ensures Recs(gs, c)[0] == RecOf(gs[0], c) && Recs(gs, c)[1..] == Recs(gs[1..], c)
    ensures FramesOf(gs, c)[0] == FrameOf(gs[0], c) && FramesOf(gs, c)[1..] == FramesOf(gs[1..], c)
  {
    hide RecOf; hide FrameOf;
  }

  lemma {:induction false} LensSum(g: seq<Bytes>)
    ensures Sum(LensOf(g)) == |Flatten(g)|
  {
    if g != [] {
      LensSum(g[1..]);
      assert LensOf(g)[1..] == LensOf(g[1..]);
    }
  }

  /** The frame table's lengths add up to the bytes laid down. */
  lemma {:induction false} DataLen(gs: seq<seq<Bytes>>, c: Codec)
    ensures TotalLen(Recs(gs, c)) == |Data(gs, c)|
  {
    hide FrameOf;
    if gs != [] {
      DataLen(gs[1..], c);
      RecsTail(gs, c);
    }
  }

  /** The granule lengths, in granule order. */
  lemma {:induction false} LensAre(gs: seq<seq<Bytes>>, c: Codec)
    ensures Lens(Recs(gs, c)) == LensOf(Flatten(gs))
  {
    hide FrameOf; hide Recs;
    if gs == [] {
      assert Recs(gs, c) == [] by { RecsNil(c); }
    } else {
      LensAre(gs[1..], c);
      RecsTail(gs, c);
      RecsLen(gs, c);
      assert LensOf(gs[0] + Flatten(gs[1..])) == LensOf(gs[0]) + LensOf(Flatten(gs[1..]));
    }
  }

  lemma RecsNil(c: Codec)
    ensures Recs([], c) == [] && FramesOf([], c) == []
  {
  }

  lemma RecsLen(gs: seq<seq<Bytes>>, c: Codec)
    ensures |Recs(gs, c)| == |gs| && |FramesOf(gs, c)| == |gs|
  {
  }

  // ------------------------------------------------------------ frame spans

  lemma FlattenAt<T>(c: seq<seq<T>>, i: nat)
    requires i < |c|
    ensures |Flatten(c[..i])| + |c[i]| <= |Flatten(c)|
    ensures Flatten(c)[|Flatten(c[..i])|..|Flatten(c[..i])| + |c[i]|] == c[i]
    ensures |Flatten(c[..i + 1])| == |Flatten(c[..i])| + |c[i]|
  {
    hide Flatten;
    var a, b := c[..i], c[i + 1..];
    assert c == (a + [c[i]]) + b && c[..i + 1] == a + [c[i]];
    FlattenConcat(a + [c[i]], b);
    FlattenSnoc(a, c[i]);
    Assoc(Flatten(a), c[i], Flatten(b));
    DropPrefix(Flatten(a), c[i] + Flatten(b));
  }

  lemma {:induction false} EndsAt(t: int, fs: seq<FrameRec>, i: nat)
    requires i < |fs|
    ensures |Ends(t, fs)| == |fs| && Ends(t, fs)[i] == t + TotalLen(fs[..i + 1])
    decreases fs
  {
    if i > 0 {
      EndsAt(t + fs[0].len, fs[1..], i - 1);
      assert fs[..i + 1][1..] == fs[1..][..i];
    } else {
      EndsLen(t + fs[0].len, fs[1..]);
      assert fs[..1] == [fs[0]] && fs[..1][1..] == [];
    }
  }

  lemma {:induction false} EndsLen(t: int, fs: seq<FrameRec>)
    ensures |Ends(t, fs)| == |fs| && |Ends32(t, fs)| == |fs|
    decreases fs
  {
    if fs != [] {
      EndsLen(t + fs[0].len, fs[1..]);
    }
  }

  lemma {:induction false} Ends32At(t: int, fs: seq<FrameRec>, i: nat)
    requires i < |fs|
    ensures |Ends32(t, fs)| == |fs| == |Ends(t, fs)| && Ends32(t, fs)[i] == AsInt32(Ends(t, fs)[i])
    decreases fs
  {
    hide AsInt32;
    EndsLen(t, fs);
    if i > 0 {
      Ends32At(t + fs[0].len, fs[1..], i - 1);
    }
  }

  lemma Fits32(v: nat)
    ensures AsInt32(v) == v <==> v <= MAX_INT32
  {
  }

  lemma {:induction false} PrefixLen(fs: seq<FrameRec>, i: nat)
    requires i <= |fs|
    ensures TotalLen(fs[..i]) <= TotalLen(fs)
  {
    if i > 0 {
      PrefixLen(fs[1..], i - 1);
      assert fs[..i][1..] == fs[1..][..i - 1];
    }
  }

  /** The int32 offsets a parser keeps are the frames' offsets exactly when the frames stay under 2 GiB. */
  lemma OffsetsExact(fs: seq<FrameRec>)
    ensures Ends32(0, fs) == Ends(0, fs) <==> TotalLen(fs) <= MAX_INT32
  {
    hide Ends; hide Ends32; hide TotalLen; hide AsInt32;
    EndsLen(0, fs);
    forall i | 0 <= i < |fs| ensures (Ends32(0, fs)[i] == Ends(0, fs)[i] <==> TotalLen(fs[..i + 1]) <= MAX_INT32) && TotalLen(fs[..i + 1]) <= TotalLen(fs) {
      EndsAt(0, fs, i);
      Ends32At(0, fs, i);
      Fits32(TotalLen(fs[..i + 1]));
      PrefixLen(fs, i + 1);
    }
    if fs == [] {
      NoLen();
    } else {
      assert fs[..|fs| - 1 + 1] == fs;
      assert Ends32(0, fs) == Ends(0, fs) ==> Ends32(0, fs)[|fs| - 1] == Ends(0, fs)[|fs| - 1];
    }
  }

  /**
   How they go wrong: of three frames of 1 GiB the second ends at a negative offset, so its span has a
   negative length, and the third lies before the data.
   */
  lemma OffsetsWrap(r: FrameRec)
    requires r.len == 0x4000_0000
    ensures Ends32(0, [r, r, r]) == [0x4000_0000, -0x8000_0000, -0x4000_0000]
    ensures Ends(0, [r, r, r]) == [0x4000_0000, 0x8000_0000, 0xC000_0000]
  {
    assert [r, r, r][1..] == [r, r] && [r, r][1..] == [r] && [r][1..] == [];
    var n := r.len;
    assert Ends32(n + n + n, []) == [] && Ends(n + n + n, []) == [];
    assert Ends32(n + n, [r]) == [AsInt32(n + n + n)] && Ends(n + n, [r]) == [n + n + n];
    assert Ends32(n, [r, r]) == [AsInt32(n + n), AsInt32(n + n + n)] && Ends(n, [r, r]) == [n + n, n + n + n];
  }

  lemma NoLen()
    ensures TotalLen([]) == 0 && Ends(0, []) == [] && Ends32(0, []) == []
  {
  }

  /** Frame f lies at its offsets. */
  lemma FrameAtOffsets(gs: seq<seq<Bytes>>, c: Codec, f: nat)
    requires f < |gs| && |Data(gs, c)| <= MAX_INT32
    ensures var off := [0] + Ends32(0, Recs(gs, c));
            && |off| == |gs| + 1 && 0 <= off[f] <= off[f + 1] <= |Data(gs, c)| && Data(gs, c)[off[f]..off[f + 1]] == FrameOf(gs[f], c)
  {
    hide Ends; hide Ends32; hide TotalLen; hide Flatten; hide FrameOf; hide RecOf;
    var fs := Recs(gs, c);
    DataLen(gs, c);
    OffsetsExact(fs);
    EndsAt(0, fs, f);
    FlattenAt(FramesOf(gs, c), f);
    OffsetIs(gs, c, f);
    OffsetIs(gs, c, f + 1);
    if f > 0 {
      EndsAt(0, fs, f - 1);
    } else {
      NoLen();
      assert fs[..0] == [];
    }
  }

  lemma OffsetIs(gs: seq<seq<Bytes>>, c: Codec, i: nat)
    requires i <= |gs|
    ensures TotalLen(Recs(gs, c)[..i]) == |Flatten(FramesOf(gs, c)[..i])|
  {
    hide FrameOf; hide RecOf; hide TotalLen; hide Flatten;
    DataLen(gs[..i], c);
    assert Recs(gs, c)[..i] == Recs(gs[..i], c) && FramesOf(gs, c)[..i] == FramesOf(gs[..i], c);
  }

  // ------------------------------------------------------------ granule spans

  lemma {:induction false} StartsAt(off: int, g: seq<Bytes>, k: nat)
    requires k < |g|
    ensures |Starts(off, LensOf(g))| == |g| && Starts(off, LensOf(g))[k] == off + |Flatten(g[..k])|
    decreases g
  {
    var ls := LensOf(g);
    assert ls[1..] == LensOf(g[1..]);
    if k > 0 {
      StartsAt(off + ls[0], g[1..], k - 1);
      assert g[..k][1..] == g[1..][..k - 1];
    } else {
      StartsLen(off + ls[0], LensOf(g[1..]));
    }
  }

  lemma {:induction false} StartsLen(off: int, ls: seq<nat>)
    ensures |Starts(off, ls)| == |ls|
    decreases ls
  {
    if ls != [] {
      StartsLen(off + ls[0], ls[1..]);
    }
  }

  /** Granule k's frame holds granule k's stream at its recorded span. */
  ghost predicate SpanHolds(base: int, gs: seq<seq<Bytes>>, fs: seq<FrameRec>, k: nat) {
    && |Owners(base, fs)| == |Offsets(fs)| == |Lens(fs)| == |Flatten(gs)| && k < |Lens(fs)|
    && var f, lo := Owners(base, fs)[k] - base, Offsets(fs)[k];
    && 0 <= f < |gs| && 0 <= lo && lo + Lens(fs)[k] <= |Flatten(gs[f])| && Flatten(gs[f])[lo..lo + Lens(fs)[k]] == Flatten(gs)[k]
  }

  lemma {:induction false} GranuleAt(base: int, gs: seq<seq<Bytes>>, c: Codec, k: nat)
    requires k < |Flatten(gs)|
    ensures SpanHolds(base, gs, Recs(gs, c), k)
    decreases gs
  {
    hide FrameOf; hide Recs; hide Owners; hide Offsets; hide Lens; hide Starts; hide LensOf; hide SpanHolds; hide Flatten;
    TableHead(base, gs, c);
    var g := gs[0];
    if k < |g| {
      FirstFrame(base, gs, c, k);
    } else {
      GranuleAt(base + 1, gs[1..], c, k - |g|);
      LaterFrame(base, gs, c, k);
    }
  }

  lemma TableHead(base: int, gs: seq<seq<Bytes>>, c: Codec)
    requires 0 < |Flatten(gs)|
    ensures gs != [] && Flatten(gs) == gs[0] + Flatten(gs[1..])
    ensures Owners(base, Recs(gs, c)) == Repeat(base, |gs[0]|) + Owners(base + 1, Recs(gs[1..], c))
    ensures Offsets(Recs(gs, c)) == Starts(0, LensOf(gs[0])) + Offsets(Recs(gs[1..], c))
    ensures Lens(Recs(gs, c)) == LensOf(gs[0]) + Lens(Recs(gs[1..], c))
    ensures |Starts(0, LensOf(gs[0]))| == |gs[0]| == |LensOf(gs[0])|
  {
    hide FrameOf; hide Recs; hide Starts;
    RecsTail(gs, c);
    RecsLen(gs, c);
    StartsLen(0, LensOf(gs[0]));
  }

  lemma {:induction false} TableLens(base: int, gs: seq<seq<Bytes>>, c: Codec)
    ensures |Owners(base, Recs(gs, c))| == |Offsets(Recs(gs, c))| == |Lens(Recs(gs, c))| == |Flatten(gs)|
    decreases gs
  {
    hide FrameOf; hide Recs; hide Starts;
    if gs == [] {
      RecsNil(c);
    } else {
      RecsTail(gs, c);
      RecsLen(gs, c);
      StartsLen(0, LensOf(gs[0]));
      TableLens(base + 1, gs[1..], c);
    }
  }

  lemma FirstFrame(base: int, gs: seq<seq<Bytes>>, c: Codec, k: nat)
    requires gs != [] && k < |gs[0]|
    ensures SpanHolds(base, gs, Recs(gs, c), k)
  {
    hide FrameOf; hide Recs; hide Owners; hide Offsets; hide Lens; hide Starts; hide Flatten;
    var g := gs[0];
    NonEmptyFlat(gs);
    TableHead(base, gs, c);
    TableLens(base, gs, c);
    StartsAt(0, g, k);
    FlattenAt(g, k);
  }

  lemma NonEmptyFlat(gs: seq<seq<Bytes>>)
    requires gs != [] && gs[0] != []
    ensures 0 < |Flatten(gs)|
  {
  }

  lemma LaterFrame(base: int, gs: seq<seq<Bytes>>, c: Codec, k: nat)
    requires gs != [] && |gs[0]| <= k < |Flatten(gs)| && SpanHolds(base + 1, gs[1..], Recs(gs[1..], c), k - |gs[0]|)
    ensures SpanHolds(base, gs, Recs(gs, c), k)
  {
    hide FrameOf; hide Recs; hide Owners; hide Offsets; hide Lens; hide Starts; hide Flatten; hide LensOf;
    TableHead(base, gs, c);
    TableLens(base, gs, c);
    var f := Owners(base + 1, Recs(gs[1..], c))[k - |gs[0]|] - (base + 1);
    assert gs[1..][f] == gs[f + 1];
  }

  // ------------------------------------------------------------ the column read back

  /** What loading frame f of an opened column comes to. */
  function LoadFrame(d: Dir, data: Bytes, c: Codec, f: nat): BS.FrameRead {
    if f + 1 >= |d.frameOff| || f >= |d.frameCRC| || f >= |d.frameRaw| then BS.Unreadable
    else
      var lo, hi := d.frameOff[f], d.frameOff[f + 1];
      if !(0 <= lo <= hi <= |data|) then BS.Unreadable
      else if c.crc(data[lo..hi]) != d.frameCRC[f] then BS.Unreadable
      else
        match c.unpack(data[lo..hi])
        case Err => BS.Broken([])
        case Ok(raw) => if |raw| == d.frameRaw[f] then BS.Frame(raw) else BS.Broken(raw)
  }

  function Nat(v: int): nat { if v < 0 then 0 else v }

  /** The directory as a decode walk follows it; chunks of variable size have a frame each. */
  function ViewOf(d: Dir, variable: bool): BS.GranuleDir {
    if variable then BS.OnePerFrame(d.granules)
    else
      var n := Min(|d.gFrame|, Min(|d.gOff|, |d.gLen|));
      BS.Packed(seq(n, k requires 0 <= k < n => Nat(d.gFrame[k])),
                seq(n, k requires 0 <= k < n => BS.Slice(Nat(d.gOff[k]), Nat(d.gOff[k] + d.gLen[k]))))
  }

  function LoadAll(d: Dir, data: Bytes, c: Codec): seq<BS.FrameRead> {
    seq(|d.frameRaw|, f requires 0 <= f < |d.frameRaw| => LoadFrame(d, data, c, f))
  }

  /** Granule k's stream out of an opened column. */
  function ReadGranule(d: Dir, data: Bytes, c: Codec, variable: bool, k: nat): Result<Bytes> {
    var v, frames := ViewOf(d, variable), LoadAll(d, data, c);
    if v.Wf(|frames|) && k < v.Granules() then BS.GranuleStream(v, frames, k) else Err
  }

  lemma {:induction false} CrcRawAt(fs: seq<FrameRec>, f: nat)
    requires f < |fs|
    ensures |Crcs(fs)| == |Raws(fs)| == |fs| && Crcs(fs)[f] == fs[f].crc && Raws(fs)[f] == Sum(fs[f].lens)
  {
    if f > 0 {
      CrcRawAt(fs[1..], f - 1);
    } else if |fs| > 1 {
      CrcRawAt(fs[1..], 0);
    }
  }

  /** Every frame of a sealed column loads as the streams packed into it. */
  lemma FrameLoads(a: Sealed, gs: seq<seq<Bytes>>, c: Codec, f: nat)
    requires c.Lawful() && a.frames == Recs(gs, c) && f < |gs| && |Data(gs, c)| <= MAX_INT32
    ensures LoadFrame(DirOf(a), Data(gs, c), c, f) == BS.Frame(Flatten(gs[f]))
  {
    hide Data; hide Flatten; hide Ends32; hide Crcs; hide Raws; hide Sum; hide LensOf; hide Owners; hide Offsets; hide Lens; hide RowStarts;
    FrameAtOffsets(gs, c, f);
    CrcRawAt(a.frames, f);
    LensSum(gs[f]);
  }

  /**
   The column read back: whatever layout it was opened from, granule k is the stream that was
   written k-th, and no granule is missing.
   */
  lemma ColumnReadsBack(a: Sealed, gs: seq<seq<Bytes>>, c: Codec, k: nat)
    requires c.Lawful() && a.frames == Recs(gs, c) && |Data(gs, c)| <= MAX_INT32 && (a.variable ==> OneEach(a.frames))
    requires k < |Flatten(gs)|
    ensures DirOf(a).granules == |Flatten(gs)|
    ensures ReadGranule(DirOf(a), Data(gs, c), c, a.variable, k) == Ok(Flatten(gs)[k])
  {
    hide Data; hide Flatten; hide Recs; hide LoadFrame; hide Owners; hide Offsets; hide Lens; hide BS.GranuleStream;
    RecsLen(gs, c);
    TableLens(0, gs, c);
    DirShape(a, gs, c);
    if a.variable {
      OneEachReads(a, gs, c, k);
    } else {
      PackedReads(a, gs, c, k);
    }
  }

  lemma DirShape(a: Sealed, gs: seq<seq<Bytes>>, c: Codec)
    requires a.frames == Recs(gs, c)
    ensures |DirOf(a).frameRaw| == |gs|
  {
    RecsLen(gs, c);
    if gs != [] {
      CrcRawAt(a.frames, 0);
    }
  }

  lemma OneEachReads(a: Sealed, gs: seq<seq<Bytes>>, c: Codec, k: nat)
    requires c.Lawful() && a.frames == Recs(gs, c) && |Data(gs, c)| <= MAX_INT32 && OneEach(a.frames) && a.variable
    requires k < |Flatten(gs)| == DirOf(a).granules && |DirOf(a).frameRaw| == |gs|
    ensures ReadGranule(DirOf(a), Data(gs, c), c, true, k) == Ok(Flatten(gs)[k])
  {
    hide Data; hide Flatten; hide LoadFrame; hide FrameOf; hide DirOf;
    assert forall i :: 0 <= i < |gs| ==> |gs[i]| == 1 by {
      forall i | 0 <= i < |gs| ensures |gs[i]| == 1 {
        assert a.frames[i] == RecOf(gs[i], c);
      }
    }
    SinglesFlat(gs);
    FrameLoads(a, gs, c, k);
    OneFlat(gs[k]);
    var b := Flatten(gs[k]);
    assert b[0..|b|] == b;
  }

  lemma {:induction false} SinglesFlat(gs: seq<seq<Bytes>>)
    requires forall i :: 0 <= i < |gs| ==> |gs[i]| == 1
    ensures |Flatten(gs)| == |gs| && forall i :: 0 <= i < |gs| ==> Flatten(gs)[i] == gs[i][0]
  {
    if gs != [] {
      SinglesFlat(gs[1..]);
    }
  }

  lemma OneFlat(g: seq<Bytes>)
    requires |g| == 1
    ensures Flatten(g) == g[0]
  {
    assert g == [g[0]] && g[1..] == [];
  }

  lemma PackedReads(a: Sealed, gs: seq<seq<Bytes>>, c: Codec, k: nat)
    requires c.Lawful() && a.frames == Recs(gs, c) && |Data(gs, c)| <= MAX_INT32 && !a.variable
    requires k < |Flatten(gs)| && |DirOf(a).frameRaw| == |gs|
    ensures ReadGranule(DirOf(a), Data(gs, c), c, false, k) == Ok(Flatten(gs)[k])
  {
    hide Data; hide Flatten; hide Recs; hide LoadFrame; hide Ends32; hide Crcs; hide Raws; hide Owners; hide Offsets; hide Lens; hide RowStarts;
    TableLens(0, gs, c);
    var v := ViewOf(DirOf(a), false);
    forall i | 0 <= i < |Flatten(gs)| ensures v.gFrame[i] < |gs| && v.gSpan[i].lo <= v.gSpan[i].hi {
      GranuleAt(0, gs, c, i);
    }
    GranuleAt(0, gs, c, k);
    var f := v.gFrame[k];
    FrameLoads(a, gs, c, f);
    assert v.Span(k, Flatten(gs[f])) == v.gSpan[k];
  }
}
