/** Every layout, read whole or by range, opens the directory that was sealed over the frames written. */
module LayoutsAgree {
  import opened Wire
  import opened Chunking
  import opened Directory
  import opened DirectoryParse
  import opened DirectoryMeaning
  import opened DirectoryRoundTrip
  import opened Layouts

  /** A column ready to be laid out: what was sealed, its stored directory and its frames' bytes. */
  datatype Laid = Laid(a: Sealed, dir: Bytes, packed: bool, data: Bytes)

  /** The column as a writer leaves it and the manifest beside it as a reader checks it. */
  ghost predicate Ready(l: Laid, chk: Check, env: Env) {
    && WriterOk(l.a) && CheckFor(chk, l.a) && env.Lawful()
    && |l.data| == TotalLen(l.a.frames) && |l.dir| < 0x1_0000_0000 && |EncodeDir(l.a, env.crc)| <= MAX_INT64
    && (l.dir, l.packed) == StoredDir(l.a, chk.sizing.Some?, env)
    && (chk.sizing.Some? ==> chk.sizing.value.dirLen == |l.dir|)
  }

  lemma CrcRoundTrip(p: Bytes, rest: Bytes, crc: Bytes -> uint32)
    ensures CrcAt(p + PutU32(crc(p)) + rest, |p|, crc)
  {
    hide U32; hide PutU32;
    var w := PutU32(crc(p));
    Assoc(p, w, rest);
    DropPrefix(p, w + rest);
    U32RoundTrip(crc(p), rest);
    assert (p + (w + rest))[..|p|] == p;
  }

  lemma PlainOk(a: Sealed, frameBytes: nat, chk: Check, env: Env)
    requires WriterOk(a) && CheckFor(chk, a) && frameBytes == TotalLen(a.frames)
    requires chk.sizing.Some? ==> chk.sizing.value.dirLen == |EncodeDir(a, env.crc)|
    ensures ParsePlain(EncodeDir(a, env.crc), frameBytes, chk, env) == Ok(DirOf(a))
  {
    hide Fields; hide ParseFields; hide WriterOk; hide CrcAt; hide PutU32;
    var w := PutU32(env.crc(Fields(a)));
    FieldsRoundTrip(a, w, frameBytes, chk);
    CrcRoundTrip(Fields(a), [], env.crc);
    assert Fields(a) + w + [] == Fields(a) + w;
  }

  // ------------------------------------------------------------ compact directories

  lemma PutNothing()
    ensures PutFrames([]) == [] && PutChunks([], true, 0) == PutChunks([], false, 0) == []
    ensures forall t, p :: PutChunks([], t, p) == []
  {
  }

  function EntryLen(f: FrameRec): nat { |PutUvarint(|f.lens|)| + |PutUvarint(f.len)| + CRC_BYTES }

  lemma {:induction false} PutFramesBound(fs: seq<FrameRec>, k: nat)
    requires forall i :: 0 <= i < |fs| ==> EntryLen(fs[i]) <= k
    ensures |PutFrames(fs)| <= |fs| * k
  {
    hide PutUvarint; hide PutU32; hide PutFrames;
    if fs == [] {
      PutNothing();
    } else {
      PutFramesHead(fs);
      PutFramesBound(fs[1..], k);
      assert EntryLen(fs[0]) <= k;
      MulStep(|fs|, k);
    }
  }

  lemma MulStep(n: nat, k: nat)
    requires n > 0
    ensures n * k == (n - 1) * k + k
  {
  }

  /** No entry of the frame table is longer than the varints of the counts allow. */
  lemma EntriesFit(fs: seq<FrameRec>, size: nat)
    requires FramesFit(fs) && |Lens(fs)| < TWO64 && TotalLen(fs) <= size
    ensures forall i :: 0 <= i < |fs| ==> EntryLen(fs[i]) <= |PutUvarint(|Lens(fs)|)| + |PutUvarint(size)| + CRC_BYTES
    ensures forall i :: 0 <= i < |fs| ==> EntryLen(fs[i]) <= 2 * MAX_VARINT_LEN + CRC_BYTES
  {
    hide PutUvarint; hide Lens; hide TotalLen;
    forall i | 0 <= i < |fs|
      ensures EntryLen(fs[i]) <= |PutUvarint(|Lens(fs)|)| + |PutUvarint(size)| + CRC_BYTES
      ensures EntryLen(fs[i]) <= 2 * MAX_VARINT_LEN + CRC_BYTES
    {
      CountsFit(fs, i);
      UvarintMonotone(|fs[i].lens|, |Lens(fs)|);
      UvarintMonotone(fs[i].len, size);
      UvarintRoundTrip(|fs[i].lens|, []);
      UvarintRoundTrip(fs[i].len, []);
    }
  }

  lemma {:induction false} PutLensBound(ls: seq<nat>)
    requires forall i :: 0 <= i < |ls| ==> ls[i] < TWO64
    ensures |PutLens(ls)| <= |ls| * MAX_VARINT_LEN
  {
    if ls != [] {
      PutLensBound(ls[1..]);
      UvarintRoundTrip(ls[0], []);
    }
  }

  function ChunkMax(timeBounds: bool): nat { if timeBounds then 3 * MAX_VARINT_LEN else MAX_VARINT_LEN }

  lemma ChunkBound(c: ChunkRec, timeBounds: bool, previous: int)
    requires c.rows < TWO64
    ensures |PutChunk(c, timeBounds, previous)| <= ChunkMax(timeBounds)
  {
    hide PutUvarint; hide PutVarint; hide Wrap64;
    UvarintRoundTrip(c.rows, []);
    VarintRoundTrip(Wrap64(c.min - previous), []);
    VarintRoundTrip(Wrap64(c.max - c.min), []);
  }

  lemma {:induction false} PutChunksBound(cs: seq<ChunkRec>, timeBounds: bool, previous: int)
    requires forall i :: 0 <= i < |cs| ==> cs[i].rows < TWO64
    ensures |PutChunks(cs, timeBounds, previous)| <= |cs| * ChunkMax(timeBounds)
    decreases cs
  {
    hide PutChunk; hide PutChunks; hide ChunkMax;
    if cs == [] {
      PutNothing();
    } else {
      PutChunksHead(cs, timeBounds, previous);
      PutChunksBound(cs[1..], timeBounds, cs[0].min);
      ChunkBound(cs[0], timeBounds, previous);
      MulStep(|cs|, ChunkMax(timeBounds));
    }
  }

  lemma {:induction false} CountsFit(fs: seq<FrameRec>, i: nat)
    requires i < |fs|
    ensures |fs[i].lens| <= |Lens(fs)| && fs[i].len <= TotalLen(fs)
  {
    if i > 0 {
      CountsFit(fs[1..], i - 1);
    }
  }

  lemma HeaderBound(h: Header)
    requires h.granules < TWO64 && h.blockRows < TWO64 && h.frames < TWO64
    ensures |PutHeader(h)| <= 3 * MAX_VARINT_LEN
  {
    UvarintRoundTrip(h.granules, []);
    UvarintRoundTrip(h.blockRows, []);
    UvarintRoundTrip(h.frames, []);
  }

  lemma FieldsLength(a: Sealed)
    ensures |Fields(a)| == |PutHeader(Header(|Lens(a.frames)|, a.blockRows, |a.frames|))| + |PutFrames(a.frames)| + |PutLens(Lens(a.frames))|
                           + |if a.variable then PutChunks(a.chunks, a.timeBounds, 0) else []|
  {
    hide PutUvarint; hide PutFrames; hide PutLens; hide PutChunks; hide Lens;
  }

  /** The raw directory of variable chunks stays within the bound its reader allows. */
  lemma CompactBound(a: Sealed, env: Env, s: Sizing)
    requires WriterOk(a) && a.variable && s == SizingOf(a, s.dirLen) && |EncodeDir(a, env.crc)| <= MAX_INT64
    ensures |EncodeDir(a, env.crc)| <= CompactDirBound(s, a.timeBounds)
  {
    hide Fields; hide PutFrames; hide PutLens; hide PutChunks; hide Lens; hide PutUvarint; hide PutHeader; hide TotalLen; hide Sum; hide RowSum; hide MaxOf; hide MaxRaw; hide MaxLen; hide SatMul; hide SatAdd; hide EntryLen;
    var h := Header(|Lens(a.frames)|, a.blockRows, |a.frames|);
    FieldsLength(a);
    HeaderBound(h);
    OneEachCount(a.frames);
    LensFit(a.frames);
    EntriesFit(a.frames, TotalLen(a.frames));
    PutFramesBound(a.frames, 2 * MAX_VARINT_LEN + CRC_BYTES);
    PutLensBound(Lens(a.frames));
    PutChunksBound(a.chunks, a.timeBounds, 0);
    SaturatesOnly(|a.frames|, if a.timeBounds then 4 * MAX_VARINT_LEN else 2 * MAX_VARINT_LEN, |EncodeDir(a, env.crc)|);
  }

  lemma SaturatesOnly(n: nat, per: nat, len: nat)
    requires per == 20 || per == 40
    requires len <= MAX_INT64 && len <= 3 * MAX_VARINT_LEN + CRC_BYTES + n * (2 * MAX_VARINT_LEN + CRC_BYTES) + n * per
    ensures len <= SatAdd(3 * MAX_VARINT_LEN + CRC_BYTES, SatAdd(SatMul(n, 2 * MAX_VARINT_LEN + CRC_BYTES), SatMul(n, per)))
  {
  }

  lemma CompactOk(a: Sealed, frameBytes: nat, chk: Check, env: Env, dir: Bytes)
    requires WriterOk(a) && CheckFor(chk, a) && env.Lawful() && frameBytes == TotalLen(a.frames)
    requires chk.sizing.Some? && StoredDir(a, true, env) == (dir, true) && chk.sizing.value.dirLen == |dir| && |dir| < 0x1_0000_0000
    requires |EncodeDir(a, env.crc)| <= MAX_INT64
    ensures ParseCompact(dir, frameBytes, chk, env) == Ok(DirOf(a))
  {
    hide EncodeDir; hide ParsePlain; hide WriterOk; hide CheckFor; hide CrcAt; hide PutU32; hide PutUvarint; hide Uvarint; hide CompactDirBound; hide SizingOf;
    var raw := EncodeDir(a, env.crc);
    var head, body := PutUvarint(|raw|), env.pack(raw);
    var packed := head + body;
    var w := PutU32(env.crc(packed));
    assert dir == packed + w;
    var end := |dir| - CRC_BYTES;
    assert dir[..end] == packed;
    CrcRoundTrip(packed, [], env.crc);
    assert packed + w + [] == dir;
    UvarintRoundTrip(|raw|, body);
    assert dir[|head|..end] == body;
    CompactChecks(a, chk, env);
    var s := chk.sizing.value.(dirLen := |raw|);
    PlainOk(a, frameBytes, chk.(sizing := Some(s)), env);
  }

  lemma CompactChecks(a: Sealed, chk: Check, env: Env)
    requires WriterOk(a) && CheckFor(chk, a) && chk.sizing.Some? && a.variable && |EncodeDir(a, env.crc)| <= MAX_INT64
    ensures chk.maxBlockRows != 0 && chk.checked && chk.sizing.value.numFrames >= 0 && chk.sizing.value.numGranules >= 0
    ensures CRC_BYTES <= |EncodeDir(a, env.crc)| <= CompactDirBound(chk.sizing.value, chk.timeBounds)
    ensures CheckFor(chk.(sizing := Some(chk.sizing.value.(dirLen := |EncodeDir(a, env.crc)|))), a)
  {
    hide Fields; hide CompactDirBound; hide SatMul; hide SatAdd;
    CompactBound(a, env, chk.sizing.value);
  }

  lemma DetachedOk(l: Laid, chk: Check, env: Env)
    requires Ready(l, chk, env)
    ensures ParseDetached(l.dir, |l.data|, chk, l.packed, env) == Ok(DirOf(l.a))
  {
    hide ParseCompact; hide ParsePlain; hide WriterOk; hide CheckFor; hide EncodeDir;
    if l.packed {
      CompactOk(l.a, |l.data|, chk, env, l.dir);
    } else {
      PlainOk(l.a, |l.data|, chk, env);
    }
  }

  // ------------------------------------------------------------ the layouts

  /** A leading directory, read with the whole object. */
  lemma LeadingWhole(l: Laid, chk: Check, env: Env)
    requires Ready(l, chk, env)
    ensures ParseLeading(Leading(l.dir, l.data), chk, l.packed, env) == Ok(Opened(DirOf(l.a), l.data))
  {
    hide ParseDetached; hide ParseFields; hide WriterOk; hide CheckFor; hide CrcAt; hide Fields; hide PutU32;
    var obj := Leading(l.dir, l.data);
    DropPrefix(l.dir, l.data);
    if l.packed {
      assert obj[..|l.dir|] == l.dir;
      StoredSome(l, env);
      DetachedOk(l, chk, env);
    } else {
      var f := Fields(l.a);
      var w := PutU32(env.crc(f));
      Assoc(f, w, l.data);
      FieldsRoundTrip(l.a, w + l.data, |obj|, chk);
      CrcRoundTrip(f, l.data, env.crc);
      CheckedFor(chk, l.a);
      assert obj[|l.dir|..|l.dir| + |l.data|] == l.data;
    }
  }

  lemma CheckedFor(chk: Check, a: Sealed)
    requires CheckFor(chk, a)
    ensures chk.checked
  {
  }

  lemma StoredSome(l: Laid, env: Env)
    requires (l.dir, l.packed) == StoredDir(l.a, true, env) && l.packed
    ensures |l.dir| > 0
  {
    hide EncodeDir; hide PutUvarint; hide PutU32;
  }

  /** A directory behind the frames, found by the length that closes the object. */
  lemma FooterWhole(l: Laid, chk: Check, env: Env)
    requires Ready(l, chk, env)
    ensures ParseFooter(Footer(l.dir, l.data), chk, l.packed, env) == Ok(Opened(DirOf(l.a), l.data))
  {
    hide ParseDetached; hide WriterOk; hide CheckFor; hide StoredDir; hide PutU32; hide U32; hide EncodeDir;
    DetachedOk(l, chk, env);
    FooterSplit(l.data, [], l.dir);
    assert l.data + [] == l.data;
  }

  /** The tail of a footer or trailer object. */
  lemma FooterSplit(data: Bytes, region: Bytes, dir: Bytes)
    requires |dir| < 0x1_0000_0000
    ensures var obj := data + region + dir + PutU32(|dir|);
            var end := |obj| - FOOTER_LEN_BYTES;
            && end == |data| + |region| + |dir| && U32(obj[end..]) == |dir|
            && obj[|data| + |region|..end] == dir && obj[..|data|] == data && obj[|data|..|data| + |region|] == region
  {
    hide PutU32; hide U32;
    var w := PutU32(|dir|);
    var obj := data + region + dir + w;
    DropPrefix(data + region + dir, w);
    U32RoundTrip(|dir|, []);
    assert w + [] == w;
  }

  /** A trailer dictionary between the frames and the directory. */
  lemma TrailerWhole(l: Laid, region: Bytes, chk: Check, env: Env)
    requires Ready(l, chk, env) && !l.packed
    ensures ParseTrailer(Trailer(l.dir, region, l.data), |l.data|, |region|, chk, env) == Ok(Opened(DirOf(l.a), l.data))
  {
    hide ParseDetached; hide WriterOk; hide CheckFor; hide StoredDir; hide PutU32; hide U32; hide EncodeDir;
    DetachedOk(l, chk, env);
    FooterSplit(l.data, region, l.dir);
  }

  /** The trailer read by range: one read of the tail gives the region and the directory. */
  lemma TrailerRanged(l: Laid, region: Bytes, chk: Check, env: Env)
    requires Ready(l, chk, env) && !l.packed
    ensures var obj := Trailer(l.dir, region, l.data);
            ReadTrailer(obj, |obj|, |l.data|, |region|, chk, env) == Ok((region, Ranged(DirOf(l.a), 0)))
  {
    hide ParseDetached; hide WriterOk; hide CheckFor; hide StoredDir; hide PutU32; hide U32; hide EncodeDir; hide ClampRange; hide DirOf;
    var obj := Trailer(l.dir, region, l.data);
    DetachedOk(l, chk, env);
    TrailerTail(l.data, region, l.dir);
  }

  lemma TrailerTail(data: Bytes, region: Bytes, dir: Bytes)
    requires |dir| < 0x1_0000_0000
    ensures var obj := Trailer(dir, region, data);
            var n := |obj| - |data|;
            var tail := ClampRange(obj, |data|, n);
            && n == |region| + |dir| + FOOTER_LEN_BYTES && |tail| == n && tail[..|region|] == region
            && U32(tail[n - FOOTER_LEN_BYTES..]) == |dir| && tail[|region|..n - FOOTER_LEN_BYTES] == dir
  {
    hide PutU32; hide U32;
    var obj := Trailer(dir, region, data);
    var n := |obj| - |data|;
    FooterSplit(data, region, dir);
    var tail := obj[|data|..];
    assert ClampRange(obj, |data|, n) == tail;
    assert tail[n - FOOTER_LEN_BYTES..] == obj[|obj| - FOOTER_LEN_BYTES..];
    SliceSlice(obj, |data|, |obj|, 0, |region|);
    SliceSlice(obj, |data|, |obj|, |region|, n - FOOTER_LEN_BYTES);
  }

  // ------------------------------------------------------------ ranged reads inside a larger object

  lemma Within(pre: Bytes, c: Bytes, post: Bytes, i: nat, n: nat)
    requires i + n <= |c|
    ensures ClampRange(pre + c + post, |pre| + i, n) == c[i..i + n]
  {
    var obj := pre + c + post;
    if |pre| + i < |obj| {
      assert obj[|pre| + i..|pre| + i + n] == c[i..i + n];
    }
  }

  /** A directory of fixed granules is never longer than the bound its reader fetches by. */
  lemma DirBoundHolds(a: Sealed, size: nat, env: Env)
    requires WriterOk(a) && !a.variable && TotalLen(a.frames) <= size
    ensures |EncodeDir(a, env.crc)| <= DirBound(|Lens(a.frames)|, |a.frames|, size, true)
  {
    hide Fields; hide PutFrames; hide PutLens; hide Lens; hide PutUvarint; hide PutHeader; hide TotalLen; hide Sum; hide EntryLen; hide PutU32;
    FieldsLength(a);
    HeaderBound(Header(|Lens(a.frames)|, a.blockRows, |a.frames|));
    LensFit(a.frames);
    EntriesFit(a.frames, size);
    PutFramesBound(a.frames, |PutUvarint(|Lens(a.frames)|)| + |PutUvarint(size)| + CRC_BYTES);
    PutLensBound(Lens(a.frames));
  }

  /** Any prefix of a leading column that covers its directory parses as the whole column does. */
  lemma PrefixParses(l: Laid, chk: Check, env: Env, raw: Bytes)
    requires Ready(l, chk, env) && !l.packed
    requires |l.dir| <= |raw| <= |l.dir| + |l.data| && raw == (l.dir + l.data)[..|raw|]
    ensures |l.dir| >= CRC_BYTES
    ensures ParseFields(raw, |l.dir| + |l.data|, chk) == Ok(Parsed(DirOf(l.a), |l.dir| - CRC_BYTES, |l.data|))
    ensures CrcAt(raw, |l.dir| - CRC_BYTES, env.crc) && chk.checked && DirLenOk(chk, |l.dir|)
  {
    hide ParseFields; hide WriterOk; hide CheckFor; hide CrcAt; hide EncodeDir; hide DirOf; hide StoredDir;
    var rest := l.data[..|raw| - |l.dir|];
    assert raw == l.dir + rest;
    StoredPlain(l, chk, env);
    PlainPrefix(l.a, rest, |l.dir| + |l.data|, chk, env);
  }

  lemma PlainPrefix(a: Sealed, rest: Bytes, dataMax: nat, chk: Check, env: Env)
    requires WriterOk(a) && CheckFor(chk, a) && TotalLen(a.frames) <= dataMax
    ensures var dir := EncodeDir(a, env.crc);
            var pos := |dir| - CRC_BYTES;
            && pos >= 0 && ParseFields(dir + rest, dataMax, chk) == Ok(Parsed(DirOf(a), pos, TotalLen(a.frames)))
            && CrcAt(dir + rest, pos, env.crc) && chk.checked
  {
    hide ParseFields; hide WriterOk; hide CheckFor; hide CrcAt; hide Fields; hide PutU32; hide DirOf; hide TotalLen;
    var f := Fields(a);
    var w := PutU32(env.crc(f));
    Assoc(f, w, rest);
    FieldsRoundTrip(a, w + rest, dataMax, chk);
    CrcRoundTrip(f, rest, env.crc);
    CheckedFor(chk, a);
  }

  /** The header of a leading directory survives in any prefix as long as a probe. */
  lemma ProbeHeader(l: Laid, chk: Check, env: Env, head: Bytes)
    requires Ready(l, chk, env) && !l.packed
    requires |head| == Min(|l.dir| + |l.data|, DIR_PROBE_BYTES) && head == (l.dir + l.data)[..|head|]
    ensures ParseHeader(head).Ok? && ParseHeader(head).value.value == Header(|Lens(l.a.frames)|, l.a.blockRows, |l.a.frames|)
  {
    hide ParseHeader; hide PutUvarint; hide PutFrames; hide PutLens; hide PutChunks; hide PutU32; hide Lens; hide PutHeader; hide CheckFor; hide Fields;
    var h := Header(|Lens(l.a.frames)|, l.a.blockRows, |l.a.frames|);
    var p := PutHeader(h);
    HeaderBound(h);
    FieldsLength(l.a);
    FieldsHead(l.a);
    assert l.dir[..|p|] == p;
    assert head == p + head[|p|..];
    HeaderRoundTrip(h, head[|p|..]);
  }

  lemma FieldsHead(a: Sealed)
    ensures var p := PutHeader(Header(|Lens(a.frames)|, a.blockRows, |a.frames|)); |p| <= |Fields(a)| && Fields(a)[..|p|] == p
  {
    hide PutUvarint; hide PutFrames; hide PutLens; hide PutChunks; hide Lens;
    var p := PutHeader(Header(|Lens(a.frames)|, a.blockRows, |a.frames|));
    var q, r := PutFrames(a.frames), PutLens(Lens(a.frames));
    var s := if a.variable then PutChunks(a.chunks, a.timeBounds, 0) else [];
    assert Fields(a) == p + q + r + s;
  }

  /** With no sizing, the widened read covers the directory. */
  lemma WidenedCovers(l: Laid, chk: Check, env: Env, pre: Bytes, post: Bytes)
    requires Ready(l, chk, env) && !l.packed && !l.a.variable
    ensures var c := l.dir + l.data;
            var head := ClampRange(pre + c + post, |pre|, Min(|c|, DIR_PROBE_BYTES));
            var r := WidenHead(pre + c + post, |pre|, |c|, head, true);
            && r.Ok? && |l.dir| <= |r.value| <= |c| && r.value == c[..|r.value|]
  {
    hide ParseHeader; hide WriterOk; hide CheckFor; hide DirBound; hide EncodeDir; hide StoredDir; hide ClampRange;
    var c := l.dir + l.data;
    var n := Min(|c|, DIR_PROBE_BYTES);
    Within(pre, c, post, 0, n);
    ProbeHeader(l, chk, env, c[..n]);
    assert l.dir == EncodeDir(l.a, env.crc) by { StoredPlain(l, chk, env); }
    DirBoundHolds(l.a, |c|, env);
    var bound := DirBound(|Lens(l.a.frames)|, |l.a.frames|, |c|, true);
    if bound > n {
      Within(pre, c, post, 0, Min(bound, |c|));
    }
  }

  lemma StoredPlain(l: Laid, chk: Check, env: Env)
    requires Ready(l, chk, env) && !l.packed
    ensures l.dir == EncodeDir(l.a, env.crc)
  {
    hide EncodeDir; hide WriterOk; hide CheckFor;
  }

  /** A leading column read by range opens the same directory, with or without sizing in the manifest. */
  lemma LeadingRanged(l: Laid, chk: Check, env: Env, pre: Bytes, post: Bytes)
    requires Ready(l, chk, env) && (l.a.variable ==> chk.sizing.Some?)
    ensures var c := Leading(l.dir, l.data);
            ReadLeading(pre + c + post, |pre|, |c|, chk, l.packed, env) == Ok(Ranged(DirOf(l.a), |pre| + |l.dir|))
  {
    hide ParseDetached; hide ParseFields; hide WriterOk; hide CheckFor; hide CrcAt; hide EncodeDir; hide ClampRange; hide WidenHead; hide DirOf; hide StoredDir;
    var c := Leading(l.dir, l.data);
    CheckedFor(chk, l.a);
    if chk.sizing.Some? {
      Within(pre, c, post, 0, |l.dir|);
      assert c[..|l.dir|] == l.dir;
      if l.packed {
        DetachedOk(l, chk, env);
      } else {
        PlainAtLeast(l, chk, env);
        PrefixParses(l, chk, env, l.dir);
      }
    } else {
      NotPacked(l, chk, env);
      WidenedCovers(l, chk, env, pre, post);
      PlainAtLeast(l, chk, env);
      PrefixParses(l, chk, env, WidenHead(pre + c + post, |pre|, |c|, ClampRange(pre + c + post, |pre|, Min(|c|, DIR_PROBE_BYTES)), true).value);
    }
  }

  lemma NotPacked(l: Laid, chk: Check, env: Env)
    requires Ready(l, chk, env) && chk.sizing.None?
    ensures !l.packed
  {
    hide EncodeDir; hide WriterOk; hide CheckFor;
  }

  lemma PlainAtLeast(l: Laid, chk: Check, env: Env)
    requires Ready(l, chk, env) && !l.packed
    ensures |l.dir| >= CRC_BYTES
  {
    hide Fields; hide WriterOk; hide CheckFor;
  }

  /** tail is the last n bytes of the size bytes at off, and dir the directory they end in or lead to. */
  ghost predicate FooterTail(obj: Bytes, off: nat, size: nat, n: nat, tail: Bytes, dir: Bytes) {
    && FOOTER_LEN_BYTES <= n == |tail| <= size && FOOTER_LEN_BYTES + |dir| <= size
    && ClampRange(obj, off + size - n, n) == tail && U32(tail[n - FOOTER_LEN_BYTES..]) == |dir|
    && (|dir| > n - FOOTER_LEN_BYTES ==> ClampRange(obj, off + (size - FOOTER_LEN_BYTES - |dir|), |dir|) == dir)
    && (|dir| <= n - FOOTER_LEN_BYTES ==> tail[..n - FOOTER_LEN_BYTES][n - FOOTER_LEN_BYTES - |dir|..] == dir)
  }

  /** The bytes a footer reader probes for. */
  function Probe(size: nat, dir: Bytes, chk: Check): nat {
    if chk.sizing.Some? then |dir| + FOOTER_LEN_BYTES else Min(size, DIR_PROBE_BYTES)
  }

  /** A footer found from the object's end: the tail read covers the directory, or the directory is read by itself. */
  lemma FooterFound(obj: Bytes, off: nat, size: nat, tail: Bytes, dir: Bytes, frames: nat, chk: Check, packed: bool, env: Env, d: Dir)
    requires chk.sizing.Some? ==> chk.sizing.value.dirLen == |dir|
    requires FooterTail(obj, off, size, Probe(size, dir, chk), tail, dir)
    requires size == frames + |dir| + FOOTER_LEN_BYTES && ParseDetached(dir, frames, chk, packed, env) == Ok(d)
    ensures ReadFooter(obj, off, size, chk, packed, env) == Ok(Ranged(d, off))
  {
    hide ParseDetached; hide U32; hide ClampRange;
    assert dir[0..] == dir;
  }

  /** A footer column read by range opens the same directory, however long it is next to the probe. */
  lemma FooterRanged(l: Laid, chk: Check, env: Env, pre: Bytes, post: Bytes)
    requires Ready(l, chk, env)
    ensures var c := Footer(l.dir, l.data);
            ReadFooter(pre + c + post, |pre|, |c|, chk, l.packed, env) == Ok(Ranged(DirOf(l.a), |pre|))
  {
    hide Ready; hide ParseDetached; hide DirOf; hide ReadFooter; hide Footer; hide FooterTail;
    ReadyLens(l, chk, env);
    FooterLen(l.dir, l.data);
    DetachedOk(l, chk, env);
    var c := Footer(l.dir, l.data);
    var tail := FooterPieces(pre, l.data, l.dir, post, Probe(|c|, l.dir, chk));
    FooterFound(pre + c + post, |pre|, |c|, tail, l.dir, |l.data|, chk, l.packed, env, DirOf(l.a));
  }

  lemma ReadyLens(l: Laid, chk: Check, env: Env)
    requires Ready(l, chk, env)
    ensures |l.dir| < 0x1_0000_0000 && (chk.sizing.Some? ==> chk.sizing.value.dirLen == |l.dir|)
  {
    hide WriterOk; hide CheckFor; hide StoredDir; hide EncodeDir; hide TotalLen;
  }

  /** The last n bytes of a footer object as a ranged read finds them. */
  lemma FooterPieces(pre: Bytes, data: Bytes, dir: Bytes, post: Bytes, n: nat) returns (tail: Bytes)
    requires |dir| < 0x1_0000_0000 && FOOTER_LEN_BYTES <= n <= |Footer(dir, data)|
    ensures var c := Footer(dir, data); FooterTail(pre + c + post, |pre|, |c|, n, tail, dir)
  {
    hide PutU32; hide U32; hide ClampRange; hide Footer;
    FooterLen(dir, data);
    var c := Footer(dir, data);
    tail := c[|c| - n..|c| - n + n];
    Within(pre, c, post, |c| - n, n);
    TailOf(data, dir, n);
    Within(pre, c, post, |data|, |dir|);
    assert |pre| + |c| - n == |pre| + (|c| - n) && |pre| + (|c| - FOOTER_LEN_BYTES - |dir|) == |pre| + |data|;
  }

  lemma FooterLen(dir: Bytes, data: Bytes)
    requires |dir| < 0x1_0000_0000
    ensures |Footer(dir, data)| == |data| + |dir| + FOOTER_LEN_BYTES
  {
    hide PutU32;
  }

  lemma TailOf(data: Bytes, dir: Bytes, n: nat)
    requires |dir| < 0x1_0000_0000
    requires FOOTER_LEN_BYTES <= n <= |Footer(dir, data)|
    ensures var c := Footer(dir, data);
            var tail := c[|c| - n..|c| - n + n];
            && U32(tail[n - FOOTER_LEN_BYTES..]) == |dir| && |c| == |data| + |dir| + FOOTER_LEN_BYTES && c[|data|..|data| + |dir|] == dir
            && (|dir| <= n - FOOTER_LEN_BYTES ==> tail[..n - FOOTER_LEN_BYTES][n - FOOTER_LEN_BYTES - |dir|..] == dir)
  {
    hide PutU32; hide U32; hide Footer;
    var c := Footer(dir, data);
    FooterEnds(data, dir);
    EndOfTail(c, n, FOOTER_LEN_BYTES);
    if |dir| <= n - FOOTER_LEN_BYTES {
      MiddleOfTail(c, n, |dir|, FOOTER_LEN_BYTES);
    }
  }

  lemma FooterEnds(data: Bytes, dir: Bytes)
    requires |dir| < 0x1_0000_0000
    ensures var c := Footer(dir, data);
            |c| == |data| + |dir| + FOOTER_LEN_BYTES && U32(c[|c| - FOOTER_LEN_BYTES..]) == |dir| && c[|data|..|data| + |dir|] == dir
  {
    hide PutU32; hide U32;
    FooterSplit(data, [], dir);
    assert data + [] == data;
  }

  /** The end of the last n bytes is the end. */
  lemma EndOfTail(c: Bytes, n: nat, m: nat)
    requires m <= n <= |c|
    ensures c[|c| - n..|c| - n + n][n - m..] == c[|c| - m..]
  {
    SliceSlice(c, |c| - n, |c|, n - m, n);
  }

  lemma MiddleOfTail(c: Bytes, n: nat, k: nat, m: nat)
    requires k + m <= n <= |c|
    ensures c[|c| - n..|c| - n + n][..n - m][n - m - k..] == c[|c| - m - k..|c| - m]
  {
    SliceSlice(c, |c| - n, |c|, 0, n - m);
    SliceSlice(c, |c| - n, |c| - m, n - m - k, n - m);
  }
}
