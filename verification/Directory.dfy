/**
 The block directory of a framed column: what a writer serializes of its sealed frames and granules,
 and what a reader makes of those bytes.
 */
module Directory {
  import opened Wire
  import opened Chunking

  const MAX_INT32 := 0x7fff_ffff
  const MAX_INT64 := TWO63 - 1
  const MAX_PART_ROWS := 0x100_0000_0000
  const CRC_BYTES := 4

  /** A uint64 converted to int64, and to int32: the value's low bits as a signed word. */
  function AsInt64(v: nat): int { Wrap64(v) }

  function AsInt32(v: int): int { (v + 0x8000_0000) % 0x1_0000_0000 - 0x8000_0000 }

  // ------------------------------------------------------------ what a writer has sealed

  /** A sealed frame: its granules' stream lengths, its compressed length and checksum. */
  datatype FrameRec = FrameRec(lens: seq<nat>, len: nat, crc: uint32)

  /** A variable-size chunk: its rows and its key range. */
  datatype ChunkRec = ChunkRec(rows: nat, min: int, max: int)

  datatype Sealed = Sealed(blockRows: nat, frames: seq<FrameRec>, variable: bool, timeBounds: bool, chunks: seq<ChunkRec>)

  function Lens(fs: seq<FrameRec>): seq<nat> {
    if fs == [] then [] else fs[0].lens + Lens(fs[1..])
  }

  function PutFrames(fs: seq<FrameRec>): Bytes {
    if fs == [] then []
    else PutUvarint(|fs[0].lens|) + PutUvarint(fs[0].len) + PutU32(fs[0].crc) + PutFrames(fs[1..])
  }

  function PutLens(ls: seq<nat>): Bytes {
    if ls == [] then [] else PutUvarint(ls[0]) + PutLens(ls[1..])
  }

  /** A chunk's rows and, with time bounds, its keys delta-coded in wrapping int64 arithmetic. */
  function PutChunk(c: ChunkRec, timeBounds: bool, previous: int): Bytes {
    if timeBounds then PutUvarint(c.rows) + (PutVarint(Wrap64(c.min - previous)) + PutVarint(Wrap64(c.max - c.min)))
    else PutUvarint(c.rows)
  }

  function PutChunks(cs: seq<ChunkRec>, timeBounds: bool, previous: int): Bytes
    decreases cs
  {
    if cs == [] then [] else PutChunk(cs[0], timeBounds, previous) + PutChunks(cs[1..], timeBounds, cs[0].min)
  }

  function Fields(a: Sealed): Bytes {
    PutUvarint(|Lens(a.frames)|) + PutUvarint(a.blockRows) + PutUvarint(|a.frames|)
    + PutFrames(a.frames) + PutLens(Lens(a.frames))
    + (if a.variable then PutChunks(a.chunks, a.timeBounds, 0) else [])
  }

  function EncodeDir(a: Sealed, crc: Bytes -> uint32): Bytes {
    Fields(a) + PutU32(crc(Fields(a)))
  }

  // ------------------------------------------------------------ what a reader checks

  /** The manifest's record of a directory. */
  datatype Sizing = Sizing(
    streamRaw: int, dirLen: int, numGranules: int, numFrames: int, maxFrameBytes: int, maxFrameRaw: int, maxGranuleRaw: int)

  datatype Check = Check(
    rows: int, maxBlockRows: nat, timeBounds: bool, checked: bool, sizing: Option<Sizing>, rawMax: int, rawPerGranule: int)

  /** A parsed directory. gFrame, gOff and gLen are empty when every granule has a frame of its own. */
  datatype Dir = Dir(
    blockRows: int, granules: nat, frameOff: seq<int>, frameCRC: seq<uint32>, frameRaw: seq<int>,
    gFrame: seq<int>, gOff: seq<int>, gLen: seq<int>, rowStarts: seq<int>, minKeys: seq<int>, maxKeys: seq<int>)

  // ---- the frame table

  datatype Table = Table(total: int, g: nat, largest: nat, frameOff: seq<int>, gFrame: seq<int>, crcs: seq<uint32>)

  datatype Entry = Entry(count: nat, len: nat, crc: uint32)

  function ReadEntry(b: Bytes, checked: bool): (r: Result<Read<Entry>>)
    ensures r.Ok? ==> 1 <= r.value.n <= |b|
  {
    match Uvarint(b)
    case Err => Err
    case Ok(Read(count, n)) =>
      match Uvarint(b[n..])
      case Err => Err
      case Ok(Read(len, m)) =>
        if !checked then Ok(Read(Entry(count, len, 0), n + m))
        else if |b| < n + m + CRC_BYTES then Err
        else Ok(Read(Entry(count, len, U32(b[n + m..])), n + m + CRC_BYTES))
  }

  function Repeat(x: int, n: nat): seq<int> { seq(n, i => x) }

  function StepFrame(t: Table, e: Entry, granules: nat, packed: bool, checked: bool, dataMax: nat): Result<Table> {
    if e.count > granules || t.g + e.count > granules then Err
    else if !packed && e.count != 1 then Err
    else if e.len > dataMax || t.total + e.len > dataMax then Err
    else Ok(Table(t.total + e.len, t.g + e.count, Max(t.largest, e.len), t.frameOff + [AsInt32(t.total + e.len)],
                  if packed then t.gFrame + Repeat(|t.frameOff| - 1, e.count) else t.gFrame,
                  if checked then t.crcs + [e.crc] else t.crcs))
  }

  function ReadFrames(b: Bytes, n: nat, t: Table, granules: nat, packed: bool, checked: bool, dataMax: nat): (r: Result<Read<Table>>)
    ensures r.Ok? ==> r.value.n <= |b|
    decreases n
  {
    if n == 0 then Ok(Read(t, 0))
    else
      match ReadEntry(b, checked)
      case Err => Err
      case Ok(Read(e, k)) =>
        match StepFrame(t, e, granules, packed, checked, dataMax)
        case Err => Err
        case Ok(t') =>
          match ReadFrames(b[k..], n - 1, t', granules, packed, checked, dataMax)
          case Err => Err
          case Ok(Read(t'', m)) => Ok(Read(t'', k + m))
  }

  // ---- the granule lengths

  datatype Spans = Spans(
    off: int, prev: int, gOff: seq<int>, gLen: seq<int>, frameRaw: seq<int>, total: int, maxGran: int, maxFrame: int)

  function SatAdd(a: int, b: int): int { if a > MAX_INT64 - b then MAX_INT64 else a + b }

  function SatMul(a: int, b: int): int
    requires a >= 0
  {
    if a != 0 && b > MAX_INT64 / a then MAX_INT64 else a * b
  }

  /** What the granules may decompress to in total; negative for no limit. */
  function RawLimit(chk: Check, granules: nat): int {
    if chk.rawMax < 0 || chk.rawPerGranule < 0 then chk.rawMax else SatAdd(chk.rawMax, SatMul(chk.rawPerGranule, granules))
  }

  function StepLen(s: Spans, l: nat, f: int, packed: bool, sizing: Option<Sizing>, rawMax: int): (r: Result<Spans>)
    requires 0 <= f < |s.frameRaw|
    ensures r.Ok? ==> |r.value.frameRaw| == |s.frameRaw|
  {
    var off := if f != s.prev then 0 else s.off;
    if off + AsInt64(l) > MAX_INT32 then Err
    else
      var end := AsInt32(off + AsInt32(l));
      var total, maxGran, maxFrame := Wrap64(s.total + AsInt64(l)), Max(s.maxGran, AsInt64(l)), Max(s.maxFrame, end);
      if sizing.Some? && (maxGran > sizing.value.maxGranuleRaw || maxFrame > sizing.value.maxFrameRaw) then Err
      else if rawMax >= 0 && total > rawMax then Err
      else Ok(Spans(end, f, if packed then s.gOff + [off] else s.gOff, if packed then s.gLen + [AsInt32(l)] else s.gLen,
                    s.frameRaw[f := end], total, maxGran, maxFrame))
  }

  /** The frame of granule i. */
  function FrameAt(gFrame: seq<int>, packed: bool, i: nat): int
    requires packed ==> i < |gFrame|
  {
    if packed then gFrame[i] else i
  }

  ghost predicate FramesIn(gFrame: seq<int>, packed: bool, n: nat, frames: nat) {
    && (packed ==> n <= |gFrame|)
    && forall k :: 0 <= k < n ==> 0 <= FrameAt(gFrame, packed, k) < frames
  }

  function ReadLens(b: Bytes, i: nat, n: nat, s: Spans, gFrame: seq<int>, packed: bool, sizing: Option<Sizing>, rawMax: int): (r: Result<Read<Spans>>)
    requires i <= n && FramesIn(gFrame, packed, n, |s.frameRaw|)
    ensures r.Ok? ==> r.value.n <= |b|
    decreases n - i
  {
    if i == n then Ok(Read(s, 0))
    else
      match Uvarint(b)
      case Err => Err
      case Ok(Read(l, k)) =>
        match StepLen(s, l, FrameAt(gFrame, packed, i), packed, sizing, rawMax)
        case Err => Err
        case Ok(s') =>
          match ReadLens(b[k..], i + 1, n, s', gFrame, packed, sizing, rawMax)
          case Err => Err
          case Ok(Read(s'', m)) => Ok(Read(s'', k + m))
  }

  // ---- the chunk rows

  datatype Chunked = Chunked(sum: int, previous: int, rowStarts: seq<int>, minKeys: seq<int>, maxKeys: seq<int>)

  datatype ChunkEntry = ChunkEntry(rows: nat, delta: int, span: int)

  function ReadChunk(b: Bytes, timeBounds: bool): (r: Result<Read<ChunkEntry>>)
    ensures r.Ok? ==> 1 <= r.value.n <= |b|
  {
    match Uvarint(b)
    case Err => Err
    case Ok(Read(rows, n)) =>
      if !timeBounds then Ok(Read(ChunkEntry(rows, 0, 0), n))
      else
        match Varint(b[n..])
        case Err => Err
        case Ok(Read(delta, m)) =>
          match Varint(b[n + m..])
          case Err => Err
          case Ok(Read(span, k)) => Ok(Read(ChunkEntry(rows, delta, span), n + m + k))
  }

  function StepChunk(c: Chunked, e: ChunkEntry, maxBlockRows: nat, timeBounds: bool): Result<Chunked> {
    if e.rows == 0 || e.rows > maxBlockRows || c.sum + e.rows > MAX_PART_ROWS then Err
    else
      var sum := c.sum + e.rows;
      if !timeBounds then Ok(c.(sum := sum, rowStarts := c.rowStarts + [sum]))
      else
        var lo := Wrap64(c.previous + e.delta);
        var hi := Wrap64(lo + e.span);
        if lo > hi then Err
        else Ok(Chunked(sum, lo, c.rowStarts + [sum], c.minKeys + [lo], c.maxKeys + [hi]))
  }

  function ReadChunks(b: Bytes, n: nat, c: Chunked, maxBlockRows: nat, timeBounds: bool): (r: Result<Read<Chunked>>)
    ensures r.Ok? ==> r.value.n <= |b|
    decreases n
  {
    if n == 0 then Ok(Read(c, 0))
    else
      match ReadChunk(b, timeBounds)
      case Err => Err
      case Ok(Read(e, k)) =>
        match StepChunk(c, e, maxBlockRows, timeBounds)
        case Err => Err
        case Ok(c') =>
          match ReadChunks(b[k..], n - 1, c', maxBlockRows, timeBounds)
          case Err => Err
          case Ok(Read(c'', m)) => Ok(Read(c'', k + m))
  }

  // ------------------------------------------------------------ reading what was written

  /** The steps a frame table's entries take. */
  function StepFrames(t: Table, fs: seq<FrameRec>, granules: nat, packed: bool, dataMax: nat): Result<Table>
    decreases fs
  {
    if fs == [] then Ok(t)
    else
      match StepFrame(t, Entry(|fs[0].lens|, fs[0].len, fs[0].crc), granules, packed, true, dataMax)
      case Err => Err
      case Ok(t') => StepFrames(t', fs[1..], granules, packed, dataMax)
  }

  ghost predicate FramesFit(fs: seq<FrameRec>) {
    forall i :: 0 <= i < |fs| ==> |fs[i].lens| < TWO64 && fs[i].len < TWO64
  }

  lemma EntryRoundTrip(f: FrameRec, rest: Bytes)
    requires |f.lens| < TWO64 && f.len < TWO64
    ensures var enc := PutUvarint(|f.lens|) + PutUvarint(f.len) + PutU32(f.crc);
            ReadEntry(enc + rest, true) == Ok(Read(Entry(|f.lens|, f.len, f.crc), |enc|))
  {
    hide PutUvarint; hide Uvarint; hide PutU32; hide U32;
    var p, q, w := PutUvarint(|f.lens|), PutUvarint(f.len), PutU32(f.crc);
    UvarintRoundTrip(|f.lens|, q + (w + rest));
    UvarintRoundTrip(f.len, w + rest);
    U32RoundTrip(f.crc, rest);
    Assoc(p + q, w, rest);
    Assoc(p, q, w + rest);
    DropPrefix(p, q + (w + rest));
    DropPrefix(p + q, w + rest);
  }

  /** Reading a written frame table takes exactly the steps of its frames. */
  lemma {:induction false} FramesRoundTrip(fs: seq<FrameRec>, rest: Bytes, t: Table, granules: nat, packed: bool, dataMax: nat)
    requires FramesFit(fs)
    ensures ReadFrames(PutFrames(fs) + rest, |fs|, t, granules, packed, true, dataMax)
         == match StepFrames(t, fs, granules, packed, dataMax)
            case Err => Err
            case Ok(t') => Ok(Read(t', |PutFrames(fs)|))
    decreases fs
  {
    hide ReadEntry; hide StepFrame; hide PutUvarint; hide PutU32; hide ReadFrames; hide PutFrames; hide StepFrames; hide Uvarint;
    if fs == [] {
      FramesNil(rest, t, granules, packed, dataMax);
    } else {
      var enc := PutUvarint(|fs[0].lens|) + PutUvarint(fs[0].len) + PutU32(fs[0].crc);
      var tail := PutFrames(fs[1..]);
      PutFramesHead(fs);
      Assoc(enc, tail, rest);
      EntryRoundTrip(fs[0], tail + rest);
      DropPrefix(enc, tail + rest);
      var e := Entry(|fs[0].lens|, fs[0].len, fs[0].crc);
      ReadFramesHead(enc + (tail + rest), e, |enc|, |fs|, t, granules, packed, dataMax);
      var s := StepFrame(t, e, granules, packed, true, dataMax);
      StepFramesHead(t, fs, granules, packed, dataMax);
      if s.Ok? {
        FramesRoundTrip(fs[1..], rest, s.value, granules, packed, dataMax);
      }
    }
  }

  lemma FramesNil(rest: Bytes, t: Table, granules: nat, packed: bool, dataMax: nat)
    ensures ReadFrames(PutFrames([]) + rest, 0, t, granules, packed, true, dataMax) == Ok(Read(t, 0))
    ensures PutFrames([]) == [] && StepFrames(t, [], granules, packed, dataMax) == Ok(t)
  {
  }

  lemma StepFramesHead(t: Table, fs: seq<FrameRec>, granules: nat, packed: bool, dataMax: nat)
    requires fs != []
    ensures StepFrames(t, fs, granules, packed, dataMax)
         == match StepFrame(t, Entry(|fs[0].lens|, fs[0].len, fs[0].crc), granules, packed, true, dataMax)
            case Err => Err
            case Ok(t') => StepFrames(t', fs[1..], granules, packed, dataMax)
  {
    hide StepFrame;
  }

  lemma PutFramesHead(fs: seq<FrameRec>)
    requires fs != []
    ensures PutFrames(fs) == PutUvarint(|fs[0].lens|) + PutUvarint(fs[0].len) + PutU32(fs[0].crc) + PutFrames(fs[1..])
  {
  }

  lemma ReadFramesHead(b: Bytes, e: Entry, k: nat, n: nat, t: Table, granules: nat, packed: bool, dataMax: nat)
    requires n > 0 && ReadEntry(b, true) == Ok(Read(e, k))
    ensures ReadFrames(b, n, t, granules, packed, true, dataMax)
         == match StepFrame(t, e, granules, packed, true, dataMax)
            case Err => Err
            case Ok(t') =>
              match ReadFrames(b[k..], n - 1, t', granules, packed, true, dataMax)
              case Err => Err
              case Ok(Read(t'', m)) => Ok(Read(t'', k + m))
  {
    hide StepFrame; hide ReadEntry;
  }

  function StepLens(s: Spans, ls: seq<nat>, i: nat, gFrame: seq<int>, packed: bool, sizing: Option<Sizing>, rawMax: int): Result<Spans>
    requires FramesIn(gFrame, packed, i + |ls|, |s.frameRaw|)
    decreases ls
  {
    if ls == [] then Ok(s)
    else
      match StepLen(s, ls[0], FrameAt(gFrame, packed, i), packed, sizing, rawMax)
      case Err => Err
      case Ok(s') => StepLens(s', ls[1..], i + 1, gFrame, packed, sizing, rawMax)
  }

  lemma {:induction false} LensRoundTrip(
    ls: seq<nat>, rest: Bytes, s: Spans, i: nat, gFrame: seq<int>, packed: bool, sizing: Option<Sizing>, rawMax: int)
    requires FramesIn(gFrame, packed, i + |ls|, |s.frameRaw|)
    requires forall k :: 0 <= k < |ls| ==> ls[k] < TWO64
    ensures ReadLens(PutLens(ls) + rest, i, i + |ls|, s, gFrame, packed, sizing, rawMax)
         == match StepLens(s, ls, i, gFrame, packed, sizing, rawMax)
            case Err => Err
            case Ok(s') => Ok(Read(s', |PutLens(ls)|))
    decreases ls
  {
    hide StepLen; hide PutUvarint; hide Uvarint; hide ReadLens; hide PutLens; hide FrameAt; hide StepLens;
    if ls == [] {
      LensNil(rest, s, i, gFrame, packed, sizing, rawMax);
    } else {
      var enc, tail := PutUvarint(ls[0]), PutLens(ls[1..]);
      PutLensHead(ls);
      Assoc(enc, tail, rest);
      UvarintRoundTrip(ls[0], tail + rest);
      DropPrefix(enc, tail + rest);
      ReadLensHead(enc + (tail + rest), ls[0], |enc|, i, i + |ls|, s, gFrame, packed, sizing, rawMax);
      var r := StepLen(s, ls[0], FrameAt(gFrame, packed, i), packed, sizing, rawMax);
      StepLensHead(s, ls, i, gFrame, packed, sizing, rawMax);
      if r.Ok? {
        LensRoundTrip(ls[1..], rest, r.value, i + 1, gFrame, packed, sizing, rawMax);
      }
    }
  }

  lemma LensNil(rest: Bytes, s: Spans, i: nat, gFrame: seq<int>, packed: bool, sizing: Option<Sizing>, rawMax: int)
    requires FramesIn(gFrame, packed, i, |s.frameRaw|)
    ensures ReadLens(PutLens([]) + rest, i, i, s, gFrame, packed, sizing, rawMax) == Ok(Read(s, 0))
    ensures PutLens([]) == [] && StepLens(s, [], i, gFrame, packed, sizing, rawMax) == Ok(s)
  {
  }

  lemma StepLensHead(s: Spans, ls: seq<nat>, i: nat, gFrame: seq<int>, packed: bool, sizing: Option<Sizing>, rawMax: int)
    requires ls != [] && FramesIn(gFrame, packed, i + |ls|, |s.frameRaw|)
    ensures StepLens(s, ls, i, gFrame, packed, sizing, rawMax)
         == match StepLen(s, ls[0], FrameAt(gFrame, packed, i), packed, sizing, rawMax)
            case Err => Err
            case Ok(s') => StepLens(s', ls[1..], i + 1, gFrame, packed, sizing, rawMax)
  {
    hide StepLen;
  }

  lemma PutLensHead(ls: seq<nat>)
    requires ls != []
    ensures PutLens(ls) == PutUvarint(ls[0]) + PutLens(ls[1..])
  {
  }

  lemma ReadLensHead(
    b: Bytes, l: nat, k: nat, i: nat, n: nat, s: Spans, gFrame: seq<int>, packed: bool, sizing: Option<Sizing>, rawMax: int)
    requires i < n && FramesIn(gFrame, packed, n, |s.frameRaw|) && Uvarint(b) == Ok(Read(l, k))
    ensures ReadLens(b, i, n, s, gFrame, packed, sizing, rawMax)
         == match StepLen(s, l, FrameAt(gFrame, packed, i), packed, sizing, rawMax)
            case Err => Err
            case Ok(s') =>
              match ReadLens(b[k..], i + 1, n, s', gFrame, packed, sizing, rawMax)
              case Err => Err
              case Ok(Read(s'', m)) => Ok(Read(s'', k + m))
  {
    hide StepLen; hide Uvarint; hide FramesIn; hide FrameAt;
  }

  /** A chunk's entry as its bytes carry it. */
  function EntryOf(c: ChunkRec, timeBounds: bool, previous: int): ChunkEntry {
    if timeBounds then ChunkEntry(c.rows, Wrap64(c.min - previous), Wrap64(c.max - c.min)) else ChunkEntry(c.rows, 0, 0)
  }

  function StepChunks(c: Chunked, cs: seq<ChunkRec>, previous: int, maxBlockRows: nat, timeBounds: bool): Result<Chunked>
    decreases cs
  {
    if cs == [] then Ok(c)
    else
      match StepChunk(c, EntryOf(cs[0], timeBounds, previous), maxBlockRows, timeBounds)
      case Err => Err
      case Ok(c') => StepChunks(c', cs[1..], cs[0].min, maxBlockRows, timeBounds)
  }

  lemma ChunkRoundTrip(c: ChunkRec, timeBounds: bool, previous: int, rest: Bytes)
    requires c.rows < TWO64
    ensures ReadChunk(PutChunk(c, timeBounds, previous) + rest, timeBounds)
         == Ok(Read(EntryOf(c, timeBounds, previous), |PutChunk(c, timeBounds, previous)|))
  {
    hide PutUvarint; hide Uvarint; hide PutVarint; hide Varint; hide Wrap64;
    var delta, span := Wrap64(c.min - previous), Wrap64(c.max - c.min);
    var p, q, w := PutUvarint(c.rows), PutVarint(delta), PutVarint(span);
    if timeBounds {
      UvarintRoundTrip(c.rows, q + w + rest);
      Assoc(p, q + w, rest);
      Assoc(q, w, rest);
      VarintRoundTrip(delta, w + rest);
      DropPrefix(p, q + w + rest);
      VarintRoundTrip(span, rest);
      DropPrefix(p + q, w + rest);
      assert p + (q + w) + rest == (p + q) + (w + rest);
    } else {
      UvarintRoundTrip(c.rows, rest);
    }
  }

  lemma {:induction false} ChunksRoundTrip(cs: seq<ChunkRec>, rest: Bytes, c: Chunked, previous: int, maxBlockRows: nat, timeBounds: bool)
    requires forall i :: 0 <= i < |cs| ==> cs[i].rows < TWO64
    ensures ReadChunks(PutChunks(cs, timeBounds, previous) + rest, |cs|, c, maxBlockRows, timeBounds)
         == match StepChunks(c, cs, previous, maxBlockRows, timeBounds)
            case Err => Err
            case Ok(c') => Ok(Read(c', |PutChunks(cs, timeBounds, previous)|))
    decreases cs
  {
    hide ReadChunk; hide StepChunk; hide PutChunk; hide EntryOf; hide ReadChunks; hide PutChunks; hide StepChunks;
    if cs == [] {
      ChunksNil(rest, c, previous, maxBlockRows, timeBounds);
    } else {
      var enc, tail := PutChunk(cs[0], timeBounds, previous), PutChunks(cs[1..], timeBounds, cs[0].min);
      PutChunksHead(cs, timeBounds, previous);
      Assoc(enc, tail, rest);
      ChunkRoundTrip(cs[0], timeBounds, previous, tail + rest);
      DropPrefix(enc, tail + rest);
      ReadChunksHead(enc + (tail + rest), EntryOf(cs[0], timeBounds, previous), |enc|, |cs|, c, maxBlockRows, timeBounds);
      var r := StepChunk(c, EntryOf(cs[0], timeBounds, previous), maxBlockRows, timeBounds);
      StepChunksHead(c, cs, previous, maxBlockRows, timeBounds);
      if r.Ok? {
        ChunksRoundTrip(cs[1..], rest, r.value, cs[0].min, maxBlockRows, timeBounds);
      }
    }
  }

  lemma ChunksNil(rest: Bytes, c: Chunked, previous: int, maxBlockRows: nat, timeBounds: bool)
    ensures ReadChunks(PutChunks([], timeBounds, previous) + rest, 0, c, maxBlockRows, timeBounds) == Ok(Read(c, 0))
    ensures PutChunks([], timeBounds, previous) == [] && StepChunks(c, [], previous, maxBlockRows, timeBounds) == Ok(c)
  {
  }

  lemma StepChunksHead(c: Chunked, cs: seq<ChunkRec>, previous: int, maxBlockRows: nat, timeBounds: bool)
    requires cs != []
    ensures StepChunks(c, cs, previous, maxBlockRows, timeBounds)
         == match StepChunk(c, EntryOf(cs[0], timeBounds, previous), maxBlockRows, timeBounds)
            case Err => Err
            case Ok(c') => StepChunks(c', cs[1..], cs[0].min, maxBlockRows, timeBounds)
  {
    hide StepChunk; hide EntryOf;
  }

  lemma PutChunksHead(cs: seq<ChunkRec>, timeBounds: bool, previous: int)
    requires cs != []
    ensures PutChunks(cs, timeBounds, previous) == PutChunk(cs[0], timeBounds, previous) + PutChunks(cs[1..], timeBounds, cs[0].min)
  {
  }

  lemma ReadChunksHead(b: Bytes, e: ChunkEntry, k: nat, n: nat, c: Chunked, maxBlockRows: nat, timeBounds: bool)
    requires n > 0 && ReadChunk(b, timeBounds) == Ok(Read(e, k))
    ensures ReadChunks(b, n, c, maxBlockRows, timeBounds)
         == match StepChunk(c, e, maxBlockRows, timeBounds)
            case Err => Err
            case Ok(c') =>
              match ReadChunks(b[k..], n - 1, c', maxBlockRows, timeBounds)
              case Err => Err
              case Ok(Read(c'', m)) => Ok(Read(c'', k + m))
  {
    hide StepChunk; hide ReadChunk;
  }
}
