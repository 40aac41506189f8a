/**
 The directory readers as they run: a cursor over the bytes, tables filled entry by entry. Each reads
 exactly what the directory's grammar says.
 */
module DirectoryReaders {
  import opened Wire
  import opened Chunking
  import opened Directory
  import opened DirectoryParse

  /** A reading of the rest, taken up k bytes in, is the whole reading. */
  ghost predicate Resumes<T>(whole: Result<Read<T>>, k: nat, rest: Result<Read<T>>) {
    whole == match rest case Err => Err case Ok(Read(v, n)) => Ok(Read(v, k + n))
  }

  lemma ResumesAtStart<T>(r: Result<Read<T>>)
    ensures Resumes(r, 0, r)
  {
  }

  lemma ResumesOn<T>(whole: Result<Read<T>>, k: nat, rest: Result<Read<T>>, n: nat, more: Result<Read<T>>)
    requires Resumes(whole, k, rest) && Resumes(rest, n, more)
    ensures Resumes(whole, k + n, more)
  {
  }

  class DirCursor {
    const bytes: Bytes
    var pos: nat

    constructor (bytes: Bytes)
      ensures this.bytes == bytes && pos == 0
    {
      this.bytes, pos := bytes, 0;
    }

    function Rest(): Bytes
      requires pos <= |bytes|
      reads this
    {
      bytes[pos..]
    }

    method Next() returns (r: Result<nat>)
      requires pos <= |bytes|
      modifies this
      ensures pos <= |bytes|
      ensures match Uvarint(old(Rest()))
              case Err => r.Err? && pos == old(pos)
              case Ok(Read(v, n)) => r == Ok(v) && pos == old(pos) + n
    {
      match Uvarint(bytes[pos..])
      case Err =>
        r := Err;
      case Ok(Read(v, n)) =>
        pos := pos + n;
        r := Ok(v);
    }

    method NextSigned() returns (r: Result<int>)
      requires pos <= |bytes|
      modifies this
      ensures pos <= |bytes|
      ensures match Varint(old(Rest()))
              case Err => r.Err? && pos == old(pos)
              case Ok(Read(v, n)) => r == Ok(v) && pos == old(pos) + n
    {
      match Varint(bytes[pos..])
      case Err =>
        r := Err;
      case Ok(Read(v, n)) =>
        pos := pos + n;
        r := Ok(v);
    }

    method NextU32() returns (r: Result<uint32>)
      requires pos <= |bytes|
      modifies this
      ensures pos <= |bytes|
      ensures if old(pos) + CRC_BYTES > |bytes| then r.Err? && pos == old(pos)
              else r == Ok(U32(old(Rest()))) && pos == old(pos) + CRC_BYTES
    {
      if pos + CRC_BYTES > |bytes| {
        return Err;
      }
      r := Ok(U32(bytes[pos..]));
      pos := pos + CRC_BYTES;
    }

    /** A frame's entry: its granule count, its length and, when checked, its checksum. */
    method NextEntry(checked: bool) returns (r: Result<Entry>)
      requires pos <= |bytes|
      modifies this
      ensures pos <= |bytes|
      ensures match ReadEntry(old(Rest()), checked)
              case Err => r.Err?
              case Ok(Read(e, n)) => r == Ok(e) && pos == old(pos) + n
    {
      hide Uvarint; hide U32;
      ghost var b := Rest();
      var count := Next();
      if count.Err? {
        return Err;
      }
      Behind(bytes, old(pos), pos);
      var len := Next();
      if len.Err? {
        return Err;
      }
      Behind(bytes, old(pos), pos);
      if checked {
        var sum := NextU32();
        if sum.Err? {
          return Err;
        }
        return Ok(Entry(count.value, len.value, sum.value));
      }
      r := Ok(Entry(count.value, len.value, 0));
    }

    /** A chunk's entry: its rows and, with time bounds, its keys' differences. */
    method NextChunk(timeBounds: bool) returns (r: Result<ChunkEntry>)
      requires pos <= |bytes|
      modifies this
      ensures pos <= |bytes|
      ensures match ReadChunk(old(Rest()), timeBounds)
              case Err => r.Err?
              case Ok(Read(e, n)) => r == Ok(e) && pos == old(pos) + n
    {
      hide Uvarint; hide Varint;
      ghost var b := Rest();
      var rows := Next();
      if rows.Err? {
        return Err;
      }
      if !timeBounds {
        return Ok(ChunkEntry(rows.value, 0, 0));
      }
      Behind(bytes, old(pos), pos);
      var delta := NextSigned();
      if delta.Err? {
        return Err;
      }
      Behind(bytes, old(pos), pos);
      var span := NextSigned();
      if span.Err? {
        return Err;
      }
      r := Ok(ChunkEntry(rows.value, delta.value, span.value));
    }
  }

  lemma Behind(bytes: Bytes, at: nat, pos: nat)
    requires at <= pos <= |bytes|
    ensures bytes[at..][pos - at..] == bytes[pos..]
  {
  }

  // ------------------------------------------------------------ the frame table

  lemma FramesOn(b: Bytes, n: nat, t: Table, granules: nat, packed: bool, checked: bool, dataMax: nat)
    requires n > 0
    ensures var whole := ReadFrames(b, n, t, granules, packed, checked, dataMax);
            match ReadEntry(b, checked)
            case Err => whole.Err?
            case Ok(Read(e, k)) =>
              match StepFrame(t, e, granules, packed, checked, dataMax)
              case Err => whole.Err?
              case Ok(next) => Resumes(whole, k, ReadFrames(b[k..], n - 1, next, granules, packed, checked, dataMax))
  {
    hide ReadEntry; hide StepFrame;
  }

  lemma FramesDone(b: Bytes, t: Table, granules: nat, packed: bool, checked: bool, dataMax: nat)
    ensures ReadFrames(b, 0, t, granules, packed, checked, dataMax) == Ok(Read(t, 0))
  {
  }

  /** Reads the frame table, bounding every count and length before it is used. */
  method ReadFrameTable(c: DirCursor, frames: nat, granules: nat, packed: bool, checked: bool, dataMax: nat) returns (r: Result<Table>)
    requires c.pos <= |c.bytes|
    modifies c
    ensures c.pos <= |c.bytes|
    ensures match ReadFrames(old(c.Rest()), frames, EMPTY_TABLE, granules, packed, checked, dataMax)
            case Err => r.Err?
            case Ok(Read(t, n)) => r == Ok(t) && c.pos == old(c.pos) + n
  {
    hide ReadEntry; hide ReadFrames; hide StepFrame;
    var t := EMPTY_TABLE;
    ghost var start := c.pos;
    ghost var whole := ReadFrames(c.Rest(), frames, EMPTY_TABLE, granules, packed, checked, dataMax);
    ResumesAtStart(whole);
    for f := 0 to frames
      invariant start <= c.pos <= |c.bytes|
      invariant Resumes(whole, c.pos - start, ReadFrames(c.Rest(), frames - f, t, granules, packed, checked, dataMax))
    {
      ghost var at := c.pos;
      FramesOn(c.Rest(), frames - f, t, granules, packed, checked, dataMax);
      ghost var rest := ReadFrames(c.Rest(), frames - f, t, granules, packed, checked, dataMax);
      var e := c.NextEntry(checked);
      if e.Err? {
        return Err;
      }
      Behind(c.bytes, at, c.pos);
      var next := AddFrame(t, e.value, f, granules, packed, checked, dataMax);
      if next.Err? {
        return Err;
      }
      t := next.value;
      ResumesOn(whole, at - start, rest, c.pos - at, ReadFrames(c.Rest(), frames - f - 1, t, granules, packed, checked, dataMax));
    }
    FramesDone(c.Rest(), t, granules, packed, checked, dataMax);
    r := Ok(t);
  }

  /** One frame's checks and what it adds: its granules' owner, its end, its checksum. */
  method AddFrame(t: Table, e: Entry, ghost f: nat, granules: nat, packed: bool, checked: bool, dataMax: nat) returns (r: Result<Table>)
    ensures r == StepFrame(t, e, granules, packed, checked, dataMax)
  {
    if e.count > granules || t.g + e.count > granules {
      return Err;
    }
    var gFrame := t.gFrame;
    if !packed {
      if e.count != 1 {
        return Err;
      }
    } else {
      for i := 0 to e.count
        invariant gFrame == t.gFrame + Repeat(|t.frameOff| - 1, i)
      {
        gFrame := gFrame + [|t.frameOff| - 1];
      }
    }
    if e.len > dataMax {
      return Err;
    }
    var total := t.total + e.len;
    if total > dataMax {
      return Err;
    }
    var crcs := if checked then t.crcs + [e.crc] else t.crcs;
    r := Ok(Table(total, t.g + e.count, Max(t.largest, e.len), t.frameOff + [AsInt32(total)], gFrame, crcs));
  }

  // ------------------------------------------------------------ the granule lengths

  lemma LensOn(b: Bytes, i: nat, n: nat, s: Spans, gFrame: seq<int>, packed: bool, sizing: Option<Sizing>, rawMax: int)
    requires i < n && FramesIn(gFrame, packed, n, |s.frameRaw|)
    ensures var whole := ReadLens(b, i, n, s, gFrame, packed, sizing, rawMax);
            match Uvarint(b)
            case Err => whole.Err?
            case Ok(Read(l, k)) =>
              match StepLen(s, l, FrameAt(gFrame, packed, i), packed, sizing, rawMax)
              case Err => whole.Err?
              case Ok(next) => Resumes(whole, k, ReadLens(b[k..], i + 1, n, next, gFrame, packed, sizing, rawMax))
  {
    hide Uvarint; hide StepLen;
  }

  lemma LensDone(b: Bytes, n: nat, s: Spans, gFrame: seq<int>, packed: bool, sizing: Option<Sizing>, rawMax: int)
    requires FramesIn(gFrame, packed, n, |s.frameRaw|)
    ensures ReadLens(b, n, n, s, gFrame, packed, sizing, rawMax) == Ok(Read(s, 0))
  {
  }

  /** Turns stream lengths into spans, each frame's decompressed length built up in place. */
  method ReadGranuleLens(c: DirCursor, granules: nat, frames: nat, gFrame: seq<int>, packed: bool, sizing: Option<Sizing>, rawMax: int) returns (r: Result<Spans>)
    requires c.pos <= |c.bytes| && FramesIn(gFrame, packed, granules, frames)
    modifies c
    ensures c.pos <= |c.bytes|
    ensures |EmptySpans(frames).frameRaw| == frames
    ensures match ReadLens(old(c.Rest()), 0, granules, EmptySpans(frames), gFrame, packed, sizing, rawMax)
            case Err => r.Err?
            case Ok(Read(s, n)) => r == Ok(s) && c.pos == old(c.pos) + n
  {
    hide Uvarint; hide ReadLens; hide AsInt32; hide AsInt64; hide Wrap64;
    var frameRaw := new int[frames](_ => 0);
    var s := EmptySpans(frames);
    assert frameRaw[..] == s.frameRaw;
    ghost var start := c.pos;
    ghost var whole := ReadLens(c.Rest(), 0, granules, s, gFrame, packed, sizing, rawMax);
    ResumesAtStart(whole);
    for i := 0 to granules
      invariant start <= c.pos <= |c.bytes| && |s.frameRaw| == frames && frameRaw[..] == s.frameRaw && fresh(frameRaw)
      invariant Resumes(whole, c.pos - start, ReadLens(c.Rest(), i, granules, s, gFrame, packed, sizing, rawMax))
    {
      ghost var at := c.pos;
      LensOn(c.Rest(), i, granules, s, gFrame, packed, sizing, rawMax);
      ghost var rest := ReadLens(c.Rest(), i, granules, s, gFrame, packed, sizing, rawMax);
      var l := c.Next();
      if l.Err? {
        return Err;
      }
      Behind(c.bytes, at, c.pos);
      assert 0 <= FrameAt(gFrame, packed, i) < frames;
      var next := AddLen(s, frameRaw, l.value, FrameAt(gFrame, packed, i), packed, sizing, rawMax);
      if next.Err? {
        return Err;
      }
      s := next.value;
      ResumesOn(whole, at - start, rest, c.pos - at, ReadLens(c.Rest(), i + 1, granules, s, gFrame, packed, sizing, rawMax));
    }
    LensDone(c.Rest(), granules, s, gFrame, packed, sizing, rawMax);
    r := Ok(s.(frameRaw := frameRaw[..]));
  }

  /** One granule's span; its frame's length so far is overwritten. */
  method AddLen(s: Spans, frameRaw: array<int>, l: nat, f: int, packed: bool, sizing: Option<Sizing>, rawMax: int) returns (r: Result<Spans>)
    requires 0 <= f < |s.frameRaw| && frameRaw[..] == s.frameRaw
    modifies frameRaw
    ensures r == StepLen(s, l, f, packed, sizing, rawMax)
    ensures r.Ok? ==> frameRaw[..] == r.value.frameRaw
  {
    hide AsInt32; hide AsInt64; hide Wrap64;
    var off := if f != s.prev then 0 else s.off;
    if off + AsInt64(l) > MAX_INT32 {
      return Err;
    }
    var gOff, gLen := s.gOff, s.gLen;
    if packed {
      gOff, gLen := gOff + [off], gLen + [AsInt32(l)];
    }
    off := AsInt32(off + AsInt32(l));
    frameRaw[f] := off;
    assert frameRaw[..] == s.frameRaw[f := off];
    var total := Wrap64(s.total + AsInt64(l));
    var maxGran, maxFrame := Max(s.maxGran, AsInt64(l)), Max(s.maxFrame, off);
    if sizing.Some? && (maxGran > sizing.value.maxGranuleRaw || maxFrame > sizing.value.maxFrameRaw) {
      return Err;
    }
    if rawMax >= 0 && total > rawMax {
      return Err;
    }
    r := Ok(Spans(off, f, gOff, gLen, frameRaw[..], total, maxGran, maxFrame));
  }

  // ------------------------------------------------------------ the chunk rows

  lemma ChunksOn(b: Bytes, n: nat, c: Chunked, maxBlockRows: nat, timeBounds: bool)
    requires n > 0
    ensures var whole := ReadChunks(b, n, c, maxBlockRows, timeBounds);
            match ReadChunk(b, timeBounds)
            case Err => whole.Err?
            case Ok(Read(e, k)) =>
              match StepChunk(c, e, maxBlockRows, timeBounds)
              case Err => whole.Err?
              case Ok(next) => Resumes(whole, k, ReadChunks(b[k..], n - 1, next, maxBlockRows, timeBounds))
  {
    hide ReadChunk; hide StepChunk;
  }

  lemma ChunksDone(b: Bytes, c: Chunked, maxBlockRows: nat, timeBounds: bool)
    ensures ReadChunks(b, 0, c, maxBlockRows, timeBounds) == Ok(Read(c, 0))
  {
  }

  /** Reads chunk row counts into running starts, and key bounds out of their wrapped differences. */
  method ReadChunkRows(c: DirCursor, granules: nat, maxBlockRows: nat, timeBounds: bool) returns (r: Result<Chunked>)
    requires c.pos <= |c.bytes|
    modifies c
    ensures c.pos <= |c.bytes|
    ensures match ReadChunks(old(c.Rest()), granules, NO_CHUNKS.(rowStarts := [0]), maxBlockRows, timeBounds)
            case Err => r.Err?
            case Ok(Read(s, n)) => r == Ok(s) && c.pos == old(c.pos) + n
  {
    hide ReadChunk; hide ReadChunks; hide StepChunk;
    var s := NO_CHUNKS.(rowStarts := [0]);
    ghost var start := c.pos;
    ghost var whole := ReadChunks(c.Rest(), granules, s, maxBlockRows, timeBounds);
    ResumesAtStart(whole);
    for i := 0 to granules
      invariant start <= c.pos <= |c.bytes|
      invariant Resumes(whole, c.pos - start, ReadChunks(c.Rest(), granules - i, s, maxBlockRows, timeBounds))
    {
      ghost var at := c.pos;
      ChunksOn(c.Rest(), granules - i, s, maxBlockRows, timeBounds);
      ghost var rest := ReadChunks(c.Rest(), granules - i, s, maxBlockRows, timeBounds);
      var e := c.NextChunk(timeBounds);
      if e.Err? {
        return Err;
      }
      Behind(c.bytes, at, c.pos);
      var next := AddChunk(s, e.value, maxBlockRows, timeBounds);
      if next.Err? {
        return Err;
      }
      s := next.value;
      ResumesOn(whole, at - start, rest, c.pos - at, ReadChunks(c.Rest(), granules - i - 1, s, maxBlockRows, timeBounds));
    }
    ChunksDone(c.Rest(), s, maxBlockRows, timeBounds);
    r := Ok(s);
  }

  method AddChunk(c: Chunked, e: ChunkEntry, maxBlockRows: nat, timeBounds: bool) returns (r: Result<Chunked>)
    ensures r == StepChunk(c, e, maxBlockRows, timeBounds)
  {
    hide Wrap64;
    if e.rows == 0 || e.rows > maxBlockRows || c.sum + e.rows > MAX_PART_ROWS {
      return Err;
    }
    var sum := c.sum + e.rows;
    var next := c.(sum := sum, rowStarts := c.rowStarts + [sum]);
    if timeBounds {
      var lo := Wrap64(c.previous + e.delta);
      var hi := Wrap64(lo + e.span);
      if lo > hi {
        return Err;
      }
      next := next.(previous := lo, minKeys := c.minKeys + [lo], maxKeys := c.maxKeys + [hi]);
    }
    r := Ok(next);
  }
}
