/** Parsing a directory's fields, and that a written directory parses to what was sealed. */
module DirectoryParse {
  import opened Wire
  import opened Chunking
  import opened Directory

  datatype Parsed = Parsed(dir: Dir, pos: nat, total: int)

  datatype Header = Header(granules: nat, blockRows: nat, frames: nat)

  function ParseHeader(b: Bytes): (r: Result<Read<Header>>)
    ensures r.Ok? ==> r.value.n <= |b|
  {
    match Uvarint(b)
    case Err => Err
    case Ok(Read(granules, n)) =>
      match Uvarint(b[n..])
      case Err => Err
      case Ok(Read(blockRows, m)) =>
        match Uvarint(b[n + m..])
        case Err => Err
        case Ok(Read(frames, k)) => Ok(Read(Header(granules, blockRows, frames), n + m + k))
  }

  /** The header's agreement with the directory's own length and with the manifest. */
  predicate HeaderOk(h: Header, len: nat, chk: Check) {
    && h.blockRows != 0 && (chk.maxBlockRows > 0 ==> h.blockRows == chk.maxBlockRows)
    && h.granules <= len && h.frames <= len
    && (chk.sizing.Some? ==> h.granules == chk.sizing.value.numGranules && h.frames == chk.sizing.value.numFrames)
    && (chk.maxBlockRows > 0 ==> h.frames == h.granules)
  }

  const EMPTY_TABLE := Table(0, 0, 0, [0], [], [])

  function ParseTable(b: Bytes, h: Header, dataMax: nat, chk: Check): (r: Result<Read<Table>>)
    ensures r.Ok? ==> r.value.n <= |b|
    ensures r.Ok? ==> FramesIn(r.value.value.gFrame, chk.maxBlockRows == 0, h.granules, if chk.maxBlockRows == 0 then h.frames else h.granules)
  {
    match ReadFrames(b, h.frames, EMPTY_TABLE, h.granules, chk.maxBlockRows == 0, chk.checked, dataMax)
    case Err => Err
    case Ok(Read(t, n)) =>
      TableShape(b, h.frames, EMPTY_TABLE, h.granules, chk.maxBlockRows == 0, chk.checked, dataMax);
      if t.g != h.granules then Err
      else if chk.sizing.Some? && t.largest != chk.sizing.value.maxFrameBytes then Err
      else Ok(Read(t, n))
  }

  /** A table's owners are frames read so far, one per granule counted. */
  lemma {:induction false} TableShape(b: Bytes, n: nat, t: Table, granules: nat, packed: bool, checked: bool, dataMax: nat)
    requires t.frameOff != [] && (packed ==> OwnersIn(t))
    ensures var r := ReadFrames(b, n, t, granules, packed, checked, dataMax);
            r.Ok? ==> |r.value.value.frameOff| == |t.frameOff| + n && (packed ==> OwnersIn(r.value.value))
    decreases n
  {
    if n > 0 && ReadEntry(b, checked).Ok? {
      var Read(e, k) := ReadEntry(b, checked).value;
      var s := StepFrame(t, e, granules, packed, checked, dataMax);
      if s.Ok? {
        hide ReadEntry;
        TableShape(b[k..], n - 1, s.value, granules, packed, checked, dataMax);
      }
    }
  }

  ghost predicate OwnersIn(t: Table) {
    |t.gFrame| == t.g && forall i :: 0 <= i < |t.gFrame| ==> 0 <= t.gFrame[i] < |t.frameOff| - 1
  }

  function EmptySpans(frames: nat): Spans { Spans(0, -1, [], [], Repeat(0, frames), 0, 0, 0) }

  function ParseLens(b: Bytes, h: Header, gFrame: seq<int>, chk: Check): (r: Result<Read<Spans>>)
    requires FramesIn(gFrame, chk.maxBlockRows == 0, h.granules, h.frames)
    ensures r.Ok? ==> r.value.n <= |b|
  {
    match ReadLens(b, 0, h.granules, EmptySpans(h.frames), gFrame, chk.maxBlockRows == 0, chk.sizing, RawLimit(chk, h.granules))
    case Err => Err
    case Ok(Read(s, n)) =>
      if chk.sizing.Some? && (s.total != chk.sizing.value.streamRaw || s.maxGran != chk.sizing.value.maxGranuleRaw
                              || s.maxFrame != chk.sizing.value.maxFrameRaw) then Err
      else Ok(Read(s, n))
  }

  const NO_CHUNKS := Chunked(0, 0, [], [], [])

  function ParseChunks(b: Bytes, h: Header, chk: Check): (r: Result<Read<Chunked>>)
    ensures r.Ok? ==> r.value.n <= |b|
  {
    if chk.maxBlockRows == 0 then Ok(Read(NO_CHUNKS, 0))
    else if !chk.checked then Err
    else
      match ReadChunks(b, h.granules, NO_CHUNKS.(rowStarts := [0]), chk.maxBlockRows, chk.timeBounds)
      case Err => Err
      case Ok(Read(c, n)) => if chk.rows > 0 && c.sum != chk.rows then Err else Ok(Read(c, n))
  }

  /** Reads a directory's fields: what they describe, where they end, and what the frames total. */
  function ParseFields(b: Bytes, dataMax: nat, chk: Check): (r: Result<Parsed>)
    ensures r.Ok? ==> r.value.pos <= |b|
  {
    match ParseHeader(b)
    case Err => Err
    case Ok(Read(h, n)) =>
      if !HeaderOk(h, |b|, chk) then Err
      else
        match ParseTable(b[n..], h, dataMax, chk)
        case Err => Err
        case Ok(Read(t, m)) =>
          match ParseLens(b[n + m..], h, t.gFrame, chk)
          case Err => Err
          case Ok(Read(s, k)) =>
            match ParseChunks(b[n + m + k..], h, chk)
            case Err => Err
            case Ok(Read(c, j)) =>
              Ok(Parsed(Dir(AsInt64(h.blockRows), h.granules, t.frameOff, t.crcs, s.frameRaw,
                            t.gFrame, s.gOff, s.gLen, c.rowStarts, c.minKeys, c.maxKeys), n + m + k + j, t.total))
  }
}
