/**
 The places a column's directory can sit (ahead of the frames, behind them, behind a trailer dictionary,
 or compacted), each found in the whole object or by ranged reads of it. Every way in opens the same
 directory over the same frames.
 */
module Layouts {
  import opened Wire
  import opened Chunking
  import opened Directory
  import opened DirectoryParse
  import opened DirectoryMeaning
  import opened DirectoryRoundTrip

  const DIR_PROBE_BYTES := 4096
  const FOOTER_LEN_BYTES := 4

  /** The functions a column's bytes depend on: a checksum, and the compressor of compact directories. */
  datatype Env = Env(crc: Bytes -> uint32, pack: Bytes -> Bytes, unpack: Bytes -> Result<Bytes>) {
    ghost predicate Lawful() {
      forall b :: unpack(pack(b)) == Ok(b)
    }
  }

  // ------------------------------------------------------------ writing

  /** The directory as it is stored: packed when that makes a variable-chunk directory smaller. */
  function StoredDir(a: Sealed, compact: bool, env: Env): (Bytes, bool) {
    var dir := EncodeDir(a, env.crc);
    var packed := PutUvarint(|dir|) + env.pack(dir);
    if a.variable && compact && |packed| + CRC_BYTES < |dir| then (packed + PutU32(env.crc(packed)), true) else (dir, false)
  }

  function Leading(dir: Bytes, data: Bytes): Bytes { dir + data }

  function Footer(dir: Bytes, data: Bytes): Bytes
    requires |dir| < 0x1_0000_0000
  {
    data + dir + PutU32(|dir|)
  }

  function Trailer(dir: Bytes, region: Bytes, data: Bytes): Bytes
    requires |dir| < 0x1_0000_0000
  {
    data + region + dir + PutU32(|dir|)
  }

  // ------------------------------------------------------------ reading whole

  /** An opened column: its directory and the bytes its frames lie in. */
  datatype Opened = Opened(dir: Dir, data: Bytes)

  predicate CrcAt(b: Bytes, pos: nat, crc: Bytes -> uint32) {
    pos + CRC_BYTES <= |b| && U32(b[pos..]) == crc(b[..pos])
  }

  predicate DirLenOk(chk: Check, n: int) { chk.sizing.Some? ==> n == chk.sizing.value.dirLen }

  /** A directory apart from its frames: it spans dir exactly and its frames total frameBytes. */
  function ParsePlain(dir: Bytes, frameBytes: nat, chk: Check, env: Env): Result<Dir> {
    match ParseFields(dir, frameBytes, chk)
    case Err => Err
    case Ok(p) =>
      if chk.checked && !CrcAt(dir, p.pos, env.crc) then Err
      else
        var pos := if chk.checked then p.pos + CRC_BYTES else p.pos;
        if pos != |dir| || !DirLenOk(chk, pos) || p.total != frameBytes then Err else Ok(p.dir)
  }

  /** The most a directory over the manifest's counts can be. */
  function CompactDirBound(s: Sizing, timeBounds: bool): int
    requires s.numFrames >= 0 && s.numGranules >= 0
  {
    var perGranule := if timeBounds then 4 * MAX_VARINT_LEN else 2 * MAX_VARINT_LEN;
    SatAdd(3 * MAX_VARINT_LEN + CRC_BYTES,
           SatAdd(SatMul(s.numFrames, 2 * MAX_VARINT_LEN + CRC_BYTES), SatMul(s.numGranules, perGranule)))
  }

  function ParseCompact(dir: Bytes, frameBytes: nat, chk: Check, env: Env): Result<Dir> {
    if chk.sizing.None? || chk.maxBlockRows == 0 || !chk.checked || |dir| < CRC_BYTES then Err
    else if chk.sizing.value.numFrames < 0 || chk.sizing.value.numGranules < 0 then Err
    else if !DirLenOk(chk, |dir|) then Err
    else
      var end := |dir| - CRC_BYTES;
      if !CrcAt(dir, end, env.crc) then Err
      else
        match Uvarint(dir[..end])
        case Err => Err
        case Ok(Read(n, k)) =>
          if n < CRC_BYTES || n > CompactDirBound(chk.sizing.value, chk.timeBounds) || n > MAX_INT64 then Err
          else
            match env.unpack(dir[k..end])
            case Err => Err
            case Ok(raw) =>
              if |raw| != n then Err
              else ParsePlain(raw, frameBytes, chk.(sizing := Some(chk.sizing.value.(dirLen := n))), env)
  }

  function ParseDetached(dir: Bytes, frameBytes: nat, chk: Check, compact: bool, env: Env): Result<Dir> {
    if compact then ParseCompact(dir, frameBytes, chk, env) else ParsePlain(dir, frameBytes, chk, env)
  }

  function ParseLeading(obj: Bytes, chk: Check, compact: bool, env: Env): Result<Opened> {
    if compact then
      if chk.sizing.None? || chk.sizing.value.dirLen <= 0 || chk.sizing.value.dirLen > |obj| then Err
      else
        var n := chk.sizing.value.dirLen;
        match ParseDetached(obj[..n], |obj| - n, chk, true, env)
        case Err => Err
        case Ok(d) => Ok(Opened(d, obj[n..]))
    else
      match ParseFields(obj, |obj|, chk)
      case Err => Err
      case Ok(p) =>
        if chk.checked && !CrcAt(obj, p.pos, env.crc) then Err
        else
          var pos := if chk.checked then p.pos + CRC_BYTES else p.pos;
          if !DirLenOk(chk, pos) || p.total < 0 || pos + p.total > |obj| then Err
          else Ok(Opened(p.dir, obj[pos..pos + p.total]))
  }

  function ParseFooter(obj: Bytes, chk: Check, compact: bool, env: Env): Result<Opened> {
    if |obj| < FOOTER_LEN_BYTES then Err
    else
      var end := |obj| - FOOTER_LEN_BYTES;
      var dirLen := U32(obj[end..]);
      if dirLen > end then Err
      else
        match ParseDetached(obj[end - dirLen..end], end - dirLen, chk, compact, env)
        case Err => Err
        case Ok(d) => Ok(Opened(d, obj[..end - dirLen]))
  }

  function ParseTrailer(obj: Bytes, dictOff: nat, dictLen: nat, chk: Check, env: Env): Result<Opened> {
    var regionEnd := dictOff + dictLen;
    if regionEnd > |obj| - FOOTER_LEN_BYTES then Err
    else
      var end := |obj| - FOOTER_LEN_BYTES;
      if U32(obj[end..]) != end - regionEnd then Err
      else
        match ParseDetached(obj[regionEnd..end], dictOff, chk, false, env)
        case Err => Err
        case Ok(d) => Ok(Opened(d, obj[..dictOff]))
  }

  // ------------------------------------------------------------ reading by range

  /** A directory read without its frames: where the frames begin. */
  datatype Ranged = Ranged(dir: Dir, dataOff: nat)

  /** The container [off, off+size) of an obj, opened from its leading directory. */
  function ReadLeading(obj: Bytes, off: nat, size: nat, chk: Check, compact: bool, env: Env): Result<Ranged> {
    var probe := if chk.sizing.Some? then Min(size, chk.sizing.value.dirLen) else Min(size, DIR_PROBE_BYTES);
    if probe < 0 then Err
    else
      var head := ClampRange(obj, off, probe);
      match (if chk.sizing.Some? then Ok(head) else WidenHead(obj, off, size, head, chk.checked))
      case Err => Err
      case Ok(raw) =>
        if compact then
          if |raw| > size then Err
          else
            match ParseDetached(raw, size - |raw|, chk, true, env)
            case Err => Err
            case Ok(d) => Ok(Ranged(d, off + |raw|))
        else
          match ParseFields(raw, size, chk)
          case Err => Err
          case Ok(p) =>
            if chk.checked && !CrcAt(raw, p.pos, env.crc) then Err
            else
              var pos := if chk.checked then p.pos + CRC_BYTES else p.pos;
              if !DirLenOk(chk, pos) || pos + p.total != size then Err else Ok(Ranged(p.dir, off + pos))
  }

  /** The most a directory over the given counts takes, from the counts and the object's size alone. */
  function DirBound(granules: nat, frames: nat, size: nat, checked: bool): nat {
    var frameBytes := |PutUvarint(granules)| + |PutUvarint(size)| + if checked then CRC_BYTES else 0;
    DIR_PROBE_BYTES + frames * frameBytes + granules * MAX_VARINT_LEN
  }

  function WidenHead(obj: Bytes, off: nat, size: nat, head: Bytes, checked: bool): Result<Bytes> {
    match ParseHeader(head)
    case Err => Err
    case Ok(Read(h, _)) =>
      var bound := DirBound(h.granules, h.frames, size, checked);
      Ok(if bound > |head| then ClampRange(obj, off, Min(bound, size)) else head)
  }

  function ReadFooter(obj: Bytes, off: nat, size: nat, chk: Check, compact: bool, env: Env): Result<Ranged> {
    var probe := if chk.sizing.Some? then Min(size, chk.sizing.value.dirLen + FOOTER_LEN_BYTES) else Min(size, DIR_PROBE_BYTES);
    if probe < FOOTER_LEN_BYTES then Err
    else
      var tail := ClampRange(obj, off + size - probe, probe);
      if |tail| != probe then Err
      else
        var dirLen := U32(tail[probe - FOOTER_LEN_BYTES..]);
        if dirLen > size - FOOTER_LEN_BYTES then Err
        else
          var frameBytes := size - FOOTER_LEN_BYTES - dirLen;
          var raw := if dirLen > probe - FOOTER_LEN_BYTES then ClampRange(obj, off + frameBytes, dirLen) else tail[..probe - FOOTER_LEN_BYTES];
          if |raw| < dirLen then Err
          else
            match ParseDetached(raw[|raw| - dirLen..], frameBytes, chk, compact, env)
            case Err => Err
            case Ok(d) => Ok(Ranged(d, off))
  }

  /** A trailer column's tail in one read: the dictionary region and the directory. */
  function ReadTrailer(obj: Bytes, bytes: nat, dictOff: nat, dictLen: nat, chk: Check, env: Env): Result<(Bytes, Ranged)> {
    if bytes < dictOff then Err
    else
      var n := bytes - dictOff;
      var tail := ClampRange(obj, dictOff, n);
      if |tail| != n || n < FOOTER_LEN_BYTES then Err
      else
        var end := n - FOOTER_LEN_BYTES;
        if dictLen > end || U32(tail[end..]) != end - dictLen then Err
        else
          match ParseDetached(tail[dictLen..end], dictOff, chk, false, env)
          case Err => Err
          case Ok(d) => Ok((tail[..dictLen], Ranged(d, 0)))
  }
}
