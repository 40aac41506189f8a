/**
 What a scan of a column holds, bounded from the manifest alone: the bound a caller reserves before
 opening the column is never less than what the opened decoder reports.
 */
module ScanBound {
  import opened Wire
  import opened Chunking
  import opened DictSpec
  import opened Directory
  import opened DirectoryMeaning
  import opened DirectoryRoundTrip
  import opened Packing

  /** Per dictionary entry: a length prefix and the slice that views it. */
  const ENTRY_OVERHEAD := 5 + 24

  /** A column's manifest entry. */
  datatype Desc = Desc(bytes: int, dictLen: int, dictRaw: int, dictEntries: int, maxBlockRows: nat, timeBounds: bool,
                       rowBytes: nat, slack: nat, sizing: Sizing)

  /** How a scan gets at the frames: the whole object read at once, a read-ahead window, or one frame at a time. */
  datatype Access = Whole | Ahead(window: nat) | PerFrame

  /** The manifest's bound on what a scan holds. */
  function Steady(d: Desc, rows: nat, access: Access, readerBytes: nat): int {
    var s := d.sizing;
    var dir := 4 * (3 * s.numFrames + 1 + 3 * s.numGranules)
               + (if d.maxBlockRows > 0 then 8 * (s.numGranules + 1) - 12 * s.numGranules else 0)
               + (if d.timeBounds then 16 * s.numGranules else 0);
    var dict := d.dictRaw + ENTRY_OVERHEAD * d.dictEntries;
    var frames := match access
                  case Whole => d.bytes
                  case Ahead(w) => Min(Max(w, s.maxFrameBytes), Max(d.bytes - d.dictLen - s.dirLen, s.maxFrameBytes))
                  case PerFrame => s.maxFrameBytes;
    var reader := if access.Ahead? then readerBytes else 0;
    dir + dict + frames + reader + 2 * (s.maxFrameRaw + d.slack) + GranuleRows(d, rows) * d.rowBytes
  }

  /** The most rows one granule can hold, from the counts alone. */
  function GranuleRows(d: Desc, rows: nat): int {
    if d.maxBlockRows > 0 then Min(rows, d.maxBlockRows)
    else if d.sizing.numGranules > 1 then rows / (d.sizing.numGranules - 1) + 1
    else rows
  }

  // ------------------------------------------------------------ the opened decoder

  /** The widest of a table's gaps. */
  function MaxGap(m: int, off: seq<int>): int
    decreases |off|
  {
    if |off| < 2 then m else MaxGap(Max(m, off[1] - off[0]), off[1..])
  }

  function MaxInts(m: int, s: seq<int>): int
    decreases s
  {
    if s == [] then m else MaxInts(Max(m, s[0]), s[1..])
  }

  function DirBytes(d: Dir): int {
    4 * (|d.frameOff| + |d.frameCRC| + |d.frameRaw|) + 4 * (|d.gFrame| + |d.gOff| + |d.gLen|)
    + 8 * (|d.rowStarts| + |d.minKeys| + |d.maxKeys|)
  }

  function DictBytes(entries: seq<Value>): int {
    if entries == [] then 0 else DictBytes(entries[..|entries| - 1]) + |entries[|entries| - 1].bytes| + ENTRY_OVERHEAD
  }

  /** What a forward walk over an opened decoder holds at any point. */
  function Resident(d: Dir, entries: seq<Value>, dataLen: nat, access: Access, readerBytes: nat, slack: nat, rows: nat, rowBytes: nat): int {
    var maxFrame, maxRaw := MaxGap(0, d.frameOff), MaxInts(0, d.frameRaw);
    var frames := match access
                  case Whole => dataLen
                  case Ahead(w) => if |d.frameOff| > 0 then Min(Max(w, maxFrame), d.frameOff[|d.frameOff| - 1]) else maxFrame
                  case PerFrame => maxFrame;
    var reader := if access.Ahead? then readerBytes else 0;
    DirBytes(d) + DictBytes(entries) + frames + reader + 2 * (maxRaw + slack) + Min(d.blockRows, rows) * rowBytes
  }

  method ResidentBytes(d: Dir, entries: seq<Value>, dataLen: nat, access: Access, readerBytes: nat, slack: nat, rows: nat, rowBytes: nat)
    returns (n: int)
    requires |d.frameRaw| + 1 == |d.frameOff|
    ensures n == Resident(d, entries, dataLen, access, readerBytes, slack, rows, rowBytes)
  {
    var dict := 0;
    assert entries[..0] == [];
    for i := 0 to |entries|
      invariant dict == DictBytes(entries[..i])
    {
      assert entries[..i + 1][..i] == entries[..i];
      dict := dict + |entries[i].bytes| + ENTRY_OVERHEAD;
    }
    assert entries[..|entries|] == entries;
    var maxFrame, maxRaw, f := 0, 0, 0;
    assert d.frameOff[0..] == d.frameOff && d.frameRaw[0..] == d.frameRaw;
    while f + 1 < |d.frameOff|
      invariant 0 <= f < |d.frameOff|
      invariant MaxGap(maxFrame, d.frameOff[f..]) == MaxGap(0, d.frameOff)
      invariant MaxInts(maxRaw, d.frameRaw[f..]) == MaxInts(0, d.frameRaw)
    {
      assert d.frameOff[f..][1..] == d.frameOff[f + 1..] && d.frameRaw[f..][1..] == d.frameRaw[f + 1..];
      maxFrame := Max(maxFrame, d.frameOff[f + 1] - d.frameOff[f]);
      maxRaw := Max(maxRaw, d.frameRaw[f]);
      f := f + 1;
    }
    assert |d.frameOff[f..]| == 1 && d.frameRaw[f..] == [];
    n := DirBytes(d) + dict;
    match access {
      case Whole => n := n + dataLen;
      case Ahead(w) => n := n + Min(Max(w, maxFrame), d.frameOff[|d.frameOff| - 1]) + readerBytes;
      case PerFrame => n := n + maxFrame;
    }
    n := n + 2 * (maxRaw + slack) + Min(d.blockRows, rows) * rowBytes;
  }

  // ------------------------------------------------------------ a written column

  lemma {:induction false} GapsAreLens(m: nat, t: int, fs: seq<FrameRec>)
    ensures MaxGap(m, [t] + Ends(t, fs)) == MaxLen(m, fs)
    decreases fs
  {
    var off := [t] + Ends(t, fs);
    if fs != [] {
      var e := t + fs[0].len;
      GapsAreLens(Max(m, fs[0].len), e, fs[1..]);
      assert off[1..] == [e] + Ends(e, fs[1..]);
      GapStep(m, off);
    }
  }

  lemma GapStep(m: int, off: seq<int>)
    requires |off| >= 2
    ensures MaxGap(m, off) == MaxGap(Max(m, off[1] - off[0]), off[1..])
  {
  }

  lemma {:induction false} RawsAreMax(m: int, fs: seq<FrameRec>)
    ensures MaxInts(m, Raws(fs)) == MaxRaw(m, fs)
    decreases fs
  {
    if fs != [] {
      var r := Raws(fs);
      assert r[0] == Sum(fs[0].lens) && r[1..] == Raws(fs[1..]);
      RawsAreMax(Max(m, r[0]), fs[1..]);
    }
  }

  lemma {:induction false} DictWithinRaw(entries: seq<Value>)
    ensures DictBytes(entries) <= Raw(entries) + ENTRY_OVERHEAD * |entries|
  {
    if entries != [] {
      DictWithinRaw(entries[..|entries| - 1]);
    }
  }

  lemma {:induction false} StartsCount(sum: int, cs: seq<ChunkRec>)
    ensures |RowStarts(sum, cs)| == |cs|
    decreases cs
  {
    if cs != [] {
      StartsCount(sum + cs[0].rows, cs[1..]);
    }
  }

  /** How many numbers the parsed directory holds. */
  lemma DirCounts(a: Sealed)
    requires WriterOk(a)
    ensures var d, f, g := DirOf(a), |a.frames|, |Lens(a.frames)|;
            && |d.frameOff| == f + 1 && |d.frameCRC| == |d.frameRaw| == f
            && |d.gFrame| == |d.gOff| == |d.gLen| == (if a.variable then 0 else g)
            && |d.rowStarts| == (if a.variable then g + 1 else 0)
            && |d.minKeys| == |d.maxKeys| == (if a.variable && a.timeBounds then g else 0)
  {
    hide Lens; hide Owners; hide Offsets; hide Ends32; hide Crcs; hide Raws; hide RowStarts; hide Sum; hide RowSum;
    EndsLen(0, a.frames);
    CrcRawLen(a.frames);
    OwnersShape(a.frames);
    OffsetsLen(a.frames);
    if a.variable {
      OneEachCount(a.frames);
      StartsCount(0, a.chunks);
    }
  }

  lemma CrcRawLen(fs: seq<FrameRec>)
    ensures |Crcs(fs)| == |Raws(fs)| == |fs|
  {
    if fs != [] {
      CrcRawAt(fs, 0);
    }
  }

  lemma {:induction false} OffsetsLen(fs: seq<FrameRec>)
    ensures |Offsets(fs)| == |Lens(fs)|
  {
    if fs != [] {
      OffsetsLen(fs[1..]);
      StartsLen(0, fs[0].lens);
    }
  }

  lemma QuotientAtLeast(x: nat, d: nat, b: nat)
    requires d > 0 && d * b <= x
    ensures b <= x / d
  {
    var q, r := x / d, x % d;
    assert x == q * d + r;
    assert (q + 1) * d == q * d + d;
    if q + 1 <= b {
      MulOrder(q + 1, b, d);
    }
  }

  /** A granule holds fewer rows than the count of the others divides the column into. */
  lemma RowsBound(rows: nat, blockRows: nat, g: nat)
    requires blockRows > 0 && g == (rows + blockRows - 1) / blockRows && g > 1
    ensures blockRows <= rows / (g - 1)
  {
    CeilCovers(rows, blockRows, g);
    QuotientAtLeast(rows, g - 1, blockRows);
  }

  /** The manifest entry of a written column. */
  ghost predicate Describes(d: Desc, a: Sealed, entries: seq<Value>, rows: nat) {
    && a.blockRows > 0 && d.sizing == SizingOf(a, d.sizing.dirLen) && 0 <= d.sizing.dirLen
    && d.dictRaw == Raw(entries) && d.dictEntries == |entries| && 0 <= d.dictLen
    && TotalLen(a.frames) + d.dictLen + d.sizing.dirLen <= d.bytes
    && d.maxBlockRows == (if a.variable then a.blockRows else 0) && d.timeBounds == (a.variable && a.timeBounds)
    && (!a.variable ==> |Lens(a.frames)| == (rows + a.blockRows - 1) / a.blockRows)
  }

  lemma RowsCovered(d: Desc, a: Sealed, entries: seq<Value>, rows: nat)
    requires WriterOk(a) && Describes(d, a, entries, rows)
    ensures Min(a.blockRows, rows) <= GranuleRows(d, rows)
  {
    hide Lens; hide Sum; hide TotalLen; hide Raw; hide MaxOf; hide MaxRaw; hide MaxLen; hide RowSum;
    if !a.variable && |Lens(a.frames)| > 1 {
      RowsBound(rows, a.blockRows, |Lens(a.frames)|);
    }
  }

  /**
   The reservation is enough: for every column a writer produces with sizing, under every layout,
   window and way of reading, the bound from the manifest is at least what the opened decoder holds.
   */
  lemma BoundHolds(d: Desc, a: Sealed, entries: seq<Value>, rows: nat, access: Access, readerBytes: nat)
    requires WriterOk(a) && Describes(d, a, entries, rows) && TotalLen(a.frames) <= MAX_INT32
    ensures Resident(DirOf(a), entries, TotalLen(a.frames), access, readerBytes, d.slack, rows, d.rowBytes)
         <= Steady(d, rows, access, readerBytes)
  {
    hide Lens; hide Owners; hide Offsets; hide Ends32; hide Ends; hide Crcs; hide Raws; hide RowStarts; hide Sum; hide RowSum; hide TotalLen; hide MaxOf; hide MaxRaw; hide MaxLen; hide MaxGap; hide MaxInts; hide DictBytes; hide Raw; hide WriterOk; hide GranuleRows;
    var dir := DirOf(a);
    DirCounts(a);
    OffsetsExact(a.frames);
    GapsAreLens(0, 0, a.frames);
    RawsAreMax(0, a.frames);
    DictWithinRaw(entries);
    RowsCovered(d, a, entries, rows);
    MulOrder(Min(a.blockRows, rows), GranuleRows(d, rows), d.rowBytes);
    LastEnd(a.frames);
  }

  lemma LastEnd(fs: seq<FrameRec>)
    ensures var off := [0] + Ends(0, fs); off[|off| - 1] == TotalLen(fs)
  {
    hide Ends; hide TotalLen;
    if fs == [] {
      NoLen();
    } else {
      EndsAt(0, fs, |fs| - 1);
      assert fs[..|fs| - 1 + 1] == fs;
    }
  }
}
