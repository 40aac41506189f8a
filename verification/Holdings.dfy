/**
 What an open scan of a written column really holds, counted from the objects: the numbers of its
 directory, the dictionary's bytes and views, the frames in memory, two decompressed frames and one
 decoded granule. What the decoder reports covers it, and the reservation made from the manifest does.
 */
module Holdings {
  import opened Wire
  import opened Chunking
  import opened DictSpec
  import opened Directory
  import opened DirectoryMeaning
  import opened DirectoryRoundTrip
  import opened Packing
  import opened DictRegion
  import opened Manifest
  import opened ScanBound
  import FrameSource

  /** A view of an entry: pointer, length and capacity. */
  const VIEW_BYTES := 24

  /** The directory's numbers: an offset, a checksum and a size a frame, and what each granule needs to be found. */
  function DirHeld(frames: nat, granules: nat, variable: bool, timeBounds: bool): nat {
    4 * (frames + 1) + 4 * frames + 4 * frames
    + (if variable then 8 * (granules + 1) + (if timeBounds then 16 * granules else 0) else 12 * granules)
  }

  lemma DirCovered(a: Sealed)
    requires WriterOk(a)
    ensures DirBytes(DirOf(a)) == DirHeld(|a.frames|, |Lens(a.frames)|, a.variable, a.timeBounds)
  {
    hide Lens; hide Sum; hide RowSum; hide DirOf; hide WriterOk;
    DirCounts(a);
  }

  /** A length under 32 GiB takes at most five prefix bytes. */
  lemma PrefixShort(n: nat)
    requires n < 0x8_0000_0000
    ensures |PutUvarint(n)| <= 5
  {
    UvarintMonotone(n, 0x7_FFFF_FFFF);
    assert |PutUvarint(0x7F)| == 1 && |PutUvarint(0x3FFF)| == 2;
    assert |PutUvarint(0x1F_FFFF)| == 3 && |PutUvarint(0xFFF_FFFF)| == 4;
  }

  /** The decompressed dictionary, length prefixes included, and a view of each entry. */
  function DictHeld(entries: seq<Value>): nat { |Blob(entries)| + VIEW_BYTES * |entries| }

  lemma {:induction false} RawCovered(entries: seq<Value>)
    requires Raw(entries) < 0x8_0000_0000
    ensures Raw(entries) + VIEW_BYTES * |entries| <= DictBytes(entries)
  {
    hide PutUvarint;
    if entries != [] {
      RawCovered(entries[..|entries| - 1]);
      PrefixShort(|entries[|entries| - 1].bytes|);
    }
  }

  lemma DictCovered(entries: seq<Value>)
    requires Raw(entries) < 0x8_0000_0000
    ensures DictHeld(entries) <= DictBytes(entries)
  {
    hide Blob; hide Raw; hide DictBytes;
    BlobIsRaw(entries);
    RawCovered(entries);
  }

  // ------------------------------------------------------------ frames

  lemma {:induction false} RawWithinMax(m: int, fs: seq<FrameRec>, f: nat)
    requires f < |fs|
    ensures m <= MaxRaw(m, fs) && Sum(fs[f].lens) <= MaxRaw(m, fs)
    decreases fs
  {
    RawAtLeast(Max(m, Sum(fs[0].lens)), fs[1..]);
    if f > 0 {
      RawWithinMax(Max(m, Sum(fs[0].lens)), fs[1..], f - 1);
    }
  }

  lemma {:induction false} RawAtLeast(m: int, fs: seq<FrameRec>)
    ensures m <= MaxRaw(m, fs)
    decreases fs
  {
    if fs != [] {
      RawAtLeast(Max(m, Sum(fs[0].lens)), fs[1..]);
    }
  }

  lemma {:induction false} LenWithinMax(m: nat, fs: seq<FrameRec>, f: nat)
    requires f < |fs|
    ensures m <= MaxLen(m, fs) && fs[f].len <= MaxLen(m, fs)
    decreases fs
  {
    LenAtLeast(Max(m, fs[0].len), fs[1..]);
    if f > 0 {
      LenWithinMax(Max(m, fs[0].len), fs[1..], f - 1);
    }
  }

  lemma {:induction false} LenAtLeast(m: nat, fs: seq<FrameRec>)
    ensures m <= MaxLen(m, fs)
    decreases fs
  {
    if fs != [] {
      LenAtLeast(Max(m, fs[0].len), fs[1..]);
    }
  }

  /** The rows granule g of a column of so many rows decodes to. */
  function GranuleHeld(a: Sealed, rows: nat, g: nat): int {
    if a.variable then (if g < |a.chunks| then a.chunks[g].rows else 0) else Min(a.blockRows, rows - g * a.blockRows)
  }

  lemma {:induction false} RowsWithinSum(cs: seq<ChunkRec>, g: nat)
    requires g < |cs|
    ensures cs[g].rows <= RowSum(cs)
  {
    if g > 0 {
      RowsWithinSum(cs[1..], g - 1);
    }
  }

  lemma GranuleCovered(a: Sealed, rows: nat, g: nat)
    requires WriterOk(a) && (a.variable ==> rows == RowSum(a.chunks))
    ensures GranuleHeld(a, rows, g) <= Min(a.blockRows, rows)
  {
    hide Lens; hide Sum; hide RowSum;
    if a.variable && g < |a.chunks| {
      RowsWithinSum(a.chunks, g);
    }
  }

  /** All a scan holds but the frames in memory: frames f and h decompressed, granule g decoded. */
  function Common(a: Sealed, entries: seq<Value>, slack: nat, rows: nat, rowBytes: nat, f: nat, h: nat, g: nat): int
    requires f < |a.frames| && h < |a.frames|
  {
    DirHeld(|a.frames|, |Lens(a.frames)|, a.variable, a.timeBounds) + DictHeld(entries)
    + (Sum(a.frames[f].lens) + slack) + (Sum(a.frames[h].lens) + slack) + GranuleHeld(a, rows, g) * rowBytes
  }

  /** A column sealed and opened: small enough for its offsets, its dictionary within the format's ceiling. */
  ghost predicate Openable(a: Sealed, entries: seq<Value>, rows: nat) {
    && WriterOk(a) && TotalLen(a.frames) <= MAX_INT32 && Raw(entries) <= MAX_SHARED_DICT_RAW
    && (a.variable ==> rows == RowSum(a.chunks))
  }

  lemma CommonCovered(a: Sealed, entries: seq<Value>, slack: nat, rows: nat, rowBytes: nat, f: nat, h: nat, g: nat)
    requires Openable(a, entries, rows) && f < |a.frames| && h < |a.frames|
    ensures Common(a, entries, slack, rows, rowBytes, f, h, g)
         <= DirBytes(DirOf(a)) + DictBytes(entries) + 2 * (MaxRaw(0, a.frames) + slack) + Min(a.blockRows, rows) * rowBytes
  {
    hide Lens; hide Sum; hide RowSum; hide DirOf; hide WriterOk; hide DirBytes; hide DictBytes; hide MaxRaw; hide DictHeld; hide DirHeld; hide GranuleHeld; hide Raw; hide TotalLen;
    DirCovered(a);
    DictCovered(entries);
    RawWithinMax(0, a.frames, f);
    RawWithinMax(0, a.frames, h);
    GranuleCovered(a, rows, g);
    Scaled(GranuleHeld(a, rows, g), Min(a.blockRows, rows), rowBytes);
  }

  lemma Scaled(x: int, y: int, b: nat)
    requires x <= y
    ensures x * b <= y * b
  {
  }

  /** The decoder's report, in the column's own numbers. */
  lemma ReportIs(a: Sealed, entries: seq<Value>, dataLen: nat, access: Access, readerBytes: nat, slack: nat, rows: nat, rowBytes: nat)
    requires WriterOk(a) && TotalLen(a.frames) <= MAX_INT32
    ensures var frames := match access
                          case Whole => dataLen
                          case Ahead(w) => Min(Max(w, MaxLen(0, a.frames)), TotalLen(a.frames)) + readerBytes
                          case PerFrame => MaxLen(0, a.frames);
            Resident(DirOf(a), entries, dataLen, access, readerBytes, slack, rows, rowBytes)
            == DirBytes(DirOf(a)) + DictBytes(entries) + frames + 2 * (MaxRaw(0, a.frames) + slack) + Min(a.blockRows, rows) * rowBytes
  {
    hide Lens; hide Owners; hide Offsets; hide Ends32; hide Ends; hide Crcs; hide Raws; hide RowStarts; hide Sum; hide RowSum; hide TotalLen; hide MaxRaw; hide MaxLen; hide MaxGap; hide MaxInts; hide DictBytes; hide WriterOk; hide DirBytes;
    OffsetsExact(a.frames);
    GapsAreLens(0, 0, a.frames);
    RawsAreMax(0, a.frames);
    LastEnd(a.frames);
  }

  /** Read whole: the frames' bytes are all held. */
  lemma WholeCovered(a: Sealed, entries: seq<Value>, data: Bytes, slack: nat, rows: nat, rowBytes: nat, f: nat, h: nat, g: nat)
    requires Openable(a, entries, rows) && f < |a.frames| && h < |a.frames|
    ensures |data| + Common(a, entries, slack, rows, rowBytes, f, h, g)
         <= Resident(DirOf(a), entries, |data|, Whole, 0, slack, rows, rowBytes)
  {
    hide Openable; hide Resident; hide Common; hide DirOf; hide DirBytes; hide DictBytes; hide MaxRaw; hide MaxLen; hide TotalLen; hide WriterOk;
    OpenOk(a, entries, rows);
    CommonCovered(a, entries, slack, rows, rowBytes, f, h, g);
    ReportIs(a, entries, |data|, Whole, 0, slack, rows, rowBytes);
  }

  lemma OpenOk(a: Sealed, entries: seq<Value>, rows: nat)
    requires Openable(a, entries, rows)
    ensures WriterOk(a) && TotalLen(a.frames) <= MAX_INT32
  {
  }

  /** One frame at a time: whichever frame is in memory. */
  lemma FrameCovered(a: Sealed, entries: seq<Value>, dataLen: nat, slack: nat, rows: nat, rowBytes: nat, f: nat, h: nat, g: nat, x: nat)
    requires Openable(a, entries, rows) && f < |a.frames| && h < |a.frames| && x < |a.frames|
    ensures a.frames[x].len + Common(a, entries, slack, rows, rowBytes, f, h, g)
         <= Resident(DirOf(a), entries, dataLen, PerFrame, 0, slack, rows, rowBytes)
  {
    hide Openable; hide Resident; hide Common; hide DirOf; hide DirBytes; hide DictBytes; hide MaxRaw; hide MaxLen; hide TotalLen; hide WriterOk;
    OpenOk(a, entries, rows);
    CommonCovered(a, entries, slack, rows, rowBytes, f, h, g);
    LenWithinMax(0, a.frames, x);
    ReportIs(a, entries, dataLen, PerFrame, 0, slack, rows, rowBytes);
  }

  /** A frame source reads the frames of a column. */
  ghost predicate SourceOf(s: FrameSource.Source, a: Sealed, w: nat) {
    && s.window == w && |s.data| == TotalLen(a.frames) && |s.off| == |DirOf(a).frameOff|
    && forall i :: 0 <= i < |s.off| ==> s.off[i] == DirOf(a).frameOff[i]
  }

  lemma GapIsLen(a: Sealed, off: seq<nat>, x: nat)
    requires x < |a.frames| && TotalLen(a.frames) <= MAX_INT32 && |off| == |DirOf(a).frameOff|
    requires forall i :: 0 <= i < |off| ==> off[i] == DirOf(a).frameOff[i]
    ensures |off| == |a.frames| + 1
    ensures FrameSource.FrameLen(off, x) == a.frames[x].len
  {
    hide Ends; hide Ends32; hide TotalLen; hide Lens; hide Owners; hide Offsets; hide Crcs; hide Raws; hide RowStarts;
    OffsetsExact(a.frames);
    EndsAt(0, a.frames, x);
    TotalStep(a.frames, x);
    if x > 0 {
      EndsAt(0, a.frames, x - 1);
    } else {
      NoLen();
      assert a.frames[..0] == [];
    }
  }

  lemma OffsetCount(a: Sealed)
    ensures |DirOf(a).frameOff| == |a.frames| + 1
  {
    EndsLen(0, a.frames);
  }

  lemma {:induction false} TotalStep(fs: seq<FrameRec>, x: nat)
    requires x < |fs|
    ensures TotalLen(fs[..x + 1]) == TotalLen(fs[..x]) + fs[x].len
  {
    if x > 0 {
      TotalStep(fs[1..], x - 1);
      assert fs[..x + 1][1..] == fs[1..][..x] && fs[..x][1..] == fs[1..][..x - 1];
    } else {
      assert fs[..1][1..] == [] && fs[..0] == [];
    }
  }

  /** Read ahead: whatever the window's buffer holds, in any state of the source. */
  lemma AheadCovered(a: Sealed, entries: seq<Value>, s: FrameSource.Source, w: nat, dataLen: nat, readerBytes: nat, slack: nat, rows: nat, rowBytes: nat, f: nat, h: nat, g: nat)
    requires Openable(a, entries, rows) && f < |a.frames| && h < |a.frames| && s.Valid() && SourceOf(s, a, w)
    ensures |s.ahead| <= s.room
    ensures s.room + readerBytes + Common(a, entries, slack, rows, rowBytes, f, h, g)
         <= Resident(DirOf(a), entries, dataLen, Ahead(w), readerBytes, slack, rows, rowBytes)
  {
    hide Openable; hide Resident; hide Common; hide DirOf; hide DirBytes; hide DictBytes; hide MaxRaw; hide MaxLen; hide TotalLen; hide WriterOk; hide Ends; hide FrameSource.FrameLen; hide FrameSource.Table;
    OpenOk(a, entries, rows);
    CommonCovered(a, entries, slack, rows, rowBytes, f, h, g);
    OffsetCount(a);
    if s.room > w {
      var x :| 0 <= x < |s.off| - 1 && s.room <= FrameSource.FrameLen(s.off, x);
      GapIsLen(a, s.off, x);
      LenWithinMax(0, a.frames, x);
    }
    ReportIs(a, entries, dataLen, Ahead(w), readerBytes, slack, rows, rowBytes);
  }

  // ------------------------------------------------------------ and the reservation is not idle

  lemma {:induction false} PrefixesWithin(entries: seq<Value>)
    requires Raw(entries) < 0x8_0000_0000
    ensures Raw(entries) + ENTRY_OVERHEAD * |entries| <= DictBytes(entries) + 5 * |entries|
  {
    hide PutUvarint;
    if entries != [] {
      PrefixesWithin(entries[..|entries| - 1]);
      PrefixShort(|entries[|entries| - 1].bytes|);
    }
  }

  /**
   The reservation exceeds what the decoder reports by no more than the object's bytes outside its frames,
   the dictionary's length prefixes, and the rows the granule bound allows over a granule.
   */
  lemma BoundTight(d: Desc, a: Sealed, entries: seq<Value>, rows: nat, access: Access, readerBytes: nat)
    requires Openable(a, entries, rows) && Describes(d, a, entries, rows)
    ensures Steady(d, rows, access, readerBytes)
         <= Resident(DirOf(a), entries, TotalLen(a.frames), access, readerBytes, d.slack, rows, d.rowBytes)
            + (d.bytes - TotalLen(a.frames)) + 5 * |entries| + (GranuleRows(d, rows) - Min(a.blockRows, rows)) * d.rowBytes
  {
    hide Lens; hide Sum; hide RowSum; hide DirOf; hide WriterOk; hide DictBytes; hide MaxRaw; hide MaxLen; hide Raw; hide TotalLen; hide Resident; hide GranuleRows; hide MaxOf; hide DirBytes;
    ReportIs(a, entries, TotalLen(a.frames), access, readerBytes, d.slack, rows, d.rowBytes);
    DirCovered(a);
    PrefixesWithin(entries);
    MaxLenWithin(0, a.frames);
    Difference(GranuleRows(d, rows), Min(a.blockRows, rows), d.rowBytes);
  }

  lemma Difference(x: int, y: int, b: nat)
    ensures (x - y) * b == x * b - y * b
  {
  }
}
