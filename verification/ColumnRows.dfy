/**
 A numeric column from rows to object to rows again: what the writer streamed into frames, opened from
 any layout, decodes whole or by range to the rows that were appended.
 */
module ColumnRows {
  import opened Wire
  import opened Chunking
  import opened Directory
  import opened DirectoryMeaning
  import opened DirectoryRoundTrip
  import opened Layouts
  import opened LayoutsAgree
  import opened Packing
  import opened BlockAccum
  import opened ColumnFile
  import opened RowSpans
  import BD = BlockDecode
  import BlockSeek

  /** A block codec: what it encodes, it decodes. */
  ghost predicate Inverts<T(!new)>(enc: seq<T> -> Bytes, dec: Bytes -> Result<seq<T>>) {
    forall rows :: dec(enc(rows)) == Ok(rows)
  }

  /** How an opened directory cuts its column. */
  function CutOf(d: Dir, variable: bool): Cut {
    if variable then Variable(d.rowStarts) else Fixed(Nat(d.blockRows), d.granules)
  }

  /** An opened column's blocks, each granule read and decoded. */
  function Decoded<T>(d: Dir, data: Bytes, c: Codec, variable: bool, dec: Bytes -> Result<seq<T>>): seq<Result<seq<T>>> {
    seq(d.granules, k requires 0 <= k < d.granules =>
      match ReadGranule(d, data, c, variable, k)
      case Err => Err
      case Ok(stream) => dec(stream))
  }

  function Encoded<T>(chunks: seq<seq<T>>, enc: seq<T> -> Bytes): seq<Bytes> {
    seq(|chunks|, k requires 0 <= k < |chunks| => enc(chunks[k]))
  }

  /** Each block decodes to its chunk. */
  lemma DecodedIs<T(!new)>(d: Dir, data: Bytes, c: Codec, variable: bool, chunks: seq<seq<T>>, enc: seq<T> -> Bytes, dec: Bytes -> Result<seq<T>>)
    requires Inverts(enc, dec) && GivesBack(d, data, c, variable, Encoded(chunks, enc))
    ensures Decoded(d, data, c, variable, dec) == seq(|chunks|, k requires 0 <= k < |chunks| => Ok(chunks[k]))
  {
    hide ReadGranule;
    var bs := Decoded(d, data, c, variable, dec);
    forall k | 0 <= k < |chunks| ensures bs[k] == Ok(chunks[k]) {
      assert ReadGranule(d, data, c, variable, k) == Ok(Encoded(chunks, enc)[k]);
    }
  }

  lemma {:induction false} RowsAreFlat<T>(chunks: seq<seq<T>>)
    ensures BD.RowsOf(seq(|chunks|, k requires 0 <= k < |chunks| => Ok(chunks[k]))) == Flatten(chunks)
  {
    if chunks != [] {
      var n := |chunks| - 1;
      var bs: seq<Result<seq<T>>> := seq(|chunks|, k requires 0 <= k < |chunks| => Ok(chunks[k]));
      RowsAreFlat(chunks[..n]);
      assert bs[..n] == seq(n, k requires 0 <= k < n => Ok(chunks[..n][k]));
      FlattenSnoc(chunks[..n], chunks[n]);
      assert chunks[..n] + [chunks[n]] == chunks;
    }
  }

  /** An opened column of fixed granules holds its rows, block by block. */
  lemma FixedRows<T(!new)>(d: Dir, data: Bytes, c: Codec, rows: seq<T>, size: nat, enc: seq<T> -> Bytes, dec: Bytes -> Result<seq<T>>)
    requires size > 0 && d.blockRows == size && Inverts(enc, dec)
    requires GivesBack(d, data, c, false, Encoded(Chunks(rows, size), enc))
    ensures var col := BD.Blocked(CutOf(d, false), |rows|, Decoded(d, data, c, false, dec));
            col.Wf() && BD.RowsOf(col.blocks) == rows
  {
    hide ReadGranule; hide Chunks; hide Decoded; hide BD.RowsOf; hide BD.Blocked.Placed; hide GivesBack; hide Flatten; hide Inverts;
    GivesCount(d, data, c, false, Encoded(Chunks(rows, size), enc));
    var chunks := Chunks(rows, size);
    DecodedIs(d, data, c, false, chunks, enc, dec);
    RowsAreFlat(chunks);
    ChunksFlatten(rows, size);
    ChunkCount(rows, size);
    var col := BD.Blocked(CutOf(d, false), |rows|, Decoded(d, data, c, false, dec));
    forall b | 0 <= b < |col.blocks| ensures col.Placed(b) {
      FixedPlaced(col, rows, size, b);
    }
  }

  lemma FixedPlaced<T>(col: BD.Blocked<T>, rows: seq<T>, size: nat, b: nat)
    requires size > 0 && b < |col.blocks| == |Chunks(rows, size)| && col.rows == |rows|
    requires col.cut == Fixed(size, |col.blocks|) && col.blocks[b] == Ok(Chunks(rows, size)[b])
    ensures col.Placed(b)
  {
    hide Chunks;
    ChunkNumber(rows, size, b);
  }

  /** Row starts of written chunks rise strictly from 0 to the row count. */
  lemma {:induction false} StartsRise(sum: int, cs: seq<ChunkRec>)
    requires forall i :: 0 <= i < |cs| ==> cs[i].rows > 0
    ensures var s := [sum] + RowStarts(sum, cs);
            && |s| == |cs| + 1 && s[|cs|] == sum + RowSum(cs)
            && (forall i :: 0 <= i < |cs| ==> s[i + 1] == s[i] + cs[i].rows) && (forall i :: 0 <= i < |s| ==> sum <= s[i])
    decreases cs
  {
    if cs != [] {
      var next := sum + cs[0].rows;
      StartsRise(next, cs[1..]);
      var s, t := [sum] + RowStarts(sum, cs), [next] + RowStarts(next, cs[1..]);
      assert s == [sum] + t;
      forall i | 0 <= i < |cs| ensures s[i + 1] == s[i] + cs[i].rows {
        if i > 0 {
          assert s[i] == t[i - 1] && s[i + 1] == t[i] && cs[1..][i - 1] == cs[i];
        }
      }
    }
  }

  lemma {:induction false} Rising(s: seq<int>, i: nat, j: nat)
    requires i < j < |s| && forall k :: 0 <= k < |s| - 1 ==> s[k] < s[k + 1]
    ensures s[i] < s[j]
    decreases j
  {
    assert s[j - 1] < s[j - 1 + 1];
    if i < j - 1 {
      Rising(s, i, j - 1);
    }
  }

  lemma ChunkCutWf(cs: seq<ChunkRec>)
    requires forall i :: 0 <= i < |cs| ==> cs[i].rows > 0
    ensures var cut := Variable([0] + RowStarts(0, cs));
            && cut.Wf(RowSum(cs)) && cut.Blocks() == |cs|
            && forall b :: 0 <= b < |cs| ==> cut.Span(b, RowSum(cs)).1 - cut.Span(b, RowSum(cs)).0 == cs[b].rows && cut.Span(b, RowSum(cs)).0 < RowSum(cs)
  {
    hide RowStarts; hide RowSum;
    var s := [0] + RowStarts(0, cs);
    StartsRise(0, cs);
    assert forall k :: 0 <= k < |s| - 1 ==> s[k] < s[k + 1];
    forall i, j | 0 <= i < j < |s| ensures s[i] < s[j] {
      Rising(s, i, j);
    }
  }

  /** An opened column of variable-size chunks holds its rows, chunk by chunk. */
  lemma ChunkRows<T(!new)>(a: Sealed, data: Bytes, c: Codec, chunks: seq<seq<T>>, enc: seq<T> -> Bytes, dec: Bytes -> Result<seq<T>>)
    requires a.variable && Inverts(enc, dec) && GivesBack(DirOf(a), data, c, true, Encoded(chunks, enc))
    requires |a.chunks| == |chunks| && forall i :: 0 <= i < |chunks| ==> a.chunks[i].rows == |chunks[i]| > 0
    ensures var col := BD.Blocked(CutOf(DirOf(a), true), RowSum(a.chunks), Decoded(DirOf(a), data, c, true, dec));
            col.Wf() && BD.RowsOf(col.blocks) == Flatten(chunks)
  {
    hide ReadGranule; hide Decoded; hide RowStarts; hide RowSum; hide Flatten;
    DecodedIs(DirOf(a), data, c, true, chunks, enc, dec);
    RowsAreFlat(chunks);
    ChunkCutWf(a.chunks);
    var col := BD.Blocked(CutOf(DirOf(a), true), RowSum(a.chunks), Decoded(DirOf(a), data, c, true, dec));
    forall b | 0 <= b < |col.blocks| ensures col.Placed(b) {
      assert col.blocks[b] == Ok(chunks[b]);
    }
  }

  /** A column opened from its object: what its directory cuts and its frames decode to. */
  function OpenedRows<T>(o: Opened, c: Codec, rows: nat, dec: Bytes -> Result<seq<T>>): BD.Blocked<T> {
    BD.Blocked(CutOf(o.dir, false), rows, Decoded(o.dir, o.data, c, false, dec))
  }

  /** The object a fixed-granule column is written as. */
  ghost function WrittenObject(ss: seq<Bytes>, limit: nat, size: nat, c: Codec, env: Env, streamed: bool): Bytes {
    ObjectBytes(StoredDir(FixedColumn(ss, limit, size, c), false, env).0, None, Data(GroupsOf(ss, limit), c), streamed)
  }

  /** Rows in, any range of them out, from the object's bytes: kept in memory or streamed, whole or ranged. */
  lemma ObjectSeeks<T(!new)>(rows: seq<T>, size: nat, limit: nat, streamed: bool, c: Codec, env: Env, chk: Check,
                             enc: seq<T> -> Bytes, dec: Bytes -> Result<seq<T>>, lo: int, hi: int)
    requires 0 < size < TWO63 && Inverts(enc, dec) && c.Lawful() && env.Lawful() && 0 <= lo < hi <= |rows|
    requires var ss := Encoded(Chunks(rows, size), enc);
             && StreamsFit(ss, limit, GroupsOf(ss, limit), c)
             && var a := FixedColumn(ss, limit, size, c);
             var dir := StoredDir(a, false, env).0;
             |dir| < 0x1_0000_0000 && Recorded(chk, a, dir)
    ensures var obj := WrittenObject(Encoded(Chunks(rows, size), enc), limit, size, c, env, streamed);
            var whole := if streamed then ParseFooter(obj, chk, false, env) else ParseLeading(obj, chk, false, env);
            var ranged := if streamed then ReadFooter(obj, 0, |obj|, chk, false, env) else ReadLeading(obj, 0, |obj|, chk, false, env);
            && whole.Ok? && ranged.Ok? && ranged.value.dir == whole.value.dir
            && ClampRange(obj, ranged.value.dataOff, |whole.value.data|) == whole.value.data
            && var col := OpenedRows(whole.value, c, |rows|, dec);
               col.Shape() && BD.RowsOf(col.blocks) == rows && BlockSeek.ReadRange(col, lo, hi) == Ok(rows[lo..hi])
  {
    hide Chunks; hide Decoded; hide BD.RowsOf; hide BlockSeek.ReadRange; hide Data; hide GroupsOf; hide StreamsFit; hide Recs; hide GivesBack; hide Flatten; hide ParseLeading; hide ParseFooter; hide ReadLeading; hide ReadFooter; hide ClampRange; hide ObjectBytes; hide StoredDir; hide DirOf; hide Inverts; hide Recorded; hide FixedColumn;
    var ss := Encoded(Chunks(rows, size), enc);
    var obj := WrittenObject(ss, limit, size, c, env, streamed);
    assert [] + obj + [] == obj;
    if streamed {
      StreamedColumnReads(ss, limit, size, c, env, chk, [], []);
    } else {
      KeptColumnReads(ss, limit, size, c, env, chk, [], []);
    }
    ColumnSeeks(rows, size, limit, c, enc, dec, lo, hi);
  }

  /** Rows in, any range of them out: a fixed-granule column read by range through its directory. */
  lemma ColumnSeeks<T(!new)>(rows: seq<T>, size: nat, limit: nat, c: Codec, enc: seq<T> -> Bytes, dec: Bytes -> Result<seq<T>>, lo: int, hi: int)
    requires 0 < size < TWO63 && Inverts(enc, dec) && c.Lawful() && 0 <= lo < hi <= |rows|
    requires var ss := Encoded(Chunks(rows, size), enc); StreamsFit(ss, limit, GroupsOf(ss, limit), c)
    ensures var ss := Encoded(Chunks(rows, size), enc);
            var d, data := DirOf(FixedColumn(ss, limit, size, c)), Data(GroupsOf(ss, limit), c);
            var col := BD.Blocked(CutOf(d, false), |rows|, Decoded(d, data, c, false, dec));
            col.Shape() && BD.RowsOf(col.blocks) == rows && BlockSeek.ReadRange(col, lo, hi) == Ok(rows[lo..hi])
  {
    hide Chunks; hide Decoded; hide BD.RowsOf; hide BlockSeek.ReadRange; hide Data; hide GroupsOf; hide StreamsFit; hide Recs; hide GivesBack; hide Flatten;
    var ss := Encoded(Chunks(rows, size), enc);
    var a, gs := FixedColumn(ss, limit, size, c), GroupsOf(ss, limit);
    FixedIsOk(ss, limit, size, c);
    Fits(ss, limit, gs, c);
    SealedGivesBack(a, gs, c);
    FixedRows(DirOf(a), Data(gs, c), c, rows, size, enc, dec);
    var col := BD.Blocked(CutOf(DirOf(a), false), |rows|, Decoded(DirOf(a), Data(gs, c), c, false, dec));
    BlockSeek.SeekEqualsSlice(col, lo, hi);
  }

  lemma Fits(ss: seq<Bytes>, limit: nat, gs: seq<seq<Bytes>>, c: Codec)
    requires StreamsFit(ss, limit, gs, c)
    ensures |Data(gs, c)| <= MAX_INT32
  {
  }
}
