/** The fast decode's two forms agree, and over an encoded column both give back the rows. */
module SharedForms {
  import opened Wire
  import opened Chunking
  import opened DictSpec
  import opened DictBuilder
  import opened SharedDict
  import opened SharedDecode

  // ------------------------------------------------------------ packed and scattered

  /** Row r of the i-th selected granule, in the packed form. */
  lemma {:induction false} PackedAt(s: Selection, blocks: seq<int>, i: nat, r: nat)
    requires s.Wf() && s.AllJoined(blocks) && i < |blocks| && r < s.Count(blocks[i])
    ensures 0 <= RowsIn(s, blocks[..i]) && RowsIn(s, blocks[..i]) + r < |s.Packed(blocks)|
    ensures s.Packed(blocks)[RowsIn(s, blocks[..i]) + r] == s.BlockIds(blocks[i])[r]
  {
    hide Selection.BlockIds;
    var n := |blocks| - 1;
    PackedLen(s, blocks[..n]);
    if i < n {
      assert blocks[..n][..i] == blocks[..i];
      PackedAt(s, blocks[..n], i, r);
    } else {
      PackedLen(s, blocks[..i]);
    }
  }

  /** The packed and the scattered form hold the same id for every row of every selected granule. */
  lemma FormsAgree(s: Selection, blocks: seq<int>, ids: seq<int>, i: nat, r: nat)
    requires s.Wf() && s.AllJoined(blocks) && i < |blocks| && r < s.Count(blocks[i])
    requires s.Scattered(blocks, ids)
    ensures 0 <= s.Lo(blocks[i]) && s.Lo(blocks[i]) + r < |ids| && 0 <= RowsIn(s, blocks[..i]) && RowsIn(s, blocks[..i]) + r < |s.Packed(blocks)|
    ensures ids[s.Lo(blocks[i]) + r] == s.Packed(blocks)[RowsIn(s, blocks[..i]) + r]
  {
    hide Selection.BlockIds; hide Selection.Packed; hide Selection.Covered;
    PackedAt(s, blocks, i, r);
    s.CountBounds(blocks[i]);
    assert s.InPlace(blocks[i], ids);
    var p := s.Lo(blocks[i]) + r;
    assert ids[p] == s.BlockIds(blocks[i])[p - s.Lo(blocks[i])];
  }

  // ------------------------------------------------------------ over an encoded column

  /** What decoding selects from: a column's streams under its finished dictionary. */
  ghost predicate Selects(s: Selection, rows: seq<Value>, cap: int, enc: seq<Value> -> Bytes) {
    && s.Wf() && s.trailer && s.rows == |rows|
    && var col := Encode(cap, Chunks(rows, s.blockRows));
    && s.entries == col.dict && |s.streams| == |col.granules|
    && forall g :: 0 <= g < |s.streams| ==> Packable(col.granules[g]) && s.streams[g] == EncodeGranule(col.granules[g], enc)
  }

  lemma FaithfulSplits(g: Granule, rows: seq<Value>, dict: seq<Value>, enc: seq<Value> -> Bytes)
    requires Faithful(g, rows, dict)
    ensures g.Self? ==> SplitGranule(dict, true, EncodeGranule(g, enc), |rows|) == Ok(Chunk(enc(rows)))
    ensures g.Shared? ==> SplitGranule(dict, true, EncodeGranule(g, enc), |rows|) == Ok(Ids(PackIds(g.wide, g.ids), if g.wide then 2 else 1))
  {
    var stream := EncodeGranule(g, enc);
    match g
    case Self(own) =>
      assert stream[1..] == enc(rows);
    case Shared(wide, ids) =>
      var b, width := PackIds(wide, ids), if wide then 2 else 1;
      assert stream[1..] == b;
      assert forall r :: 0 <= r < |rows| ==> IdAt(b, width, r) == ids[r];
      assert IdsBounded(b, width, |rows|, |dict|);
  }

  /** A granule decodes fast exactly when it joined, and its ids then name its rows. */
  lemma JoinedMeansShared(s: Selection, rows: seq<Value>, cap: int, enc: seq<Value> -> Bytes, g: nat)
    requires cap >= 0 && Selects(s, rows, cap, enc) && g < |s.streams|
    ensures var col := Encode(cap, Chunks(rows, s.blockRows));
            && |col.granules| == |s.streams| && (s.Joined(g) <==> col.granules[g].Shared?)
    ensures s.Joined(g) ==> forall r :: 0 <= r < s.Count(g) ==> 0 <= s.Lo(g) + r < |rows| && s.entries[s.BlockIds(g)[r]] == rows[s.Lo(g) + r]
  {
    hide Encode; hide Chunks; hide SplitGranule; hide PackIds; hide EncodeGranule; hide IdAt;
    var chunks := Chunks(rows, s.blockRows);
    var col := Encode(cap, chunks);
    EncodeShape(cap, chunks);
    EncodeFaithful(cap, chunks, g);
    ChunkNumber(rows, s.blockRows, g);
    s.CountBounds(g);
    assert |chunks[g]| == s.Count(g);
    FaithfulSplits(col.granules[g], chunks[g], col.dict, enc);
    if s.Joined(g) {
      NamedIds(col.granules[g], chunks[g], col.dict);
      forall r | 0 <= r < s.Count(g) ensures 0 <= s.Lo(g) + r < |rows| && s.entries[s.BlockIds(g)[r]] == rows[s.Lo(g) + r] {
        assert chunks[g][r] == rows[s.Lo(g) + r];
      }
    }
  }

  lemma NamedIds(g: Granule, rows: seq<Value>, dict: seq<Value>)
    requires Faithful(g, rows, dict) && g.Shared?
    ensures Unpack(PackIds(g.wide, g.ids), if g.wide then 2 else 1) == g.ids
    ensures |g.ids| == |rows| && forall r :: 0 <= r < |rows| ==> 0 <= g.ids[r] < |dict| && dict[g.ids[r]] == rows[r]
  {
  }

  /** The blocks of a whole column, in order. */
  function AllBlocks(n: nat): seq<int> { seq(n, i => i) }

  lemma {:induction false} WholeSum(s: Selection, n: nat)
    requires s.Wf() && n <= |s.streams| && (n > 0 ==> s.Lo(n - 1) < s.rows)
    ensures RowsIn(s, AllBlocks(n)) == Min(n * s.blockRows, s.rows)
  {
    if n > 0 {
      assert AllBlocks(n)[..n - 1] == AllBlocks(n - 1);
      assert n * s.blockRows == (n - 1) * s.blockRows + s.blockRows;
      if n > 1 {
        MulOrder(n - 2, n - 1, s.blockRows);
      }
      WholeSum(s, n - 1);
    }
  }

  /**
   Every row, by its own granule: the packed form of a whole column that joined throughout is the
   column, row for row.
   */
  lemma WholeColumnDecodes(s: Selection, rows: seq<Value>, cap: int, enc: seq<Value> -> Bytes, p: nat)
    requires cap >= 0 && Selects(s, rows, cap, enc) && s.AllJoined(AllBlocks(|s.streams|)) && p < |rows|
    ensures |s.Packed(AllBlocks(|s.streams|))| == |rows|
    ensures 0 <= s.Packed(AllBlocks(|s.streams|))[p] < |s.entries| && s.entries[s.Packed(AllBlocks(|s.streams|))[p]] == rows[p]
  {
    hide Encode; hide Chunks; hide Selection.BlockIds; hide Selection.Packed; hide Selection.Joined; hide EncodeGranule; hide Packable; hide RowsIn;
    var n, k := |s.streams|, s.blockRows;
    var blocks := AllBlocks(n);
    EncodeShape(cap, Chunks(rows, k));
    ChunkCount(rows, k);
    var g := p / k;
    DivBounds(p, k);
    var r := p - g * k;
    CeilBounds(|rows|, k, n, g, r);
    WholeSums(s, rows, g);
    PackedLen(s, blocks);
    assert blocks[g] == g && blocks[..g] == AllBlocks(g);
    assert s.Joined(blocks[g]);
    PackedAt(s, blocks, g, r);
    JoinedMeansShared(s, rows, cap, enc, g);
  }

  /** Where block g starts, and where the last block ends. */
  lemma WholeSums(s: Selection, rows: seq<Value>, g: nat)
    requires s.Wf() && s.rows == |rows| && |s.streams| == |Chunks(rows, s.blockRows)| && g < |s.streams|
    ensures RowsIn(s, AllBlocks(g)) == g * s.blockRows && RowsIn(s, AllBlocks(|s.streams|)) == |rows|
    ensures s.Lo(g) == g * s.blockRows && s.Count(g) == Min(g * s.blockRows + s.blockRows, |rows|) - g * s.blockRows
  {
    hide Chunks; hide RowsIn;
    var n, k := |s.streams|, s.blockRows;
    ChunkNumber(rows, k, n - 1);
    ChunkNumber(rows, k, g);
    ChunkCount(rows, k);
    CeilCovers(|rows|, k, n);
    WholeSum(s, n);
    if g > 0 {
      ChunkNumber(rows, k, g - 1);
    }
    WholeSum(s, g);
  }

  lemma CeilBounds(len: nat, k: nat, n: nat, g: nat, r: nat)
    requires k > 0 && r < k && g * k + r < len && n == (len + k - 1) / k
    ensures g < n && n * k >= len
  {
    CeilCovers(len, k, n);
    if n <= g {
      MulOrder(n, g, k);
    }
  }
}
