/** The batch writer of a dictionary column, over rows in flat form and in split form. */
module Writers {
  import opened Wire
  import opened Chunking
  import opened DictSpec
  import opened DictBuilder
  import opened SharedDict
  import opened StreamColumn
  import opened StampWrap

  /** The batch writer over a column in flat form. */
  method BatchValues(rows: seq<Value>, size: nat, cap: int) returns (col: Column)
    requires size > 0
    ensures col == Encode(cap, Chunks(rows, size))
  {
    hide Encode; hide Decide; hide Chunks; hide IndexOk; hide Charge; hide Raw;
    var b := new SharedDictBuilder(cap);
    var granules: seq<Granule> := [];
    ghost var chunks := Chunks(rows, size);
    ChunkCount(rows, size);
    assert chunks[..0] == [];
    EncodeNothing(cap);
    for g := 0 to (|rows| + size - 1) / size
      invariant b.ValuesOk() && b.cap == cap && fresh(b)
      invariant Encode(cap, chunks[..g]) == Column(granules, b.entries)
    {
      ChunkNumber(rows, size, g);
      var lo := g * size;
      var hi := Min(lo + size, |rows|);
      EncodeSnoc(cap, chunks[..g], chunks[g]);
      assert chunks[..g + 1] == chunks[..g] + [chunks[g]];
      var joined, ids := b.AddValues(rows[lo..hi]);
      granules := granules + [if joined then Shared(|b.entries| > 256, ids) else Self(rows[lo..hi])];
    }
    assert chunks[..|chunks|] == chunks;
    col := Column(granules, b.entries);
  }

  /**
   The batch writer over a column in split form: ids into a table of distinct values. It writes what its
   stamps lead it to, which for fewer than 2^32 granules is the column its rows stand for.
   */
  method BatchIds(table: seq<Value>, src: seq<int>, size: nat, cap: int) returns (col: Column)
    requires size > 0 && Distinct(table) && InTable(table, src)
    ensures forall i :: 0 <= i < |Chunks(src, size)| ==> InTable(table, Chunks(src, size)[i])
    ensures var (m, granules) := IdsRun(cap, table, Chunks(src, size)); col == Column(granules, m.dict)
    ensures |Chunks(src, size)| < WRAP32 ==> col == Encode(cap, Chunks(At(table, src), size))
  {
    hide Encode; hide Decide; hide Chunks; hide IdsStep; hide IdsRun; hide At;
    var b := new SharedDictBuilder(cap);
    var granules: seq<Granule> := [];
    ghost var rows := At(table, src);
    ghost var chunks, cuts := Chunks(rows, size), Chunks(src, size);
    ChunkCount(rows, size);
    ChunkCount(src, size);
    CutsInTable(table, src, size);
    assert chunks[..0] == [] && cuts[..0] == [];
    EncodeNothing(cap);
    IdsRunNothing(cap, table);
    for g := 0 to (|src| + size - 1) / size
      invariant b.IdsOk(table) && b.turns == g && b.cap == cap && fresh(b)
      invariant (b.MarksOver(table), granules) == IdsRun(cap, table, cuts[..g])
      invariant g < WRAP32 ==> Encode(cap, chunks[..g]) == Column(granules, b.entries)
    {
      ChunkNumber(rows, size, g);
      ChunkNumber(src, size, g);
      var lo := g * size;
      var hi := Min(lo + size, |src|);
      EncodeSnoc(cap, chunks[..g], chunks[g]);
      IdsRunSnoc(cap, table, cuts[..g], cuts[g]);
      assert chunks[..g + 1] == chunks[..g] + [chunks[g]] && cuts[..g + 1] == cuts[..g] + [cuts[g]];
      AtSlice(table, src, lo, hi);
      var joined, ids := b.AddIDs(table, src[lo..hi]);
      granules := granules + [if joined then Shared(|b.entries| > 256, ids) else Self(At(table, src[lo..hi]))];
    }
    assert chunks[..|chunks|] == chunks && cuts[..|cuts|] == cuts;
    col := Column(granules, b.entries);
  }

  lemma CutsInTable(table: seq<Value>, src: seq<int>, size: nat)
    requires size > 0 && InTable(table, src)
    ensures forall i :: 0 <= i < |Chunks(src, size)| ==> InTable(table, Chunks(src, size)[i])
  {
    ChunkCount(src, size);
    forall i | 0 <= i < |Chunks(src, size)| ensures InTable(table, Chunks(src, size)[i]) {
      ChunkNumber(src, size, i);
    }
  }

  lemma EncodeNothing(cap: int)
    ensures Encode(cap, []) == Column([], [])
  {
  }

  lemma AtSlice(table: seq<Value>, src: seq<int>, lo: nat, hi: nat)
    requires lo <= hi <= |src| && InTable(table, src)
    ensures InTable(table, src[lo..hi]) && At(table, src)[lo..hi] == At(table, src[lo..hi])
  {
  }
}
