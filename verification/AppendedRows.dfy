/** Which rows an append adds, told from the column, the mask and the blob themselves. */
module AppendedRows {
  import opened Wire
  import opened Chunking
  import opened DictSpec
  import opened SharedDict
  import opened StreamColumn

  /** How many of a mask's first j entries are true. */
  function Marked(mask: seq<bool>, j: nat): nat
    requires j <= |mask|
  {
    if j == 0 then 0 else Marked(mask, j - 1) + if mask[j - 1] then 1 else 0
  }

  /** v is what row r of a column reads as. */
  predicate ReadsAs(col: DictColumn, r: nat, v: Value) {
    && r < col.Len() && col.width <= 2
    && if col.width == 0 then v == col.entries[r]
       else var e := IdAt(col.ids, col.width, r); e < |col.entries| && v == col.entries[e]
  }

  /** Row r's id is past the column's table. */
  predicate PastTable(col: DictColumn, r: nat) {
    r < col.Len() && 0 < col.width <= 2 && IdAt(col.ids, col.width, r) >= |col.entries|
  }

  /** The mask takes row lo + j; no mask takes them all. */
  predicate Takes(keep: Option<seq<bool>>, j: nat) { match keep case None => true case Some(mask) => j < |mask| && mask[j] }

  /** An append runs up to the first row it takes whose id is past the table, and to the end when there is none. */
  lemma {:induction false} StopsAtFirstBad(col: DictColumn, r: nat, hi: nat, keep: Option<seq<bool>>, lo: nat)
    requires lo <= r <= hi <= col.Len() && (keep.Some? ==> |keep.value| == hi - lo) && col.width <= 2
    ensures var k := FirstBad(col, r, hi, keep, lo);
            && (forall x :: r <= x < k && Takes(keep, x - lo) ==> !PastTable(col, x))
            && (k < hi ==> Takes(keep, k - lo) && PastTable(col, k))
    decreases hi - r
  {
    if r < hi && FirstBad(col, r, hi, keep, lo) != r {
      StopsAtFirstBad(col, r + 1, hi, keep, lo);
    }
  }

  /** Without a mask every row is there, in its place. */
  lemma {:induction false} AllTaken(col: DictColumn, lo: nat, r: nat)
    requires lo <= r <= col.Len() && col.width <= 2 && forall x :: lo <= x < r ==> !PastTable(col, x)
    ensures |Kept(col, lo, r, None)| == r - lo
    ensures forall j :: 0 <= j < r - lo ==> ReadsAs(col, lo + j, Kept(col, lo, r, None)[j])
    decreases r
  {
    if r > lo {
      AllTaken(col, lo, r - 1);
      assert !PastTable(col, r - 1);
      assert ReadsAs(col, lo + (r - 1 - lo), Kept(col, lo, r, None)[r - 1 - lo]);
    }
  }

  /** With one, the rows it marks are there and no other, each at the place the marks before it count. */
  lemma {:induction false} MarkedTaken(col: DictColumn, lo: nat, r: nat, mask: seq<bool>)
    requires lo <= r <= col.Len() && r - lo <= |mask| && col.width <= 2
    requires forall x :: lo <= x < r && mask[x - lo] ==> !PastTable(col, x)
    ensures |Kept(col, lo, r, Some(mask))| == Marked(mask, r - lo)
    ensures forall j :: 0 <= j < r - lo && mask[j] ==> Marked(mask, j) < Marked(mask, r - lo) && ReadsAs(col, lo + j, Kept(col, lo, r, Some(mask))[Marked(mask, j)])
    decreases r
  {
    if r > lo {
      MarkedTaken(col, lo, r - 1, mask);
      var before, rows := Kept(col, lo, r - 1, Some(mask)), Kept(col, lo, r, Some(mask));
      assert before <= rows;
      forall j | 0 <= j < r - lo && mask[j]
        ensures Marked(mask, j) < Marked(mask, r - lo) && ReadsAs(col, lo + j, rows[Marked(mask, j)])
      {
        if j < r - 1 - lo {
          assert rows[Marked(mask, j)] == before[Marked(mask, j)];
        } else {
          assert !PastTable(col, r - 1);
        }
      }
    }
  }

  /** A well-formed column has no row past its table, and its rows are what they read as. */
  lemma WfReads(col: DictColumn, r: nat)
    requires col.Wf() && r < col.Len()
    ensures !PastTable(col, r) && ReadsAs(col, r, col.Rows()[r])
  {
  }

  lemma ReadsOne(col: DictColumn, r: nat, v: Value, w: Value)
    requires ReadsAs(col, r, v) && ReadsAs(col, r, w)
    ensures v == w
  {
  }

  /** Appending [lo,hi) of a well-formed column over its own table without a mask adds exactly those rows. */
  lemma AppendsSlice(col: DictColumn, lo: nat, hi: nat)
    requires col.Wf() && lo <= hi <= col.Len()
    ensures Appended(col, col.entries, lo, hi, None) == col.Rows()[lo..hi] && AppendsAll(col, col.entries, lo, hi, None)
  {
    hide Kept; hide FirstBad; hide ReadsAs; hide PastTable; hide DictColumn.Wf; hide DictColumn.Rows; hide DictColumn.Len;
    ShapeOf(col);
    StopsAtFirstBad(col, lo, hi, None, lo);
    forall x | lo <= x < hi ensures !PastTable(col, x) {
      WfReads(col, x);
    }
    AllTaken(col, lo, hi);
    var rows := Kept(col, lo, hi, None);
    forall j | 0 <= j < hi - lo ensures rows[j] == col.Rows()[lo..hi][j] {
      WfReads(col, lo + j);
      ReadsOne(col, lo + j, rows[j], col.Rows()[lo + j]);
    }
  }

  /**
   With a mask it adds as many rows as the mask has marks, and for every mark j the row at the place the
   marks before j count is the column's row lo + j.
   */
  lemma AppendsMarked(col: DictColumn, lo: nat, hi: nat, mask: seq<bool>)
    requires col.Wf() && lo <= hi <= col.Len() && |mask| == hi - lo
    ensures var rows := Appended(col, col.entries, lo, hi, Some(mask));
            && AppendsAll(col, col.entries, lo, hi, Some(mask)) && |rows| == Marked(mask, |mask|)
            && forall j :: 0 <= j < |mask| && mask[j] ==> Marked(mask, j) < |rows| && rows[Marked(mask, j)] == col.Rows()[lo + j]
  {
    hide Kept; hide FirstBad; hide ReadsAs; hide PastTable; hide DictColumn.Wf; hide DictColumn.Rows; hide DictColumn.Len; hide Marked;
    ShapeOf(col);
    StopsAtFirstBad(col, lo, hi, Some(mask), lo);
    forall x | lo <= x < hi ensures !PastTable(col, x) {
      WfReads(col, x);
    }
    MarkedTaken(col, lo, hi, mask);
    var rows := Kept(col, lo, hi, Some(mask));
    forall j | 0 <= j < |mask| && mask[j] ensures Marked(mask, j) < |rows| && rows[Marked(mask, j)] == col.Rows()[lo + j] {
      WfReads(col, lo + j);
      ReadsOne(col, lo + j, rows[Marked(mask, j)], col.Rows()[lo + j]);
    }
  }

  lemma ShapeOf(col: DictColumn)
    requires col.Wf()
    ensures col.width <= 2 && |col.Rows()| == col.Len()
  {
  }

  // ------------------------------------------------------------ blobs

  /** The k-th pair of offsets is a span of the blob. */
  predicate CutsRow(blob: Bytes, offsets: seq<int>, k: nat) { k + 1 < |offsets| && 0 <= offsets[k] <= offsets[k + 1] <= |blob| }

  /** v is the bytes between the k-th pair of offsets. */
  predicate IsCell(blob: Bytes, offsets: seq<int>, k: nat, v: Value) {
    CutsRow(blob, offsets, k) && v.bytes == blob[offsets[k]..offsets[k + 1]]
  }

  /** Rows are appended up to the first pair of offsets that is no span of the blob. */
  lemma {:induction false} StopsAtBadSpan(blob: Bytes, offsets: seq<int>, k: nat)
    requires k < |offsets|
    ensures var n := GoodSpans(blob, offsets, k);
            n < |offsets| && (forall x :: k <= x < n ==> CutsRow(blob, offsets, x)) && !CutsRow(blob, offsets, n)
    decreases |offsets| - k
  {
    if CutsRow(blob, offsets, k) {
      StopsAtBadSpan(blob, offsets, k + 1);
    }
  }

  /** Row k of a blob is the bytes between its offsets. */
  lemma {:induction false} CellAt(blob: Bytes, offsets: seq<int>, n: nat, k: nat)
    requires k < n < |offsets| && forall x :: 0 <= x < n ==> CutsRow(blob, offsets, x)
    ensures |Cells(blob, offsets, n)| == n && IsCell(blob, offsets, k, Cells(blob, offsets, n)[k])
  {
    if n > 1 {
      CellAt(blob, offsets, n - 1, if k < n - 1 then k else 0);
    }
    assert CutsRow(blob, offsets, n - 1);
  }

  function Joined(rows: seq<Value>): Bytes {
    if rows == [] then [] else Joined(rows[..|rows| - 1]) + rows[|rows| - 1].bytes
  }

  /** And together they are the blob from the first offset to the last. */
  lemma {:induction false} CellsJoin(blob: Bytes, offsets: seq<int>, n: nat)
    requires 0 < n < |offsets| && forall x :: 0 <= x < n ==> CutsRow(blob, offsets, x)
    ensures 0 <= offsets[0] <= offsets[n] <= |blob| && Joined(Cells(blob, offsets, n)) == blob[offsets[0]..offsets[n]]
  {
    var rows := Cells(blob, offsets, n);
    assert CutsRow(blob, offsets, n - 1);
    assert rows[..|rows| - 1] == Cells(blob, offsets, n - 1);
    if n > 1 {
      CellsJoin(blob, offsets, n - 1);
      assert blob[offsets[0]..offsets[n - 1]] + blob[offsets[n - 1]..offsets[n]] == blob[offsets[0]..offsets[n]];
    } else {
      assert Cells(blob, offsets, 0) == [];
    }
  }

  /** A blob appended: its rows are its cells up to the first bad pair, and together its bytes up to there. */
  lemma BlobRows(blob: Bytes, offsets: seq<int>)
    requires offsets != []
    ensures var n := GoodSpans(blob, offsets, 0);
            var rows := Cells(blob, offsets, n);
            && n < |offsets| && |rows| == n && (forall k :: 0 <= k < n ==> IsCell(blob, offsets, k, rows[k]))
            && !CutsRow(blob, offsets, n)
            && (n > 0 ==> 0 <= offsets[0] <= offsets[n] <= |blob| && Joined(rows) == blob[offsets[0]..offsets[n]])
  {
    hide Cells; hide GoodSpans; hide Joined; hide IsCell;
    StopsAtBadSpan(blob, offsets, 0);
    var n := GoodSpans(blob, offsets, 0);
    if n > 0 {
      CellsJoin(blob, offsets, n);
      forall k | 0 <= k < n
        ensures |Cells(blob, offsets, n)| == n && IsCell(blob, offsets, k, Cells(blob, offsets, n)[k])
      {
        CellAt(blob, offsets, n, k);
      }
      CellAt(blob, offsets, n, 0);
    } else {
      NoCells(blob, offsets);
    }
  }

  lemma NoCells(blob: Bytes, offsets: seq<int>)
    ensures Cells(blob, offsets, 0) == []
  {
  }
}
