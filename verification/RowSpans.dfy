/** Which rows a block covers and which block covers a row, for fixed granules and for variable chunks. */
module RowSpans {
  import opened Chunking

  /** A column's cut into blocks: a fixed row count each, or explicit first rows. */
  datatype Cut = Fixed(blockRows: nat, n: nat) | Variable(rowStarts: seq<int>) {

    /** What a parsed directory guarantees, and for chunks that they add up to the manifest's rows. */
    ghost predicate Shape(rows: nat) {
      match this
      case Fixed(k, _) => k > 0
      case Variable(s) =>
        && |s| > 0 && s[0] == 0 && s[|s| - 1] == rows
        && forall i, j :: 0 <= i < j < |s| ==> s[i] < s[j]
    }

    /** The blocks cover exactly the column's rows. */
    ghost predicate Wf(rows: nat) {
      Shape(rows) && (Fixed? ==> n == (rows + blockRows - 1) / blockRows)
    }

    function Blocks(): nat { if Fixed? then n else if |rowStarts| > 0 then |rowStarts| - 1 else 0 }

    function Span(blk: int, rows: nat): (int, int) {
      if blk < 0 then (rows, rows)
      else
        match this
        case Variable(s) => if blk + 1 >= |s| then (rows, rows) else (s[blk], s[blk + 1])
        case Fixed(k, _) => (blk * k, Min(blk * k + k, rows))
    }

    function BlockAt(row: int): int
      requires Fixed? ==> blockRows > 0
    {
      match this
      case Fixed(k, _) => row / k
      case Variable(s) => FirstAbove(s, row, 0) - 1
    }
  }

  /** The first index from i on whose start is past row. */
  function FirstAbove(s: seq<int>, row: int, i: nat): (r: nat)
    requires i <= |s|
    ensures i <= r <= |s|
    ensures forall k :: i <= k < r ==> s[k] <= row
    ensures r < |s| ==> s[r] > row
    decreases |s| - i
  {
    if i == |s| || s[i] > row then i else FirstAbove(s, row, i + 1)
  }

  lemma {:induction false} AboveIs(s: seq<int>, row: int, i: nat, r: nat)
    requires i <= r <= |s| && (forall k :: i <= k < r ==> s[k] <= row) && (r < |s| ==> s[r] > row)
    ensures FirstAbove(s, row, i) == r
    decreases r - i
  {
    if i < r {
      AboveIs(s, row, i + 1, r);
    }
  }

  /** The binary search that finds it. */
  method Search(s: seq<int>, row: int) returns (r: nat)
    requires forall i, j :: 0 <= i < j < |s| ==> s[i] < s[j]
    ensures r == FirstAbove(s, row, 0)
  {
    var lo, hi := 0, |s|;
    while lo < hi
      invariant 0 <= lo <= hi <= |s|
      invariant forall k :: 0 <= k < lo ==> s[k] <= row
      invariant hi < |s| ==> s[hi] > row
    {
      var mid := (lo + hi) / 2;
      if s[mid] > row {
        hi := mid;
      } else {
        lo := mid + 1;
      }
    }
    r := lo;
    AboveIs(s, row, 0, r);
  }

  /** The spans partition the rows: they start at 0, meet end to start, end at the last row, and none is empty. */
  lemma SpansPartition(c: Cut, rows: nat, b: nat)
    requires c.Wf(rows) && b < c.Blocks()
    ensures 0 <= c.Span(b, rows).0 < c.Span(b, rows).1 <= rows
    ensures b == 0 ==> c.Span(b, rows).0 == 0
    ensures b + 1 < c.Blocks() ==> c.Span(b, rows).1 == c.Span(b + 1, rows).0
    ensures b + 1 == c.Blocks() ==> c.Span(b, rows).1 == rows
  {
    if c.Fixed? {
      var k, n := c.blockRows, c.n;
      CeilCovers(rows, k, n);
      MulOrder(b, n - 1, k);
      assert (b + 1) * k == b * k + k;
      if b + 1 < n {
        MulOrder(b + 1, n - 1, k);
      }
    }
  }

  lemma QuotientWithin(row: int, rows: nat, k: nat, n: nat)
    requires k > 0 && 0 <= row < rows <= n * k
    ensures 0 <= row / k < n && row / k * k <= row < row / k * k + k
  {
    DivBounds(row, k);
    if row / k >= n {
      MulOrder(n, row / k, k);
    }
  }

  /** Every row has one block, and blockAt finds it. */
  lemma BlockAtInverts(c: Cut, rows: nat, row: int)
    requires c.Wf(rows) && 0 <= row < rows
    ensures 0 <= c.BlockAt(row) < c.Blocks()
    ensures c.Span(c.BlockAt(row), rows).0 <= row < c.Span(c.BlockAt(row), rows).1
  {
    if c.Fixed? {
      CeilCovers(rows, c.blockRows, c.n);
      QuotientWithin(row, rows, c.blockRows, c.n);
    } else {
      var s := c.rowStarts;
      var r := FirstAbove(s, row, 0);
      assert s[|s| - 1] > row;
      assert 0 < r < |s|;
    }
  }

  /** A block whose span holds a row is the one blockAt finds. */
  lemma BlockAtUnique(c: Cut, rows: nat, row: int, b: nat)
    requires c.Wf(rows) && b < c.Blocks() && c.Span(b, rows).0 <= row < c.Span(b, rows).1
    ensures c.BlockAt(row) == b
  {
    if c.Fixed? {
      DivUnique(row, c.blockRows, b, row - b * c.blockRows);
    } else {
      var s := c.rowStarts;
      assert forall k :: 0 <= k < b ==> s[k] < s[b];
      AboveIs(s, row, 0, b + 1);
    }
  }

  /** Later blocks start no earlier. */
  lemma {:induction false} SpansOrdered(c: Cut, rows: nat, a: nat, b: nat)
    requires c.Wf(rows) && a < b < c.Blocks()
    ensures c.Span(a, rows).1 <= c.Span(b, rows).0
    decreases b
  {
    SpansPartition(c, rows, b - 1);
    if a < b - 1 {
      SpansOrdered(c, rows, a, b - 1);
    }
  }
}
