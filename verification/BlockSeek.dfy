/** Reading a row range, and reading row by row: both are the whole column's rows, on well-formed columns. */
module BlockSeek {
  import opened Wire
  import opened Chunking
  import opened RowSpans
  import opened BlockDecode

  predicate AllOk<T>(bs: seq<Result<seq<T>>>) { forall i :: 0 <= i < |bs| ==> bs[i].Ok? }

  lemma BlockAtMonotone(c: Cut, rows: nat, p: int, q: int)
    requires c.Shape(rows) && 0 <= p <= q
    ensures 0 <= c.BlockAt(p) <= c.BlockAt(q)
  {
    if c.Fixed? {
      var k := c.blockRows;
      var a, b := p / k, q / k;
      assert p == a * k + p % k && q == b * k + q % k;
      assert (b + 1) * k == b * k + k;
      if a < 0 {
        MulOrder(a, -1, k);
      } else if b < a {
        MulOrder(b + 1, a, k);
      }
    } else {
      var s := c.rowStarts;
      var x, y := FirstAbove(s, p, 0), FirstAbove(s, q, 0);
      assert s[0] <= p;
      AboveMonotone(s, p, q, 0);
    }
  }

  lemma {:induction false} AboveMonotone(s: seq<int>, p: int, q: int, i: nat)
    requires p <= q && i <= |s|
    ensures FirstAbove(s, p, i) <= FirstAbove(s, q, i)
    decreases |s| - i
  {
    if i < |s| && s[i] <= p {
      AboveMonotone(s, p, q, i + 1);
    }
  }

  lemma FirstBlockHolds(c: Cut, rows: nat, p: int)
    requires c.Shape(rows) && 0 <= p && c.BlockAt(p) < c.Blocks()
    ensures 0 <= c.BlockAt(p) && 0 <= c.Span(c.BlockAt(p), rows).0 <= p
  {
    BlockAtMonotone(c, rows, p, p);
    if c.Fixed? {
      var b := p / c.blockRows;
      assert p == b * c.blockRows + p % c.blockRows;
    }
  }

  /** Rows [lo,hi): the blocks that span them, decoded one after the other, and the window cut out. */
  function ReadRange<T>(c: Blocked<T>, lo: int, hi: int): Result<seq<T>>
    requires c.Shape()
  {
    if lo < 0 || hi <= lo then Err
    else
      var first, last := c.cut.BlockAt(lo), c.cut.BlockAt(hi - 1);
      if last >= |c.blocks| then Err
      else
        BlockAtMonotone(c.cut, c.rows, lo, hi - 1);
        FirstBlockHolds(c.cut, c.rows, lo);
        if !AllOk(c.blocks[first..last + 1]) then Err
        else
          var out, base := RowsOf(c.blocks[first..last + 1]), c.Lo(first);
          if hi - base > |out| then Err else Ok(out[lo - base..hi - base])
  }

  /** The range read, once its blocks are known. */
  lemma RangeIs<T>(c: Blocked<T>, lo: int, hi: int, first: int, last: int)
    requires c.Shape() && 0 <= lo < hi && first == c.cut.BlockAt(lo) && last == c.cut.BlockAt(hi - 1) && last < |c.blocks|
    ensures 0 <= first <= last && 0 <= c.Lo(first) <= lo
    ensures !AllOk(c.blocks[first..last + 1]) ==> ReadRange(c, lo, hi) == Err
    ensures AllOk(c.blocks[first..last + 1]) ==>
              var out, base := RowsOf(c.blocks[first..last + 1]), c.Lo(first);
              ReadRange(c, lo, hi) == if hi - base > |out| then Err else Ok(out[lo - base..hi - base])
  {
    hide RowsOf; hide Cut.BlockAt; hide Cut.Span;
    BlockAtNeeds(c);
    BlockAtMonotone(c.cut, c.rows, lo, hi - 1);
    FirstBlockHolds(c.cut, c.rows, lo);
  }

  method DecodeRange<T>(c: Blocked<T>, lo: int, hi: int) returns (r: Result<seq<T>>)
    requires c.Shape()
    ensures r == ReadRange(c, lo, hi)
  {
    hide RowsOf; hide Blocked.Lo; hide Cut.BlockAt;
    if lo < 0 || hi <= lo {
      return Err;
    }
    BlockAtNeeds(c);
    var first, last := c.cut.BlockAt(lo), c.cut.BlockAt(hi - 1);
    if last >= |c.blocks| {
      return Err;
    }
    RangeIs(c, lo, hi, first, last);
    hide ReadRange;
    ghost var bs := c.blocks[first..last + 1];
    var out := [];
    NoRows<T>();
    assert bs[..0] == [];
    for i := first to last + 1
      invariant forall j :: first <= j < i ==> c.blocks[j].Ok?
      invariant out == RowsOf(bs[..i - first])
    {
      assert bs[i - first] == c.blocks[i];
      if c.blocks[i].Err? {
        assert bs[i - first].Err?;
        return Err;
      }
      RowsOfSnoc(bs, i - first);
      out := out + c.blocks[i].value;
    }
    assert bs[..last + 1 - first] == bs;
    forall k | 0 <= k < |bs| ensures bs[k].Ok? {
      assert bs[k] == c.blocks[first + k];
    }
    var base := c.Lo(first);
    var relLo, relHi := lo - base, hi - base;
    if relHi > |out| {
      return Err;
    }
    r := Ok(out[relLo..relHi]);
  }

  lemma BlockAtNeeds<T>(c: Blocked<T>)
    requires c.Shape()
    ensures c.cut.Fixed? ==> c.cut.blockRows > 0
  {
  }

  /** Seek equals slice. */
  lemma SeekEqualsSlice<T>(c: Blocked<T>, lo: int, hi: int)
    requires c.Wf() && 0 <= lo < hi <= c.rows
    ensures |RowsOf(c.blocks)| == c.rows && ReadRange(c, lo, hi) == Ok(RowsOf(c.blocks)[lo..hi])
  {
    hide RowsOf; hide Cut.BlockAt; hide Cut.Span; hide Cut.Wf; hide ReadRange;
    CutShape(c.cut, c.rows);
    BlockAtNeeds(c);
    var first, last := c.cut.BlockAt(lo), c.cut.BlockAt(hi - 1);
    BlockAtInverts(c.cut, c.rows, lo);
    BlockAtInverts(c.cut, c.rows, hi - 1);
    RangeIs(c, lo, hi, first, last);
    var a, m, z := c.blocks[..first], c.blocks[first..last + 1], c.blocks[last + 1..];
    forall i | 0 <= i < |m| ensures m[i].Ok? {
      assert m[i] == c.blocks[first + i] && c.Placed(first + i);
    }
    BaseIsLo(c, first);
    PrefixFills(c, first);
    PrefixFills(c, last + 1);
    WholeDecodes(c);
    ThreeParts(c.blocks, first, last);
    Window(RowsOf(a), RowsOf(m), RowsOf(z), lo, hi);
  }

  lemma ThreeParts<T>(bs: seq<Result<seq<T>>>, first: nat, last: nat)
    requires first <= last < |bs|
    ensures RowsOf(bs) == RowsOf(bs[..first]) + (RowsOf(bs[first..last + 1]) + RowsOf(bs[last + 1..]))
    ensures |RowsOf(bs[..last + 1])| == |RowsOf(bs[..first])| + |RowsOf(bs[first..last + 1])|
  {
    hide RowsOf;
    var a, m, z := bs[..first], bs[first..last + 1], bs[last + 1..];
    assert bs == a + (m + z) && bs[..last + 1] == a + m;
    RowsOfConcat(a, m + z);
    RowsOfConcat(m, z);
    RowsOfConcat(a, m);
  }

  lemma CutShape(c: Cut, rows: nat)
    requires c.Wf(rows)
    ensures c.Shape(rows)
  {
  }

  lemma Window<T>(a: seq<T>, m: seq<T>, z: seq<T>, lo: nat, hi: nat)
    requires |a| <= lo <= hi <= |a| + |m|
    ensures (a + (m + z))[lo..hi] == m[lo - |a|..hi - |a|]
  {
  }

  // ------------------------------------------------------------ when a range read can be trusted

  /**
   Rows tagged with where they come from: row i of block b decodes to (b, i). The range reader does not
   compare a block's length with its span, so over these it shows which rows it would return.
   */
  function Tagged(lens: seq<nat>): (bs: seq<Result<seq<(int, int)>>>)
    ensures |bs| == |lens|
  {
    seq(|lens|, b requires 0 <= b < |lens| => Ok(TagRows(b, lens[b])))
  }

  function TagRows(b: int, n: nat): seq<(int, int)> { seq(n, i => (b, i)) }

  /** The block a position of decoded rows came from. */
  function WhichBlock<T>(bs: seq<Result<seq<T>>>, q: nat): (k: nat)
    requires q < |RowsOf(bs)|
    ensures k < |bs| && |RowsOf(bs[..k])| <= q < |RowsOf(bs[..k + 1])|
  {
    var n := |bs| - 1;
    if q >= |RowsOf(bs[..n])| then
      assert bs[..n + 1] == bs;
      n
    else
      var k := WhichBlock(bs[..n], q);
      assert bs[..n][..k] == bs[..k] && bs[..n][..k + 1] == bs[..k + 1];
      k
  }

  /** Row i of block k, among the decoded rows. */
  lemma RowOfBlock<T>(bs: seq<Result<seq<T>>>, k: nat, i: nat)
    requires k < |bs| && bs[k].Ok? && i < |bs[k].value|
    ensures |RowsOf(bs[..k])| + i < |RowsOf(bs)| && RowsOf(bs)[|RowsOf(bs[..k])| + i] == bs[k].value[i]
  {
    hide RowsOf;
    RowsOfSnoc(bs, k);
    RowsOfConcat(bs[..k + 1], bs[k + 1..]);
    assert bs == bs[..k + 1] + bs[k + 1..];
  }

  lemma EmptyBlock<T>(bs: seq<Result<seq<T>>>, k: nat)
    requires k < |bs|
    ensures bs[k].Err? ==> |RowsOf(bs[..k + 1])| == |RowsOf(bs[..k])|
    ensures bs[k].Ok? ==> |RowsOf(bs[..k + 1])| == |RowsOf(bs[..k])| + |bs[k].value|
  {
    assert bs[..k + 1][..k] == bs[..k];
  }

  /** Every returned row is the one its own block holds at its place. */
  ghost predicate RightRows(c: Cut, rows: nat, lo: int, hi: int, out: seq<(int, int)>)
    requires c.Shape(rows)
  {
    |out| == hi - lo && forall i :: 0 <= i < |out| ==> RightRow(c, rows, lo + i, out[i])
  }

  predicate RightRow(c: Cut, rows: nat, p: int, tag: (int, int))
    requires c.Fixed? ==> c.blockRows > 0
  {
    tag == (c.BlockAt(p), p - c.Span(c.BlockAt(p), rows).0)
  }

  /** Blocks [first, last) decode to as many rows as their spans. */
  ghost predicate LensMatch(c: Cut, rows: nat, lens: seq<nat>, first: int, last: int) {
    forall b :: 0 <= b < |lens| && first <= b < last ==> lens[b] == c.Span(b, rows).1 - c.Span(b, rows).0
  }

  /** Where block b's rows begin among those decoded from block first on. */
  function Offset(lens: seq<nat>, first: nat, b: nat): nat
    requires first <= b <= |lens|
  {
    |RowsOf(Tagged(lens)[first..b])|
  }

  lemma OffsetStep(lens: seq<nat>, first: nat, b: nat)
    requires first <= b < |lens|
    ensures Offset(lens, first, first) == 0 && Offset(lens, first, b + 1) == Offset(lens, first, b) + lens[b]
  {
    var bs := Tagged(lens);
    assert bs[first..first] == [];
    assert bs[first..b + 1] == bs[first..][..b - first + 1] && bs[first..b] == bs[first..][..b - first];
    RowsOfSnoc(bs[first..], b - first);
  }

  lemma {:induction false} OffsetMatches(c: Cut, rows: nat, lens: seq<nat>, first: nat, b: nat)
    requires c.Wf(rows) && |lens| == c.Blocks() && first <= b < |lens| && LensMatch(c, rows, lens, first, b)
    ensures Offset(lens, first, b) == c.Span(b, rows).0 - c.Span(first, rows).0
    decreases b
  {
    hide Offset; hide Cut.Span; hide Cut.Wf;
    OffsetStep(lens, first, if b > first then b - 1 else b);
    if b > first {
      OffsetMatches(c, rows, lens, first, b - 1);
      SpansPartition(c, rows, b - 1);
      assert lens[b - 1] == c.Span(b - 1, rows).1 - c.Span(b - 1, rows).0;
    }
  }

  /** The tag found at position q of the decoded rows. */
  lemma TagAt(lens: seq<nat>, first: nat, last: nat, q: nat)
    requires first <= last < |lens| && q < |RowsOf(Tagged(lens)[first..last + 1])|
    ensures var t := RowsOf(Tagged(lens)[first..last + 1])[q];
            first <= t.0 <= last && Offset(lens, first, t.0) <= q < Offset(lens, first, t.0 + 1) && t.1 == q - Offset(lens, first, t.0)
  {
    hide RowsOf;
    var all := Tagged(lens);
    var bs := all[first..last + 1];
    var k := WhichBlock(bs, q);
    assert bs[k] == all[first + k];
    SliceSlice(all, first, last + 1, 0, k);
    SliceSlice(all, first, last + 1, 0, k + 1);
    EmptyBlock(bs, k);
    RowOfBlock(bs, k, q - |RowsOf(bs[..k])|);
  }

  lemma {:induction false} OffsetMono(lens: seq<nat>, first: nat, a: nat, b: nat)
    requires first <= a <= b <= |lens|
    ensures Offset(lens, first, a) <= Offset(lens, first, b)
    decreases b
  {
    hide Offset;
    if a < b {
      OffsetMono(lens, first, a, b - 1);
      OffsetStep(lens, first, b - 1);
    }
  }

  /** Only one block's rows lie at a position. */
  lemma OwnerUnique(lens: seq<nat>, first: nat, a: nat, b: nat, q: nat)
    requires first <= a < |lens| && first <= b < |lens|
    requires Offset(lens, first, a) <= q < Offset(lens, first, a + 1) && Offset(lens, first, b) <= q < Offset(lens, first, b + 1)
    ensures a == b
  {
    hide Offset;
    if a < b {
      OffsetMono(lens, first, a + 1, b);
    } else if b < a {
      OffsetMono(lens, first, b + 1, a);
    }
  }

  lemma MatchedRangeIsRight(c: Cut, rows: nat, lens: seq<nat>, lo: int, hi: int, first: nat, last: nat, p: int)
    requires c.Wf(rows) && |lens| == c.Blocks() && 0 <= lo <= p < hi <= rows
    requires first == c.BlockAt(lo) && last == c.BlockAt(hi - 1) && first <= last < |lens| && LensMatch(c, rows, lens, first, last)
    requires hi - c.Span(first, rows).0 <= Offset(lens, first, last + 1)
    ensures var out, q := RowsOf(Tagged(lens)[first..last + 1]), p - c.Span(first, rows).0;
            0 <= q < |out| && out[q] == (c.BlockAt(p), p - c.Span(c.BlockAt(p), rows).0)
  {
    hide Offset; hide RowsOf; hide Tagged; hide Cut.Span; hide Cut.BlockAt; hide Cut.Wf;
    CutShape(c, rows);
    var b := c.BlockAt(p);
    BlockAtInverts(c, rows, lo);
    BlockAtInverts(c, rows, p);
    BlockAtMonotone(c, rows, lo, p);
    BlockAtMonotone(c, rows, p, hi - 1);
    var q := p - c.Span(first, rows).0;
    OffsetMatches(c, rows, lens, first, b);
    OffsetStep(lens, first, b);
    OutLen(lens, first, last);
    if b < last {
      assert lens[b] == c.Span(b, rows).1 - c.Span(b, rows).0;
    }
    TagAt(lens, first, last, q);
    OwnerUnique(lens, first, RowsOf(Tagged(lens)[first..last + 1])[q].0, b, q);
  }

  lemma OutLen(lens: seq<nat>, first: nat, last: nat)
    requires first <= last < |lens|
    ensures |RowsOf(Tagged(lens)[first..last + 1])| == Offset(lens, first, last + 1)
  {
  }

  /** The first block whose length is off puts a wrong row in the answer. */
  lemma ShortBlockShows(c: Cut, rows: nat, lens: seq<nat>, lo: int, hi: int, first: nat, last: nat, b: nat) returns (p: int)
    requires c.Wf(rows) && |lens| == c.Blocks() && 0 <= lo < hi <= rows
    requires first == c.BlockAt(lo) && last == c.BlockAt(hi - 1) && first <= b < last < |lens| && LensMatch(c, rows, lens, first, b)
    requires lens[b] != c.Span(b, rows).1 - c.Span(b, rows).0
    requires hi - c.Span(first, rows).0 <= Offset(lens, first, last + 1)
    ensures var out, q := RowsOf(Tagged(lens)[first..last + 1]), p - c.Span(first, rows).0;
            lo <= p < hi && 0 <= q < |out| && out[q] != (c.BlockAt(p), p - c.Span(c.BlockAt(p), rows).0)
  {
    hide Offset; hide RowsOf; hide Tagged; hide Cut.Span; hide Cut.BlockAt; hide Cut.Wf;
    CutShape(c, rows);
    BlockAtInverts(c, rows, lo);
    BlockAtInverts(c, rows, hi - 1);
    SpansPartition(c, rows, b);
    SpansOrdered(c, rows, b, last);
    if first < b {
      SpansOrdered(c, rows, first, b);
    }
    OffsetMatches(c, rows, lens, first, b);
    OffsetStep(lens, first, b);
    var base, len := c.Span(first, rows).0, c.Span(b, rows).1 - c.Span(b, rows).0;
    if lens[b] < len {
      p := if lo < c.Span(b, rows).0 + lens[b] then c.Span(b, rows).0 + lens[b] else lo;
      BlockAtUnique(c, rows, p, b);
    } else {
      p := c.Span(b, rows).1;
      SpansPartition(c, rows, b + 1);
      BlockAtUnique(c, rows, p, b + 1);
    }
    OutLen(lens, first, last);
    TagAt(lens, first, last, p - base);
    if lens[b] > len {
      OwnerUnique(lens, first, RowsOf(Tagged(lens)[first..last + 1])[p - base].0, b, p - base);
    }
  }

  /** The first block in [first, last) whose length is off, if the lengths do not all match. */
  lemma {:induction false} FirstOff(c: Cut, rows: nat, lens: seq<nat>, first: nat, last: nat) returns (b: nat)
    requires first <= last <= |lens| && !LensMatch(c, rows, lens, first, last)
    ensures first <= b < last && LensMatch(c, rows, lens, first, b) && lens[b] != c.Span(b, rows).1 - c.Span(b, rows).0
    decreases last
  {
    if LensMatch(c, rows, lens, first, last - 1) {
      b := last - 1;
    } else {
      b := FirstOff(c, rows, lens, first, last - 1);
    }
  }

  /**
   A range read that succeeds returns the right rows exactly when every block it crosses but the last
   decodes to as many rows as the directory places there. It does not check that itself.
   */
  lemma RangeRightIff(c: Cut, rows: nat, lens: seq<nat>, lo: int, hi: int, got: seq<(int, int)>)
    requires c.Wf(rows) && |lens| == c.Blocks() && 0 <= lo < hi <= rows
    requires ReadRange(Blocked(c, rows, Tagged(lens)), lo, hi) == Ok(got)
    ensures RightRows(c, rows, lo, hi, got) <==> LensMatch(c, rows, lens, c.BlockAt(lo), c.BlockAt(hi - 1))
  {
    hide RowsOf; hide Tagged; hide Cut.Span; hide Cut.BlockAt; hide Cut.Wf; hide ReadRange;
    CutShape(c, rows);
    BlockAtNeeds(Blocked(c, rows, Tagged(lens)));
    var first, last := c.BlockAt(lo), c.BlockAt(hi - 1);
    BlockAtInverts(c, rows, hi - 1);
    BlockAtMonotone(c, rows, lo, hi - 1);
    var out, base := RowsOf(Tagged(lens)[first..last + 1]), c.Span(first, rows).0;
    RangeParts(c, rows, lens, lo, hi, got);
    OutLen(lens, first, last);
    if LensMatch(c, rows, lens, first, last) {
      forall i | 0 <= i < |got| ensures RightRow(c, rows, lo + i, got[i]) {
        MatchedRangeIsRight(c, rows, lens, lo, hi, first, last, lo + i);
        assert got[i] == out[lo + i - base];
      }
    } else {
      var b := FirstOff(c, rows, lens, first, last);
      var p := ShortBlockShows(c, rows, lens, lo, hi, first, last, b);
      assert got[p - lo] == out[p - base];
      assert !RightRow(c, rows, p, got[p - lo]);
    }
  }

  /** What a successful range read cut its answer from. */
  lemma RangeParts(c: Cut, rows: nat, lens: seq<nat>, lo: int, hi: int, got: seq<(int, int)>)
    requires c.Shape(rows) && |lens| == c.Blocks() && 0 <= lo < hi
    requires ReadRange(Blocked(c, rows, Tagged(lens)), lo, hi) == Ok(got)
    ensures var first, last := c.BlockAt(lo), c.BlockAt(hi - 1);
            && 0 <= first <= last < |lens| && 0 <= c.Span(first, rows).0 <= lo
            && var out, base := RowsOf(Tagged(lens)[first..last + 1]), c.Span(first, rows).0;
            && hi - base <= |out| && got == out[lo - base..hi - base]
  {
    hide RowsOf; hide Tagged; hide Cut.Span; hide Cut.BlockAt;
    var col := Blocked(c, rows, Tagged(lens));
    BlockAtNeeds(col);
    RangeIs(col, lo, hi, c.BlockAt(lo), c.BlockAt(hi - 1));
  }

  /**
   How it goes wrong: two blocks of two rows whose streams hold one and three. The whole-column decode
   refuses the column; the range read answers, with block 1's first row in place of row 1.
   */
  lemma RangeShifts()
    ensures var c := Blocked(Fixed(2, 2), 4, Tagged([1, 3]));
            && c.Shape() && !Decodes(c, 2)
            && ReadRange(c, 0, 3) == Ok([(0, 0), (1, 0), (1, 1)])
  {
    var lens: seq<nat> := [1, 3];
    var bs := Tagged(lens);
    var c := Blocked(Fixed(2, 2), 4, bs);
    assert bs[0] == Ok(TagRows(0, 1)) && bs[1] == Ok(TagRows(1, 3));
    assert TagRows(0, 1) == [(0, 0)] && TagRows(1, 3) == [(1, 0), (1, 1), (1, 2)];
    assert bs[0..2] == bs && bs[..1] == [bs[0]];
    RowsOfOne(bs[0]);
    assert RowsOf(bs) == [(0, 0), (1, 0), (1, 1), (1, 2)];
    assert AllOk(bs[0..2]);
    assert c.cut.BlockAt(0) == 0 && c.cut.BlockAt(2) == 1;
    assert c.Base(0) == 0 && c.Hi(0) == 2;
    assert !DecodesAt(c, 0);
    assert RowsOf(bs)[0..3] == [(0, 0), (1, 0), (1, 1)];
  }

  // ------------------------------------------------------------ row by row

  class Cursor<T(0)> {
    const col: Blocked<T>
    const checked: bool
    var blk: int
    var ready: bool
    var cur: seq<T>
    var at: nat
    var pos: nat

    ghost predicate Valid()
      reads this
    {
      -1 <= blk && at <= |cur|
    }

    /** The rows yielded so far are the column's first pos. */
    ghost predicate Tracks()
      reads this
    {
      && Valid() && col.Wf() && blk <= |col.blocks|
      && (!ready ==> blk == -1 && pos == 0)
      && (ready && blk < |col.blocks| ==> blk >= 0 && col.blocks[blk] == Ok(cur) && pos == |RowsOf(col.blocks[..blk])| + at)
      && (ready && blk == |col.blocks| ==> at == |cur| && pos == col.rows)
    }

    constructor (col: Blocked<T>, checked: bool)
      ensures Valid() && this.col == col && this.checked == checked && pos == 0 && (col.Wf() ==> Tracks())
    {
      this.col, this.checked := col, checked;
      blk, ready, cur, at, pos := -1, false, [], 0, 0;
    }

    /** The next row, or an error at the end and at a block that cannot be ready. */
    method Next() returns (r: Result<T>)
      requires Valid()
      modifies this
      ensures Valid()
      ensures r.Ok? ==> pos == old(pos) + 1
      ensures r.Err? ==> pos == old(pos)
      ensures old(Tracks()) && old(pos) < col.rows ==>
                Tracks() && old(pos) < |RowsOf(col.blocks)| && r == Ok(RowsOf(col.blocks)[old(pos)])
      ensures old(Tracks()) && old(pos) >= col.rows ==> r.Err?
    {
      hide RowsOf; hide Blocked.Wf;
      while !ready || at >= |cur|
        invariant Valid() && pos == old(pos) && -1 <= blk
        invariant old(Tracks()) ==> (if ready || blk == -1 then Tracks() else false)
        decreases |col.blocks| - blk
      {
        var was := blk;
        blk := blk + 1;
        if blk >= |col.blocks| {
          if old(Tracks()) {
            AtEnd(col, was, ready, cur, at, pos);
          }
          return Err;
        }
        if old(Tracks()) {
          StepBlock(col, was, ready, cur, at, pos);
        }
        if col.blocks[blk].Err? {
          ready := false;
          return Err;
        }
        cur, at := col.blocks[blk].value, 0;
        if checked && |cur| != Max(col.Hi(blk) - col.Lo(blk), 0) {
          return Err;
        }
        ready := true;
      }
      if old(Tracks()) {
        RowHere(col, blk, cur, at);
      }
      r := Ok(cur[at]);
      at, pos := at + 1, pos + 1;
    }
  }

  /** Where a tracking cursor stands. */
  ghost predicate Stands<T>(col: Blocked<T>, blk: int, ready: bool, cur: seq<T>, at: nat, pos: nat) {
    && -1 <= blk <= |col.blocks| && at <= |cur|
    && (!ready ==> blk == -1 && pos == 0)
    && (ready && blk < |col.blocks| ==> blk >= 0 && col.blocks[blk] == Ok(cur) && pos == |RowsOf(col.blocks[..blk])| + at)
    && (ready && blk == |col.blocks| ==> at == |cur| && pos == col.rows)
  }

  lemma StepBlock<T>(col: Blocked<T>, blk: int, ready: bool, cur: seq<T>, at: nat, pos: nat)
    requires col.Wf() && Stands(col, blk, ready, cur, at, pos) && (!ready || at >= |cur|) && blk + 1 < |col.blocks|
    ensures col.blocks[blk + 1].Ok? && |col.blocks[blk + 1].value| == col.Hi(blk + 1) - col.Lo(blk + 1) && col.Hi(blk + 1) >= col.Lo(blk + 1)
    ensures pos == |RowsOf(col.blocks[..blk + 1])|
  {
    assert col.Placed(blk + 1);
    SpansPartition(col.cut, col.rows, blk + 1);
    if ready {
      RowsOfSnoc(col.blocks, blk);
    }
  }

  lemma AtEnd<T>(col: Blocked<T>, blk: int, ready: bool, cur: seq<T>, at: nat, pos: nat)
    requires col.Wf() && Stands(col, blk, ready, cur, at, pos) && (!ready || at >= |cur|) && blk + 1 >= |col.blocks|
    ensures pos == col.rows
  {
    PrefixFills(col, |col.blocks|);
    if ready && blk < |col.blocks| {
      RowsOfSnoc(col.blocks, blk);
    } else if !ready {
      assert col.blocks[..0] == [];
    }
  }

  lemma RowHere<T>(col: Blocked<T>, blk: int, cur: seq<T>, at: nat)
    requires col.Wf() && 0 <= blk < |col.blocks| && col.blocks[blk] == Ok(cur) && at < |cur|
    ensures var p := |RowsOf(col.blocks[..blk])| + at; p < |RowsOf(col.blocks)| == col.rows && RowsOf(col.blocks)[p] == cur[at]
  {
    hide RowsOf;
    WholeDecodes(col);
    RowOfBlock(col.blocks, blk, at);
  }
}
