/**
 The decoders of a blocked column: the whole of it, chosen blocks in place, a row range, and a cursor.
 Over a well-formed column they all give the same rows.
 */
module BlockDecode {
  import opened Wire
  import opened Chunking
  import opened RowSpans

  /** A column to decode: its cut, its rows, and what each block's stream decodes to. */
  datatype Blocked<T> = Blocked(cut: Cut, rows: nat, blocks: seq<Result<seq<T>>>) {
    ghost predicate Shape() { cut.Shape(rows) && |blocks| == cut.Blocks() }

    function Lo(b: int): int { cut.Span(b, rows).0 }

    function Hi(b: int): int { cut.Span(b, rows).1 }

    /** Where the whole-column walk stands before block b. */
    function Base(b: nat): int { if b == 0 then 0 else Hi(b - 1) }

    /** Block b decodes to exactly the rows the directory places there. */
    predicate Placed(b: nat)
      requires b < |blocks|
    {
      Lo(b) < rows && blocks[b].Ok? && |blocks[b].value| == Hi(b) - Lo(b)
    }

    ghost predicate AllPlaced() { forall b :: 0 <= b < |blocks| ==> Placed(b) }

    ghost predicate Wf() { cut.Wf(rows) && |blocks| == cut.Blocks() && AllPlaced() }
  }

  function RowsOf<T>(bs: seq<Result<seq<T>>>): seq<T> {
    if bs == [] then [] else RowsOf(bs[..|bs| - 1]) + if bs[|bs| - 1].Ok? then bs[|bs| - 1].value else []
  }

  lemma {:induction false} RowsOfConcat<T>(a: seq<Result<seq<T>>>, b: seq<Result<seq<T>>>)
    ensures RowsOf(a + b) == RowsOf(a) + RowsOf(b)
  {
    if b == [] {
      assert a + b == a;
    } else {
      var n := |b| - 1;
      RowsOfConcat(a, b[..n]);
      assert (a + b)[..|a + b| - 1] == a + b[..n];
    }
  }

  /** A well-formed column's blocks fill its rows span by span. */
  lemma {:induction false} PrefixFills<T>(c: Blocked<T>, k: nat)
    requires c.Wf() && k <= |c.blocks|
    ensures |RowsOf(c.blocks[..k])| == c.Base(k) && (k == |c.blocks| ==> c.Base(k) == c.rows)
  {
    if k > 0 {
      SpansPartition(c.cut, c.rows, k - 1);
      assert c.blocks[..k][..k - 1] == c.blocks[..k - 1];
      assert c.Placed(k - 1);
      PrefixFills(c, k - 1);
      if k > 1 {
        SpansPartition(c.cut, c.rows, k - 2);
      }
    } else if c.cut.Fixed? {
      CeilCovers(c.rows, c.cut.blockRows, c.cut.n);
    }
  }

  /** Row p of a well-formed column is the row its own block holds there. */
  lemma RowAtBlock<T>(c: Blocked<T>, b: nat, p: int)
    requires c.Wf() && b < |c.blocks| && c.Lo(b) <= p < c.Hi(b)
    ensures c.Placed(b) && 0 <= p < |RowsOf(c.blocks)| == c.rows
    ensures RowsOf(c.blocks)[p] == c.blocks[b].value[p - c.Lo(b)]
  {
    hide RowsOf;
    assert c.Placed(b);
    SpansPartition(c.cut, c.rows, b);
    if b > 0 {
      SpansPartition(c.cut, c.rows, b - 1);
    }
    PrefixFills(c, b);
    PrefixFills(c, |c.blocks|);
    assert c.blocks[..|c.blocks|] == c.blocks;
    var rest := c.blocks[b + 1..];
    assert c.blocks == c.blocks[..b] + ([c.blocks[b]] + rest);
    RowsOfConcat(c.blocks[..b], [c.blocks[b]] + rest);
    RowsOfConcat([c.blocks[b]], rest);
    RowsOfOne(c.blocks[b]);
  }

  lemma RowsOfOne<T>(r: Result<seq<T>>)
    requires r.Ok?
    ensures RowsOf([r]) == r.value
  {
    assert [r][..0] == [];
  }

  // ------------------------------------------------------------ the whole column

  method WriteRows<T>(out: array<T>, at: nat, rows: seq<T>)
    requires at + |rows| <= out.Length
    modifies out
    ensures out[..] == old(out[..at]) + rows + old(out[at + |rows|..])
  {
    for i := 0 to |rows|
      invariant forall p :: 0 <= p < out.Length ==> out[p] == if at <= p < at + i then rows[p - at] else old(out[p])
    {
      out[at + i] := rows[i];
    }
  }

  /** Nothing in the first k blocks keeps a whole-column decode from succeeding. */
  ghost predicate Decodes<T>(c: Blocked<T>, k: nat)
    requires k <= |c.blocks|
  {
    forall b :: 0 <= b < k ==> DecodesAt(c, b)
  }

  predicate DecodesAt<T>(c: Blocked<T>, b: nat)
    requires b < |c.blocks|
  {
    c.Base(b) < c.rows && c.blocks[b].Ok? && |c.blocks[b].value| == c.Hi(b) - c.Base(b)
  }

  /** Decodes every block into its row span of out; how many rows that came to. */
  method DecodeColumn<T>(c: Blocked<T>, out: array<T>) returns (r: Result<nat>)
    requires c.Shape() && out.Length == c.rows
    modifies out
    ensures r.Ok? <==> Decodes(c, |c.blocks|)
    ensures r.Ok? ==> r.value <= out.Length && out[..r.value] == RowsOf(c.blocks)
  {
    hide RowsOf; hide Cut.Span;
    var base := 0;
    NoRows<T>();
    for i := 0 to |c.blocks|
      invariant 0 <= base <= c.rows && base == c.Base(i)
      invariant Decodes(c, i)
      invariant out[..base] == RowsOf(c.blocks[..i])
    {
      if c.blocks[i].Err? || base >= c.rows {
        assert !DecodesAt(c, i);
        return Err;
      }
      var end := c.Hi(i);
      var want := end - base;
      var sub := c.blocks[i].value;
      if |sub| != want {
        assert !DecodesAt(c, i);
        return Err;
      }
      EndWithin(c, i);
      ghost var before := out[..base];
      WriteRows(out, base, sub);
      assert out[..base + |sub|] == before + sub;
      RowsOfSnoc(c.blocks, i);
      base := base + |sub|;
    }
    assert c.blocks[..|c.blocks|] == c.blocks;
    r := Ok(base);
  }

  lemma NoRows<T>()
    ensures RowsOf<T>([]) == []
  {
  }

  lemma RowsOfSnoc<T>(bs: seq<Result<seq<T>>>, i: nat)
    requires i < |bs| && bs[i].Ok?
    ensures RowsOf(bs[..i + 1]) == RowsOf(bs[..i]) + bs[i].value
  {
    assert bs[..i + 1][..i] == bs[..i];
  }

  lemma EndWithin<T>(c: Blocked<T>, b: nat)
    requires c.Shape() && b < |c.blocks|
    ensures c.Hi(b) <= c.rows
  {
  }

  /** A well-formed column decodes whole, to all its rows. */
  lemma WholeDecodes<T>(c: Blocked<T>)
    requires c.Wf()
    ensures c.Shape() && Decodes(c, |c.blocks|) && |RowsOf(c.blocks)| == c.rows
  {
    hide RowsOf;
    PrefixFills(c, |c.blocks|);
    assert c.blocks[..|c.blocks|] == c.blocks;
    forall b | 0 <= b < |c.blocks| ensures DecodesAt(c, b) {
      BaseIsLo(c, b);
      assert c.Placed(b);
    }
  }

  lemma BaseIsLo<T>(c: Blocked<T>, b: nat)
    requires c.Wf() && b < |c.blocks|
    ensures c.Base(b) == c.Lo(b)
  {
    SpansPartition(c.cut, c.rows, b);
    if b > 0 {
      SpansPartition(c.cut, c.rows, b - 1);
    }
  }

  // ------------------------------------------------------------ chosen blocks

  ghost predicate Chosen<T>(c: Blocked<T>, blocks: seq<int>, b: int) {
    b in blocks && 0 <= b < |c.blocks|
  }

  /** What out holds once blocks have been decoded into it. */
  ghost predicate Filled<T>(c: Blocked<T>, blocks: seq<int>, before: seq<T>, after: seq<T>) {
    && |after| == |before| == c.rows
    && (forall b :: Chosen(c, blocks, b) ==> InSpan(c, b, after))
    && (forall p :: 0 <= p < c.rows && !Touched(c, blocks, p) ==> after[p] == before[p])
  }

  /** Block b's rows sit at its own span. */
  ghost predicate InSpan<T>(c: Blocked<T>, b: nat, after: seq<T>)
    requires b < |c.blocks|
  {
    && c.Placed(b) && 0 <= c.Lo(b) && c.Hi(b) <= |after|
    && forall p :: c.Lo(b) <= p < c.Hi(b) ==> after[p] == c.blocks[b].value[p - c.Lo(b)]
  }

  ghost predicate Touched<T>(c: Blocked<T>, blocks: seq<int>, p: int) {
    exists b :: Chosen(c, blocks, b) && c.Lo(b) <= p < c.Hi(b)
  }

  ghost predicate Selectable<T>(c: Blocked<T>, blocks: seq<int>) {
    forall i :: 0 <= i < |blocks| ==> 0 <= blocks[i] < |c.blocks| && c.Placed(blocks[i])
  }

  /** Decodes the given blocks into their row spans of out, leaving every other row alone. */
  method DecodeBlocksInto<T>(c: Blocked<T>, blocks: seq<int>, out: array<T>) returns (r: Result<()>)
    requires c.Shape() && out.Length == c.rows
    modifies out
    ensures r.Ok? <==> Selectable(c, blocks)
    ensures r.Ok? ==> Filled(c, blocks, old(out[..]), out[..])
  {
    hide Filled; hide Disjoint;
    ShapeDisjoint(c);
    assert blocks[..0] == [];
    FilledStart(c, out[..]);
    for i := 0 to |blocks|
      invariant Selectable(c, blocks[..i])
      invariant Filled(c, blocks[..i], old(out[..]), out[..])
    {
      var b := blocks[i];
      if b < 0 || b >= |c.blocks| {
        return Err;
      }
      var lo, hi := c.Lo(b), c.Hi(b);
      if lo >= c.rows || c.blocks[b].Err? || |c.blocks[b].value| != hi - lo {
        return Err;
      }
      ghost var was := out[..];
      SpanWithin(c, b);
      WriteRows(out, lo, c.blocks[b].value);
      FilledStep(c, blocks, i, old(out[..]), was, out[..]);
    }
    assert blocks[..|blocks|] == blocks;
    r := Ok(());
  }

  /** No two blocks share a row. */
  ghost predicate Disjoint<T>(c: Blocked<T>) {
    forall a, b :: 0 <= a < b < |c.blocks| ==> c.Hi(a) <= c.Lo(b)
  }

  /** True of every directory a parser lets through. */
  lemma ShapeDisjoint<T>(c: Blocked<T>)
    requires c.Shape()
    ensures Disjoint(c)
  {
    forall a, b | 0 <= a < b < |c.blocks| ensures c.Hi(a) <= c.Lo(b) {
      if c.cut.Fixed? {
        MulOrder(a + 1, b, c.cut.blockRows);
        assert (a + 1) * c.cut.blockRows == a * c.cut.blockRows + c.cut.blockRows;
      } else if a + 1 < b {
        assert c.cut.rowStarts[a + 1] < c.cut.rowStarts[b];
      }
    }
  }

  lemma SpanWithin<T>(c: Blocked<T>, b: nat)
    requires c.Shape() && b < |c.blocks|
    ensures 0 <= c.Lo(b) && c.Hi(b) <= c.rows
  {
  }

  lemma FilledStart<T>(c: Blocked<T>, s: seq<T>)
    requires |s| == c.rows
    ensures Filled(c, [], s, s)
  {
  }

  lemma FilledStep<T>(c: Blocked<T>, blocks: seq<int>, i: nat, before: seq<T>, was: seq<T>, now: seq<T>)
    requires c.Shape() && Disjoint(c) && i < |blocks| && Filled(c, blocks[..i], before, was)
    requires 0 <= blocks[i] < |c.blocks| && c.Placed(blocks[i]) && 0 <= c.Lo(blocks[i]) && c.Hi(blocks[i]) <= c.rows
    requires now == was[..c.Lo(blocks[i])] + c.blocks[blocks[i]].value + was[c.Hi(blocks[i])..]
    ensures Filled(c, blocks[..i + 1], before, now)
  {
    hide Blocked.Placed;
    var b := blocks[i];
    PlacedLen(c, b);
    assert forall p :: 0 <= p < c.rows ==> now[p] == if c.Lo(b) <= p < c.Hi(b) then c.blocks[b].value[p - c.Lo(b)] else was[p];
    assert blocks[..i + 1] == blocks[..i] + [b];
    forall x | Chosen(c, blocks[..i + 1], x) ensures InSpan(c, x, now) {
      if x != b {
        assert Chosen(c, blocks[..i], x);
        assert InSpan(c, x, was);
        KeepsSpan(c, x, b, was, now);
      }
    }
    forall p | 0 <= p < c.rows && !Touched(c, blocks[..i + 1], p) ensures now[p] == before[p] {
      NotTouched(c, blocks, i, p);
    }
  }

  /** Writing one block's span leaves another's alone. */
  lemma KeepsSpan<T>(c: Blocked<T>, x: nat, b: nat, was: seq<T>, now: seq<T>)
    requires Disjoint(c) && x < |c.blocks| && b < |c.blocks| && x != b && InSpan(c, x, was) && |was| == |now|
    requires forall p :: 0 <= p < |was| && !(c.Lo(b) <= p < c.Hi(b)) ==> now[p] == was[p]
    ensures InSpan(c, x, now)
  {
    hide Cut.Span;
    if x < b {
      assert c.Hi(x) <= c.Lo(b);
    } else {
      assert c.Hi(b) <= c.Lo(x);
    }
    forall p | c.Lo(x) <= p < c.Hi(x) ensures now[p] == c.blocks[x].value[p - c.Lo(x)] {
      assert was[p] == c.blocks[x].value[p - c.Lo(x)];
    }
  }

  lemma PlacedLen<T>(c: Blocked<T>, b: nat)
    requires b < |c.blocks| && c.Placed(b)
    ensures c.blocks[b].Ok? && |c.blocks[b].value| == c.Hi(b) - c.Lo(b)
  {
  }

  lemma NotTouched<T>(c: Blocked<T>, blocks: seq<int>, i: nat, p: int)
    requires i < |blocks| && 0 <= blocks[i] < |c.blocks| && !Touched(c, blocks[..i + 1], p)
    ensures !Touched(c, blocks[..i], p) && !(c.Lo(blocks[i]) <= p < c.Hi(blocks[i]))
  {
    assert blocks[..i + 1] == blocks[..i] + [blocks[i]];
    assert Chosen(c, blocks[..i + 1], blocks[i]);
    forall b | Chosen(c, blocks[..i], b) ensures !(c.Lo(b) <= p < c.Hi(b)) {
      var j :| 0 <= j < i && blocks[..i][j] == b;
      assert blocks[..i + 1][j] == b;
      assert Chosen(c, blocks[..i + 1], b);
    }
  }

  /** Over a well-formed column, a chosen row reads as the whole decode has it. */
  lemma ChosenIsWhole<T>(c: Blocked<T>, blocks: seq<int>, before: seq<T>, after: seq<T>, b: nat, p: int)
    requires c.Wf() && Filled(c, blocks, before, after) && Chosen(c, blocks, b) && c.Lo(b) <= p < c.Hi(b)
    ensures 0 <= p < |after| == |RowsOf(c.blocks)| && after[p] == RowsOf(c.blocks)[p]
  {
    hide RowsOf;
    assert InSpan(c, b, after);
    RowAtBlock(c, b, p);
  }
}
