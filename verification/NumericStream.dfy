/**
 Numeric columns streamed in batches of any size: the granules, the marks index and the float groups'
 ends come out as if the whole column had been cut at once.
 */
module NumericStream {
  import opened Chunking

  // ------------------------------------------------------------ marks

  /** A mark: a granule's first row and its key range. */
  datatype Mark = Mark(firstRow: nat, minKey: int, maxKey: int)

  function MinKey(vals: seq<int>): int
    requires vals != []
  {
    if |vals| == 1 then vals[0] else Min(MinKey(vals[..|vals| - 1]), vals[|vals| - 1])
  }

  function MaxKey(vals: seq<int>): int
    requires vals != []
  {
    if |vals| == 1 then vals[0] else Max(MaxKey(vals[..|vals| - 1]), vals[|vals| - 1])
  }

  lemma {:induction false} KeyBounds(vals: seq<int>, i: nat)
    requires i < |vals|
    ensures MinKey(vals) <= vals[i] <= MaxKey(vals)
  {
    if i < |vals| - 1 {
      KeyBounds(vals[..|vals| - 1], i);
    }
  }

  lemma {:induction false} KeyBoundsTight(vals: seq<int>)
    requires vals != []
    ensures MinKey(vals) in vals && MaxKey(vals) in vals
  {
    if |vals| > 1 {
      KeyBoundsTight(vals[..|vals| - 1]);
    }
  }

  method KeyRange(vals: seq<int>) returns (lo: int, hi: int)
    requires vals != []
    ensures lo == MinKey(vals) && hi == MaxKey(vals)
  {
    lo, hi := vals[0], vals[0];
    assert vals[..1] == [vals[0]];
    for i := 1 to |vals|
      invariant lo == MinKey(vals[..i]) && hi == MaxKey(vals[..i])
    {
      assert vals[..i + 1][..i] == vals[..i];
      lo, hi := Min(lo, vals[i]), Max(hi, vals[i]);
    }
    assert vals[..|vals|] == vals;
  }

  /** The marks of a column cut into chunks, its first row at first. */
  function MarksOf(chunks: seq<seq<int>>, first: nat): seq<Mark>
    requires forall i :: 0 <= i < |chunks| ==> chunks[i] != []
  {
    if chunks == [] then []
    else [Mark(first, MinKey(chunks[0]), MaxKey(chunks[0]))] + MarksOf(chunks[1..], first + |chunks[0]|)
  }

  lemma {:induction false} ChunksNonEmpty<T>(rows: seq<T>, size: nat)
    requires size > 0
    ensures forall i :: 0 <= i < |Chunks(rows, size)| ==> Chunks(rows, size)[i] != []
    decreases |rows|
  {
    if |rows| > size {
      ChunksNonEmpty(rows[size..], size);
    }
  }

  ghost predicate NonEmptyAll<T>(chunks: seq<seq<T>>) { forall i :: 0 <= i < |chunks| ==> chunks[i] != [] }

  lemma MarksHead(chunks: seq<seq<int>>, first: nat)
    requires NonEmptyAll(chunks) && chunks != []
    ensures NonEmptyAll(chunks[1..])
    ensures MarksOf(chunks, first) == [Mark(first, MinKey(chunks[0]), MaxKey(chunks[0]))] + MarksOf(chunks[1..], first + |chunks[0]|)
  {
    hide MinKey; hide MaxKey;
  }

  lemma OneMark(c: seq<int>, first: nat)
    requires c != []
    ensures MarksOf([c], first) == [Mark(first, MinKey(c), MaxKey(c))] && MarksOf([], first) == []
  {
    hide MinKey; hide MaxKey;
    MarksHead([c], first);
    assert [c][1..] == [];
  }

  lemma {:induction false} MarksSnoc(chunks: seq<seq<int>>, c: seq<int>, first: nat)
    requires NonEmptyAll(chunks) && c != []
    ensures NonEmptyAll(chunks + [c])
    ensures MarksOf(chunks + [c], first) == MarksOf(chunks, first) + [Mark(first + |Flatten(chunks)|, MinKey(c), MaxKey(c))]
    decreases chunks
  {
    hide MarksOf; hide MinKey; hide MaxKey;
    assert NonEmptyAll(chunks + [c]);
    if chunks == [] {
      assert chunks + [c] == [c];
      OneMark(c, first);
    } else {
      MarksHead(chunks, first);
      MarksHead(chunks + [c], first);
      MarksSnoc(chunks[1..], c, first + |chunks[0]|);
      assert (chunks + [c])[1..] == chunks[1..] + [c];
    }
  }

  /** Mark k stands for chunk k. */
  lemma {:induction false} MarkAt(chunks: seq<seq<int>>, first: nat, k: nat)
    requires NonEmptyAll(chunks) && k < |chunks|
    ensures |MarksOf(chunks, first)| == |chunks|
    ensures MarksOf(chunks, first)[k] == Mark(first + |Flatten(chunks[..k])|, MinKey(chunks[k]), MaxKey(chunks[k]))
    decreases chunks
  {
    if k > 0 {
      MarkAt(chunks[1..], first + |chunks[0]|, k - 1);
      assert chunks[..k][1..] == chunks[1..][..k - 1];
    } else if |chunks| > 1 {
      MarkAt(chunks[1..], first + |chunks[0]|, 0);
    }
  }

  /** The index over a whole key column. */
  method BuildMarks(keys: seq<int>, size: nat) returns (marks: seq<Mark>)
    requires size > 0
    ensures NonEmptyAll(Chunks(keys, size)) && marks == MarksOf(Chunks(keys, size), 0)
  {
    hide Chunks; hide MinKey; hide MaxKey; hide MarksOf;
    ghost var chunks := Chunks(keys, size);
    ChunksNonEmpty(keys, size);
    var start := 0;
    ghost var k := 0;
    marks := [];
    ChunkCount(keys, size);
    NoMarks();
    assert chunks[..0] == [];
    while start < |keys|
      invariant 0 <= k <= |chunks| && start == k * size && (start < |keys| ==> k < |chunks|)
      invariant (start >= |keys|) ==> k == |chunks|
      invariant marks == MarksOf(chunks[..k], 0)
      decreases |keys| - start
    {
      var end := Min(start + size, |keys|);
      ChunkAt(keys, size, k);
      var lo, hi := KeyRange(keys[start..end]);
      FlatPrefix(keys, size, k);
      MarksSnoc(chunks[..k], chunks[k], 0);
      assert chunks[..k] + [chunks[k]] == chunks[..k + 1];
      marks := marks + [Mark(start, lo, hi)];
      CountPast(|keys|, size, k);
      start, k := start + size, k + 1;
    }
    assert chunks[..|chunks|] == chunks;
    if keys == [] {
      CountPast(0, size, 0);
    }
  }

  lemma NoMarks()
    ensures MarksOf([], 0) == []
  {
  }

  lemma CountPast(n: nat, size: nat, k: nat)
    requires size > 0 && (k * size < n || (n == 0 && k == 0))
    ensures k * size + size == (k + 1) * size
    ensures n > 0 ==> ((k + 1) * size < n <==> k + 1 < (n + size - 1) / size)
    ensures n > 0 && (k + 1) * size >= n ==> k + 1 == (n + size - 1) / size
    ensures n == 0 ==> (n + size - 1) / size == 0
  {
    var q, r := (n + size - 1) / size, (n + size - 1) % size;
    assert n + size - 1 == q * size + r;
    assert (k + 1) * size == k * size + size;
    if n == 0 {
      DivBelow(size - 1, size);
    } else {
      assert (k + 2) * size == k * size + size + size;
      if k + 1 < q {
        MulOrder(k + 2, q, size);
      } else if k + 1 > q {
        MulOrder(q, k, size);
      }
    }
  }

  /** The chunks before k hold the first k * size rows. */
  lemma {:induction false} FlatPrefix<T>(rows: seq<T>, size: nat, k: nat)
    requires size > 0 && k * size < |rows|
    ensures k < |Chunks(rows, size)| && |Flatten(Chunks(rows, size)[..k])| == k * size
    decreases k
  {
    ChunkAt(rows, size, k);
    if k > 0 {
      assert k * size == (k - 1) * size + size;
      FlatPrefix(rows, size, k - 1);
      ChunkAt(rows, size, k - 1);
      var c := Chunks(rows, size);
      assert c[..k] == c[..k - 1] + [c[k - 1]];
      FlattenSnoc(c[..k - 1], c[k - 1]);
    }
  }

  /** A granule's key range meets the window. */
  predicate Meets(m: Mark, lo: int, hi: int) { m.maxKey >= lo && m.minKey <= hi }

  /** out is the marks at those places, which are every place that meets the window, in order. */
  ghost predicate Selects(out: seq<Mark>, places: seq<nat>, marks: seq<Mark>, lo: int, hi: int) {
    && |out| == |places| && (forall i, j :: 0 <= i < j < |places| ==> places[i] < places[j])
    && (forall i :: 0 <= i < |places| ==> places[i] < |marks| && Meets(marks[places[i]], lo, hi) && out[i] == marks[places[i]])
    && (forall k :: 0 <= k < |marks| && Meets(marks[k], lo, hi) ==> k in places)
  }

  /** Granules whose key range meets the window: every one of them, once, in order. */
  method Overlapping(marks: seq<Mark>, lo: int, hi: int) returns (out: seq<Mark>)
    ensures exists places :: Selects(out, places, marks, lo, hi)
  {
    out := [];
    ghost var places: seq<nat> := [];
    for i := 0 to |marks|
      invariant Selects(out, places, marks[..i], lo, hi)
    {
      ghost var was := marks[..i];
      assert marks[..i + 1] == was + [marks[i]];
      if marks[i].maxKey >= lo && marks[i].minKey <= hi {
        out, places := out + [marks[i]], places + [i];
      }
    }
    assert marks[..|marks|] == marks;
  }

  /** Pruning loses nothing: a row whose key is in the window has its granule's mark meet the window. */
  lemma PruneKeepsRows(keys: seq<int>, size: nat, p: nat, lo: int, hi: int)
    requires size > 0 && p < |keys| && lo <= keys[p] <= hi && NonEmptyAll(Chunks(keys, size))
    ensures p / size < |MarksOf(Chunks(keys, size), 0)|
    ensures var m := MarksOf(Chunks(keys, size), 0)[p / size];
            m.firstRow <= p < m.firstRow + size && Meets(m, lo, hi)
  {
    hide Chunks; hide MarksOf; hide MinKey; hide MaxKey; hide Flatten;
    var k := p / size;
    DivBounds(p, size);
    var chunks, r := Chunks(keys, size), p - k * size;
    ChunkAt(keys, size, k);
    FlatPrefix(keys, size, k);
    MarkAt(chunks, 0, k);
    assert chunks[k][r] == keys[p];
    KeyBounds(chunks[k], r);
  }

  // ------------------------------------------------------------ an int64 column

  ghost predicate AllFull<T>(c: seq<seq<T>>, size: nat) { forall i :: 0 <= i < |c| ==> |c[i]| == size }

  /** Rows flushed as full granules and rows still staged make up the column. */
  ghost predicate Streamed<T>(all: seq<T>, out: seq<seq<T>>, stage: seq<T>, encoded: nat, size: nat) {
    size > 0 && AllFull(out, size) && all == Flatten(out) + stage && encoded == |Flatten(out)|
  }

  lemma StreamedStage<T>(all: seq<T>, out: seq<seq<T>>, stage: seq<T>, encoded: nat, size: nat, vals: seq<T>)
    requires Streamed(all, out, stage, encoded, size)
    ensures Streamed(all + vals, out, stage + vals, encoded, size)
  {
    Assoc(Flatten(out), stage, vals);
  }

  lemma StreamedFlush<T>(all: seq<T>, out: seq<seq<T>>, stage: seq<T>, encoded: nat, size: nat)
    requires Streamed(all, out, stage, encoded, size) && |stage| >= size
    ensures Streamed(all, out + [stage[..size]], stage[size..], encoded + size, size)
  {
    FlattenSnoc(out, stage[..size]);
    assert stage == stage[..size] + stage[size..];
    Assoc(Flatten(out), stage[..size], stage[size..]);
  }

  class Int64Column {
    const granuleSize: nat
    var rows: nat
    var encoded: nat
    var stage: seq<int>
    var out: seq<seq<int>>
    var marks: seq<Mark>
    var minKey: int
    var maxKey: int
    var haveStats: bool
    ghost var all: seq<int>

    ghost predicate Valid()
      reads this
    {
      && Streamed(all, out, stage, encoded, granuleSize) && rows == |all|
      && NonEmptyAll(out) && marks == MarksOf(out, 0)
      && (haveStats <==> all != []) && (haveStats ==> minKey == MinKey(all) && maxKey == MaxKey(all))
    }

    constructor (granuleSize: nat)
      requires granuleSize > 0
      ensures Valid() && all == [] && stage == [] && this.granuleSize == granuleSize
    {
      this.granuleSize := granuleSize;
      rows, encoded, stage, out, marks := 0, 0, [], [], [];
      minKey, maxKey, haveStats, all := 0, 0, false, [];
    }

    /** Folds a batch into the running key range. */
    method Track(vals: seq<int>)
      requires haveStats <==> all != []
      requires haveStats ==> minKey == MinKey(all) && maxKey == MaxKey(all)
      modifies this`minKey, this`maxKey, this`haveStats
      ensures haveStats <==> all + vals != []
      ensures haveStats ==> minKey == MinKey(all + vals) && maxKey == MaxKey(all + vals)
    {
      assert all + vals[..0] == all;
      for i := 0 to |vals|
        invariant haveStats <==> all + vals[..i] != []
        invariant haveStats ==> minKey == MinKey(all + vals[..i]) && maxKey == MaxKey(all + vals[..i])
      {
        ghost var now := all + vals[..i + 1];
        assert now[..|now| - 1] == all + vals[..i] && now[|now| - 1] == vals[i];
        if !haveStats {
          minKey, maxKey, haveStats := vals[i], vals[i], true;
        } else {
          minKey, maxKey := Min(minKey, vals[i]), Max(maxKey, vals[i]);
        }
      }
      assert vals[..|vals|] == vals;
    }

    method FlushGranule(vals: seq<int>)
      requires vals != [] && NonEmptyAll(out) && marks == MarksOf(out, 0) && encoded == |Flatten(out)|
      modifies this`out, this`marks, this`encoded
      ensures out == old(out) + [vals] && NonEmptyAll(out) && marks == MarksOf(out, 0) && encoded == old(encoded) + |vals|
    {
      hide MarksOf; hide MinKey; hide MaxKey; hide Flatten;
      var lo, hi := KeyRange(vals);
      MarksSnoc(out, vals, 0);
      marks := marks + [Mark(encoded, lo, hi)];
      encoded := encoded + |vals|;
      out := out + [vals];
    }

    /** Appends a batch: every granule it completes is flushed, what is left stays staged. */
    method Append(vals: seq<int>)
      requires Valid()
      modifies this
      ensures Valid() && all == old(all) + vals && |stage| < granuleSize
    {
      hide MarksOf; hide MinKey; hide MaxKey; hide Flatten; hide Streamed;
      assert granuleSize > 0 by { SizePositive(all, out, stage, encoded, granuleSize); }
      Track(vals);
      StreamedStage(all, out, stage, encoded, granuleSize, vals);
      all := all + vals;
      stage := stage + vals;
      rows := rows + |vals|;
      var off := 0;
      assert stage[0..] == stage;
      while |stage| - off >= granuleSize
        invariant 0 <= off <= |stage| && Streamed(all, out, stage[off..], encoded, granuleSize)
        invariant NonEmptyAll(out) && marks == MarksOf(out, 0) && rows == |all| && all == old(all) + vals
        invariant (haveStats <==> all != []) && (haveStats ==> minKey == MinKey(all) && maxKey == MaxKey(all))
        decreases |stage| - off
      {
        StreamedFlush(all, out, stage[off..], encoded, granuleSize);
        EncodedIs(all, out, stage[off..], encoded, granuleSize);
        assert stage[off..][..granuleSize] == stage[off..off + granuleSize] && stage[off..][granuleSize..] == stage[off + granuleSize..];
        FlushGranule(stage[off..off + granuleSize]);
        off := off + granuleSize;
      }
      if off > 0 {
        stage := stage[off..];
      }
    }

    /** Flushes the last, short granule: the column is then exactly its fixed-size cut. */
    method Finish()
      requires Valid() && |stage| < granuleSize
      modifies this
      ensures all == old(all) && granuleSize > 0 && out == Chunks(all, granuleSize)
      ensures NonEmptyAll(out) && marks == MarksOf(Chunks(all, granuleSize), 0)
    {
      hide MarksOf; hide MinKey; hide MaxKey; hide Chunks; hide Flatten;
      ChunksOfFull(out, stage, granuleSize);
      if |stage| > 0 {
        FlushGranule(stage);
        stage := [];
      }
    }
  }

  lemma SizePositive<T>(all: seq<T>, out: seq<seq<T>>, stage: seq<T>, encoded: nat, size: nat)
    requires Streamed(all, out, stage, encoded, size)
    ensures size > 0
  {
  }

  lemma EncodedIs<T>(all: seq<T>, out: seq<seq<T>>, stage: seq<T>, encoded: nat, size: nat)
    requires Streamed(all, out, stage, encoded, size)
    ensures encoded == |Flatten(out)|
  {
  }

  /**
   Batching independence: however a key column is split into appends, its granules are the fixed-size
   cut of the whole and its marks are the ones built over the whole.
   */
  method StreamInt64(batches: seq<seq<int>>, size: nat) returns (out: seq<seq<int>>, marks: seq<Mark>)
    requires size > 0
    ensures out == Chunks(Flatten(batches), size)
    ensures NonEmptyAll(out) && marks == MarksOf(Chunks(Flatten(batches), size), 0)
  {
    hide MarksOf; hide Chunks; hide Flatten; hide Int64Column.Valid;
    var c := new Int64Column(size);
    assert batches[..0] == [];
    FlattenNil<int>();
    for i := 0 to |batches|
      invariant c.Valid() && c.granuleSize == size && |c.stage| < size && fresh(c)
      invariant c.all == Flatten(batches[..i])
    {
      c.Append(batches[i]);
      FlattenSnoc(batches[..i], batches[i]);
      assert batches[..i] + [batches[i]] == batches[..i + 1];
    }
    assert batches[..|batches|] == batches;
    c.Finish();
    out, marks := c.out, c.marks;
  }
}
