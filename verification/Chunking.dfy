/** Cutting a column into fixed-size granules, the last one holding what is left. */
module Chunking {

  function Min(a: int, b: int): int { if a < b then a else b }

  function Max(a: int, b: int): int { if a < b then b else a }

  /** The part of an object a ranged read gets: clamped to its end, empty past it. */
  function ClampRange<T>(s: seq<T>, off: nat, n: nat): seq<T> {
    if off >= |s| then [] else s[off..off + Min(n, |s| - off)]
  }

  /** r is as much of [off,off+n) as there is of s. */
  ghost predicate RangeOf<T>(r: seq<T>, s: seq<T>, off: nat, n: nat) {
    && |r| <= n && (|r| < n ==> off + |r| >= |s|) && (r != [] ==> off + |r| <= |s|)
    && forall i :: 0 <= i < |r| && off + i < |s| ==> r[i] == s[off + i]
  }

  /** A clamped range is what there is of the range, and nothing else is. */
  lemma ClampIsRange<T>(s: seq<T>, off: nat, n: nat, r: seq<T>)
    ensures RangeOf(r, s, off, n) <==> r == ClampRange(s, off, n)
  {
    var c := ClampRange(s, off, n);
    if RangeOf(r, s, off, n) {
      assert |r| == |c|;
      forall i | 0 <= i < |r| ensures r[i] == c[i] {
        assert off + i < |s|;
      }
    }
  }

  /** Ranges side by side make up the range over both, wherever the object ends. */
  lemma ClampJoins<T>(s: seq<T>, off: nat, n: nat, m: nat)
    ensures ClampRange(s, off, n) + ClampRange(s, off + n, m) == ClampRange(s, off, n + m)
  {
  }

  /** Asking for more than there is gives all there is. */
  lemma ClampAll<T>(s: seq<T>, n: nat)
    requires n >= |s|
    ensures ClampRange(s, 0, n) == s
  {
  }

  lemma SliceSlice<T>(b: seq<T>, lo: nat, hi: nat, i: nat, j: nat)
    requires lo <= hi <= |b| && i <= j <= hi - lo
    ensures b[lo..hi][i..j] == b[lo + i..lo + j]
  {
    forall k | 0 <= k < j - i ensures b[lo..hi][i..j][k] == b[lo + i..lo + j][k] {
      assert b[lo..hi][i + k] == b[lo + i + k];
    }
  }

  lemma Assoc<T>(a: seq<T>, b: seq<T>, c: seq<T>)
    ensures a + b + c == a + (b + c)
  {
  }

  lemma DropPrefix<T>(a: seq<T>, b: seq<T>)
    ensures (a + b)[|a|..] == b
  {
  }

  function Flatten<T>(c: seq<seq<T>>): seq<T> {
    if c == [] then [] else c[0] + Flatten(c[1..])
  }

  lemma FlattenNil<T>()
    ensures Flatten<T>([]) == []
  {
  }

  lemma FlattenCons<T>(c: seq<seq<T>>)
    requires c != []
    ensures Flatten(c) == c[0] + Flatten(c[1..])
  {
  }

  lemma {:induction false} FlattenConcat<T>(a: seq<seq<T>>, b: seq<seq<T>>)
    ensures Flatten(a + b) == Flatten(a) + Flatten(b)
  {
    hide Flatten;
    if a == [] {
      assert a + b == b;
      FlattenNil<T>();
      assert [] + Flatten(b) == Flatten(b);
    } else {
      FlattenConcat(a[1..], b);
      assert (a + b)[0] == a[0] && (a + b)[1..] == a[1..] + b;
      FlattenCons(a);
      FlattenCons(a + b);
      Assoc(a[0], Flatten(a[1..]), Flatten(b));
    }
  }

  lemma FlattenSnoc<T>(c: seq<seq<T>>, x: seq<T>)
    ensures Flatten(c + [x]) == Flatten(c) + x
  {
    FlattenConcat(c, [x]);
    assert Flatten([x]) == x + Flatten([]);
  }

  function Chunks<T>(rows: seq<T>, size: nat): (c: seq<seq<T>>)
    requires size > 0
    decreases |rows|
  {
    if rows == [] then []
    else if |rows| <= size then [rows]
    else [rows[..size]] + Chunks(rows[size..], size)
  }

  lemma {:induction false} ChunksFlatten<T>(rows: seq<T>, size: nat)
    requires size > 0
    ensures Flatten(Chunks(rows, size)) == rows
    decreases |rows|
  {
    if |rows| > size {
      ChunksFlatten(rows[size..], size);
      var c := Chunks(rows, size);
      assert c[0] == rows[..size] && c[1..] == Chunks(rows[size..], size);
    } else if rows != [] {
      assert Flatten([rows]) == rows + Flatten([]);
    }
  }

  /** A column streamed as full granules and a short remainder is cut exactly there. */
  lemma {:induction false} ChunksOfFull<T>(c: seq<seq<T>>, tail: seq<T>, size: nat)
    requires size > 0 && |tail| < size
    requires forall i :: 0 <= i < |c| ==> |c[i]| == size
    ensures Chunks(Flatten(c) + tail, size) == if tail == [] then c else c + [tail]
  {
    var rows := Flatten(c) + tail;
    if c == [] {
      assert rows == tail;
    } else {
      var rest := Flatten(c[1..]) + tail;
      assert rows == c[0] + rest;
      ChunksOfFull(c[1..], tail, size);
      assert rows[..size] == c[0] && rows[size..] == rest;
      assert c == [c[0]] + c[1..];
      if rest == [] {
        assert rows == c[0] && c[1..] == [];
      }
    }
  }

  /** Granule i of a column is the row span [i*size, (i+1)*size), cut short at the column's end. */
  lemma {:induction false} ChunkAt<T>(rows: seq<T>, size: nat, i: nat)
    requires size > 0
    requires i * size < |rows|
    ensures i < |Chunks(rows, size)|
    ensures Chunks(rows, size)[i] == rows[i * size..Min(i * size + size, |rows|)]
    decreases i
  {
    hide Chunks;
    if i == 0 {
      FirstChunk(rows, size);
    } else {
      assert i * size == (i - 1) * size + size;
      MulOrder(0, i - 1, size);
      ChunkAt(rows[size..], size, i - 1);
      LaterChunks(rows, size);
      var lo, hi := (i - 1) * size, Min((i - 1) * size + size, |rows| - size);
      SliceSlice(rows, size, |rows|, lo, hi);
    }
  }

  lemma FirstChunk<T>(rows: seq<T>, size: nat)
    requires size > 0 && rows != []
    ensures Chunks(rows, size) != [] && Chunks(rows, size)[0] == rows[..Min(size, |rows|)]
  {
  }

  lemma LaterChunks<T>(rows: seq<T>, size: nat)
    requires 0 < size < |rows|
    ensures Chunks(rows, size) == [rows[..size]] + Chunks(rows[size..], size)
  {
  }

  /** Granule g of a cut column, by number. */
  lemma ChunkNumber<T>(rows: seq<T>, size: nat, g: nat)
    requires size > 0 && g < |Chunks(rows, size)|
    ensures g * size < |rows| && Chunks(rows, size)[g] == rows[g * size..Min(g * size + size, |rows|)]
  {
    hide Chunks;
    ChunkCount(rows, size);
    CeilCovers(|rows|, size, |Chunks(rows, size)|);
    MulOrder(g, |Chunks(rows, size)| - 1, size);
    ChunkAt(rows, size, g);
  }

  lemma CeilCovers(rows: nat, k: nat, n: nat)
    requires k > 0 && n == (rows + k - 1) / k
    ensures n * k >= rows && (n > 0 ==> (n - 1) * k < rows)
  {
    var q := (rows + k - 1) % k;
    assert rows + k - 1 == n * k + q;
    assert (n - 1) * k == n * k - k;
  }

  lemma {:induction false} ChunkCount<T>(rows: seq<T>, size: nat)
    requires size > 0
    ensures |Chunks(rows, size)| == (|rows| + size - 1) / size
    decreases |rows|
  {
    var n := |rows|;
    if n > size {
      ChunkCount(rows[size..], size);
      DivStep(n - 1, size);
    } else if n > 0 {
      DivSmall(n - 1, size);
    } else {
      DivBelow(size - 1, size);
    }
  }

  lemma MulGrows(k: int, d: nat)
    requires k >= 1
    ensures k * d >= d
  {
    assert k * d == (k - 1) * d + d;
  }

  lemma MulOrder(a: int, b: int, k: nat)
    requires a <= b
    ensures a * k <= b * k
  {
    if a < b {
      MulGrows(b - a, k);
      assert (b - a) * k == b * k - a * k;
    }
  }

  /** A quotient and an in-range remainder determine the division. */
  lemma DivUnique(x: int, d: nat, q: int, r: int)
    requires d > 0 && x == q * d + r && 0 <= r < d
    ensures x / d == q && x % d == r
  {
    var k, s := x / d, x % d;
    assert x == k * d + s;
    assert (q - k) * d == q * d - k * d;
    if q > k {
      MulGrows(q - k, d);
    } else if k > q {
      assert (k - q) * d == k * d - q * d;
      MulGrows(k - q, d);
    }
  }

  lemma DivBounds(x: nat, k: nat)
    requires k > 0
    ensures 0 <= x / k && x / k * k <= x < x / k * k + k && x % k == x - x / k * k
  {
    var b, r := x / k, x % k;
    assert x == b * k + r;
    if b < 0 {
      MulOrder(b, -1, k);
    }
  }

  lemma DivStep(a: int, size: nat)
    requires size > 0
    ensures (a + size) / size == a / size + 1
  {
    var q, r := a / size, a % size;
    assert (q + 1) * size == q * size + size;
    DivUnique(a + size, size, q + 1, r);
  }

  lemma DivSmall(a: nat, size: nat)
    requires 0 <= a < size
    ensures (a + size) / size == 1
  {
    DivStep(a, size);
    DivBelow(a, size);
  }

  lemma DivBelow(a: nat, size: nat)
    requires 0 <= a < size
    ensures a / size == 0
  {
    DivUnique(a, size, 0, a);
  }
}
