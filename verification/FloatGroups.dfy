/**
 Float columns in logical groups, streamed: the group ends each granule is encoded with are those of the
 whole column's groups cut at the granule, after every rebase of the pending group starts.
 */
module FloatGroups {
  import opened Chunking
  import opened NumericStream

  ghost predicate Increasing(s: seq<nat>) { forall i, j :: 0 <= i < j < |s| ==> s[i] < s[j] }

  /** The positions of s past lo, measured from lo. */
  function Past(s: seq<nat>, lo: nat): seq<nat> {
    if s == [] then []
    else Past(s[..|s| - 1], lo) + if s[|s| - 1] > lo then [s[|s| - 1] - lo] else []
  }

  /** The positions of s strictly inside (lo, hi), measured from lo. */
  function Inside(s: seq<nat>, lo: nat, hi: nat): seq<nat> {
    if s == [] then []
    else Inside(s[..|s| - 1], lo, hi) + if lo < s[|s| - 1] < hi then [s[|s| - 1] - lo] else []
  }

  /** The positions of s from off on, measured from off. */
  function From(s: seq<nat>, off: nat): seq<nat> {
    if s == [] then []
    else From(s[..|s| - 1], off) + if s[|s| - 1] >= off then [s[|s| - 1] - off] else []
  }

  // ------------------------------------------------------------ reading the whole column's groups

  method FirstAtLeast(s: seq<nat>, v: nat) returns (k: nat)
    requires Increasing(s)
    ensures k <= |s| && (forall i :: 0 <= i < k ==> s[i] < v) && (forall i :: k <= i < |s| ==> s[i] >= v)
  {
    var lo, hi := 0, |s|;
    while lo < hi
      invariant 0 <= lo <= hi <= |s|
      invariant (forall i :: 0 <= i < lo ==> s[i] < v) && (forall i :: hi <= i < |s| ==> s[i] >= v)
    {
      var mid := (lo + hi) / 2;
      if s[mid] < v {
        lo := mid + 1;
      } else {
        hi := mid;
      }
    }
    k := lo;
  }

  lemma {:induction false} InsideNone(s: seq<nat>, lo: nat, hi: nat)
    requires forall i :: 0 <= i < |s| ==> !(lo < s[i] < hi)
    ensures Inside(s, lo, hi) == []
  {
    if s != [] {
      InsideNone(s[..|s| - 1], lo, hi);
    }
  }

  lemma {:induction false} InsideConcat(a: seq<nat>, b: seq<nat>, lo: nat, hi: nat)
    ensures Inside(a + b, lo, hi) == Inside(a, lo, hi) + Inside(b, lo, hi)
  {
    if b == [] {
      assert a + b == a;
    } else {
      var n := |b| - 1;
      InsideConcat(a, b[..n], lo, hi);
      assert (a + b)[..|a + b| - 1] == a + b[..n];
    }
  }

  lemma InsideSnoc(s: seq<nat>, i: nat, lo: nat, hi: nat)
    requires i < |s|
    ensures Inside(s[..i + 1], lo, hi) == Inside(s[..i], lo, hi) + if lo < s[i] < hi then [s[i] - lo] else []
  {
    assert s[..i + 1][..i] == s[..i];
  }

  /** The ends of the groups a granule [lo, hi) cuts through, the granule's own end last. */
  method FloatGroupRange(ends: seq<nat>, lo: nat, hi: nat) returns (dst: seq<nat>)
    requires Increasing(ends) && lo <= hi
    ensures dst == Inside(ends, lo, hi) + [hi - lo]
  {
    hide Inside;
    var start := FirstAtLeast(ends, lo + 1);
    InsideNone(ends[..start], lo, hi);
    dst := [];
    var i := start;
    while i < |ends| && ends[i] < hi
      invariant start <= i <= |ends| && dst == Inside(ends[..i], lo, hi)
    {
      InsideSnoc(ends, i, lo, hi);
      dst := dst + [ends[i] - lo];
      i := i + 1;
    }
    InsideNone(ends[i..], lo, hi);
    InsideConcat(ends[..i], ends[i..], lo, hi);
    assert ends[..i] + ends[i..] == ends;
    dst := dst + [hi - lo];
  }

  // ------------------------------------------------------------ the pending starts

  /** Pending starts, measured from the first staged row: 0 once a row is staged, then each later begin. */
  function Pending(begins: seq<nat>, base: nat, staged: nat): seq<nat> {
    if staged == 0 then [] else [0] + Past(begins, base)
  }

  lemma {:induction false} PastNone(s: seq<nat>, lo: nat)
    requires forall i :: 0 <= i < |s| ==> s[i] <= lo
    ensures Past(s, lo) == []
  {
    if s != [] {
      PastNone(s[..|s| - 1], lo);
    }
  }

  lemma PastSnoc(s: seq<nat>, v: nat, lo: nat)
    ensures Past(s + [v], lo) == Past(s, lo) + if v > lo then [v - lo] else []
  {
    assert (s + [v])[..|s|] == s;
  }

  /** Starts measured from base, seen from off on, are the begins seen from base + off. */
  lemma {:induction false} InsidePast(s: seq<nat>, base: nat, off: nat, len: nat)
    ensures Inside(Past(s, base), off, off + len) == Inside(s, base + off, base + off + len)
  {
    hide Inside; hide Past;
    if s == [] {
      PastNone(s, base);
      OneInside([], off, off + len);
      OneInside([], base + off, base + off + len);
    } else {
      var n := |s| - 1;
      InsidePast(s[..n], base, off, len);
      var tail: seq<nat> := if s[n] > base then [s[n] - base] else [];
      assert s[..n] + [s[n]] == s;
      PastSnoc(s[..n], s[n], base);
      InsideConcat(Past(s[..n], base), tail, off, off + len);
      OneInside(tail, off, off + len);
      InsideSnoc(s, n, base + off, base + off + len);
      assert s[..n + 1] == s;
    }
  }

  lemma OneInside(t: seq<nat>, lo: nat, hi: nat)
    requires |t| <= 1
    ensures Inside(t, lo, hi) == if t != [] && lo < t[0] < hi then [t[0] - lo] else []
  {
    if |t| == 1 {
      assert t[..0] == [];
    }
  }

  lemma {:induction false} FromConcat(a: seq<nat>, b: seq<nat>, off: nat)
    ensures From(a + b, off) == From(a, off) + From(b, off)
  {
    hide From;
    if b == [] {
      assert a + b == a;
      OneFrom([], off);
    } else {
      var n := |b| - 1;
      FromConcat(a, b[..n], off);
      assert (a + b[..n]) + [b[n]] == a + b && b[..n] + [b[n]] == b;
      FromSnoc(a + b[..n], b[n], off);
      FromSnoc(b[..n], b[n], off);
    }
  }

  lemma FromSnoc(s: seq<nat>, v: nat, off: nat)
    ensures From(s + [v], off) == From(s, off) + if v >= off then [v - off] else []
  {
    assert (s + [v])[..|s|] == s;
  }

  lemma OneFrom(t: seq<nat>, off: nat)
    requires |t| <= 1
    ensures From(t, off) == if t != [] && t[0] >= off then [t[0] - off] else []
  {
    if |t| == 1 {
      assert t[..0] == [];
    }
  }

  /** A rebase by off keeps the begins past base + off, and one exactly there as a leading 0. */
  lemma {:induction false} FromPast(s: seq<nat>, base: nat, off: nat)
    requires Increasing(s) && off > 0
    ensures From(Past(s, base), off) == Lead(s, base + off) + Past(s, base + off)
  {
    hide From; hide Past; hide Lead;
    if s == [] {
      PastNone(s, base);
      PastNone(s, base + off);
      OneFrom([], off);
      LeadNone(s, base + off);
    } else {
      var n := |s| - 1;
      var v, t := s[n], s[..n];
      FromPast(t, base, off);
      assert t + [v] == s;
      var tail: seq<nat> := if v > base then [v - base] else [];
      PastSnoc(t, v, base);
      PastSnoc(t, v, base + off);
      FromConcat(Past(t, base), tail, off);
      OneFrom(tail, off);
      LeadSnoc(t, v, base + off);
      Assoc(Lead(t, base + off), Past(t, base + off), From(tail, off));
      if v == base + off {
        PastNone(t, base + off);
      }
    }
  }

  /** A leading 0 for a begin exactly at b. */
  function Lead(s: seq<nat>, b: nat): seq<nat> { if b in s then [0] else [] }

  lemma LeadNone(s: seq<nat>, b: nat)
    requires s == []
    ensures Lead(s, b) == []
  {
  }

  lemma LeadSnoc(s: seq<nat>, v: nat, b: nat)
    requires Increasing(s + [v])
    ensures v != b ==> Lead(s + [v], b) == Lead(s, b)
    ensures v == b ==> Lead(s + [v], b) == [0] && Lead(s, b) == []
  {
    var u := s + [v];
    forall i | 0 <= i < |s| ensures s[i] < v {
      assert u[i] < u[|s|];
    }
    assert b in u <==> b in s || b == v;
  }

  lemma {:induction false} PastIncreasing(s: seq<nat>, lo: nat)
    requires Increasing(s)
    ensures Increasing(Past(s, lo)) && (forall i :: 0 <= i < |Past(s, lo)| ==> 0 < Past(s, lo)[i] && s != [] && Past(s, lo)[i] + lo <= s[|s| - 1])
  {
    if s != [] {
      PastIncreasing(s[..|s| - 1], lo);
    }
  }

  lemma PendingIncreasing(s: seq<nat>, base: nat, staged: nat)
    requires Increasing(s)
    ensures Increasing(Pending(s, base, staged))
  {
    PastIncreasing(s, base);
  }

  // ------------------------------------------------------------ the column

  /** A flushed granule: its rows and its group ends. */
  datatype GroupGranule<T> = GroupGranule(vals: seq<T>, ends: seq<nat>)

  /** The granules of a whole column with groups beginning at begins. */
  ghost predicate GroupsRight<T>(out: seq<GroupGranule<T>>, rows: seq<seq<T>>, begins: seq<nat>) {
    && |out| == |rows|
    && forall k :: 0 <= k < |out| ==> GranuleRight(out[k], rows[k], |Flatten(rows[..k])|, begins)
  }

  ghost predicate GranuleRight<T>(g: GroupGranule<T>, vals: seq<T>, lo: nat, begins: seq<nat>) {
    g.vals == vals && g.ends == Inside(begins, lo, lo + |vals|) + [|vals|]
  }

  /** Begins are made in order, and a later one does not touch the granules before it. */
  lemma LaterBegin<T>(out: seq<GroupGranule<T>>, rows: seq<seq<T>>, begins: seq<nat>, b: nat)
    requires GroupsRight(out, rows, begins) && b >= |Flatten(rows)|
    ensures GroupsRight(out, rows, begins + [b])
  {
    hide Flatten;
    forall k | 0 <= k < |out| ensures GranuleRight(out[k], rows[k], |Flatten(rows[..k])|, begins + [b]) {
      assert GranuleRight(out[k], rows[k], |Flatten(rows[..k])|, begins);
      var lo := |Flatten(rows[..k])|;
      FlattenConcat(rows[..k], rows[k..]);
      assert rows[..k] + rows[k..] == rows;
      FlattenHead(rows[k..]);
      InsideConcat(begins, [b], lo, lo + |rows[k]|);
      OneInside([b], lo, lo + |rows[k]|);
    }
  }

  lemma FlattenHead<T>(c: seq<seq<T>>)
    requires c != []
    ensures |Flatten(c)| >= |c[0]|
  {
  }

  lemma GroupFlushed<T>(out: seq<GroupGranule<T>>, rows: seq<seq<T>>, begins: seq<nat>, g: GroupGranule<T>)
    requires GroupsRight(out, rows, begins) && GranuleRight(g, g.vals, |Flatten(rows)|, begins)
    ensures GroupsRight(out + [g], rows + [g.vals], begins)
  {
    hide Flatten; hide GranuleRight;
    var r := rows + [g.vals];
    forall k | 0 <= k < |out| + 1 ensures GranuleRight((out + [g])[k], r[k], |Flatten(r[..k])|, begins) {
      assert r[..k] == if k < |rows| then rows[..k] else rows;
    }
  }

  class GroupColumn<T> {
    const granuleSize: nat
    var stage: seq<T>
    var groupStarts: seq<nat>
    var out: seq<GroupGranule<T>>
    ghost var encoded: nat
    ghost var all: seq<T>
    ghost var rows: seq<seq<T>>
    ghost var begins: seq<nat>

    ghost predicate Valid()
      reads this
    {
      && Streamed(all, rows, stage, encoded, granuleSize) && GroupsRight(out, rows, begins)
      && Increasing(begins) && (forall i :: 0 <= i < |begins| ==> begins[i] < |all|)
      && groupStarts == Pending(begins, encoded, |stage|)
    }

    constructor (granuleSize: nat)
      requires granuleSize > 0
      ensures Valid() && all == [] && stage == [] && begins == [] && this.granuleSize == granuleSize
    {
      this.granuleSize := granuleSize;
      stage, groupStarts, out := [], [], [];
      encoded, all, rows, begins := 0, [], [], [];
    }

    /** Appends rows, a new logical group beginning with the first of them when begin is set. */
    method AppendGroup(vals: seq<T>, begin: bool)
      requires Valid() && |stage| < granuleSize
      modifies this
      ensures Valid() && |stage| < granuleSize && all == old(all) + vals
      ensures begins == if begin && vals != [] then old(begins) + [|old(all)|] else old(begins)
    {
      if |vals| == 0 {
        assert all + vals == all;
        return;
      }
      MarkBegin(begin);
      AppendRows(vals);
    }

    /** Records where a group begins, in the pending starts. */
    method MarkBegin(begin: bool)
      requires Valid() && |stage| < granuleSize
      modifies this`groupStarts, this`begins
      ensures Streamed(all, rows, stage, encoded, granuleSize) && GroupsRight(out, rows, begins)
      ensures Increasing(begins) && (forall i :: 0 <= i < |begins| ==> begins[i] <= |all|)
      ensures groupStarts == [0] + Past(begins, encoded)
      ensures begins == if begin then old(begins) + [|all|] else old(begins)
    {
      hide Streamed; hide GroupsRight; hide Past; hide Flatten;
      StageIs(all, rows, stage, encoded, granuleSize);
      if |groupStarts| == 0 {
        PastNone(begins, encoded);
        groupStarts := groupStarts + [0];
      }
      if begin {
        PastSnoc(begins, |all|, encoded);
        LaterBegin(out, rows, begins, |all|);
        LastBelow(begins, encoded, |stage|, |all|);
        if groupStarts[|groupStarts| - 1] != |stage| {
          groupStarts := groupStarts + [|stage|];
        }
        begins := begins + [|all|];
      }
    }

    method FlushGranule(vals: seq<T>, offset: nat)
      modifies this`out
      ensures out == old(out) + [GroupGranule(vals, Inside(groupStarts, offset, offset + |vals|) + [|vals|])]
    {
      hide Inside;
      var ends: seq<nat> := [];
      InsideNone([], offset, offset + |vals|);
      for i := 0 to |groupStarts|
        invariant ends == Inside(groupStarts[..i], offset, offset + |vals|) && out == old(out)
      {
        InsideSnoc(groupStarts, i, offset, offset + |vals|);
        if groupStarts[i] > offset && groupStarts[i] < offset + |vals| {
          ends := ends + [groupStarts[i] - offset];
        }
      }
      assert groupStarts[..|groupStarts|] == groupStarts;
      out := out + [GroupGranule(vals, ends + [|vals|])];
    }

    /** Drops the flushed rows and measures the pending starts from the first row left. */
    method Rebase(off: nat, ghost base: nat)
      requires 0 < off <= |stage| && Increasing(begins) && groupStarts == [0] + Past(begins, base)
      modifies this`stage, this`groupStarts
      ensures stage == old(stage)[off..] && groupStarts == Pending(begins, base + off, |stage|)
    {
      hide Past; hide From; hide Lead; hide Increasing;
      stage := stage[off..];
      ghost var starts := groupStarts;
      PendingIncreasing(begins, base, 1);
      var first := FirstAtLeast(groupStarts, off);
      groupStarts := ShiftDown(groupStarts[first..], off);
      FromSuffix(starts, off, first);
      assert groupStarts == From(starts, off);
      Rebased(begins, base, off);
      if |stage| == 0 {
        groupStarts := [];
      } else if |groupStarts| == 0 || groupStarts[0] != 0 {
        groupStarts := [0] + groupStarts;
      }
    }

    method AppendRows(vals: seq<T>)
      requires vals != [] && |stage| < granuleSize
      requires Streamed(all, rows, stage, encoded, granuleSize) && GroupsRight(out, rows, begins)
      requires Increasing(begins) && (forall i :: 0 <= i < |begins| ==> begins[i] <= |all|)
      requires groupStarts == [0] + Past(begins, encoded)
      modifies this
      ensures Valid() && |stage| < granuleSize && all == old(all) + vals && begins == old(begins)
    {
      hide Streamed; hide GroupsRight; hide Past; hide Flatten; hide Inside; hide GranuleRight;
      StreamedStage(all, rows, stage, encoded, granuleSize, vals);
      all := all + vals;
      stage := stage + vals;
      var off := 0;
      ghost var base := encoded;
      assert stage[0..] == stage;
      while |stage| - off >= granuleSize
        invariant 0 <= off <= |stage| && Streamed(all, rows, stage[off..], encoded, granuleSize) && encoded == base + off
        invariant GroupsRight(out, rows, begins) && begins == old(begins) && all == old(all) + vals && base == old(encoded)
        invariant groupStarts == [0] + Past(begins, base) && stage == old(stage) + vals
        decreases |stage| - off
      {
        ghost var was := out;
        ghost var vs := stage[off..off + granuleSize];
        StreamedFlush(all, rows, stage[off..], encoded, granuleSize);
        EncodedIs(all, rows, stage[off..], encoded, granuleSize);
        assert stage[off..][..granuleSize] == vs && stage[off..][granuleSize..] == stage[off + granuleSize..];
        FlushGranule(stage[off..off + granuleSize], off);
        StartsInside(begins, base, off, vs);
        GroupFlushed(was, rows, begins, GroupGranule(vs, Inside(groupStarts, off, off + |vs|) + [|vs|]));
        rows, encoded := rows + [vs], encoded + granuleSize;
        off := off + granuleSize;
      }
      if off > 0 {
        Rebase(off, base);
      } else {
        assert stage[off..] == stage;
      }
    }

    /** Flushes the last, short granule. */
    method Finish()
      requires Valid() && |stage| < granuleSize
      modifies this
      ensures all == old(all) && begins == old(begins) && granuleSize > 0
      ensures GroupsRight(out, Chunks(all, granuleSize), begins)
    {
      hide GroupsRight; hide Past; hide Flatten; hide Inside; hide GranuleRight; hide Chunks;
      ChunksOfFull(rows, stage, granuleSize);
      if |stage| > 0 {
        ghost var was := out;
        FlushGranule(stage, 0);
        StartsInside(begins, encoded, 0, stage);
        GroupFlushed(was, rows, begins, GroupGranule(stage, Inside(groupStarts, 0, 0 + |stage|) + [|stage|]));
      }
    }
  }

  /** What a rebase leaves, before the staged rows' own start is put back at 0. */
  lemma Rebased(begins: seq<nat>, base: nat, off: nat)
    requires off > 0 && Increasing(begins)
    ensures var r := From([0] + Past(begins, base), off);
            if r == [] || r[0] != 0 then r == Past(begins, base + off) else r == [0] + Past(begins, base + off)
  {
    hide Past; hide From;
    FromConcat([0], Past(begins, base), off);
    OneFrom([0], off);
    FromPast(begins, base, off);
    PastIncreasing(begins, base + off);
    var p := Past(begins, base + off);
    assert [] + From(Past(begins, base), off) == From(Past(begins, base), off);
    assert [] + p == p;
  }

  method ShiftDown(s: seq<nat>, off: nat) returns (r: seq<nat>)
    requires forall i :: 0 <= i < |s| ==> s[i] >= off
    ensures |r| == |s| && forall i :: 0 <= i < |s| ==> r[i] == s[i] - off
  {
    r := s;
    for k := 0 to |s|
      invariant |r| == |s| && forall i :: 0 <= i < |s| ==> r[i] == if i < k then s[i] - off else s[i]
    {
      r := r[k := r[k] - off];
    }
  }

  lemma {:induction false} FromSuffix(s: seq<nat>, off: nat, first: nat)
    requires first <= |s| && (forall i :: 0 <= i < first ==> s[i] < off) && (forall i :: first <= i < |s| ==> s[i] >= off)
    ensures |From(s, off)| == |s| - first && forall i :: 0 <= i < |s| - first ==> From(s, off)[i] == s[first + i] - off
  {
    if first < |s| {
      FromSuffix(s[..|s| - 1], off, first);
    } else if s != [] {
      FromSuffix(s[..|s| - 1], off, first - 1);
    }
  }

  lemma StageIs<T>(all: seq<T>, out: seq<seq<T>>, stage: seq<T>, encoded: nat, size: nat)
    requires Streamed(all, out, stage, encoded, size)
    ensures |all| == encoded + |stage| && encoded == |Flatten(out)|
  {
  }

  /** The granule flushed at off has the ends of its own rows' groups. */
  lemma StartsInside<T>(begins: seq<nat>, base: nat, off: nat, vs: seq<T>)
    ensures var starts := [0] + Past(begins, base);
            GranuleRight(GroupGranule(vs, Inside(starts, off, off + |vs|) + [|vs|]), vs, base + off, begins)
  {
    hide Past; hide Inside;
    InsideConcat([0], Past(begins, base), off, off + |vs|);
    OneInside([0], off, off + |vs|);
    InsidePast(begins, base, off, |vs|);
    assert [] + Inside(begins, base + off, base + off + |vs|) == Inside(begins, base + off, base + off + |vs|);
  }

  /** The last pending start lies before the next row, unless none is staged. */
  lemma LastBelow(begins: seq<nat>, base: nat, staged: nat, total: nat)
    requires Increasing(begins) && total == base + staged && forall i :: 0 <= i < |begins| ==> begins[i] < total
    ensures var starts := [0] + Past(begins, base);
            && (staged > 0 ==> starts[|starts| - 1] < staged) && (staged == 0 ==> starts == [0])
  {
    PastIncreasing(begins, base);
    if staged == 0 {
      PastNone(begins, base);
      assert [0] + [] == [0];
    }
  }

  // ------------------------------------------------------------ batching independence

  datatype GroupBatch<T> = GroupBatch(vals: seq<T>, begin: bool)

  function RowsIn<T>(batches: seq<GroupBatch<T>>): seq<T> {
    if batches == [] then [] else RowsIn(batches[..|batches| - 1]) + batches[|batches| - 1].vals
  }

  /** Where groups begin in the whole column. */
  function BeginsIn<T>(batches: seq<GroupBatch<T>>): seq<nat> {
    if batches == [] then []
    else
      var n := |batches| - 1;
      BeginsIn(batches[..n]) + if batches[n].begin && batches[n].vals != [] then [|RowsIn(batches[..n])|] else []
  }

  /**
   However a grouped column is split into appends, each granule holds the fixed-size cut's rows and the
   ends of the whole column's groups within it.
   */
  method StreamGroups<T>(batches: seq<GroupBatch<T>>, size: nat) returns (out: seq<GroupGranule<T>>)
    requires size > 0
    ensures GroupsRight(out, Chunks(RowsIn(batches), size), BeginsIn(batches))
  {
    hide GroupsRight; hide Chunks; hide GroupColumn.Valid;
    var c := new GroupColumn<T>(size);
    assert batches[..0] == [];
    for i := 0 to |batches|
      invariant c.Valid() && c.granuleSize == size && |c.stage| < size && fresh(c)
      invariant c.all == RowsIn(batches[..i]) && c.begins == BeginsIn(batches[..i])
    {
      assert batches[..i + 1][..i] == batches[..i];
      c.AppendGroup(batches[i].vals, batches[i].begin);
    }
    assert batches[..|batches|] == batches;
    c.Finish();
    out := c.out;
  }

  /** The whole column's group ends: where each later group begins, then the column's end. */
  function EndsOf(begins: seq<nat>, rows: nat): seq<nat> { begins + [rows] }

  /** A granule's recorded ends are what reading its range out of the whole column's ends gives. */
  lemma EndsAgree<T>(g: GroupGranule<T>, vals: seq<T>, lo: nat, begins: seq<nat>, rows: nat)
    requires GranuleRight(g, vals, lo, begins) && lo + |vals| <= rows
    ensures g.ends == Inside(EndsOf(begins, rows), lo, lo + |vals|) + [|vals|]
  {
    hide Inside;
    InsideConcat(begins, [rows], lo, lo + |vals|);
    OneInside([rows], lo, lo + |vals|);
    assert Inside(begins, lo, lo + |vals|) + [] == Inside(begins, lo, lo + |vals|);
  }
}
