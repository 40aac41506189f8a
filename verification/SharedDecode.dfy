/**
 The fast decode of a shared-dictionary column whose selected granules all use the dictionary: their
 ids copied into one array at the width the whole dictionary needs, packed together or scattered to
 their own rows.
 */
module SharedDecode {
  import opened Wire
  import opened Chunking
  import opened DictSpec
  import opened SharedDict

  /** The ids of a packed array as numbers. */
  function Unpack(b: Bytes, width: nat): (ids: seq<int>)
    requires width == 1 || width == 2
    ensures |ids| == if width == 1 then |b| else |b| / 2
  {
    seq(if width == 1 then |b| else |b| / 2,
        r requires 0 <= r < (if width == 1 then |b| else |b| / 2) => IdAt(b, width, r))
  }

  datatype Selection = Selection(
    streams: seq<Bytes>, blockRows: nat, rows: nat, entries: seq<Value>, trailer: bool)
  {
    predicate Wf() { blockRows > 0 }

    function Lo(g: int): int { g * blockRows }

    /** The rows block g covers. */
    function Count(g: int): int { Min(Lo(g) + blockRows, rows) - Lo(g) }

    predicate InRange(g: int) { 0 <= g < |streams| && Lo(g) < rows }

    lemma CountBounds(g: int)
      requires Wf() && InRange(g)
      ensures 0 <= Lo(g) && 0 < Count(g) && Lo(g) + Count(g) <= rows
    {
    }

    /** Block g's stream taken apart. */
    function Split(g: int): Result<Payload>
      requires Wf() && InRange(g)
    {
      CountBounds(g);
      SplitGranule(entries, trailer, streams[g], Count(g))
    }

    predicate Joined(g: int)
      requires Wf()
    {
      InRange(g) && Split(g).Ok? && Split(g).value.Ids?
    }

    /** The dictionary ids of block g's rows. */
    function BlockIds(g: int): (ids: seq<int>)
      requires Wf() && Joined(g)
      ensures |ids| == Count(g)
      ensures forall i :: 0 <= i < |ids| ==> 0 <= ids[i] < |entries|
    {
      var p := Split(g).value;
      CountBounds(g);
      Unpack(p.ids, p.width)
    }

    predicate AllJoined(blocks: seq<int>)
      requires Wf()
    {
      forall i :: 0 <= i < |blocks| ==> Joined(blocks[i])
    }

    /** The selected granules' ids, one after the other. */
    function Packed(blocks: seq<int>): seq<int>
      requires Wf() && AllJoined(blocks)
    {
      if blocks == [] then [] else Packed(blocks[..|blocks| - 1]) + BlockIds(blocks[|blocks| - 1])
    }

    /** ids over every row: a selected granule's at its own rows, 0 elsewhere. */
    ghost predicate Scattered(blocks: seq<int>, ids: seq<int>)
      requires Wf() && AllJoined(blocks)
    {
      && |ids| == rows
      && (forall i :: 0 <= i < |blocks| ==> InPlace(blocks[i], ids))
      && (forall p :: 0 <= p < rows && !Covered(blocks, p) ==> ids[p] == 0)
    }

    /** Block g's ids sit at its own rows. */
    ghost predicate InPlace(g: int, ids: seq<int>)
      requires Wf() && Joined(g) && |ids| == rows
    {
      forall p :: Lo(g) <= p < Lo(g) + Count(g) ==> 0 <= p < rows && ids[p] == BlockIds(g)[p - Lo(g)]
    }

    ghost predicate Covered(blocks: seq<int>, p: int) {
      exists i :: 0 <= i < |blocks| && Lo(blocks[i]) <= p < Lo(blocks[i]) + Count(blocks[i])
    }
  }

  datatype Outcome = Corrupt | HasSelf | Decoded(col: DictColumn)

  /** The first thing that stops a walk over the blocks, if anything does. */
  function Stop(s: Selection, blocks: seq<int>): (o: Outcome)
    requires s.Wf() && !s.AllJoined(blocks)
    ensures !o.Decoded?
  {
    var n := |blocks| - 1;
    if !s.AllJoined(blocks[..n]) then Stop(s, blocks[..n])
    else if s.InRange(blocks[n]) && s.Split(blocks[n]).Ok? then HasSelf
    else Corrupt
  }

  function Splice(u: seq<int>, at: nat, v: seq<int>): (r: seq<int>)
    requires at + |v| <= |u|
    ensures |r| == |u|
    ensures forall p :: 0 <= p < |u| ==> r[p] == if at <= p < at + |v| then v[p - at] else u[p]
  {
    u[..at] + v + u[at + |v|..]
  }

  /** Copies a granule's ids into place at the array's own width. */
  method CopyIds(ids: array<byte>, width: nat, at: nat, gids: Bytes)
    requires width == 1 || width == 2
    requires |gids| % width == 0 && (if width == 1 then at else 2 * at) + |gids| <= ids.Length
    modifies ids
    ensures at + |Unpack(gids, width)| <= |Unpack(ids[..], width)|
    ensures Unpack(ids[..], width) == Splice(old(Unpack(ids[..], width)), at, Unpack(gids, width))
  {
    hide Unpack; hide Splice; hide IdAt;
    var off := if width == 1 then at else 2 * at;
    forall p | 0 <= p < |gids| {
      ids[off + p] := gids[p];
    }
    assert ids[..] == old(ids[..])[..off] + gids + old(ids[..])[off + |gids|..];
    if width == 1 {
      CopiedNarrow(old(ids[..]), gids, at);
    } else {
      CopiedWide(old(ids[..]), gids, at);
    }
  }

  lemma CopiedNarrow(b: Bytes, gids: Bytes, at: nat)
    requires at + |gids| <= |b|
    ensures Unpack(b[..at] + gids + b[at + |gids|..], 1) == Splice(Unpack(b, 1), at, Unpack(gids, 1))
  {
  }

  lemma CopiedWide(b: Bytes, gids: Bytes, at: nat)
    requires |gids| % 2 == 0 && 2 * at + |gids| <= |b|
    ensures at + |Unpack(gids, 2)| <= |Unpack(b, 2)|
    ensures Unpack(b[..2 * at] + gids + b[2 * at + |gids|..], 2) == Splice(Unpack(b, 2), at, Unpack(gids, 2))
  {
    var c := b[..2 * at] + gids + b[2 * at + |gids|..];
    var w := Splice(Unpack(b, 2), at, Unpack(gids, 2));
    forall p | 0 <= p < |Unpack(c, 2)| ensures Unpack(c, 2)[p] == w[p] {
      assert c[2 * p] == if 2 * at <= 2 * p < 2 * at + |gids| then gids[2 * (p - at)] else b[2 * p];
      assert c[2 * p + 1] == if 2 * at <= 2 * p < 2 * at + |gids| then gids[2 * (p - at) + 1] else b[2 * p + 1];
    }
  }

  /** Widens a one-byte granule over ids whose high bytes are still zero. */
  method WidenIds(ids: array<byte>, at: nat, gids: Bytes)
    requires 2 * (at + |gids|) <= ids.Length
    requires forall p :: at <= p < at + |gids| ==> IdAt(ids[..], 2, p) < 256
    modifies ids
    ensures Unpack(ids[..], 2) == Splice(old(Unpack(ids[..], 2)), at, Unpack(gids, 1))
  {
    hide Unpack; hide Splice; hide IdAt;
    ghost var b := ids[..];
    assert gids[..0] == [];
    SpliceNothing(b, at);
    for r := 0 to |gids|
      invariant Unpack(ids[..], 2) == Splice(Unpack(b, 2), at, Unpack(gids[..r], 1))
    {
      ghost var c := ids[..];
      ids[2 * (at + r) + 1] := gids[r];
      assert ids[..] == c[2 * (at + r) + 1 := gids[r]];
      WidenStep(b, c, at, gids, r);
    }
    assert gids[..|gids|] == gids;
  }

  lemma SpliceNothing(b: Bytes, at: nat)
    requires 2 * at <= |b|
    ensures Unpack([], 1) == [] && Splice(Unpack(b, 2), at, []) == Unpack(b, 2)
  {
  }

  lemma UnpackAt(b: Bytes, p: nat)
    requires p < |b| / 2
    ensures Unpack(b, 2)[p] == IdAt(b, 2, p)
  {
  }

  lemma UnpackSnoc(b: Bytes, r: nat)
    requires r < |b|
    ensures Unpack(b[..r + 1], 1) == Unpack(b[..r], 1) + [b[r]]
  {
  }

  lemma WidenStep(b: Bytes, c: Bytes, at: nat, gids: Bytes, r: nat)
    requires r < |gids| && |c| == |b| && 2 * (at + |gids|) <= |b| && IdAt(b, 2, at + r) < 256
    requires Unpack(c, 2) == Splice(Unpack(b, 2), at, Unpack(gids[..r], 1))
    ensures Unpack(c[2 * (at + r) + 1 := gids[r]], 2) == Splice(Unpack(b, 2), at, Unpack(gids[..r + 1], 1))
  {
    hide Unpack; hide IdAt;
    UnpackAt(b, at + r);
    UnpackAt(c, at + r);
    WidenedOne(c, at + r, gids[r]);
    UnpackSnoc(gids, r);
    SpliceSnoc(Unpack(b, 2), at, Unpack(gids[..r], 1), gids[r]);
  }

  lemma WidenedOne(b: Bytes, p: nat, id: byte)
    requires 2 * p + 1 < |b| && IdAt(b, 2, p) < 256
    ensures Unpack(b[2 * p + 1 := id], 2) == Unpack(b, 2)[p := id]
  {
    var c := b[2 * p + 1 := id];
    assert b[2 * p] == 0;
    forall q | 0 <= q < |Unpack(c, 2)| ensures Unpack(c, 2)[q] == Unpack(b, 2)[p := id][q] {
      assert c[2 * q] == b[2 * q];
      assert q != p ==> c[2 * q + 1] == b[2 * q + 1];
    }
  }

  lemma SpliceSnoc(u: seq<int>, at: nat, v: seq<int>, x: int)
    requires at + |v| < |u|
    ensures Splice(u, at, v)[at + |v| := x] == Splice(u, at, v + [x])
  {
  }

  /** No granule is wider than the array its dictionary calls for. */
  lemma WidthFits(s: Selection, g: int)
    requires s.Wf() && s.Joined(g)
    ensures s.Split(g).value.width <= SharedIDWidth(s.entries)
    ensures s.Split(g).value.width == 1 ==> forall r :: 0 <= r < s.Count(g) ==> s.BlockIds(g)[r] < 256
  {
  }

  lemma SpansDisjoint(g: int, h: int, size: nat)
    requires size > 0 && g < h
    ensures g * size + size <= h * size
  {
    MulGrows(h - g, size);
    assert (h - g) * size == h * size - g * size;
  }

  /** Splicing a block's ids over its own span disturbs no other block's. */
  lemma SpliceKeeps(s: Selection, g: int, h: int, u: seq<int>)
    requires s.Wf() && s.Joined(g) && s.Joined(h) && |u| == s.rows && s.InPlace(h, u)
    ensures 0 <= s.Lo(g) && s.Lo(g) + s.Count(g) <= |u|
    ensures s.InPlace(h, Splice(u, s.Lo(g), s.BlockIds(g)))
  {
    hide Selection.Split; hide Selection.BlockIds;
    s.CountBounds(g);
    s.CountBounds(h);
    if h < g {
      SpansDisjoint(h, g, s.blockRows);
    } else if g < h {
      SpansDisjoint(g, h, s.blockRows);
    }
  }

  lemma SplicePlaces(s: Selection, g: int, u: seq<int>)
    requires s.Wf() && s.Joined(g) && |u| == s.rows
    ensures 0 <= s.Lo(g) && s.Lo(g) + s.Count(g) <= |u|
    ensures s.InPlace(g, Splice(u, s.Lo(g), s.BlockIds(g)))
  {
    hide Selection.Split; hide Selection.BlockIds; hide Selection.Lo; hide Selection.Count;
    s.CountBounds(g);
  }

  lemma CoveredSnoc(s: Selection, blocks: seq<int>, g: int, p: int)
    ensures s.Covered(blocks + [g], p) <==> s.Covered(blocks, p) || s.Lo(g) <= p < s.Lo(g) + s.Count(g)
  {
    var all := blocks + [g];
    assert all[|blocks|] == g;
    if s.Covered(blocks, p) {
      var i :| 0 <= i < |blocks| && s.Lo(blocks[i]) <= p < s.Lo(blocks[i]) + s.Count(blocks[i]);
      assert all[i] == blocks[i];
    }
  }

  lemma ScatterStep(s: Selection, blocks: seq<int>, g: int, u: seq<int>)
    requires s.Wf() && s.AllJoined(blocks) && s.Joined(g) && s.Scattered(blocks, u)
    ensures s.AllJoined(blocks + [g])
    ensures 0 <= s.Lo(g) && s.Lo(g) + s.Count(g) <= |u|
    ensures s.Scattered(blocks + [g], Splice(u, s.Lo(g), s.BlockIds(g)))
  {
    hide Selection.Joined; hide Selection.BlockIds; hide Selection.Count; hide Selection.Lo; hide Selection.InPlace;
    SplicePlaces(s, g, u);
    var all := blocks + [g];
    var w := Splice(u, s.Lo(g), s.BlockIds(g));
    forall i | 0 <= i < |all| ensures s.InPlace(all[i], w) {
      if i < |blocks| {
        SpliceKeeps(s, g, blocks[i], u);
      }
    }
    forall p | 0 <= p < s.rows && !s.Covered(all, p) ensures w[p] == 0 {
      CoveredSnoc(s, blocks, g, p);
    }
  }

  /** The rows a packed decode of the blocks holds. */
  function RowsIn(s: Selection, blocks: seq<int>): int {
    if blocks == [] then 0 else RowsIn(s, blocks[..|blocks| - 1]) + s.Count(blocks[|blocks| - 1])
  }

  lemma {:induction false} PackedLen(s: Selection, blocks: seq<int>)
    requires s.Wf() && s.AllJoined(blocks)
    ensures |s.Packed(blocks)| == RowsIn(s, blocks)
  {
    if blocks != [] {
      PackedLen(s, blocks[..|blocks| - 1]);
    }
  }

  predicate PastEnd(s: Selection, blocks: seq<int>) {
    exists i :: 0 <= i < |blocks| && s.Lo(blocks[i]) >= s.rows
  }

  /** Sizes a packed result, refusing a block that starts past the column. */
  method PackedRows(s: Selection, blocks: seq<int>) returns (ok: bool, out: nat)
    requires s.Wf()
    ensures ok == !PastEnd(s, blocks)
    ensures ok ==> out == RowsIn(s, blocks)
  {
    out := 0;
    for i := 0 to |blocks|
      invariant forall k :: 0 <= k < i ==> s.Lo(blocks[k]) < s.rows
      invariant out == RowsIn(s, blocks[..i])
    {
      assert blocks[..i + 1][..i] == blocks[..i];
      if s.Lo(blocks[i]) >= s.rows {
        return false, 0;
      }
      out := out + s.Count(blocks[i]);
    }
    assert blocks[..|blocks|] == blocks;
    ok := true;
  }

  ghost predicate Holds(s: Selection, blocks: seq<int>, scatter: bool, u: seq<int>)
    requires s.Wf() && s.AllJoined(blocks)
  {
    if scatter then s.Scattered(blocks, u)
    else 0 <= RowsIn(s, blocks) <= |u| && u[..RowsIn(s, blocks)] == s.Packed(blocks) && forall p :: RowsIn(s, blocks) <= p < |u| ==> u[p] == 0
  }

  /** Where block k of a walk goes. */
  function Place(s: Selection, blocks: seq<int>, k: nat, scatter: bool): int
    requires k < |blocks|
  {
    if scatter then s.Lo(blocks[k]) else RowsIn(s, blocks[..k])
  }

  lemma HoldsStep(s: Selection, blocks: seq<int>, k: nat, scatter: bool, u: seq<int>)
    requires s.Wf() && k < |blocks| && s.AllJoined(blocks[..k]) && s.Joined(blocks[k])
    requires Holds(s, blocks[..k], scatter, u) && (!scatter ==> RowsIn(s, blocks[..k + 1]) <= |u|)
    ensures s.AllJoined(blocks[..k + 1])
    ensures 0 <= Place(s, blocks, k, scatter) && Place(s, blocks, k, scatter) + s.Count(blocks[k]) <= |u|
    ensures Holds(s, blocks[..k + 1], scatter, Splice(u, Place(s, blocks, k, scatter), s.BlockIds(blocks[k])))
  {
    hide Selection.Joined; hide Selection.BlockIds; hide Selection.Count; hide Selection.Lo; hide Selection.Scattered; hide Splice;
    assert blocks[..k + 1] == blocks[..k] + [blocks[k]];
    if scatter {
      ScatterStep(s, blocks[..k], blocks[k], u);
    } else {
      PackedStep(s, blocks[..k], blocks[k], u);
    }
  }

  /** Where a narrow granule goes, every high byte is still zero. */
  lemma SpanNarrow(s: Selection, blocks: seq<int>, k: nat, scatter: bool, u: seq<int>, p: int)
    requires s.Wf() && k < |blocks| && s.AllJoined(blocks[..k]) && s.Joined(blocks[k])
    requires Holds(s, blocks[..k], scatter, u) && s.Split(blocks[k]).value.width == 1
    requires Place(s, blocks, k, scatter) <= p < Place(s, blocks, k, scatter) + s.Count(blocks[k]) && 0 <= p < |u|
    ensures u[p] < 256
  {
    if scatter {
      hide Selection.Split; hide Selection.BlockIds; hide Selection.Count; hide Selection.Lo; hide Selection.Scattered;
      WidthFits(s, blocks[k]);
      ScatterSpan(s, blocks[..k], blocks[k], u, p - s.Lo(blocks[k]));
    }
  }

  lemma PackedStep(s: Selection, init: seq<int>, g: int, u: seq<int>)
    requires s.Wf() && s.AllJoined(init) && s.Joined(g)
    requires Holds(s, init, false, u) && RowsIn(s, init + [g]) <= |u| && RowsIn(s, init) >= 0
    ensures s.AllJoined(init + [g]) && RowsIn(s, init + [g]) == RowsIn(s, init) + s.Count(g)
    ensures Holds(s, init + [g], false, Splice(u, RowsIn(s, init), s.BlockIds(g)))
  {
    hide Selection.Split; hide Selection.BlockIds; hide Selection.Count;
    assert (init + [g])[..|init|] == init;
    assert s.Packed(init + [g]) == s.Packed(init) + s.BlockIds(g);
    var w := Splice(u, RowsIn(s, init), s.BlockIds(g));
    assert w[..RowsIn(s, init + [g])] == u[..RowsIn(s, init)] + s.BlockIds(g);
  }

  /** A row of a block's span is still 0 or already this very block's. */
  lemma ScatterSpan(s: Selection, blocks: seq<int>, g: int, u: seq<int>, r: nat)
    requires s.Wf() && s.AllJoined(blocks) && s.Joined(g) && s.Scattered(blocks, u) && r < s.Count(g)
    ensures 0 <= s.Lo(g) + r < |u| && (u[s.Lo(g) + r] == 0 || u[s.Lo(g) + r] == s.BlockIds(g)[r])
  {
    hide Selection.Split; hide Selection.BlockIds; hide Selection.Count;
    s.CountBounds(g);
    var p := s.Lo(g) + r;
    if s.Covered(blocks, p) {
      var i :| 0 <= i < |blocks| && s.Lo(blocks[i]) <= p < s.Lo(blocks[i]) + s.Count(blocks[i]);
      OneOwner(s, blocks[i], g, p);
    }
  }

  lemma OneOwner(s: Selection, g: int, h: int, p: int)
    requires s.Wf() && s.Lo(g) <= p < s.Lo(g) + s.Count(g) && s.Lo(h) <= p < s.Lo(h) + s.Count(h)
    ensures g == h
  {
    if g < h {
      SpansDisjoint(g, h, s.blockRows);
    } else if h < g {
      SpansDisjoint(h, g, s.blockRows);
    }
  }

  lemma {:induction false} SumMono(s: Selection, blocks: seq<int>, k: nat)
    requires s.Wf() && !PastEnd(s, blocks) && k <= |blocks|
    ensures 0 <= RowsIn(s, blocks[..k]) <= RowsIn(s, blocks)
    decreases |blocks|
  {
    if k == |blocks| {
      assert blocks[..k] == blocks;
    }
    if blocks != [] {
      var init := blocks[..|blocks| - 1];
      assert !PastEnd(s, init);
      if k < |blocks| {
        SumMono(s, init, k);
        assert init[..k] == blocks[..k];
      } else {
        SumMono(s, init, k - 1);
      }
      assert s.Lo(blocks[|blocks| - 1]) < s.rows;
    }
  }

  /** A walk stops at the first granule that is out of range, corrupt or on its own rows. */
  lemma {:induction false} StopAt(s: Selection, blocks: seq<int>, i: nat)
    requires s.Wf() && i < |blocks| && s.AllJoined(blocks[..i]) && !s.Joined(blocks[i])
    ensures !s.AllJoined(blocks)
    ensures Stop(s, blocks) == if s.InRange(blocks[i]) && s.Split(blocks[i]).Ok? then HasSelf else Corrupt
    decreases |blocks|
  {
    var n := |blocks| - 1;
    if i < n {
      assert blocks[..n][..i] == blocks[..i];
      StopAt(s, blocks[..n], i);
    }
  }

  lemma HoldsEmpty(s: Selection, scatter: bool, b: Bytes, width: nat, out: nat)
    requires s.Wf() && width == SharedIDWidth(s.entries) && |b| == out * width
    requires forall p :: 0 <= p < |b| ==> b[p] == 0
    requires scatter ==> out == s.rows
    ensures |Unpack(b, width)| == out
    ensures Holds(s, [], scatter, Unpack(b, width))
  {
  }

  /** Fills the id array granule by granule. */
  method Walk(s: Selection, blocks: seq<int>, scatter: bool, width: nat, out: nat) returns (o: Outcome)
    requires s.Wf() && width == SharedIDWidth(s.entries)
    requires if scatter then out == s.rows else !PastEnd(s, blocks) && out == RowsIn(s, blocks)
    ensures s.AllJoined(blocks) ==>
              && o.Decoded? && o.col.entries == s.entries && o.col.width == width
              && Holds(s, blocks, scatter, Unpack(o.col.ids, width)) && |Unpack(o.col.ids, width)| == out
    ensures !s.AllJoined(blocks) ==> o == Stop(s, blocks)
  {
    hide Selection.Joined; hide Selection.BlockIds; hide Holds; hide Unpack; hide IdAt;
    var ids := new byte[out * width](i => 0);
    HoldsEmpty(s, scatter, ids[..], width, out);
    assert blocks[..0] == [];
    var pos := 0;
    for i := 0 to |blocks|
      invariant s.AllJoined(blocks[..i])
      invariant Holds(s, blocks[..i], scatter, Unpack(ids[..], width)) && |Unpack(ids[..], width)| == out
      invariant !scatter ==> pos == RowsIn(s, blocks[..i])
    {
      var g := blocks[i];
      if !s.InRange(g) || s.Split(g).Err? {
        NotJoined(s, g);
        StopAt(s, blocks, i);
        return Corrupt;
      }
      var p := s.Split(g).value;
      if p.Chunk? {
        NotJoined(s, g);
        StopAt(s, blocks, i);
        return HasSelf;
      }
      if !scatter {
        SumMono(s, blocks, i + 1);
        SumMono(s, blocks, i);
        SumSnoc(s, blocks, i);
      }
      JoinedPayload(s, g);
      HoldsStep(s, blocks, i, scatter, Unpack(ids[..], width));
      forall q | p.width == 1 && Place(s, blocks, i, scatter) <= q < Place(s, blocks, i, scatter) + s.Count(g)
        ensures Unpack(ids[..], width)[q] < 256
      {
        SpanNarrow(s, blocks, i, scatter, Unpack(ids[..], width), q);
      }
      var at := if scatter then s.Lo(g) else pos;
      PlaceGranule(ids, width, at, p.ids, p.width);
      pos := pos + s.Count(g);
    }
    assert blocks[..|blocks|] == blocks;
    o := Decoded(DictColumn(s.entries, ids[..], width));
  }

  lemma NotJoined(s: Selection, g: int)
    requires s.Wf() && (!s.InRange(g) || s.Split(g).Err? || s.Split(g).value.Chunk?)
    ensures !s.Joined(g)
  {
  }

  lemma JoinedPayload(s: Selection, g: int)
    requires s.Wf() && s.InRange(g) && s.Split(g).Ok? && s.Split(g).value.Ids?
    ensures s.Joined(g)
    ensures var p := s.Split(g).value;
            && (p.width == 1 || p.width == 2) && p.width <= SharedIDWidth(s.entries)
            && |p.ids| == s.Count(g) * p.width && s.BlockIds(g) == Unpack(p.ids, p.width)
  {
    WidthFits(s, g);
  }

  lemma SumSnoc(s: Selection, blocks: seq<int>, i: nat)
    requires i < |blocks|
    ensures RowsIn(s, blocks[..i + 1]) == RowsIn(s, blocks[..i]) + s.Count(blocks[i])
  {
    assert blocks[..i + 1][..i] == blocks[..i];
  }

  /** Copies or widens a granule's ids, as its width asks. */
  method PlaceGranule(ids: array<byte>, width: nat, at: nat, gids: Bytes, gwidth: nat)
    requires width == 1 || width == 2
    requires 1 <= gwidth <= width && |gids| % gwidth == 0
    requires at + |Unpack(gids, gwidth)| <= |Unpack(ids[..], width)|
    requires gwidth == 1 ==> forall p :: at <= p < at + |Unpack(gids, gwidth)| ==> Unpack(ids[..], width)[p] < 256
    modifies ids
    ensures Unpack(ids[..], width) == Splice(old(Unpack(ids[..], width)), at, Unpack(gids, gwidth))
  {
    if gwidth == width {
      CopyIds(ids, width, at, gids);
    } else {
      forall p | at <= p < at + |gids| ensures IdAt(ids[..], 2, p) < 256 {
        assert Unpack(ids[..], width)[p] < 256;
      }
      WidenIds(ids, at, gids);
    }
  }

  /**
   Decodes the selected granules of a column into one split-form column. When every one of them joined
   the dictionary the ids are packed one granule after another, or, scattered, sit at their own rows
   with 0 in the rows no granule covers; otherwise the walk stops at the first granule that did not.
   */
  method DecodeSharedIDs(s: Selection, blocks: seq<int>, scatter: bool) returns (o: Outcome)
    requires s.Wf()
    ensures s.AllJoined(blocks) ==>
              && o.Decoded? && o.col.entries == s.entries && o.col.width == SharedIDWidth(s.entries)
              && (scatter ==> s.Scattered(blocks, Unpack(o.col.ids, o.col.width)))
              && (!scatter ==> Unpack(o.col.ids, o.col.width) == s.Packed(blocks))
    ensures !s.AllJoined(blocks) ==> o == if !scatter && PastEnd(s, blocks) then Corrupt else Stop(s, blocks)
  {
    var width := SharedIDWidth(s.entries);
    var out := s.rows;
    if !scatter {
      var ok;
      ok, out := PackedRows(s, blocks);
      if !ok {
        PastEndStops(s, blocks);
        return Corrupt;
      }
    }
    o := Walk(s, blocks, scatter, width, out);
  }

  lemma PastEndStops(s: Selection, blocks: seq<int>)
    requires s.Wf() && PastEnd(s, blocks)
    ensures !s.AllJoined(blocks)
  {
  }
}
