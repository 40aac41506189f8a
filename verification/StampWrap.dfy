/**
 What becomes of a granule of ids when its generation, a bare uint32 that nothing clears on wrap, comes
 round to a stamp that is already there.
 */
module StampWrap {
  import opened Wire
  import opened DictSpec
  import opened DictBuilder

  // ------------------------------------------------------------ when a granule is still right

  /** A hidden entry only ever makes the scan find fewer values and charge less. */
  lemma {:induction false} ScanFindsLess(table: seq<Value>, stamp: seq<uint32>, gen: uint32, ids: seq<int>, dict: seq<Value>)
    requires Distinct(table) && |table| == |stamp| && InTable(table, ids)
    ensures var f, u := At(table, StampScan(stamp, gen, ids).0), Uniq(At(table, ids));
            |f| <= |u| && Charge(Fresh(f, dict)) <= Charge(Fresh(u, dict))
  {
    hide Uniq; hide StampScan; hide Distinct; hide At; hide Charge; hide Fresh;
    if ids == [] {
      ScanNothing(table, stamp, gen);
    } else {
      var init, e := ids[..|ids| - 1], ids[|ids| - 1];
      ScanFindsLess(table, stamp, gen, init, dict);
      ScanStep(table, stamp, gen, ids);
      var f, u := At(table, StampScan(stamp, gen, init).0), Uniq(At(table, init));
      assert f + [] == f;
      FreshSnoc(f, table[e], dict);
      FreshSnoc(u, table[e], dict);
      ChargeSnoc(Fresh(f, dict), table[e]);
      ChargeSnoc(Fresh(u, dict), table[e]);
    }
  }

  /** No entry the granule uses is hidden while the dictionary lacks it. */
  ghost predicate HidesNone(table: seq<Value>, stamp: seq<uint32>, gen: uint32, ids: seq<int>, dict: seq<Value>)
    requires |table| == |stamp| && InTable(table, ids)
  {
    forall i :: 0 <= i < |ids| && stamp[ids[i]] == gen ==> table[ids[i]] in dict
  }

  /** What the scan hides of a dictionary that has it anyway changes nothing the granule adds. */
  lemma {:induction false} ScanAddsAll(table: seq<Value>, stamp: seq<uint32>, gen: uint32, ids: seq<int>, dict: seq<Value>)
    requires Distinct(table) && |table| == |stamp| && InTable(table, ids) && HidesNone(table, stamp, gen, ids, dict)
    ensures Fresh(At(table, StampScan(stamp, gen, ids).0), dict) == Fresh(Uniq(At(table, ids)), dict)
  {
    hide Uniq; hide StampScan; hide Distinct; hide At; hide Fresh;
    if ids == [] {
      ScanNothing(table, stamp, gen);
    } else {
      var init, e := ids[..|ids| - 1], ids[|ids| - 1];
      ScanAddsAll(table, stamp, gen, init, dict);
      ScanStep(table, stamp, gen, ids);
      var f, u := At(table, StampScan(stamp, gen, init).0), Uniq(At(table, init));
      assert f + [] == f;
      FreshSnoc(f, table[e], dict);
      FreshSnoc(u, table[e], dict);
    }
  }

  /** A hidden value the dictionary lacks stays out of it, though the granule's rows use it. */
  lemma ScanLosesHidden(table: seq<Value>, stamp: seq<uint32>, gen: uint32, ids: seq<int>, dict: seq<Value>)
    requires Distinct(table) && |table| == |stamp| && InTable(table, ids) && !HidesNone(table, stamp, gen, ids, dict)
    ensures Fresh(At(table, StampScan(stamp, gen, ids).0), dict) != Fresh(Uniq(At(table, ids)), dict)
  {
    var i :| 0 <= i < |ids| && stamp[ids[i]] == gen && table[ids[i]] !in dict;
    var f, v := StampScan(stamp, gen, ids).0, table[ids[i]];
    StampScanStamps(stamp, gen, ids);
    assert At(table, ids)[i] == v;
    UniqIn(At(table, ids), v);
    AtIn(table, f, ids[i]);
    FreshIn(At(table, f), dict, v);
    FreshIn(Uniq(At(table, ids)), dict, v);
  }

  /**
   A granule of ids is decided, numbered and added to the dictionary as its rows would be if and only if,
   supposing the values its stamps let through join, all its values would, and every value the stamps
   hide is in the dictionary already.
   */
  lemma IdsStepRightIff(cap: int, table: seq<Value>, m: Marks, src: seq<int>)
    requires Distinct(table) && |m.stamp| == |table| && InTable(table, src)
    ensures var gen := (m.gen + 1) % WRAP32;
            var (next, g) := IdsStep(cap, table, m, src);
            (g, next.dict) == Decide(m.dict, cap, At(table, src))
            <==> (JoinsFound(m.dict, cap, At(table, StampScan(m.stamp, gen, src).0), |src|) ==>
                    Joins(m.dict, cap, At(table, src)) && HidesNone(table, m.stamp, gen, src, m.dict))
  {
    hide Uniq; hide StampScan; hide Distinct; hide Charge; hide Fresh; hide HidesNone; hide DictSpec.Ids;
    var gen := (m.gen + 1) % WRAP32;
    ScanFindsLess(table, m.stamp, gen, src, m.dict);
    if HidesNone(table, m.stamp, gen, src, m.dict) {
      ScanAddsAll(table, m.stamp, gen, src, m.dict);
    } else {
      ScanLosesHidden(table, m.stamp, gen, src, m.dict);
      var f, u := Fresh(At(table, StampScan(m.stamp, gen, src).0), m.dict), Fresh(Uniq(At(table, src)), m.dict);
      TailsDiffer(m.dict, f, u);
    }
  }

  lemma TailsDiffer(dict: seq<Value>, f: seq<Value>, u: seq<Value>)
    requires f != u
    ensures dict + f != dict + u
  {
    assert f == (dict + f)[|dict|..] && u == (dict + u)[|dict|..];
  }

  // ------------------------------------------------------------ whole columns

  ghost function IdsRun(cap: int, table: seq<Value>, granules: seq<seq<int>>): (r: (Marks, seq<Granule>))
    requires forall i :: 0 <= i < |granules| ==> InTable(table, granules[i])
    ensures |r.0.stamp| == |table| && |r.1| == |granules|
  {
    if granules == [] then (Unmarked(table), [])
    else
      var n := |granules| - 1;
      var (m, out) := IdsRun(cap, table, granules[..n]);
      var (next, g) := IdsStep(cap, table, m, granules[n]);
      (next, out + [g])
  }

  lemma IdsRunNothing(cap: int, table: seq<Value>)
    ensures IdsRun(cap, table, []) == (Unmarked(table), [])
  {
  }

  lemma IdsRunSnoc(cap: int, table: seq<Value>, granules: seq<seq<int>>, src: seq<int>)
    requires InTable(table, src) && forall i :: 0 <= i < |granules| ==> InTable(table, granules[i])
    ensures var (m, out) := IdsRun(cap, table, granules);
            var (next, g) := IdsStep(cap, table, m, src);
            IdsRun(cap, table, granules + [src]) == (next, out + [g])
  {
    assert (granules + [src])[..|granules|] == granules;
  }

  function Repeated(n: nat): seq<seq<int>> { seq(n, _ => [0]) }

  /** While every granule is one row of the table's first value, only that entry is ever stamped. */
  lemma {:induction false} OneEntryUsed(cap: int, table: seq<Value>, n: nat)
    requires Distinct(table) && |table| == 2 && n < WRAP32
    ensures forall i :: 0 <= i < n ==> InTable(table, Repeated(n)[i])
    ensures IdsRun(cap, table, Repeated(n)).0 == Marks([], [n, 0], n)
  {
    if n == 0 {
      assert Unmarked(table).stamp == [0, 0];
    } else {
      OneEntryUsed(cap, table, n - 1);
      assert Repeated(n)[..n - 1] == Repeated(n - 1);
      LoneRow(cap, table, Marks([], [n - 1, 0], n - 1));
    }
  }

  lemma LoneRow(cap: int, table: seq<Value>, m: Marks)
    requires Distinct(table) && |table| == 2 && |m.stamp| == 2 && m.dict == [] && m.gen + 1 < WRAP32 && m.stamp[0] <= m.gen
    ensures IdsStep(cap, table, m, [0]) == (Marks([], [m.gen + 1, m.stamp[1]], m.gen + 1), Self([table[0]]))
  {
    assert ([0])[..0] == [];
    assert StampScan(m.stamp, m.gen + 1, []) == ([], m.stamp);
    ScanLast(m.stamp, m.gen + 1, [0]);
    assert StampScan(m.stamp, m.gen + 1, [0]).0 == [0];
    assert StampScan(m.stamp, m.gen + 1, [0]).1 == [m.gen + 1, m.stamp[1]];
    assert At(table, [0]) == [table[0]];
  }

  /** The last row's granule once the generation is back at 0, which is the stamp of an entry not yet used. */
  lemma LoneRowAtZero(cap: int, table: seq<Value>, m: Marks)
    requires Distinct(table) && |table| == 2 && |m.stamp| == 2 && m.dict == [] && m.gen == WRAP32 - 1 && m.stamp[1] == 0 && cap >= 0
    ensures IdsStep(cap, table, m, [1]).1 == Shared(false, [-1])
    ensures Decide(m.dict, cap, At(table, [1])).0 == Self([table[1]])
  {
    assert ([1])[..0] == [];
    assert StampScan(m.stamp, 0, []) == ([], m.stamp);
    assert StampScan(m.stamp, 0, [1]) == ([], m.stamp);
    assert At(table, [1]) == [table[1]] && At(table, []) == [];
    assert [table[1]][..0] == [];
    assert DictSpec.Ids([], [table[1]]) == [-1];
  }

  /**
   How it goes wrong, as a run: 2^32 - 1 granules of a table's first value, then one of its second. The
   last is written as joined, with an id that names nothing, where its row should have been kept.
   */
  lemma WrapLosesRow(cap: int, table: seq<Value>)
    requires Distinct(table) && |table| == 2 && cap >= 0
    ensures var granules := Repeated(WRAP32 - 1) + [[1]];
            && (forall i :: 0 <= i < |granules| ==> InTable(table, granules[i]))
            && IdsRun(cap, table, granules).1[WRAP32 - 1] == Shared(false, [-1])
            && Decide(IdsRun(cap, table, Repeated(WRAP32 - 1)).0.dict, cap, [table[1]]).0 == Self([table[1]])
  {
    hide IdsStep; hide Decide;
    var granules := Repeated(WRAP32 - 1) + [[1]];
    OneEntryUsed(cap, table, WRAP32 - 1);
    assert granules[..WRAP32 - 1] == Repeated(WRAP32 - 1) && granules[WRAP32 - 1] == [1];
    LoneRowAtZero(cap, table, Marks([], [WRAP32 - 1, 0], WRAP32 - 1));
    assert At(table, [1]) == [table[1]];
  }
}
