/**
 The batch writer's dictionary builder: granule by granule it decides whether the granule joins the
 column dictionary, from flat values (hashing them) or from ids into a source table (hashing nothing).
 */
module DictBuilder {
  import opened Wire
  import opened DictSpec

  const WRAP32 := 0x1_0000_0000

  /** index names exactly the entries, each at its place. */
  ghost predicate IndexOk(index: map<Value, int>, entries: seq<Value>) {
    && (forall i :: 0 <= i < |entries| ==> entries[i] in index && index[entries[i]] == i)
    && (forall v :: v in index ==> 0 <= index[v] < |entries| && entries[index[v]] == v)
  }

  /** Each id names the row's value in dict. */
  ghost predicate Names(ids: seq<int>, dict: seq<Value>, rows: seq<Value>) {
    && |ids| == |rows|
    && forall i :: 0 <= i < |rows| ==> 0 <= ids[i] < |dict| && dict[ids[i]] == rows[i]
  }

  /** Each value's dictionary id, -1 for a value the dictionary lacks. */
  ghost predicate Looked(ids: seq<int>, index: map<Value, int>, vals: seq<Value>) {
    && |ids| == |vals|
    && forall i :: 0 <= i < |vals| ==> ids[i] == if vals[i] in index then index[vals[i]] else -1
  }

  lemma IndexHas(index: map<Value, int>, entries: seq<Value>, v: Value)
    requires IndexOk(index, entries)
    ensures v in index <==> v in entries
    ensures v in index ==> 0 <= index[v] < |entries| && entries[index[v]] == v
  {
  }

  lemma IndexPut(index: map<Value, int>, entries: seq<Value>, v: Value)
    requires IndexOk(index, entries) && v !in index
    ensures IndexOk(index[v := |entries|], entries + [v])
  {
  }

  lemma IndexDistinct(index: map<Value, int>, entries: seq<Value>)
    requires IndexOk(index, entries)
    ensures Distinct(entries)
  {
  }

  lemma NamesSnoc(ids: seq<int>, dict: seq<Value>, rows: seq<Value>, id: int, v: Value)
    requires Names(ids, dict, rows) && 0 <= id < |dict| && dict[id] == v
    ensures Names(ids + [id], dict, rows + [v])
  {
  }

  lemma NamesGrow(ids: seq<int>, dict: seq<Value>, grown: seq<Value>, rows: seq<Value>)
    requires Names(ids, dict, rows) && dict <= grown
    ensures Names(ids, grown, rows)
  {
  }

  /** In a dictionary without repeats, ids that name the rows are the column's ids. */
  lemma IdsUnique(dict: seq<Value>, rows: seq<Value>, ids: seq<int>)
    requires Distinct(dict) && Names(ids, dict, rows)
    ensures ids == Ids(dict, rows)
  {
    forall i | 0 <= i < |rows| ensures ids[i] == IdOf(dict, rows[i]) {
      IdOfNames(dict, rows[i]);
      assert dict[ids[i]] in dict;
    }
  }

  lemma UniqStep(s: seq<Value>, i: nat)
    requires i < |s|
    ensures Uniq(s[..i + 1]) == if s[i] in Uniq(s[..i]) then Uniq(s[..i]) else Uniq(s[..i]) + [s[i]]
  {
    assert s[..i + 1][..i] == s[..i];
  }

  lemma FreshSnoc(s: seq<Value>, v: Value, dict: seq<Value>)
    ensures Fresh(s + [v], dict) == if v in dict then Fresh(s, dict) else Fresh(s, dict) + [v]
  {
    assert (s + [v])[..|s|] == s;
  }

  lemma ChargeSnoc(s: seq<Value>, v: Value)
    ensures Charge(s + [v]) == Charge(s) + EntryCharge(v)
    ensures Raw(s + [v]) == Raw(s) + EntryRaw(v)
  {
    assert (s + [v])[..|s|] == s;
  }

  /** Growing a dictionary by the next of a granule's distinct values. */
  lemma GrowStep(vals: seq<Value>, l: nat, was: seq<Value>, entries: seq<Value>)
    requires Distinct(vals) && l < |vals| && entries == was + Fresh(vals[..l], was)
    ensures vals[l] in entries <==> vals[l] in was
    ensures was + Fresh(vals[..l + 1], was) == if vals[l] in was then entries else entries + [vals[l]]
  {
    hide Distinct; hide Fresh;
    assert vals[..l + 1] == vals[..l] + [vals[l]];
    FreshSnoc(vals[..l], vals[l], was);
    NotBefore(vals, l);
    FreshIn(vals[..l], was, vals[l]);
    assert was + (Fresh(vals[..l], was) + [vals[l]]) == entries + [vals[l]];
  }

  // ------------------------------------------------------------ the stamp scan of the ids path

  /** The source entries a granule's ids use, in row order, as the generation stamps find them. */
  function StampScan(stamp: seq<uint32>, gen: uint32, ids: seq<int>): (r: (seq<int>, seq<uint32>))
    requires forall i :: 0 <= i < |ids| ==> 0 <= ids[i] < |stamp|
    ensures |r.1| == |stamp|
    ensures forall i :: 0 <= i < |r.0| ==> 0 <= r.0[i] < |stamp|
  {
    if ids == [] then ([], stamp)
    else
      var (f, s) := StampScan(stamp, gen, ids[..|ids| - 1]);
      var e := ids[|ids| - 1];
      if s[e] != gen then (f + [e], s[e := gen]) else (f, s)
  }

  function At(table: seq<Value>, ids: seq<int>): (r: seq<Value>)
    requires forall i :: 0 <= i < |ids| ==> 0 <= ids[i] < |table|
    ensures |r| == |ids|
  {
    seq(|ids|, i requires 0 <= i < |ids| => table[ids[i]])
  }

  lemma AtIn(table: seq<Value>, ids: seq<int>, e: int)
    requires Distinct(table) && 0 <= e < |table|
    requires forall i :: 0 <= i < |ids| ==> 0 <= ids[i] < |table|
    ensures table[e] in At(table, ids) <==> e in ids
  {
    if e in ids {
      var j :| 0 <= j < |ids| && ids[j] == e;
      assert At(table, ids)[j] == table[e];
    }
    if table[e] in At(table, ids) {
      var j :| 0 <= j < |ids| && At(table, ids)[j] == table[e];
      assert table[ids[j]] == table[e];
    }
  }

  /** After a scan an entry carries the generation when it did before or when the granule used it. */
  lemma {:induction false} StampScanStamps(stamp: seq<uint32>, gen: uint32, ids: seq<int>)
    requires forall i :: 0 <= i < |ids| ==> 0 <= ids[i] < |stamp|
    ensures var (f, s) := StampScan(stamp, gen, ids);
            && (forall e :: 0 <= e < |stamp| ==> s[e] == if e in ids then gen else stamp[e])
            && (forall e :: e in f <==> e in ids && stamp[e] != gen)
  {
    if ids != [] {
      var n := |ids| - 1;
      StampScanStamps(stamp, gen, ids[..n]);
      assert ids == ids[..n] + [ids[n]];
    }
  }

  lemma ScanNothing(table: seq<Value>, stamp: seq<uint32>, gen: uint32)
    ensures StampScan(stamp, gen, []) == ([], stamp) && At(table, []) == [] && Uniq([]) == []
  {
  }

  lemma ScanLast(stamp: seq<uint32>, gen: uint32, ids: seq<int>)
    requires ids != [] && forall i :: 0 <= i < |ids| ==> 0 <= ids[i] < |stamp|
    ensures var (f, s) := StampScan(stamp, gen, ids[..|ids| - 1]);
            var e := ids[|ids| - 1];
            StampScan(stamp, gen, ids) == if s[e] != gen then (f + [e], s[e := gen]) else (f, s)
  {
  }

  lemma UniqLast(s: seq<Value>)
    requires s != []
    ensures var u, v := Uniq(s[..|s| - 1]), s[|s| - 1]; Uniq(s) == if v in u then u else u + [v]
  {
  }

  /** One more row: the scan and the distinct values grow alike, unless a stale stamp hides the row's entry. */
  lemma ScanStep(table: seq<Value>, stamp: seq<uint32>, gen: uint32, ids: seq<int>)
    requires Distinct(table) && |table| == |stamp| && ids != []
    requires forall i :: 0 <= i < |ids| ==> 0 <= ids[i] < |stamp|
    ensures var init, e := ids[..|ids| - 1], ids[|ids| - 1];
            var f, u := StampScan(stamp, gen, init).0, Uniq(At(table, init));
            && At(table, StampScan(stamp, gen, ids).0) == At(table, f) + (if e in init || stamp[e] == gen then [] else [table[e]])
            && Uniq(At(table, ids)) == if e in init then u else u + [table[e]]
  {
    hide Uniq; hide StampScan; hide Distinct;
    var n := |ids| - 1;
    var init, e := ids[..n], ids[n];
    StampScanStamps(stamp, gen, init);
    ScanLast(stamp, gen, ids);
    AtLast(table, ids);
    UniqLast(At(table, ids));
    AtIn(table, init, e);
    UniqIn(At(table, init), table[e]);
    AtSnoc(table, StampScan(stamp, gen, init).0, e);
  }

  lemma AtLast(table: seq<Value>, ids: seq<int>)
    requires ids != [] && forall i :: 0 <= i < |ids| ==> 0 <= ids[i] < |table|
    ensures var n := |ids| - 1; At(table, ids)[..n] == At(table, ids[..n]) && At(table, ids)[n] == table[ids[n]]
  {
  }

  lemma {:induction false} StampScanUniq(table: seq<Value>, stamp: seq<uint32>, gen: uint32, ids: seq<int>)
    requires Distinct(table) && |table| == |stamp|
    requires forall i :: 0 <= i < |ids| ==> 0 <= ids[i] < |stamp|
    requires forall i :: 0 <= i < |ids| ==> stamp[ids[i]] != gen
    ensures At(table, StampScan(stamp, gen, ids).0) == Uniq(At(table, ids))
  {
    hide Uniq; hide StampScan; hide Distinct; hide At;
    if ids == [] {
      ScanNothing(table, stamp, gen);
    } else {
      StampScanUniq(table, stamp, gen, ids[..|ids| - 1]);
      ScanStep(table, stamp, gen, ids);
    }
  }

  /** Whatever the stamps, the scan finds no value twice. */
  lemma {:induction false} ScanDistinct(table: seq<Value>, stamp: seq<uint32>, gen: uint32, ids: seq<int>)
    requires Distinct(table) && |table| == |stamp|
    requires forall i :: 0 <= i < |ids| ==> 0 <= ids[i] < |stamp|
    ensures Distinct(At(table, StampScan(stamp, gen, ids).0))
  {
    hide Uniq; hide StampScan; hide Distinct;
    if ids == [] {
      ScanNothing(table, stamp, gen);
      NoneDistinct();
    } else {
      var init, e := ids[..|ids| - 1], ids[|ids| - 1];
      ScanDistinct(table, stamp, gen, init);
      ScanStep(table, stamp, gen, ids);
      StampScanStamps(stamp, gen, init);
      var f := StampScan(stamp, gen, init).0;
      AtIn(table, f, e);
      if e !in init && stamp[e] != gen {
        DistinctSnoc(At(table, f), table[e]);
      } else {
        assert At(table, f) + [] == At(table, f);
      }
    }
  }

  lemma NoneDistinct()
    ensures Distinct([])
  {
  }

  /**
   The scan finds exactly the granule's distinct values if and only if no entry the granule uses
   already carries the granule's generation.
   */
  lemma StampScanExact(table: seq<Value>, stamp: seq<uint32>, gen: uint32, ids: seq<int>)
    requires Distinct(table) && |table| == |stamp|
    requires forall i :: 0 <= i < |ids| ==> 0 <= ids[i] < |stamp|
    ensures At(table, StampScan(stamp, gen, ids).0) == Uniq(At(table, ids))
       <==> forall i :: 0 <= i < |ids| ==> stamp[ids[i]] != gen
  {
    if forall i :: 0 <= i < |ids| ==> stamp[ids[i]] != gen {
      StampScanUniq(table, stamp, gen, ids);
    } else {
      var i :| 0 <= i < |ids| && stamp[ids[i]] == gen;
      StampScanStamps(stamp, gen, ids);
      var f := StampScan(stamp, gen, ids).0;
      var v := table[ids[i]];
      assert At(table, ids)[i] == v;
      AtIn(table, ids, ids[i]);
      UniqIn(At(table, ids), v);
      AtIn(table, f, ids[i]);
    }
  }

  // ------------------------------------------------------------ the ids path, step by step

  /** The join decision on the values a scan found. */
  predicate JoinsFound(dict: seq<Value>, cap: int, found: seq<Value>, rows: nat) {
    && |found| * MIN_REPEAT <= rows && |dict| + |found| <= MAX_SHARED_ENTRIES
    && Charge(Fresh(found, dict)) <= cap - Charge(dict)
  }

  /** A granule decided on the values a scan found; a row the dictionary then lacks gets the id -1. */
  function DecideFound(dict: seq<Value>, cap: int, found: seq<Value>, rows: seq<Value>): (Granule, seq<Value>) {
    if JoinsFound(dict, cap, found, |rows|) then
      var d := dict + Fresh(found, dict);
      (Shared(Wide(d), Ids(d, rows)), d)
    else
      (Self(rows), dict)
  }

  /** What the ids path carries from granule to granule. */
  datatype Marks = Marks(dict: seq<Value>, stamp: seq<uint32>, gen: uint32)

  ghost predicate InTable(table: seq<Value>, src: seq<int>) { forall i :: 0 <= i < |src| ==> 0 <= src[i] < |table| }

  /** The next granule through the stamps, under the next generation, wrapped as it is. */
  ghost function IdsStep(cap: int, table: seq<Value>, m: Marks, src: seq<int>): (r: (Marks, Granule))
    requires |m.stamp| == |table| && InTable(table, src)
    ensures |r.0.stamp| == |table|
  {
    var gen := (m.gen + 1) % WRAP32;
    var (f, stamp) := StampScan(m.stamp, gen, src);
    var (g, dict) := DecideFound(m.dict, cap, At(table, f), At(table, src));
    (Marks(dict, stamp, gen), g)
  }

  function Unmarked(table: seq<Value>): Marks { Marks([], seq(|table|, _ => 0), 0) }

  // ------------------------------------------------------------ the builder

  class SharedDictBuilder {
    const cap: int
    var charge: int
    var raw: int
    var entries: seq<Value>

    // The values path.
    var index: map<Value, int>

    // The ids path: a source entry's dictionary id (-1 until it joins) and its generation stamp.
    var bound: bool
    var remap: seq<int>
    var stamp: seq<uint32>
    var gen: uint32
    ghost var turns: nat

    ghost predicate Accounted()
      reads this`charge, this`raw, this`entries
    {
      charge == Charge(entries) && raw == Raw(entries)
    }

    ghost predicate ValuesOk()
      reads this
    {
      Accounted() && IndexOk(index, entries)
    }

    ghost predicate IdsOk(table: seq<Value>)
      reads this
    {
      && Accounted() && Distinct(entries) && Distinct(table)
      && gen == turns % WRAP32
      && (!bound ==> entries == [] && turns == 0)
      && (bound ==> RemapOk(remap, table, entries) && |stamp| == |table|
                    && (turns < WRAP32 ==> forall e :: 0 <= e < |stamp| ==> stamp[e] <= gen))
    }

    /** What the ids path has carried this far. */
    ghost function MarksOver(table: seq<Value>): Marks
      reads this
    {
      if bound then Marks(entries, stamp, gen) else Unmarked(table)
    }

    constructor (cap: int)
      ensures this.cap == cap && entries == []
      ensures ValuesOk()
      ensures forall table :: Distinct(table) ==> IdsOk(table)
      ensures turns == 0 && gen == 0 && !bound
    {
      this.cap := cap;
      charge, raw, entries, index := 0, 0, [], map[];
      bound, remap, stamp, gen, turns := false, [], [], 0, 0;
    }

    /** The granule decision on the counts a caller has gathered. */
    predicate JoinsAt(distinct: nat, rows: nat, newCharge: int)
      reads this
    {
      && distinct * MIN_REPEAT <= rows && |entries| + distinct <= MAX_SHARED_ENTRIES
      && newCharge <= cap - charge
    }

    method Insert(v: Value) returns (did: int)
      requires Accounted()
      modifies this`charge, this`raw, this`entries
      ensures Accounted()
      ensures entries == old(entries) + [v] && did == |old(entries)|
    {
      ChargeSnoc(entries, v);
      var n := VarintLen(|v.bytes|);
      raw := raw + n + |v.bytes|;
      charge := charge + n + |v.bytes| + DICT_ENTRY_BYTES;
      entries := entries + [v];
      did := |entries| - 1;
    }

    /** One byte exactly while every value's id fits it, two otherwise, which holds any dictionary's. */
    method Width() returns (width: nat)
      ensures width == if Wide(entries) then 2 else 1
      ensures width == 1 <==> forall v :: v in entries ==> IdOf(entries, v) < 256
      ensures |entries| <= MAX_SHARED_ENTRIES ==> forall v :: v in entries ==> IdOf(entries, v) < 65536
    {
      width := if |entries| > 256 then 2 else 1;
      forall v | v in entries ensures IdOf(entries, v) < |entries| {
        IdOfNames(entries, v);
      }
      if width == 2 {
        assert entries[|entries| - 1] in entries;
      }
    }

    /** A granule's distinct values in row order, each with its dictionary id or -1. */
    method ScanValues(rows: seq<Value>)
      returns (localVals: seq<Value>, locals: seq<int>, rowLocal: seq<int>, newCharge: int)
      requires IndexOk(index, entries)
      ensures localVals == Uniq(rows) && Looked(locals, index, localVals)
      ensures Names(rowLocal, localVals, rows)
      ensures newCharge == Charge(Fresh(localVals, entries))
    {
      hide IndexOk; hide Names; hide Looked; hide Charge; hide Uniq; hide Fresh;
      var seen: map<Value, int> := map[];
      localVals, locals, rowLocal, newCharge := [], [], [], 0;
      ScanEmpty(rows, index, entries);
      for i := 0 to |rows|
        invariant localVals == Uniq(rows[..i]) && Looked(locals, index, localVals)
        invariant IndexOk(seen, localVals)
        invariant Names(rowLocal, localVals, rows[..i])
        invariant newCharge == Charge(Fresh(localVals, entries))
      {
        var v := rows[i];
        UniqStep(rows, i);
        IndexHas(seen, localVals, v);
        assert rows[..i + 1] == rows[..i] + [v];
        var local := |localVals|;
        if v in seen {
          local := seen[v];
        } else {
          IndexPut(seen, localVals, v);
          seen := seen[v := local];
          IndexHas(index, entries, v);
          FreshSnoc(localVals, v, entries);
          LookedSnoc(locals, index, localVals, v);
          if v in index {
            locals := locals + [index[v]];
          } else {
            ChargeSnoc(Fresh(localVals, entries), v);
            var n := VarintLen(|v.bytes|);
            newCharge := newCharge + n + |v.bytes| + DICT_ENTRY_BYTES;
            locals := locals + [-1];
          }
          NamesGrow(rowLocal, localVals, localVals + [v], rows[..i]);
          localVals := localVals + [v];
        }
        NamesSnoc(rowLocal, localVals, rows[..i], local, v);
        rowLocal := rowLocal + [local];
      }
      assert rows[..|rows|] == rows;
    }

    /** Inserts the values the dictionary lacks and resolves every local value to its id. */
    method InsertLocals(localVals: seq<Value>, locals: seq<int>) returns (resolved: seq<int>)
      requires ValuesOk() && Distinct(localVals) && Looked(locals, index, localVals)
      modifies this`charge, this`raw, this`entries, this`index
      ensures ValuesOk()
      ensures entries == old(entries) + Fresh(localVals, old(entries))
      ensures Names(resolved, entries, localVals)
    {
      hide IndexOk; hide Names; hide Looked; hide Fresh; hide Distinct; hide Accounted;
      ghost var was, wasIndex := entries, index;
      resolved := [];
      assert localVals[..0] == [];
      InsertEmpty(was);
      for l := 0 to |localVals|
        invariant ValuesOk()
        invariant entries == was + Fresh(localVals[..l], was)
        invariant Names(resolved, entries, localVals[..l])
      {
        var v := localVals[l];
        GrowStep(localVals, l, was, entries);
        LookedAt(locals, wasIndex, was, localVals, l);
        assert localVals[..l + 1] == localVals[..l] + [v];
        var did := locals[l];
        IndexHas(index, entries, v);
        if did < 0 {
          ghost var before := entries;
          did := Insert(v);
          IndexPut(index, before, v);
          index := index[v := did];
          NamesGrow(resolved, before, entries, localVals[..l]);
        }
        NamesSnoc(resolved, entries, localVals[..l], did, v);
        resolved := resolved + [did];
      }
      assert localVals[..|localVals|] == localVals;
    }

    /** Each row's dictionary id, through its place among the granule's distinct values. */
    static method GatherLocals(
      rowLocal: seq<int>, ghost localVals: seq<Value>, ghost rows: seq<Value>, locals: seq<int>, ghost dict: seq<Value>
    ) returns (ids: seq<int>)
      requires Names(rowLocal, localVals, rows) && Names(locals, dict, localVals)
      ensures Names(ids, dict, rows)
    {
      ids := [];
      for i := 0 to |rowLocal|
        invariant Names(ids, dict, rows[..i])
      {
        ids := ids + [locals[rowLocal[i]]];
      }
      assert rows[..|rows|] == rows;
    }

    /** Each row's dictionary id, through its source entry. */
    static method GatherRemapped(remap: seq<int>, table: seq<Value>, src: seq<int>, ghost dict: seq<Value>)
      returns (ids: seq<int>)
      requires RemapOk(remap, table, dict) && Distinct(dict) && InTable(table, src)
      ensures ids == DictSpec.Ids(dict, At(table, src))
    {
      hide RemapOk; hide Distinct;
      ids := [];
      for i := 0 to |src|
        invariant ids == DictSpec.Ids(dict, At(table, src))[..i]
      {
        RemapAt(remap, table, dict, src[i]);
        IdIs(dict, table[src[i]], remap[src[i]]);
        ids := ids + [remap[src[i]]];
      }
    }

    /** Decides a granule given as flat values. */
    method AddValues(rows: seq<Value>) returns (joined: bool, ids: seq<int>)
      requires ValuesOk()
      modifies this`charge, this`raw, this`entries, this`index
      ensures ValuesOk()
      ensures Decide(old(entries), cap, rows) == (if joined then Shared(Wide(entries), ids) else Self(rows), entries)
    {
      hide IndexOk; hide Names; hide Looked; hide Fresh; hide Uniq; hide Ids; hide Distinct; hide Charge;
      var localVals, locals, rowLocal, newCharge := ScanValues(rows);
      UniqDistinct(rows);
      ids := [];
      LookedLen(locals, index, localVals);
      joined := JoinsAt(|locals|, |rows|, newCharge);
      if joined {
        locals := InsertLocals(localVals, locals);
        ids := GatherLocals(rowLocal, localVals, rows, locals, entries);
        IndexDistinct(index, entries);
        IdsUnique(entries, rows, ids);
      }
    }

    /** Counts a granule's distinct source entries by stamping them with the granule's generation. */
    method ScanIDs(table: seq<Value>, src: seq<int>) returns (firsts: seq<int>, newCharge: int)
      requires RemapOk(remap, table, entries) && |stamp| == |table|
      requires forall i :: 0 <= i < |src| ==> 0 <= src[i] < |table|
      modifies this`stamp
      ensures |stamp| == |table|
      ensures (firsts, stamp) == StampScan(old(stamp), gen, src)
      ensures newCharge == Charge(Fresh(At(table, firsts), entries))
    {
      hide RemapOk; hide Fresh; hide Charge;
      firsts, newCharge := [], 0;
      ScanEmpty(At(table, []), map[], entries);
      assert At(table, []) == [];
      for i := 0 to |src|
        invariant |stamp| == |table|
        invariant (firsts, stamp) == StampScan(old(stamp), gen, src[..i])
        invariant newCharge == Charge(Fresh(At(table, firsts), entries))
      {
        var e := src[i];
        assert src[..i + 1][..i] == src[..i];
        if stamp[e] != gen {
          stamp := stamp[e := gen];
          AtSnoc(table, firsts, e);
          FreshSnoc(At(table, firsts), table[e], entries);
          RemapAt(remap, table, entries, e);
          if remap[e] < 0 {
            ChargeSnoc(Fresh(At(table, firsts), entries), table[e]);
            var n := VarintLen(|table[e].bytes|);
            newCharge := newCharge + n + |table[e].bytes| + DICT_ENTRY_BYTES;
          }
          firsts := firsts + [e];
        }
      }
      assert src[..|src|] == src;
    }

    /** Inserts the source entries the dictionary lacks. */
    method InsertFirsts(table: seq<Value>, firsts: seq<int>)
      requires Accounted() && Distinct(table) && RemapOk(remap, table, entries)
      requires forall i :: 0 <= i < |firsts| ==> 0 <= firsts[i] < |table|
      requires Distinct(At(table, firsts))
      modifies this`charge, this`raw, this`entries, this`remap
      ensures Accounted() && RemapOk(remap, table, entries)
      ensures entries == old(entries) + Fresh(At(table, firsts), old(entries))
    {
      hide RemapOk; hide Fresh; hide Distinct; hide Accounted;
      ghost var was, vals := entries, At(table, firsts);
      assert vals[..0] == [];
      InsertEmpty(was);
      for k := 0 to |firsts|
        invariant Accounted() && RemapOk(remap, table, entries)
        invariant entries == was + Fresh(vals[..k], was)
      {
        var e := firsts[k];
        GrowStep(vals, k, was, entries);
        RemapAt(remap, table, entries, e);
        if remap[e] < 0 {
          RemapGrows(remap, table, entries, e);
          var did := Insert(table[e]);
          remap := remap[e := did];
        }
      }
      assert vals[..|vals|] == vals;
    }

    /** Sets the marks up on first use. */
    method Prepare(table: seq<Value>)
      requires IdsOk(table)
      modifies this`bound, this`remap, this`stamp
      ensures IdsOk(table) && bound && MarksOver(table) == old(MarksOver(table))
    {
      if !bound {
        stamp := seq(|table|, i => 0);
        remap := seq(|table|, i => -1);
        bound := true;
        RemapEmpty(remap, table);
      }
    }

    /**
     Decides a granule given as ids into a table of distinct values, as the stamps lead it to; for the
     first 2^32 - 1 granules that is the decision on the granule's rows.
     */
    method AddIDs(table: seq<Value>, src: seq<int>) returns (joined: bool, ids: seq<int>)
      requires IdsOk(table) && InTable(table, src)
      modifies this`charge, this`raw, this`entries, this`bound, this`remap, this`stamp, this`gen, this`turns
      ensures IdsOk(table) && bound && turns == old(turns) + 1
      ensures var g := if joined then Shared(Wide(entries), ids) else Self(At(table, src));
              && (MarksOver(table), g) == IdsStep(cap, table, old(MarksOver(table)), src)
              && (old(turns) < WRAP32 - 1 ==> (g, entries) == Decide(old(entries), cap, At(table, src)))
    {
      hide Fresh; hide Uniq; hide DictSpec.Ids; hide Distinct; hide Charge; hide Raw; hide StampScan; hide RemapOk; hide At; hide Unmarked;
      Prepare(table);
      gen := (gen + 1) % WRAP32;
      turns := turns + 1;
      ghost var before := stamp;
      var firsts, newCharge := ScanIDs(table, src);
      StampScanStamps(before, gen, src);
      ScanDistinct(table, before, gen, src);
      if turns < WRAP32 {
        StampScanUniq(table, before, gen, src);
      }
      ids := [];
      joined := JoinsAt(|firsts|, |src|, newCharge);
      if joined {
        InsertFirsts(table, firsts);
        FoundDistinct(old(entries), At(table, firsts));
        ids := GatherRemapped(remap, table, src, entries);
      }
    }
  }

  /** An id that names v, or -1 when nothing does, is v's id. */
  lemma IdIs(dict: seq<Value>, v: Value, id: int)
    requires Distinct(dict) && if v in dict then 0 <= id < |dict| && dict[id] == v else id == -1
    ensures id == IdOf(dict, v)
  {
    IdOfNames(dict, v);
  }

  lemma FoundDistinct(dict: seq<Value>, found: seq<Value>)
    requires Distinct(dict) && Distinct(found)
    ensures Distinct(dict + Fresh(found, dict))
  {
    hide Distinct;
    FreshDistinct(found, dict);
    forall v | v in Fresh(found, dict) ensures v !in dict {
      FreshIn(found, dict, v);
    }
    DistinctConcat(dict, Fresh(found, dict));
  }

  lemma ScanEmpty(rows: seq<Value>, index: map<Value, int>, entries: seq<Value>)
    ensures Uniq(rows[..0]) == [] && Looked([], index, []) && IndexOk(map[], []) && Names([], [], rows[..0])
    ensures Charge(Fresh([], entries)) == 0
  {
  }

  lemma InsertEmpty(was: seq<Value>)
    ensures Fresh([], was) == [] && was + [] == was && Names([], was, [])
  {
  }

  lemma LookedSnoc(ids: seq<int>, index: map<Value, int>, vals: seq<Value>, v: Value)
    requires Looked(ids, index, vals)
    ensures Looked(ids + [if v in index then index[v] else -1], index, vals + [v])
  {
  }

  lemma LookedLen(ids: seq<int>, index: map<Value, int>, vals: seq<Value>)
    requires Looked(ids, index, vals)
    ensures |ids| == |vals|
  {
  }

  lemma LookedAt(ids: seq<int>, index: map<Value, int>, entries: seq<Value>, vals: seq<Value>, i: nat)
    requires Looked(ids, index, vals) && IndexOk(index, entries) && i < |vals|
    ensures |ids| == |vals|
    ensures if vals[i] in entries then 0 <= ids[i] < |entries| && entries[ids[i]] == vals[i] else ids[i] < 0
  {
  }

  lemma AtSnoc(table: seq<Value>, ids: seq<int>, e: int)
    requires forall i :: 0 <= i < |ids| ==> 0 <= ids[i] < |table|
    requires 0 <= e < |table|
    ensures At(table, ids + [e]) == At(table, ids) + [table[e]]
  {
  }

  /** remap sends exactly the source entries already in the dictionary to their place in it. */
  ghost predicate RemapOk(remap: seq<int>, table: seq<Value>, entries: seq<Value>) {
    && |remap| == |table|
    && (forall e :: 0 <= e < |table| ==> -1 <= remap[e] < |entries|)
    && (forall e :: 0 <= e < |table| && remap[e] >= 0 ==> entries[remap[e]] == table[e])
    && (forall e :: 0 <= e < |table| && remap[e] < 0 ==> table[e] !in entries)
  }

  lemma RemapEmpty(remap: seq<int>, table: seq<Value>)
    requires |remap| == |table| && forall e :: 0 <= e < |remap| ==> remap[e] == -1
    ensures RemapOk(remap, table, [])
  {
  }

  lemma RemapAt(remap: seq<int>, table: seq<Value>, entries: seq<Value>, e: int)
    requires RemapOk(remap, table, entries) && 0 <= e < |table|
    ensures |remap| == |table|
    ensures if table[e] in entries then 0 <= remap[e] < |entries| && entries[remap[e]] == table[e] else remap[e] == -1
  {
  }

  lemma RemapGrows(remap: seq<int>, table: seq<Value>, entries: seq<Value>, e: int)
    requires RemapOk(remap, table, entries) && Distinct(table)
    requires 0 <= e < |table| && remap[e] < 0
    ensures RemapOk(remap[e := |entries|], table, entries + [table[e]])
  {
  }
}
