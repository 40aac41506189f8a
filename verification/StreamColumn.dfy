/**
 The streaming writer's bytes column. Rows arrive one at a time, as values or as ids into tables that
 bindings cache against; one granule is staged, then sealed against the column dictionary. The caches
 are guarded by generation stamps, and whatever the mix of calls the column sealed is the one the batch
 writer builds from the same rows.
 */
module StreamColumn {
  import opened Wire
  import opened Chunking
  import opened DictSpec
  import opened DictBuilder
  import opened SharedDict
  import opened Lease

  /** The nonzero uint32 stamps a generation cycles through. */
  const GENERATIONS := WRAP32 - 1

  const MAX_INT := TWO63 - 1

  datatype Slot = Slot(stamp: uint32, gid: int)

  // ------------------------------------------------------------ the staged granule

  /** index holds exactly the granule's values the dictionary lacks. */
  ghost predicate NewOk(vals: seq<Value>, did: seq<int>, index: map<Value, int>, dict: seq<Value>) {
    && |did| == |vals|
    && (forall g :: 0 <= g < |vals| && did[g] < 0 ==> vals[g] in index && index[vals[g]] == g)
    && (forall v :: v in index ==> 0 <= index[v] < |vals| && vals[index[v]] == v && did[index[v]] < 0 && v !in dict)
  }

  /** slots name the place of every dictionary value the granule holds, and of no other. */
  ghost predicate KnownOk(vals: seq<Value>, did: seq<int>, slots: seq<Slot>, gen: uint32, dict: seq<Value>) {
    && |did| == |vals| && |slots| == |dict|
    && (forall g :: 0 <= g < |vals| && did[g] >= 0 ==>
          did[g] < |dict| && dict[did[g]] == vals[g] && slots[did[g]] == Slot(gen, g))
    && (forall i :: 0 <= i < |slots| ==> slots[i].stamp <= gen)
    && (forall i :: 0 <= i < |slots| && slots[i].stamp == gen ==>
          0 <= slots[i].gid < |vals| && did[slots[i].gid] == i)
  }

  lemma NewHit(vals: seq<Value>, did: seq<int>, index: map<Value, int>, dict: seq<Value>, v: Value)
    requires NewOk(vals, did, index, dict) && v in index
    ensures 0 <= index[v] < |vals| && vals[index[v]] == v
  {
  }

  lemma KnownHit(vals: seq<Value>, did: seq<int>, slots: seq<Slot>, gen: uint32, dict: seq<Value>, i: int)
    requires KnownOk(vals, did, slots, gen, dict) && 0 <= i < |dict| && slots[i].stamp == gen
    ensures 0 <= slots[i].gid < |vals| && vals[slots[i].gid] == dict[i]
  {
    assert did[slots[i].gid] == i;
  }

  lemma AddNew(vals: seq<Value>, did: seq<int>, index: map<Value, int>, slots: seq<Slot>, gen: uint32, dict: seq<Value>, v: Value)
    requires NewOk(vals, did, index, dict) && KnownOk(vals, did, slots, gen, dict) && v !in index && v !in dict
    ensures v !in vals
    ensures NewOk(vals + [v], did + [-1], index[v := |vals|], dict)
    ensures KnownOk(vals + [v], did + [-1], slots, gen, dict)
  {
    forall g | 0 <= g < |vals| ensures vals[g] != v {
      assert did[g] >= 0 ==> vals[g] in dict;
    }
  }

  lemma AddKnownNew(vals: seq<Value>, did: seq<int>, index: map<Value, int>, dict: seq<Value>, i: int)
    requires NewOk(vals, did, index, dict) && 0 <= i < |dict|
    ensures NewOk(vals + [dict[i]], did + [i], index, dict)
  {
  }

  lemma AddKnown(vals: seq<Value>, did: seq<int>, slots: seq<Slot>, gen: uint32, dict: seq<Value>, i: int)
    requires KnownOk(vals, did, slots, gen, dict) && 0 <= i < |dict| && slots[i].stamp != gen
    ensures KnownOk(vals + [dict[i]], did + [i], slots[i := Slot(gen, |vals|)], gen, dict)
  {
  }

  lemma KnownAbsent(vals: seq<Value>, did: seq<int>, index: map<Value, int>, slots: seq<Slot>, gen: uint32, dict: seq<Value>, i: int)
    requires NewOk(vals, did, index, dict) && KnownOk(vals, did, slots, gen, dict) && Distinct(dict)
    requires 0 <= i < |dict| && slots[i].stamp != gen
    ensures dict[i] !in vals
  {
    forall g | 0 <= g < |vals| ensures vals[g] != dict[i] {
      if did[g] < 0 {
        assert vals[g] in index;
      } else {
        assert did[g] != i;
      }
    }
  }

  // ------------------------------------------------------------ generations

  /**
   A stamp stands for the granule it was set in: bindings count wraps of the generation in epoch, so a
   stamp and its epoch name one granule of the column.
   */
  function GranuleOf(epoch: int, stamp: int): int { epoch * GENERATIONS + stamp - 1 }

  /** The epoch cannot wrap: a column sealing that many granules has more rows than an int counts. */
  lemma EpochFits(n: nat)
    requires n <= MAX_INT
    ensures n / GENERATIONS < WRAP32 - 1
    ensures GranuleOf(n / GENERATIONS, n % GENERATIONS + 1) == n
  {
  }

  lemma NextGranule(n: nat)
    requires n < MAX_INT
    ensures var gen, epoch := n % GENERATIONS + 1, n / GENERATIONS;
            if gen == WRAP32 - 1 then (n + 1) % GENERATIONS == 0 && (n + 1) / GENERATIONS == epoch + 1
            else (n + 1) % GENERATIONS == gen && (n + 1) / GENERATIONS == epoch
  {
    var q, r := n / GENERATIONS, n % GENERATIONS;
    assert n == q * GENERATIONS + r;
    if r + 1 == GENERATIONS {
      DivUnique(n + 1, GENERATIONS, q + 1, 0);
    } else {
      DivUnique(n + 1, GENERATIONS, q, r + 1);
    }
  }

  /**
   What a binding's caches promise while granule n, holding vals, is staged over dictionary dict: no
   stamp is from a later granule, a stamp from this one has a gid naming the entry, and a dictionary
   id names the entry for good.
   */
  ghost predicate CachesOk(
    entries: seq<Value>, stamp: seq<uint32>, gid: seq<int>, did: seq<int>, epoch: int,
    n: nat, vals: seq<Value>, dict: seq<Value>)
  {
    && |stamp| == |gid| == |did| == |entries|
    && (forall e :: 0 <= e < |entries| && stamp[e] != 0 ==> GranuleOf(epoch, stamp[e]) <= n)
    && (forall e :: 0 <= e < |entries| && stamp[e] != 0 && GranuleOf(epoch, stamp[e]) == n ==>
          0 <= gid[e] < |vals| && vals[gid[e]] == entries[e])
    && (forall e :: 0 <= e < |entries| && did[e] >= 0 ==> did[e] < |dict| && dict[did[e]] == entries[e])
  }

  /** The caches stay right while the granule and the dictionary only grow. */
  lemma CachesGrow(
    entries: seq<Value>, stamp: seq<uint32>, gid: seq<int>, did: seq<int>, epoch: int,
    n: nat, vals: seq<Value>, dict: seq<Value>, vals': seq<Value>, dict': seq<Value>)
    requires CachesOk(entries, stamp, gid, did, epoch, n, vals, dict) && vals <= vals' && dict <= dict'
    ensures CachesOk(entries, stamp, gid, did, epoch, n, vals', dict')
  {
  }

  /** And across a seal, whatever the next granule holds. */
  lemma CachesSeal(
    entries: seq<Value>, stamp: seq<uint32>, gid: seq<int>, did: seq<int>, epoch: int,
    n: nat, vals: seq<Value>, dict: seq<Value>, vals': seq<Value>, dict': seq<Value>)
    requires CachesOk(entries, stamp, gid, did, epoch, n, vals, dict) && dict <= dict'
    ensures CachesOk(entries, stamp, gid, did, epoch, n + 1, vals', dict')
  {
  }

  lemma CachesClear(
    entries: seq<Value>, gid: seq<int>, did: seq<int>, epoch: int, n: nat, vals: seq<Value>, dict: seq<Value>)
    requires |gid| == |did| == |entries|
    requires forall e :: 0 <= e < |entries| && did[e] >= 0 ==> did[e] < |dict| && dict[did[e]] == entries[e]
    ensures CachesOk(entries, seq(|entries|, i => 0), gid, did, epoch, n, vals, dict)
  {
  }

  lemma CachesSet(
    entries: seq<Value>, stamp: seq<uint32>, gid: seq<int>, did: seq<int>, n: nat, vals: seq<Value>, dict: seq<Value>,
    e: int, g: int, i: int)
    requires n <= MAX_INT && CachesOk(entries, stamp, gid, did, n / GENERATIONS, n, vals, dict)
    requires 0 <= e < |entries| && 0 <= g < |vals| && vals[g] == entries[e]
    requires i >= 0 ==> i < |dict| && dict[i] == entries[e]
    ensures CachesOk(entries, stamp[e := n % GENERATIONS + 1], gid[e := g], did[e := i], n / GENERATIONS, n, vals, dict)
  {
    EpochFits(n);
  }

  lemma CachesHit(
    entries: seq<Value>, stamp: seq<uint32>, gid: seq<int>, did: seq<int>, n: nat, vals: seq<Value>, dict: seq<Value>, e: int)
    requires n <= MAX_INT && CachesOk(entries, stamp, gid, did, n / GENERATIONS, n, vals, dict)
    requires 0 <= e < |entries|
    ensures |stamp| == |gid| == |did| == |entries|
    ensures stamp[e] == n % GENERATIONS + 1 ==> 0 <= gid[e] < |vals| && vals[gid[e]] == entries[e]
    ensures did[e] >= 0 ==> did[e] < |dict| && dict[did[e]] == entries[e]
  {
    EpochFits(n);
  }

  // ------------------------------------------------------------ the column

  lemma UniqSnoc(s: seq<Value>, v: Value)
    ensures Uniq(s + [v]) == if v in Uniq(s) then Uniq(s) else Uniq(s) + [v]
  {
    assert (s + [v])[..|s|] == s;
  }

  lemma UniqNothing(s: seq<Value>)
    ensures s + [] == s
  {
  }

  class StreamWriter {
    const granuleSize: nat
    const d: SharedDictBuilder
    var finished: bool
    var rows: int

    // The staged granule: its distinct values, their dictionary ids (-1 when new), each row's value.
    var vals: seq<Value>
    var did: seq<int>
    var rowGid: seq<int>
    var index: map<Value, int>
    var newCharge: int
    var gen: uint32
    var epoch: uint32
    var slots: seq<Slot>

    var out: seq<Granule>
    var bindings: set<Binding>

    ghost var chunks: seq<seq<Value>>
    ghost var staged: seq<Value>

    /** Every row appended so far. */
    ghost function Rows(): seq<Value>
      reads this
    {
      Flatten(chunks) + staged
    }

    /** The staged granule holds its rows and those pending, over the dictionary as it stands. */
    ghost predicate Staging(pending: seq<Value>)
      reads this, d
    {
      && d.ValuesOk()
      && NewOk(vals, did, index, d.entries) && KnownOk(vals, did, slots, gen, d.entries)
      && vals == Uniq(staged + pending) && newCharge == Charge(Fresh(vals, d.entries))
      && Names(rowGid, vals, staged)
    }

    /** What has been sealed is what the batch writer seals from the same granules. */
    ghost predicate Sealed()
      reads this, d
    {
      && Encode(d.cap, chunks) == Column(out, d.entries)
      && rows == |Rows()| && |chunks| + |staged| <= rows <= MAX_INT
      && gen == |chunks| % GENERATIONS + 1 && epoch == |chunks| / GENERATIONS
    }

    ghost predicate AllFull()
      reads this
    {
      forall i :: 0 <= i < |chunks| ==> |chunks[i]| == granuleSize
    }

    ghost predicate BindingsOk()
      reads this, d, bindings
    {
      forall b :: b in bindings ==> b.c == this && b.CachesFor(|chunks|, vals, d.entries)
    }

    ghost predicate Valid()
      reads this, d, bindings
    {
      !finished ==> granuleSize > 0 && Staging([]) && Sealed() && AllFull() && |staged| < granuleSize && BindingsOk()
    }

    constructor (granuleSize: nat, cap: int)
      requires granuleSize > 0
      ensures Valid() && !finished && Rows() == [] && this.granuleSize == granuleSize && d.cap == cap
      ensures bindings == {} && fresh(d)
    {
      this.granuleSize := granuleSize;
      finished, rows := false, 0;
      vals, did, rowGid, index, newCharge, gen, epoch, slots := [], [], [], map[], 0, 1, 0, [];
      out, bindings, chunks, staged := [], {}, [], [];
      d := new SharedDictBuilder(cap);
    }

    lemma RowCount()
      requires Valid() && !finished
      ensures rows == |Rows()| && granuleSize > 0
    {
    }

    /** The place of dictionary entry i in the granule, without hashing it. */
    method GidOfD(i: int) returns (g: int)
      requires Staging([]) && 0 <= i < |d.entries|
      modifies this`vals, this`did, this`slots
      ensures Staging([d.entries[i]])
      ensures old(vals) <= vals && 0 <= g < |vals| && vals[g] == d.entries[i]
    {
      hide NewOk; hide KnownOk; hide Uniq; hide Charge; hide Fresh; hide Names; hide IndexOk; hide Distinct;
      ghost var v := d.entries[i];
      UniqNothing(staged);
      UniqSnoc(staged, v);
      SlotCount(vals, did, slots, gen, d.entries);
      if slots[i].stamp == gen {
        KnownHit(vals, did, slots, gen, d.entries, i);
        return slots[i].gid;
      }
      IndexDistinct(d.index, d.entries);
      KnownAbsent(vals, did, index, slots, gen, d.entries, i);
      AddKnownNew(vals, did, index, d.entries, i);
      AddKnown(vals, did, slots, gen, d.entries, i);
      FreshSnoc(vals, v, d.entries);
      NamesGrow(rowGid, vals, vals + [v], staged);
      g := |vals|;
      vals, did := vals + [d.entries[i]], did + [i];
      slots := slots[i := Slot(gen, g)];
    }

    /** Finds or adds v in the granule; also its dictionary id, -1 when the dictionary lacks it. */
    method GidOfValue(v: Value) returns (g: int, i: int)
      requires Staging([])
      modifies this`vals, this`did, this`slots, this`index, this`newCharge
      ensures Staging([v])
      ensures old(vals) <= vals && 0 <= g < |vals| && vals[g] == v
      ensures i >= 0 ==> i < |d.entries| && d.entries[i] == v
    {
      hide NewOk; hide KnownOk; hide Uniq; hide Charge; hide Fresh; hide Names; hide IndexOk;
      UniqNothing(staged);
      UniqSnoc(staged, v);
      if v in index {
        NewHit(vals, did, index, d.entries, v);
        return index[v], -1;
      }
      IndexHas(d.index, d.entries, v);
      if v in d.index {
        i := d.index[v];
        g := GidOfD(i);
        return;
      }
      AddNew(vals, did, index, slots, gen, d.entries, v);
      FreshSnoc(vals, v, d.entries);
      ChargeSnoc(Fresh(vals, d.entries), v);
      NamesGrow(rowGid, vals, vals + [v], staged);
      g, i := |vals|, -1;
      var n := VarintLen(|v.bytes|);
      vals, did, index := vals + [v], did + [-1], index[v := g];
      newCharge := newCharge + n + |v.bytes| + DICT_ENTRY_BYTES;
    }

    /** The place of v, through its dictionary id when that is known; every binding's caches stay right. */
    method PlaceOf(v: Value, known: int) returns (g: int, i: int)
      requires Staging([]) && BindingsOk() && (known >= 0 ==> known < |d.entries| && d.entries[known] == v)
      modifies this`vals, this`did, this`slots, this`index, this`newCharge
      ensures Staging([v]) && BindingsOk()
      ensures 0 <= g < |vals| && vals[g] == v && (i >= 0 ==> i < |d.entries| && d.entries[i] == v)
    {
      hide Staging; hide CachesOk;
      ghost var held := vals;
      if known >= 0 {
        g := GidOfD(known);
        i := known;
      } else {
        g, i := GidOfValue(v);
      }
      GrowBindings(held);
    }

    /** Adds a value to the dictionary, with a slot no generation has stamped. */
    method NewEntry(v: Value) returns (i: int)
      requires d.ValuesOk() && v !in d.entries
      modifies this`slots, d`charge, d`raw, d`entries, d`index
      ensures d.ValuesOk() && d.entries == old(d.entries) + [v] && slots == old(slots) + [Slot(0, 0)] && i == |old(d.entries)|
    {
      hide IndexOk; hide Distinct;
      ghost var before := d.entries;
      IndexHas(d.index, d.entries, v);
      i := d.Insert(v);
      IndexPut(d.index, before, v);
      d.index := d.index[v := i];
      slots := slots + [Slot(0, 0)];
    }

    /** Inserts the granule's new values into the dictionary and gives each row's dictionary id. */
    method JoinGranule() returns (ids: seq<int>)
      requires d.ValuesOk() && Distinct(vals) && DidOk(did, vals, d.entries) && |slots| == |d.entries|
      requires Names(rowGid, vals, staged)
      modifies this`did, this`slots, d`charge, d`raw, d`entries, d`index
      ensures d.ValuesOk() && d.entries == old(d.entries) + Fresh(vals, old(d.entries))
      ensures old(slots) <= slots && |slots| == |d.entries|
      ensures forall i :: |old(slots)| <= i < |slots| ==> slots[i].stamp == 0
      ensures Names(ids, d.entries, staged)
    {
      hide Names; hide Fresh; hide Distinct; hide IndexOk; hide DidOk;
      ghost var was := d.entries;
      assert vals[..0] == [] && did[..0] == [];
      InsertEmpty(was);
      DidLen(did, vals, was);
      for g := 0 to |vals|
        invariant d.ValuesOk() && |did| == |vals| && |slots| == |d.entries|
        invariant d.entries == was + Fresh(vals[..g], was)
        invariant Names(did[..g], d.entries, vals[..g])
        invariant did[g..] == old(did)[g..]
        invariant old(slots) <= slots && forall i :: |old(slots)| <= i < |slots| ==> slots[i].stamp == 0
      {
        var v := vals[g];
        GrowStep(vals, g, was, d.entries);
        DidAt(old(did), vals, was, g);
        assert did[g] == did[g..][0] && old(did)[g] == old(did)[g..][0];
        assert vals[..g + 1] == vals[..g] + [v];
        IndexHas(d.index, d.entries, v);
        if did[g] < 0 {
          ghost var before := d.entries;
          var i := NewEntry(v);
          did := did[g := i];
          NamesGrow(did[..g], before, d.entries, vals[..g]);
        }
        NamesSnoc(did[..g], d.entries, vals[..g], did[g], v);
        assert did[..g + 1] == did[..g] + [did[g]];
        assert did[g + 1..] == old(did)[g + 1..];
      }
      assert vals[..|vals|] == vals && did[..|vals|] == did;
      ids := SharedDictBuilder.GatherLocals(rowGid, vals, staged, did, d.entries);
    }

    /** Empties the staged granule and moves to the next generation, clearing the slots when it wraps. */
    method ResetGranule()
      requires gen >= 1 && forall i :: 0 <= i < |slots| ==> slots[i].stamp <= gen
      modifies this`vals, this`did, this`rowGid, this`index, this`newCharge, this`gen, this`epoch, this`slots
      ensures vals == [] && did == [] && rowGid == [] && index == map[] && newCharge == 0
      ensures gen == if old(gen) == WRAP32 - 1 then 1 else old(gen) + 1
      ensures epoch == if old(gen) == WRAP32 - 1 then (old(epoch) + 1) % WRAP32 else old(epoch)
      ensures |slots| == |old(slots)| && forall i :: 0 <= i < |slots| ==> slots[i].stamp < gen
    {
      vals, did, rowGid, index, newCharge := [], [], [], map[], 0;
      gen := (gen + 1) % WRAP32;
      if gen == 0 {
        gen := 1;
        epoch := (epoch + 1) % WRAP32;
        var s := slots;
        slots := seq(|s|, i requires 0 <= i < |s| => s[i].(stamp := 0));
      }
    }

    /** Writes the staged granule as the dictionary decides it. */
    method DecideStaged()
      requires d.ValuesOk() && DidOk(did, vals, d.entries) && |slots| == |d.entries|
      requires vals == Uniq(staged) && newCharge == Charge(Fresh(vals, d.entries)) && Names(rowGid, vals, staged)
      modifies this`did, this`slots, this`out, d`charge, d`raw, d`entries, d`index
      ensures d.ValuesOk() && old(d.entries) <= d.entries && |slots| == |d.entries|
      ensures old(slots) <= slots && forall i :: |old(slots)| <= i < |slots| ==> slots[i].stamp == 0
      ensures |out| == |old(out)| + 1 && out[..|old(out)|] == old(out)
      ensures Decide(old(d.entries), d.cap, staged) == (out[|old(out)|], d.entries)
    {
      hide Uniq; hide Charge; hide Fresh; hide Names; hide IndexOk; hide Distinct; hide DidOk; hide DictSpec.Ids;
      UniqDistinct(staged);
      NamesAt(rowGid, vals, staged);
      if d.JoinsAt(|vals|, |rowGid|, newCharge) {
        var ids := JoinGranule();
        IndexDistinct(d.index, d.entries);
        IdsUnique(d.entries, staged, ids);
        var width := d.Width();
        out := out + [Shared(width == 2, ids)];
      } else {
        out := out + [Self(At(vals, rowGid))];
      }
    }

    /** Decides the staged granule against the dictionary and hands it on. */
    method SealDict()
      requires Staging([]) && Sealed() && BindingsOk() && staged != []
      modifies this, d
      ensures Staging([]) && Sealed() && BindingsOk()
      ensures chunks == old(chunks) + [old(staged)] && staged == [] && rows == old(rows)
      ensures finished == old(finished) && bindings == old(bindings)
    {
      hide NewOk; hide KnownOk; hide Uniq; hide Charge; hide Fresh; hide Names; hide IndexOk; hide Distinct; hide CachesOk; hide DidOk; hide Flatten; hide Encode; hide Decide; hide Raw; hide GranuleOf;
      ghost var was, n, sealed := d.entries, |chunks|, out;
      UniqNothing(staged);
      SlotCount(vals, did, slots, gen, was);
      SlotsBelow(vals, did, slots, gen, was);
      DidKnown(vals, did, index, slots, gen, was);
      EncodeSnoc(d.cap, chunks, staged);
      DecideStaged();
      assert out == sealed + [out[|sealed|]];
      ghost var held := vals;
      FlattenSnoc(chunks, staged);
      assert Flatten(chunks + [staged]) + [] == Flatten(chunks) + staged;
      chunks, staged := chunks + [staged], [];
      NextGranule(n);
      EpochFits(n);
      ResetGranule();
      StagingEmpty(slots, gen, d.entries);
      forall b | b in bindings ensures b.c == this && b.CachesFor(n + 1, vals, d.entries) {
        CachesSeal(b.bound, b.stamp, b.gid, b.did, b.epoch, n, held, was, vals, d.entries);
      }
    }

    /** Appends a row the granule already holds at g, sealing the granule when it is full. */
    method AppendGid(g: int, ghost v: Value)
      requires granuleSize > 0 && Staging([v]) && Sealed() && AllFull() && |staged| < granuleSize && BindingsOk()
      requires 0 <= g < |vals| && vals[g] == v && rows < MAX_INT && !finished
      modifies this, d
      ensures Valid() && !finished && Rows() == old(Rows()) + [v] && rows == old(rows) + 1 && bindings == old(bindings)
    {
      hide NewOk; hide KnownOk; hide Uniq; hide Charge; hide Fresh; hide Names; hide CachesOk; hide IndexOk; hide Encode; hide Flatten;
      NamesSnoc(rowGid, vals, staged, g, v);
      NamesLen(rowGid, vals, staged);
      UniqNothing(staged + [v]);
      rows := rows + 1;
      rowGid := rowGid + [g];
      assert Flatten(chunks) + (staged + [v]) == Rows() + [v];
      staged := staged + [v];
      if |rowGid| >= granuleSize {
        FlattenSnoc(chunks, staged);
        ghost var full := chunks;
        assert |staged| == granuleSize;
        SealDict();
        assert Flatten(chunks) + [] == Flatten(chunks);
      }
    }

    /** Appends one value, unless the writer has finished. */
    method AppendByteValue(v: Value) returns (ok: bool)
      requires Valid() && (!finished ==> rows < MAX_INT)
      modifies this, d
      ensures Valid() && ok == !old(finished) && finished == old(finished) && bindings == old(bindings)
      ensures ok ==> Rows() == old(Rows()) + [v] && rows == old(rows) + 1
      ensures !ok ==> Rows() == old(Rows())
    {
      hide NewOk; hide KnownOk; hide Uniq; hide Charge; hide Fresh; hide Names; hide CachesOk; hide IndexOk; hide Encode; hide Flatten; hide Distinct; hide Charge; hide Raw;
      if finished {
        return false;
      }
      ghost var held := vals;
      var g, i := GidOfValue(v);
      GrowBindings(held);
      AppendGid(g, v);
      ok := true;
    }

    /** Appends a batch of values. */
    method AppendBytes(batch: seq<Value>) returns (ok: bool)
      requires Valid() && (!finished ==> rows + |batch| <= MAX_INT)
      modifies this, d
      ensures Valid() && ok == !old(finished) && finished == old(finished) && bindings == old(bindings)
      ensures Rows() == if ok then old(Rows()) + batch else old(Rows())
    {
      hide Valid; hide Rows;
      ok := !finished;
      ghost var before := Rows();
      assert before + [] == before;
      for k := 0 to |batch|
        invariant Valid() && ok == !finished == !old(finished) && bindings == old(bindings)
        invariant !finished ==> rows == old(rows) + k
        invariant Rows() == if ok then before + batch[..k] else before
      {
        assert batch[..k + 1] == batch[..k] + [batch[k]];
        var done := AppendByteValue(batch[k]);
        if !done {
          return;
        }
      }
      assert batch[..|batch|] == batch;
    }

    /** Appends the rows of a blob, stopping at the first pair of offsets that is not a span of it. */
    method AppendBytesBlob(blob: Bytes, offsets: seq<int>) returns (ok: bool)
      requires Valid() && (!finished ==> rows + |offsets| <= MAX_INT)
      modifies this, d
      ensures Valid() && finished == old(finished) && bindings == old(bindings)
      ensures ok == (!old(finished) && GoodSpans(blob, offsets, 0) + 1 >= |offsets|)
      ensures Rows() == if old(finished) then old(Rows()) else old(Rows()) + Cells(blob, offsets, GoodSpans(blob, offsets, 0))
    {
      hide Valid; hide Rows;
      if finished {
        return false;
      }
      ghost var before := Rows();
      assert before + [] == before;
      var k := 0;
      while k + 1 < |offsets|
        invariant Valid() && !finished && bindings == old(bindings) && rows == old(rows) + k
        invariant 0 <= k && (k == 0 || k < |offsets|)
        invariant GoodSpans(blob, offsets, 0) == GoodSpans(blob, offsets, k)
        invariant Rows() == before + Cells(blob, offsets, k)
      {
        var lo, hi := offsets[k], offsets[k + 1];
        if lo < 0 || hi < lo || hi > |blob| {
          return false;
        }
        var done := AppendByteValue(Value(blob[lo..hi]));
        assert before + (Cells(blob, offsets, k) + [Value(blob[lo..hi])]) == before + Cells(blob, offsets, k) + [Value(blob[lo..hi])];
        k := k + 1;
      }
      ok := true;
    }

    /** Hands out a new binding to the column. */
    method NewBinding() returns (b: Binding?)
      requires Valid()
      modifies this`bindings
      ensures Valid() && (b == null <==> finished)
      ensures b != null ==> fresh(b) && b.c == this && bindings == old(bindings) + {b} && b.gen == NoGen && b.table == Stays([])
      ensures Rows() == old(Rows())
    {
      hide NewOk; hide KnownOk; hide Uniq; hide Charge; hide Fresh; hide Names; hide CachesOk; hide IndexOk; hide Encode; hide Flatten; hide Distinct; hide Raw;
      if finished {
        return null;
      }
      b := new Binding(this);
      bindings := bindings + {b};
    }

    /** Every binding's caches outlive the granule's growth. */
    lemma GrowBindings(held: seq<Value>)
      requires held <= vals
      requires forall b :: b in bindings ==> b.c == this && b.CachesFor(|chunks|, held, d.entries)
      ensures BindingsOk()
    {
      hide CachesOk;
      forall b | b in bindings ensures b.c == this && b.CachesFor(|chunks|, vals, d.entries) {
        CachesGrow(b.bound, b.stamp, b.gid, b.did, b.epoch, |chunks|, held, d.entries, vals, d.entries);
      }
    }

    /** Seals what is left and ends the column: it is the batch writer's, granule for granule. */
    method Finish() returns (col: Column)
      requires Valid() && !finished
      modifies this, d
      ensures Valid() && finished
      ensures granuleSize > 0 && col == Encode(d.cap, Chunks(old(Rows()), granuleSize))
    {
      hide NewOk; hide KnownOk; hide Uniq; hide Charge; hide Fresh; hide Names; hide CachesOk; hide IndexOk; hide Encode; hide Flatten; hide Chunks;
      ChunksOfFull(chunks, staged, granuleSize);
      NamesLen(rowGid, vals, staged);
      if |rowGid| > 0 {
        SealDict();
      }
      col := Column(out, d.entries);
      finished := true;
    }
  }

  predicate SpanAt(blob: Bytes, offsets: seq<int>, k: nat) {
    k + 1 < |offsets| && 0 <= offsets[k] <= offsets[k + 1] <= |blob|
  }

  /** The first row from k on whose offsets are not a span of the blob. */
  function GoodSpans(blob: Bytes, offsets: seq<int>, k: nat): (n: nat)
    ensures k <= n
    decreases |offsets| - k
  {
    if SpanAt(blob, offsets, k) then GoodSpans(blob, offsets, k + 1) else k
  }

  /** The first n rows of a blob. */
  function Cells(blob: Bytes, offsets: seq<int>, n: nat): seq<Value> {
    if n == 0 then []
    else Cells(blob, offsets, n - 1) + [Value(if SpanAt(blob, offsets, n - 1) then blob[offsets[n - 1]..offsets[n]] else [])]
  }

  lemma NamesLen(ids: seq<int>, dict: seq<Value>, rows: seq<Value>)
    requires Names(ids, dict, rows)
    ensures |ids| == |rows|
  {
  }

  lemma NamesAt(ids: seq<int>, dict: seq<Value>, rows: seq<Value>)
    requires Names(ids, dict, rows)
    ensures |ids| == |rows| && forall i :: 0 <= i < |ids| ==> 0 <= ids[i] < |dict|
    ensures At(dict, ids) == rows
  {
  }

  lemma EncodeSnoc(cap: int, chunks: seq<seq<Value>>, rows: seq<Value>)
    ensures var c := Encode(cap, chunks);
            var (g, dict) := Decide(c.dict, cap, rows);
            Encode(cap, chunks + [rows]) == Column(c.granules + [g], dict)
  {
    assert (chunks + [rows])[..|chunks|] == chunks;
  }

  lemma SlotsBelow(vals: seq<Value>, did: seq<int>, slots: seq<Slot>, gen: uint32, dict: seq<Value>)
    requires KnownOk(vals, did, slots, gen, dict)
    ensures forall i :: 0 <= i < |slots| ==> slots[i].stamp <= gen
  {
  }

  lemma StagingEmpty(slots: seq<Slot>, gen: uint32, dict: seq<Value>)
    requires |slots| == |dict| && forall i :: 0 <= i < |slots| ==> slots[i].stamp < gen
    ensures NewOk([], [], map[], dict) && KnownOk([], [], slots, gen, dict)
    ensures Uniq([] + []) == [] && Charge(Fresh([], dict)) == 0 && Names([], [], [])
  {
  }

  /** Each value's dictionary id, or -1: what a granule knows of its values before it joins. */
  ghost predicate DidOk(did: seq<int>, vals: seq<Value>, dict: seq<Value>) {
    && |did| == |vals|
    && forall g :: 0 <= g < |vals| ==>
         if vals[g] in dict then 0 <= did[g] < |dict| && dict[did[g]] == vals[g] else did[g] < 0
  }

  lemma DidLen(did: seq<int>, vals: seq<Value>, dict: seq<Value>)
    requires DidOk(did, vals, dict)
    ensures |did| == |vals|
  {
  }

  lemma DidAt(did: seq<int>, vals: seq<Value>, dict: seq<Value>, g: nat)
    requires DidOk(did, vals, dict) && g < |vals|
    ensures if vals[g] in dict then 0 <= did[g] < |dict| && dict[did[g]] == vals[g] else did[g] < 0
  {
  }

  lemma DidKnown(vals: seq<Value>, did: seq<int>, index: map<Value, int>, slots: seq<Slot>, gen: uint32, dict: seq<Value>)
    requires NewOk(vals, did, index, dict) && KnownOk(vals, did, slots, gen, dict)
    ensures DidOk(did, vals, dict)
  {
    forall g | 0 <= g < |vals|
      ensures if vals[g] in dict then 0 <= did[g] < |dict| && dict[did[g]] == vals[g] else did[g] < 0
    {
      if did[g] < 0 {
        assert vals[g] in index;
      }
    }
  }

  lemma SlotCount(vals: seq<Value>, did: seq<int>, slots: seq<Slot>, gen: uint32, dict: seq<Value>)
    requires KnownOk(vals, did, slots, gen, dict)
    ensures |slots| == |dict| && |did| == |vals|
  {
  }

  class Binding {
    const c: StreamWriter
    /** The table bound, aliased where the caller's is. */
    var table: Table
    var gen: DictGen
    var stable: bool
    var stamp: seq<uint32>
    var gid: seq<int>
    var did: seq<int>
    var epoch: uint32
    /** What the table read as when it was bound: what the caches are about. */
    ghost var bound: seq<Value>

    ghost predicate CachesFor(n: nat, vals: seq<Value>, dict: seq<Value>)
      reads this
    {
      CachesOk(bound, stamp, gid, did, epoch, n, vals, dict)
    }

    /** The table has not been overwritten since it was bound. */
    ghost predicate Steady()
      reads this`table, this`bound, if table.Stays? then {} else {table.buf}
    {
      table.Entries() == bound
    }

    constructor (c: StreamWriter)
      ensures this.c == c && table == Stays([]) && gen == NoGen && Steady()
      ensures forall n, vals, dict :: CachesFor(n, vals, dict)
    {
      this.c := c;
      table, gen, stable, stamp, gid, did, epoch, bound := Stays([]), NoGen, false, [], [], [], 0, [];
    }

    /** Points the binding at a table named by a live token, dropping every cached place. */
    method Bind(table: Table, gen: DictGen, stable: bool) returns (ok: bool)
      requires c.Valid() && this in c.bindings
      modifies this
      ensures c.Valid()
      ensures ok == (!c.finished && gen.Live() && !(stable && gen.owner.framed))
      ensures ok ==> this.table == table && this.gen == gen && this.stable == stable && bound == table.Entries()
      ensures !ok ==> this.table == old(this.table) && this.gen == old(this.gen) && this.stable == old(this.stable) && bound == old(bound)
    {
      hide StreamWriter.Staging; hide StreamWriter.Sealed; hide StreamWriter.AllFull; hide CachesOk; hide Table.Entries; hide Table.Over;
      if c.finished || !gen.Live() || (stable && gen.owner.framed) {
        return false;
      }
      this.table, this.gen, this.stable := table, gen, stable;
      bound := table.Entries();
      Forget(|table.Entries()|);
      ok := true;
    }

    /** Drops every cached place and dictionary id. */
    method Forget(n: nat)
      requires n == |bound|
      modifies this`stamp, this`gid, this`did, this`epoch
      ensures CachesFor(|c.chunks|, c.vals, c.d.entries)
    {
      stamp := seq(n, i => 0);
      gid := seq(n, i => 0);
      did := seq(n, i => -1);
      epoch := c.epoch;
    }

    /** Forgets every place once the writer's generation has wrapped since the last use. */
    method Refresh()
      requires c.Valid() && !c.finished && this in c.bindings
      modifies this`stamp, this`epoch
      ensures c.Valid() && epoch == c.epoch && |stamp| == |gid| == |did| == |bound|
    {
      hide StreamWriter.Staging; hide StreamWriter.Sealed; hide StreamWriter.AllFull; hide CachesOk;
      CachesLens(bound, stamp, gid, did, epoch, |c.chunks|, c.vals, c.d.entries);
      if epoch != c.epoch {
        stamp := seq(|stamp|, i => 0);
        epoch := c.epoch;
        CachesClear(bound, gid, did, epoch, |c.chunks|, c.vals, c.d.entries);
      }
    }

    /** The place of entry e in the staged granule: cached, through the dictionary, or by hashing it. */
    method Resolve(e: int) returns (g: int)
      requires c.Valid() && !c.finished && this in c.bindings && Steady() && 0 <= e < |bound|
      modifies this`stamp, this`gid, this`did, this`epoch, c`vals, c`did, c`slots, c`index, c`newCharge
      ensures c.Staging([bound[e]]) && c.BindingsOk()
      ensures 0 <= g < |c.vals| && c.vals[g] == bound[e]
    {
      hide NewOk; hide KnownOk; hide Uniq; hide Charge; hide Fresh; hide Names; hide CachesOk; hide IndexOk; hide Encode; hide Flatten; hide Distinct; hide Raw; hide Table.Entries; hide Table.Over;
      var v := table.Entries()[e];
      ghost var n := |c.chunks|;
      Refresh();
      CachesHit(bound, stamp, gid, did, n, c.vals, c.d.entries, e);
      UniqNothing(c.staged);
      UniqSnoc(c.staged, v);
      if stamp[e] == c.gen {
        return gid[e];
      }
      var i := did[e];
      g, i := c.PlaceOf(v, i);
      CachesSet(bound, stamp, gid, did, n, c.vals, c.d.entries, e, g, i);
      stamp, gid, did := stamp[e := c.gen], gid[e := g], did[e := i];
    }

    /** Appends the row naming entry e of the bound table, hashing it only on its first use. */
    method Append(e: int)
      requires c.Valid() && !c.finished && this in c.bindings && Steady() && 0 <= e < |bound| && c.rows < MAX_INT
      modifies this`stamp, this`gid, this`did, this`epoch, c, c.d
      ensures c.Valid() && !c.finished && c.bindings == old(c.bindings)
      ensures c.Rows() == old(c.Rows()) + [bound[e]] && c.rows == old(c.rows) + 1
    {
      hide NewOk; hide KnownOk; hide Uniq; hide Charge; hide Fresh; hide Names; hide CachesOk; hide IndexOk; hide Encode; hide Flatten; hide Distinct; hide Raw;
      var g := Resolve(e);
      c.AppendGid(g, bound[e]);
    }

    /**
     Appends rows [lo,hi) of a decoded granule, those keep marks when it is given. The granule must be
     live and its token the bound one; ids are read through the bound table, which a live token keeps
     steady. Rows before an id past that table have been appended when it is met.
     */
    method AppendDict(g: DecodedGranule, lo: int, hi: int, keep: Option<seq<bool>>) returns (ok: bool)
      requires c.Valid() && this in c.bindings && (!c.finished ==> hi < lo || c.rows + (hi - lo) <= MAX_INT)
      requires gen.Live() ==> Steady()
      modifies this`stamp, this`gid, this`did, this`epoch, c, c.d
      ensures c.Valid() && c.finished == old(c.finished) && c.bindings == old(c.bindings)
      ensures var col := old(g.dc.Column());
              if old(c.finished || g.table != gen || !g.Live()) then !ok && c.Rows() == old(c.Rows())
              else
                && ok == AppendsAll(col, bound, lo, hi, keep)
                && c.Rows() == old(c.Rows()) + Appended(col, bound, lo, hi, keep)
    {
      if c.finished || g.table != gen || !g.Live() {
        return false;
      }
      var col := g.dc.Column();
      ghost var before := c.Rows();
      assert before + [] == before;
      var n := |table.Entries()|;
      if !Admits(col, lo, hi, keep) || (col.width > 0 && |col.entries| != n) {
        return false;
      }
      ok := AppendColumn(col, lo, hi, keep);
    }

    method AppendColumn(col: DictColumn, lo: nat, hi: nat, keep: Option<seq<bool>>) returns (ok: bool)
      requires c.Valid() && !c.finished && this in c.bindings && Steady() && Admits(col, lo, hi, keep)
      requires c.rows + (hi - lo) <= MAX_INT && (col.width > 0 ==> |col.entries| == |bound|)
      modifies this`stamp, this`gid, this`did, this`epoch, c, c.d
      ensures c.Valid() && !c.finished && c.bindings == old(c.bindings)
      ensures var seen := Through(col, bound);
              && ok == (FirstBad(seen, lo, hi, keep) == hi)
              && c.Rows() == old(c.Rows()) + Kept(seen, lo, FirstBad(seen, lo, hi, keep), keep)
    {
      hide StreamWriter.Valid; hide StreamWriter.Rows; hide Table.Entries; hide Table.Over;
      ghost var before := c.Rows();
      ghost var seen := Through(col, bound);
      var n := |table.Entries()|;
      assert before + [] == before;
      for r := lo to hi
        invariant c.Valid() && !c.finished && c.bindings == old(c.bindings) && c.rows <= old(c.rows) + (r - lo)
        invariant FirstBad(seen, lo, hi, keep) == FirstBad(seen, r, hi, keep, lo)
        invariant c.Rows() == before + Kept(seen, lo, r, keep)
      {
        if IsKept(lo, r, keep) {
          assert before + Kept(seen, lo, r, keep) + [RowAt(seen, r)] == before + (Kept(seen, lo, r, keep) + [RowAt(seen, r)]);
          if col.width == 0 {
            var done := c.AppendByteValue(col.entries[r]);
          } else {
            var e := IdAt(col.ids, col.width, r);
            if e >= n {
              return false;
            }
            Append(e);
          }
        }
      }
      ok := true;
    }
  }

  /** A column with its ids read through a table other than its own; without ids its entries are its rows. */
  function Through(col: DictColumn, entries: seq<Value>): (c: DictColumn)
    ensures col.entries == entries ==> c == col
  {
    if col.width == 0 then col else col.(entries := entries)
  }

  predicate Accepts(col: DictColumn, entries: seq<Value>, lo: int, hi: int, keep: Option<seq<bool>>) {
    Admits(col, lo, hi, keep) && (col.width > 0 ==> |col.entries| == |entries|)
  }

  /** The rows appending [lo,hi) of a column through a bound table adds. */
  function Appended(col: DictColumn, entries: seq<Value>, lo: int, hi: int, keep: Option<seq<bool>>): seq<Value> {
    if !Accepts(col, entries, lo, hi, keep) then []
    else
      var seen := Through(col, entries);
      Kept(seen, lo, FirstBad(seen, lo, hi, keep), keep)
  }

  /** The append meets nothing it refuses. */
  predicate AppendsAll(col: DictColumn, entries: seq<Value>, lo: int, hi: int, keep: Option<seq<bool>>) {
    Accepts(col, entries, lo, hi, keep) && FirstBad(Through(col, entries), lo, hi, keep) == hi
  }

  /** The checks an append of rows [lo,hi) of a column makes before it touches the writer. */
  predicate Admits(col: DictColumn, lo: int, hi: int, keep: Option<seq<bool>>) {
    && 0 <= lo <= hi <= col.Len() && (keep.Some? ==> |keep.value| == hi - lo) && col.width <= 2
  }

  predicate IsKept(lo: nat, r: nat, keep: Option<seq<bool>>)
    requires lo <= r && (keep.Some? ==> r - lo < |keep.value|)
  {
    keep.None? || keep.value[r - lo]
  }

  /** Row r of a column; a placeholder when its id is past the table. */
  function RowAt(col: DictColumn, r: nat): Value
    requires r < col.Len() && col.width <= 2
  {
    if col.width == 0 then col.entries[r]
    else
      var e := IdAt(col.ids, col.width, r);
      if e < |col.entries| then col.entries[e] else Value([])
  }

  /** The first kept row from r on whose id is past the table, or hi. */
  function FirstBad(col: DictColumn, r: nat, hi: nat, keep: Option<seq<bool>>, lo: nat := r): (k: nat)
    requires lo <= r <= hi <= col.Len() && (keep.Some? ==> |keep.value| == hi - lo) && col.width <= 2
    ensures r <= k <= hi
    decreases hi - r
  {
    if r == hi then hi
    else if col.width > 0 && IsKept(lo, r, keep) && IdAt(col.ids, col.width, r) >= |col.entries| then r
    else FirstBad(col, r + 1, hi, keep, lo)
  }

  /** The kept rows of [lo,r). */
  function Kept(col: DictColumn, lo: nat, r: nat, keep: Option<seq<bool>>): seq<Value>
    requires lo <= r <= col.Len() && (keep.Some? ==> r - lo <= |keep.value|) && col.width <= 2
    decreases r
  {
    if r == lo then []
    else Kept(col, lo, r - 1, keep) + if IsKept(lo, r - 1, keep) then [RowAt(col, r - 1)] else []
  }

  lemma CachesLens(
    entries: seq<Value>, stamp: seq<uint32>, gid: seq<int>, did: seq<int>, epoch: int, n: nat, vals: seq<Value>, dict: seq<Value>)
    requires CachesOk(entries, stamp, gid, did, epoch, n, vals, dict)
    ensures |stamp| == |gid| == |did| == |entries|
    ensures forall e :: 0 <= e < |entries| && did[e] >= 0 ==> did[e] < |dict| && dict[did[e]] == entries[e]
  {
  }
}
