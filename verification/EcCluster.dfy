/**
 The whole cluster at work on an erasure-coded part: nodes staging, pruning and rebuilding shards, each
 one step at a time between the steps of the others, over stores in which copies may rot.
 */
module EcCluster {
  import opened Wire
  import opened EcShards
  import opened EcRepair

  /** The erasure code and the checksums the part's sidecar records. */
  datatype Code = Code(rec: seq<Option<Bytes>> -> Result<seq<Bytes>>, sum: Bytes -> uint32, sums: Key -> uint32)

  /** Where a node's rebuild stands: not running, or gathering shards of an object. */
  datatype Repair = Resting | Gathering(obj: nat, shards: seq<Option<Bytes>>)

  datatype Cluster = Cluster(world: World, repairs: map<Addr, Repair>) {
    function RepairAt(n: Addr): Repair { if n in repairs then repairs[n] else Resting }
  }

  /**
   One step of one node: of its prune, or a store that is not repair's (staging, or rot); finding its own
   slot incomplete; fetching one shard from some node; or reconstructing, verifying and storing its own.
   */
  datatype Event =
    | Act(a: Action)
    | Begin(node: Addr)
    | Fetch(node: Addr, slot: nat, from: Addr, up: bool)
    | Store(node: Addr, up: bool)

  /** The shard fetched, kept when it passes its checksum. */
  function Fetched(code: Code, store: map<Copy, Bytes>, from: Addr, k: Key, up: bool): Option<Bytes> {
    if up && Passes(store, code.sums, code.sum, from, k) then Some(store[Copy(from, k)]) else None
  }

  /** What the rebuild makes of the shards it gathered: its own, once enough are there and it verifies. */
  function Rebuilt(c: Config, code: Code, shards: seq<Option<Bytes>>, k: Key): Result<Bytes> {
    if Present(shards) < c.data then Err
    else
      var all := code.rec(shards);
      if all.Err? || |all.value| != c.Shards() || k.slot >= c.Shards() || code.sum(all.value[k.slot]) != code.sums(k) then Err
      else Ok(all.value[k.slot])
  }

  /** The store a step of the machine makes, if any: every event is a step of EcShards or leaves the world be. */
  ghost function Effect(c: Config, code: Code, w: Cluster, e: Event): Option<Action> {
    match e
    case Act(a) => Some(a)
    case Store(n, up) =>
      var r := w.RepairAt(n);
      if r.Gathering? && c.SlotOf(n) >= 0 && up then
        var k := Key(c.SlotOf(n), r.obj);
        var b := Rebuilt(c, code, r.shards, k);
        if b.Ok? then Some(Put(n, k, b.value)) else None
      else None
    case _ => None
  }

  ghost function NextRepair(c: Config, code: Code, w: Cluster, e: Event): map<Addr, Repair> {
    match e
    case Act(_) => w.repairs
    case Begin(n) =>
      if w.RepairAt(n).Resting? && 0 <= c.SlotOf(n) < c.Shards() && !Holds(c, w.world.store, n, c.SlotOf(n)) then
        w.repairs[n := Gathering(0, Missing(c.Shards()))]
      else w.repairs
    case Fetch(n, slot, from, up) =>
      var r := w.RepairAt(n);
      if r.Gathering? && slot < |r.shards| && r.shards[slot].None? && Present(r.shards) < c.data then
        w.repairs[n := Gathering(r.obj, r.shards[slot := Fetched(code, w.world.store, from, Key(slot, r.obj), up)])]
      else w.repairs
    case Store(n, up) =>
      var r := w.RepairAt(n);
      if r.Resting? then w.repairs
      else if Effect(c, code, w, e).None? || r.obj + 1 >= c.objects then w.repairs[n := Resting]
      else w.repairs[n := Gathering(r.obj + 1, Missing(c.Shards()))]
  }

  ghost function Next(c: Config, code: Code, w: Cluster, e: Event): Cluster {
    var a := Effect(c, code, w, e);
    Cluster(if a.Some? then Step(c, w.world, a.value) else w.world, NextRepair(c, code, w, e))
  }

  ghost function RunAll(c: Config, code: Code, w: Cluster, events: seq<Event>): Cluster {
    if events == [] then w else Next(c, code, RunAll(c, code, w, events[..|events| - 1]), events[|events| - 1])
  }

  // ------------------------------------------------------------ no last copy is ever removed

  lemma {:induction false} RunAllInv(c: Config, code: Code, w: Cluster, events: seq<Event>)
    requires Inv(c, w.world)
    ensures Inv(c, RunAll(c, code, w, events).world)
  {
    hide Inv; hide Effect; hide NextRepair; hide Step;
    if events != [] {
      var front, e := events[..|events| - 1], events[|events| - 1];
      RunAllInv(c, code, w, front);
      var mid := RunAll(c, code, w, front);
      if Effect(c, code, mid, e).Some? {
        StepKeeps(c, mid.world, Effect(c, code, mid, e).value);
      }
    }
  }

  /**
   Under a fixed owner list, addresses repeated or not, with checks, deletes, fetches and stores of any
   nodes in any order: a shard held by some node is held by some node ever after.
   */
  lemma {:induction false} NoLastCopyLost(c: Config, code: Code, w: Cluster, events: seq<Event>, k: Key)
    requires Inv(c, w.world) && Somewhere(w.world, k)
    ensures Somewhere(RunAll(c, code, w, events).world, k)
  {
    hide Inv; hide Effect; hide NextRepair; hide Step; hide Somewhere;
    if events != [] {
      var front, e := events[..|events| - 1], events[|events| - 1];
      NoLastCopyLost(c, code, w, front, k);
      RunAllInv(c, code, w, front);
      var mid := RunAll(c, code, w, front);
      if Effect(c, code, mid, e).Some? {
        StepSafe(c, mid.world, Effect(c, code, mid, e).value, k);
      }
    }
  }

  // ------------------------------------------------------------ what repair stores is the original

  function Shards(c: Config, orig: Originals, obj: nat): seq<Bytes> { seq(c.Shards(), s requires s >= 0 => orig(Key(s, obj))) }

  /** The code's law for every object, and the sidecar's checksums being those of the originals. */
  ghost predicate Lawful(c: Config, code: Code, orig: Originals) {
    && (forall obj :: 0 <= obj < c.objects ==> Codes(c, code.rec, Shards(c, orig, obj)))
    && (forall k: Key :: k.slot < c.Shards() && k.obj < c.objects ==> code.sum(orig(k)) == code.sums(k))
  }

  /** A rebuild has gathered nothing but originals. */
  ghost predicate GatherOk(c: Config, orig: Originals, r: Repair) {
    r.Gathering? ==> r.obj < c.objects && Usable(c, r.shards, Shards(c, orig, r.obj))
  }

  ghost predicate AllSound(c: Config, code: Code, orig: Originals, w: Cluster) {
    && Sound(w.world.store, orig, code.sums, code.sum)
    && forall n :: n in w.repairs ==> GatherOk(c, orig, w.repairs[n])
  }

  /** What is staged is an original; a copy that rots shows it. */
  ghost predicate FairPut(e: Event, code: Code, orig: Originals) {
    e.Act? && e.a.Put? ==> e.a.bytes == orig(e.a.key) || code.sum(e.a.bytes) != code.sums(e.a.key)
  }

  ghost predicate AllFair(events: seq<Event>, code: Code, orig: Originals) {
    forall i :: 0 <= i < |events| ==> FairPut(events[i], code, orig)
  }

  lemma GatherNothing(c: Config, orig: Originals, obj: nat)
    requires obj < c.objects
    ensures GatherOk(c, orig, Gathering(obj, Missing(c.Shards())))
  {
  }

  lemma GatherMore(c: Config, code: Code, orig: Originals, store: map<Copy, Bytes>, r: Repair, slot: nat, from: Addr, up: bool)
    requires GatherOk(c, orig, r) && r.Gathering? && slot < |r.shards| && Sound(store, orig, code.sums, code.sum)
    ensures GatherOk(c, orig, Gathering(r.obj, r.shards[slot := Fetched(code, store, from, Key(slot, r.obj), up)]))
  {
  }

  /** What a rebuild stores out of a sound cluster is the original shard of its slot. */
  lemma RebuiltIsOriginal(c: Config, code: Code, orig: Originals, r: Repair, k: Key)
    requires Lawful(c, code, orig) && GatherOk(c, orig, r) && r.Gathering? && k.obj == r.obj && Rebuilt(c, code, r.shards, k).Ok?
    ensures Rebuilt(c, code, r.shards, k).value == orig(k)
  {
    hide Present;
    Decoded(c, code.rec, Shards(c, orig, r.obj), r.shards);
  }

  lemma NextRepairSound(c: Config, code: Code, orig: Originals, w: Cluster, e: Event)
    requires AllSound(c, code, orig, w)
    ensures forall n :: n in NextRepair(c, code, w, e) ==> GatherOk(c, orig, NextRepair(c, code, w, e)[n])
  {
    hide Sound; hide GatherOk; hide Effect; hide Present;
    GatherIdle(c, orig);
    match e
    case Act(_) =>
    case Begin(n) =>
      if c.objects > 0 {
        GatherNothing(c, orig, 0);
      }
    case Fetch(n, slot, from, up) =>
      var r := w.RepairAt(n);
      if r.Gathering? && slot < |r.shards| {
        GatherMore(c, code, orig, w.world.store, r, slot, from, up);
      }
    case Store(n, up) =>
      var r := w.RepairAt(n);
      if r.Gathering? && r.obj + 1 < c.objects {
        GatherNothing(c, orig, r.obj + 1);
      }
  }

  lemma GatherIdle(c: Config, orig: Originals)
    ensures GatherOk(c, orig, Resting)
  {
  }

  /** A step's store, fair or rebuilt, keeps every copy original or visibly rotten. */
  lemma EffectSound(c: Config, code: Code, orig: Originals, w: Cluster, e: Event)
    requires Lawful(c, code, orig) && AllSound(c, code, orig, w) && FairPut(e, code, orig)
    ensures Sound(Next(c, code, w, e).world.store, orig, code.sums, code.sum)
  {
    hide Lawful; hide Rebuilt; hide NextRepair;
    if e.Store? && Effect(c, code, w, e).Some? {
      var r := w.RepairAt(e.node);
      RebuiltIsOriginal(c, code, orig, r, Key(c.SlotOf(e.node), r.obj));
    }
  }

  lemma {:induction false} RunAllSound(c: Config, code: Code, orig: Originals, w: Cluster, events: seq<Event>)
    requires Lawful(c, code, orig) && AllSound(c, code, orig, w) && AllFair(events, code, orig)
    ensures AllSound(c, code, orig, RunAll(c, code, w, events))
  {
    hide Lawful; hide Sound; hide GatherOk; hide FairPut; hide NextRepair; hide Effect; hide Step;
    if events != [] {
      var n := |events| - 1;
      var mid := RunAll(c, code, w, events[..n]);
      assert AllFair(events[..n], code, orig);
      RunAllSound(c, code, orig, w, events[..n]);
      NextRepairSound(c, code, orig, mid, events[n]);
      EffectSound(c, code, orig, mid, events[n]);
    }
  }

  /**
   Every shard repair stores equals the original: at any point of any interleaved run over copies that
   are originals or show their rot, what a rebuild's store adds is the original of the node's slot, and
   it touches no other copy.
   */
  lemma RepairStoresOriginals(c: Config, code: Code, orig: Originals, w: Cluster, events: seq<Event>, n: Addr, up: bool, x: Copy)
    requires Lawful(c, code, orig) && AllSound(c, code, orig, w) && AllFair(events, code, orig)
    ensures var before := RunAll(c, code, w, events).world.store;
            var after := RunAll(c, code, w, events + [Store(n, up)]).world.store;
            && (x in before ==> x in after)
            && (x in after && !(x in before && before[x] == after[x]) ==>
                  x.node == n && x.key.slot == c.SlotOf(n) && after[x] == orig(x.key))
  {
    hide Lawful; hide Sound; hide GatherOk; hide NextRepair; hide Rebuilt; hide RunAll;
    var mid, e := RunAll(c, code, w, events), Store(n, up);
    RunAllSound(c, code, orig, w, events);
    RunAllSnoc(c, code, w, events, e);
    if Effect(c, code, mid, e).Some? {
      var r := mid.RepairAt(n);
      assert GatherOk(c, orig, r);
      RebuiltIsOriginal(c, code, orig, r, Key(c.SlotOf(n), r.obj));
    }
  }

  lemma RunAllSnoc(c: Config, code: Code, w: Cluster, events: seq<Event>, e: Event)
    ensures RunAll(c, code, w, events + [e]) == Next(c, code, RunAll(c, code, w, events), e)
  {
    assert (events + [e])[..|events|] == events;
  }

  // ------------------------------------------------------------ where repair puts shards

  /** Every owner holds the slot repair rebuilds for it. */
  ghost predicate AllRepaired(c: Config, store: map<Copy, Bytes>) {
    forall n :: n in c.owners && c.SlotOf(n) < c.Shards() ==> Holds(c, store, n, c.SlotOf(n))
  }

  /** Slot i sits on owner i, which is where reads look for it. */
  ghost predicate AllPlaced(c: Config, store: map<Copy, Bytes>) {
    forall s :: 0 <= s < |c.owners| && s < c.Shards() ==> Holds(c, store, c.owners[s], s)
  }

  predicate NoneRepeated(c: Config) {
    forall i, j :: 0 <= i < j < |c.owners| && j < c.Shards() ==> c.owners[i] != c.owners[j]
  }

  function FirstCopy(c: Config, n: Addr, o: nat): Copy { Copy(n, Key(if c.SlotOf(n) < 0 then 0 else c.SlotOf(n), o)) }

  /** The copies repair leaves when the cluster held nothing else. */
  ghost function FirstSlots(c: Config): map<Copy, Bytes> {
    var copies := set n, o | n in c.owners && 0 <= o < c.objects :: FirstCopy(c, n, o);
    map x | x in copies :: []
  }

  lemma {:induction false} IndexFirst(s: seq<Addr>, i: nat)
    requires i < |s|
    ensures 0 <= IndexOf(s, s[i]) <= i
  {
    if i > 0 && s[0] != s[i] {
      IndexFirst(s[1..], i - 1);
    }
  }

  /**
   Once every owner has repaired, every slot is on its owner, whatever else the stores hold, exactly when
   no address is repeated among the owners: a node rebuilds its first slot only.
   */
  lemma RepairCoversIff(c: Config)
    requires c.objects > 0
    ensures (forall store :: AllRepaired(c, store) ==> AllPlaced(c, store)) <==> NoneRepeated(c)
  {
    if NoneRepeated(c) {
      forall store | AllRepaired(c, store) ensures AllPlaced(c, store) {
        RepairedArePlaced(c, store);
      }
    } else {
      RepeatedIsBare(c);
    }
  }

  lemma RepairedArePlaced(c: Config, store: map<Copy, Bytes>)
    requires NoneRepeated(c) && AllRepaired(c, store)
    ensures AllPlaced(c, store)
  {
    forall s | 0 <= s < |c.owners| && s < c.Shards() ensures Holds(c, store, c.owners[s], s) {
      IndexFirst(c.owners, s);
      assert c.owners[s] in c.owners;
    }
  }

  /** How a slot stays bare: its address owns an earlier slot, which is the one it rebuilds. */
  lemma RepeatedIsBare(c: Config)
    requires c.objects > 0 && !NoneRepeated(c)
    ensures AllRepaired(c, FirstSlots(c)) && !AllPlaced(c, FirstSlots(c))
  {
    var store := FirstSlots(c);
    var i, j :| 0 <= i < j < |c.owners| && j < c.Shards() && c.owners[i] == c.owners[j];
    IndexFirst(c.owners, i);
    assert Copy(c.owners[j], Key(j, 0)) !in store;
    assert !Holds(c, store, c.owners[j], j);
    forall n | n in c.owners && c.SlotOf(n) < c.Shards() ensures Holds(c, store, n, c.SlotOf(n)) {
      forall o | 0 <= o < c.objects ensures Copy(n, Key(c.SlotOf(n), o)) in store {
        assert FirstCopy(c, n, o) in store;
      }
    }
  }

  /** Two slots of one address: the second is never rebuilt. */
  lemma RepeatedOwner()
    ensures var c := Config([4, 4], 1, 1, 1);
            !NoneRepeated(c) && AllRepaired(c, map[Copy(4, Key(0, 0)) := [7]]) && !AllPlaced(c, map[Copy(4, Key(0, 0)) := [7]])
  {
    var c, store := Config([4, 4], 1, 1, 1), map[Copy(4, Key(0, 0)) := [7]];
    assert c.owners[0] == c.owners[1];
    assert c.SlotOf(4) == 0;
    assert Copy(4, Key(1, 0)) !in store;
    assert !Holds(c, store, c.owners[1], 1);
  }
}
