/** A node's prune as it runs, what pruning does to intact copies, and the rebuild of a missing slot. */
module EcRepair {
  import opened Wire
  import opened EcShards

  // ------------------------------------------------------------ the prune, run through

  /** A staged copy of a slot the node does not own. */
  predicate Foreign(c: Config, n: Addr, x: Copy) {
    x.node == n && x.key.slot != c.SlotOf(n) && x.key.slot < c.Shards() && x.key.obj < c.objects
  }

  predicate HasForeign(c: Config, store: map<Copy, Bytes>, n: Addr) {
    exists x :: x in store && x.node == n && x.key.slot != c.SlotOf(n)
  }

  method PeerHolds(c: Config, store: map<Copy, Bytes>, n: Addr, slot: nat) returns (ok: bool)
    ensures ok <==> Holds(c, store, n, slot)
  {
    for o := 0 to c.objects
      invariant forall p :: 0 <= p < o ==> Copy(n, Key(slot, p)) in store
    {
      if Copy(n, Key(slot, o)) !in store {
        return false;
      }
    }
    ok := true;
  }

  method DropSlot(c: Config, store: map<Copy, Bytes>, n: Addr, slot: nat) returns (left: map<Copy, Bytes>)
    ensures left == map x | x in store && !(x.node == n && x.key.slot == slot && x.key.obj < c.objects) :: store[x]
  {
    left := store;
    for o := 0 to c.objects
      invariant left == map x | x in store && !(x.node == n && x.key.slot == slot && x.key.obj < o) :: store[x]
    {
      left := left - {Copy(n, Key(slot, o))};
    }
  }

  /**
   Prunes a node to its own slot once every other slot is confirmed on its owner, and touches nothing
   before that.
   */
  method PruneStaged(c: Config, store: map<Copy, Bytes>, n: Addr) returns (left: map<Copy, Bytes>, touched: bool)
    ensures touched <==> c.SlotOf(n) >= 0 && HasForeign(c, store, n) && ConfirmedBelow(c, World(store, map[]), n, c.Shards())
    ensures !touched ==> left == store
    ensures touched ==> left == map x | x in store && !Foreign(c, n, x) :: store[x]
  {
    var mySlot := c.SlotOf(n);
    left, touched := store, false;
    if mySlot < 0 || !HasForeign(c, store, n) {
      return;
    }
    ghost var w := World(store, map[]);
    for slot := 0 to c.Shards()
      invariant left == store && !touched && ConfirmedBelow(c, w, n, slot)
    {
      if slot != mySlot {
        if slot >= |c.owners| || c.owners[slot] == n {
          assert !Confirmed(c, w, n, slot);
          return;
        }
        var ok := PeerHolds(c, store, c.owners[slot], slot);
        if !ok {
          assert !Confirmed(c, w, n, slot);
          return;
        }
      }
    }
    for slot := 0 to c.Shards()
      invariant left == map x | x in store && !(Foreign(c, n, x) && x.key.slot < slot) :: store[x]
    {
      if slot != mySlot {
        left := DropSlot(c, left, n, slot);
      }
    }
    touched := true;
  }

  // ------------------------------------------------------------ intact copies

  /** What the shard objects were when the part was encoded. */
  type Originals = Key -> Bytes

  ghost predicate IntactAt(store: map<Copy, Bytes>, orig: Originals, n: Addr, k: Key) {
    Copy(n, k) in store && store[Copy(n, k)] == orig(k)
  }

  ghost predicate Intact(store: map<Copy, Bytes>, orig: Originals, k: Key) { exists n :: IntactAt(store, orig, n, k) }

  /** Every stored copy is the original, or shows its rot: it fails its recorded checksum. */
  ghost predicate Sound(store: map<Copy, Bytes>, orig: Originals, sums: Key -> uint32, sum: Bytes -> uint32) {
    forall x :: x in store ==> store[x] == orig(x.key) || sum(store[x]) != sums(x.key)
  }

  /** What the store holds at n for k passes the checksum the part records. */
  predicate Passes(store: map<Copy, Bytes>, sums: Key -> uint32, sum: Bytes -> uint32, n: Addr, k: Key) {
    Copy(n, k) in store && sum(store[Copy(n, k)]) == sums(k)
  }

  /**
   The check asks the owner for keys, not contents. A prune leaves an intact copy of a foreign shard
   exactly when some other node's copy passes its checksum, which the check could have asked.
   */
  lemma PruneKeepsIntactIff(c: Config, store: map<Copy, Bytes>, left: map<Copy, Bytes>, n: Addr, orig: Originals,
                            sums: Key -> uint32, sum: Bytes -> uint32, k: Key)
    requires left == map x | x in store && !Foreign(c, n, x) :: store[x]
    requires Sound(store, orig, sums, sum) && sum(orig(k)) == sums(k)
    requires k.slot < c.Shards() && k.obj < c.objects && k.slot != c.SlotOf(n)
    ensures Intact(left, orig, k) <==> exists m :: m != n && Passes(store, sums, sum, m, k)
  {
    if Intact(left, orig, k) {
      var m :| IntactAt(left, orig, m, k);
      assert m != n && Passes(store, sums, sum, m, k);
    }
    if exists m :: m != n && Passes(store, sums, sum, m, k) {
      var m :| m != n && Passes(store, sums, sum, m, k);
      assert IntactAt(left, orig, m, k);
    }
  }

  /** When the owners' copies are intact, a prune keeps every foreign shard intact somewhere. */
  lemma IntactHomesSuffice(c: Config, store: map<Copy, Bytes>, left: map<Copy, Bytes>, n: Addr, orig: Originals, k: Key)
    requires left == map x | x in store && !Foreign(c, n, x) :: store[x]
    requires ConfirmedBelow(c, World(store, map[]), n, c.Shards())
    requires k.slot < c.Shards() && k.obj < c.objects && k.slot != c.SlotOf(n)
    requires k.slot < |c.owners| ==> IntactAt(store, orig, c.owners[k.slot], k)
    ensures Intact(left, orig, k)
  {
    assert Confirmed(c, World(store, map[]), n, k.slot);
    assert IntactAt(left, orig, c.owners[k.slot], k);
  }

  /** How it goes wrong: the owner's copy has rotted, the staged one has not, and the prune drops it. */
  lemma RottenHome()
    ensures var c := Config([0, 1], 1, 1, 1);
            var orig: Originals := k => [7];
            var store := map[Copy(0, Key(0, 0)) := [7], Copy(0, Key(1, 0)) := [7], Copy(1, Key(1, 0)) := [9]];
            var left := map x | x in store && !Foreign(c, 0, x) :: store[x];
            && c.SlotOf(0) == 0 && HasForeign(c, store, 0) && ConfirmedBelow(c, World(store, map[]), 0, c.Shards())
            && Intact(store, orig, Key(1, 0)) && !Intact(left, orig, Key(1, 0))
  {
    var c := Config([0, 1], 1, 1, 1);
    var orig: Originals := k => [7];
    var store := map[Copy(0, Key(0, 0)) := [7], Copy(0, Key(1, 0)) := [7], Copy(1, Key(1, 0)) := [9]];
    var left := map x | x in store && !Foreign(c, 0, x) :: store[x];
    assert c.owners[0] == 0 && c.owners[1] == 1;
    assert Copy(0, Key(1, 0)) in store;
    assert IntactAt(store, orig, 0, Key(1, 0));
    forall n ensures !IntactAt(left, orig, n, Key(1, 0)) {
      assert n == 1 ==> left[Copy(n, Key(1, 0))][0] != 7;
    }
  }

  // ------------------------------------------------------------ rebuilding a slot

  /** A node's listing of the part's shard slots. */
  datatype Listing = Listing(node: Addr, slots: seq<nat>)

  function FirstWith(lists: seq<Listing>, slot: nat): (i: nat)
    ensures i <= |lists|
    ensures i < |lists| ==> slot in lists[i].slots
    ensures forall j :: 0 <= j < i ==> slot !in lists[j].slots
  {
    if lists == [] then 0
    else if slot in lists[0].slots then 0
    else FirstWith(lists[1..], slot) + 1
  }

  /** Maps each slot found to the first node listing it. */
  method Discover(lists: seq<Listing>) returns (m: map<nat, Addr>)
    ensures forall s :: s in m <==> FirstWith(lists, s) < |lists|
    ensures forall s :: s in m ==> m[s] == lists[FirstWith(lists, s)].node
  {
    m := map[];
    for i := 0 to |lists|
      invariant Found(lists, m, i)
    {
      ghost var before := m;
      m := Record(m, lists[i]);
      FoundMore(lists, before, m, i);
    }
  }

  /** The slots of the first k listings, each with the first node listing it. */
  ghost predicate Found(lists: seq<Listing>, m: map<nat, Addr>, k: nat)
    requires k <= |lists|
  {
    && (forall s :: s in m <==> FirstWith(lists, s) < k)
    && (forall s :: s in m ==> FirstWith(lists, s) < |lists| && m[s] == lists[FirstWith(lists, s)].node)
  }

  /** Adds a node's slots, leaving those already known to the node they were found on. */
  method Record(m: map<nat, Addr>, l: Listing) returns (r: map<nat, Addr>)
    ensures forall s :: s in r <==> s in m || s in l.slots
    ensures forall s :: s in r ==> r[s] == if s in m then m[s] else l.node
  {
    r := m;
    for k := 0 to |l.slots|
      invariant forall s :: s in r <==> s in m || s in l.slots[..k]
      invariant forall s :: s in r ==> r[s] == if s in m then m[s] else l.node
    {
      var s := l.slots[k];
      assert l.slots[..k + 1] == l.slots[..k] + [s];
      if s !in r {
        r := r[s := l.node];
      }
    }
    assert l.slots[..|l.slots|] == l.slots;
  }

  lemma FoundMore(lists: seq<Listing>, before: map<nat, Addr>, m: map<nat, Addr>, i: nat)
    requires i < |lists| && Found(lists, before, i)
    requires forall s :: s in m <==> s in before || s in lists[i].slots
    requires forall s :: s in m ==> m[s] == if s in before then before[s] else lists[i].node
    ensures Found(lists, m, i + 1)
  {
    forall s ensures s in m <==> FirstWith(lists, s) < i + 1 {
      FirstAt(lists, s, i);
    }
    forall s | s in m ensures m[s] == lists[FirstWith(lists, s)].node {
      FirstAt(lists, s, i);
    }
  }

  lemma FirstAt(lists: seq<Listing>, s: nat, i: nat)
    requires i < |lists|
    ensures FirstWith(lists, s) <= i <==> FirstWith(lists, s) < i || s in lists[i].slots
    ensures FirstWith(lists, s) >= i && s in lists[i].slots ==> FirstWith(lists, s) == i
  {
  }

  function Present(shards: seq<Option<Bytes>>): nat {
    if shards == [] then 0 else Present(shards[..|shards| - 1]) + if shards[|shards| - 1].Some? then 1 else 0
  }

  function Missing(n: nat): seq<Option<Bytes>> { seq(n, _ => None) }

  lemma {:induction false} PresentNone(n: nat)
    ensures Present(Missing(n)) == 0
  {
    if n > 0 {
      PresentNone(n - 1);
      assert Missing(n)[..n - 1] == Missing(n - 1);
    }
  }

  lemma {:induction false} PresentSet(shards: seq<Option<Bytes>>, i: nat, b: Bytes)
    requires i < |shards| && shards[i].None?
    ensures Present(shards[i := Some(b)]) == Present(shards) + 1
  {
    var n := |shards| - 1;
    if i < n {
      PresentSet(shards[..n], i, b);
      assert shards[i := Some(b)][..n] == shards[..n][i := Some(b)];
    } else {
      assert shards[i := Some(b)][..n] == shards[..n];
    }
  }

  /** The code's law: any data shards, all of them the originals, determine every shard. */
  ghost predicate Codes(c: Config, rec: seq<Option<Bytes>> -> Result<seq<Bytes>>, orig: seq<Bytes>) {
    && |orig| == c.Shards()
    && forall shards :: Usable(c, shards, orig) && Present(shards) >= c.data ==> rec(shards) == Ok(orig)
  }

  ghost predicate Usable(c: Config, shards: seq<Option<Bytes>>, orig: seq<Bytes>) {
    |shards| == c.Shards() == |orig| && forall s :: 0 <= s < |shards| && shards[s].Some? ==> shards[s].value == orig[s]
  }

  predicate Good(f: Option<Bytes>, want: uint32, sum: Bytes -> uint32) { f.Some? && sum(f.value) == want }

  /** How many of the first k fetches pass their checksum. */
  function GoodCount(slots: seq<nat>, fetched: seq<Option<Bytes>>, sums: seq<uint32>, sum: Bytes -> uint32, k: nat): nat
    requires |slots| == |fetched| && k <= |slots| && forall i :: 0 <= i < |slots| ==> slots[i] < |sums|
  {
    if k == 0 then 0 else GoodCount(slots, fetched, sums, sum, k - 1) + if Good(fetched[k - 1], sums[slots[k - 1]], sum) then 1 else 0
  }

  /** Rot shows: a fetched shard that is not the original fails its recorded checksum. */
  ghost predicate Detectable(slots: seq<nat>, fetched: seq<Option<Bytes>>, sums: seq<uint32>, sum: Bytes -> uint32, orig: seq<Bytes>)
    requires |slots| == |fetched| && |sums| == |orig| && forall i :: 0 <= i < |slots| ==> slots[i] < |sums|
  {
    && (forall i :: 0 <= i < |slots| && Good(fetched[i], sums[slots[i]], sum) ==> fetched[i].value == orig[slots[i]])
    && forall s :: 0 <= s < |orig| ==> sum(orig[s]) == sums[s]
  }

  /** Gathers up to data valid shards, by their true slot, and rebuilds this node's one. */
  method Rebuild(c: Config, slots: seq<nat>, fetched: seq<Option<Bytes>>, sums: seq<uint32>, sum: Bytes -> uint32,
                 rec: seq<Option<Bytes>> -> Result<seq<Bytes>>, mySlot: nat, ghost orig: seq<Bytes>)
    returns (r: Result<Bytes>)
    requires |slots| == |fetched| && |sums| == |orig| == c.Shards() && mySlot < c.Shards()
    requires (forall i :: 0 <= i < |slots| ==> slots[i] < c.Shards()) && (forall i, j :: 0 <= i < j < |slots| ==> slots[i] != slots[j])
    ensures r.Ok? ==> sum(r.value) == sums[mySlot]
    ensures Detectable(slots, fetched, sums, sum, orig) && Codes(c, rec, orig) ==>
              && (r.Ok? <==> GoodCount(slots, fetched, sums, sum, |slots|) >= c.data)
              && (r.Ok? ==> r.value == orig[mySlot])
  {
    hide Codes; hide Present;
    var shards := Missing(c.Shards());
    PresentNone(c.Shards());
    var have, i := 0, 0;
    while i < |slots| && have < c.data
      invariant 0 <= i <= |slots| && |shards| == c.Shards() && have == Present(shards) == GoodCount(slots, fetched, sums, sum, i) <= c.data
      invariant forall k :: i <= k < |slots| ==> shards[slots[k]].None?
      invariant Detectable(slots, fetched, sums, sum, orig) ==> Usable(c, shards, orig)
    {
      var slot := slots[i];
      if Good(fetched[i], sums[slot], sum) {
        PresentSet(shards, slot, fetched[i].value);
        shards := shards[slot := fetched[i]];
        have := have + 1;
      }
      i := i + 1;
    }
    CountMonotone(slots, fetched, sums, sum, i);
    if have < c.data {
      return Err;
    }
    var all := rec(shards);
    if Detectable(slots, fetched, sums, sum, orig) && Codes(c, rec, orig) {
      Decoded(c, rec, orig, shards);
    }
    if all.Err? || |all.value| != c.Shards() || sum(all.value[mySlot]) != sums[mySlot] {
      return Err;
    }
    r := Ok(all.value[mySlot]);
  }

  lemma Decoded(c: Config, rec: seq<Option<Bytes>> -> Result<seq<Bytes>>, orig: seq<Bytes>, shards: seq<Option<Bytes>>)
    requires Codes(c, rec, orig) && Usable(c, shards, orig) && Present(shards) >= c.data
    ensures rec(shards) == Ok(orig) && |orig| == c.Shards()
  {
  }

  lemma {:induction false} CountMonotone(slots: seq<nat>, fetched: seq<Option<Bytes>>, sums: seq<uint32>, sum: Bytes -> uint32, k: nat)
    requires |slots| == |fetched| && k <= |slots| && forall i :: 0 <= i < |slots| ==> slots[i] < |sums|
    ensures GoodCount(slots, fetched, sums, sum, k) <= GoodCount(slots, fetched, sums, sum, |slots|)
    decreases |slots| - k
  {
    if k < |slots| {
      CountMonotone(slots, fetched, sums, sum, k + 1);
    }
  }
}
