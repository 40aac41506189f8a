/** What a node's prune and rebuild achieve when nothing stops them, step by step. */
module EcProgress {
  import opened Wire
  import opened EcShards
  import opened EcRepair
  import opened EcCluster

  // ------------------------------------------------------------ a prune with the cluster to itself

  /** The store once a node has dropped its staged copies. */
  function Pruned(c: Config, store: map<Copy, Bytes>, n: Addr): map<Copy, Bytes> {
    map x | x in store && !Foreign(c, n, x) :: store[x]
  }

  /** A step of node n's prune that its peers and its own store answer. */
  predicate Answered(a: Action, n: Addr) { a.node == n && !a.Put? && (a.Start? || a.up) }

  ghost predicate AllAnswered(actions: seq<Action>, n: Addr) { forall i :: 0 <= i < |actions| ==> Answered(actions[i], n) }

  lemma {:induction false} RunCons(c: Config, w: World, a: Action, rest: seq<Action>)
    ensures Run(c, w, [a] + rest) == Run(c, Step(c, w, a), rest)
  {
    hide Step;
    var all := [a] + rest;
    if rest == [] {
      assert all[..0] == [] && Run(c, w, all[..0]) == w;
    } else {
      RunCons(c, w, a, rest[..|rest| - 1]);
      assert all[..|all| - 1] == [a] + rest[..|rest| - 1];
    }
  }

  /** A node checking, every slot but its own confirmed, comes to delete. */
  lemma {:induction false} ChecksThrough(c: Config, w: World, n: Addr) returns (actions: seq<Action>)
    requires w.At(n).Checking? && w.At(n).slot <= c.Shards() && ConfirmedBelow(c, w, n, c.Shards())
    ensures AllAnswered(actions, n)
    ensures Run(c, w, actions) == World(w.store, w.phase[n := Deleting(0, 0)])
    decreases c.Shards() - w.At(n).slot
  {
    var s, a := w.At(n).slot, Check(n, true);
    var v := Step(c, w, a);
    if s == c.Shards() {
      actions := [a];
      RunCons(c, w, a, []);
    } else {
      assert s != c.SlotOf(n) ==> Confirmed(c, w, n, s);
      BelowGrows(c, w, v, n, c.Shards());
      var rest := ChecksThrough(c, v, n);
      actions := [a] + rest;
      RunCons(c, w, a, rest);
      assert v.phase[n := Deleting(0, 0)] == w.phase[n := Deleting(0, 0)];
    }
  }

  /** A foreign copy of n's at or past the place its deletes have reached. */
  predicate Ahead(c: Config, n: Addr, s: nat, o: nat, x: Copy) {
    Foreign(c, n, x) && (x.key.slot > s || (x.key.slot == s && x.key.obj >= o))
  }

  function LeftFrom(c: Config, store: map<Copy, Bytes>, n: Addr, s: nat, o: nat): map<Copy, Bytes> {
    map x | x in store && !Ahead(c, n, s, o, x) :: store[x]
  }

  /** A node deleting drops every foreign copy it has not come to yet, and rests. */
  lemma {:induction false} DeletesThrough(c: Config, w: World, n: Addr) returns (actions: seq<Action>)
    requires w.At(n).Deleting? && w.At(n).slot <= c.Shards()
    ensures AllAnswered(actions, n)
    ensures Run(c, w, actions) == World(LeftFrom(c, w.store, n, w.At(n).slot, w.At(n).obj), w.phase[n := Idle])
    decreases c.Shards() - w.At(n).slot, if w.At(n).obj < c.objects then c.objects - w.At(n).obj else 0
  {
    var s, o, a := w.At(n).slot, w.At(n).obj, Delete(n, true);
    var v := Step(c, w, a);
    if s == c.Shards() {
      actions := [a];
      RunCons(c, w, a, []);
      assert LeftFrom(c, w.store, n, s, o) == w.store;
    } else {
      hide LeftFrom;
      var rest := DeletesThrough(c, v, n);
      actions := [a] + rest;
      RunCons(c, w, a, rest);
      assert v.phase[n := Idle] == w.phase[n := Idle];
      DeletesOne(c, w, n);
    }
  }

  /** One delete brings the store no further from where the deletes lead. */
  lemma DeletesOne(c: Config, w: World, n: Addr)
    requires w.At(n).Deleting? && w.At(n).slot < c.Shards()
    ensures var v := Step(c, w, Delete(n, true));
            v.At(n).Deleting? && LeftFrom(c, v.store, n, v.At(n).slot, v.At(n).obj) == LeftFrom(c, w.store, n, w.At(n).slot, w.At(n).obj)
  {
  }

  lemma {:induction false} RunConcat(c: Config, w: World, a: seq<Action>, b: seq<Action>)
    ensures Run(c, w, a + b) == Run(c, Run(c, w, a), b)
  {
    hide Step;
    if b == [] {
      assert a + b == a;
    } else {
      RunConcat(c, w, a, b[..|b| - 1]);
      assert (a + b)[..|a + b| - 1] == a + b[..|b| - 1];
    }
  }

  /**
   A prune whose peers answer does get to its end once every other slot is on its owner: the node's own
   steps alone leave the store that a prune run through at once leaves.
   */
  lemma PruneGetsThere(c: Config, w: World, n: Addr) returns (actions: seq<Action>)
    requires w.At(n) == Idle && c.SlotOf(n) >= 0 && ConfirmedBelow(c, w, n, c.Shards())
    ensures AllAnswered(actions, n)
    ensures Run(c, w, actions) == World(Pruned(c, w.store, n), w.phase[n := Idle])
  {
    hide Step; hide ConfirmedBelow;
    var started := World(w.store, w.phase[n := Checking(0)]);
    Started(c, w, n);
    BelowGrows(c, w, started, n, c.Shards());
    var checks := ChecksThrough(c, started, n);
    var deleting := Run(c, started, checks);
    var deletes := DeletesThrough(c, deleting, n);
    actions := [Start(n)] + (checks + deletes);
    RunCons(c, w, Start(n), checks + deletes);
    RunConcat(c, started, checks, deletes);
    assert deleting.phase[n := Idle] == w.phase[n := Idle];
    assert LeftFrom(c, w.store, n, 0, 0) == Pruned(c, w.store, n);
  }

  lemma Started(c: Config, w: World, n: Addr)
    requires w.At(n) == Idle && c.SlotOf(n) >= 0
    ensures Step(c, w, Start(n)) == World(w.store, w.phase[n := Checking(0)])
  {
  }

  /** While some other slot is not on its owner, no steps of the node's prune touch a copy. */
  lemma {:induction false} PruneRefused(c: Config, w: World, n: Addr, actions: seq<Action>)
    requires Inv(c, w) && !ConfirmedBelow(c, w, n, c.Shards())
    requires forall i :: 0 <= i < |actions| ==> actions[i].node == n && !actions[i].Put?
    ensures Run(c, w, actions).store == w.store
  {
    hide Inv; hide ConfirmedBelow;
    if actions != [] {
      var front := actions[..|actions| - 1];
      PruneRefused(c, w, n, front);
      RunKeeps(c, w, front);
      NotDeleting(c, w, Run(c, w, front), n);
    }
  }

  lemma NotDeleting(c: Config, w: World, v: World, n: Addr)
    requires Inv(c, v) && v.store == w.store && !ConfirmedBelow(c, w, n, c.Shards())
    ensures !v.At(n).Deleting?
  {
    assert NodeOk(c, v, n);
    if ConfirmedBelow(c, v, n, c.Shards()) {
      BelowGrows(c, v, w, n, c.Shards());
    }
  }

  // ------------------------------------------------------------ a rebuild that finds enough shards

  /** A rebuild that has gathered only originals stores its shard exactly when it has enough of them. */
  lemma RebuiltIff(c: Config, code: Code, orig: Originals, r: Repair, k: Key)
    requires Lawful(c, code, orig) && GatherOk(c, orig, r) && r.Gathering? && k.obj == r.obj && k.slot < c.Shards()
    ensures Rebuilt(c, code, r.shards, k).Ok? <==> Present(r.shards) >= c.data
  {
    hide Present;
    if Present(r.shards) >= c.data {
      Decoded(c, code.rec, Shards(c, orig, r.obj), r.shards);
    }
  }

  /** A slot and a node whose copy of it passes its checksum. */
  datatype Offer = Offer(slot: nat, from: Addr)

  /** As many different slots as the code has data shards, each with a good copy to fetch. */
  ghost predicate Enough(c: Config, code: Code, store: map<Copy, Bytes>, obj: nat, offers: seq<Offer>) {
    && |offers| == c.data
    && (forall i :: 0 <= i < |offers| ==>
          offers[i].slot < c.Shards() && Passes(store, code.sums, code.sum, offers[i].from, Key(offers[i].slot, obj)))
    && forall i, j :: 0 <= i < j < |offers| ==> offers[i].slot != offers[j].slot
  }

  function Fetches(n: Addr, offers: seq<Offer>): seq<Event> {
    seq(|offers|, i requires 0 <= i < |offers| => Fetch(n, offers[i].slot, offers[i].from, true))
  }

  /** The rebuild has a shard of each of the first k offers, and of no later one. */
  ghost predicate Gathered(c: Config, w: Cluster, n: Addr, obj: nat, offers: seq<Offer>, k: nat) {
    var r := w.RepairAt(n);
    && k <= |offers| && r.Gathering? && r.obj == obj && |r.shards| == c.Shards() && Present(r.shards) == k
    && forall i :: k <= i < |offers| && offers[i].slot < |r.shards| ==> r.shards[offers[i].slot].None?
  }

  lemma GatherOne(c: Config, code: Code, w: Cluster, n: Addr, obj: nat, offers: seq<Offer>, k: nat)
    requires Enough(c, code, w.world.store, obj, offers) && k < |offers| && Gathered(c, w, n, obj, offers, k)
    ensures Gathered(c, Next(c, code, w, Fetch(n, offers[k].slot, offers[k].from, true)), n, obj, offers, k + 1)
    ensures Next(c, code, w, Fetch(n, offers[k].slot, offers[k].from, true)).world == w.world
  {
    hide Present;
    var r, at := w.RepairAt(n), offers[k].slot;
    var got := Fetched(code, w.world.store, offers[k].from, Key(at, obj), true);
    assert got.Some?;
    PresentSet(r.shards, at, got.value);
  }

  lemma {:induction false} GatherAll(c: Config, code: Code, w: Cluster, n: Addr, obj: nat, offers: seq<Offer>, k: nat)
    requires Enough(c, code, w.world.store, obj, offers) && k <= |offers| && Gathered(c, w, n, obj, offers, 0)
    ensures var v := RunAll(c, code, w, Fetches(n, offers)[..k]);
            v.world == w.world && Gathered(c, v, n, obj, offers, k)
  {
    hide Next; hide Gathered;
    var events := Fetches(n, offers);
    if k > 0 {
      GatherAll(c, code, w, n, obj, offers, k - 1);
      assert events[..k] == events[..k - 1] + [events[k - 1]];
      RunAllSnoc(c, code, w, events[..k - 1], events[k - 1]);
      GatherOne(c, code, RunAll(c, code, w, events[..k - 1]), n, obj, offers, k - 1);
    }
  }

  /**
   A rebuild that starts on an object heals it as long as enough good copies of different slots are
   anywhere: fetching them and storing leaves the original shard on the node and every other copy as it was.
   */
  lemma RepairHeals(c: Config, code: Code, orig: Originals, w: Cluster, n: Addr, obj: nat, offers: seq<Offer>)
    requires Lawful(c, code, orig) && AllSound(c, code, orig, w)
    requires 0 <= c.SlotOf(n) < c.Shards() && obj < c.objects && w.RepairAt(n) == Gathering(obj, Missing(c.Shards()))
    requires Enough(c, code, w.world.store, obj, offers)
    ensures var k := Key(c.SlotOf(n), obj);
            var v := RunAll(c, code, w, Fetches(n, offers) + [Store(n, true)]);
            && v.world.store == w.world.store[Copy(n, k) := orig(k)]
            && v.RepairAt(n) == if obj + 1 < c.objects then Gathering(obj + 1, Missing(c.Shards())) else Resting
  {
    hide Lawful; hide Sound; hide GatherOk; hide NextRepair; hide Rebuilt; hide RunAll; hide Present; hide Enough;
    var events, k := Fetches(n, offers), Key(c.SlotOf(n), obj);
    PresentNone(c.Shards());
    GatherAll(c, code, w, n, obj, offers, |offers|);
    assert events[..|offers|] == events;
    var v := RunAll(c, code, w, events);
    RunAllSound(c, code, orig, w, events);
    var r := v.RepairAt(n);
    assert GatherOk(c, orig, r);
    EnoughIs(c, code, w.world.store, obj, offers);
    RebuiltIff(c, code, orig, r, k);
    RebuiltIsOriginal(c, code, orig, r, k);
    RunAllSnoc(c, code, w, events, Store(n, true));
    StoreMoves(c, code, v, n);
  }

  /** A store that succeeds moves the rebuild to the part's next object, or ends it. */
  lemma StoreMoves(c: Config, code: Code, w: Cluster, n: Addr)
    requires w.RepairAt(n).Gathering? && Effect(c, code, w, Store(n, true)).Some?
    ensures var obj := w.RepairAt(n).obj;
            Next(c, code, w, Store(n, true)).RepairAt(n) == if obj + 1 < c.objects then Gathering(obj + 1, Missing(c.Shards())) else Resting
  {
  }

  lemma EnoughIs(c: Config, code: Code, store: map<Copy, Bytes>, obj: nat, offers: seq<Offer>)
    requires Enough(c, code, store, obj, offers)
    ensures |offers| == c.data
  {
  }
}
