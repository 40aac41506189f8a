/**
 Erasure-coded parts across the nodes that own them: staged shards pruned by one node while others prune
 and repair, and lost shards rebuilt from whatever the owners still hold.
 */
module EcShards {
  import opened Wire

  type Addr = nat

  /** One shard object of the part: its slot and which of the part's objects it belongs to. */
  datatype Key = Key(slot: nat, obj: nat)

  /** A stored copy of a shard object. */
  datatype Copy = Copy(node: Addr, key: Key)

  /** The part's placement: the address owning each slot, and the code's shape. */
  datatype Config = Config(owners: seq<Addr>, data: nat, parity: nat, objects: nat) {
    function Shards(): nat { data + parity }

    function SlotOf(n: Addr): int { IndexOf(owners, n) }
  }

  function IndexOf(s: seq<Addr>, v: Addr): (i: int)
    ensures -1 <= i < |s|
    ensures i >= 0 ==> s[i] == v && forall j :: 0 <= j < i ==> s[j] != v
    ensures i < 0 ==> v !in s
  {
    if s == [] then -1
    else if s[0] == v then 0
    else
      var r := IndexOf(s[1..], v);
      if r < 0 then -1 else r + 1
  }

  /** Where a node's prune stands: not running, checking slots, or deleting its staged copies. */
  datatype Phase = Idle | Checking(slot: nat) | Deleting(slot: nat, obj: nat)

  datatype World = World(store: map<Copy, Bytes>, phase: map<Addr, Phase>) {
    function At(n: Addr): Phase { if n in phase then phase[n] else Idle }
  }

  /** The owner of slot holds every object of it. */
  ghost predicate Holds(c: Config, store: map<Copy, Bytes>, n: Addr, slot: nat) {
    forall o :: 0 <= o < c.objects ==> Copy(n, Key(slot, o)) in store
  }

  /** One step of some node. A listing or a delete may also fail, which ends the prune. */
  datatype Action =
    | Put(node: Addr, key: Key, bytes: Bytes)
    | Start(node: Addr)
    | Check(node: Addr, up: bool)
    | Delete(node: Addr, up: bool)

  /** Slot s of node n's check: skipped, refused, or confirmed on its owner. */
  ghost function CheckSlot(c: Config, w: World, n: Addr, s: nat, up: bool): Phase {
    if s >= c.Shards() then Deleting(0, 0)
    else if s == c.SlotOf(n) then Checking(s + 1)
    else if s >= |c.owners| || c.owners[s] == n then Idle
    else if up && Holds(c, w.store, c.owners[s], s) then Checking(s + 1)
    else Idle
  }

  ghost function Step(c: Config, w: World, a: Action): World {
    match a
    case Put(n, k, b) => World(w.store[Copy(n, k) := b], w.phase)
    case Start(n) => if w.At(n) == Idle && c.SlotOf(n) >= 0 then w.(phase := w.phase[n := Checking(0)]) else w
    case Check(n, up) =>
      if w.At(n).Checking? then w.(phase := w.phase[n := CheckSlot(c, w, n, w.At(n).slot, up)]) else w
    case Delete(n, up) =>
      match w.At(n)
      case Deleting(s, o) =>
        if s >= c.Shards() || !up then w.(phase := w.phase[n := Idle])
        else if s == c.SlotOf(n) || o >= c.objects then w.(phase := w.phase[n := Deleting(s + 1, 0)])
        else World(w.store - {Copy(n, Key(s, o))}, w.phase[n := Deleting(s, o + 1)])
      case _ => w
  }

  ghost function Run(c: Config, w: World, actions: seq<Action>): World {
    if actions == [] then w else Step(c, Run(c, w, actions[..|actions| - 1]), actions[|actions| - 1])
  }

  // ------------------------------------------------------------ what every step keeps

  /** Slot t of node n's staged copies is on its owner, and that owner is another node. */
  ghost predicate Confirmed(c: Config, w: World, n: Addr, t: nat) {
    t < |c.owners| && c.owners[t] != n && Holds(c, w.store, c.owners[t], t)
  }

  ghost predicate ConfirmedBelow(c: Config, w: World, n: Addr, s: nat) {
    forall t :: 0 <= t < s && t != c.SlotOf(n) ==> Confirmed(c, w, n, t)
  }

  ghost predicate NodeOk(c: Config, w: World, n: Addr) {
    match w.At(n)
    case Idle => true
    case Checking(s) => ConfirmedBelow(c, w, n, s)
    case Deleting(_, _) => ConfirmedBelow(c, w, n, c.Shards())
  }

  ghost predicate Inv(c: Config, w: World) { forall n :: NodeOk(c, w, n) }

  /** The copy of slot t on its own owner survives whatever a node that confirmed its slots deletes. */
  lemma HomeSurvives(c: Config, w: World, m: Addr, s: nat, o: nat, n: Addr, t: nat)
    requires Confirmed(c, w, m, s) && Confirmed(c, w, n, t)
    ensures Confirmed(c, World(w.store - {Copy(m, Key(s, o))}, w.phase), n, t)
  {
  }

  lemma BelowSurvives(c: Config, w: World, m: Addr, s: nat, o: nat, n: Addr, k: nat, phase: map<Addr, Phase>)
    requires Confirmed(c, w, m, s) && ConfirmedBelow(c, w, n, k)
    ensures ConfirmedBelow(c, World(w.store - {Copy(m, Key(s, o))}, phase), n, k)
  {
    hide Confirmed;
    forall t | 0 <= t < k && t != c.SlotOf(n) ensures Confirmed(c, World(w.store - {Copy(m, Key(s, o))}, phase), n, t) {
      HomeSurvives(c, w, m, s, o, n, t);
      SameStore(c, World(w.store - {Copy(m, Key(s, o))}, w.phase), World(w.store - {Copy(m, Key(s, o))}, phase), n, t);
    }
  }

  lemma SameStore(c: Config, w: World, v: World, n: Addr, t: nat)
    requires Confirmed(c, w, n, t) && forall x :: x in w.store ==> x in v.store
    ensures Confirmed(c, v, n, t)
  {
  }

  lemma BelowGrows(c: Config, w: World, v: World, n: Addr, k: nat)
    requires ConfirmedBelow(c, w, n, k) && forall x :: x in w.store ==> x in v.store
    ensures ConfirmedBelow(c, v, n, k)
  {
    hide Confirmed;
    forall t | 0 <= t < k && t != c.SlotOf(n) ensures Confirmed(c, v, n, t) {
      SameStore(c, w, v, n, t);
    }
  }

  /** A step that only adds copies, or only moves one node's phase to one that is ok, keeps the invariant. */
  lemma GrowKeeps(c: Config, w: World, v: World, m: Addr)
    requires Inv(c, w) && (forall x :: x in w.store ==> x in v.store)
    requires (forall n :: n != m ==> v.At(n) == w.At(n)) && NodeOk(c, v, m)
    ensures Inv(c, v)
  {
    hide ConfirmedBelow;
    forall n ensures NodeOk(c, v, n) {
      assert NodeOk(c, w, n);
      if n != m {
        match w.At(n)
        case Idle =>
        case Checking(s) => BelowGrows(c, w, v, n, s);
        case Deleting(_, _) => BelowGrows(c, w, v, n, c.Shards());
      }
    }
  }

  lemma CheckKeeps(c: Config, w: World, n: Addr, up: bool)
    requires Inv(c, w) && w.At(n).Checking?
    ensures Inv(c, Step(c, w, Check(n, up)))
  {
    var s := w.At(n).slot;
    var v := Step(c, w, Check(n, up));
    assert NodeOk(c, w, n);
    assert v.store == w.store && v.At(n) == CheckSlot(c, w, n, s, up);
    CheckedSlot(c, w, v, n, s, up);
    GrowKeeps(c, w, v, n);
  }

  lemma CheckedSlot(c: Config, w: World, v: World, n: Addr, s: nat, up: bool)
    requires ConfirmedBelow(c, w, n, s) && v.store == w.store && v.At(n) == CheckSlot(c, w, n, s, up)
    ensures NodeOk(c, v, n)
  {
    BelowGrows(c, w, v, n, s);
  }

  lemma DeleteKeeps(c: Config, w: World, n: Addr, up: bool)
    requires Inv(c, w) && w.At(n).Deleting?
    ensures Inv(c, Step(c, w, Delete(n, up)))
  {
    hide ConfirmedBelow; hide Confirmed;
    var s, o := w.At(n).slot, w.At(n).obj;
    var v := Step(c, w, Delete(n, up));
    assert NodeOk(c, w, n);
    if s >= c.Shards() || !up || s == c.SlotOf(n) || o >= c.objects {
      BelowGrows(c, w, v, n, c.Shards());
      GrowKeeps(c, w, v, n);
    } else {
      DeletedSlot(c, w, n, s);
      forall x ensures NodeOk(c, v, x) {
        assert NodeOk(c, w, x);
        match w.At(x)
        case Idle =>
        case Checking(k) => BelowSurvives(c, w, n, s, o, x, k, v.phase);
        case Deleting(_, _) => BelowSurvives(c, w, n, s, o, x, c.Shards(), v.phase);
      }
    }
  }

  lemma DeletedSlot(c: Config, w: World, n: Addr, s: nat)
    requires ConfirmedBelow(c, w, n, c.Shards()) && s < c.Shards() && s != c.SlotOf(n)
    ensures Confirmed(c, w, n, s)
  {
  }

  lemma StepKeeps(c: Config, w: World, a: Action)
    requires Inv(c, w)
    ensures Inv(c, Step(c, w, a))
  {
    match a
    case Put(n, k, b) => GrowKeepsPhase(c, w, Step(c, w, a), n);
    case Start(n) => GrowKeepsPhase(c, w, Step(c, w, a), n);
    case Check(n, up) =>
      if w.At(n).Checking? {
        CheckKeeps(c, w, n, up);
      }
    case Delete(n, up) =>
      if w.At(n).Deleting? {
        DeleteKeeps(c, w, n, up);
      }
  }

  lemma GrowKeepsPhase(c: Config, w: World, v: World, m: Addr)
    requires Inv(c, w) && (forall x :: x in w.store ==> x in v.store)
    requires (forall n :: n != m ==> v.At(n) == w.At(n)) && (v.At(m) == w.At(m) || v.At(m) == Checking(0))
    ensures Inv(c, v)
  {
    hide Confirmed;
    assert NodeOk(c, w, m);
    match w.At(m) {
      case Idle =>
      case Checking(s) => BelowGrows(c, w, v, m, s);
      case Deleting(_, _) => BelowGrows(c, w, v, m, c.Shards());
    }
    GrowKeeps(c, w, v, m);
  }

  // ------------------------------------------------------------ no last copy is ever removed

  ghost predicate Somewhere(w: World, k: Key) { exists n :: Copy(n, k) in w.store }

  /** A delete leaves the shard's own owner holding it. */
  lemma StepSafe(c: Config, w: World, a: Action, k: Key)
    requires Inv(c, w) && Somewhere(w, k)
    ensures Somewhere(Step(c, w, a), k)
  {
    hide ConfirmedBelow;
    var n :| Copy(n, k) in w.store;
    var v := Step(c, w, a);
    if a.Delete? && w.At(a.node).Deleting? && Copy(n, k) !in v.store {
      var m, s := a.node, w.At(a.node).slot;
      assert NodeOk(c, w, m);
      DeletedSlot(c, w, m, s);
      assert Copy(c.owners[s], k) in v.store;
    } else {
      assert Copy(n, k) in v.store;
    }
  }

  lemma {:induction false} RunKeeps(c: Config, w: World, actions: seq<Action>)
    requires Inv(c, w)
    ensures Inv(c, Run(c, w, actions))
  {
    hide Inv; hide Step;
    if actions != [] {
      RunKeeps(c, w, actions[..|actions| - 1]);
      StepKeeps(c, Run(c, w, actions[..|actions| - 1]), actions[|actions| - 1]);
    }
  }

  /**
   Under a fixed owner list, addresses repeated or not, with any number of nodes pruning and storing in
   any order between each other's checks and deletes: a shard held by some node is held by some node
   ever after.
   */
  lemma {:induction false} NoLastCopyRemoved(c: Config, w: World, actions: seq<Action>, k: Key)
    requires Inv(c, w) && Somewhere(w, k)
    ensures Somewhere(Run(c, w, actions), k)
  {
    hide Inv; hide Step; hide Somewhere;
    if actions != [] {
      var front := actions[..|actions| - 1];
      NoLastCopyRemoved(c, w, front, k);
      RunKeeps(c, w, front);
      StepSafe(c, Run(c, w, front), actions[|actions| - 1], k);
    }
  }

  /** A cluster with no prune under way satisfies the invariant. */
  lemma QuietIsOk(c: Config, w: World)
    requires forall n :: w.At(n) == Idle
    ensures Inv(c, w)
  {
  }
}
