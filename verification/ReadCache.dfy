/**
 The read cache over a backend: whole objects and pages of them kept in memory, evicted at any moment,
 dropped by every write. Seen through it, the backend is the backend.
 */
module ReadCache {
  import opened Wire
  import opened Chunking

  type Name = nat

  /** What tells an object's contents: absence, or a token made from the bytes. */
  datatype Version = Absent | Of(token: nat)

  /** The backend itself: its objects, and how it makes tokens. */
  datatype Store = Store(objects: map<Name, Bytes>, token: Bytes -> nat) {
    function VersionOf(k: Name): Version { if k in objects then Of(token(objects[k])) else Absent }

    function Put(k: Name, b: Bytes): Store { this.(objects := objects[k := b]) }

    function Drop(k: Name): Store { this.(objects := objects - {k}) }

    function Get(k: Name): Result<Bytes> { if k in objects then Ok(objects[k]) else Err }
  }

  /** Requests, whichever side serves them. up is false when the backend fails, having changed nothing. */
  datatype Request =
    | Read(name: Name)
    | ReadAt(name: Name, off: nat, len: nat)
    | ReadPage(name: Name, from: int, count: int)
    | ReadVersioned(name: Name, up: bool)
    | ReadUncached(name: Name)
    | Write(name: Name, bytes: Bytes, up: bool)
    | WriteUncached(name: Name, bytes: Bytes, up: bool)
    | CommitObject(name: Name, bytes: Bytes, up: bool)
    | PutIfAbsent(name: Name, bytes: Bytes, up: bool)
    | CompareAndSwap(name: Name, expected: Version, bytes: Bytes, up: bool)
    | Delete(name: Name, up: bool)

  datatype Answer = Failed | Done | Bytes(bytes: Bytes) | Versioned(bytes: Bytes, version: Version) | Swapped(version: Version, won: bool) | Placed(won: bool)

  function AnswerOf(r: Result<Bytes>): Answer { if r.Ok? then Bytes(r.value) else Failed }

  /** What the backend alone does with a request. */
  function Direct(s: Store, q: Request): (Store, Answer) {
    match q
    case Read(k) => (s, AnswerOf(s.Get(k)))
    case ReadUncached(k) => (s, AnswerOf(s.Get(k)))
    case ReadAt(k, off, n) => (s, if k in s.objects then Bytes(ClampRange(s.objects[k], off, n)) else Failed)
    case ReadPage(k, off, n) =>
      (s, if off >= 0 && n >= 0 && k in s.objects then Bytes(ClampRange(s.objects[k], off, n)) else Failed)
    case ReadVersioned(k, up) => (s, if up then Versioned(if k in s.objects then s.objects[k] else [], s.VersionOf(k)) else Failed)
    case Write(k, b, up) => if up then (s.Put(k, b), Done) else (s, Failed)
    case WriteUncached(k, b, up) => if up then (s.Put(k, b), Done) else (s, Failed)
    case CommitObject(k, b, up) => if up then (s.Put(k, b), Done) else (s, Failed)
    case PutIfAbsent(k, b, up) => if !up then (s, Failed) else if k in s.objects then (s, Placed(false)) else (s.Put(k, b), Placed(true))
    case CompareAndSwap(k, v, b, up) =>
      if !up then (s, Failed)
      else if s.VersionOf(k) == v then (s.Put(k, b), Swapped(Of(s.token(b)), true))
      else (s, Swapped(Absent, false))
    case Delete(k, up) => if up && k in s.objects then (s.Drop(k), Done) else (s, Failed)
  }

  function DirectRun(s: Store, qs: seq<Request>): (Store, seq<Answer>) {
    if qs == [] then (s, [])
    else
      var (t, before) := DirectRun(s, qs[..|qs| - 1]);
      var (u, a) := Direct(t, qs[|qs| - 1]);
      (u, before + [a])
  }

  /** A cached page: which object, under which of its generations, and which range. */
  datatype PageKey = PageKey(name: Name, gen: nat, off: nat, len: nat)

  /** A page a read can reach: its generation is its object's current one. */
  predicate Reachable(gens: map<Name, nat>, p: PageKey) { p.name in gens && gens[p.name] == p.gen }

  ghost predicate WholeAgrees(s: Store, whole: map<Name, Bytes>) {
    forall k :: k in whole ==> k in s.objects && whole[k] == s.objects[k]
  }

  ghost predicate PageAgrees(s: Store, p: PageKey, b: Bytes) {
    p.name in s.objects && b == ClampRange(s.objects[p.name], p.off, p.len)
  }

  ghost predicate PagesAgree(s: Store, gens: map<Name, nat>, pages: map<PageKey, Bytes>) {
    forall p :: p in pages && Reachable(gens, p) ==> PageAgrees(s, p, pages[p])
  }

  /** No generation in use has yet to be handed out. */
  ghost predicate GensUsed(gens: map<Name, nat>, pages: map<PageKey, Bytes>, next: nat) {
    (forall k :: k in gens ==> gens[k] < next) && (forall p :: p in pages ==> p.gen < next)
  }

  // ------------------------------------------------------------ what each change keeps

  lemma DropKeeps(s: Store, t: Store, k: Name, whole: map<Name, Bytes>, gens: map<Name, nat>, pages: map<PageKey, Bytes>)
    requires WholeAgrees(s, whole) && PagesAgree(s, gens, pages)
    requires forall x :: x != k && x in s.objects ==> x in t.objects && t.objects[x] == s.objects[x]
    ensures WholeAgrees(t, whole - {k}) && PagesAgree(t, gens - {k}, pages)
  {
    forall p | p in pages && Reachable(gens - {k}, p) ensures PageAgrees(t, p, pages[p]) {
      assert Reachable(gens, p);
      assert PageAgrees(s, p, pages[p]);
    }
  }

  lemma LoadWhole(s: Store, k: Name, whole: map<Name, Bytes>)
    requires WholeAgrees(s, whole) && k in s.objects
    ensures WholeAgrees(s, whole[k := s.objects[k]])
  {
  }

  /** A fresh generation makes no cached page reachable. */
  lemma FreshGen(s: Store, k: Name, gens: map<Name, nat>, pages: map<PageKey, Bytes>, next: nat)
    requires PagesAgree(s, gens, pages) && GensUsed(gens, pages, next) && k !in gens
    ensures PagesAgree(s, gens[k := next], pages) && GensUsed(gens[k := next], pages, next + 1)
  {
    forall p | p in pages && Reachable(gens[k := next], p) ensures PageAgrees(s, p, pages[p]) {
      assert p.name != k;
      assert Reachable(gens, p);
    }
  }

  lemma LoadPage(s: Store, p: PageKey, gens: map<Name, nat>, pages: map<PageKey, Bytes>, next: nat)
    requires PagesAgree(s, gens, pages) && GensUsed(gens, pages, next) && Reachable(gens, p) && p.name in s.objects
    ensures var b := ClampRange(s.objects[p.name], p.off, p.len);
            PagesAgree(s, gens, pages[p := b]) && GensUsed(gens, pages[p := b], next)
  {
    hide ClampRange;
    var b := ClampRange(s.objects[p.name], p.off, p.len);
    forall q | q in pages[p := b] && Reachable(gens, q) ensures PageAgrees(s, q, pages[p := b][q]) {
      if q != p {
        assert PageAgrees(s, q, pages[q]);
      }
    }
  }

  // ------------------------------------------------------------ the cache, step by step

  /** The backend and everything kept of it: whole objects, current generations and pages. */
  datatype Kept = Kept(inner: Store, whole: map<Name, Bytes>, gens: map<Name, nat>, pages: map<PageKey, Bytes>, next: nat) {
    /** Whatever a read can be served from memory is what the backend holds. */
    ghost predicate Agrees() { WholeAgrees(inner, whole) && PagesAgree(inner, gens, pages) && GensUsed(gens, pages, next) }

    function Without(k: Name): Kept { this.(whole := whole - {k}, gens := gens - {k}) }

    /** Keeps a value just written, unless it is larger than the whole budget. */
    function With(k: Name, b: Bytes, max: nat): Kept {
      if |b| > max then Without(k) else this.(whole := whole[k := b], gens := gens - {k})
    }

    function Read(k: Name, max: nat): (Kept, Result<Bytes>) {
      var r := if k in whole then Ok(whole[k]) else inner.Get(k);
      if r.Err? then (this, Err)
      else if |r.value| > max then (Without(k), r)
      else (this.(whole := whole[k := r.value]), r)
    }

    function ReadRange(k: Name, off: nat, n: nat): Result<Bytes> {
      if k in whole then Ok(ClampRange(whole[k], off, n))
      else if k in inner.objects then Ok(ClampRange(inner.objects[k], off, n))
      else Err
    }

    /** The generation page reads of k are under, a new one when it has none. */
    function Paged(k: Name): Kept { if k in gens then this else this.(gens := gens[k := next], next := next + 1) }

    function ReadPage(k: Name, off: int, n: int, max: nat): (Kept, Result<Bytes>) {
      if off < 0 || n < 0 then (this, Err)
      else if k in whole then (this, Ok(ClampRange(whole[k], off, n)))
      else
        var t := Paged(k);
        var p := PageKey(k, t.gens[k], off, n);
        if p !in pages && k !in inner.objects then (t, Err)
        else
          var b := if p in pages then pages[p] else ClampRange(inner.objects[k], off, n);
          (t.(pages := if |b| > max then pages - {p} else pages[p := b]), Ok(b))
    }

    function Write(k: Name, b: Bytes, up: bool, keep: bool, max: nat): (Kept, bool) {
      if !up then (this, false)
      else
        var t := this.(inner := inner.Put(k, b));
        (if keep then t.With(k, b, max) else t.Without(k), true)
    }

    /** What serving a request does, whether or not memory agrees with the backend. */
    function Serve(q: Request, max: nat): (Kept, Answer) {
      match q
      case Read(k) => var (t, r) := Read(k, max); (t, AnswerOf(r))
      case ReadUncached(k) => (this, AnswerOf(inner.Get(k)))
      case ReadAt(k, off, n) => (this, AnswerOf(ReadRange(k, off, n)))
      case ReadPage(k, off, n) => var (t, r) := ReadPage(k, off, n, max); (t, AnswerOf(r))
      case ReadVersioned(k, up) => if up then (Without(k), Direct(inner, q).1) else (this, Failed)
      case Write(k, b, up) => var (t, ok) := Write(k, b, up, true, max); (t, if ok then Done else Failed)
      case WriteUncached(k, b, up) => var (t, ok) := Write(k, b, up, false, max); (t, if ok then Done else Failed)
      case CommitObject(k, b, up) => var (t, ok) := Write(k, b, up, false, max); (t, if ok then Done else Failed)
      case PutIfAbsent(k, b, up) =>
        if !up then (this, Failed) else if k in inner.objects then (this, Placed(false)) else (Write(k, b, true, true, max).0, Placed(true))
      case CompareAndSwap(k, _, _, up) => if up then (this.(inner := Direct(inner, q).0).Without(k), Direct(inner, q).1) else (this, Failed)
      case Delete(k, up) => (this.(inner := Direct(inner, q).0).Without(k), Direct(inner, q).1)
    }
  }

  /** A write under k, or none, with k's entries dropped. */
  lemma WithoutAgrees(c: Kept, k: Name, t: Store)
    requires c.Agrees() && forall x :: x != k && x in c.inner.objects ==> x in t.objects && t.objects[x] == c.inner.objects[x]
    ensures c.(inner := t).Without(k).Agrees()
  {
    hide PagesAgree; hide WholeAgrees;
    DropKeeps(c.inner, t, k, c.whole, c.gens, c.pages);
  }

  lemma WriteAgrees(c: Kept, k: Name, b: Bytes, up: bool, keep: bool, max: nat)
    requires c.Agrees()
    ensures c.Write(k, b, up, keep, max).0.Agrees()
  {
    WithoutAgrees(c, k, c.inner.Put(k, b));
    var d := c.(inner := c.inner.Put(k, b)).Without(k);
    LoadWhole(d.inner, k, d.whole);
    assert d.whole[k := b] == c.whole[k := b];
  }

  lemma ReadAgrees(c: Kept, k: Name, max: nat)
    requires c.Agrees()
    ensures c.Read(k, max).0.Agrees() && c.Read(k, max).0.inner == c.inner && c.Read(k, max).1 == c.inner.Get(k)
  {
    hide PagesAgree;
    WithoutAgrees(c, k, c.inner);
    if k in c.inner.objects {
      LoadWhole(c.inner, k, c.whole);
    }
  }

  lemma PageAgreesToo(c: Kept, k: Name, off: int, n: int, max: nat)
    requires c.Agrees()
    ensures var (t, r) := c.ReadPage(k, off, n, max);
            t.Agrees() && t.inner == c.inner
            && r == if off >= 0 && n >= 0 && k in c.inner.objects then Ok(ClampRange(c.inner.objects[k], off, n)) else Err
  {
    hide ClampRange; hide WholeAgrees; hide PagesAgree; hide GensUsed;
    if off >= 0 && n >= 0 {
      if k in c.whole {
        WholeHit(c.inner, c.whole, k);
      } else {
        var t := c.Paged(k);
        if k !in c.gens {
          FreshGen(c.inner, k, c.gens, c.pages, c.next);
        }
        var p := PageKey(k, t.gens[k], off, n);
        if p in c.pages {
          PageHit(c.inner, t.gens, c.pages, p);
        }
        if k in c.inner.objects {
          LoadPage(c.inner, p, t.gens, c.pages, t.next);
        }
        PageDrop(c.inner, t.gens, c.pages, p, t.next);
      }
    }
  }

  /** A ranged read through a cache that agrees gets as much of the range as the object has. */
  lemma RangeAgrees(c: Kept, k: Name, off: nat, n: nat)
    ensures c.Agrees() ==>
              var r := c.ReadRange(k, off, n);
              if k in c.inner.objects then r.Ok? && RangeOf(r.value, c.inner.objects[k], off, n) else r.Err?
  {
    hide PagesAgree; hide GensUsed;
    if k in c.inner.objects {
      var b := c.inner.objects[k];
      ClampIsRange(b, off, n, ClampRange(b, off, n));
    }
  }

  /** Ranged reads side by side are one, and one long enough is the whole object. */
  lemma RangesTile(c: Kept, k: Name, off: nat, n: nat, m: nat)
    requires c.Agrees() && k in c.inner.objects
    ensures c.ReadRange(k, off, n).Ok? && c.ReadRange(k, off + n, m).Ok?
    ensures c.ReadRange(k, off, n + m) == Ok(c.ReadRange(k, off, n).value + c.ReadRange(k, off + n, m).value)
    ensures n >= |c.inner.objects[k]| ==> c.ReadRange(k, 0, n) == c.inner.Get(k)
  {
    hide PagesAgree; hide GensUsed; hide ClampRange;
    var b := c.inner.objects[k];
    ClampJoins(b, off, n, m);
    if n >= |b| {
      ClampAll(b, n);
    }
  }

  /** Any request, served through a cache that agrees, does to the backend and answers what it would alone. */
  lemma ServeAgrees(c: Kept, q: Request, max: nat)
    requires c.Agrees()
    ensures var (t, a) := c.Serve(q, max); t.Agrees() && (t.inner, a) == Direct(c.inner, q)
  {
    hide PagesAgree; hide GensUsed; hide ClampRange;
    match q
    case Read(k) => ReadAgrees(c, k, max);
    case ReadPage(k, off, n) => PageAgreesToo(c, k, off, n, max);
    case Write(k, b, up) => WriteAgrees(c, k, b, up, true, max);
    case WriteUncached(k, b, up) => WriteAgrees(c, k, b, up, false, max);
    case CommitObject(k, b, up) => WriteAgrees(c, k, b, up, false, max);
    case PutIfAbsent(k, b, up) => WriteAgrees(c, k, b, true, true, max);
    case ReadVersioned(k, _) => WithoutAgrees(c, k, c.inner);
    case CompareAndSwap(k, _, _, _) => WithoutAgrees(c, k, Direct(c.inner, q).0);
    case Delete(k, _) => WithoutAgrees(c, k, Direct(c.inner, q).0);
    case _ =>
  }

  lemma WholeHit(s: Store, whole: map<Name, Bytes>, k: Name)
    requires WholeAgrees(s, whole) && k in whole
    ensures k in s.objects && whole[k] == s.objects[k]
  {
  }

  lemma PageHit(s: Store, gens: map<Name, nat>, pages: map<PageKey, Bytes>, p: PageKey)
    requires PagesAgree(s, gens, pages) && p in pages && Reachable(gens, p)
    ensures PageAgrees(s, p, pages[p])
  {
  }

  lemma PageDrop(s: Store, gens: map<Name, nat>, pages: map<PageKey, Bytes>, p: PageKey, next: nat)
    requires PagesAgree(s, gens, pages) && GensUsed(gens, pages, next)
    ensures PagesAgree(s, gens, pages - {p}) && GensUsed(gens, pages - {p}, next)
  {
    hide ClampRange;
  }

  // ------------------------------------------------------------ the cache itself

  class CachedBackend {
    const maxBytes: nat
    var inner: Store
    var whole: map<Name, Bytes>
    var gens: map<Name, nat>
    var pages: map<PageKey, Bytes>
    var nextGen: nat

    function Now(): Kept
      reads this
    {
      Kept(inner, whole, gens, pages, nextGen)
    }

    constructor (inner: Store, maxBytes: nat)
      ensures Now() == Kept(inner, map[], map[], map[], 0) && Now().Agrees() && this.maxBytes == maxBytes
    {
      this.inner, this.maxBytes := inner, maxBytes;
      whole, gens, pages, nextGen := map[], map[], map[], 0;
    }

    /** The eviction policy drops any entries at any time. */
    method Evict(names: set<Name>, ranges: set<PageKey>)
      modifies this`whole, this`pages
      ensures Now() == old(Now()).(whole := old(whole) - names, pages := old(pages) - ranges)
      ensures old(Now().Agrees()) ==> Now().Agrees()
    {
      whole, pages := whole - names, pages - ranges;
    }

    method Invalidate(k: Name)
      modifies this`whole, this`gens
      ensures Now() == old(Now()).Without(k)
    {
      whole := whole - {k};
      gens := gens - {k};
    }

    /** Keeps a value just written, unless it is larger than the whole budget. */
    method Keep(k: Name, b: Bytes)
      modifies this`whole, this`gens
      ensures Now() == old(Now()).With(k, b, maxBytes)
    {
      gens := gens - {k};
      if |b| > maxBytes {
        Invalidate(k);
        return;
      }
      whole := whole[k := b];
    }

    method ReadWhole(k: Name) returns (r: Result<Bytes>)
      modifies this
      ensures (Now(), r) == old(Now()).Read(k, maxBytes)
      ensures old(Now().Agrees()) ==> Now().Agrees() && r == inner.Get(k)
      ensures r.Ok? && |r.value| <= maxBytes ==> k in whole
    {
      if Now().Agrees() {
        ReadAgrees(Now(), k, maxBytes);
      }
      if k in whole {
        r := Ok(whole[k]);
      } else {
        r := inner.Get(k);
        if r.Err? {
          return;
        }
      }
      assert whole[k := r.value] - {k} == whole - {k};
      whole := whole[k := r.value];
      if |r.value| > maxBytes {
        Invalidate(k);
      }
    }

    method ReadRange(k: Name, off: nat, n: nat) returns (r: Result<Bytes>)
      ensures r == Now().ReadRange(k, off, n)
      ensures Now().Agrees() ==> if k in inner.objects then r.Ok? && RangeOf(r.value, inner.objects[k], off, n) else r.Err?
    {
      RangeAgrees(Now(), k, off, n);
      if k in whole {
        r := Ok(ClampRange(whole[k], off, n));
      } else if k in inner.objects {
        r := Ok(ClampRange(inner.objects[k], off, n));
      } else {
        r := Err;
      }
    }

    /** A range served from a resident object, a page of the current generation, or the backend. */
    method ReadPageView(k: Name, off: int, n: int) returns (r: Result<Bytes>)
      modifies this
      ensures (Now(), r) == old(Now()).ReadPage(k, off, n, maxBytes)
      ensures old(Now().Agrees()) ==>
                && Now().Agrees() && inner == old(inner)
                && if off >= 0 && n >= 0 && k in inner.objects then r.Ok? && RangeOf(r.value, inner.objects[k], off, n) else r.Err?
    {
      hide ClampRange; hide WholeAgrees; hide PagesAgree; hide GensUsed; hide RangeOf;
      if Now().Agrees() {
        PageAgreesToo(Now(), k, off, n, maxBytes);
        if off >= 0 && n >= 0 && k in inner.objects {
          ClampIsRange(inner.objects[k], off, n, ClampRange(inner.objects[k], off, n));
        }
      }
      if off < 0 || n < 0 {
        return Err;
      }
      if k in whole {
        return Ok(ClampRange(whole[k], off, n));
      }
      if k !in gens {
        gens, nextGen := gens[k := nextGen], nextGen + 1;
      }
      var p := PageKey(k, gens[k], off, n);
      if p in pages {
        r := Ok(pages[p]);
      } else if k in inner.objects {
        r := Ok(ClampRange(inner.objects[k], off, n));
      } else {
        return Err;
      }
      pages := if |r.value| > maxBytes then pages - {p} else pages[p := r.value];
    }

    method WriteThrough(k: Name, b: Bytes, up: bool, keep: bool) returns (ok: bool)
      modifies this
      ensures (Now(), ok) == old(Now()).Write(k, b, up, keep, maxBytes)
      ensures old(Now().Agrees()) ==> Now().Agrees()
      ensures up ==> k !in gens && k in inner.objects && inner.objects[k] == b
    {
      if Now().Agrees() {
        WriteAgrees(Now(), k, b, up, keep, maxBytes);
      }
      if !up {
        return false;
      }
      inner := inner.Put(k, b);
      if keep {
        Keep(k, b);
      } else {
        Invalidate(k);
      }
      ok := true;
    }

    method PutAbsent(k: Name, b: Bytes, up: bool) returns (a: Answer)
      modifies this
      ensures (Now(), a) == old(Now()).Serve(PutIfAbsent(k, b, up), maxBytes)
      ensures a == Placed(true) ==> k !in gens
    {
      if !up {
        return Failed;
      }
      if k in inner.objects {
        return Placed(false);
      }
      var _ := WriteThrough(k, b, true, true);
      a := Placed(true);
    }

    method Swap(k: Name, expected: Version, b: Bytes, up: bool) returns (a: Answer)
      modifies this
      ensures (Now(), a) == old(Now()).Serve(CompareAndSwap(k, expected, b, up), maxBytes)
      ensures up ==> k !in gens && k !in whole
    {
      if !up {
        return Failed;
      }
      if inner.VersionOf(k) == expected {
        inner := inner.Put(k, b);
        a := Swapped(inner.VersionOf(k), true);
      } else {
        a := Swapped(Absent, false);
      }
      Invalidate(k);
    }

    method ReadAtVersion(k: Name, up: bool) returns (a: Answer)
      modifies this
      ensures (Now(), a) == old(Now()).Serve(ReadVersioned(k, up), maxBytes)
      ensures up ==> k !in gens && k !in whole
    {
      if !up {
        return Failed;
      }
      Invalidate(k);
      a := Versioned(if k in inner.objects then inner.objects[k] else [], inner.VersionOf(k));
    }

    method Remove(k: Name, up: bool) returns (a: Answer)
      modifies this
      ensures (Now(), a) == old(Now()).Serve(Delete(k, up), maxBytes)
      ensures k !in gens && k !in whole
    {
      var found := up && k in inner.objects;
      if found {
        inner := inner.Drop(k);
      }
      Invalidate(k);
      a := if found then Done else Failed;
    }

    /** Serves a request; while memory agrees with the backend, as the backend alone would. */
    method Serve(q: Request) returns (a: Answer)
      modifies this
      ensures (Now(), a) == old(Now()).Serve(q, maxBytes)
      ensures old(Now().Agrees()) ==> Now().Agrees() && (inner, a) == Direct(old(inner), q)
    {
      hide WholeAgrees; hide PagesAgree; hide GensUsed; hide ClampRange; hide Direct; hide Kept.Read; hide Kept.ReadPage; hide Kept.Write; hide Kept.ReadRange;
      if Now().Agrees() {
        ServeAgrees(Now(), q, maxBytes);
      }
      match q
      case Read(k) =>
        var r := ReadWhole(k);
        a := AnswerOf(r);
      case ReadUncached(k) =>
        a := AnswerOf(inner.Get(k));
      case ReadAt(k, off, n) =>
        var r := ReadRange(k, off, n);
        a := AnswerOf(r);
      case ReadPage(k, off, n) =>
        var r := ReadPageView(k, off, n);
        a := AnswerOf(r);
      case ReadVersioned(k, up) =>
        a := ReadAtVersion(k, up);
      case Write(k, b, up) =>
        var ok := WriteThrough(k, b, up, true);
        a := if ok then Done else Failed;
      case WriteUncached(k, b, up) =>
        var ok := WriteThrough(k, b, up, false);
        a := if ok then Done else Failed;
      case CommitObject(k, b, up) =>
        var ok := WriteThrough(k, b, up, false);
        a := if ok then Done else Failed;
      case PutIfAbsent(k, b, up) =>
        a := PutAbsent(k, b, up);
      case CompareAndSwap(k, v, b, up) =>
        a := Swap(k, v, b, up);
      case Delete(k, up) =>
        a := Remove(k, up);
    }
  }

  /** What the policy evicts between two requests. */
  datatype Eviction = Eviction(names: set<Name>, ranges: set<PageKey>)

  /** Over any run of requests, with any evictions between them, the cache is transparent. */
  method ServeAll(c: CachedBackend, qs: seq<Request>, evicted: seq<Eviction>) returns (answers: seq<Answer>)
    requires c.Now().Agrees() && |evicted| == |qs|
    modifies c
    ensures c.Now().Agrees() && (c.inner, answers) == DirectRun(old(c.inner), qs)
  {
    hide Kept.Agrees; hide Direct; hide Kept.Serve;
    answers := [];
    assert qs[..0] == [];
    for i := 0 to |qs|
      invariant c.Now().Agrees() && (c.inner, answers) == DirectRun(old(c.inner), qs[..i])
    {
      c.Evict(evicted[i].names, evicted[i].ranges);
      var a := c.Serve(qs[i]);
      answers := answers + [a];
      assert qs[..i + 1][..i] == qs[..i];
    }
    assert qs[..|qs|] == qs;
  }
}
