/**
 A rival writing to the store behind the cache: which reads then go stale, told from the requests the
 cache has served.
 */
module CacheRivals {
  import opened Wire
  import opened Chunking
  import opened ReadCache

  /** One thing that happens to a cached backend. */
  datatype Event =
    | Ask(q: Request)
    | Evict(names: set<Name>, ranges: set<PageKey>)
    | Rival(name: Name, bytes: Bytes)

  function Next(c: Kept, e: Event, max: nat): Kept {
    match e
    case Ask(q) => c.Serve(q, max).0
    case Evict(names, ranges) => c.(whole := c.whole - names, pages := c.pages - ranges)
    case Rival(k, b) => c.(inner := c.inner.Put(k, b))
  }

  /** A cache opened over a store, after some events. */
  function After(s: Store, events: seq<Event>, max: nat): Kept {
    if events == [] then Kept(s, map[], map[], map[], 0) else Next(After(s, events[..|events| - 1], max), events[|events| - 1], max)
  }

  // ------------------------------------------------------------ a read after a rival's write

  /** After any events, a rival's write of k shows in the next plain read, whatever it wrote, exactly when k is not resident. */
  lemma ReadSeesRivalIff(c: Kept, k: Name, max: nat)
    ensures (forall b :: Next(c, Rival(k, b), max).Serve(Request.Read(k), max).1 == Bytes(b)) <==> k !in c.whole
  {
    if k in c.whole {
      var b := c.whole[k] + [0];
      var a := Next(c, Rival(k, b), max).Serve(Request.Read(k), max).1;
      assert a == Bytes(c.whole[k]);
      assert |b| != |c.whole[k]|;
    }
  }

  /** k's range [off,off+n) is kept as a page of its current generation. */
  predicate PageKept(c: Kept, k: Name, off: nat, n: nat) { k in c.gens && PageKey(k, c.gens[k], off, n) in c.pages }

  /** No page is kept under a generation yet to be handed out. */
  lemma NoPageAhead(c: Kept, k: Name, off: nat, n: nat)
    requires GensUsed(c.gens, c.pages, c.next)
    ensures PageKey(k, c.next, off, n) !in c.pages
  {
  }

  /** And in the next page read exactly when neither k nor that page of it is kept. */
  lemma PageSeesRivalIff(c: Kept, k: Name, off: nat, n: nat, max: nat)
    requires GensUsed(c.gens, c.pages, c.next) && n > 0
    ensures (forall b :: Next(c, Rival(k, b), max).Serve(ReadPage(k, off, n), max).1 == Bytes(ClampRange(b, off, n)))
       <==> k !in c.whole && !PageKept(c, k, off, n)
  {
    NoPageAhead(c, k, off, n);
    if k in c.whole || PageKept(c, k, off, n) {
      var was := if k in c.whole then ClampRange(c.whole[k], off, n) else c.pages[PageKey(k, c.gens[k], off, n)];
      var zeros, ones: Bytes := seq(off + 1, _ => 0), seq(off + 1, _ => 1);
      assert Next(c, Rival(k, zeros), max).Serve(ReadPage(k, off, n), max).1 == Bytes(was);
      assert Next(c, Rival(k, ones), max).Serve(ReadPage(k, off, n), max).1 == Bytes(was);
      assert ClampRange(zeros, off, n)[0] == 0 && ClampRange(ones, off, n)[0] == 1;
    }
  }

  /** How it goes stale: read plainly, rewritten by a rival, and read again as it was. */
  method StaleAfterRival(token: Bytes -> nat) returns (first: Answer, second: Answer)
    ensures first == Bytes([1]) && second == Bytes([1])
    ensures Direct(Store(map[0 := [1]], token).Put(0, [2]), Request.Read(0)).1 == Bytes([2])
  {
    var c := new CachedBackend(Store(map[0 := [1]], token), 8);
    first := c.Serve(Request.Read(0));
    c.inner := c.inner.Put(0, [2]);
    second := c.Serve(Request.Read(0));
  }

  // ------------------------------------------------------------ residency, from what was asked and answered

  /** The event leaves k resident: a plain read or a kept write of it that fits the budget. */
  predicate Loads(c: Kept, e: Event, k: Name, max: nat) {
    e.Ask? &&
    var a := c.Serve(e.q, max).1;
    match e.q
    case Read(x) => x == k && a.Bytes? && |a.bytes| <= max
    case Write(x, b, _) => x == k && a.Done? && |b| <= max
    case PutIfAbsent(x, b, _) => x == k && a == Placed(true) && |b| <= max
    case _ => false
  }

  /** The event leaves nothing of k resident. */
  predicate Drops(c: Kept, e: Event, k: Name, max: nat) {
    match e
    case Rival(_, _) => false
    case Evict(names, _) => k in names
    case Ask(q) =>
      var a := c.Serve(q, max).1;
      match q
      case Read(x) => x == k && a.Bytes? && |a.bytes| > max
      case Write(x, b, _) => x == k && a.Done? && |b| > max
      case PutIfAbsent(x, b, _) => x == k && a == Placed(true) && |b| > max
      case WriteUncached(x, _, _) => x == k && a.Done?
      case CommitObject(x, _, _) => x == k && a.Done?
      case ReadVersioned(x, _) => x == k && !a.Failed?
      case CompareAndSwap(x, _, _, _) => x == k && !a.Failed?
      case Delete(x, _) => x == k
      case _ => false
  }

  lemma NextResident(c: Kept, e: Event, k: Name, max: nat)
    ensures k in Next(c, e, max).whole <==> Loads(c, e, k, max) || (k in c.whole && !Drops(c, e, k, max))
  {
    hide ClampRange; hide Kept.ReadPage; hide Kept.ReadRange;
    if e.Ask? && e.q.ReadPage? {
      PageLeavesWhole(c, e.q.name, e.q.from, e.q.count, max);
    }
  }

  lemma PageLeavesWhole(c: Kept, k: Name, off: int, n: int, max: nat)
    ensures c.ReadPage(k, off, n, max).0.whole == c.whole
  {
  }

  type Effect = (Kept, Event) -> bool

  /** Some event had one effect, and none since has had the other. */
  ghost predicate Since(s: Store, events: seq<Event>, max: nat, loads: Effect, drops: Effect) {
    exists i :: 0 <= i < |events| && Had(s, events, max, loads, i) && forall j :: i < j < |events| ==> !Had(s, events, max, drops, j)
  }

  predicate Had(s: Store, events: seq<Event>, max: nat, f: Effect, i: nat)
    requires i < |events|
  {
    f(After(s, events[..i], max), events[i])
  }

  lemma SinceSnoc(s: Store, events: seq<Event>, max: nat, loads: Effect, drops: Effect)
    requires events != []
    ensures var n := |events| - 1;
            Since(s, events, max, loads, drops)
            <==> Had(s, events, max, loads, n) || (Since(s, events[..n], max, loads, drops) && !Had(s, events, max, drops, n))
  {
    hide After;
    var n := |events| - 1;
    var front := events[..n];
    forall f: Effect, i | 0 <= i < n ensures Had(s, front, max, f, i) == Had(s, events, max, f, i) {
      assert front[..i] == events[..i];
    }
    if Since(s, events, max, loads, drops) && !Had(s, events, max, loads, n) {
      var i :| 0 <= i < |events| && Had(s, events, max, loads, i) && forall j :: i < j < |events| ==> !Had(s, events, max, drops, j);
      assert i < n;
      assert Had(s, front, max, loads, i);
    }
    if Since(s, front, max, loads, drops) && !Had(s, events, max, drops, n) {
      var i :| 0 <= i < |front| && Had(s, front, max, loads, i) && forall j :: i < j < |front| ==> !Had(s, front, max, drops, j);
      assert Had(s, events, max, loads, i);
    }
  }

  /** A read or kept write has loaded k since it was last versioned, swapped, deleted, written uncached or evicted. */
  ghost predicate Loaded(s: Store, events: seq<Event>, k: Name, max: nat) {
    Since(s, events, max, (c, e) => Loads(c, e, k, max), (c, e) => Drops(c, e, k, max))
  }

  /** A key is resident exactly when some request loaded it and nothing since has dropped it. */
  lemma {:induction false} ResidentIff(s: Store, events: seq<Event>, k: Name, max: nat)
    ensures k in After(s, events, max).whole <==> Loaded(s, events, k, max)
  {
    hide Loads; hide Drops; hide Next; hide Since;
    var loads: Effect, drops: Effect := (c, e) => Loads(c, e, k, max), (c, e) => Drops(c, e, k, max);
    if events == [] {
      SinceNever(s, max, loads, drops);
    } else {
      var n := |events| - 1;
      ResidentIff(s, events[..n], k, max);
      SinceSnoc(s, events, max, loads, drops);
      NextResident(After(s, events[..n], max), events[n], k, max);
    }
  }

  lemma SinceNever(s: Store, max: nat, loads: Effect, drops: Effect)
    ensures !Since(s, [], max, loads, drops)
  {
  }

  /**
   When a plain read is right after a rival's write, told from the requests and answers so far: whatever
   the rival wrote, exactly when the key has not been loaded since it was last dropped.
   */
  lemma RivalSeenIff(s: Store, events: seq<Event>, k: Name, max: nat)
    ensures (forall b :: After(s, events + [Rival(k, b)], max).Serve(Request.Read(k), max).1 == Bytes(b)) <==> !Loaded(s, events, k, max)
  {
    hide Next; hide Loaded; hide Kept.Serve;
    var c := After(s, events, max);
    forall b ensures After(s, events + [Rival(k, b)], max) == Next(c, Rival(k, b), max) {
      assert (events + [Rival(k, b)])[..|events|] == events;
    }
    ResidentIff(s, events, k, max);
    ReadSeesRivalIff(c, k, max);
  }

  // ------------------------------------------------------------ and for pages

  /** The event leaves k's range [off,off+n) kept as a page. */
  predicate PageLoads(c: Kept, e: Event, k: Name, off: nat, n: nat, max: nat) {
    && e.Ask? && e.q == ReadPage(k, off, n) && k !in c.whole
    && var a := c.Serve(e.q, max).1; a.Bytes? && |a.bytes| <= max
  }

  /** The event leaves no page of k in reach, or drops this one. */
  predicate PageDrops(c: Kept, e: Event, k: Name, off: nat, n: nat, max: nat) {
    match e
    case Rival(_, _) => false
    case Evict(_, ranges) => k in c.gens && PageKey(k, c.gens[k], off, n) in ranges
    case Ask(q) =>
      var a := c.Serve(q, max).1;
      match q
      case Read(x) => x == k && a.Bytes? && |a.bytes| > max
      case ReadPage(x, o, m) => x == k && o == off && m == n && k !in c.whole && a.Bytes? && |a.bytes| > max
      case Write(x, _, _) => x == k && a.Done?
      case PutIfAbsent(x, _, _) => x == k && a == Placed(true)
      case WriteUncached(x, _, _) => x == k && a.Done?
      case CommitObject(x, _, _) => x == k && a.Done?
      case ReadVersioned(x, _) => x == k && !a.Failed?
      case CompareAndSwap(x, _, _, _) => x == k && !a.Failed?
      case Delete(x, _) => x == k
      case _ => false
  }

  lemma {:induction false} AfterGens(s: Store, events: seq<Event>, max: nat)
    ensures var c := After(s, events, max); GensUsed(c.gens, c.pages, c.next)
  {
    hide ClampRange;
    if events != [] {
      AfterGens(s, events[..|events| - 1], max);
      NextGens(After(s, events[..|events| - 1], max), events[|events| - 1], max);
    }
  }

  lemma NextGens(c: Kept, e: Event, max: nat)
    requires GensUsed(c.gens, c.pages, c.next)
    ensures var t := Next(c, e, max); GensUsed(t.gens, t.pages, t.next)
  {
    hide ClampRange; hide Direct; hide GensUsed;
    var t := Next(c, e, max);
    if e.Ask? && e.q.ReadPage? {
      PageGens(c, e.q.name, e.q.from, e.q.count, max);
    } else {
      assert t.next == c.next && (forall x :: x in t.gens ==> x in c.gens && t.gens[x] == c.gens[x]) && (forall p :: p in t.pages ==> p in c.pages);
      GensLess(c, t);
    }
  }

  lemma GensLess(c: Kept, t: Kept)
    requires GensUsed(c.gens, c.pages, c.next) && t.next == c.next
    requires (forall x :: x in t.gens ==> x in c.gens && t.gens[x] == c.gens[x]) && (forall p :: p in t.pages ==> p in c.pages)
    ensures GensUsed(t.gens, t.pages, t.next)
  {
  }

  lemma PageGens(c: Kept, k: Name, off: int, n: int, max: nat)
    requires GensUsed(c.gens, c.pages, c.next)
    ensures var t := c.ReadPage(k, off, n, max).0; GensUsed(t.gens, t.pages, t.next)
  {
    hide ClampRange;
  }

  lemma NextPaged(c: Kept, e: Event, k: Name, off: nat, n: nat, max: nat)
    requires GensUsed(c.gens, c.pages, c.next)
    ensures PageKept(Next(c, e, max), k, off, n) <==> PageLoads(c, e, k, off, n, max) || (PageKept(c, k, off, n) && !PageDrops(c, e, k, off, n, max))
  {
    hide ClampRange;
    if e.Ask? && e.q.ReadPage? {
      PagePaged(c, e.q, k, off, n, max);
    }
  }

  lemma PagePaged(c: Kept, q: Request, k: Name, off: nat, n: nat, max: nat)
    requires q.ReadPage? && GensUsed(c.gens, c.pages, c.next)
    ensures var e := Ask(q);
            PageKept(Next(c, e, max), k, off, n) <==> PageLoads(c, e, k, off, n, max) || (PageKept(c, k, off, n) && !PageDrops(c, e, k, off, n, max))
  {
    hide ClampRange;
    NoPageAhead(c, k, off, n);
  }

  /** A page read of that range, not served from a resident object, was kept and nothing since has ended it. */
  ghost predicate Paged(s: Store, events: seq<Event>, k: Name, off: nat, n: nat, max: nat) {
    Since(s, events, max, (c, e) => PageLoads(c, e, k, off, n, max), (c, e) => PageDrops(c, e, k, off, n, max))
  }

  lemma {:induction false} PagedIff(s: Store, events: seq<Event>, k: Name, off: nat, n: nat, max: nat)
    ensures PageKept(After(s, events, max), k, off, n) <==> Paged(s, events, k, off, n, max)
  {
    hide PageLoads; hide PageDrops; hide Next; hide Since; hide GensUsed;
    var loads: Effect, drops: Effect := (c, e) => PageLoads(c, e, k, off, n, max), (c, e) => PageDrops(c, e, k, off, n, max);
    if events == [] {
      SinceNever(s, max, loads, drops);
    } else {
      var m := |events| - 1;
      PagedIff(s, events[..m], k, off, n, max);
      SinceSnoc(s, events, max, loads, drops);
      AfterGens(s, events[..m], max);
      NextPaged(After(s, events[..m], max), events[m], k, off, n, max);
    }
  }

  /** A page read shows a rival's write exactly when neither the key nor that page of it has been loaded since. */
  lemma RivalPageSeenIff(s: Store, events: seq<Event>, k: Name, off: nat, n: nat, max: nat)
    requires n > 0
    ensures (forall b :: After(s, events + [Rival(k, b)], max).Serve(ReadPage(k, off, n), max).1 == Bytes(ClampRange(b, off, n)))
       <==> !Loaded(s, events, k, max) && !Paged(s, events, k, off, n, max)
  {
    hide Next; hide Loaded; hide Paged; hide Kept.Serve; hide ClampRange; hide PageKept; hide GensUsed;
    var c := After(s, events, max);
    forall b ensures After(s, events + [Rival(k, b)], max) == Next(c, Rival(k, b), max) {
      assert (events + [Rival(k, b)])[..|events|] == events;
    }
    ResidentIff(s, events, k, max);
    PagedIff(s, events, k, off, n, max);
    AfterGens(s, events, max);
    PageSeesRivalIff(c, k, off, n, max);
  }
}
