/** What the store behind the cache promises its callers, told from requests and answers. */
module StoreLaws {
  import opened Wire
  import opened Chunking
  import opened ReadCache

  /** No two contents share a token. */
  ghost predicate Telling(token: Bytes -> nat) { forall a, b :: token(a) == token(b) ==> a == b }

  /** The request, as answered, left these bytes under k. */
  function Wrote(q: Request, a: Answer, k: Name): Option<Bytes> {
    match q
    case Write(x, b, _) => if x == k && a.Done? then Some(b) else None
    case WriteUncached(x, b, _) => if x == k && a.Done? then Some(b) else None
    case CommitObject(x, b, _) => if x == k && a.Done? then Some(b) else None
    case PutIfAbsent(x, b, _) => if x == k && a == Placed(true) then Some(b) else None
    case CompareAndSwap(x, _, b, _) => if x == k && a.Swapped? && a.won then Some(b) else None
    case _ => None
  }

  /** The request, as answered, removed k. */
  predicate Removed(q: Request, a: Answer, k: Name) { q.Delete? && q.name == k && a.Done? }

  /** What a read of k should answer: the last bytes written, nothing once removed, or what was there. */
  function Expected(s: Store, qs: seq<Request>, answers: seq<Answer>, k: Name): Result<Bytes>
    requires |qs| == |answers|
  {
    if qs == [] then s.Get(k)
    else
      var n := |qs| - 1;
      if Wrote(qs[n], answers[n], k).Some? then Ok(Wrote(qs[n], answers[n], k).value)
      else if Removed(qs[n], answers[n], k) then Err
      else Expected(s, qs[..n], answers[..n], k)
  }

  lemma {:induction false} AnswerCount(s: Store, qs: seq<Request>)
    ensures |DirectRun(s, qs).1| == |qs|
  {
    if qs != [] {
      AnswerCount(s, qs[..|qs| - 1]);
    }
  }

  lemma StepGet(s: Store, q: Request, k: Name)
    ensures var (t, a) := Direct(s, q);
            t.Get(k) == if Wrote(q, a, k).Some? then Ok(Wrote(q, a, k).value) else if Removed(q, a, k) then Err else s.Get(k)
  {
  }

  /** After any requests a read answers what was last written under the key, or that it is gone. */
  lemma {:induction false} ReadsLastWrite(s: Store, qs: seq<Request>, k: Name)
    ensures |DirectRun(s, qs).1| == |qs|
    ensures DirectRun(s, qs).0.Get(k) == Expected(s, qs, DirectRun(s, qs).1, k)
  {
    hide Direct; hide Wrote; hide Removed;
    AnswerCount(s, qs);
    if qs != [] {
      var n := |qs| - 1;
      ReadsLastWrite(s, qs[..n], k);
      var (t, before) := DirectRun(s, qs[..n]);
      StepGet(t, qs[n], k);
      assert DirectRun(s, qs).1[..n] == before;
    }
  }

  /** A request that is up acts: a write and an uncached write land, an absent key is placed, a present one is removed. */
  lemma UpActs(s: Store, k: Name, b: Bytes, v: Version)
    ensures Wrote(Request.Write(k, b, true), Direct(s, Request.Write(k, b, true)).1, k) == Some(b)
    ensures Wrote(WriteUncached(k, b, true), Direct(s, WriteUncached(k, b, true)).1, k) == Some(b)
    ensures Wrote(CommitObject(k, b, true), Direct(s, CommitObject(k, b, true)).1, k) == Some(b)
    ensures Wrote(PutIfAbsent(k, b, true), Direct(s, PutIfAbsent(k, b, true)).1, k) == if s.Get(k).Err? then Some(b) else None
    ensures Removed(Delete(k, true), Direct(s, Delete(k, true)).1, k) <==> s.Get(k).Ok?
    ensures Wrote(CompareAndSwap(k, v, b, true), Direct(s, CompareAndSwap(k, v, b, true)).1, k) == if v == s.VersionOf(k) then Some(b) else None
  {
  }

  // ------------------------------------------------------------ versions

  lemma {:induction false} TokensKept(s: Store, qs: seq<Request>)
    ensures DirectRun(s, qs).0.token == s.token
  {
    if qs != [] {
      TokensKept(s, qs[..|qs| - 1]);
    }
  }

  /** A version identifies contents, not a write: a key has it again exactly when it holds the same again. */
  lemma VersionTells(s: Store, t: Store, k: Name)
    requires t.token == s.token && Telling(s.token)
    ensures s.VersionOf(k) == t.VersionOf(k) <==> s.Get(k) == t.Get(k)
  {
  }

  /**
   A swap conditioned on what a versioned read answered, an absent key included, wins after any requests in
   between if and only if they left the key as it was read. Won, it answers the version the key has now;
   lost, it changes nothing.
   */
  lemma SwapWinsIff(s: Store, qs: seq<Request>, k: Name, b: Bytes)
    requires Telling(s.token)
    ensures |DirectRun(s, qs).1| == |qs|
    ensures var (t, answers) := DirectRun(s, qs);
            var seen := Direct(s, ReadVersioned(k, true)).1;
            seen.Versioned? &&
            var (u, a) := Direct(t, CompareAndSwap(k, seen.version, b, true));
            && a.Swapped? && (a.won <==> Expected(s, qs, answers, k) == s.Get(k))
            && (if a.won then u.Get(k) == Ok(b) && a.version == u.VersionOf(k) else u == t)
  {
    hide DirectRun; hide Expected; hide Telling;
    ReadsLastWrite(s, qs, k);
    TokensKept(s, qs);
    VersionTells(s, DirectRun(s, qs).0, k);
  }
}
