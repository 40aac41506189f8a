/** The ingest-rate valve: a token bucket over a clock that may stand still or go backwards. */
module RateValve {

  const NANOS_PER_SECOND := 1000000000.0

  function MinReal(a: real, b: real): real { if a < b then a else b }

  datatype Bucket = Bucket(ratePerNs: real, burst: real, tokens: real, last: int)

  const UNUSED := Bucket(0.0, 0.0, 0.0, 0)

  /** A request of n bytes at a clock reading. */
  datatype Call = Call(n: nat, now: int)

  /** Sets the rate and burst; a bucket never used starts full. */
  function Reconfigured(b: Bucket, rate: real, burst: real, now: int): Bucket {
    var s := if b.last == 0 then b.(last := now, tokens := burst) else b;
    s.(ratePerNs := rate / NANOS_PER_SECOND, burst := burst)
  }

  /** Tokens accrued by the clock's advance, up to the burst; a clock gone backwards adds none. */
  function Refilled(b: Bucket, now: int): Bucket {
    if now > b.last then b.(tokens := MinReal(b.burst, b.tokens + (now - b.last) as real * b.ratePerNs), last := now) else b
  }

  function Taken(b: Bucket, n: nat): (Bucket, bool) {
    if b.tokens >= n as real then (b.(tokens := b.tokens - n as real), true) else (b, false)
  }

  /** One request against a limit in bytes per second; none at all when the limit is not positive. */
  function Admit(b: Bucket, limit: int, c: Call): (Bucket, bool) {
    if limit <= 0 then (b, true)
    else Taken(Refilled(Reconfigured(b, limit as real, limit as real, c.now), c.now), c.n)
  }

  function RunCalls(b: Bucket, limit: int, calls: seq<Call>): Bucket {
    if calls == [] then b else Admit(RunCalls(b, limit, calls[..|calls| - 1]), limit, calls[|calls| - 1]).0
  }

  /** The bytes a run of requests admits. */
  function AdmittedBytes(b: Bucket, limit: int, calls: seq<Call>): nat {
    if calls == [] then 0
    else
      var n := |calls| - 1;
      AdmittedBytes(b, limit, calls[..n]) + if Admit(RunCalls(b, limit, calls[..n]), limit, calls[n]).1 then calls[n].n else 0
  }

  /** A bucket set to a limit, its tokens within the burst. */
  ghost predicate InUse(b: Bucket, limit: int) {
    b.burst == limit as real && b.ratePerNs == limit as real / NANOS_PER_SECOND && 0.0 <= b.tokens <= b.burst
  }

  lemma Accrues(d: real, rate: real)
    requires d >= 0.0 && rate >= 0.0
    ensures d * rate >= 0.0
  {
  }

  function Refill(limit: int, from: int, to: int): real { (to - from) as real * (limit as real / NANOS_PER_SECOND) }

  /** A second refills what the limit allows a second. */
  lemma SecondRefills(limit: int, at: int)
    ensures Refill(limit, at, at + 1_000_000_000) == limit as real
  {
    var r := limit as real / NANOS_PER_SECOND;
    assert r * NANOS_PER_SECOND == limit as real;
  }

  /** What a request leaves and takes comes out of the tokens there were and the refill of the time since. */
  ghost predicate Accounted(b: Bucket, limit: int, c: Call) {
    var (t, ok) := Admit(b, limit, c);
    t.tokens + (if ok then c.n as real else 0.0) <= b.tokens + Refill(limit, b.last, t.last)
  }

  /** A request keeps the tokens within the burst and moves the clock on, never back, once it has been read. */
  lemma AdmitKeeps(b: Bucket, limit: int, c: Call)
    requires limit > 0 && InUse(b, limit) && b.last != 0
    ensures var t := Admit(b, limit, c).0;
            InUse(t, limit) && t.last == (if c.now > b.last then c.now else b.last) && Accounted(b, limit, c)
  {
    if c.now > b.last {
      Accrues((c.now - b.last) as real, limit as real / NANOS_PER_SECOND);
    }
  }

  /** What is in the bucket by the time of a reading: the tokens and the refill since, up to the burst. */
  function Available(b: Bucket, limit: int, now: int): real {
    var t := b.tokens + if now > b.last then Refill(limit, b.last, now) else 0.0;
    if t < limit as real then t else limit as real
  }

  /**
   The valve refills: a bucket once read admits a request exactly when it fits what is available by then,
   takes that much out, and is otherwise left with all of it.
   */
  lemma AdmitsIff(b: Bucket, limit: int, c: Call)
    requires limit > 0 && InUse(b, limit) && b.last != 0
    ensures var (t, ok) := Admit(b, limit, c);
            && (ok <==> c.n as real <= Available(b, limit, c.now))
            && t.tokens == Available(b, limit, c.now) - if ok then c.n as real else 0.0
  {
    if c.now > b.last {
      Accrues((c.now - b.last) as real, limit as real / NANOS_PER_SECOND);
    }
  }

  /** Without a limit everything is let through. */
  lemma NoLimitAdmits(b: Bucket, limit: int, c: Call)
    requires limit <= 0
    ensures Admit(b, limit, c) == (b, true)
  {
  }

  /** Requests on a clock that does not go back, each within the burst and all but the first within the refill since the one before. */
  ghost predicate Paced(limit: int, calls: seq<Call>) {
    && (forall i :: 0 <= i < |calls| ==> calls[i].n <= limit)
    && (forall i :: 0 < i < |calls| ==> calls[i - 1].now <= calls[i].now && calls[i].n as real <= Refill(limit, calls[i - 1].now, calls[i].now))
  }

  /** A caller that keeps within its rate is never refused. */
  lemma {:induction false} PacedAdmitted(limit: int, calls: seq<Call>)
    requires limit > 0 && calls != [] && Paced(limit, calls)
    ensures var n := |calls| - 1;
            var t := RunCalls(UNUSED, limit, calls);
            && InUse(t, limit) && t.last == calls[n].now && Admit(RunCalls(UNUSED, limit, calls[..n]), limit, calls[n]).1
    ensures AdmittedBytes(UNUSED, limit, calls) == Asked(calls)
  {
    hide Admit; hide InUse; hide Refill;
    var n := |calls| - 1;
    var front, c := calls[..n], calls[n];
    if n == 0 {
      assert front == [];
      FirstFits(UNUSED, limit, c);
    } else {
      PacedAdmitted(limit, front);
      var b := RunCalls(UNUSED, limit, front);
      assert front[n - 1] == calls[n - 1];
      PacedFits(b, limit, c);
    }
  }

  function Asked(calls: seq<Call>): nat { if calls == [] then 0 else Asked(calls[..|calls| - 1]) + calls[|calls| - 1].n }

  lemma FirstFits(b: Bucket, limit: int, c: Call)
    requires limit > 0 && b.last == 0 && c.n <= limit
    ensures var (t, ok) := Admit(b, limit, c); ok && InUse(t, limit) && t.last == c.now
  {
  }

  lemma PacedFits(b: Bucket, limit: int, c: Call)
    requires limit > 0 && InUse(b, limit) && b.last <= c.now && c.n <= limit && c.n as real <= Refill(limit, b.last, c.now)
    ensures var (t, ok) := Admit(b, limit, c); ok && InUse(t, limit) && t.last == c.now
  {
    if b.last == 0 {
      FirstFits(b, limit, c);
    } else {
      AdmitsIff(b, limit, c);
      AdmitKeeps(b, limit, c);
      if c.now == b.last {
        NoRefill(limit, c.now);
      }
    }
  }

  /**
   A bucket whose last reading was 0 counts as never used and is filled up whole. Requests of every size
   are accounted for if and only if that is not so, or the time since reading 0 would have filled it.
   */
  lemma AccountedIff(b: Bucket, limit: int, now: int)
    requires limit > 0 && InUse(b, limit)
    ensures (forall n: nat :: Accounted(b, limit, Call(n, now))) <==> b.last != 0 || limit as real <= b.tokens + Refill(limit, 0, now)
  {
    if b.last != 0 {
      forall n: nat ensures Accounted(b, limit, Call(n, now)) {
        AdmitKeeps(b, limit, Call(n, now));
      }
    } else {
      forall n: nat ensures Accounted(b, limit, Call(n, now)) <==> limit as real <= b.tokens + Refill(limit, 0, now) {
        Reseeded(b, limit, Call(n, now));
      }
      assert Accounted(b, limit, Call(0, now)) <==> limit as real <= b.tokens + Refill(limit, 0, now);
    }
  }

  /** A request that finds the last reading 0 finds a full bucket, whatever was in it. */
  lemma Reseeded(b: Bucket, limit: int, c: Call)
    requires limit > 0 && b.last == 0
    ensures var (t, ok) := Admit(b, limit, c);
            InUse(t, limit) && t.last == c.now && t.tokens + (if ok then c.n as real else 0.0) == limit as real
  {
  }

  /** The latest reading of a run. */
  function Peak(calls: seq<Call>): int
    requires calls != []
  {
    var n := |calls| - 1;
    if n == 0 then calls[0].now
    else
      var p := Peak(calls[..n]);
      if calls[n].now > p then calls[n].now else p
  }

  /** No request but the first finds the latest reading so far to be 0. */
  ghost predicate NeverReseeds(calls: seq<Call>) { forall i :: 0 < i < |calls| ==> Peak(calls[..i]) != 0 }

  /**
   Over any run of requests under one limit, whatever the clock does, as long as the latest reading is
   not 0 when a later request comes: the tokens stay within the burst, and the bytes admitted within one
   burst and the refill of the time that passed.
   */
  lemma {:induction false} AdmittedBounded(limit: int, calls: seq<Call>)
    requires limit > 0 && calls != [] && NeverReseeds(calls)
    ensures var t := RunCalls(UNUSED, limit, calls);
            && InUse(t, limit) && t.last == Peak(calls)
            && t.tokens + AdmittedBytes(UNUSED, limit, calls) as real <= limit as real + Refill(limit, calls[0].now, Peak(calls))
  {
    hide Admit; hide InUse; hide Refill;
    var n := |calls| - 1;
    var c, front := calls[n], calls[..n];
    if n == 0 {
      assert front == [];
      Reseeded(UNUSED, limit, c);
      NoRefill(limit, c.now);
    } else {
      forall i | 0 < i < n ensures Peak(front[..i]) != 0 {
        assert front[..i] == calls[..i];
      }
      AdmittedBounded(limit, front);
      var b := RunCalls(UNUSED, limit, front);
      AdmitKeeps(b, limit, c);
      RefillAdds(limit, calls[0].now, b.last, Peak(calls));
    }
  }

  lemma NoRefill(limit: int, at: int)
    ensures Refill(limit, at, at) == 0.0
  {
  }

  lemma RefillAdds(limit: int, x: int, y: int, z: int)
    ensures Refill(limit, x, y) + Refill(limit, y, z) == Refill(limit, x, z)
  {
    var r := limit as real / NANOS_PER_SECOND;
    assert (y - x) as real * r + (z - y) as real * r == ((y - x) as real + (z - y) as real) * r;
    assert (y - x) as real + (z - y) as real == (z - x) as real;
  }

  /** A clock reading of 0 never counts as a first use, so every request finds the bucket full again. */
  lemma ZeroClockRefills()
    ensures AdmittedBytes(UNUSED, 5, [Call(5, 0), Call(5, 0), Call(5, 0)]) == 15
  {
    var calls := [Call(5, 0), Call(5, 0), Call(5, 0)];
    assert calls[..2] == [Call(5, 0), Call(5, 0)] && calls[..2][..1] == [Call(5, 0)] && calls[..2][..1][..0] == [];
    var one := calls[..2][..1];
    assert RunCalls(UNUSED, 5, one) == Admit(UNUSED, 5, Call(5, 0)).0;
    assert AdmittedBytes(UNUSED, 5, one) == 5;
    assert AdmittedBytes(UNUSED, 5, calls[..2]) == 10;
  }

  class TokenBucket {
    var ratePerNs: real
    var burst: real
    var tokens: real
    var last: int

    function State(): Bucket
      reads this
    {
      Bucket(ratePerNs, burst, tokens, last)
    }

    constructor ()
      ensures State() == UNUSED
    {
      ratePerNs, burst, tokens, last := 0.0, 0.0, 0.0, 0;
    }

    method Reconfigure(ratePerSec: real, burst: real, now: int)
      modifies this
      ensures State() == Reconfigured(old(State()), ratePerSec, burst, now)
    {
      if last == 0 {
        last := now;
        tokens := burst;
      }
      ratePerNs := ratePerSec / NANOS_PER_SECOND;
      this.burst := burst;
    }

    method Allow(n: nat, now: int, unlimited: bool) returns (ok: bool)
      modifies this
      ensures unlimited ==> ok && State() == old(State())
      ensures !unlimited ==> (State(), ok) == Taken(Refilled(old(State()), now), n)
    {
      if unlimited {
        return true;
      }
      var d := now - last;
      if d > 0 {
        tokens := MinReal(burst, tokens + d as real * ratePerNs);
        last := now;
      }
      if tokens >= n as real {
        tokens := tokens - n as real;
        return true;
      }
      ok := false;
    }

    method AllowRate(limit: int, c: Call) returns (ok: bool)
      modifies this
      ensures (State(), ok) == Admit(old(State()), limit, c)
    {
      var unlimited := limit <= 0;
      if !unlimited {
        Reconfigure(limit as real, limit as real, c.now);
      }
      ok := Allow(c.n, c.now, unlimited);
    }
  }
}
