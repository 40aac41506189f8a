/**
 Metric writing through a per-tenant append buffer: every engine gets its tenant's points in the order
 they were written, as if each batch had gone straight to it.
 */
module MetricWriter {
  import opened Wire

  const MAX_POINTS := 4096

  type Tenant = nat
  type Series = nat

  /** A point as its engine receives it, with the series identity resolved for it. */
  datatype Point = Point(id: nat, ts: int, value: real, series: Series)

  datatype Batch = Batch(tenant: Tenant, points: seq<Point>)

  /** A tenant's policy: reserved tenants take no writes, a rate limit may shed whole batches. */
  datatype Policy = Policy(reserved: bool, rateLimited: bool, otherLimits: bool, floor: Option<int>) {
    predicate CanBatch() { !rateLimited && !otherLimits }
  }

  /** A batch written, and whether the rate valve let it through. */
  datatype Entry = Entry(batch: Batch, admitted: bool)

  /** What an engine made of a batch: every point accepted or rejected for a reason. */
  datatype Outcome = Outcome(accepted: nat, ooo: nat, retention: nat, cardinality: nat, inflight: nat) {
    function Total(): nat { accepted + ooo + retention + cardinality + inflight }
  }

  datatype Counts = Counts(seen: Outcome, rate: nat) {
    function Total(): nat { seen.Total() + rate }
  }

  const NO_COUNTS := Counts(Outcome(0, 0, 0, 0, 0), 0)

  function Tally(c: Counts, o: Outcome): Counts {
    c.(seen := Outcome(c.seen.accepted + o.accepted, c.seen.ooo + o.ooo, c.seen.retention + o.retention,
                       c.seen.cardinality + o.cardinality, c.seen.inflight + o.inflight))
  }

  /** What becomes of a point an engine is given. */
  datatype Verdict = Accepted | OutOfOrder | Expired | TooManySeries | NoRoom

  function Of(o: Outcome, v: Verdict): nat {
    match v
    case Accepted => o.accepted
    case OutOfOrder => o.ooo
    case Expired => o.retention
    case TooManySeries => o.cardinality
    case NoRoom => o.inflight
  }

  // ------------------------------------------------------------ writing directly

  /** A batch reaches its engine unless its tenant is reserved or the rate valve sheds it. */
  predicate Reaches(policy: Tenant -> Policy, e: Entry) {
    var p := policy(e.batch.tenant);
    !p.reserved && (p.rateLimited ==> e.admitted)
  }

  predicate Sheds(policy: Tenant -> Policy, e: Entry) {
    var p := policy(e.batch.tenant);
    !p.reserved && p.rateLimited && !e.admitted
  }

  /** What tenant t's engine receives when every batch goes straight to it. */
  function Received(policy: Tenant -> Policy, log: seq<Entry>, t: Tenant): seq<Point> {
    if log == [] then []
    else
      var e := log[|log| - 1];
      Received(policy, log[..|log| - 1], t) + if e.batch.tenant == t && Reaches(policy, e) then e.batch.points else []
  }

  /** How many of tenant t's points the rate valve sheds. */
  function Shed(policy: Tenant -> Policy, log: seq<Entry>, t: Tenant): nat {
    if log == [] then 0
    else
      var e := log[|log| - 1];
      Shed(policy, log[..|log| - 1], t) + if e.batch.tenant == t && Sheds(policy, e) then |e.batch.points| else 0
  }

  /** Tenant t's points, in the order they were emitted. */
  function Emitted(log: seq<Entry>, t: Tenant): seq<Point> {
    if log == [] then []
    else
      var e := log[|log| - 1];
      Emitted(log[..|log| - 1], t) + if e.batch.tenant == t then e.batch.points else []
  }

  /** The batches the rate valve let through. */
  function Admitted(log: seq<Entry>): seq<Entry> {
    if log == [] then []
    else
      var e := log[|log| - 1];
      Admitted(log[..|log| - 1]) + if e.admitted then [e] else []
  }

  /** Who gets what: a reserved tenant nothing, one without a rate limit all its points, one with it those let through. */
  lemma {:induction false} ReceivedIs(policy: Tenant -> Policy, log: seq<Entry>, t: Tenant)
    ensures Received(policy, log, t) == if policy(t).reserved then [] else if policy(t).rateLimited then Emitted(Admitted(log), t) else Emitted(log, t)
    ensures !policy(t).reserved ==> |Received(policy, log, t)| + Shed(policy, log, t) == |Emitted(log, t)|
    ensures policy(t).reserved || !policy(t).rateLimited ==> Shed(policy, log, t) == 0
  {
    if log != [] {
      var n := |log| - 1;
      ReceivedIs(policy, log[..n], t);
      if log[n].admitted {
        var a := Admitted(log[..n]);
        assert (a + [log[n]])[..|a|] == a;
      } else {
        assert Admitted(log[..n]) + [] == Admitted(log[..n]);
      }
    }
  }

  function ReservedPoints(policy: Tenant -> Policy, log: seq<Entry>): nat {
    if log == [] then 0
    else
      var e := log[|log| - 1];
      ReservedPoints(policy, log[..|log| - 1]) + if policy(e.batch.tenant).reserved then |e.batch.points| else 0
  }

  // ------------------------------------------------------------ what buffering keeps

  function Got(engines: map<Tenant, seq<Point>>, t: Tenant): seq<Point> { if t in engines then engines[t] else [] }

  function CountOf(counts: map<Tenant, Counts>, t: Tenant): Counts { if t in counts then counts[t] else NO_COUNTS }

  /** Points written but not yet flushed are the current tenant's. */
  function Pending(run: Option<Tenant>, buffered: seq<Point>, t: Tenant): seq<Point> {
    if run == Some(t) then buffered else []
  }

  ghost predicate Delivered(policy: Tenant -> Policy, engines: map<Tenant, seq<Point>>, run: Option<Tenant>, buffered: seq<Point>, log: seq<Entry>) {
    forall t :: DeliveredAt(policy, engines, run, buffered, log, t)
  }

  ghost predicate DeliveredAt(policy: Tenant -> Policy, engines: map<Tenant, seq<Point>>, run: Option<Tenant>, buffered: seq<Point>, log: seq<Entry>, t: Tenant) {
    Got(engines, t) + Pending(run, buffered, t) == Received(policy, log, t)
  }

  /** A batch an engine was given. */
  datatype Given = Given(tenant: Tenant, points: seq<Point>)

  /** The points tenant t's engine was given, call by call. */
  function Handed(calls: seq<Given>, t: Tenant): seq<Point> {
    if calls == [] then []
    else
      var c := calls[|calls| - 1];
      Handed(calls[..|calls| - 1], t) + if c.tenant == t then c.points else []
  }

  /** How many of them it gave a verdict. */
  function Judged(judge: Judge, calls: seq<Given>, t: Tenant, v: Verdict): nat {
    if calls == [] then 0
    else
      var c := calls[|calls| - 1];
      Judged(judge, calls[..|calls| - 1], t, v) + if c.tenant == t then Of(judge(t, c.points), v) else 0
  }

  /** Each counter is the sum of its own verdicts, and the rate counter what the valve shed. */
  ghost predicate Counted(policy: Tenant -> Policy, judge: Judge, calls: seq<Given>, engines: map<Tenant, seq<Point>>, counts: map<Tenant, Counts>, log: seq<Entry>) {
    forall t :: CountedAt(policy, judge, calls, engines, counts, log, t)
  }

  ghost predicate CountedAt(policy: Tenant -> Policy, judge: Judge, calls: seq<Given>, engines: map<Tenant, seq<Point>>, counts: map<Tenant, Counts>, log: seq<Entry>, t: Tenant) {
    && Handed(calls, t) == Got(engines, t) && CountOf(counts, t).rate == Shed(policy, log, t)
    && forall v :: Of(CountOf(counts, t).seen, v) == Judged(judge, calls, t, v)
  }

  type Judge = (Tenant, seq<Point>) -> Outcome

  lemma LogSnoc(policy: Tenant -> Policy, log: seq<Entry>, e: Entry, t: Tenant)
    ensures Received(policy, log + [e], t) == Received(policy, log, t) + (if e.batch.tenant == t && Reaches(policy, e) then e.batch.points else [])
    ensures Shed(policy, log + [e], t) == Shed(policy, log, t) + (if e.batch.tenant == t && Sheds(policy, e) then |e.batch.points| else 0)
    ensures ReservedPoints(policy, log + [e]) == ReservedPoints(policy, log) + (if policy(e.batch.tenant).reserved then |e.batch.points| else 0)
  {
    assert (log + [e])[..|log|] == log;
  }

  lemma FlushDelivers(policy: Tenant -> Policy, engines: map<Tenant, seq<Point>>, r: Tenant, buffered: seq<Point>, log: seq<Entry>, run: Option<Tenant>)
    requires Delivered(policy, engines, Some(r), buffered, log)
    ensures Delivered(policy, engines[r := Got(engines, r) + buffered], run, [], log)
  {
    hide Received;
    var next := engines[r := Got(engines, r) + buffered];
    forall t ensures DeliveredAt(policy, next, run, [], log, t) {
      assert DeliveredAt(policy, engines, Some(r), buffered, log, t);
      GotPut(engines, r, Got(engines, r) + buffered, t);
      assert Got(next, t) + [] == Got(next, t) && Got(engines, t) + [] == Got(engines, t);
    }
  }

  lemma IdleDelivers(policy: Tenant -> Policy, engines: map<Tenant, seq<Point>>, run: Option<Tenant>, log: seq<Entry>, next: Option<Tenant>)
    requires Delivered(policy, engines, run, [], log)
    ensures Delivered(policy, engines, next, [], log)
  {
    hide Received;
    forall t ensures DeliveredAt(policy, engines, next, [], log, t) {
      assert DeliveredAt(policy, engines, run, [], log, t);
    }
  }

  lemma BufferDelivers(policy: Tenant -> Policy, engines: map<Tenant, seq<Point>>, r: Tenant, buffered: seq<Point>, log: seq<Entry>, e: Entry)
    requires Delivered(policy, engines, Some(r), buffered, log) && e.batch.tenant == r && Reaches(policy, e)
    ensures Delivered(policy, engines, Some(r), buffered + e.batch.points, log + [e])
  {
    hide Received; hide Reaches; hide Got;
    forall t ensures DeliveredAt(policy, engines, Some(r), buffered + e.batch.points, log + [e], t) {
      LogSnoc(policy, log, e, t);
      assert DeliveredAt(policy, engines, Some(r), buffered, log, t);
      if t == r {
        assert Got(engines, t) + (buffered + e.batch.points) == (Got(engines, t) + buffered) + e.batch.points;
      }
    }
  }

  lemma DirectDelivers(policy: Tenant -> Policy, engines: map<Tenant, seq<Point>>, r: Tenant, log: seq<Entry>, e: Entry)
    requires Delivered(policy, engines, Some(r), [], log) && e.batch.tenant == r && Reaches(policy, e)
    ensures Delivered(policy, engines[r := Got(engines, r) + e.batch.points], Some(r), [], log + [e])
  {
    BufferDelivers(policy, engines, r, [], log, e);
    assert [] + e.batch.points == e.batch.points;
    FlushDelivers(policy, engines, r, e.batch.points, log + [e], Some(r));
  }

  lemma SkipDelivers(policy: Tenant -> Policy, engines: map<Tenant, seq<Point>>, run: Option<Tenant>, buffered: seq<Point>, log: seq<Entry>, e: Entry)
    requires Delivered(policy, engines, run, buffered, log) && !Reaches(policy, e)
    ensures Delivered(policy, engines, run, buffered, log + [e])
  {
    hide Received; hide Reaches; hide Got;
    forall t ensures DeliveredAt(policy, engines, run, buffered, log + [e], t) {
      LogSnoc(policy, log, e, t);
      assert DeliveredAt(policy, engines, run, buffered, log, t);
      assert Received(policy, log, t) + [] == Received(policy, log, t);
    }
  }

  lemma GotPut(engines: map<Tenant, seq<Point>>, r: Tenant, v: seq<Point>, t: Tenant)
    ensures Got(engines[r := v], t) == if t == r then v else Got(engines, t)
  {
  }

  lemma CountPut(counts: map<Tenant, Counts>, r: Tenant, c: Counts, t: Tenant)
    ensures CountOf(counts[r := c], t) == if t == r then c else CountOf(counts, t)
  {
  }

  lemma CallSnoc(judge: Judge, calls: seq<Given>, c: Given, t: Tenant, v: Verdict)
    ensures Handed(calls + [c], t) == Handed(calls, t) + (if c.tenant == t then c.points else [])
    ensures Judged(judge, calls + [c], t, v) == Judged(judge, calls, t, v) + (if c.tenant == t then Of(judge(t, c.points), v) else 0)
  {
    assert (calls + [c])[..|calls|] == calls;
  }

  lemma TallyAt(c: Counts, o: Outcome, v: Verdict)
    ensures Of(Tally(c, o).seen, v) == Of(c.seen, v) + Of(o, v) && Tally(c, o).rate == c.rate
  {
  }

  /** What a flush records: a buffered tenant has no limits for the engine to reject by. */
  function Flushed(o: Outcome): Outcome { Outcome(o.accepted, o.ooo, o.retention, 0, 0) }

  lemma CountedFlush(policy: Tenant -> Policy, judge: Judge, calls: seq<Given>, engines: map<Tenant, seq<Point>>, counts: map<Tenant, Counts>, log: seq<Entry>, r: Tenant, points: seq<Point>)
    requires Counted(policy, judge, calls, engines, counts, log)
    ensures Counted(policy, judge, calls + [Given(r, points)], engines[r := Got(engines, r) + points],
                    counts[r := Tally(CountOf(counts, r), judge(r, points))], log)
  {
    hide Shed; hide Got; hide CountOf; hide Tally; hide Of; hide Handed; hide Judged;
    var next, tallied := engines[r := Got(engines, r) + points], counts[r := Tally(CountOf(counts, r), judge(r, points))];
    var more := calls + [Given(r, points)];
    forall t ensures CountedAt(policy, judge, more, next, tallied, log, t) {
      assert CountedAt(policy, judge, calls, engines, counts, log, t);
      GotPut(engines, r, Got(engines, r) + points, t);
      CountPut(counts, r, Tally(CountOf(counts, r), judge(r, points)), t);
      assert Got(engines, t) + [] == Got(engines, t);
      TallyAt(CountOf(counts, r), judge(r, points), Accepted);
      CallSnoc(judge, calls, Given(r, points), t, Accepted);
      forall v ensures Of(CountOf(tallied, t).seen, v) == Judged(judge, more, t, v) {
        CallSnoc(judge, calls, Given(r, points), t, v);
        TallyAt(CountOf(counts, r), judge(r, points), v);
      }
    }
  }

  lemma ShedSnoc(policy: Tenant -> Policy, log: seq<Entry>, e: Entry, t: Tenant)
    ensures Shed(policy, log + [e], t) == Shed(policy, log, t) + (if e.batch.tenant == t && Sheds(policy, e) then |e.batch.points| else 0)
  {
    hide Received; hide ReservedPoints; hide Sheds;
    LogSnoc(policy, log, e, t);
  }

  lemma CountedLog(policy: Tenant -> Policy, judge: Judge, calls: seq<Given>, engines: map<Tenant, seq<Point>>, counts: map<Tenant, Counts>, log: seq<Entry>, e: Entry)
    requires Counted(policy, judge, calls, engines, counts, log)
    ensures Counted(policy, judge, calls, engines, if Sheds(policy, e) then WithRate(counts, e.batch) else counts, log + [e])
  {
    hide Shed; hide Sheds; hide Got; hide CountOf; hide Of; hide Handed; hide Judged;
    var r := e.batch.tenant;
    var c := CountOf(counts, r);
    var next := if Sheds(policy, e) then WithRate(counts, e.batch) else counts;
    forall t ensures CountedAt(policy, judge, calls, engines, next, log + [e], t) {
      ShedSnoc(policy, log, e, t);
      assert CountedAt(policy, judge, calls, engines, counts, log, t);
      CountPut(counts, r, c.(rate := c.rate + |e.batch.points|), t);
    }
  }

  /** The counters once the rate valve has shed a batch. */
  function WithRate(counts: map<Tenant, Counts>, b: Batch): map<Tenant, Counts> {
    var c := CountOf(counts, b.tenant);
    counts[b.tenant := c.(rate := c.rate + |b.points|)]
  }

  // ------------------------------------------------------------ the writer

  /** An engine accounts for every point it is given, and rejects none by limits its tenant has not set. */
  ghost predicate Fair(policy: Tenant -> Policy, judge: Judge) {
    forall t, ps :: judge(t, ps).Total() == |ps| && (!policy(t).otherLimits ==> judge(t, ps).cardinality == judge(t, ps).inflight == 0)
  }

  lemma Accounted(policy: Tenant -> Policy, judge: Judge, t: Tenant, ps: seq<Point>)
    requires Fair(policy, judge)
    ensures judge(t, ps).Total() == |ps| && (!policy(t).otherLimits ==> Flushed(judge(t, ps)) == judge(t, ps))
  {
  }

  /** The verdicts together are the points given. */
  lemma {:induction false} JudgedAll(policy: Tenant -> Policy, judge: Judge, calls: seq<Given>, t: Tenant)
    requires Fair(policy, judge)
    ensures Judged(judge, calls, t, Accepted) + Judged(judge, calls, t, OutOfOrder) + Judged(judge, calls, t, Expired)
            + Judged(judge, calls, t, TooManySeries) + Judged(judge, calls, t, NoRoom) == |Handed(calls, t)|
  {
    hide Fair;
    if calls != [] {
      var n := |calls| - 1;
      JudgedAll(policy, judge, calls[..n], t);
      Accounted(policy, judge, t, calls[n].points);
    }
  }

  /** Which of a buffered batch's series a point's identity comes from. */
  datatype Ref = Ref(source: nat, point: nat)

  class Writer {
    const policy: Tenant -> Policy
    const judge: Judge
    var ids: seq<nat>
    var ts: seq<int>
    var values: seq<real>
    var refs: seq<Ref>
    var sources: seq<seq<Series>>
    var run: Option<Tenant>
    var engines: map<Tenant, seq<Point>>
    var counts: map<Tenant, Counts>
    var reserved: nat
    ghost var log: seq<Entry>
    ghost var buffered: seq<Point>
    ghost var calls: seq<Given>

    /** The buffer's columns spell out the buffered points, each with the identity of its own batch. */
    ghost predicate BufferOk()
      reads this`ids, this`ts, this`values, this`refs, this`sources, this`buffered
    {
      && |ids| == |ts| == |values| == |refs| == |buffered|
      && forall i :: 0 <= i < |buffered| ==>
           && ids[i] == buffered[i].id && ts[i] == buffered[i].ts && values[i] == buffered[i].value
           && refs[i].source < |sources| && refs[i].point < |sources[refs[i].source]|
           && sources[refs[i].source][refs[i].point] == buffered[i].series
    }

    ghost predicate Valid()
      reads this
    {
      Sound() && |buffered| < MAX_POINTS
    }

    /** All but the bound on the buffer, which a batch just added may fill. */
    ghost predicate Sound()
      reads this
    {
      && BufferOk() && (buffered != [] ==> run.Some? && !policy(run.value).otherLimits)
      && Fair(policy, judge)
      && Delivered(policy, engines, run, buffered, log) && Counted(policy, judge, calls, engines, counts, log)
      && reserved == ReservedPoints(policy, log)
    }

    constructor (policy: Tenant -> Policy, judge: Judge)
      requires Fair(policy, judge)
      ensures Valid() && log == [] && calls == [] && this.policy == policy && this.judge == judge
    {
      this.policy, this.judge := policy, judge;
      ids, ts, values, refs, sources := [], [], [], [], [];
      run, engines, counts, reserved := None, map[], map[], 0;
      log, buffered, calls := [], [], [];
    }

    lemma BufferLen()
      requires BufferOk()
      ensures |ids| == |buffered|
    {
    }

    /** The identity of buffered point i. */
    method SeriesOf(i: nat) returns (s: Series)
      requires BufferOk() && i < |buffered|
      ensures s == buffered[i].series
    {
      var r := refs[i];
      s := sources[r.source][r.point];
    }

    /** Adds a batch to the buffer, its points remembering which batch they came in. */
    method BufferBatch(points: seq<Point>)
      requires BufferOk()
      modifies this`ids, this`ts, this`values, this`refs, this`sources, this`buffered
      ensures BufferOk() && buffered == old(buffered) + points
    {
      var source := |sources|;
      sources := sources + [seq(|points|, i requires 0 <= i < |points| => points[i].series)];
      ids := ids + seq(|points|, i requires 0 <= i < |points| => points[i].id);
      ts := ts + seq(|points|, i requires 0 <= i < |points| => points[i].ts);
      values := values + seq(|points|, i requires 0 <= i < |points| => points[i].value);
      var more: seq<Ref> := [];
      for i := 0 to |points|
        invariant |more| == i && forall k :: 0 <= k < i ==> more[k] == Ref(source, k)
      {
        more := more + [Ref(source, i)];
      }
      refs := refs + more;
      buffered := buffered + points;
    }

    /** The points the buffer's columns stand for, as the engine takes them. */
    method Gather() returns (points: seq<Point>)
      requires BufferOk()
      ensures points == buffered
    {
      points := [];
      for i := 0 to |ids|
        invariant points == buffered[..i]
      {
        var s := SeriesOf(i);
        points := points + [Point(ids[i], ts[i], values[i], s)];
      }
    }

    method Flush()
      requires Sound()
      modifies this
      ensures Valid() && buffered == [] && log == old(log) && run == old(run)
    {
      hide Delivered; hide Counted; hide ReservedPoints; hide Fair; hide Got; hide CountOf; hide Tally; hide Flushed; hide BufferOk;
      BufferLen();
      if |ids| == 0 {
        return;
      }
      var points := Gather();
      var t := run.value;
      var o := judge(t, points);
      Accounted(policy, judge, t, points);
      FlushDelivers(policy, engines, t, buffered, log, run);
      CountedFlush(policy, judge, calls, engines, counts, log, t, points);
      engines := engines[t := Got(engines, t) + points];
      counts := counts[t := Tally(CountOf(counts, t), Flushed(o))];
      calls := calls + [Given(t, points)];
      ResetBuffer();
    }

    method ResetBuffer()
      modifies this`ids, this`ts, this`values, this`refs, this`sources, this`buffered
      ensures BufferOk() && buffered == []
    {
      ids, ts, values, refs, sources, buffered := [], [], [], [], [], [];
    }

    /** A batch straight to its engine, unless the rate valve sheds it. */
    method AppendDirect(b: Batch, admitted: bool)
      requires Valid() && buffered == [] && run == Some(b.tenant) && !policy(b.tenant).reserved
      modifies this
      ensures Valid() && buffered == [] && log == old(log) + [Entry(b, admitted)]
    {
      hide Delivered; hide Counted; hide ReservedPoints; hide Fair; hide Got; hide CountOf; hide Tally; hide Outcome.Total; hide WithRate; hide Writer.BufferOk;
      var t, e := b.tenant, Entry(b, admitted);
      LogSnoc(policy, log, e, t);
      CountedLog(policy, judge, calls, engines, counts, log, e);
      if policy(t).rateLimited && !admitted {
        SkipDelivers(policy, engines, run, buffered, log, e);
        counts := WithRate(counts, b);
      } else {
        DirectDelivers(policy, engines, t, log, e);
        var o := judge(t, b.points);
        CountedFlush(policy, judge, calls, engines, counts, log + [e], t, b.points);
        calls := calls + [Given(t, b.points)];
        engines := engines[t := Got(engines, t) + b.points];
        counts := counts[t := Tally(CountOf(counts, t), o)];
      }
      log := log + [e];
    }

    method AppendBuffered(b: Batch, admitted: bool)
      requires Valid() && run == Some(b.tenant) && !policy(b.tenant).reserved && policy(b.tenant).CanBatch() && |b.points| <= MAX_POINTS
      modifies this
      ensures Valid() && log == old(log) + [Entry(b, admitted)]
    {
      hide Delivered; hide Counted; hide ReservedPoints; hide Fair; hide Writer.BufferOk; hide Got; hide CountOf; hide WithRate;
      BufferLen();
      if |ids| + |b.points| > MAX_POINTS {
        Flush();
        BufferLen();
      }
      var e := Entry(b, admitted);
      LogSnoc(policy, log, e, b.tenant);
      CountedLog(policy, judge, calls, engines, counts, log, e);
      BufferDelivers(policy, engines, b.tenant, buffered, log, e);
      BufferBatch(b.points);
      BufferLen();
      log := log + [e];
      if |ids| == MAX_POINTS {
        Flush();
      }
    }

    method HasExpired(points: seq<Point>, floor: int) returns (expired: nat)
      ensures expired > 0 <==> exists i :: 0 <= i < |points| && points[i].ts < floor
    {
      expired := 0;
      for i := 0 to |points|
        invariant expired > 0 <==> exists k :: 0 <= k < i && points[k].ts < floor
      {
        if points[i].ts < floor {
          expired := expired + 1;
        }
      }
    }

    /** Writes a batch: a change of tenant flushes first, so the buffer only ever holds one tenant's points. */
    method Write(b: Batch, admitted: bool)
      requires Valid()
      modifies this
      ensures Valid() && log == old(log) + [Entry(b, admitted)]
    {
      hide Delivered; hide Counted; hide ReservedPoints; hide Writer.BufferOk; hide Fair;
      var t, p := b.tenant, policy(b.tenant);
      if run.Some? && run.value != t {
        Flush();
      }
      if p.reserved {
        var e := Entry(b, admitted);
        LogSnoc(policy, log, e, t);
        SkipDelivers(policy, engines, run, buffered, log, e);
        CountedLog(policy, judge, calls, engines, counts, log, e);
        reserved := reserved + |b.points|;
        log := log + [e];
        return;
      }
      if buffered == [] {
        IdleDelivers(policy, engines, run, log, Some(t));
      }
      run := Some(t);
      var expired := 0;
      if p.floor.Some? {
        expired := HasExpired(b.points, p.floor.value);
      }
      if expired == 0 && p.CanBatch() && |b.points| <= MAX_POINTS {
        AppendBuffered(b, admitted);
      } else {
        Flush();
        AppendDirect(b, admitted);
      }
    }
  }

  /**
   Buffered writing refines direct writing: after any batches and a last flush, every tenant's engine
   holds exactly the points emitted for it, in order, every counter is the sum of its own verdicts on
   them, and every point not reserved is counted once.
   */
  method WriteAll(policy: Tenant -> Policy, judge: Judge, entries: seq<Entry>) returns (w: Writer)
    requires Fair(policy, judge)
    ensures forall t :: Got(w.engines, t) == Received(policy, entries, t) == Handed(w.calls, t)
    ensures forall t, v :: Of(CountOf(w.counts, t).seen, v) == Judged(judge, w.calls, t, v)
    ensures forall t :: CountOf(w.counts, t).rate == Shed(policy, entries, t)
    ensures forall t :: CountOf(w.counts, t).Total() == |Received(policy, entries, t)| + Shed(policy, entries, t)
    ensures w.reserved == ReservedPoints(policy, entries)
  {
    hide Received; hide Shed; hide Delivered; hide Counted; hide ReservedPoints; hide Writer.BufferOk; hide Fair;
    w := new Writer(policy, judge);
    for i := 0 to |entries|
      invariant w.Valid() && w.policy == policy && w.judge == judge && w.log == entries[..i] && fresh(w)
    {
      w.Write(entries[i].batch, entries[i].admitted);
      assert entries[..i] + [entries[i]] == entries[..i + 1];
    }
    assert entries[..|entries|] == entries;
    w.Flush();
    Settled(policy, judge, w.calls, w.engines, w.run, w.counts, entries);
  }

  lemma Settled(policy: Tenant -> Policy, judge: Judge, calls: seq<Given>, engines: map<Tenant, seq<Point>>, run: Option<Tenant>, counts: map<Tenant, Counts>, log: seq<Entry>)
    requires Fair(policy, judge) && Delivered(policy, engines, run, [], log) && Counted(policy, judge, calls, engines, counts, log)
    ensures forall t :: Got(engines, t) == Received(policy, log, t) == Handed(calls, t)
    ensures forall t, v :: Of(CountOf(counts, t).seen, v) == Judged(judge, calls, t, v)
    ensures forall t :: CountOf(counts, t).rate == Shed(policy, log, t)
    ensures forall t :: CountOf(counts, t).Total() == |Received(policy, log, t)| + Shed(policy, log, t)
  {
    hide Received; hide Shed; hide Handed; hide Judged; hide CountOf; hide Got; hide Fair;
    forall t ensures CountedAt(policy, judge, calls, engines, counts, log, t) && Got(engines, t) == Received(policy, log, t) {
      assert DeliveredAt(policy, engines, run, [], log, t) && CountedAt(policy, judge, calls, engines, counts, log, t);
      assert Got(engines, t) + [] == Got(engines, t);
    }
    forall t ensures CountOf(counts, t).Total() == |Received(policy, log, t)| + Shed(policy, log, t) {
      assert CountedAt(policy, judge, calls, engines, counts, log, t);
      JudgedAll(policy, judge, calls, t);
      SeenTotal(CountOf(counts, t));
    }
  }

  lemma SeenTotal(c: Counts)
    ensures c.Total() == Of(c.seen, Accepted) + Of(c.seen, OutOfOrder) + Of(c.seen, Expired) + Of(c.seen, TooManySeries) + Of(c.seen, NoRoom) + c.rate
  {
  }
}
