/** The merge catch-up queue: which tasks a turn runs, what it requeues, and why draining it ends. */
module MergeQueue {
  import opened Chunking

  type Key = nat

  /** A queued merge; version tells refreshed tasks for one key apart. */
  datatype Task = Task(key: Key, deferred: bool, version: nat)

  /** What running a task comes to: more to do, put off for want of room, and whether anything merged. */
  datatype Turn = Turn(more: bool, deferred: bool, progress: bool)

  // ------------------------------------------------------------ one turn

  /** How many tasks from the front a turn runs: up to the limit, stopping short of a deferred one. */
  function RunCount(tasks: seq<Task>, limit: int): (n: nat)
    ensures n <= |tasks| && (tasks != [] ==> n > 0) && n <= Max(limit, 1)
  {
    var n := Min(|tasks|, Max(limit, 1));
    var d := FirstDeferred(tasks, n, 0);
    if d < n then Max(d, 1) else n
  }

  function FirstDeferred(tasks: seq<Task>, n: nat, i: nat): (d: nat)
    requires i <= n <= |tasks|
    ensures i <= d <= n && (forall k :: i <= k < d ==> !tasks[k].deferred) && (d < n ==> tasks[d].deferred)
    decreases n - i
  {
    if i == n || tasks[i].deferred then i else FirstDeferred(tasks, n, i + 1)
  }

  /** A deferred task only ever runs alone, and the turn stops at the limit, the end, or a deferred task. */
  lemma RunsPrefix(tasks: seq<Task>, limit: int)
    ensures var n := RunCount(tasks, limit);
            && (n > 1 ==> forall k :: 0 <= k < n ==> !tasks[k].deferred)
            && (n < |tasks| ==> n == Max(limit, 1) || tasks[n].deferred || (n == 1 && tasks[0].deferred))
  {
  }

  predicate Progressed(turns: seq<Turn>) { exists i :: 0 <= i < |turns| && turns[i].progress }

  predicate Requeues(t: Turn, progress: bool) { t.more && (t.progress || (t.deferred && progress)) }

  /** The tasks a turn puts back, each deferred as its run said. */
  function Requeued(tasks: seq<Task>, turns: seq<Turn>, progress: bool): seq<Task>
    requires |turns| <= |tasks|
  {
    if turns == [] then []
    else
      var n := |turns| - 1;
      Requeued(tasks, turns[..n], progress)
      + if Requeues(turns[n], progress) then [tasks[n].(deferred := turns[n].deferred)] else []
  }

  /** The queue after a turn: what it did not touch, in order, then what it put back. */
  function AfterTurn(tasks: seq<Task>, turns: seq<Turn>): seq<Task>
    requires |turns| <= |tasks|
  {
    tasks[|turns|..] + Requeued(tasks, turns, Progressed(turns))
  }

  /** A run that is done with: it asks for no more, or it merged nothing and was not put off by a turn that did. */
  predicate Done(turn: Turn, turns: seq<Turn>) {
    !turn.more || (!turn.progress && (!turn.deferred || forall i :: 0 <= i < |turns| ==> !turns[i].progress))
  }

  /**
   What a turn leaves: the tasks it did not touch, in order, and behind them, in order, every task it ran
   whose run is not done with, put off or not as the run said.
   */
  ghost predicate TurnLeaves(remaining: seq<Task>, tasks: seq<Task>, turns: seq<Turn>)
    requires |turns| <= |tasks|
  {
    exists places :: PutBack(remaining, places, tasks, turns)
  }

  ghost predicate PutBack(remaining: seq<Task>, places: seq<nat>, tasks: seq<Task>, turns: seq<Turn>)
    requires |turns| <= |tasks|
  {
    var rest := |tasks| - |turns|;
    && |remaining| == rest + |places| && remaining[..rest] == tasks[|turns|..]
    && (forall i, j :: 0 <= i < j < |places| ==> places[i] < places[j])
    && (forall i :: 0 <= i < |places| ==>
          && places[i] < |turns| && !Done(turns[places[i]], turns)
          && remaining[rest + i] == tasks[places[i]].(deferred := turns[places[i]].deferred))
    && (forall k :: 0 <= k < |turns| && !Done(turns[k], turns) ==> k in places)
  }

  lemma RequeuesIs(turns: seq<Turn>, k: nat)
    requires k < |turns|
    ensures Requeues(turns[k], Progressed(turns)) <==> !Done(turns[k], turns)
  {
  }

  /** The tasks put back among the first m runs, and where they came from. */
  lemma {:induction false} RequeuedPlaces(tasks: seq<Task>, turns: seq<Turn>, m: nat) returns (places: seq<nat>)
    requires m <= |turns| <= |tasks|
    ensures var r := Requeued(tasks, turns[..m], Progressed(turns));
            && |r| == |places| && (forall i, j :: 0 <= i < j < |places| ==> places[i] < places[j])
            && (forall i :: 0 <= i < |places| ==>
                  places[i] < m && !Done(turns[places[i]], turns) && r[i] == tasks[places[i]].(deferred := turns[places[i]].deferred))
            && (forall k :: 0 <= k < m && !Done(turns[k], turns) ==> k in places)
  {
    hide Done;
    if m == 0 {
      places := [];
    } else {
      var before := RequeuedPlaces(tasks, turns, m - 1);
      assert turns[..m][..m - 1] == turns[..m - 1];
      RequeuesIs(turns, m - 1);
      places := if !Done(turns[m - 1], turns) then before + [m - 1] else before;
    }
  }

  lemma AfterTurnIs(tasks: seq<Task>, turns: seq<Turn>)
    requires |turns| <= |tasks|
    ensures TurnLeaves(AfterTurn(tasks, turns), tasks, turns)
  {
    hide Done; hide Requeued;
    var places := RequeuedPlaces(tasks, turns, |turns|);
    assert turns[..|turns|] == turns;
    assert PutBack(AfterTurn(tasks, turns), places, tasks, turns);
  }

  /** A task run, and what its run answered. */
  datatype Ran = Ran(task: Task, turn: Turn)

  /** The engines behind the tasks: what running one does to them, and every run in order. */
  class Engines<S> {
    const merge: (S, Task) -> (S, Turn)
    var state: S
    var log: seq<Ran>

    constructor (state: S, merge: (S, Task) -> (S, Turn))
      ensures this.state == state && this.merge == merge && log == []
    {
      this.state, this.merge, log := state, merge, [];
    }

    method Run(t: Task) returns (r: Turn)
      modifies this
      ensures (state, r) == merge(old(state), t) && log == old(log) + [Ran(t, r)]
    {
      var (s, turn) := merge(state, t);
      state, r, log := s, turn, log + [Ran(t, turn)];
    }
  }

  /** An order the first n tasks can finish in when they run at once. */
  ghost predicate Schedule(order: seq<nat>, n: nat) {
    |order| == n && (forall j :: 0 <= j < n ==> order[j] < n) && forall i, j :: 0 <= i < j < n ==> order[i] != order[j]
  }

  /** The tasks in the order they are run. */
  function Picked<T>(tasks: seq<T>, order: seq<nat>): (r: seq<T>)
    requires forall j :: 0 <= j < |order| ==> order[j] < |tasks|
    ensures |r| == |order|
  {
    seq(|order|, j requires 0 <= j < |order| => tasks[order[j]])
  }

  /** The engines after running tasks in an order, and each run's outcome. */
  function Outcomes<S>(merge: (S, Task) -> (S, Turn), s: S, tasks: seq<Task>): (r: (S, seq<Turn>))
    ensures |r.1| == |tasks|
  {
    if tasks == [] then (s, [])
    else
      var (mid, turns) := Outcomes(merge, s, tasks[..|tasks| - 1]);
      var (end, turn) := merge(mid, tasks[|tasks| - 1]);
      (end, turns + [turn])
  }

  lemma PickedSplit<T>(tasks: seq<T>, order: seq<nat>, p: nat)
    requires p < |order| && forall j :: 0 <= j < |order| ==> order[j] < |tasks|
    ensures Picked(tasks, order) == Picked(tasks, order[..p]) + [tasks[order[p]]] + Picked(tasks, order[p + 1..])
    ensures Picked(tasks, order[..p] + order[p + 1..]) == Picked(tasks, order[..p]) + Picked(tasks, order[p + 1..])
  {
  }

  lemma ScheduleLess(order: seq<nat>, n: nat, p: nat)
    requires n > 0 && Schedule(order, n) && p < n && order[p] == n - 1
    ensures Schedule(order[..p] + order[p + 1..], n - 1)
  {
    var rest := order[..p] + order[p + 1..];
    forall j | 0 <= j < n - 1 ensures rest[j] == order[if j < p then j else j + 1] {
    }
  }

  /** A schedule of the first n tasks runs each of them once. */
  lemma {:induction false} ScheduleRunsOnce<T>(tasks: seq<T>, order: seq<nat>, n: nat)
    requires n <= |tasks| && Schedule(order, n)
    ensures multiset(Picked(tasks, order)) == multiset(tasks[..n])
    decreases n
  {
    if n > 0 {
      var p := PlaceOf(order, n, n - 1);
      ScheduleLess(order, n, p);
      ScheduleRunsOnce(tasks, order[..p] + order[p + 1..], n - 1);
      PickedSplit(tasks, order, p);
      hide Picked;
      assert tasks[..n] == tasks[..n - 1] + [tasks[n - 1]];
    } else {
      assert Picked(tasks, order) == [] && tasks[..n] == [];
    }
  }

  /** Where task i stands in a schedule. */
  lemma PlaceOf(order: seq<nat>, n: nat, i: nat) returns (p: nat)
    requires Schedule(order, n) && i < n
    ensures p < n && order[p] == i
  {
    if i !in order {
      Pigeonhole(order, n, i);
    }
    p :| 0 <= p < n && order[p] == i;
  }

  /** n places for n values of which i is not used leave two places with one value. */
  lemma {:induction false} Pigeonhole(order: seq<nat>, n: nat, i: nat)
    requires |order| == n && i < n && i !in order && forall j :: 0 <= j < n ==> order[j] < n
    ensures exists a, b :: 0 <= a < b < n && order[a] == order[b]
    decreases n
  {
    var last := order[n - 1];
    if last in order[..n - 1] {
      var a :| 0 <= a < n - 1 && order[..n - 1][a] == last;
      assert order[a] == order[n - 1];
    } else {
      // The last value stands once: take it out and close the gap it leaves.
      var rest := seq(n - 1, j requires 0 <= j < n - 1 => Closed(order[j], last));
      forall j | 0 <= j < n - 1 ensures rest[j] < n - 1 && rest[j] != Closed(i, last) {
        assert order[..n - 1][j] == order[j] && order[j] in order;
      }
      Pigeonhole(rest, n - 1, Closed(i, last));
      var a, b :| 0 <= a < b < n - 1 && rest[a] == rest[b];
      assert order[..n - 1][a] == order[a] && order[..n - 1][b] == order[b];
      assert order[a] == order[b];
    }
  }

  /** A value once another below it has been taken out. */
  function Closed(v: nat, out: nat): nat { if v > out then v - 1 else v }

  /** Tasks side by side with what their runs answered. */
  function Runs(tasks: seq<Task>, turns: seq<Turn>): (r: seq<Ran>)
    requires |turns| <= |tasks|
    ensures |r| == |turns|
  {
    seq(|turns|, i requires 0 <= i < |turns| => Ran(tasks[i], turns[i]))
  }

  /** Runs the first n tasks at once: in some order, each once, its outcome kept at its own place. */
  method RunAtOnce<S>(e: Engines<S>, tasks: seq<Task>, n: nat, order: seq<nat>) returns (turns: seq<Turn>)
    requires n <= |tasks| && Schedule(order, n)
    modifies e
    ensures |turns| == n && e.log == old(e.log) + Picked(Runs(tasks, turns), order)
    ensures var (s, outs) := Outcomes(e.merge, old(e.state), Picked(tasks, order));
            e.state == s && forall j :: 0 <= j < n ==> turns[order[j]] == outs[j]
  {
    hide Outcomes; hide Picked;
    turns := seq(n, _ => Turn(false, false, false));
    ghost var before := e.log;
    PickedNone(tasks, e.merge, e.state);
    assert order[..0] == [];
    for k := 0 to n
      invariant |turns| == n && |e.log| == |before| + k && before <= e.log
      invariant forall j :: 0 <= j < k ==> e.log[|before| + j] == Ran(tasks[order[j]], turns[order[j]])
      invariant e.state == Outcomes(e.merge, old(e.state), Picked(tasks, order[..k])).0
      invariant forall j :: 0 <= j < k ==> turns[order[j]] == Outcomes(e.merge, old(e.state), Picked(tasks, order[..k])).1[j]
    {
      OutcomesSnoc(e.merge, old(e.state), tasks, order, k);
      var r := e.Run(tasks[order[k]]);
      turns := turns[order[k] := r];
    }
    assert order[..n] == order;
    LogIs(e.log, before, tasks, turns, order);
  }

  lemma PickedNone<S>(tasks: seq<Task>, merge: (S, Task) -> (S, Turn), s: S)
    ensures Picked(tasks, []) == [] && Outcomes(merge, s, Picked(tasks, [])) == (s, [])
  {
    assert Picked(tasks, []) == [];
  }

  lemma OutcomesSnoc<S>(merge: (S, Task) -> (S, Turn), s: S, tasks: seq<Task>, order: seq<nat>, k: nat)
    requires k < |order| && forall j :: 0 <= j < |order| ==> order[j] < |tasks|
    ensures var (mid, turns) := Outcomes(merge, s, Picked(tasks, order[..k]));
            var (end, turn) := merge(mid, tasks[order[k]]);
            Outcomes(merge, s, Picked(tasks, order[..k + 1])) == (end, turns + [turn])
  {
    assert Picked(tasks, order[..k + 1]) == Picked(tasks, order[..k]) + [tasks[order[k]]];
    assert Picked(tasks, order[..k + 1])[..k] == Picked(tasks, order[..k]);
  }

  lemma LogIs(log: seq<Ran>, before: seq<Ran>, tasks: seq<Task>, turns: seq<Turn>, order: seq<nat>)
    requires |turns| <= |tasks| && |order| == |turns| && (forall j :: 0 <= j < |order| ==> order[j] < |turns|)
    requires before <= log && |log| == |before| + |turns|
    requires forall j :: 0 <= j < |turns| ==> log[|before| + j] == Ran(tasks[order[j]], turns[order[j]])
    ensures log == before + Picked(Runs(tasks, turns), order)
  {
  }

  /** One turn of the queue: runs the tasks it may, each once, and puts back those that ask for more. */
  method RunMergeTasks<S>(e: Engines<S>, tasks: seq<Task>, limit: int, order: seq<nat>) returns (remaining: seq<Task>, turns: seq<Turn>)
    requires Schedule(order, RunCount(tasks, limit))
    modifies e
    ensures var n := RunCount(tasks, limit);
            && |turns| == n && e.log == old(e.log) + Picked(Runs(tasks, turns), order)
            && multiset(Picked(Runs(tasks, turns), order)) == multiset(Runs(tasks, turns))
            && TurnLeaves(remaining, tasks, turns)
            && var (s, outs) := Outcomes(e.merge, old(e.state), Picked(tasks, order));
               e.state == s && forall j :: 0 <= j < n ==> turns[order[j]] == outs[j]
  {
    hide Outcomes; hide Picked; hide TurnLeaves;
    var n := CountTasks(tasks, limit);
    turns := RunAtOnce(e, tasks, n, order);
    ScheduleRunsOnce(Runs(tasks, turns), order, n);
    assert Runs(tasks, turns)[..n] == Runs(tasks, turns);
    var progress := AnyProgress(turns);
    var more := Requeue(tasks, turns, progress);
    remaining := tasks[n..] + more;
    AfterTurnIs(tasks, turns);
  }

  method CountTasks(tasks: seq<Task>, limit: int) returns (n: nat)
    ensures n == RunCount(tasks, limit)
  {
    n := Min(|tasks|, Max(limit, 1));
    var i := 0;
    ghost var cap := n;
    while i < n
      invariant 0 <= i <= n == cap && FirstDeferred(tasks, cap, 0) == FirstDeferred(tasks, cap, i)
      decreases cap - i
    {
      if tasks[i].deferred {
        n := Max(i, 1);
        break;
      }
      i := i + 1;
    }
  }

  method AnyProgress(turns: seq<Turn>) returns (progress: bool)
    ensures progress <==> Progressed(turns)
  {
    progress := false;
    for k := 0 to |turns|
      invariant progress <==> Progressed(turns[..k])
    {
      progress := progress || turns[k].progress;
      ProgressSnoc(turns, k);
    }
    assert turns[..|turns|] == turns;
  }

  method Requeue(tasks: seq<Task>, turns: seq<Turn>, progress: bool) returns (more: seq<Task>)
    requires |turns| <= |tasks|
    ensures more == Requeued(tasks, turns, progress)
  {
    more := [];
    assert turns[..0] == [];
    for k := 0 to |turns|
      invariant more == Requeued(tasks, turns[..k], progress)
    {
      assert turns[..k + 1][..k] == turns[..k];
      if turns[k].more && (turns[k].progress || (turns[k].deferred && progress)) {
        more := more + [tasks[k].(deferred := turns[k].deferred)];
      }
    }
    assert turns[..|turns|] == turns;
  }

  lemma ProgressSnoc(turns: seq<Turn>, k: nat)
    requires k < |turns|
    ensures Progressed(turns[..k + 1]) <==> Progressed(turns[..k]) || turns[k].progress
  {
    assert turns[..k + 1] == turns[..k] + [turns[k]];
    if Progressed(turns[..k]) {
      var i :| 0 <= i < k && turns[..k][i].progress;
      assert turns[..k + 1][i].progress;
    }
    if turns[k].progress {
      assert turns[..k + 1][k].progress;
    }
  }

  // ------------------------------------------------------------ draining ends

  lemma {:induction false} RisingCount(places: seq<nat>, n: nat)
    requires (forall i, j :: 0 <= i < j < |places| ==> places[i] < places[j]) && forall i :: 0 <= i < |places| ==> places[i] < n
    ensures |places| <= n
    decreases n
  {
    if places != [] {
      var m := |places| - 1;
      RisingCount(places[..m], places[m]);
    }
  }

  lemma NotDoneProgressed(turns: seq<Turn>, k: nat)
    requires k < |turns| && !Done(turns[k], turns)
    ensures Progressed(turns)
  {
  }

  /** A turn either merges something, or leaves the queue shorter. */
  lemma TurnShrinks(remaining: seq<Task>, tasks: seq<Task>, turns: seq<Turn>)
    requires turns != [] && |turns| <= |tasks| && TurnLeaves(remaining, tasks, turns)
    ensures Progressed(turns) || |remaining| < |tasks|
    ensures |remaining| <= |tasks|
  {
    var places :| PutBack(remaining, places, tasks, turns);
    RisingCount(places, |turns|);
    if places != [] {
      NotDoneProgressed(turns, places[0]);
    }
  }

  /** Work left, which no run adds to and every run that reports progress takes from. */
  ghost predicate Shrinks<S(!new)>(merge: (S, Task) -> (S, Turn), work: S -> nat) {
    forall s, t :: work(merge(s, t).0) <= work(s) && (merge(s, t).1.progress ==> work(merge(s, t).0) < work(s))
  }

  lemma {:induction false} OutcomesShrink<S(!new)>(merge: (S, Task) -> (S, Turn), work: S -> nat, s: S, tasks: seq<Task>)
    requires Shrinks(merge, work)
    ensures var (end, turns) := Outcomes(merge, s, tasks);
            work(end) <= work(s) && (Progressed(turns) ==> work(end) < work(s))
  {
    if tasks != [] {
      OutcomesShrink(merge, work, s, tasks[..|tasks| - 1]);
      var turns := Outcomes(merge, s, tasks).1;
      ProgressSnoc(turns, |tasks| - 1);
      assert turns[..|tasks|] == turns && turns[..|tasks| - 1] == Outcomes(merge, s, tasks[..|tasks| - 1]).1;
    }
  }

  /** Progress does not depend on where outcomes are kept. */
  lemma ScheduledProgress(turns: seq<Turn>, outs: seq<Turn>, order: seq<nat>)
    requires Schedule(order, |turns|) && |outs| == |turns| && forall j :: 0 <= j < |turns| ==> turns[order[j]] == outs[j]
    ensures Progressed(turns) <==> Progressed(outs)
  {
    if Progressed(turns) {
      var i :| 0 <= i < |turns| && turns[i].progress;
      var j := PlaceOf(order, |turns|, i);
      assert outs[j].progress;
    }
    if Progressed(outs) {
      var j :| 0 <= j < |outs| && outs[j].progress;
      assert turns[order[j]].progress;
    }
  }

  /** A key with a task in the queue. */
  predicate Queued(tasks: seq<Task>, k: Key) { exists i :: 0 <= i < |tasks| && tasks[i].key == k }

  /** A key run in a turn. */
  predicate RunIn(round: seq<Ran>, k: Key) { exists i :: 0 <= i < |round| && round[i].task.key == k }

  function Answers(round: seq<Ran>): (r: seq<Turn>)
    ensures |r| == |round|
  {
    seq(|round|, i requires 0 <= i < |round| => round[i].turn)
  }

  /** Run i of round r is done with, or its key runs again in a later round or is still queued. */
  ghost predicate Followed(rounds: seq<seq<Ran>>, queue: seq<Task>, r: nat, i: nat)
    requires r < |rounds| && i < |rounds[r]|
  {
    || Done(rounds[r][i].turn, Answers(rounds[r])) || Queued(queue, rounds[r][i].task.key)
    || exists q :: r < q < |rounds| && RunIn(rounds[q], rounds[r][i].task.key)
  }

  ghost predicate AllFollowed(rounds: seq<seq<Ran>>, queue: seq<Task>) {
    forall r, i :: 0 <= r < |rounds| && 0 <= i < |rounds[r]| ==> Followed(rounds, queue, r, i)
  }

  ghost predicate Served(rounds: seq<seq<Ran>>, queue: seq<Task>, k: Key) {
    Queued(queue, k) || exists r :: 0 <= r < |rounds| && RunIn(rounds[r], k)
  }

  /** Where outcomes are kept does not change whether a run is done with. */
  lemma DoneScheduled(turn: Turn, tasks: seq<Task>, turns: seq<Turn>, order: seq<nat>)
    requires |turns| <= |tasks| && Schedule(order, |turns|)
    ensures Done(turn, Answers(Picked(Runs(tasks, turns), order))) <==> Done(turn, turns)
  {
    var outs := Answers(Picked(Runs(tasks, turns), order));
    ScheduledProgress(turns, outs, order);
    assert Progressed(turns) <==> exists i :: 0 <= i < |turns| && turns[i].progress;
    assert Progressed(outs) <==> exists i :: 0 <= i < |outs| && outs[i].progress;
  }

  /** A key queued before a turn runs in it or is queued after it. */
  lemma TurnServes(remaining: seq<Task>, tasks: seq<Task>, turns: seq<Turn>, order: seq<nat>, k: Key)
    requires |turns| <= |tasks| && Schedule(order, |turns|) && TurnLeaves(remaining, tasks, turns) && Queued(tasks, k)
    ensures RunIn(Picked(Runs(tasks, turns), order), k) || Queued(remaining, k)
  {
    var i :| 0 <= i < |tasks| && tasks[i].key == k;
    if i < |turns| {
      var p := PlaceOf(order, |turns|, i);
      assert Picked(Runs(tasks, turns), order)[p].task.key == k;
    } else {
      var places :| PutBack(remaining, places, tasks, turns);
      assert remaining[..|tasks| - |turns|][i - |turns|] == tasks[|turns|..][i - |turns|] == tasks[i];
      assert remaining[i - |turns|].key == k;
    }
  }

  /** A run that is not done with is followed by its key in the queue the turn leaves. */
  lemma UnfinishedStays(remaining: seq<Task>, tasks: seq<Task>, turns: seq<Turn>, order: seq<nat>, i: nat)
    requires |turns| <= |tasks| && Schedule(order, |turns|) && TurnLeaves(remaining, tasks, turns) && i < |turns|
    ensures var round := Picked(Runs(tasks, turns), order);
            !Done(round[i].turn, Answers(round)) ==> Queued(remaining, round[i].task.key)
  {
    var round := Picked(Runs(tasks, turns), order);
    DoneScheduled(round[i].turn, tasks, turns, order);
    if !Done(round[i].turn, Answers(round)) {
      var places :| PutBack(remaining, places, tasks, turns);
      var k := order[i];
      assert !Done(turns[k], turns);
      var p :| 0 <= p < |places| && places[p] == k;
      assert remaining[|tasks| - |turns| + p].key == tasks[k].key;
    }
  }

  /** One more turn keeps every run followed. */
  lemma TurnFollows(rounds: seq<seq<Ran>>, remaining: seq<Task>, tasks: seq<Task>, turns: seq<Turn>, order: seq<nat>)
    requires |turns| <= |tasks| && Schedule(order, |turns|) && TurnLeaves(remaining, tasks, turns) && AllFollowed(rounds, tasks)
    ensures AllFollowed(rounds + [Picked(Runs(tasks, turns), order)], remaining)
  {
    hide Done; hide TurnLeaves; hide Schedule; hide Queued; hide RunIn;
    InOrder(order, |turns|);
    var round := Picked(Runs(tasks, turns), order);
    var more := rounds + [round];
    forall r, i | 0 <= r < |more| && 0 <= i < |more[r]| ensures Followed(more, remaining, r, i) {
      if r == |rounds| {
        UnfinishedStays(remaining, tasks, turns, order, i);
      } else {
        assert Followed(rounds, tasks, r, i);
        var k := rounds[r][i].task.key;
        if Queued(tasks, k) {
          TurnServes(remaining, tasks, turns, order, k);
          assert RunIn(round, k) ==> RunIn(more[|rounds|], k);
        } else if exists q :: r < q < |rounds| && RunIn(rounds[q], k) {
          var q :| r < q < |rounds| && RunIn(rounds[q], k);
          assert RunIn(more[q], k);
        }
      }
    }
  }

  lemma InOrder(order: seq<nat>, n: nat)
    requires Schedule(order, n)
    ensures |order| == n && forall j :: 0 <= j < n ==> order[j] < n
  {
  }

  lemma TurnServed(rounds: seq<seq<Ran>>, remaining: seq<Task>, tasks: seq<Task>, turns: seq<Turn>, order: seq<nat>, k: Key)
    requires |turns| <= |tasks| && Schedule(order, |turns|) && TurnLeaves(remaining, tasks, turns) && Served(rounds, tasks, k)
    ensures Served(rounds + [Picked(Runs(tasks, turns), order)], remaining, k)
  {
    hide TurnLeaves; hide Schedule; hide Queued; hide RunIn;
    InOrder(order, |turns|);
    var round := Picked(Runs(tasks, turns), order);
    var more := rounds + [round];
    if Queued(tasks, k) {
      TurnServes(remaining, tasks, turns, order, k);
      assert RunIn(round, k) ==> RunIn(more[|rounds|], k);
    } else {
      var r :| 0 <= r < |rounds| && RunIn(rounds[r], k);
      assert RunIn(more[r], k);
    }
  }

  /** The last run of a key is done with. */
  ghost predicate LastRunsDone(rounds: seq<seq<Ran>>) {
    forall r, i :: 0 <= r < |rounds| && 0 <= i < |rounds[r]| ==>
      (forall q :: r < q < |rounds| ==> !RunIn(rounds[q], rounds[r][i].task.key)) ==> Done(rounds[r][i].turn, Answers(rounds[r]))
  }

  lemma NoneLeft(rounds: seq<seq<Ran>>, k: Key)
    requires AllFollowed(rounds, [])
    ensures LastRunsDone(rounds) && (Served(rounds, [], k) ==> exists r :: 0 <= r < |rounds| && RunIn(rounds[r], k))
  {
    hide Done;
    forall r, i | 0 <= r < |rounds| && 0 <= i < |rounds[r]| && forall q :: r < q < |rounds| ==> !RunIn(rounds[q], rounds[r][i].task.key)
      ensures Done(rounds[r][i].turn, Answers(rounds[r]))
    {
      assert Followed(rounds, [], r, i);
    }
  }

  /**
   Draining ends: with engines whose progress takes from the work left, turns repeated until the queue is
   empty number at most the work and the tasks there were. Every queued key has been run, and no merge
   was abandoned: each key's last run asked for no more, or merged nothing and was not put off by a turn
   in which something merged.
   */
  method Drain<S(!new)>(e: Engines<S>, tasks: seq<Task>, limit: int, schedule: (nat, nat) -> seq<nat>, ghost work: S -> nat)
    returns (queue: seq<Task>, turnsRun: nat, ghost rounds: seq<seq<Ran>>)
    requires Shrinks(e.merge, work) && forall t, n :: Schedule(schedule(t, n), n)
    modifies e
    ensures queue == [] && turnsRun == |rounds| && turnsRun + work(e.state) <= work(old(e.state)) + |tasks|
    ensures e.log == old(e.log) + Flatten(rounds) && LastRunsDone(rounds)
    ensures forall k :: Queued(tasks, k) ==> exists r :: 0 <= r < |rounds| && RunIn(rounds[r], k)
  {
    hide Outcomes; hide Shrinks; hide Picked; hide AfterTurn; hide Queued; hide Progressed; hide TurnLeaves; hide AllFollowed; hide Served; hide RunIn; hide Flatten; hide LastRunsDone; hide Runs;
    queue, turnsRun, rounds := tasks, 0, [];
    ghost var before := e.log;
    NoRounds(tasks);
    assert before + [] == before;
    while queue != []
      invariant turnsRun == |rounds| && turnsRun + work(e.state) + |queue| <= work(old(e.state)) + |tasks|
      invariant e.log == before + Flatten(rounds) && AllFollowed(rounds, queue)
      invariant forall k :: Queued(tasks, k) ==> Served(rounds, queue, k)
      decreases work(e.state), |queue|
    {
      var order := schedule(turnsRun, RunCount(queue, limit));
      ghost var was, state := queue, e.state;
      var turns: seq<Turn>;
      queue, turns := RunMergeTasks(e, queue, limit, order);
      ghost var round := Picked(Runs(was, turns), order);
      OutcomesShrink(e.merge, work, state, Picked(was, order));
      ScheduledProgress(turns, Outcomes(e.merge, state, Picked(was, order)).1, order);
      TurnShrinks(queue, was, turns);
      TurnFollows(rounds, queue, was, turns, order);
      forall k | Queued(tasks, k) ensures Served(rounds + [round], queue, k) {
        TurnServed(rounds, queue, was, turns, order, k);
      }
      FlattenSnoc(rounds, round);
      assert before + (Flatten(rounds) + round) == before + Flatten(rounds) + round;
      rounds := rounds + [round];
      turnsRun := turnsRun + 1;
    }
    forall k | Queued(tasks, k) ensures exists r :: 0 <= r < |rounds| && RunIn(rounds[r], k) {
      NoneLeft(rounds, k);
    }
    NoneLeft(rounds, 0);
  }

  lemma NoRounds(tasks: seq<Task>)
    ensures AllFollowed([], tasks) && Flatten<Ran>([]) == [] && forall k :: Queued(tasks, k) ==> Served([], tasks, k)
  {
  }

  // ------------------------------------------------------------ refreshing the queue

  function Keys(tasks: seq<Task>): seq<Key> { seq(|tasks|, i requires 0 <= i < |tasks| => tasks[i].key) }

  /** The first occurrence of each allowed key, in order. */
  function Firsts(keys: seq<Key>, allowed: set<Key>): seq<Key> {
    if keys == [] then []
    else
      var f, k := Firsts(keys[..|keys| - 1], allowed), keys[|keys| - 1];
      if k in allowed && k !in f then f + [k] else f
  }

  lemma {:induction false} FirstsHolds(keys: seq<Key>, allowed: set<Key>, k: Key)
    ensures k in Firsts(keys, allowed) <==> k in allowed && k in keys
  {
    if keys != [] {
      FirstsHolds(keys[..|keys| - 1], allowed, k);
      assert k in keys <==> k in keys[..|keys| - 1] || k == keys[|keys| - 1];
    }
  }

  ghost predicate NoRepeats(keys: seq<Key>) { forall i, j :: 0 <= i < j < |keys| ==> keys[i] != keys[j] }

  lemma {:induction false} FirstsDistinct(keys: seq<Key>, allowed: set<Key>)
    ensures NoRepeats(Firsts(keys, allowed))
  {
    if keys != [] {
      FirstsDistinct(keys[..|keys| - 1], allowed);
    }
  }

  function KeySet(tasks: seq<Task>): set<Key> { set i | 0 <= i < |tasks| :: tasks[i].key }

  /** The refreshed queue's keys: pending ones that are still due, in their order, then the new ones. */
  function RefreshedKeys(pending: seq<Task>, due: seq<Task>): seq<Key> {
    Firsts(Keys(pending), KeySet(due)) + Firsts(Keys(due), KeySet(due) - KeySet(pending))
  }

  /** Every due key exactly once. */
  lemma RefreshedOnce(pending: seq<Task>, due: seq<Task>, k: Key)
    ensures NoRepeats(RefreshedKeys(pending, due)) && (k in RefreshedKeys(pending, due) <==> k in KeySet(due))
  {
    var a, b := Firsts(Keys(pending), KeySet(due)), Firsts(Keys(due), KeySet(due) - KeySet(pending));
    FirstsDistinct(Keys(pending), KeySet(due));
    FirstsDistinct(Keys(due), KeySet(due) - KeySet(pending));
    forall i, j | 0 <= i < |a| && 0 <= j < |b| ensures a[i] != b[j] {
      FirstsHolds(Keys(pending), KeySet(due), a[i]);
      FirstsHolds(Keys(due), KeySet(due) - KeySet(pending), b[j]);
      assert a[i] in a && b[j] in b;
      KeysAreSet(pending, a[i]);
    }
    FirstsHolds(Keys(pending), KeySet(due), k);
    FirstsHolds(Keys(due), KeySet(due) - KeySet(pending), k);
    KeysAreSet(pending, k);
    KeysAreSet(due, k);
  }

  /** Where a key first stands, past the end when it does not. */
  function FirstIndex(keys: seq<Key>, k: Key): (i: nat)
    ensures i <= |keys| && (i < |keys| ==> keys[i] == k) && (forall j :: 0 <= j < i ==> keys[j] != k)
  {
    if keys == [] then 0 else if keys[0] == k then 0 else FirstIndex(keys[1..], k) + 1
  }

  lemma FirstIndexIs(keys: seq<Key>, k: Key, i: nat)
    requires i < |keys| && keys[i] == k && forall j :: 0 <= j < i ==> keys[j] != k
    ensures FirstIndex(keys, k) == i
  {
  }

  /** First occurrences come in the order they first occur. */
  lemma {:induction false} FirstsOrdered(keys: seq<Key>, allowed: set<Key>, i: nat, j: nat)
    requires i < j < |Firsts(keys, allowed)|
    ensures FirstIndex(keys, Firsts(keys, allowed)[i]) < FirstIndex(keys, Firsts(keys, allowed)[j])
  {
    var n := |keys| - 1;
    var front, k := keys[..n], keys[n];
    var f := Firsts(front, allowed);
    FirstsKept(keys, allowed, i);
    if j < |f| {
      FirstsOrdered(front, allowed, i, j);
      FirstsKept(keys, allowed, j);
    } else {
      FirstsHolds(front, allowed, k);
      FirstIndexIs(keys, k, n);
    }
  }

  lemma FirstsKept(keys: seq<Key>, allowed: set<Key>, i: nat)
    requires keys != [] && i < |Firsts(keys[..|keys| - 1], allowed)|
    ensures var front := keys[..|keys| - 1];
            FirstIndex(keys, Firsts(front, allowed)[i]) == FirstIndex(front, Firsts(front, allowed)[i]) < |front|
  {
    var front := keys[..|keys| - 1];
    var x := Firsts(front, allowed)[i];
    FirstsHolds(front, allowed, x);
    assert x in Firsts(front, allowed);
    var p := FirstIndex(front, x);
    FirstIndexIs(keys, x, p);
  }

  /** a stands ahead of b: pending before new, and within each in the order they first came. */
  ghost predicate Ahead(pending: seq<Task>, due: seq<Task>, a: Key, b: Key) {
    if a in KeySet(pending) then b in KeySet(pending) ==> FirstIndex(Keys(pending), a) < FirstIndex(Keys(pending), b)
    else b !in KeySet(pending) && FirstIndex(Keys(due), a) < FirstIndex(Keys(due), b)
  }

  /** The refreshed queue keeps the pending order ahead, then the order tasks became due in. */
  lemma RefreshedOrder(pending: seq<Task>, due: seq<Task>, i: nat, j: nat)
    requires i < j < |RefreshedKeys(pending, due)|
    ensures Ahead(pending, due, RefreshedKeys(pending, due)[i], RefreshedKeys(pending, due)[j])
  {
    hide Firsts; hide KeySet;
    var a, b := Firsts(Keys(pending), KeySet(due)), Firsts(Keys(due), KeySet(due) - KeySet(pending));
    var x, y := RefreshedKeys(pending, due)[i], RefreshedKeys(pending, due)[j];
    FirstsHolds(Keys(pending), KeySet(due), x);
    FirstsHolds(Keys(pending), KeySet(due), y);
    FirstsHolds(Keys(due), KeySet(due) - KeySet(pending), x);
    FirstsHolds(Keys(due), KeySet(due) - KeySet(pending), y);
    KeysAreSet(pending, x);
    KeysAreSet(pending, y);
    if j < |a| {
      assert x in a && y in a;
      FirstsOrdered(Keys(pending), KeySet(due), i, j);
    } else if i < |a| {
      assert x == a[i] && x in a && y == b[j - |a|] && y in b;
    } else {
      assert x == b[i - |a|] && x in b && y == b[j - |a|] && y in b;
      FirstsOrdered(Keys(due), KeySet(due) - KeySet(pending), i - |a|, j - |a|);
    }
  }

  lemma KeysAreSet(tasks: seq<Task>, k: Key)
    ensures k in Keys(tasks) <==> k in KeySet(tasks)
  {
    if k in Keys(tasks) {
      var i :| 0 <= i < |tasks| && Keys(tasks)[i] == k;
      assert tasks[i].key == k;
    }
    if k in KeySet(tasks) {
      var i :| 0 <= i < |tasks| && tasks[i].key == k;
      assert Keys(tasks)[i] == k;
    }
  }

  /** Fresh tasks by key: each under its own, all of them due. */
  ghost predicate ByKey(m: map<Key, Task>, due: seq<Task>) {
    forall k :: k in m ==> m[k].key == k && m[k] in due
  }

  method IndexTasks(due: seq<Task>) returns (m: map<Key, Task>)
    ensures m.Keys == KeySet(due) && ByKey(m, due)
  {
    m := map[];
    for i := 0 to |due|
      invariant m.Keys == KeySet(due[..i]) && ByKey(m, due)
    {
      KeySetSnoc(due, i);
      m := m[due[i].key := due[i]];
    }
    assert due[..|due|] == due;
  }

  /** The pending tasks still due, as they are due now, and what is then left. */
  method TakePending(pending: seq<Task>, due: seq<Task>, byKey: map<Key, Task>) returns (queue: seq<Task>, left: map<Key, Task>)
    requires byKey.Keys == KeySet(due) && ByKey(byKey, due)
    ensures Keys(queue) == Firsts(Keys(pending), KeySet(due)) && AllDue(queue, due)
    ensures left.Keys == KeySet(due) - KeySet(pending)
  {
    hide Firsts; hide KeySet; hide ByKey; hide AllDue; hide SetOf;
    queue, left := [], byKey;
    ghost var all := KeySet(due);
    FirstsNil(all);
    NoneTaken(due);
    for i := 0 to |pending|
      invariant left.Keys == all - SetOf(Firsts(Keys(pending)[..i], all)) && ByKey(left, due)
      invariant Keys(queue) == Firsts(Keys(pending)[..i], all) && AllDue(queue, due)
    {
      var k := pending[i].key;
      FirstsSnoc(Keys(pending), i, all);
      if k in left {
        TakeOne(left, due, queue, k);
        SetSnoc(Firsts(Keys(pending)[..i], all), k);
        queue := queue + [left[k]];
        left := left - {k};
      }
    }
    assert Keys(pending)[..|pending|] == Keys(pending);
    LeftOver(pending, due);
  }

  lemma TakeOne(left: map<Key, Task>, due: seq<Task>, queue: seq<Task>, k: Key)
    requires ByKey(left, due) && AllDue(queue, due) && k in left
    ensures ByKey(left - {k}, due) && AllDue(queue + [left[k]], due) && Keys(queue + [left[k]]) == Keys(queue) + [k]
  {
    KeysSnoc(queue, left[k]);
  }

  lemma NoneTaken(due: seq<Task>)
    ensures AllDue([], due) && Keys([]) == []
  {
  }

  ghost predicate AllDue(queue: seq<Task>, due: seq<Task>) { forall i :: 0 <= i < |queue| ==> queue[i] in due }

  /** The tasks newly due, each key once. */
  method TakeNew(due: seq<Task>, byKey: map<Key, Task>) returns (queue: seq<Task>)
    ensures Keys(queue) == Firsts(Keys(due), byKey.Keys) && AllDue(queue, due)
  {
    hide Firsts;
    queue := [];
    var left := byKey;
    ghost var all := byKey.Keys;
    FirstsNil(all);
    for i := 0 to |due|
      invariant left.Keys == all - SetOf(Firsts(Keys(due)[..i], all))
      invariant Keys(queue) == Firsts(Keys(due)[..i], all) && AllDue(queue, due)
    {
      var k := due[i].key;
      FirstsSnoc(Keys(due), i, all);
      if k in left {
        KeysSnoc(queue, due[i]);
        SetSnoc(Firsts(Keys(due)[..i], all), k);
        queue := queue + [due[i]];
        left := left - {k};
      }
    }
    assert Keys(due)[..|due|] == Keys(due);
  }

  method RefreshMergeTasks(pending: seq<Task>, due: seq<Task>) returns (queue: seq<Task>)
    ensures Keys(queue) == RefreshedKeys(pending, due)
    ensures forall i :: 0 <= i < |queue| ==> queue[i] in due
  {
    hide Firsts; hide KeySet;
    var byKey := IndexTasks(due);
    var kept, left := TakePending(pending, due, byKey);
    var more := TakeNew(due, left);
    queue := kept + more;
    assert Keys(queue) == Keys(kept) + Keys(more);
  }

  function SetOf(keys: seq<Key>): set<Key> { set i | 0 <= i < |keys| :: keys[i] }

  lemma SetSnoc(keys: seq<Key>, k: Key)
    ensures SetOf(keys + [k]) == SetOf(keys) + {k}
  {
    var a := keys + [k];
    forall x ensures x in SetOf(a) <==> x in SetOf(keys) + {k} {
      if x in SetOf(keys) {
        var i :| 0 <= i < |keys| && keys[i] == x;
        assert a[i] == x;
      }
      if x == k {
        assert a[|keys|] == k;
      }
    }
  }

  lemma KeySetSnoc(tasks: seq<Task>, i: nat)
    requires i < |tasks|
    ensures KeySet(tasks[..i + 1]) == KeySet(tasks[..i]) + {tasks[i].key}
  {
    var a, b := tasks[..i + 1], tasks[..i];
    forall x ensures x in KeySet(a) <==> x in KeySet(b) + {tasks[i].key} {
      if x in KeySet(b) {
        var j :| 0 <= j < i && b[j].key == x;
        assert a[j].key == x;
      }
      if x == tasks[i].key {
        assert a[i].key == x;
      }
    }
  }

  lemma KeysSnoc(tasks: seq<Task>, t: Task)
    ensures Keys(tasks + [t]) == Keys(tasks) + [t.key]
  {
  }

  lemma FirstsNil(allowed: set<Key>)
    ensures Firsts([], allowed) == [] && SetOf([]) == {}
  {
  }

  lemma FirstsSnoc(keys: seq<Key>, i: nat, allowed: set<Key>)
    requires i < |keys|
    ensures var f := Firsts(keys[..i], allowed);
            && Firsts(keys[..i + 1], allowed) == (if keys[i] in allowed && keys[i] !in f then f + [keys[i]] else f)
            && (keys[i] in f <==> keys[i] in SetOf(f))
  {
    assert keys[..i + 1][..i] == keys[..i];
    var f := Firsts(keys[..i], allowed);
    if keys[i] in f {
      var j :| 0 <= j < |f| && f[j] == keys[i];
    }
  }

  lemma LeftOver(pending: seq<Task>, due: seq<Task>)
    ensures KeySet(due) - SetOf(Firsts(Keys(pending), KeySet(due))) == KeySet(due) - KeySet(pending)
  {
    var f := Firsts(Keys(pending), KeySet(due));
    forall x | x in KeySet(due) ensures x in SetOf(f) <==> x in KeySet(pending) {
      FirstsHolds(Keys(pending), KeySet(due), x);
      KeysAreSet(pending, x);
      if x in f {
        var j :| 0 <= j < |f| && f[j] == x;
      }
    }
  }
}
