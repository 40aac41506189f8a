/**
 Frames fetched from a column's object as a walk needs them: one at a time, or read ahead a window of
 whole frames at a time.
 */
module FrameSource {
  import opened Wire
  import opened Chunking

  /** A frame table: where each frame starts, and where the last one ends. */
  ghost predicate Table(off: seq<nat>, size: nat) {
    && |off| > 0 && off[0] == 0 && off[|off| - 1] == size
    && forall i, j :: 0 <= i <= j < |off| ==> off[i] <= off[j]
  }

  /** A fetch of the data region, as a span of it. */
  datatype Fetch = Fetch(lo: nat, hi: nat)

  /** The buffer holds whole frames, no more of them than the window allows, one frame aside. */
  ghost predicate WholeFrames(off: seq<nat>, window: nat, lo: nat, hi: nat) {
    exists f, g :: 0 <= f < g < |off| && Run(off, window, lo, hi, f, g)
  }

  ghost predicate Run(off: seq<nat>, window: nat, lo: nat, hi: nat, f: nat, g: nat)
    requires f < g < |off|
  {
    off[f] == lo && off[g] == hi && (hi - lo <= window || g == f + 1)
  }

  /** The run of frames a refill at frame f reads ahead: the longest that fits the window, and f at least. */
  function RunEnd(off: seq<nat>, window: nat, f: nat, j: nat): (g: nat)
    requires f < j < |off|
    ensures j <= g < |off|
    ensures g > j ==> off[g] - off[f] <= window
    ensures g + 1 < |off| ==> off[g + 1] - off[f] > window
    decreases |off| - j
  {
    if j + 1 < |off| && off[j + 1] - off[f] <= window then RunEnd(off, window, f, j + 1) else j
  }

  lemma RunIsWhole(off: seq<nat>, size: nat, window: nat, f: nat)
    requires Table(off, size) && f + 1 < |off|
    ensures var g := RunEnd(off, window, f, f + 1);
            off[f] <= off[f + 1] <= off[g] <= size && WholeFrames(off, window, off[f], off[g])
  {
    var g := RunEnd(off, window, f, f + 1);
    assert Run(off, window, off[f], off[g], f, g);
  }

  lemma TableStep(off: seq<nat>, size: nat, f: nat)
    requires Table(off, size) && f + 1 < |off|
    ensures off[f] <= off[f + 1] <= size
  {
  }

  /** b is frame f as it lies in the data region. */
  ghost predicate FrameIs(data: Bytes, off: seq<nat>, f: nat, b: Bytes)
    requires f + 1 < |off|
  {
    off[f] <= off[f + 1] <= |data| && b == data[off[f]..off[f + 1]]
  }

  const MAX_POOLED := 4 * 1024 * 1024

  /** The first of p, 2p, 4p, ... to reach n. */
  function Doubled(p: nat, n: nat): (r: nat)
    requires p > 0
    ensures r >= n
    decreases n - p
  {
    if p >= n then p else Doubled(2 * p, n)
  }

  /** The buffer a reader is given for n bytes: a pooled power of two within the limit, else just that much. */
  function RoomFor(n: nat, limit: nat): (r: nat)
    ensures r >= n && (n <= limit ==> r <= limit)
  {
    var r := Doubled(1, n);
    if n == 0 || r > limit || r > MAX_POOLED then n else r
  }

  /** A buffer no larger than the data, and no larger than the window unless one frame is. */
  ghost predicate RoomOk(off: seq<nat>, window: nat, size: nat, room: nat) {
    room <= size && (room <= window || exists f :: 0 <= f < |off| - 1 && room <= FrameLen(off, f))
  }

  function FrameLen(off: seq<nat>, f: nat): int
    requires f < |off| - 1
  {
    var lo: int, hi: int := off[f], off[f + 1];
    hi - lo
  }

  lemma RoomFits(off: seq<nat>, size: nat, window: nat, f: nat)
    requires Table(off, size) && f + 1 < |off|
    ensures var n := off[RunEnd(off, window, f, f + 1)] - off[f];
            && 0 <= n <= Min(Max(window, n), size)
            && forall room: nat :: room <= Min(Max(window, n), size) ==> RoomOk(off, window, size, room)
  {
    var g := RunEnd(off, window, f, f + 1);
    assert off[f] <= off[g] <= size;
    assert g == f + 1 ==> FrameLen(off, f) == off[g] - off[f];
  }

  /** Where the longest run of whole frames from f that fits the window ends. */
  method RunFrom(off: seq<nat>, window: nat, f: nat) returns (end: nat)
    requires f + 1 < |off|
    ensures end == off[RunEnd(off, window, f, f + 1)]
  {
    end := off[f + 1];
    var j: nat := f + 1;
    while j < |off| - 1
      invariant f < j < |off| && end == off[j]
      invariant RunEnd(off, window, f, f + 1) == RunEnd(off, window, f, j)
      decreases |off| - j
    {
      var next := off[j + 1];
      if next - off[f] > window {
        break;
      }
      end := next;
      j := j + 1;
    }
  }

  class Source {
    const data: Bytes
    const off: seq<nat>
    const window: nat
    const reader: bool
    var ahead: Bytes
    /** How much the buffer behind ahead can hold. */
    var room: nat
    var lo: nat
    var hi: nat
    var closed: bool
    ghost var log: seq<Fetch>

    ghost predicate Valid()
      reads this
    {
      && Table(off, |data|) && lo <= hi <= |data|
      && (lo < hi ==> ahead == data[lo..hi] && WholeFrames(off, window, lo, hi))
      && |ahead| <= room && RoomOk(off, window, |data|, room)
    }

    constructor (data: Bytes, off: seq<nat>, window: nat, reader: bool)
      requires Table(off, |data|)
      ensures Valid() && this.data == data && this.off == off && this.window == window && this.reader == reader
      ensures lo == hi == 0 && !closed && log == []
    {
      this.data, this.off, this.window, this.reader := data, off, window, reader;
      ahead, room, lo, hi, closed, log := [], 0, 0, 0, false, [];
    }

    /**
     A read of the data region: up says whether the backend answers, left what a failed read into a
     reader's buffer leaves there.
     */
    method Fill(f: nat, up: bool, left: Bytes) returns (r: Result<()>)
      requires Valid() && f + 1 < |off| && |left| <= off[RunEnd(off, window, f, f + 1)] - off[f]
      modifies this
      ensures Valid() && closed == old(closed)
      ensures r.Ok? == up
      ensures up ==> lo == off[f] && hi == off[RunEnd(off, window, f, f + 1)] && log == old(log) + [Fetch(lo, hi)]
      ensures up ==> ahead == data[lo..hi]
      ensures !up ==> lo == hi == 0 && log == old(log)
    {
      hide Table; hide WholeFrames; hide RoomOk;
      var end := RunFrom(off, window, f);
      RunIsWhole(off, |data|, window, f);
      RoomFits(off, |data|, window, f);
      var n := end - off[f];
      lo, hi := 0, 0;
      if reader {
        if room < n {
          room := RoomFor(n, Min(Max(window, n), |data|));
        }
      } else {
        room := n;
      }
      if !up {
        ahead := if reader then left else [];
        return Err;
      }
      ahead, lo, hi := data[off[f]..end], off[f], end;
      log := log + [Fetch(lo, hi)];
      r := Ok(());
    }

    /** Frame f's bytes: from the buffered run when it covers them, else from a refill that starts at f. */
    method ReadAhead(f: nat, up: bool, left: Bytes) returns (r: Result<Bytes>)
      requires Valid() && f + 1 < |off| && |left| <= off[RunEnd(off, window, f, f + 1)] - off[f]
      modifies this
      ensures Valid() && closed == old(closed)
      ensures r.Ok? ==> FrameIs(data, off, f, r.value)
      ensures Covers(old(lo), old(hi), off[f], off[f + 1]) ==> lo == old(lo) && hi == old(hi) && ahead == old(ahead) && log == old(log)
      ensures !closed && Covers(old(lo), old(hi), off[f], off[f + 1]) ==> r.Ok?
      ensures !closed && !Covers(old(lo), old(hi), off[f], off[f + 1]) ==>
                && r.Ok? == up
                && (up ==> lo == off[f] && hi == off[RunEnd(off, window, f, f + 1)] && log == old(log) + [Fetch(lo, hi)])
    {
      hide Table; hide WholeFrames; hide RunEnd; hide RoomOk;
      TableStep(off, |data|, f);
      RunIsWhole(off, |data|, window, f);
      if closed {
        return Err;
      }
      var from, n := off[f], off[f + 1] - off[f];
      if from < lo || from + n > hi {
        var filled := Fill(f, up, left);
        if filled.Err? {
          return Err;
        }
      }
      if n == 0 {
        r := Ok([]);
      } else {
        SliceSlice(data, lo, hi, from - lo, from - lo + n);
        r := Ok(ahead[from - lo..from - lo + n]);
      }
    }
  }

  predicate Covers(lo: nat, hi: nat, from: nat, end: nat) { lo <= from && end <= hi }

  /** Fetches that follow one another from the start of the data and have reached hi. */
  ghost predicate Contiguous(log: seq<Fetch>, hi: nat) {
    && (log == [] ==> hi == 0)
    && (log != [] ==> log[0].lo == 0 && log[|log| - 1].hi == hi)
    && (forall i :: 0 <= i < |log| ==> log[i].lo <= log[i].hi)
    && (forall i :: 0 < i < |log| ==> log[i - 1].hi == log[i].lo)
  }

  lemma ContiguousOn(log: seq<Fetch>, hi: nat, f: Fetch)
    requires Contiguous(log, hi) && f.lo == hi && f.lo <= f.hi
    ensures Contiguous(log + [f], f.hi)
  {
  }

  /** Every byte of the region falls in exactly one of the fetches that partition it. */
  lemma {:induction false} FetchedOnce(log: seq<Fetch>, hi: nat, p: nat) returns (i: nat)
    requires Contiguous(log, hi) && p < hi
    ensures i < |log| && log[i].lo <= p < log[i].hi
    ensures forall j :: 0 <= j < |log| && j != i ==> !(log[j].lo <= p < log[j].hi)
  {
    var n := |log| - 1;
    if log[n].lo <= p {
      i := n;
      forall j | 0 <= j < n ensures log[j].hi <= log[n].lo {
        Ordered(log, hi, j, n);
      }
    } else {
      assert n > 0;
      assert Contiguous(log[..n], log[n].lo);
      i := FetchedOnce(log[..n], log[n].lo, p);
      assert forall j :: 0 <= j < n ==> log[..n][j] == log[j];
    }
  }

  lemma {:induction false} Ordered(log: seq<Fetch>, hi: nat, a: nat, b: nat)
    requires Contiguous(log, hi) && a < b < |log|
    ensures log[a].hi <= log[b].lo
    decreases b
  {
    assert log[b - 1].hi == log[b].lo;
    if a < b - 1 {
      Ordered(log, hi, a, b - 1);
    }
  }

  lemma TableEnds(off: seq<nat>, size: nat)
    requires Table(off, size)
    ensures |off| > 0 && off[0] == 0 && off[|off| - 1] == size && FrameEdge(off, 0)
  {
  }

  lemma NothingFetched()
    ensures Contiguous([], 0)
  {
  }

  ghost predicate FrameEdge(off: seq<nat>, p: nat) { exists g :: 0 <= g < |off| && off[g] == p }

  lemma EdgeWithin(off: seq<nat>, size: nat, p: nat, f: nat)
    requires Table(off, size) && FrameEdge(off, p) && f + 1 < |off| && off[f] <= p < off[f + 1]
    ensures p == off[f]
  {
    var g :| 0 <= g < |off| && off[g] == p;
    assert g <= f;
  }

  /**
   A forward walk over every frame: each comes back as it lies in the object, and the requests made
   cover the data region end to end, no byte fetched twice.
   */
  method Walk(s: Source) returns (frames: seq<Bytes>)
    requires s.Valid() && !s.closed && s.lo == s.hi == 0 && s.log == []
    modifies s
    ensures |frames| == |s.off| - 1
    ensures forall f :: 0 <= f < |frames| ==> FrameIs(s.data, s.off, f, frames[f])
    ensures Contiguous(s.log, |s.data|)
  {
    hide Table; hide WholeFrames; hide RunEnd; hide FrameIs; hide Contiguous; hide RoomOk;
    frames := [];
    TableEnds(s.off, |s.data|);
    NothingFetched();
    for f := 0 to |s.off| - 1
      invariant s.Valid() && !s.closed && s.lo <= s.off[f] <= s.hi && |frames| == f
      invariant forall k :: 0 <= k < f ==> FrameIs(s.data, s.off, k, frames[k])
      invariant Contiguous(s.log, s.hi)
      invariant FrameEdge(s.off, s.hi)
    {
      TableStep(s.off, |s.data|, f);
      RunIsWhole(s.off, |s.data|, s.window, f);
      ghost var log0, lo0, hi0 := s.log, s.lo, s.hi;
      if s.hi < s.off[f + 1] {
        EdgeWithin(s.off, |s.data|, s.hi, f);
      }
      var b := s.ReadAhead(f, true, []);
      if !Covers(lo0, hi0, s.off[f], s.off[f + 1]) {
        ContiguousOn(log0, hi0, Fetch(s.lo, s.hi));
      }
      frames := frames + [b.value];
    }
  }
}
