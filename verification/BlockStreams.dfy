/**
 A decode walk's view of a blocked column: granule streams sliced out of decompressed frames, with the
 last frame kept in one reused buffer.
 */
module BlockStreams {
  import opened Wire

  /** A byte span of a buffer. */
  datatype Slice = Slice(lo: nat, hi: nat)

  function Cut(b: Bytes, s: Slice): Bytes {
    if s.lo <= s.hi <= |b| then b[s.lo..s.hi] else []
  }

  /**
   What loading a frame comes to: it cannot be read or fails its checksum; its decompression fails,
   having left bytes in the buffer it was given; or it holds these bytes.
   */
  datatype FrameRead = Unreadable | Broken(left: Bytes) | Frame(bytes: Bytes)

  /**
   Where each granule's stream lies: its frame and its span there, or, when every granule has a frame
   of its own, that whole frame.
   */
  datatype GranuleDir =
    | Packed(gFrame: seq<nat>, gSpan: seq<Slice>)
    | OnePerFrame(granules: nat)
  {
    predicate Wf(frames: nat) {
      match this
      case Packed(gFrame, gSpan) =>
        && |gFrame| == |gSpan|
        && (forall g :: 0 <= g < |gFrame| ==> gFrame[g] < frames)
        && (forall g :: 0 <= g < |gSpan| ==> gSpan[g].lo <= gSpan[g].hi)
      case OnePerFrame(n) => n <= frames
    }

    function Granules(): nat { if Packed? then |gFrame| else granules }

    function FrameOf(g: nat): nat
      requires g < Granules()
    {
      if Packed? then gFrame[g] else g
    }

    /** Granule g's span within its decompressed frame. */
    function Span(g: nat, frame: Bytes): Slice
      requires g < Granules() && (Packed? ==> |gSpan| == |gFrame|)
    {
      if Packed? then gSpan[g] else Slice(0, |frame|)
    }
  }

  /** Granule g's stream, read afresh. */
  function GranuleStream(dir: GranuleDir, frames: seq<FrameRead>, g: nat): Result<Bytes>
    requires dir.Wf(|frames|) && g < dir.Granules()
  {
    match frames[dir.FrameOf(g)]
    case Frame(b) => if dir.Span(g, b).hi <= |b| then Ok(Cut(b, dir.Span(g, b))) else Err
    case _ => Err
  }

  /** The kept frame: its label, -1 for none, and the buffer's bytes. */
  datatype Cache = Cache(frame: int, bytes: Bytes) {
    /** The buffer holds the frame it is labelled with. */
    ghost predicate Coherent(frames: seq<FrameRead>) {
      -1 <= frame < |frames| && (frame >= 0 ==> frames[frame] == Frame(bytes))
    }
  }

  /** The kept frame once granule g's frame has been asked for, and whether that frame is served. */
  function Load(frames: seq<FrameRead>, c: Cache, f: nat): (Cache, bool)
    requires f < |frames|
  {
    if f == c.frame then (c, true)
    else
      match frames[f]
      case Unreadable => (c, false)
      case Broken(left) => (c.(bytes := left), false)
      case Frame(b) => (Cache(f, b), true)
  }

  /** Granule g's stream as a span of the buffer. */
  function Serve(dir: GranuleDir, frames: seq<FrameRead>, c: Cache, g: nat): (r: (Cache, Result<Slice>))
    requires dir.Wf(|frames|) && g < dir.Granules()
    ensures r.1.Ok? ==> r.1.value.lo <= r.1.value.hi <= |r.0.bytes|
  {
    var (c', served) := Load(frames, c, dir.FrameOf(g));
    var s := dir.Span(g, c'.bytes);
    (c', if served && s.hi <= |c'.bytes| then Ok(s) else Err)
  }

  /** From a coherent state a granule is served exactly as a fresh read would give it. */
  lemma ServesFresh(dir: GranuleDir, frames: seq<FrameRead>, c: Cache, g: nat)
    requires dir.Wf(|frames|) && g < dir.Granules() && c.Coherent(frames)
    ensures var (c', r) := Serve(dir, frames, c, g);
            match GranuleStream(dir, frames, g)
            case Ok(stream) => r.Ok? && Cut(c'.bytes, r.value) == stream && c'.Coherent(frames)
            case Err => r.Err?
  {
  }

  /**
   Serving a granule keeps the state coherent exactly when its frame did not break off halfway while
   another frame's label stood: that label then names bytes that are gone.
   */
  lemma ServeKeepsCoherent(dir: GranuleDir, frames: seq<FrameRead>, c: Cache, g: nat)
    requires dir.Wf(|frames|) && g < dir.Granules() && c.Coherent(frames)
    ensures Serve(dir, frames, c, g).0.Coherent(frames)
       <==> (frames[dir.FrameOf(g)].Broken? ==> c.frame < 0 || frames[c.frame] == Frame(frames[dir.FrameOf(g)].left))
  {
  }

  /** The kept frame after a walk. */
  function After(dir: GranuleDir, frames: seq<FrameRead>, c: Cache, gs: seq<nat>): Cache
    requires dir.Wf(|frames|) && forall k :: 0 <= k < |gs| ==> gs[k] < dir.Granules()
  {
    if gs == [] then c else Serve(dir, frames, After(dir, frames, c, gs[..|gs| - 1]), gs[|gs| - 1]).0
  }

  const NOTHING := Cache(-1, [])

  /** The frame the walk's k-th granule is in. */
  function Asked(dir: GranuleDir, gs: seq<nat>, k: nat): nat
    requires k < |gs| && gs[k] < dir.Granules()
  {
    dir.FrameOf(gs[k])
  }

  ghost predicate Walks(dir: GranuleDir, frames: seq<FrameRead>, gs: seq<nat>) {
    dir.Wf(|frames|) && forall k :: 0 <= k < |gs| ==> gs[k] < dir.Granules()
  }

  /** The walk's j-th frame is good, and no other good frame has been asked for since. */
  ghost predicate LastGood(dir: GranuleDir, frames: seq<FrameRead>, gs: seq<nat>, j: nat)
    requires Walks(dir, frames, gs) && j < |gs|
  {
    && frames[Asked(dir, gs, j)].Frame?
    && forall m :: j < m < |gs| ==> !frames[Asked(dir, gs, m)].Frame? || Asked(dir, gs, m) == Asked(dir, gs, j)
  }

  /** The walk's k-th frame broke off halfway, and none has since. */
  ghost predicate LastBroken(dir: GranuleDir, frames: seq<FrameRead>, gs: seq<nat>, k: nat)
    requires Walks(dir, frames, gs) && k < |gs|
  {
    frames[Asked(dir, gs, k)].Broken? && forall m :: k < m < |gs| ==> !frames[Asked(dir, gs, m)].Broken?
  }

  /** A frame broke off after the last good one was asked for, leaving other bytes than that one's. */
  ghost predicate Spoiled(dir: GranuleDir, frames: seq<FrameRead>, gs: seq<nat>)
    requires Walks(dir, frames, gs)
  {
    exists j, k :: 0 <= j < k < |gs| && LastGood(dir, frames, gs, j) && LastBroken(dir, frames, gs, k)
                   && frames[Asked(dir, gs, k)].left != frames[Asked(dir, gs, j)].bytes
  }

  /** The label is the last good frame asked for. */
  lemma {:induction false} LabelIsLastGood(dir: GranuleDir, frames: seq<FrameRead>, gs: seq<nat>)
    requires Walks(dir, frames, gs)
    ensures var c := After(dir, frames, NOTHING, gs);
            && -1 <= c.frame < |frames| && (c.frame >= 0 ==> frames[c.frame].Frame?)
            && (forall j :: 0 <= j < |gs| && LastGood(dir, frames, gs, j) ==> c.frame == Asked(dir, gs, j))
            && (c.frame >= 0 ==> exists j :: 0 <= j < |gs| && LastGood(dir, frames, gs, j))
  {
    if gs != [] {
      var n := |gs| - 1;
      var front := gs[..n];
      LabelIsLastGood(dir, frames, front);
      var c := After(dir, frames, NOTHING, front);
      forall j | 0 <= j < n && LastGood(dir, frames, gs, j) ensures LastGood(dir, frames, front, j) {
        LastGoodBefore(dir, frames, gs, j);
      }
      if frames[Asked(dir, gs, n)].Frame? {
        assert LastGood(dir, frames, gs, n);
      } else if c.frame >= 0 {
        var j :| 0 <= j < n && LastGood(dir, frames, front, j);
        LastGoodStays(dir, frames, gs, j);
      }
    }
  }

  /** A last good frame stays the last good one while no other good one is asked for. */
  lemma LastGoodStays(dir: GranuleDir, frames: seq<FrameRead>, gs: seq<nat>, j: nat)
    requires Walks(dir, frames, gs) && gs != [] && j < |gs| - 1 && LastGood(dir, frames, gs[..|gs| - 1], j)
    requires !frames[Asked(dir, gs, |gs| - 1)].Frame? || Asked(dir, gs, |gs| - 1) == Asked(dir, gs, j)
    ensures LastGood(dir, frames, gs, j)
  {
    var front := gs[..|gs| - 1];
    forall m | j < m < |gs| ensures !frames[Asked(dir, gs, m)].Frame? || Asked(dir, gs, m) == Asked(dir, gs, j) {
      if m < |gs| - 1 {
        assert Asked(dir, front, m) == Asked(dir, gs, m);
      }
    }
  }

  /** What holds of a walk's last good and last broken frames holds of the walk without its last step. */
  lemma LastGoodBefore(dir: GranuleDir, frames: seq<FrameRead>, gs: seq<nat>, j: nat)
    requires Walks(dir, frames, gs) && gs != [] && j < |gs| - 1 && LastGood(dir, frames, gs, j)
    ensures LastGood(dir, frames, gs[..|gs| - 1], j)
  {
    var front := gs[..|gs| - 1];
    forall m | j < m < |front| ensures !frames[Asked(dir, front, m)].Frame? || Asked(dir, front, m) == Asked(dir, front, j) {
      assert Asked(dir, front, m) == Asked(dir, gs, m);
    }
  }

  lemma LastBrokenBefore(dir: GranuleDir, frames: seq<FrameRead>, gs: seq<nat>, k: nat)
    requires Walks(dir, frames, gs) && gs != [] && k < |gs| - 1
    ensures LastBroken(dir, frames, gs, k) <==> LastBroken(dir, frames, gs[..|gs| - 1], k) && !frames[Asked(dir, gs, |gs| - 1)].Broken?
  {
    var n := |gs| - 1;
    var front := gs[..n];
    if LastBroken(dir, frames, gs, k) {
      forall m | k < m < n ensures !frames[Asked(dir, front, m)].Broken? {
        assert Asked(dir, front, m) == Asked(dir, gs, m);
      }
    }
    if LastBroken(dir, frames, front, k) && !frames[Asked(dir, gs, n)].Broken? {
      forall m | k < m < |gs| ensures !frames[Asked(dir, gs, m)].Broken? {
        if m < n {
          assert Asked(dir, front, m) == Asked(dir, gs, m);
        }
      }
    }
  }

  /** Spoiled before a frame that neither broke nor is another good one, spoiled after it; and the other way. */
  lemma SpoiledStays(dir: GranuleDir, frames: seq<FrameRead>, gs: seq<nat>)
    requires Walks(dir, frames, gs) && gs != [] && !frames[Asked(dir, gs, |gs| - 1)].Broken?
    requires frames[Asked(dir, gs, |gs| - 1)].Frame? ==> Asked(dir, gs, |gs| - 1) == After(dir, frames, NOTHING, gs[..|gs| - 1]).frame
    ensures Spoiled(dir, frames, gs) <==> Spoiled(dir, frames, gs[..|gs| - 1])
  {
    hide After;
    if Spoiled(dir, frames, gs[..|gs| - 1]) {
      SpoiledAfter(dir, frames, gs);
    }
    if Spoiled(dir, frames, gs) {
      var j, k :| 0 <= j < k < |gs| && LastGood(dir, frames, gs, j) && LastBroken(dir, frames, gs, k)
                  && frames[Asked(dir, gs, k)].left != frames[Asked(dir, gs, j)].bytes;
      hide LastGood;
      assert k != |gs| - 1;
      hide LastBroken;
      LastGoodBefore(dir, frames, gs, j);
      LastBrokenBefore(dir, frames, gs, k);
    }
  }

  lemma SpoiledAfter(dir: GranuleDir, frames: seq<FrameRead>, gs: seq<nat>)
    requires Walks(dir, frames, gs) && gs != [] && !frames[Asked(dir, gs, |gs| - 1)].Broken?
    requires frames[Asked(dir, gs, |gs| - 1)].Frame? ==> Asked(dir, gs, |gs| - 1) == After(dir, frames, NOTHING, gs[..|gs| - 1]).frame
    requires Spoiled(dir, frames, gs[..|gs| - 1])
    ensures Spoiled(dir, frames, gs)
  {
    hide After;
    var n := |gs| - 1;
    var front := gs[..n];
    LabelIsLastGood(dir, frames, front);
    var j, k :| 0 <= j < k < n && LastGood(dir, frames, front, j) && LastBroken(dir, frames, front, k)
                && frames[Asked(dir, front, k)].left != frames[Asked(dir, front, j)].bytes;
    assert Asked(dir, front, j) == Asked(dir, gs, j) && Asked(dir, front, k) == Asked(dir, gs, k);
    LastGoodStays(dir, frames, gs, j);
    LastBrokenBefore(dir, frames, gs, k);
  }

  /**
   After any walk the kept frame is the one its label says, and so the next granule is served fresh, if
   and only if no frame broke off since the last good one was asked for, or what it left is that frame.
   */
  lemma {:induction false} WalkCoherentIff(dir: GranuleDir, frames: seq<FrameRead>, gs: seq<nat>)
    requires Walks(dir, frames, gs)
    ensures After(dir, frames, NOTHING, gs).Coherent(frames) <==> !Spoiled(dir, frames, gs)
  {
    if gs != [] {
      var n := |gs| - 1;
      var front, f := gs[..n], Asked(dir, gs, n);
      WalkCoherentIff(dir, frames, front);
      LabelIsLastGood(dir, frames, front);
      LabelIsLastGood(dir, frames, gs);
      var c := After(dir, frames, NOTHING, front);
      match frames[f]
      case Unreadable => SpoiledStays(dir, frames, gs);
      case Frame(_) =>
        if f == c.frame {
          SpoiledStays(dir, frames, gs);
        } else {
          LoadClears(dir, frames, gs);
        }
      case Broken(left) => BreakSpoils(dir, frames, gs);
    }
  }

  /** Loading another good frame leaves nothing spoiled. */
  lemma LoadClears(dir: GranuleDir, frames: seq<FrameRead>, gs: seq<nat>)
    requires Walks(dir, frames, gs) && gs != [] && frames[Asked(dir, gs, |gs| - 1)].Frame?
    requires Asked(dir, gs, |gs| - 1) != After(dir, frames, NOTHING, gs[..|gs| - 1]).frame
    ensures !Spoiled(dir, frames, gs)
  {
    hide After;
    var n := |gs| - 1;
    var front := gs[..n];
    LabelIsLastGood(dir, frames, front);
    forall j | 0 <= j < n && LastGood(dir, frames, gs, j) ensures LastGood(dir, frames, front, j) {
      LastGoodBefore(dir, frames, gs, j);
    }
  }

  /** A frame that breaks off spoils the walk exactly when a good frame's bytes were there and are gone. */
  lemma BreakSpoils(dir: GranuleDir, frames: seq<FrameRead>, gs: seq<nat>)
    requires Walks(dir, frames, gs) && gs != [] && frames[Asked(dir, gs, |gs| - 1)].Broken?
    ensures var c, left := After(dir, frames, NOTHING, gs[..|gs| - 1]), frames[Asked(dir, gs, |gs| - 1)].left;
            -1 <= c.frame < |frames| && (Spoiled(dir, frames, gs) <==> c.frame >= 0 && frames[c.frame] != Frame(left))
  {
    hide After;
    var n := |gs| - 1;
    var front, left := gs[..n], frames[Asked(dir, gs, n)].left;
    var c := After(dir, frames, NOTHING, front);
    LabelIsLastGood(dir, frames, front);
    assert LastBroken(dir, frames, gs, n);
    if c.frame >= 0 && frames[c.frame] != Frame(left) {
      var j :| 0 <= j < n && LastGood(dir, frames, front, j);
      LastGoodStays(dir, frames, gs, j);
      assert Asked(dir, front, j) == Asked(dir, gs, j) == c.frame;
    }
    if Spoiled(dir, frames, gs) {
      var j, k :| 0 <= j < k < |gs| && LastGood(dir, frames, gs, j) && LastBroken(dir, frames, gs, k)
                  && frames[Asked(dir, gs, k)].left != frames[Asked(dir, gs, j)].bytes;
      assert k == n;
      LastGoodBefore(dir, frames, gs, j);
    }
  }

  /** Each granule of a walk that is not spoiled before it is served as a fresh read gives it. */
  lemma WalkServesFresh(dir: GranuleDir, frames: seq<FrameRead>, gs: seq<nat>, i: nat)
    requires Walks(dir, frames, gs) && i < |gs| && !Spoiled(dir, frames, gs[..i])
    ensures var (c', r) := Serve(dir, frames, After(dir, frames, NOTHING, gs[..i]), gs[i]);
            match GranuleStream(dir, frames, gs[i])
            case Ok(stream) => r.Ok? && Cut(c'.bytes, r.value) == stream
            case Err => r.Err?
  {
    hide After; hide Spoiled;
    WalkCoherentIff(dir, frames, gs[..i]);
    ServesFresh(dir, frames, After(dir, frames, NOTHING, gs[..i]), gs[i]);
  }

  /**
   How the label goes stale: a frame is loaded, the next one breaks off halfway, and the first one's
   granule is then served from what the failed load left behind, with no error.
   */
  lemma StaleLabel()
    ensures var dir, frames := OnePerFrame(2), [Frame([7]), Broken([9])];
            var c1 := Serve(dir, frames, Cache(-1, []), 0).0;
            var c2 := Serve(dir, frames, c1, 1).0;
            var (c3, r) := Serve(dir, frames, c2, 0);
            && GranuleStream(dir, frames, 0) == Ok([7])
            && r.Ok? && Cut(c3.bytes, r.value) == [9]
  {
    var seven: Bytes, nine: Bytes := [7], [9];
    assert Cut(seven, Slice(0, 1)) == seven && Cut(nine, Slice(0, 1)) == nine;
  }

  class Buffer {
    var bytes: Bytes

    constructor ()
      ensures bytes == []
    {
      bytes := [];
    }
  }

  class Streams {
    const dir: GranuleDir
    const frames: seq<FrameRead>
    const buf: Buffer
    var frame: int

    ghost predicate Valid()
      reads this
    {
      dir.Wf(|frames|)
    }

    function State(): Cache
      reads this, buf
    {
      Cache(frame, buf.bytes)
    }

    constructor (dir: GranuleDir, frames: seq<FrameRead>)
      requires dir.Wf(|frames|)
      ensures Valid() && State() == Cache(-1, []) && this.dir == dir && this.frames == frames && fresh(buf)
    {
      this.dir, this.frames, this.frame := dir, frames, -1;
      buf := new Buffer();
    }

    method Granule(g: nat) returns (r: Result<Slice>)
      requires Valid() && g < dir.Granules()
      modifies this, buf
      ensures (State(), r) == Serve(dir, frames, old(State()), g)
    {
      var f := dir.FrameOf(g);
      if f != frame {
        match frames[f]
        case Unreadable =>
          return Err;
        case Broken(left) =>
          buf.bytes := left;
          return Err;
        case Frame(b) =>
          buf.bytes, frame := b, f;
      }
      var s := dir.Span(g, buf.bytes);
      if s.hi > |buf.bytes| {
        return Err;
      }
      r := Ok(s);
    }
  }
}
