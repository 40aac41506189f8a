/**
 A merge as its caller drives it: columns decoded a granule at a time, their granules and tables bound
 to a streaming writer and appended in any order, each while it still lives. Every call is first a step
 on values, in which a granule keeps the column it was decoded to; the objects, whose granules and bound
 tables alias frames that later decodes overwrite, are then shown to do the same.
 */
module MergeRun {
  import opened Wire
  import opened Chunking
  import opened DictSpec
  import opened SharedDict
  import opened BlockStreams
  import opened Lease
  import opened StreamColumn
  import opened Writers
  import opened AppendedRows

  // ------------------------------------------------------------ the run on values

  /** A table's name: minted by the caller, a decoder's shared dictionary, or one of its decodes. */
  datatype Token = Minted(n: nat) | OfShared(d: nat) | OfFrame(d: nat, epoch: nat)

  /** A granule: the column it was decoded to, its table's name, and the name it lives under. */
  datatype Piece = Piece(col: DictColumn, table: Token, lease: Option<Token>)

  /** A binding's table. */
  datatype Link = Unbound | BoundTo(entries: seq<Value>, token: Token)

  /** A decoder: the frame it keeps and the decodes it has made. */
  datatype Reader = Reader(kept: Cache, epoch: nat)

  /** A decoder's frame table lives until its next decode; every other table for good. */
  predicate LiveIn(readers: seq<Reader>, t: Token) { t.OfFrame? ==> t.d < |readers| && readers[t.d].epoch == t.epoch }

  datatype State = State(
    rows: seq<Value>, links: seq<Link>, pieces: seq<Piece>, readers: seq<Reader>, minted: nat, names: map<Token, seq<Value>>)
  {
    predicate Live(t: Token) { LiveIn(readers, t) }

    predicate Usable(p: Piece) { p.lease.Some? && Live(p.lease.value) && Live(p.table) }

    predicate Known(t: Token) {
      match t
      case Minted(n) => n < minted
      case OfShared(d) => d < |readers|
      case OfFrame(d, e) => d < |readers| && e <= readers[d].epoch
    }
  }

  /** One call of the caller. Bindings, decoders and granules are numbered as they came. */
  datatype Op =
    | Rows(batch: seq<Value>)
    | Blob(blob: Bytes, offsets: seq<int>)
    | NewBinding
    | BindOwn(b: nat, entries: seq<Value>, stable: bool)
    | BindPiece(b: nat, g: nat, stable: bool)
    | BindShared(b: nat, d: nat, stable: bool)
    | Decode(d: nat, blk: int)
    | Retire(d: nat)
    | Wrap(b: nat, ids: Bytes, width: nat)
    | Append(b: nat, g: nat, lo: int, hi: int, keep: Option<seq<bool>>)

  ghost predicate AllWf(sources: seq<Source>) { forall d :: 0 <= d < |sources| ==> sources[d].Wf() }

  ghost function Opened(sources: seq<Source>): State {
    State([], [], [], seq(|sources|, _ => Reader(Cache(-1, []), 0)), 0,
          map t: Token | t in (set d | 0 <= d < |sources| :: OfShared(d)) && t.OfShared? && t.d < |sources| :: sources[t.d].shared)
  }

  /** Binds b to a table under a live token; a frame's table is not bound stable. */
  ghost function Bind(st: State, b: nat, entries: seq<Value>, t: Token, stable: bool): State {
    if b < |st.links| && st.Live(t) && !(stable && t.OfFrame?) then st.(links := st.links[b := BoundTo(entries, t)]) else st
  }

  /** Decoding a block ends the decoder's earlier leases, moves its frame and hands out what it decoded. */
  ghost function DecodeStep(src: Source, st: State, d: nat, blk: int): State
    requires src.Wf() && d < |st.readers|
  {
    if !src.InRange(blk) then st
    else
      var r := st.readers[d];
      var now := st.(readers := st.readers[d := Reader(Serve(src.dir, src.frames, r.kept, blk).0, r.epoch + 1)]);
      var lease := OfFrame(d, r.epoch + 1);
      match src.Decoded(r.kept, blk)
      case Err => now
      case Ok(col) =>
        if src.Joined(src.Stream(r.kept, blk).value, src.Count(blk)) then now.(pieces := now.pieces + [Piece(col, OfShared(d), Some(lease))])
        else now.(pieces := now.pieces + [Piece(col, lease, Some(lease))], names := now.names[lease := col.entries])
  }

  /** The rows an append adds, its ids read through the bound table. */
  ghost function AppendRows(st: State, l: Link, p: Piece, lo: int, hi: int, keep: Option<seq<bool>>): seq<Value> {
    if l.BoundTo? && p.table == l.token && st.Usable(p) then Appended(p.col, l.entries, lo, hi, keep) else []
  }

  ghost function Step(sources: seq<Source>, st: State, op: Op): State
    requires AllWf(sources) && |st.readers| == |sources|
  {
    match op
    case Rows(batch) => st.(rows := st.rows + batch)
    case Blob(blob, offsets) => st.(rows := st.rows + Cells(blob, offsets, GoodSpans(blob, offsets, 0)))
    case NewBinding => st.(links := st.links + [Unbound])
    case BindOwn(b, entries, stable) =>
      var t := Minted(st.minted);
      Bind(st.(minted := st.minted + 1, names := st.names[t := entries]), b, entries, t, stable)
    case BindPiece(b, g, stable) => if g < |st.pieces| then Bind(st, b, st.pieces[g].col.entries, st.pieces[g].table, stable) else st
    case BindShared(b, d, stable) => if d < |sources| then Bind(st, b, sources[d].shared, OfShared(d), stable) else st
    case Decode(d, blk) => if d < |sources| then DecodeStep(sources[d], st, d, blk) else st
    case Retire(d) => if d < |sources| then st.(readers := st.readers[d := st.readers[d].(epoch := st.readers[d].epoch + 1)]) else st
    case Wrap(b, ids, width) =>
      if b < |st.links| && st.links[b].BoundTo? then
        var t := st.links[b].token;
        st.(pieces := st.pieces + [Piece(DictColumn(st.links[b].entries, ids, width), t, if t.Minted? then Some(t) else None)])
      else st
    case Append(b, g, lo, hi, keep) =>
      if b < |st.links| && g < |st.pieces| then st.(rows := st.rows + AppendRows(st, st.links[b], st.pieces[g], lo, hi, keep)) else st
  }

  ghost function Run(sources: seq<Source>, ops: seq<Op>): (st: State)
    requires AllWf(sources)
    ensures |st.readers| == |sources|
  {
    if ops == [] then Opened(sources) else Step(sources, Run(sources, ops[..|ops| - 1]), ops[|ops| - 1])
  }

  // ------------------------------------------------------------ a token names one table

  /** Every granule and every binding under a token has the entries the token was issued for. */
  ghost predicate OneTable(sources: seq<Source>, st: State) {
    && |st.readers| == |sources|
    && (forall d :: 0 <= d < |sources| ==> OfShared(d) in st.names && st.names[OfShared(d)] == sources[d].shared)
    && (forall t :: t in st.names ==> st.Known(t))
    && (forall i :: 0 <= i < |st.pieces| ==> PieceNamed(st, st.pieces[i]))
    && (forall i :: 0 <= i < |st.links| ==> LinkNamed(st, st.links[i]))
  }

  ghost predicate PieceNamed(st: State, p: Piece) {
    && p.table in st.names && p.col.entries == st.names[p.table]
    && (p.lease.Some? ==> st.Known(p.lease.value))
  }

  ghost predicate LinkNamed(st: State, l: Link) { l.BoundTo? ==> l.token in st.names && l.entries == st.names[l.token] }

  lemma OpenedNames(sources: seq<Source>)
    ensures OneTable(sources, Opened(sources))
  {
  }

  /** States that agree on names and forget no token. */
  ghost predicate Extends(st: State, next: State) {
    && (forall t :: t in st.names ==> t in next.names && next.names[t] == st.names[t])
    && (forall t :: st.Known(t) ==> next.Known(t))
  }

  lemma BindNames(sources: seq<Source>, st: State, b: nat, entries: seq<Value>, t: Token, stable: bool)
    requires OneTable(sources, st) && t in st.names && st.names[t] == entries
    ensures OneTable(sources, Bind(st, b, entries, t, stable))
  {
    var next := Bind(st, b, entries, t, stable);
    assert Extends(st, next);
    forall i | 0 <= i < |next.pieces| ensures PieceNamed(next, next.pieces[i]) {
      assert PieceNamed(st, st.pieces[i]);
    }
    forall i | 0 <= i < |next.links| ensures LinkNamed(next, next.links[i]) {
      assert LinkNamed(st, st.links[i]);
    }
  }

  lemma MintNames(sources: seq<Source>, st: State, entries: seq<Value>)
    requires OneTable(sources, st)
    ensures OneTable(sources, st.(minted := st.minted + 1, names := st.names[Minted(st.minted) := entries]))
  {
    var next := st.(minted := st.minted + 1, names := st.names[Minted(st.minted) := entries]);
    assert Minted(st.minted) !in st.names;
    assert Extends(st, next);
    Carries(st, next);
  }

  /** What names allow in a state they allow in one that extends it. */
  lemma Carries(st: State, next: State)
    requires Extends(st, next)
    ensures forall p :: PieceNamed(st, p) ==> PieceNamed(next, p)
    ensures forall l :: LinkNamed(st, l) ==> LinkNamed(next, l)
  {
  }

  lemma DecodeNames(sources: seq<Source>, st: State, d: nat, blk: int)
    requires OneTable(sources, st) && d < |sources| && sources[d].Wf()
    ensures OneTable(sources, DecodeStep(sources[d], st, d, blk))
  {
    hide Source.Decoded; hide Source.Stream; hide Source.Joined; hide Serve; hide PieceNamed; hide LinkNamed; hide PointsInside;
    var src, next := sources[d], DecodeStep(sources[d], st, d, blk);
    if src.InRange(blk) {
      assert OfFrame(d, st.readers[d].epoch + 1) !in st.names;
      assert Extends(st, next);
      Carries(st, next);
      if src.Decoded(st.readers[d].kept, blk).Ok? {
        NewPieceNamed(sources, st, d, blk);
      }
    }
  }

  lemma NewPieceNamed(sources: seq<Source>, st: State, d: nat, blk: int)
    requires OneTable(sources, st) && d < |sources| && sources[d].Wf() && sources[d].InRange(blk) && sources[d].Decoded(st.readers[d].kept, blk).Ok?
    ensures var next := DecodeStep(sources[d], st, d, blk);
            |next.pieces| == |st.pieces| + 1 && PieceNamed(next, next.pieces[|st.pieces|])
  {
    hide Serve; hide PointsInside; hide Source.DecodeStream; hide Source.Joined;
  }

  lemma StepNames(sources: seq<Source>, st: State, op: Op)
    requires AllWf(sources) && OneTable(sources, st)
    ensures OneTable(sources, Step(sources, st, op))
  {
    hide Cells; hide GoodSpans; hide Appended; hide DecodeStep; hide Source.Wf;
    match op
    case BindOwn(b, entries, stable) =>
      MintNames(sources, st, entries);
      var t := Minted(st.minted);
      BindNames(sources, st.(minted := st.minted + 1, names := st.names[t := entries]), b, entries, t, stable);
    case BindPiece(b, g, stable) =>
      if g < |st.pieces| {
        assert PieceNamed(st, st.pieces[g]);
        BindNames(sources, st, b, st.pieces[g].col.entries, st.pieces[g].table, stable);
      }
    case BindShared(b, d, stable) =>
      if d < |sources| {
        BindNames(sources, st, b, sources[d].shared, OfShared(d), stable);
      }
    case Decode(d, blk) =>
      if d < |sources| {
        DecodeNames(sources, st, d, blk);
      }
    case Wrap(b, ids, width) =>
      if b < |st.links| {
        assert LinkNamed(st, st.links[b]);
      }
      Carries(st, Step(sources, st, op));
    case _ =>
      Carries(st, Step(sources, st, op));
  }

  lemma {:induction false} RunNames(sources: seq<Source>, ops: seq<Op>)
    requires AllWf(sources)
    ensures OneTable(sources, Run(sources, ops))
  {
    hide Step; hide OneTable; hide AllWf;
    if ops == [] {
      OpenedNames(sources);
    } else {
      RunNames(sources, ops[..|ops| - 1]);
      StepNames(sources, Run(sources, ops[..|ops| - 1]), ops[|ops| - 1]);
    }
  }

  // ------------------------------------------------------------ what the rows of a run are

  /** The rows [lo,hi) of a column in its own right, up to the first that names no entry. */
  function OwnRows(col: DictColumn, lo: int, hi: int, keep: Option<seq<bool>>): seq<Value> {
    if Admits(col, lo, hi, keep) then Kept(col, lo, FirstBad(col, lo, hi, keep), keep) else []
  }

  /**
   At any point of any run, appending a granule appends rows of the column it was decoded to, whatever
   was decoded since, when it is still live and its table is the bound one; otherwise it is refused and
   appends nothing.
   */
  lemma AppendsDecoded(sources: seq<Source>, ops: seq<Op>, b: nat, g: nat, lo: int, hi: int, keep: Option<seq<bool>>)
    requires AllWf(sources) && b < |Run(sources, ops).links| && g < |Run(sources, ops).pieces|
    ensures var st := Run(sources, ops);
            var p, l := st.pieces[g], st.links[b];
            Step(sources, st, Append(b, g, lo, hi, keep)).rows
            == st.rows + if l.BoundTo? && l.token == p.table && st.Usable(p) then OwnRows(p.col, lo, hi, keep) else []
  {
    hide Run; hide Kept; hide FirstBad;
    RunNames(sources, ops);
    var st := Run(sources, ops);
    assert PieceNamed(st, st.pieces[g]) && LinkNamed(st, st.links[b]);
  }

  /**
   And those rows are, without a mask, the decoded column's rows [lo,hi) themselves; with one, a row for
   every mark and no other, the row of mark j standing where the marks before j count.
   */
  lemma AppendsItsRows(sources: seq<Source>, ops: seq<Op>, b: nat, g: nat, lo: nat, hi: nat, keep: Option<seq<bool>>)
    requires AllWf(sources) && b < |Run(sources, ops).links| && g < |Run(sources, ops).pieces|
    requires var st := Run(sources, ops);
             var p, l := st.pieces[g], st.links[b];
             && l.BoundTo? && l.token == p.table && st.Usable(p)
             && p.col.Wf() && lo <= hi <= p.col.Len() && (keep.Some? ==> |keep.value| == hi - lo)
    ensures var st, col := Run(sources, ops), Run(sources, ops).pieces[g].col;
            var after := Step(sources, st, Append(b, g, lo, hi, keep)).rows;
            && st.rows <= after && var added := after[|st.rows|..];
               match keep
               case None => added == col.Rows()[lo..hi]
               case Some(mask) =>
                 && |added| == Marked(mask, |mask|)
                 && forall j :: 0 <= j < |mask| && mask[j] ==> Marked(mask, j) < |added| && added[Marked(mask, j)] == col.Rows()[lo + j]
  {
    hide Run; hide Kept; hide FirstBad; hide DictColumn.Wf; hide DictColumn.Rows; hide Marked;
    var st := Run(sources, ops);
    var col := st.pieces[g].col;
    AppendsDecoded(sources, ops, b, g, lo, hi, keep);
    if keep.None? {
      AppendsSlice(col, lo, hi);
    } else {
      AppendsMarked(col, lo, hi, keep.value);
    }
    assert (st.rows + OwnRows(col, lo, hi, keep))[|st.rows|..] == OwnRows(col, lo, hi, keep);
  }

  /** A piece of decoder d handed out by now. */
  predicate FromDecoder(p: Piece, d: nat) { p.lease.Some? && p.lease.value.OfFrame? && p.lease.value.d == d }

  /** Decoding a block or retiring ends every lease of that decoder. */
  predicate Ends(sources: seq<Source>, op: Op, d: nat) {
    d < |sources| && (op == Retire(d) || (op.Decode? && op.d == d && sources[d].InRange(op.blk)))
  }

  lemma EndsLeases(sources: seq<Source>, st: State, op: Op, d: nat, i: nat)
    requires AllWf(sources) && OneTable(sources, st) && Ends(sources, op, d) && i < |st.pieces| && FromDecoder(st.pieces[i], d)
    ensures var next := Step(sources, st, op);
            i < |next.pieces| && next.pieces[i] == st.pieces[i] && Past(next, st.pieces[i])
  {
    hide Serve; hide Source.Decoded; hide Source.Stream; hide Source.Joined; hide PointsInside;
    assert PieceNamed(st, st.pieces[i]);
  }

  /** The decoder has moved past the decode a piece came from. */
  predicate Past(st: State, p: Piece) {
    && p.lease.Some? && p.lease.value.OfFrame?
    && p.lease.value.d < |st.readers| && p.lease.value.epoch < st.readers[p.lease.value.d].epoch
  }

  lemma PastStays(sources: seq<Source>, st: State, op: Op, p: Piece)
    requires AllWf(sources) && |st.readers| == |sources| && Past(st, p)
    ensures Past(Step(sources, st, op), p) && !st.Usable(p)
    ensures forall i :: 0 <= i < |st.pieces| ==> i < |Step(sources, st, op).pieces| && Step(sources, st, op).pieces[i] == st.pieces[i]
  {
    hide Serve; hide Source.Decoded; hide Source.Stream; hide Source.Joined; hide PointsInside; hide Cells; hide Appended;
  }

  /**
   No lease comes back: a granule of a decoder that has since decoded again or retired is refused by
   every append, after any further calls.
   */
  lemma {:induction false} EndedForGood(sources: seq<Source>, before: seq<Op>, op: Op, after: seq<Op>, d: nat, i: nat)
    requires AllWf(sources) && Ends(sources, op, d)
    requires i < |Run(sources, before).pieces| && FromDecoder(Run(sources, before).pieces[i], d)
    ensures var st := Run(sources, before + [op] + after);
            i < |st.pieces| && st.pieces[i] == Run(sources, before).pieces[i] && Past(st, st.pieces[i]) && !st.Usable(st.pieces[i])
  {
    hide Step; hide OneTable;
    if after == [] {
      assert (before + [op] + after)[..|before|] == before && (before + [op] + after)[|before|] == op;
      RunNames(sources, before);
      EndsLeases(sources, Run(sources, before), op, d, i);
    } else {
      var ops, init := before + [op] + after, after[..|after| - 1];
      assert ops[..|ops| - 1] == before + [op] + init && ops[|ops| - 1] == after[|after| - 1];
      EndedForGood(sources, before, op, init, d, i);
      PastStays(sources, Run(sources, before + [op] + init), after[|after| - 1], Run(sources, before).pieces[i]);
    }
  }

  ghost predicate Unbroken(sources: seq<Source>) {
    forall d, f :: 0 <= d < |sources| && 0 <= f < |sources[d].frames| ==> !sources[d].frames[f].Broken?
  }

  ghost predicate AllCoherent(sources: seq<Source>, st: State) {
    |st.readers| == |sources| && forall d :: 0 <= d < |sources| ==> st.readers[d].kept.Coherent(sources[d].frames)
  }

  lemma StepCoherent(sources: seq<Source>, st: State, op: Op)
    requires AllWf(sources) && Unbroken(sources) && AllCoherent(sources, st)
    ensures AllCoherent(sources, Step(sources, st, op))
  {
    hide Serve; hide Source.Decoded; hide Source.Stream; hide Source.Joined; hide PointsInside; hide Cells; hide Appended;
    if op.Decode? && op.d < |sources| && sources[op.d].InRange(op.blk) {
      var src := sources[op.d];
      ServeKeepsCoherent(src.dir, src.frames, st.readers[op.d].kept, op.blk);
    }
  }

  lemma {:induction false} RunCoherent(sources: seq<Source>, ops: seq<Op>)
    requires AllWf(sources) && Unbroken(sources)
    ensures AllCoherent(sources, Run(sources, ops))
  {
    hide Step;
    if ops != [] {
      RunCoherent(sources, ops[..|ops| - 1]);
      StepCoherent(sources, Run(sources, ops[..|ops| - 1]), ops[|ops| - 1]);
    }
  }

  /** Over columns no frame of which breaks halfway, a decode at any point of a run is a fresh one. */
  lemma DecodesFresh(sources: seq<Source>, ops: seq<Op>, d: nat, blk: int)
    requires AllWf(sources) && Unbroken(sources) && d < |sources| && sources[d].InRange(blk)
    ensures var st, next := Run(sources, ops), Step(sources, Run(sources, ops), Decode(d, blk));
            match sources[d].Fresh(blk)
            case Err => next.pieces == st.pieces
            case Ok(col) => |next.pieces| == |st.pieces| + 1 && next.pieces[|st.pieces|].col == col && next.Usable(next.pieces[|st.pieces|])
  {
    hide Serve; hide Source.Stream; hide Source.Joined; hide PointsInside; hide Source.Decoded; hide Source.Fresh; hide Run;
    RunCoherent(sources, ops);
    sources[d].DecodedFresh(Run(sources, ops).readers[d].kept, blk);
  }
}
