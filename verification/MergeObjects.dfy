/**
 The merge run on the objects themselves: decoders whose granules alias a reused frame, bindings whose
 tables alias it too, and one streaming writer. Each call does what the run on values says, so what the
 writer seals is the batch writer's column of the rows as decoded.
 */
module MergeObjects {
  import opened Wire
  import opened Chunking
  import opened DictSpec
  import opened SharedDict
  import opened BlockStreams
  import opened Lease
  import opened StreamColumn
  import opened Writers
  import opened MergeRun

  /** What the caller holds: the writer, and decoders, minted tokens, bindings and granules as they came. */
  datatype Desk = Desk(w: StreamWriter, ds: seq<Decoder>, owners: seq<DictOwner>, bs: seq<Binding>, gs: seq<DecodedGranule>)

  predicate Held(ds: seq<Decoder>, owners: seq<DictOwner>, t: Token) { if t.Minted? then t.n < |owners| else t.d < |ds| }

  /** The token a name stands for. */
  function Real(ds: seq<Decoder>, owners: seq<DictOwner>, t: Token): DictGen
    requires Held(ds, owners, t)
  {
    match t
    case Minted(n) => Gen(owners[n], 0)
    case OfShared(d) => Gen(ds[d].sharedGen, 0)
    case OfFrame(d, e) => Gen(ds[d].granules, e)
  }

  // ------------------------------------------------------------ objects against values

  /** No two decoders share an object, and no two owners are one. */
  ghost predicate Apart(ds: seq<Decoder>, owners: seq<DictOwner>) {
    && (forall i, j :: 0 <= i < j < |ds| ==>
          && ds[i] != ds[j] && ds[i].granules != ds[j].granules && ds[i].sharedGen != ds[j].sharedGen
          && ds[i].streams != ds[j].streams && ds[i].streams.buf != ds[j].streams.buf)
    && (forall i, j :: 0 <= i < |ds| && 0 <= j < |ds| ==> ds[i].granules != ds[j].sharedGen)
    && (forall i, j :: 0 <= i < j < |owners| ==> owners[i] != owners[j])
    && (forall i, n :: 0 <= i < |ds| && 0 <= n < |owners| ==> ds[i].granules != owners[n] && ds[i].sharedGen != owners[n])
  }

  ghost predicate DecoderOk(d: Decoder, src: Source, r: Reader)
    reads d, d.granules, d.sharedGen, d.streams, d.streams.buf
  {
    d.Valid() && d.src == src && d.streams.State() == r.kept && d.granules.epoch == r.epoch
  }

  ghost predicate DecodersOk(ds: seq<Decoder>, sources: seq<Source>, readers: seq<Reader>)
    reads ds, set i | 0 <= i < |ds| :: ds[i].granules
    reads set i | 0 <= i < |ds| :: ds[i].sharedGen
    reads set i | 0 <= i < |ds| :: ds[i].streams
    reads set i | 0 <= i < |ds| :: ds[i].streams.buf
  {
    |ds| == |sources| == |readers| && forall i :: 0 <= i < |ds| ==> DecoderOk(ds[i], sources[i], readers[i])
  }

  ghost predicate OwnersOk(owners: seq<DictOwner>, minted: nat)
    reads owners
  {
    |owners| == minted && forall n :: 0 <= n < |owners| ==> owners[n].epoch == 0 && owners[n].owned && !owners[n].framed
  }

  /** A granule carries a piece's names, and views the frame they are of. */
  ghost predicate PieceShape(ds: seq<Decoder>, owners: seq<DictOwner>, g: DecodedGranule, p: Piece) {
    && Held(ds, owners, p.table) && g.table == Real(ds, owners, p.table)
    && (p.lease.Some? ==> Held(ds, owners, p.lease.value))
    && g.lease == (if p.lease.Some? then Real(ds, owners, p.lease.value) else NoGen)
    && match g.dc
       case Held(_) => p.lease == if p.table.Minted? then Some(p.table) else None
       case OverFrame(buf, _, _, _) => p.table.OfFrame? && p.lease == Some(p.table) && buf == ds[p.table.d].streams.buf
       case OverShared(entries, buf, _, _) =>
         && p.table.OfShared? && p.lease.Some? && p.lease.value.OfFrame? && buf == ds[p.lease.value.d].streams.buf
         && entries == p.col.entries
  }

  /** The name a granule's column can be read under. */
  function Life(g: DecodedGranule, p: Piece): Token { if g.dc.Held? || p.lease.None? then p.table else p.lease.value }

  /** The frame a name's views are read over. */
  function FrameOf(readers: seq<Reader>, t: Token): Bytes { if t.OfFrame? && t.d < |readers| then readers[t.d].kept.bytes else [] }

  /** A granule stands for a piece: same names, and the same column while it lives. */
  ghost predicate PieceOk(ds: seq<Decoder>, owners: seq<DictOwner>, readers: seq<Reader>, g: DecodedGranule, p: Piece) {
    PieceShape(ds, owners, g, p) && (LiveIn(readers, Life(g, p)) ==> g.dc.Over(FrameOf(readers, Life(g, p))) == p.col)
  }

  /** A binding stands for a link: the table it was bound to, which stays put while its token lives. */
  ghost predicate LinkOk(ds: seq<Decoder>, owners: seq<DictOwner>, readers: seq<Reader>, b: Binding, l: Link)
    reads b`table, b`gen, b`bound, b`stable
  {
    match l
    case Unbound => b.gen == NoGen && b.table.Stays?
    case BoundTo(entries, t) =>
      && Held(ds, owners, t) && b.gen == Real(ds, owners, t) && b.bound == entries
      && (b.table.Aliases? ==> t.OfFrame? && b.table.buf == ds[t.d].streams.buf && !b.stable)
      && (LiveIn(readers, t) ==> b.table.Over(FrameOf(readers, t)) == b.bound)
  }

  ghost predicate PiecesOk(k: Desk, readers: seq<Reader>, pieces: seq<Piece>) {
    |k.gs| == |pieces| && forall i :: 0 <= i < |k.gs| ==> PieceOk(k.ds, k.owners, readers, k.gs[i], pieces[i])
  }

  ghost predicate LinksOk(k: Desk, readers: seq<Reader>, links: seq<Link>)
    reads k.bs
  {
    |k.bs| == |links| && forall i :: 0 <= i < |k.bs| ==> LinkOk(k.ds, k.owners, readers, k.bs[i], links[i])
  }

  ghost predicate WriterOk(w: StreamWriter, bs: seq<Binding>, rows: seq<Value>)
    reads w, w.d, w.bindings, bs
  {
    && w.Valid() && !w.finished && w.Rows() == rows
    && (forall i :: 0 <= i < |bs| ==> bs[i] in w.bindings && bs[i].c == w)
    && (forall i, j :: 0 <= i < j < |bs| ==> bs[i] != bs[j])
  }

  /** The decoders and minted tokens stand for the run's readers and names. */
  ghost predicate NamesOk(ds: seq<Decoder>, owners: seq<DictOwner>, sources: seq<Source>, st: State)
    reads owners, ds
    reads set i | 0 <= i < |ds| :: ds[i].granules
    reads set i | 0 <= i < |ds| :: ds[i].sharedGen
    reads set i | 0 <= i < |ds| :: ds[i].streams
    reads set i | 0 <= i < |ds| :: ds[i].streams.buf
  {
    && AllWf(sources) && OneTable(sources, st)
    && Apart(ds, owners) && DecodersOk(ds, sources, st.readers) && OwnersOk(owners, st.minted)
  }

  ghost predicate Linked(k: Desk, sources: seq<Source>, st: State)
    reads *
  {
    && NamesOk(k.ds, k.owners, sources, st)
    && PiecesOk(k, st.readers, st.pieces) && LinksOk(k, st.readers, st.links) && WriterOk(k.w, k.bs, st.rows)
  }

  /** A live name is a live token, and its owner is of its kind. */
  lemma LiveAgrees(ds: seq<Decoder>, owners: seq<DictOwner>, sources: seq<Source>, readers: seq<Reader>, t: Token)
    requires Held(ds, owners, t) && DecodersOk(ds, sources, readers) && OwnersOk(owners, |owners|)
    ensures var g := Real(ds, owners, t);
            (g.Live() <==> LiveIn(readers, t)) && (g.owner.framed <==> t.OfFrame?) && (g.owner.owned <==> t.Minted?)
  {
    if !t.Minted? {
      assert DecoderOk(ds[t.d], sources[t.d], readers[t.d]);
    }
  }

  lemma NamesDiffer(ds: seq<Decoder>, owners: seq<DictOwner>, s: Token, t: Token)
    requires Apart(ds, owners) && Held(ds, owners, s) && Held(ds, owners, t)
    ensures Real(ds, owners, s) == Real(ds, owners, t) <==> s == t
  {
  }

  /** A decoder's frame is the one its reader keeps. */
  lemma FrameIs(ds: seq<Decoder>, sources: seq<Source>, readers: seq<Reader>, d: nat)
    requires DecodersOk(ds, sources, readers) && d < |ds|
    ensures ds[d].streams.buf.bytes == readers[d].kept.bytes
  {
    assert DecoderOk(ds[d], sources[d], readers[d]);
  }

  /** A live granule is read as its piece. */
  lemma PieceReads(ds: seq<Decoder>, owners: seq<DictOwner>, sources: seq<Source>, readers: seq<Reader>, g: DecodedGranule, p: Piece)
    requires DecodersOk(ds, sources, readers) && PieceOk(ds, owners, readers, g, p)
    ensures LiveIn(readers, Life(g, p)) ==> g.dc.Column() == p.col
  {
    hide DecodersOk;
    if Life(g, p).OfFrame? && Life(g, p).d < |ds| {
      FrameIs(ds, sources, readers, Life(g, p).d);
    }
  }

  /** A table bound under a live name is as it was bound. */
  lemma LinkSteady(ds: seq<Decoder>, owners: seq<DictOwner>, sources: seq<Source>, readers: seq<Reader>, b: Binding, l: Link)
    requires DecodersOk(ds, sources, readers) && LinkOk(ds, owners, readers, b, l)
    ensures l.BoundTo? && LiveIn(readers, l.token) ==> b.Steady()
  {
    hide DecodersOk;
    if l.BoundTo? && l.token.OfFrame? {
      FrameIs(ds, sources, readers, l.token.d);
    }
  }

  // ------------------------------------------------------------ each call

  /** The most rows a call can append. */
  function Reach(op: Op): nat {
    match op
    case Rows(batch) => |batch|
    case Blob(_, offsets) => |offsets|
    case Append(_, _, lo, hi, _) => if hi < lo then 0 else hi - lo
    case _ => 0
  }

  /** Rows by value or by blob. */
  method AppendText(k: Desk, op: Op, ghost sources: seq<Source>, ghost st: State)
    requires Linked(k, sources, st) && (op.Rows? || op.Blob?) && |st.rows| + Reach(op) <= MAX_INT
    modifies k.w, k.w.d
    ensures Linked(k, sources, Step(sources, st, op))
  {
    hide StreamWriter.Valid; hide StreamWriter.Rows; hide DecoderOk; hide PieceOk; hide LinkOk; hide Apart; hide AllWf; hide OneTable; hide Cells; hide GoodSpans;
    k.w.RowCount();
    StepNames(sources, st, op);
    match op
    case Rows(batch) =>
      var _ := k.w.AppendBytes(batch);
    case Blob(blob, offsets) =>
      var _ := k.w.AppendBytesBlob(blob, offsets);
  }

  method AddBinding(k: Desk, ghost sources: seq<Source>, ghost st: State) returns (k': Desk)
    requires Linked(k, sources, st)
    modifies k.w
    ensures Linked(k', sources, Step(sources, st, NewBinding)) && k'.w == k.w && k'.ds == k.ds && k.bs <= k'.bs && fresh(k'.bs[|k.bs|..])
  {
    hide StreamWriter.Valid; hide StreamWriter.Rows; hide DecoderOk; hide PieceOk; hide Apart; hide AllWf; hide OneTable;
    var b := k.w.NewBinding();
    k' := k.(bs := k.bs + [b]);
    StepNames(sources, st, NewBinding);
  }

  /** Points binding b at a table under a name. */
  method BindTo(k: Desk, b: nat, table: Table, ghost entries: seq<Value>, gen: DictGen, stable: bool, ghost t: Token, ghost sources: seq<Source>, ghost st: State)
    requires Linked(k, sources, st) && Held(k.ds, k.owners, t) && gen == Real(k.ds, k.owners, t)
    requires t in st.names && st.names[t] == entries
    requires table.Aliases? ==> t.OfFrame? && table.buf == k.ds[t.d].streams.buf
    requires LiveIn(st.readers, t) ==> table.Over(FrameOf(st.readers, t)) == entries
    modifies k.bs
    ensures Linked(k, sources, Bind(st, b, entries, t, stable))
  {
    hide StreamWriter.Valid; hide StreamWriter.Rows; hide DecoderOk; hide PieceOk; hide Apart; hide AllWf; hide OneTable;
    BindNames(sources, st, b, entries, t, stable);
    if b < |k.bs| {
      LiveAgrees(k.ds, k.owners, sources, st.readers, t);
      if t.OfFrame? {
        FrameIs(k.ds, sources, st.readers, t.d);
      }
      var ok := k.bs[b].Bind(table, gen, stable);
    }
  }

  /** One more minted token disturbs nothing bound or decoded. */
  lemma MintKeeps(ds: seq<Decoder>, owners: seq<DictOwner>, o: DictOwner, readers: seq<Reader>)
    ensures forall g, p :: PieceOk(ds, owners, readers, g, p) ==> PieceOk(ds, owners + [o], readers, g, p)
    ensures forall b: Binding, l :: LinkOk(ds, owners, readers, b, l) ==> LinkOk(ds, owners + [o], readers, b, l)
  {
  }

  method BindOwnTable(k: Desk, b: nat, entries: seq<Value>, stable: bool, ghost sources: seq<Source>, ghost st: State) returns (k': Desk)
    requires Linked(k, sources, st)
    modifies k.bs
    ensures Linked(k', sources, Step(sources, st, BindOwn(b, entries, stable)))
    ensures k' == k.(owners := k'.owners)
  {
    hide StreamWriter.Valid; hide StreamWriter.Rows; hide DecoderOk; hide PieceOk; hide LinkOk; hide AllWf; hide OneTable;
    var o := new DictOwner(false, true);
    k' := k.(owners := k.owners + [o]);
    MintKeeps(k.ds, k.owners, o, st.readers);
    MintNames(sources, st, entries);
    ghost var t := Minted(st.minted);
    ghost var next := st.(minted := st.minted + 1, names := st.names[t := entries]);
    BindTo(k', b, Stays(entries), entries, Gen(o, 0), stable, t, sources, next);
  }

  method BindPieceTable(k: Desk, b: nat, g: nat, stable: bool, ghost sources: seq<Source>, ghost st: State)
    requires Linked(k, sources, st) && g < |k.gs|
    modifies k.bs
    ensures Linked(k, sources, Step(sources, st, BindPiece(b, g, stable)))
  {
    hide StreamWriter.Valid; hide StreamWriter.Rows; hide DecoderOk; hide LinkOk; hide AllWf; hide Apart;
    ghost var p := st.pieces[g];
    assert PieceNamed(st, p) && PieceOk(k.ds, k.owners, st.readers, k.gs[g], p);
    BindTo(k, b, k.gs[g].dc.Table(), p.col.entries, k.gs[g].table, stable, p.table, sources, st);
  }

  method BindSharedTable(k: Desk, b: nat, d: nat, stable: bool, ghost sources: seq<Source>, ghost st: State)
    requires Linked(k, sources, st) && d < |k.ds|
    modifies k.bs
    ensures Linked(k, sources, Step(sources, st, BindShared(b, d, stable)))
  {
    hide StreamWriter.Valid; hide StreamWriter.Rows; hide LinkOk; hide PieceOk; hide AllWf; hide Apart; hide Decoder.Valid;
    assert DecoderOk(k.ds[d], sources[d], st.readers[d]);
    var table, gen := k.ds[d].SharedEntries();
    BindTo(k, b, table, sources[d].shared, gen, stable, OfShared(d), sources, st);
  }

  /** Wraps the caller's ids over the table bound at b. */
  method WrapBound(k: Desk, b: nat, ids: Bytes, width: nat, ghost sources: seq<Source>, ghost st: State) returns (k': Desk)
    requires Linked(k, sources, st) && b < |k.bs| && st.links[b].BoundTo?
    ensures Linked(k', sources, Step(sources, st, Wrap(b, ids, width)))
    ensures k' == k.(gs := k'.gs)
  {
    hide StreamWriter.Valid; hide StreamWriter.Rows; hide DecoderOk; hide AllWf; hide OneTable; hide Apart;
    StepNames(sources, st, Wrap(b, ids, width));
    ghost var t := st.links[b].token;
    assert LinkOk(k.ds, k.owners, st.readers, k.bs[b], st.links[b]);
    LiveAgrees(k.ds, k.owners, sources, st.readers, t);
    LinkSteady(k.ds, k.owners, sources, st.readers, k.bs[b], st.links[b]);
    var g := OwnedGranule(DictColumn(k.bs[b].table.Entries(), ids, width), k.bs[b].gen);
    k' := k.(gs := k.gs + [g]);
  }

  /** An append takes a granule in exactly when the run does, and then reads the column and table it names. */
  lemma AppendAgrees(k: Desk, sources: seq<Source>, st: State, b: nat, g: nat)
    requires Linked(k, sources, st) && b < |k.bs| && g < |k.gs|
    ensures var p, l := st.pieces[g], st.links[b];
            && (k.gs[g].table == k.bs[b].gen && k.gs[g].Live() <==> l.BoundTo? && p.table == l.token && st.Usable(p))
            && (k.bs[b].gen.Live() ==> k.bs[b].Steady())
            && (l.BoundTo? ==> k.bs[b].bound == l.entries) && (st.Usable(p) ==> k.gs[g].dc.Column() == p.col)
  {
    hide StreamWriter.Valid; hide StreamWriter.Rows; hide DecoderOk; hide AllWf; hide OneTable; hide Apart;
    var p, l := st.pieces[g], st.links[b];
    assert PieceOk(k.ds, k.owners, st.readers, k.gs[g], p) && LinkOk(k.ds, k.owners, st.readers, k.bs[b], l);
    PieceReads(k.ds, k.owners, sources, st.readers, k.gs[g], p);
    LinkSteady(k.ds, k.owners, sources, st.readers, k.bs[b], l);
    LiveAgrees(k.ds, k.owners, sources, st.readers, p.table);
    if p.lease.Some? {
      LiveAgrees(k.ds, k.owners, sources, st.readers, p.lease.value);
    }
    if l.BoundTo? {
      LiveAgrees(k.ds, k.owners, sources, st.readers, l.token);
      NamesDiffer(k.ds, k.owners, p.table, l.token);
    }
  }

  method AppendPiece(k: Desk, b: nat, g: nat, lo: int, hi: int, keep: Option<seq<bool>>, ghost sources: seq<Source>, ghost st: State)
    requires Linked(k, sources, st) && b < |k.bs| && g < |k.gs| && |st.rows| + Reach(Append(b, g, lo, hi, keep)) <= MAX_INT
    modifies k.w, k.w.d, k.bs
    ensures Linked(k, sources, Step(sources, st, Append(b, g, lo, hi, keep)))
  {
    hide StreamWriter.Valid; hide StreamWriter.Rows; hide DecoderOk; hide AllWf; hide OneTable; hide Apart; hide Appended; hide AppendsAll; hide PieceOk; hide LinkOk; hide View.Column;
    StepNames(sources, st, Append(b, g, lo, hi, keep));
    k.w.RowCount();
    AppendAgrees(k, sources, st, b, g);
    ghost var before := k.w.Rows();
    assert before + [] == before;
    var ok := k.bs[b].AppendDict(k.gs[g], lo, hi, keep);
  }

  /** What a decode hands out stands for the run's new piece. */
  ghost predicate NewPieceOk(ds: seq<Decoder>, owners: seq<DictOwner>, st: State, next: State, r: Result<DecodedGranule>) {
    match r
    case Err => next.pieces == st.pieces
    case Ok(g) =>
      && |next.pieces| == |st.pieces| + 1 && next.pieces[..|st.pieces|] == st.pieces
      && PieceOk(ds, owners, next.readers, g, next.pieces[|st.pieces|])
  }

  /** A granule handed out at d's new epoch, of the column decoded, stands for the piece the run adds. */
  lemma NewPieceStands(ds: seq<Decoder>, owners: seq<DictOwner>, src: Source, st: State, d: nat, blk: int, g: DecodedGranule)
    requires d < |ds| == |st.readers| && src.Wf() && src.InRange(blk) && src.Decoded(st.readers[d].kept, blk).Ok?
    requires g.lease == Gen(ds[d].granules, st.readers[d].epoch + 1) && !g.dc.Held? && g.dc.buf == ds[d].streams.buf
    requires if g.dc.OverShared? then g.table == Gen(ds[d].sharedGen, 0) else g.table == g.lease
    requires g.dc.OverShared? <==> src.Joined(src.Stream(st.readers[d].kept, blk).value, src.Count(blk))
    requires g.dc.Over(Serve(src.dir, src.frames, st.readers[d].kept, blk).0.bytes) == src.Decoded(st.readers[d].kept, blk).value
    ensures NewPieceOk(ds, owners, st, DecodeStep(src, st, d, blk), Ok(g))
  {
    hide Serve; hide Source.Decoded; hide Source.Stream; hide Source.Joined;
  }

  method DecodeNext(ds: seq<Decoder>, owners: seq<DictOwner>, d: nat, blk: int, ghost sources: seq<Source>, ghost st: State) returns (r: Result<DecodedGranule>)
    requires NamesOk(ds, owners, sources, st) && d < |ds|
    modifies ds[d], ds[d].granules, ds[d].streams, ds[d].streams.buf
    ensures NamesOk(ds, owners, sources, Step(sources, st, Decode(d, blk)))
    ensures NewPieceOk(ds, owners, st, Step(sources, st, Decode(d, blk)), r)
  {
    hide OneTable; hide Decoder.Valid; hide View.Over; hide Serve; hide Source.Decoded; hide Source.Stream; hide Source.Joined; hide Decoder.Sound; hide PieceOk; hide NewPieceOk; hide Source.Wf; hide DecodeStep;
    StepNames(sources, st, Decode(d, blk));
    DecodeCases(sources[d], st, d, blk);
    assert DecoderOk(ds[d], sources[d], st.readers[d]);
    r := ds[d].DecodeBytesBlock(blk);
    if r.Ok? {
      ds[d].Handed(r.value);
      NewPieceStands(ds, owners, sources[d], st, d, blk, r.value);
    } else {
      NoPieceStands(ds, owners, sources[d], st, d, blk);
    }
  }

  lemma NoPieceStands(ds: seq<Decoder>, owners: seq<DictOwner>, src: Source, st: State, d: nat, blk: int)
    requires src.Wf() && d < |st.readers| && (src.InRange(blk) ==> src.Decoded(st.readers[d].kept, blk).Err?)
    ensures NewPieceOk(ds, owners, st, DecodeStep(src, st, d, blk), Err)
  {
    hide Serve; hide Source.Decoded; hide Source.Stream; hide Source.Joined;
  }

  /** The readers after a decode, and the rest of the state as it was. */
  lemma DecodeCases(src: Source, st: State, d: nat, blk: int)
    requires src.Wf() && d < |st.readers|
    ensures var next, r := DecodeStep(src, st, d, blk), st.readers[d];
            && next.links == st.links && next.rows == st.rows && next.minted == st.minted
            && next.readers == if src.InRange(blk) then st.readers[d := Reader(Serve(src.dir, src.frames, r.kept, blk).0, r.epoch + 1)] else st.readers
  {
    hide Serve; hide Source.Decoded; hide Source.Stream; hide Source.Joined;
  }

  /** Decoder d has moved on, or nothing has. */
  ghost predicate Moved(was: seq<Reader>, now: seq<Reader>, d: nat) {
    && d < |was| == |now| && (forall i :: 0 <= i < |was| && i != d ==> now[i] == was[i])
    && (now == was || now[d].epoch > was[d].epoch)
  }

  lemma DecodeReaders(sources: seq<Source>, st: State, d: nat, blk: int)
    requires AllWf(sources) && |st.readers| == |sources| && d < |sources|
    ensures var next := Step(sources, st, Decode(d, blk));
            next.links == st.links && next.rows == st.rows && next.minted == st.minted && Moved(st.readers, next.readers, d)
  {
    hide Serve; hide DecodeStep; hide PointsInside;
    DecodeCases(sources[d], st, d, blk);
  }

  /** A name of d's frame handed out before d moved is dead after; every other is as it was, frame and all. */
  lemma LifeMoves(was: seq<Reader>, now: seq<Reader>, d: nat, t: Token)
    requires Moved(was, now, d) && (t.OfFrame? ==> t.d < |was| && t.epoch <= was[t.d].epoch)
    ensures LiveIn(now, t) ==> LiveIn(was, t) && FrameOf(now, t) == FrameOf(was, t)
  {
  }

  lemma PiecesMove(k: Desk, sources: seq<Source>, st: State, now: seq<Reader>, d: nat)
    requires OneTable(sources, st) && PiecesOk(k, st.readers, st.pieces) && Moved(st.readers, now, d)
    ensures PiecesOk(k, now, st.pieces)
  {
    hide View.Over; hide PieceShape;
    forall i | 0 <= i < |k.gs| ensures PieceOk(k.ds, k.owners, now, k.gs[i], st.pieces[i]) {
      assert PieceOk(k.ds, k.owners, st.readers, k.gs[i], st.pieces[i]) && PieceNamed(st, st.pieces[i]);
      LifeMoves(st.readers, now, d, Life(k.gs[i], st.pieces[i]));
    }
  }

  lemma LinksMove(k: Desk, sources: seq<Source>, st: State, now: seq<Reader>, d: nat)
    requires OneTable(sources, st) && LinksOk(k, st.readers, st.links) && Moved(st.readers, now, d)
    ensures LinksOk(k, now, st.links)
  {
    hide Table.Over;
    forall i | 0 <= i < |k.bs| ensures LinkOk(k.ds, k.owners, now, k.bs[i], st.links[i]) {
      assert LinkOk(k.ds, k.owners, st.readers, k.bs[i], st.links[i]) && LinkNamed(st, st.links[i]);
      if st.links[i].BoundTo? {
        LifeMoves(st.readers, now, d, st.links[i].token);
      }
    }
  }

  method DecodeOne(k: Desk, d: nat, blk: int, ghost sources: seq<Source>, ghost st: State) returns (k': Desk)
    requires Linked(k, sources, st) && d < |k.ds|
    modifies k.ds[d], k.ds[d].granules, k.ds[d].streams, k.ds[d].streams.buf
    ensures Linked(k', sources, Step(sources, st, Decode(d, blk)))
    ensures k' == k.(gs := k'.gs)
  {
    hide StreamWriter.Valid; hide StreamWriter.Rows; hide AllWf; hide DecoderOk; hide PieceOk; hide LinkOk; hide OneTable; hide Step; hide Moved; hide Apart;
    ghost var next := Step(sources, st, Decode(d, blk));
    DecodeReaders(sources, st, d, blk);
    PiecesMove(k, sources, st, next.readers, d);
    LinksMove(k, sources, st, next.readers, d);
    var r := DecodeNext(k.ds, k.owners, d, blk, sources, st);
    k' := if r.Ok? then k.(gs := k.gs + [r.value]) else k;
  }

  /** A merged decode of decoder d, or closing it. */
  method RetireOne(k: Desk, d: nat, ghost sources: seq<Source>, ghost st: State)
    requires Linked(k, sources, st) && d < |k.ds|
    modifies k.ds[d].granules
    ensures Linked(k, sources, Step(sources, st, Retire(d)))
  {
    hide StreamWriter.Valid; hide StreamWriter.Rows; hide AllWf; hide Decoder.Valid; hide PieceOk; hide LinkOk; hide OneTable;
    ghost var next := Step(sources, st, Retire(d));
    StepNames(sources, st, Retire(d));
    PiecesMove(k, sources, st, next.readers, d);
    LinksMove(k, sources, st, next.readers, d);
    assert DecoderOk(k.ds[d], sources[d], st.readers[d]);
    k.ds[d].DecodeBytes();
  }

  /** Performs one call. */
  method Perform(k: Desk, op: Op, ghost sources: seq<Source>, ghost st: State) returns (k': Desk)
    requires Linked(k, sources, st) && |st.rows| + Reach(op) <= MAX_INT
    modifies k.w, k.w.d, k.bs, k.ds
    modifies set i | 0 <= i < |k.ds| :: k.ds[i].granules
    modifies set i | 0 <= i < |k.ds| :: k.ds[i].streams
    modifies set i | 0 <= i < |k.ds| :: k.ds[i].streams.buf
    ensures Linked(k', sources, Step(sources, st, op))
    ensures k'.w == k.w && k'.ds == k.ds && k.bs <= k'.bs && fresh(k'.bs[|k.bs|..])
  {
    hide DecoderOk; hide Apart; hide OneTable; hide AllWf; hide OwnersOk; hide PieceOk; hide WriterOk;
    k' := k;
    assert op.Wrap? && op.b < |k.bs| ==> LinkOk(k.ds, k.owners, st.readers, k.bs[op.b], st.links[op.b]);
    match op
    case Rows(_) => AppendText(k, op, sources, st);
    case Blob(_, _) => AppendText(k, op, sources, st);
    case NewBinding => k' := AddBinding(k, sources, st);
    case BindOwn(b, entries, stable) => k' := BindOwnTable(k, b, entries, stable, sources, st);
    case BindPiece(b, g, stable) =>
      if g < |k.gs| {
        BindPieceTable(k, b, g, stable, sources, st);
      }
    case BindShared(b, d, stable) =>
      if d < |k.ds| {
        BindSharedTable(k, b, d, stable, sources, st);
      }
    case Decode(d, blk) =>
      if d < |k.ds| {
        k' := DecodeOne(k, d, blk, sources, st);
      }
    case Retire(d) =>
      if d < |k.ds| {
        RetireOne(k, d, sources, st);
      }
    case Wrap(b, ids, width) =>
      if b < |k.bs| && k.bs[b].gen.Gen? {
        k' := WrapBound(k, b, ids, width, sources, st);
      }
    case Append(b, g, lo, hi, keep) =>
      if b < |k.bs| && g < |k.gs| {
        AppendPiece(k, b, g, lo, hi, keep, sources, st);
      }
  }

  /** The objects decoders are made of. */
  ghost function Parts(ds: seq<Decoder>): set<object> {
    if ds == [] then {}
    else
      var d := ds[|ds| - 1];
      Parts(ds[..|ds| - 1]) + {d, d.granules, d.sharedGen, d.streams, d.streams.buf}
  }

  lemma {:induction false} PartsHave(ds: seq<Decoder>, i: nat)
    requires i < |ds|
    ensures ds[i] in Parts(ds) && ds[i].granules in Parts(ds) && ds[i].sharedGen in Parts(ds) && ds[i].streams in Parts(ds) && ds[i].streams.buf in Parts(ds)
  {
    if i < |ds| - 1 {
      PartsHave(ds[..|ds| - 1], i);
    }
  }

  lemma PartsSnoc(ds: seq<Decoder>, d: Decoder)
    ensures Parts(ds + [d]) == Parts(ds) + {d, d.granules, d.sharedGen, d.streams, d.streams.buf}
  {
    assert (ds + [d])[..|ds|] == ds;
  }

  lemma ApartSnoc(ds: seq<Decoder>, d: Decoder)
    requires Apart(ds, []) && d.granules != d.sharedGen
    requires d !in Parts(ds) && d.granules !in Parts(ds) && d.sharedGen !in Parts(ds) && d.streams !in Parts(ds) && d.streams.buf !in Parts(ds)
    ensures Apart(ds + [d], [])
  {
    forall i | 0 <= i < |ds|
      ensures ds[i] != d && ds[i].granules != d.granules && ds[i].sharedGen != d.sharedGen && ds[i].streams != d.streams
      ensures ds[i].streams.buf != d.streams.buf && ds[i].granules != d.sharedGen && ds[i].sharedGen != d.granules
    {
      PartsHave(ds, i);
    }
  }

  /** Opens a decoder over each source. */
  method OpenAll(sources: seq<Source>) returns (ds: seq<Decoder>)
    requires AllWf(sources)
    ensures fresh(Parts(ds)) && Apart(ds, []) && DecodersOk(ds, sources, Opened(sources).readers)
  {
    hide Apart; hide DecodersOk; hide Parts; hide AllWf;
    ds := [];
    ghost var readers := Opened(sources).readers;
    NoParts();
    assert sources[..0] == [] && readers[..0] == [];
    for k := 0 to |sources|
      invariant |ds| == k && fresh(Parts(ds)) && Apart(ds, []) && DecodersOk(ds, sources[..k], readers[..k])
    {
      var before := ds;
      WfAt(sources, k);
      ds := OpenNext(before, sources[k], sources[..k], readers[..k]);
      ghost var more := Parts(ds) - Parts(before);
      assert fresh(more) && forall x :: x in Parts(ds) ==> x in more || x in Parts(before);
      assert sources[..k + 1] == sources[..k] + [sources[k]] && readers[..k + 1] == readers[..k] + [readers[k]];
    }
    assert sources[..|sources|] == sources && readers[..|sources|] == readers;
  }

  lemma WfAt(sources: seq<Source>, k: nat)
    requires AllWf(sources) && k < |sources|
    ensures sources[k].Wf()
  {
  }

  /** Opens one more decoder, apart from those open. */
  method OpenNext(before: seq<Decoder>, src: Source, ghost sources: seq<Source>, ghost readers: seq<Reader>) returns (ds: seq<Decoder>)
    requires src.Wf() && Apart(before, []) && DecodersOk(before, sources, readers)
    ensures |ds| == |before| + 1 && fresh(Parts(ds) - Parts(before)) && Apart(ds, [])
    ensures DecodersOk(ds, sources + [src], readers + [Reader(Cache(-1, []), 0)])
  {
    hide Apart; hide DecodersOk; hide DecoderOk; hide Parts;
    var d := OpenOne(src, Parts(before));
    PartsSnoc(before, d);
    ApartSnoc(before, d);
    DecodersSnoc(before, sources, readers, d, src, Reader(Cache(-1, []), 0));
    ds := before + [d];
  }

  lemma NoParts()
    ensures Parts([]) == {} && Apart([], []) && DecodersOk([], [], [])
  {
  }

  lemma DecodersSnoc(ds: seq<Decoder>, sources: seq<Source>, readers: seq<Reader>, d: Decoder, src: Source, r: Reader)
    requires DecodersOk(ds, sources, readers) && DecoderOk(d, src, r)
    ensures DecodersOk(ds + [d], sources + [src], readers + [r])
  {
    hide DecoderOk;
  }

  method OpenOne(src: Source, ghost others: set<object>) returns (d: Decoder)
    requires src.Wf()
    ensures fresh(d) && fresh(d.granules) && fresh(d.sharedGen) && fresh(d.streams) && fresh(d.streams.buf) && d.granules != d.sharedGen
    ensures d !in others && d.granules !in others && d.sharedGen !in others && d.streams !in others && d.streams.buf !in others
    ensures DecoderOk(d, src, Reader(Cache(-1, []), 0))
  {
    d := new Decoder(src);
  }

  function RunReach(ops: seq<Op>): nat {
    if ops == [] then 0 else RunReach(ops[..|ops| - 1]) + Reach(ops[|ops| - 1])
  }

  lemma {:induction false} RunReachMono(ops: seq<Op>, k: nat)
    requires k <= |ops|
    ensures RunReach(ops[..k]) <= RunReach(ops)
    decreases |ops|
  {
    if k == |ops| {
      assert ops[..k] == ops;
    } else {
      var init := ops[..|ops| - 1];
      RunReachMono(init, k);
      assert init[..k] == ops[..k];
    }
  }

  /** A call appends no more rows than its reach. */
  lemma StepReach(sources: seq<Source>, st: State, op: Op)
    requires AllWf(sources) && |st.readers| == |sources|
    ensures |Step(sources, st, op).rows| <= |st.rows| + Reach(op)
  {
    hide Serve; hide Source.Decoded; hide Source.Stream; hide Source.Joined; hide PointsInside;
    match op
    case Blob(blob, offsets) =>
      GoodSpansLen(blob, offsets, 0);
      CellsLen(blob, offsets, GoodSpans(blob, offsets, 0));
    case Append(b, g, lo, hi, keep) =>
      if b < |st.links| && g < |st.pieces| && st.links[b].BoundTo? {
        AppendedLen(st.pieces[g].col, st.links[b].entries, lo, hi, keep);
      }
    case _ =>
  }

  lemma {:induction false} RunRowsLen(sources: seq<Source>, ops: seq<Op>)
    requires AllWf(sources)
    ensures |Run(sources, ops).rows| <= RunReach(ops)
  {
    hide Step;
    if ops != [] {
      RunRowsLen(sources, ops[..|ops| - 1]);
      StepReach(sources, Run(sources, ops[..|ops| - 1]), ops[|ops| - 1]);
    }
  }

  lemma {:induction false} CellsLen(blob: Bytes, offsets: seq<int>, n: nat)
    ensures |Cells(blob, offsets, n)| == n
  {
    if n > 0 {
      CellsLen(blob, offsets, n - 1);
    }
  }

  lemma {:induction false} GoodSpansLen(blob: Bytes, offsets: seq<int>, k: nat)
    requires k <= |offsets|
    ensures GoodSpans(blob, offsets, k) <= |offsets|
    decreases |offsets| - k
  {
    if SpanAt(blob, offsets, k) {
      GoodSpansLen(blob, offsets, k + 1);
    }
  }

  lemma {:induction false} KeptLen(col: DictColumn, lo: nat, r: nat, keep: Option<seq<bool>>)
    requires lo <= r <= col.Len() && (keep.Some? ==> r - lo <= |keep.value|) && col.width <= 2
    ensures |Kept(col, lo, r, keep)| <= r - lo
    decreases r
  {
    if r > lo {
      KeptLen(col, lo, r - 1, keep);
    }
  }

  lemma AppendedLen(col: DictColumn, entries: seq<Value>, lo: int, hi: int, keep: Option<seq<bool>>)
    ensures |Appended(col, entries, lo, hi, keep)| <= if hi < lo then 0 else hi - lo
  {
    if Accepts(col, entries, lo, hi, keep) {
      var seen := Through(col, entries);
      KeptLen(seen, lo, FirstBad(seen, lo, hi, keep), keep);
    }
  }

  /**
   Any run of calls over any decoders: the column the streaming writer seals is the one the rows of the
   run on values stand for, though granules and bound tables alias frames that were overwritten since.
   */
  method Stream(sources: seq<Source>, ops: seq<Op>, size: nat, cap: int) returns (col: Column)
    requires AllWf(sources) && size > 0 && RunReach(ops) <= MAX_INT
    ensures col == Encode(cap, Chunks(Run(sources, ops).rows, size))
  {
    hide NamesOk; hide PiecesOk; hide LinksOk; hide Parts; hide Step; hide StreamWriter.Valid; hide StreamWriter.Rows; hide Encode; hide Chunks;
    var w := new StreamWriter(size, cap);
    var ds := OpenAll(sources);
    var k := Desk(w, ds, [], [], []);
    DeskOpens(k, sources);
    assert ops[..0] == [];
    for n := 0 to |ops|
      invariant k.w == w && k.ds == ds && fresh(w) && fresh(w.d) && fresh(k.bs) && fresh(Parts(ds)) && w.granuleSize == size && w.d.cap == cap
      invariant Linked(k, sources, Run(sources, ops[..n]))
    {
      assert ops[..n + 1][..n] == ops[..n];
      RunRowsLen(sources, ops[..n]);
      RunReachMono(ops, n + 1);
      forall i | 0 <= i < |ds| ensures fresh(ds[i]) && fresh(ds[i].granules) && fresh(ds[i].streams) && fresh(ds[i].streams.buf) {
        PartsHave(ds, i);
      }
      k := Perform(k, ops[n], sources, Run(sources, ops[..n]));
    }
    assert ops[..|ops|] == ops;
    col := w.Finish();
  }

  lemma DeskOpens(k: Desk, sources: seq<Source>)
    requires AllWf(sources) && Apart(k.ds, []) && DecodersOk(k.ds, sources, Opened(sources).readers)
    requires k.owners == [] && k.bs == [] && k.gs == [] && k.w.Valid() && !k.w.finished && k.w.Rows() == []
    ensures Linked(k, sources, Opened(sources))
  {
    hide DecodersOk; hide StreamWriter.Valid; hide StreamWriter.Rows; hide OneTable; hide AllWf;
    OpenedNames(sources);
  }

  /**
   Streaming refines batch: over any decoders and any calls, the streaming writer and the batch writer
   given the run's rows write the same granules (modes, widths and ids) and the same dictionary in order.
   */
  method StreamRefinesBatch(sources: seq<Source>, ops: seq<Op>, flat: seq<Value>, size: nat, cap: int) returns (streamed: Column, batch: Column)
    requires AllWf(sources) && size > 0 && RunReach(ops) <= MAX_INT && flat == Run(sources, ops).rows
    ensures streamed == batch == Encode(cap, Chunks(flat, size))
  {
    streamed := Stream(sources, ops, size, cap);
    batch := BatchValues(flat, size, cap);
  }
}
