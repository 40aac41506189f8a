/**
 Decode leases. A decoded granule aliases its decoder's reused frame buffer, so it carries a token that
 dies before the buffer can change: whoever still finds the granule live reads what was decoded.
 */
module Lease {
  import opened Wire
  import opened Chunking
  import opened DictSpec
  import opened SharedDict
  import opened BlockStreams

  /** Issues tokens; bumping epoch retires every one it has issued. */
  class DictOwner {
    var epoch: nat
    /** Its tables alias a reused buffer. */
    const framed: bool
    /** Its tables were built by the caller. */
    const owned: bool

    constructor (framed: bool, owned: bool)
      ensures epoch == 0 && this.framed == framed && this.owned == owned
    {
      epoch, this.framed, this.owned := 0, framed, owned;
    }

    /** The token naming the owner's table as it stands. */
    function Token(): (t: DictGen)
      reads this
      ensures t.Live()
    {
      Gen(this, epoch)
    }

    /** Ends every token issued so far; none of them can come alive again, the epoch only growing. */
    method Retire()
      modifies this
      ensures epoch == old(epoch) + 1
      ensures forall e :: 0 <= e <= old(epoch) ==> !Gen(this, e).Live()
    {
      epoch := epoch + 1;
    }
  }

  /** Names one decoded table; the zero value names none. */
  datatype DictGen = NoGen | Gen(owner: DictOwner, epoch: nat) {
    predicate Live()
      reads if Gen? then {owner} else {}
    {
      Gen? && owner.epoch == epoch
    }
  }

  /** A table of entries: one that stays as it is, or spans of a buffer that is reused. */
  datatype Table = Stays(values: seq<Value>) | Aliases(buf: Buffer, spans: seq<Slice>) {
    /** What its entries read as now. */
    function Entries(): seq<Value>
      reads if Stays? then {} else {buf}
    {
      Over(if Stays? then [] else buf.bytes)
    }

    /** What its entries read as over a frame's bytes. */
    function Over(frame: Bytes): seq<Value> { if Stays? then values else Values(frame, spans) }
  }

  /** A decoded column: the shared dictionary with ids in the frame, a table in the frame, or a caller's own. */
  datatype View =
    | OverShared(entries: seq<Value>, buf: Buffer, ids: Slice, width: nat)
    | OverFrame(buf: Buffer, table: seq<Slice>, ids: Slice, width: nat)
    | Held(col: DictColumn)
  {
    /** What reading the column through its views gives now. */
    function Column(): (c: DictColumn)
      reads if Held? then {} else {buf}
      ensures c.entries == Table().Entries()
    {
      Over(if Held? then [] else buf.bytes)
    }

    /** The column its views give over a frame's bytes. */
    function Over(frame: Bytes): DictColumn {
      match this
      case OverShared(entries, _, ids, width) => DictColumn(entries, Cut(frame, ids), width)
      case OverFrame(_, table, ids, width) => DictColumn(Values(frame, table), Cut(frame, ids), width)
      case Held(col) => col
    }

    /** The entry table the column's ids index, aliased where the column aliases it. */
    function Table(): Table {
      match this
      case OverShared(entries, _, _, _) => Stays(entries)
      case OverFrame(buf, table, _, _) => Aliases(buf, table)
      case Held(col) => Stays(col.entries)
    }
  }

  function Values(b: Bytes, table: seq<Slice>): seq<Value> {
    seq(|table|, i requires 0 <= i < |table| => Value(Cut(b, table[i])))
  }

  datatype DecodedGranule = DecodedGranule(dc: View, table: DictGen, lease: DictGen) {
    predicate Live()
      reads if lease.Gen? then {lease.owner} else {}, if table.Gen? then {table.owner} else {}
    {
      lease.Live() && table.Live()
    }
  }

  /** Wraps a caller's column; it is live while the caller's own token is, and never under a decoder's. */
  function OwnedGranule(col: DictColumn, table: DictGen): (g: DecodedGranule)
    reads if table.Gen? then {table.owner} else {}
    ensures g.dc == Held(col) && g.table == table && (g.lease == NoGen || g.lease == table)
    ensures g.Live() <==> table.Live() && table.owner.owned
  {
    DecodedGranule(Held(col), table, if table.Gen? && table.owner.owned then table else NoGen)
  }

  /** A chunk stream's column as spans of the stream. */
  datatype Spans = Spans(table: seq<Slice>, ids: Slice, width: nat) {
    function Shift(off: nat): Spans {
      Spans(seq(|table|, i requires 0 <= i < |table| => Slice(table[i].lo + off, table[i].hi + off)), Slice(ids.lo + off, ids.hi + off), width)
    }

    function Column(b: Bytes): DictColumn { DictColumn(Values(b, table), Cut(b, ids), width) }

    predicate Within(n: nat) {
      && (forall i :: 0 <= i < |table| ==> table[i].lo <= table[i].hi <= n)
      && ids.lo <= ids.hi <= n
    }
  }

  /** A chunk decoder only ever points into the stream it was given. */
  ghost predicate PointsInside(dec: Bytes -> Result<Spans>) {
    forall b :: dec(b).Ok? ==> dec(b).value.Within(|b|)
  }

  /** The column a chunk stream decodes to. */
  function ChunkColumn(dec: Bytes -> Result<Spans>, stream: Bytes): Result<DictColumn> {
    match dec(stream)
    case Err => Err
    case Ok(s) => Ok(s.Column(stream))
  }

  /** The chunk decoder as one of columns. */
  function Columns(dec: Bytes -> Result<Spans>): Bytes -> Result<DictColumn> { s => ChunkColumn(dec, s) }

  /** Reading a shifted span out of a buffer reads the stream it was cut from. */
  lemma ShiftReads(b: Bytes, lo: nat, hi: nat, s: Spans)
    requires lo <= hi <= |b| && s.Within(hi - lo)
    ensures s.Shift(lo).Column(b) == s.Column(b[lo..hi])
  {
    var t := s.Shift(lo);
    forall i | 0 <= i < |s.table| ensures Values(b, t.table)[i] == Values(b[lo..hi], s.table)[i] {
      CutShift(b, lo, hi, s.table[i]);
    }
    CutShift(b, lo, hi, s.ids);
  }

  lemma CutShift(b: Bytes, lo: nat, hi: nat, s: Slice)
    requires lo <= hi <= |b| && s.lo <= s.hi <= hi - lo
    ensures Cut(b, Slice(s.lo + lo, s.hi + lo)) == Cut(b[lo..hi], s)
  {
    SliceSlice(b, lo, hi, s.lo, s.hi);
  }

  /** A bytes column to decode: its rows and granules, its shared dictionary when on, its chunk codec. */
  datatype Source = Source(
    rows: nat, blockRows: nat, shared: seq<Value>, on: bool, trailer: bool, dec: Bytes -> Result<Spans>,
    dir: GranuleDir, frames: seq<FrameRead>)
  {
    ghost predicate Wf() { blockRows > 0 && dir.Wf(|frames|) && PointsInside(dec) }

    predicate InRange(blk: int) { 0 <= blk < dir.Granules() && blk * blockRows < rows }

    /** The rows block blk holds. */
    function Count(blk: int): int {
      (if blk * blockRows + blockRows < rows then blk * blockRows + blockRows else rows) - blk * blockRows
    }

    /** A granule stream indexes the shared dictionary. */
    predicate Joined(stream: Bytes, n: int) {
      n >= 0 && on && var p := SplitGranule(shared, trailer, stream, n); p.Ok? && p.value.Ids?
    }

    /** The column a granule stream of n rows decodes to. */
    function DecodeStream(stream: Bytes, n: int): (r: Result<DictColumn>)
      ensures r.Ok? && Joined(stream, n) ==> r.value.entries == shared
    {
      if n < 0 then Err
      else if on then DecodeGranule(shared, trailer, stream, n, Columns(dec))
      else
        match ChunkColumn(dec, stream)
        case Err => Err
        case Ok(c) => if c.Len() == n then Ok(c) else Err
    }

    /** What decoding block blk gives, read afresh. */
    function Fresh(blk: int): Result<DictColumn>
      requires dir.Wf(|frames|) && InRange(blk)
    {
      match GranuleStream(dir, frames, blk)
      case Err => Err
      case Ok(stream) => DecodeStream(stream, Count(blk))
    }

    /** The stream block blk is decoded from, out of the frame kept. */
    function Stream(c: Cache, blk: int): Result<Bytes>
      requires dir.Wf(|frames|) && InRange(blk)
    {
      var (c', s) := Serve(dir, frames, c, blk);
      if s.Ok? then Ok(Cut(c'.bytes, s.value)) else Err
    }

    /** What decoding block blk gives from the frame kept. */
    function Decoded(c: Cache, blk: int): Result<DictColumn>
      requires dir.Wf(|frames|) && InRange(blk)
    {
      match Stream(c, blk)
      case Err => Err
      case Ok(stream) => DecodeStream(stream, Count(blk))
    }

    /** Decoding from a coherent frame is decoding afresh. */
    lemma DecodedFresh(c: Cache, blk: int)
      requires dir.Wf(|frames|) && InRange(blk) && c.Coherent(frames)
      ensures Decoded(c, blk) == Fresh(blk)
    {
      ServesFresh(dir, frames, c, blk);
    }
  }

  datatype Issue = Issue(g: DecodedGranule, col: DictColumn)

  class Decoder {
    const src: Source
    const sharedGen: DictOwner
    const granules: DictOwner
    const streams: Streams
    /** Every granule handed out, with the column it was decoded to. */
    ghost var issued: set<Issue>

    ghost predicate Valid()
      reads this, granules, sharedGen, streams, streams.buf
    {
      && src.Wf() && streams.dir == src.dir && streams.frames == src.frames && granules != sharedGen
      && sharedGen.epoch == 0 && !sharedGen.framed && granules.framed && !sharedGen.owned && !granules.owned
      && (forall i :: i in issued ==> Sound(i))
      && (forall i, j :: i in issued && j in issued && i.g.lease == j.g.lease ==> i == j)
    }

    /** A granule handed out: its lease is this decoder's, and while it is live it reads as decoded. */
    ghost predicate Sound(i: Issue)
      reads granules, sharedGen, streams.buf
    {
      && i.g.lease.Gen? && i.g.lease.owner == granules && i.g.lease.epoch <= granules.epoch
      && !i.g.dc.Held? && i.g.dc.buf == streams.buf
      && (i.g.lease.Live() ==> i.g.dc.Column() == i.col)
      && if i.g.dc.OverShared? then i.g.table == Gen(sharedGen, 0) && i.g.dc.entries == i.col.entries == src.shared else i.g.table == i.g.lease
    }

    constructor (src: Source)
      requires src.Wf()
      ensures Valid() && issued == {} && fresh(granules) && fresh(sharedGen) && fresh(streams) && fresh(streams.buf)
      ensures this.src == src && streams.State() == Cache(-1, []) && granules.epoch == 0
    {
      this.src := src;
      sharedGen := new DictOwner(false, false);
      granules := new DictOwner(true, false);
      streams := new Streams(src.dir, src.frames);
      issued := {};
    }

    /** A token names one table: two granules handed out under it index the same entries. */
    lemma OneTable(i: Issue, j: Issue)
      requires Valid() && i in issued && j in issued && i.g.table == j.g.table
      ensures i.col.entries == j.col.entries
    {
      assert Sound(i) && Sound(j);
    }

    /** What is known of a granule handed out and not yet ended. */
    lemma Handed(g: DecodedGranule)
      requires Valid() && Issue(g, g.dc.Column()) in issued && g.Live()
      ensures g.lease == Gen(granules, granules.epoch) && !g.dc.Held? && g.dc.buf == streams.buf
      ensures if g.dc.OverShared? then g.table == Gen(sharedGen, 0) && g.dc.entries == src.shared else g.table == g.lease
    {
      assert Sound(Issue(g, g.dc.Column()));
    }

    /** The shared dictionary and the one token that names it for the decoder's life. */
    method SharedEntries() returns (table: Table, gen: DictGen)
      requires Valid()
      ensures table == Stays(src.shared) && gen == Gen(sharedGen, 0) && gen.Live()
    {
      table, gen := Stays(src.shared), sharedGen.Token();
    }

    /** A merged decode copies what it returns; like closing, it only ends the leases. */
    method DecodeBytes()
      requires Valid()
      modifies granules
      ensures Valid() && granules.epoch == old(granules.epoch) + 1
      ensures forall i :: i in issued ==> !i.g.lease.Live()
    {
      granules.Retire();
    }

    /**
     Decodes one granule against the kept frame, ending every earlier lease before the frame can move.
     The granule handed out is live and reads as decoded.
     */
    method DecodeBytesBlock(blk: int) returns (r: Result<DecodedGranule>)
      requires Valid()
      modifies this, granules, streams, streams.buf
      ensures Valid()
      ensures !src.InRange(blk) ==> r.Err? && streams.State() == old(streams.State()) && granules.epoch == old(granules.epoch) && issued == old(issued)
      ensures src.InRange(blk) ==>
                && streams.State() == Serve(src.dir, src.frames, old(streams.State()), blk).0
                && granules.epoch == old(granules.epoch) + 1
                && (forall i :: i in old(issued) ==> !i.g.lease.Live())
                && match src.Decoded(old(streams.State()), blk)
                   case Err => r.Err? && issued == old(issued)
                   case Ok(col) => r.Ok? && r.value.dc.Column() == col && r.value.Live() && issued == old(issued) + {Issue(r.value, col)}
                                   && (r.value.dc.OverShared? <==> src.Joined(src.Stream(old(streams.State()), blk).value, src.Count(blk)))
    {
      hide Source.DecodeStream; hide View.Column; hide Serve; hide PointsInside; hide Source.Joined; hide Cut;
      if blk < 0 || blk >= src.dir.Granules() {
        return Err;
      }
      var lo := blk * src.blockRows;
      if lo >= src.rows {
        return Err;
      }
      var n := (if lo + src.blockRows < src.rows then lo + src.blockRows else src.rows) - lo;
      granules.Retire();
      var s := streams.Granule(blk);
      if s.Err? {
        return Err;
      }
      var v := Open(s.value, n);
      if v.Err? {
        return Err;
      }
      var g := DecodedGranule(v.value, if v.value.OverShared? then sharedGen.Token() else granules.Token(), granules.Token());
      issued := issued + {Issue(g, g.dc.Column())};
      r := Ok(g);
    }

    /** Views a granule's column through a span of the buffer. */
    method Open(s: Slice, n: nat) returns (r: Result<View>)
      requires PointsInside(src.dec) && s.lo <= s.hi <= |streams.buf.bytes|
      ensures match src.DecodeStream(Cut(streams.buf.bytes, s), n)
              case Ok(col) => r.Ok? && r.value.Column() == col
              case Err => r.Err?
      ensures r.Ok? ==> !r.value.Held? && r.value.buf == streams.buf && (r.value.OverShared? <==> src.Joined(Cut(streams.buf.bytes, s), n))
      ensures r.Ok? && r.value.OverShared? ==> r.value.entries == src.shared
    {
      var stream := Cut(streams.buf.bytes, s);
      var lo := s.lo;
      if src.on {
        var p := SplitGranule(src.shared, src.trailer, stream, n);
        if p.Err? {
          return Err;
        }
        if p.value.Ids? {
          return Ok(OverShared(src.shared, streams.buf, Slice(lo + 1, s.hi), p.value.width));
        }
        stream, lo := p.value.stream, lo + 1;
      }
      var d := src.dec(stream);
      if d.Err? {
        return Err;
      }
      assert stream == streams.buf.bytes[lo..s.hi];
      ShiftReads(streams.buf.bytes, lo, s.hi, d.value);
      var at := d.value.Shift(lo);
      var dc := OverFrame(streams.buf, at.table, at.ids, at.width);
      assert dc.Column() == d.value.Column(stream);
      if dc.Column().Len() != n {
        return Err;
      }
      r := Ok(dc);
    }
  }
}
