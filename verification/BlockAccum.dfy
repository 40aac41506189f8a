/**
 The writer's accumulator: granule streams sealed into frames as they come, the frames kept until the
 end or handed to a sink attached at any moment, and the directory written once they are all known.
 */
module BlockAccum {
  import opened Wire
  import opened Chunking
  import opened Directory
  import opened DirectoryMeaning
  import opened DirectoryRoundTrip
  import opened Layouts
  import opened Packing

  // ------------------------------------------------------------ the directory, written in order

  lemma {:induction false} PutFramesSnoc(fs: seq<FrameRec>, f: FrameRec)
    ensures PutFrames(fs + [f]) == PutFrames(fs) + PutUvarint(|f.lens|) + PutUvarint(f.len) + PutU32(f.crc)
  {
    hide PutUvarint; hide PutU32; hide PutFrames;
    if fs == [] {
      PutFramesHead([f]);
      FramesEmpty();
      assert fs + [f] == [f] && [f][1..] == [];
    } else {
      PutFramesSnoc(fs[1..], f);
      PutFramesHead(fs);
      PutFramesHead(fs + [f]);
      assert (fs + [f])[1..] == fs[1..] + [f];
    }
  }

  lemma FramesEmpty()
    ensures PutFrames([]) == [] && PutLens([]) == [] && Lens([]) == []
  {
  }

  lemma {:induction false} PutLensSnoc(ls: seq<nat>, l: nat)
    ensures PutLens(ls + [l]) == PutLens(ls) + PutUvarint(l)
  {
    hide PutUvarint;
    if ls == [] {
      assert ls + [l] == [l] && [l][1..] == [];
    } else {
      PutLensSnoc(ls[1..], l);
      assert (ls + [l])[1..] == ls[1..] + [l];
      Assoc(PutUvarint(ls[0]), PutLens(ls[1..]), PutUvarint(l));
    }
  }

  lemma NoChunks(timeBounds: bool, previous: int)
    ensures PutChunks([], timeBounds, previous) == []
  {
  }

  function LastMin(cs: seq<ChunkRec>, previous: int): int { if cs == [] then previous else cs[|cs| - 1].min }

  lemma {:induction false} PutChunksSnoc(cs: seq<ChunkRec>, c: ChunkRec, timeBounds: bool, previous: int)
    ensures PutChunks(cs + [c], timeBounds, previous) == PutChunks(cs, timeBounds, previous) + PutChunk(c, timeBounds, LastMin(cs, previous))
    decreases cs
  {
    hide PutChunk; hide PutChunks;
    if cs == [] {
      assert cs + [c] == [c] && [c][1..] == [];
      PutChunksHead([c], timeBounds, previous);
      NoChunks(timeBounds, previous);
      NoChunks(timeBounds, c.min);
    } else {
      PutChunksSnoc(cs[1..], c, timeBounds, cs[0].min);
      PutChunksHead(cs, timeBounds, previous);
      PutChunksHead(cs + [c], timeBounds, previous);
      assert (cs + [c])[1..] == cs[1..] + [c];
      Assoc(PutChunk(cs[0], timeBounds, previous), PutChunks(cs[1..], timeBounds, cs[0].min), PutChunk(c, timeBounds, LastMin(cs, previous)));
    }
  }

  /** The sealed frames' records as the accumulator keeps them, one list a field. */
  datatype Records = Records(granules: seq<nat>, bytes: seq<nat>, crcs: seq<uint32>, raws: seq<nat>, gLens: seq<nat>) {
    ghost predicate Are(fs: seq<FrameRec>) {
      && |granules| == |bytes| == |crcs| == |raws| == |fs|
      && (forall i :: 0 <= i < |fs| ==> granules[i] == |fs[i].lens| && bytes[i] == fs[i].len && crcs[i] == fs[i].crc)
      && (forall i :: 0 <= i < |fs| ==> raws[i] == Sum(fs[i].lens))
    }
  }

  method PutFrameTable(dst: Bytes, r: Records, ghost fs: seq<FrameRec>) returns (dir: Bytes)
    requires r.Are(fs)
    ensures dir == dst + PutFrames(fs)
  {
    hide PutUvarint; hide PutU32; hide PutFrames; hide Sum;
    FramesEmpty();
    dir := dst;
    for i := 0 to |r.granules|
      invariant dir == dst + PutFrames(fs[..i])
    {
      dir := dir + PutUvarint(r.granules[i]) + PutUvarint(r.bytes[i]) + PutU32(r.crcs[i]);
      PutFramesSnoc(fs[..i], fs[i]);
      assert fs[..i] + [fs[i]] == fs[..i + 1];
    }
    assert fs[..|fs|] == fs;
  }

  method PutGranuleLens(dst: Bytes, ls: seq<nat>) returns (dir: Bytes)
    ensures dir == dst + PutLens(ls)
  {
    hide PutUvarint; hide PutLens;
    FramesEmpty();
    dir := dst;
    for i := 0 to |ls|
      invariant dir == dst + PutLens(ls[..i])
    {
      dir := dir + PutUvarint(ls[i]);
      PutLensSnoc(ls[..i], ls[i]);
      assert ls[..i] + [ls[i]] == ls[..i + 1];
    }
    assert ls[..|ls|] == ls;
  }

  function ChunkRecs(rows: seq<nat>, mins: seq<int>, maxs: seq<int>, timeBounds: bool): seq<ChunkRec>
    requires timeBounds ==> |mins| == |maxs| == |rows|
  {
    seq(|rows|, i requires 0 <= i < |rows| => ChunkRec(rows[i], if timeBounds then mins[i] else 0, if timeBounds then maxs[i] else 0))
  }

  method PutChunkRows(dst: Bytes, rows: seq<nat>, mins: seq<int>, maxs: seq<int>, timeBounds: bool) returns (dir: Bytes)
    requires timeBounds ==> |mins| == |maxs| == |rows|
    ensures dir == dst + PutChunks(ChunkRecs(rows, mins, maxs, timeBounds), timeBounds, 0)
  {
    hide PutUvarint; hide PutVarint; hide PutChunks; hide Wrap64;
    ghost var cs := ChunkRecs(rows, mins, maxs, timeBounds);
    NoChunks(timeBounds, 0);
    dir := dst;
    var previous := 0;
    for i := 0 to |rows|
      invariant dir == dst + PutChunks(cs[..i], timeBounds, 0)
      invariant previous == LastMin(cs[..i], 0)
    {
      dir := dir + PutUvarint(rows[i]);
      if timeBounds {
        dir := dir + PutVarint(Wrap64(mins[i] - previous)) + PutVarint(Wrap64(maxs[i] - mins[i]));
        previous := mins[i];
      }
      PutChunksSnoc(cs[..i], cs[i], timeBounds, 0);
      assert cs[..i] + [cs[i]] == cs[..i + 1];
    }
    assert cs[..|cs|] == cs;
  }

  method PutDir(blockRows: nat, variable: bool, timeBounds: bool, r: Records, rows: seq<nat>, mins: seq<int>, maxs: seq<int>,
                compact: bool, env: Env, ghost a: Sealed)
    returns (dir: Bytes, packed: bool)
    requires r.Are(a.frames) && r.gLens == Lens(a.frames)
    requires timeBounds ==> |mins| == |maxs| == |rows|
    requires a == Sealed(blockRows, a.frames, variable, timeBounds, ChunkRecs(rows, mins, maxs, timeBounds))
    ensures (dir, packed) == StoredDir(a, compact, env)
  {
    hide PutUvarint; hide PutU32; hide PutFrames; hide PutLens; hide PutChunks; hide Lens; hide Records.Are;
    assert |r.granules| == |a.frames| by { RecordsCount(r, a.frames); }
    dir := PutUvarint(|r.gLens|);
    dir := dir + PutUvarint(blockRows);
    dir := dir + PutUvarint(|r.granules|);
    dir := PutFrameTable(dir, r, a.frames);
    dir := PutGranuleLens(dir, r.gLens);
    if variable {
      dir := PutChunkRows(dir, rows, mins, maxs, timeBounds);
    } else {
      dir := dir + [];
    }
    assert dir == Fields(a);
    dir := dir + PutU32(env.crc(dir));
    packed := false;
    if variable && compact {
      var small := PutUvarint(|dir|) + env.pack(dir);
      if |small| + CRC_BYTES < |dir| {
        packed := true;
        dir := small + PutU32(env.crc(small));
      }
    }
  }

  lemma RecordsCount(r: Records, fs: seq<FrameRec>)
    requires r.Are(fs)
    ensures |r.granules| == |fs|
  {
  }

  /** The manifest's record of a finished column, totted up from the accumulator's lists. */
  method TallySizing(r: Records, dirLen: nat, ghost a: Sealed) returns (s: Sizing)
    requires r.Are(a.frames) && r.gLens == Lens(a.frames)
    ensures s == SizingOf(a, dirLen)
  {
    hide Lens;
    ghost var fs := a.frames;
    var ls := r.gLens;
    assert fs[0..] == fs && ls[0..] == ls;
    var maxBytes: nat, maxRaw, maxGran, total := 0, 0, 0, 0;
    for i := 0 to |r.bytes|
      invariant MaxLen(maxBytes, fs[i..]) == MaxLen(0, fs)
    {
      maxBytes := Max(maxBytes, r.bytes[i]);
      assert fs[i..][1..] == fs[i + 1..];
    }
    for i := 0 to |r.raws|
      invariant MaxRaw(maxRaw, fs[i..]) == MaxRaw(0, fs)
    {
      maxRaw := Max(maxRaw, r.raws[i]);
      assert fs[i..][1..] == fs[i + 1..];
    }
    for i := 0 to |ls|
      invariant MaxOf(maxGran, ls[i..]) == MaxOf(0, ls) && total + Sum(ls[i..]) == Sum(ls)
    {
      maxGran, total := Max(maxGran, ls[i]), total + ls[i];
      assert ls[i..][1..] == ls[i + 1..];
    }
    s := Sizing(total, dirLen, |ls|, |r.granules|, maxBytes, maxRaw, maxGran);
  }

  // ------------------------------------------------------------ the accumulator

  /** Where a streamed column goes: bytes are taken in the order they are written. */
  class Sink {
    var bytes: Bytes
    var committed: bool

    constructor ()
      ensures bytes == [] && !committed
    {
      bytes, committed := [], false;
    }

    method Write(b: Bytes)
      modifies this
      ensures bytes == old(bytes) + b && committed == old(committed)
    {
      bytes := bytes + b;
    }

    method Commit()
      modifies this
      ensures bytes == old(bytes) && committed
    {
      committed := true;
    }
  }

  /** The records of a packing: its frames' and every granule's, the open frame's too. */
  ghost predicate RecordsOk(r: Records, p: Packing, c: Codec) {
    r.Are(Recs(p.groups, c)) && r.gLens == LensOf(Flatten(p.groups) + p.open)
  }

  function RecordStream(r: Records, n: nat): Records { r.(gLens := r.gLens + [n]) }

  function RecordFrame(r: Records, granules: nat, bytes: nat, crc: uint32, raw: nat): Records {
    Records(r.granules + [granules], r.bytes + [bytes], r.crcs + [crc], r.raws + [raw], r.gLens)
  }

  lemma StreamRecorded(r: Records, p: Packing, c: Codec, s: Bytes)
    requires RecordsOk(r, p, c)
    ensures RecordsOk(RecordStream(r, |s|), Packing(p.groups, p.open + [s]), c)
  {
    hide Records.Are; hide Recs; hide Flatten;
    AreSame(r, RecordStream(r, |s|), Recs(p.groups, c));
    Assoc(Flatten(p.groups), p.open, [s]);
    var all := Flatten(p.groups) + p.open;
    assert LensOf(all + [s]) == LensOf(all) + [|s|];
  }

  lemma AreSame(r: Records, q: Records, fs: seq<FrameRec>)
    requires r.Are(fs) && q == r.(gLens := q.gLens)
    ensures q.Are(fs)
  {
  }

  lemma FrameRecorded(r: Records, p: Packing, c: Codec)
    requires RecordsOk(r, p, c)
    ensures var f := FrameOf(p.open, c);
            RecordsOk(RecordFrame(r, |p.open|, |f|, c.crc(f), |Flatten(p.open)|), Packing(p.groups + [p.open], []), c)
  {
    hide Flatten; hide FrameOf; hide Sum;
    var gs := p.groups + [p.open];
    RecsSnoc(p.groups, p.open, c);
    LensSum(p.open);
    FlattenSnoc(p.groups, p.open);
    assert Flatten(gs) + [] == Flatten(gs);
  }

  lemma RecsSnoc(gs: seq<seq<Bytes>>, g: seq<Bytes>, c: Codec)
    ensures Recs(gs + [g], c) == Recs(gs, c) + [RecOf(g, c)]
    ensures FramesOf(gs + [g], c) == FramesOf(gs, c) + [FrameOf(g, c)]
  {
    hide RecOf; hide FrameOf;
  }

  lemma DataSnoc(gs: seq<seq<Bytes>>, g: seq<Bytes>, c: Codec)
    ensures Data(gs + [g], c) == Data(gs, c) + FrameOf(g, c)
  {
    hide Flatten; hide FrameOf;
    RecsSnoc(gs, g, c);
    FlattenSnoc(FramesOf(gs, c), FrameOf(g, c));
  }

  /** Where the sealed frames are: kept, or all in the sink. */
  ghost predicate Held(p: Packing, c: Codec, frames: seq<Bytes>, bytes: nat, sunk: bool, out: Bytes, written: nat) {
    && bytes == |Data(p.groups, c)|
    && (if sunk then frames == [] && out == Data(p.groups, c) && written == |out| else frames == FramesOf(p.groups, c) && written == 0)
  }

  lemma StartsHeld(c: Codec)
    ensures RecordsOk(Records([], [], [], [], []), EMPTY, c) && Held(EMPTY, c, [], 0, false, [], 0) && Flatten(EMPTY.open) == []
  {
  }

  lemma HeldOpen(p: Packing, q: Packing, c: Codec, frames: seq<Bytes>, bytes: nat, sunk: bool, out: Bytes, written: nat)
    requires Held(p, c, frames, bytes, sunk, out, written) && q.groups == p.groups
    ensures Held(q, c, frames, bytes, sunk, out, written)
  {
  }

  lemma HeldSeal(p: Packing, c: Codec, frames: seq<Bytes>, bytes: nat, sunk: bool, out: Bytes, written: nat)
    requires Held(p, c, frames, bytes, sunk, out, written)
    ensures var f, q := FrameOf(p.open, c), Packing(p.groups + [p.open], []);
            && (sunk ==> Held(q, c, frames, bytes + |f|, sunk, out + f, written + |f|))
            && (!sunk ==> Held(q, c, frames + [f], bytes + |f|, sunk, out, written))
  {
    hide Data; hide FramesOf; hide FrameOf;
    DataSnoc(p.groups, p.open, c);
    RecsSnoc(p.groups, p.open, c);
  }

  lemma HeldBytes(p: Packing, c: Codec, frames: seq<Bytes>, bytes: nat, sunk: bool, out: Bytes, written: nat)
    requires Held(p, c, frames, bytes, sunk, out, written)
    ensures if sunk then out == Data(p.groups, c) && written == |out| else Flatten(frames) == Data(p.groups, c)
  {
    hide FramesOf;
  }

  /** A finished column's bytes; the closing length is truncated to 32 bits. */
  function ObjectBytes(dir: Bytes, region: Option<Bytes>, data: Bytes, streamed: bool): Bytes {
    if region.Some? then data + region.value + dir + PutU32(|dir| % 0x1_0000_0000)
    else if streamed then data + dir + PutU32(|dir| % 0x1_0000_0000)
    else dir + data
  }

  /** The frames drained one by one into an object. */
  method LayOut(frames: seq<Bytes>, dir: Bytes, region: Option<Bytes>) returns (obj: Bytes)
    ensures obj == ObjectBytes(dir, region, Flatten(frames), false)
  {
    hide Flatten; hide PutU32;
    obj := if region.None? then dir else [];
    ghost var head := obj;
    FlattenNil<byte>();
    for i := 0 to |frames|
      invariant obj == head + Flatten(frames[..i])
    {
      obj := obj + frames[i];
      FlattenSnoc(frames[..i], frames[i]);
      assert frames[..i] + [frames[i]] == frames[..i + 1];
    }
    assert frames[..|frames|] == frames;
    if region.Some? {
      obj := obj + region.value;
      obj := obj + dir;
      obj := obj + PutU32(|dir| % 0x1_0000_0000);
    }
  }

  class BlockAccum {
    const codec: Codec
    const env: Env
    const compressBytes: nat
    const variable: bool
    const timeBounds: bool
    const compactDir: bool
    var frames: seq<Bytes>
    var records: Records
    var minKeys: seq<int>
    var maxKeys: seq<int>
    var chunkRows: seq<nat>
    var pending: Bytes
    var inFrame: nat
    var bytes: nat
    var dirLen: nat
    var packedDir: bool
    var sink: Sink?
    var written: nat
    ghost var packing: Packing

    ghost predicate Valid()
      reads this, sink
    {
      && RecordsOk(records, packing, codec)
      && pending == Flatten(packing.open) && inFrame == |packing.open|
      && Held(packing, codec, frames, bytes, sink != null, if sink == null then [] else sink.bytes, written)
    }

    constructor (codec: Codec, env: Env, compressBytes: nat, variable: bool, timeBounds: bool, compactDir: bool)
      requires compressBytes > 0
      ensures Valid() && sink == null && packing == EMPTY
      ensures this.codec == codec && this.env == env && this.compressBytes == compressBytes && this.variable == variable
      ensures this.timeBounds == timeBounds && this.compactDir == compactDir && chunkRows == [] && minKeys == [] && maxKeys == []
    {
      this.codec, this.env, this.compressBytes := codec, env, compressBytes;
      this.variable, this.timeBounds, this.compactDir := variable, timeBounds, compactDir;
      frames, records, minKeys, maxKeys, chunkRows := [], Records([], [], [], [], []), [], [], [];
      pending, inFrame, bytes, dirLen, packedDir, sink, written := [], 0, 0, 0, false, null, 0;
      packing := EMPTY;
      StartsHeld(codec);
    }

    /** A granule's stream joins the open frame, which is sealed once it is full. */
    method AddGranule(stream: Bytes)
      requires Valid()
      modifies this, sink
      ensures Valid() && packing == Add(old(packing), stream, compressBytes)
      ensures sink == old(sink) && (sink != null ==> sink.committed == old(sink.committed))
      ensures chunkRows == old(chunkRows) && minKeys == old(minKeys) && maxKeys == old(maxKeys)
    {
      hide RecordsOk; hide Held; hide Flatten;
      ghost var p := packing;
      StreamRecorded(records, packing, codec, stream);
      FlattenSnoc(packing.open, stream);
      HeldOpen(p, Packing(p.groups, p.open + [stream]), codec, frames, bytes, sink != null, if sink == null then [] else sink.bytes, written);
      pending := pending + stream;
      records := RecordStream(records, |stream|);
      inFrame := inFrame + 1;
      packing := Packing(p.groups, p.open + [stream]);
      if |pending| >= compressBytes {
        Seal();
      }
    }

    method Seal()
      requires Valid()
      modifies this, sink
      ensures Valid() && packing == Close(old(packing))
      ensures sink == old(sink) && (sink != null ==> sink.committed == old(sink.committed))
      ensures chunkRows == old(chunkRows) && minKeys == old(minKeys) && maxKeys == old(maxKeys)
    {
      hide RecordsOk; hide Held; hide Flatten;
      if inFrame == 0 {
        return;
      }
      ghost var p := packing;
      var f := codec.pack(pending);
      FrameRecorded(records, p, codec);
      HeldSeal(p, codec, frames, bytes, sink != null, if sink == null then [] else sink.bytes, written);
      records := RecordFrame(records, inFrame, |f|, codec.crc(f), |pending|);
      bytes := bytes + |f|;
      pending, inFrame := [], 0;
      packing := Packing(p.groups + [p.open], []);
      FlattenNil<byte>();
      if sink == null {
        frames := frames + [f];
      } else {
        Emit(f);
      }
    }

    method Emit(f: Bytes)
      requires sink != null
      modifies this`written, sink
      ensures sink.bytes == old(sink.bytes) + f && sink.committed == old(sink.committed) && written == old(written) + |f|
    {
      sink.Write(f);
      written := written + |f|;
    }

    /** Moves every frame kept so far into a sink, in order; what is sealed later follows them. */
    method Attach(w: Sink)
      requires Valid() && sink == null && w.bytes == []
      modifies this, w
      ensures Valid() && sink == w && packing == old(packing) && w.committed == old(w.committed)
      ensures chunkRows == old(chunkRows) && minKeys == old(minKeys) && maxKeys == old(maxKeys)
    {
      hide RecordsOk; hide Flatten;
      sink := w;
      var kept := frames;
      FlattenNil<byte>();
      for i := 0 to |kept|
        invariant sink == w && w.bytes == Flatten(kept[..i]) && written == |w.bytes| && w.committed == old(w.committed)
        invariant packing == old(packing) && records == old(records) && pending == old(pending) && inFrame == old(inFrame) && bytes == old(bytes)
        invariant chunkRows == old(chunkRows) && minKeys == old(minKeys) && maxKeys == old(maxKeys)
      {
        Emit(kept[i]);
        FlattenSnoc(kept[..i], kept[i]);
        assert kept[..i] + [kept[i]] == kept[..i + 1];
      }
      assert kept[..|kept|] == kept;
      frames := [];
    }

    /** Closes a variable-size chunk: its rows and keys are recorded and its frame shared with no other. */
    method SealChunk(rows: nat, minKey: int, maxKey: int)
      requires Valid()
      modifies this, sink
      ensures Valid() && sink == old(sink) && (sink != null ==> sink.committed == old(sink.committed))
      ensures packing == if variable then Close(old(packing)) else old(packing)
      ensures variable ==> chunkRows == old(chunkRows) + [rows]
      ensures variable && timeBounds ==> minKeys == old(minKeys) + [minKey] && maxKeys == old(maxKeys) + [maxKey]
      ensures !variable ==> chunkRows == old(chunkRows)
      ensures !(variable && timeBounds) ==> minKeys == old(minKeys) && maxKeys == old(maxKeys)
    {
      hide RecordsOk; hide Held; hide Flatten;
      if variable {
        if timeBounds {
          minKeys, maxKeys := minKeys + [minKey], maxKeys + [maxKey];
        }
        chunkRows := chunkRows + [rows];
        Seal();
      }
    }

    ghost predicate KeysOk()
      reads this`minKeys, this`maxKeys, this`chunkRows
    {
      timeBounds ==> |minKeys| == |maxKeys| == |chunkRows|
    }

    /** What the accumulator's directory is sealed over. */
    ghost function SealedAs(p: Packing, blockRows: nat): Sealed
      requires KeysOk()
      reads this`minKeys, this`maxKeys, this`chunkRows
    {
      Sealed(blockRows, Recs(p.groups, codec), variable, timeBounds, ChunkRecs(chunkRows, minKeys, maxKeys, timeBounds))
    }

    method EncodeDirectory(blockRows: nat) returns (dir: Bytes)
      requires Valid() && KeysOk() && packing.open == []
      modifies this`packedDir
      ensures (dir, packedDir) == StoredDir(SealedAs(packing, blockRows), compactDir, env)
      ensures Valid()
    {
      hide Held; hide Flatten; hide StoredDir; hide Lens;
      ghost var a := SealedAs(packing, blockRows);
      LensAre(packing.groups, codec);
      assert Flatten(packing.groups) + [] == Flatten(packing.groups);
      dir, packedDir := PutDir(blockRows, variable, timeBounds, records, chunkRows, minKeys, maxKeys, compactDir, env, a);
    }

    /**
     Completes the column: kept frames are laid out behind a leading directory, streamed ones are
     followed by it; a dictionary region goes between frames and directory either way.
     */
    method Finish(blockRows: nat, region: Option<Bytes>) returns (obj: Option<Bytes>, n: nat)
      requires Valid() && KeysOk()
      modifies this, sink
      ensures packing == Close(old(packing)) && RecordsOk(records, packing, codec)
      ensures chunkRows == old(chunkRows) && minKeys == old(minKeys) && maxKeys == old(maxKeys)
      ensures var (dir, packed) := StoredDir(SealedAs(packing, blockRows), compactDir, env);
              var data := Data(packing.groups, codec);
              && packedDir == packed && dirLen == |dir| && sink == null
              && (old(sink) == null ==> obj.Some? && n == |obj.value| && obj.value == ObjectBytes(dir, region, data, false))
              && (old(sink) != null ==> obj.None? && old(sink).committed && n == |old(sink).bytes| && old(sink).bytes == ObjectBytes(dir, region, data, true))
    {
      hide RecordsOk; hide Flatten; hide StoredDir; hide Data; hide Held;
      Seal();
      var dir := EncodeDirectory(blockRows);
      dirLen := |dir|;
      HeldBytes(packing, codec, frames, bytes, sink != null, if sink == null then [] else sink.bytes, written);
      if sink != null {
        var w := sink;
        obj := None;
        if region.Some? {
          Emit(region.value);
        }
        Emit(dir + PutU32(|dir| % 0x1_0000_0000));
        n := written;
        sink := null;
        pending := [];
        w.Commit();
      } else {
        var whole := LayOut(frames, dir, region);
        obj, n := Some(whole), |whole|;
        frames, pending := [], [];
      }
    }

    /** The finished column's sizing. */
    method SizeUp(blockRows: nat) returns (s: Sizing)
      requires RecordsOk(records, packing, codec) && packing.open == [] && KeysOk()
      ensures s == SizingOf(SealedAs(packing, blockRows), dirLen)
    {
      hide Flatten; hide Lens;
      LensAre(packing.groups, codec);
      assert Flatten(packing.groups) + [] == Flatten(packing.groups);
      s := TallySizing(records, dirLen, SealedAs(packing, blockRows));
    }
  }
}
