/**
 A shared-dictionary bytes column from rows to object and back: the writers' granules as streams, the
 dictionary as a region behind the frames, and every row's bytes found again by a reader.
 */
module DictColumnFile {
  import opened Wire
  import opened Chunking
  import opened DictSpec
  import opened SharedDict
  import opened Directory
  import opened DirectoryMeaning
  import opened DirectoryRoundTrip
  import opened Layouts
  import opened LayoutsAgree
  import opened Packing
  import opened BlockAccum
  import opened ColumnFile
  import opened DictRegion
  import opened Manifest

  /** A column's granules as streams. */
  ghost function StreamsOf(granules: seq<Granule>, enc: seq<Value> -> Bytes): seq<Bytes> {
    seq(|granules|, i requires 0 <= i < |granules| => if Packable(granules[i]) then EncodeGranule(granules[i], enc) else [])
  }

  method PutGranule(g: Granule, enc: seq<Value> -> Bytes) returns (stream: Bytes)
    requires Packable(g)
    ensures stream == EncodeGranule(g, enc)
  {
    match g
    case Self(rows) =>
      stream := [MODE_SELF] + enc(rows);
    case Shared(wide, ids) =>
      stream := AppendSharedIDs([], if wide then MODE_SHARED_WIDE else MODE_SHARED_NARROW, ids);
  }

  /** What the manifest records of a trailer dictionary. */
  datatype TrailerDict = TrailerDict(off: nat, length: nat, raw: nat, entries: nat)

  /**
   Lays a decided column out under the trailer layout; a column none of whose granules joined is left
   to another layout unless this one is forced.
   */
  method WriteTrailerDict(col: Column, blockRows: nat, limit: nat, framed: bool, attachAt: nat, bound: nat,
                          enc: seq<Value> -> Bytes, codec: Codec, env: Env)
    returns (obj: Bytes, dict: TrailerDict, sizing: Sizing, ok: bool)
    requires limit > 0 && |col.dict| < TWO64 && bound < TWO64 && |codec.pack(Blob(col.dict))| <= bound
    requires forall i :: 0 <= i < |col.granules| ==> Packable(col.granules[i])
    ensures ok <==> framed || exists i :: 0 <= i < |col.granules| && col.granules[i].Shared?
    ensures ok ==>
              var ss := StreamsOf(col.granules, enc);
              var a := FixedColumn(ss, limit, blockRows, codec);
              var dir, data, region := StoredDir(a, false, env).0, Data(GroupsOf(ss, limit), codec), Region(col.dict, codec);
              && obj == ObjectBytes(dir, Some(region), data, attachAt <= |ss|)
              && dict == TrailerDict(|data|, |region|, Raw(col.dict), |col.dict|)
              && sizing == SizingOf(a, |dir|)
  {
    hide EncodeGranule; hide Region; hide Blob; hide ObjectBytes; hide StoredDir; hide Data; hide SizingOf; hide FixedColumn; hide GroupsOf; hide Raw; hide Packable;
    var used := false;
    var streams: seq<Bytes> := [];
    for g := 0 to |col.granules|
      invariant |streams| == g && forall i :: 0 <= i < g ==> streams[i] == EncodeGranule(col.granules[i], enc)
      invariant used <==> exists i :: 0 <= i < g && col.granules[i].Shared?
    {
      used := used || col.granules[g].Shared?;
      var s := PutGranule(col.granules[g], enc);
      streams := streams + [s];
    }
    ok := used || framed;
    if !ok {
      obj, dict, sizing := [], TrailerDict(0, 0, 0, 0), Sizing(0, 0, 0, 0, 0, 0, 0);
      return;
    }
    assert streams == StreamsOf(col.granules, enc);
    var region := BuildRegion(col.dict, codec, bound);
    obj, sizing := WriteFixed(streams, limit, blockRows, Some(region), attachAt, codec, env);
    ghost var a := FixedColumn(streams, limit, blockRows, codec);
    BlobIsRaw(col.dict);
    var blob := BuildBlob(col.dict);
    var off := FrameBytes(streams, limit, codec);
    dict := TrailerDict(off, |region|, |blob|, |col.dict|);
  }

  /** The compressed bytes the frames come to, summed as they are sealed. */
  method FrameBytes(ss: seq<Bytes>, limit: nat, codec: Codec) returns (n: nat)
    ensures n == |Data(GroupsOf(ss, limit), codec)|
  {
    hide Add; hide Close; hide FrameOf;
    var p := EMPTY;
    for i := 0 to |ss|
      invariant p == AddAll(EMPTY, ss[..i], limit)
    {
      p := Add(p, ss[i], limit);
      assert ss[..i + 1][..i] == ss[..i];
    }
    assert ss[..|ss|] == ss;
    p := Close(p);
    n := 0;
    for i := 0 to |p.groups|
      invariant n == |Data(p.groups[..i], codec)|
    {
      n := n + |FrameOf(p.groups[i], codec)|;
      DataSnoc(p.groups[..i], p.groups[i], codec);
      assert p.groups[..i] + [p.groups[i]] == p.groups[..i + 1];
    }
    assert p.groups[..|p.groups|] == p.groups;
  }

  // ------------------------------------------------------------ read back

  /** Everything a written bytes column gives a reader: its dictionary, its granules, their rows. */
  ghost predicate ReadsRows(d: Dir, data: Bytes, region: Bytes, dict: TrailerDict, codec: Codec, dec: Bytes -> Result<DictColumn>, chunks: seq<seq<Value>>) {
    && d.granules == |chunks|
    && var entries := ParseTrailerDict(region, codec, dict.raw, dict.entries);
    && entries.Ok?
    && forall k :: 0 <= k < |chunks| ==> GranuleReads(d, data, codec, entries.value, dec, chunks[k], k)
  }

  ghost predicate GranuleReads(d: Dir, data: Bytes, codec: Codec, entries: seq<Value>, dec: Bytes -> Result<DictColumn>, rows: seq<Value>, k: nat) {
    var stream := ReadGranule(d, data, codec, false, k);
    && stream.Ok?
    && var col := DecodeGranule(entries, true, stream.value, |rows|, dec);
    && col.Ok? && col.value.Wf() && col.value.Rows() == rows
  }

  lemma EncodedPackable(cap: int, chunks: seq<seq<Value>>)
    requires cap >= 0
    ensures forall i :: 0 <= i < |Encode(cap, chunks).granules| ==> Packable(Encode(cap, chunks).granules[i])
    ensures |Encode(cap, chunks).granules| == |chunks|
  {
    hide Encode;
    EncodeShape(cap, chunks);
    forall i | 0 <= i < |chunks| ensures Packable(Encode(cap, chunks).granules[i]) {
      EncodeFaithful(cap, chunks, i);
    }
  }

  lemma GranuleComesBack(
    cap: int, chunks: seq<seq<Value>>, k: nat, enc: seq<Value> -> Bytes, dec: Bytes -> Result<DictColumn>, ss: seq<Bytes>, d: Dir, data: Bytes, codec: Codec)
    requires cap >= 0 && k < |chunks| && SharedDict.Lawful(enc, dec)
    requires |Encode(cap, chunks).granules| == |chunks| == |ss| && Packable(Encode(cap, chunks).granules[k])
    requires ss[k] == EncodeGranule(Encode(cap, chunks).granules[k], enc)
    requires GivesBack(d, data, codec, false, ss)
    ensures GranuleReads(d, data, codec, Encode(cap, chunks).dict, dec, chunks[k], k)
  {
    hide ReadGranule; hide DecodeGranule; hide EncodeGranule; hide Encode; hide Packable; hide SharedDict.Lawful;
    GranuleRoundTrip(cap, chunks, k, enc, dec);
  }

  /**
   Rows in, rows out: a bytes column written under any cap within the format's ceiling, kept in memory
   or streamed from any moment on, is accepted by the manifest reader's bounds and read back row for
   row, whichever granules joined the dictionary.
   */
  lemma BytesColumnRoundTrip(
    rows: seq<Value>, blockRows: nat, cap: nat, limit: nat, streamed: bool,
    enc: seq<Value> -> Bytes, dec: Bytes -> Result<DictColumn>, codec: Codec, env: Env, chk: Check)
    requires 0 < blockRows < TWO63 && cap <= MAX_SHARED_DICT_RAW
    requires SharedDict.Lawful(enc, dec) && codec.Lawful() && Bounded(codec) && env.Lawful()
    requires var chunks := Chunks(rows, blockRows);
             var col := Encode(cap, chunks);
             var ss := StreamsOf(col.granules, enc);
             && StreamsFit(ss, limit, GroupsOf(ss, limit), codec)
             && var a := FixedColumn(ss, limit, blockRows, codec);
             && var dir := StoredDir(a, false, env).0;
             |dir| < 0x1_0000_0000 && Recorded(chk, a, dir)
    ensures var chunks := Chunks(rows, blockRows);
            var col := Encode(cap, chunks);
            var ss := StreamsOf(col.granules, enc);
            var a := FixedColumn(ss, limit, blockRows, codec);
            var dir, data, region := StoredDir(a, false, env).0, Data(GroupsOf(ss, limit), codec), Region(col.dict, codec);
            var obj := ObjectBytes(dir, Some(region), data, streamed);
            var dict := TrailerDict(|data|, |region|, Raw(col.dict), |col.dict|);
            && Flatten(chunks) == rows
            && TrailerDictOk(dict.off, dict.length, dict.raw, dict.entries, |obj|)
            && ParseTrailer(obj, dict.off, dict.length, chk, env) == Ok(Opened(DirOf(a), data))
            && ReadTrailer(obj, |obj|, dict.off, dict.length, chk, env) == Ok((region, Ranged(DirOf(a), 0)))
            && ReadsRows(DirOf(a), data, region, dict, codec, dec, chunks)
  {
    hide Flatten; hide Chunks; hide Encode; hide Data; hide GroupsOf; hide FixedColumn; hide EncodeDir; hide ParseTrailer; hide ReadTrailer; hide DirOf; hide Region; hide Raw; hide Charge; hide EncodeGranule; hide Packable; hide GivesBack; hide GranuleReads; hide ParseTrailerDict; hide StreamsFit; hide LayoutsAgree.Ready; hide Recorded; hide SharedDict.Lawful; hide TrailerDictOk; hide PutU32; hide Distinct; hide ClampRange;
    var chunks := Chunks(rows, blockRows);
    var col := Encode(cap, chunks);
    var ss := StreamsOf(col.granules, enc);
    var data := Data(GroupsOf(ss, limit), codec);
    var a := FixedColumn(ss, limit, blockRows, codec);
    ChunksFlatten(rows, blockRows);
    EncodedPackable(cap, chunks);
    EncodeBounds(cap, chunks);
    DictFits(col.dict, cap);
    TrailerColumnReads(ss, limit, blockRows, Region(col.dict, codec), streamed, codec, env, chk);
    var dir := StoredDir(a, false, env).0;
    WrittenDictAccepted(col.dict, cap, codec, data, dir, PutU32(|dir| % 0x1_0000_0000));
    TrailerDictRoundTrip(col.dict, codec);
    GivesCount(DirOf(a), data, codec, false, ss);
    forall k | 0 <= k < |chunks| ensures GranuleReads(DirOf(a), data, codec, col.dict, dec, chunks[k], k) {
      GranuleComesBack(cap, chunks, k, enc, dec, ss, DirOf(a), data, codec);
    }
  }

  lemma DictFits(dict: seq<Value>, cap: nat)
    requires Charge(dict) <= cap <= MAX_SHARED_DICT_RAW
    ensures Raw(dict) < TWO63
  {
    RawWithinCharge(dict);
  }
}
