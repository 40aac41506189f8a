/**
 The dictionary region of a shared-dictionary column: how the dictionary is serialized, how it is parsed
 back, and that whatever a writer produces stays within the bounds a manifest reader enforces.
 */
module DictRegion {
  import opened Wire
  import opened Chunking
  import opened DictSpec
  import opened Packing

  const HEAD := 2 * MAX_VARINT_LEN
  const CRC_LEN := 4
  const MIN_DICT_REGION := 1 + 1 + 1 + CRC_LEN

  /** The compressor's size law: at least its flag byte, and never more than that past the input. */
  ghost predicate Bounded(c: Codec) {
    forall b :: 1 <= |c.pack(b)| <= |b| + 1
  }

  function PutEntry(v: Value): Bytes { PutUvarint(|v.bytes|) + v.bytes }

  function Blob(entries: seq<Value>): Bytes {
    if entries == [] then [] else PutEntry(entries[0]) + Blob(entries[1..])
  }

  function Region(entries: seq<Value>, c: Codec): Bytes {
    var packed := c.pack(Blob(entries));
    PutUvarint(|entries|) + PutUvarint(|packed|) + packed + PutU32(c.crc(packed))
  }

  // ------------------------------------------------------------ writing

  lemma {:induction false} BlobSnoc(s: seq<Value>, v: Value)
    ensures Blob(s + [v]) == Blob(s) + PutEntry(v)
  {
    hide PutEntry;
    if s == [] {
      assert s + [v] == [v] && [v][1..] == [];
    } else {
      BlobSnoc(s[1..], v);
      assert (s + [v])[1..] == s[1..] + [v];
      Assoc(PutEntry(s[0]), Blob(s[1..]), PutEntry(v));
    }
  }

  /** The blob takes exactly the raw bytes the builder accounted for. */
  lemma {:induction false} BlobIsRaw(s: seq<Value>)
    ensures |Blob(s)| == Raw(s)
  {
    if s != [] {
      var n := |s| - 1;
      BlobIsRaw(s[..n]);
      BlobSnoc(s[..n], s[n]);
      assert s[..n] + [s[n]] == s;
    }
  }

  method BuildBlob(entries: seq<Value>) returns (blob: Bytes)
    ensures blob == Blob(entries)
  {
    hide PutUvarint; hide Blob;
    BlobNil();
    blob := [];
    for i := 0 to |entries|
      invariant blob == Blob(entries[..i])
    {
      blob := blob + PutUvarint(|entries[i].bytes|);
      blob := blob + entries[i].bytes;
      BlobSnoc(entries[..i], entries[i]);
      assert entries[..i] + [entries[i]] == entries[..i + 1];
    }
    assert entries[..|entries|] == entries;
  }

  lemma BlobNil()
    ensures Blob([]) == []
  {
  }

  method CopyInto(buf: array<byte>, at: nat, b: Bytes)
    requires at + |b| <= buf.Length
    modifies buf
    ensures buf[..] == old(buf[..at]) + b + old(buf[at + |b|..])
  {
    for i := 0 to |b|
      invariant forall k :: 0 <= k < buf.Length ==> buf[k] == if at <= k < at + i then b[k - at] else old(buf[k])
    {
      buf[at + i] := b[i];
    }
  }

  /**
   Builds the region in one buffer sized for the compressor's bound: the payload goes past room for
   the two counts, and they are then written right-aligned before it.
   */
  method BuildRegion(entries: seq<Value>, c: Codec, bound: nat) returns (region: Bytes)
    requires |c.pack(Blob(entries))| <= bound && |entries| < TWO64 && bound < TWO64
    ensures region == Region(entries, c)
  {
    hide PutUvarint; hide PutU32; hide Blob;
    var blob := BuildBlob(entries);
    var packed := c.pack(blob);
    var buf := new byte[HEAD + bound + CRC_LEN](_ => 0);
    CopyInto(buf, HEAD, packed);
    ghost var filled := buf[..];
    assert filled[HEAD..HEAD + |packed|] == packed;
    var h := PutUvarint(|entries|) + PutUvarint(|packed|);
    UvarintRoundTrip(|entries|, []);
    UvarintRoundTrip(|packed|, []);
    var start := HEAD - |h|;
    CopyInto(buf, start, h);
    ghost var both := buf[..];
    assert both[start..HEAD] == h;
    assert both[HEAD..HEAD + |packed|] == filled[HEAD..HEAD + |packed|];
    region := buf[start..HEAD + |packed|];
    assert region == h + packed by {
      assert region == both[start..HEAD] + both[HEAD..HEAD + |packed|];
    }
    region := region + PutU32(c.crc(packed));
  }

  // ------------------------------------------------------------ reading

  function ParseEntries(dict: Bytes, n: nat): Result<seq<Value>>
    decreases n
  {
    if n == 0 then Ok([])
    else
      match Uvarint(dict)
      case Err => Err
      case Ok(Read(l, k)) =>
        if l > |dict| - k then Err
        else
          match ParseEntries(dict[k + l..], n - 1)
          case Err => Err
          case Ok(es) => Ok([Value(dict[k..k + l])] + es)
  }

  /** A dictionary region at the head of an object: its entries and what follows the region. */
  function ParseRegion(obj: Bytes, c: Codec, checked: bool, limit: int, exact: bool): Result<(seq<Value>, Bytes)> {
    match Uvarint(obj)
    case Err => Err
    case Ok(Read(count, n)) =>
      match Uvarint(obj[n..])
      case Err => Err
      case Ok(Read(packedLen, m)) =>
        var body := obj[n + m..];
        if packedLen > |body| then Err
        else
          var packed, rest := body[..packedLen], body[packedLen..];
          if checked && (|rest| < CRC_LEN || U32(rest) != c.crc(packed)) then Err
          else
            match Inflate(packed, c, limit, exact)
            case Err => Err
            case Ok(dict) =>
              if count > |dict| + 1 then Err
              else
                match ParseEntries(dict, count)
                case Err => Err
                case Ok(es) => Ok((es, if checked then rest[CRC_LEN..] else rest))
  }

  /** Decompression held to a size: none when negative, exactly it or at most it otherwise. */
  function Inflate(packed: Bytes, c: Codec, limit: int, exact: bool): Result<Bytes> {
    match c.unpack(packed)
    case Err => Err
    case Ok(out) => if limit >= 0 && (|out| > limit || (exact && |out| != limit)) then Err else Ok(out)
  }

  function ParseTrailerDict(region: Bytes, c: Codec, dictRaw: nat, dictEntries: nat): Result<seq<Value>> {
    match ParseRegion(region, c, true, dictRaw, true)
    case Err => Err
    case Ok((es, rest)) => if rest != [] || |es| != dictEntries then Err else Ok(es)
  }

  /** What is still to parse, behind the entries already taken, makes up the whole. */
  ghost predicate Resumes(whole: Result<seq<Value>>, taken: seq<Value>, rest: Result<seq<Value>>) {
    whole.Ok? == rest.Ok? && (whole.Ok? ==> whole.value == taken + rest.value)
  }

  lemma ResumesAtStart(r: Result<seq<Value>>)
    ensures Resumes(r, [], r)
  {
    if r.Ok? {
      assert [] + r.value == r.value;
    }
  }

  lemma ResumesOn(whole: Result<seq<Value>>, taken: seq<Value>, dict: Bytes, n: nat)
    requires n > 0 && Resumes(whole, taken, ParseEntries(dict, n))
    ensures match Uvarint(dict)
            case Err => whole.Err?
            case Ok(Read(l, k)) =>
              if l > |dict| - k then whole.Err?
              else Resumes(whole, taken + [Value(dict[k..k + l])], ParseEntries(dict[k + l..], n - 1))
  {
    hide Uvarint;
  }

  method ReadEntries(blob: Bytes, count: nat) returns (r: Result<seq<Value>>)
    ensures r == ParseEntries(blob, count)
  {
    hide Uvarint; hide ParseEntries;
    var dict, entries := blob, [];
    ghost var whole := ParseEntries(blob, count);
    ResumesAtStart(whole);
    for i := 0 to count
      invariant Resumes(whole, entries, ParseEntries(dict, count - i))
    {
      ResumesOn(whole, entries, dict, count - i);
      ghost var dict0 := dict;
      match Uvarint(dict)
      case Err =>
        return Err;
      case Ok(Read(l, k)) =>
        dict := dict[k..];
        if l > |dict| {
          return Err;
        }
        assert dict[..l] == dict0[k..k + l] && dict[l..] == dict0[k + l..];
        entries, dict := entries + [Value(dict[..l])], dict[l..];
    }
    NoEntries(dict);
    assert entries + [] == entries;
    r := Ok(entries);
  }

  lemma NoEntries(dict: Bytes)
    ensures ParseEntries(dict, 0) == Ok([])
  {
  }

  // ------------------------------------------------------------ round trip

  lemma {:induction false} EntriesRoundTrip(entries: seq<Value>, rest: Bytes)
    requires forall i :: 0 <= i < |entries| ==> |entries[i].bytes| < TWO64
    ensures ParseEntries(Blob(entries) + rest, |entries|) == Ok(entries)
  {
    hide PutUvarint; hide Uvarint; hide ParseEntries; hide Blob;
    if entries == [] {
      NoEntries(Blob(entries) + rest);
    } else {
      var v, tail := entries[0], entries[1..];
      EntriesRoundTrip(tail, rest);
      BlobHead(entries);
      EntryRoundTrip(v, Blob(tail) + rest, |tail|);
      Assoc(PutEntry(v), Blob(tail), rest);
      assert [v] + tail == entries;
    }
  }

  lemma BlobHead(entries: seq<Value>)
    requires entries != []
    ensures Blob(entries) == PutEntry(entries[0]) + Blob(entries[1..])
  {
    hide PutEntry;
  }

  lemma EntryRoundTrip(v: Value, more: Bytes, n: nat)
    requires |v.bytes| < TWO64 && ParseEntries(more, n).Ok?
    ensures ParseEntries(PutEntry(v) + more, n + 1) == Ok([v] + ParseEntries(more, n).value)
  {
    hide PutUvarint; hide Uvarint;
    var k := PutUvarint(|v.bytes|);
    var dict := PutEntry(v) + more;
    Assoc(k, v.bytes, more);
    UvarintRoundTrip(|v.bytes|, v.bytes + more);
    assert dict[|k|..|k| + |v.bytes|] == v.bytes;
    assert dict[|k| + |v.bytes|..] == more;
    EntryStep(dict, n + 1, |v.bytes|, |k|);
  }

  lemma EntryStep(dict: Bytes, n: nat, l: nat, k: nat)
    requires n > 0 && Uvarint(dict) == Ok(Read(l, k)) && k + l <= |dict|
    ensures ParseEntries(dict, n) == match ParseEntries(dict[k + l..], n - 1)
                                     case Err => Err
                                     case Ok(es) => Ok([Value(dict[k..k + l])] + es)
  {
    hide Uvarint;
  }

  lemma {:induction false} EntriesAreShort(s: seq<Value>, i: nat)
    requires i < |s|
    ensures |s[i].bytes| < Raw(s) && |s| <= Raw(s)
  {
    var n := |s| - 1;
    if i < n {
      EntriesAreShort(s[..n], i);
    } else if n > 0 {
      EntriesAreShort(s[..n], 0);
    }
  }

  /** A region parses back to exactly its dictionary, and to whatever followed it. */
  lemma RegionRoundTrip(entries: seq<Value>, c: Codec, rest: Bytes, limit: int, exact: bool)
    requires c.Lawful() && Bounded(c) && Raw(entries) < TWO63
    requires limit < 0 || (if exact then limit == Raw(entries) else limit >= Raw(entries))
    ensures ParseRegion(Region(entries, c) + rest, c, true, limit, exact) == Ok((entries, rest))
  {
    hide PutUvarint; hide Uvarint; hide PutU32; hide U32; hide Blob; hide ParseEntries; hide Raw;
    var blob := Blob(entries);
    var packed := c.pack(blob);
    assert 1 <= |packed| <= |blob| + 1;
    BlobIsRaw(entries);
    EntriesCount(entries);
    var p, q, w := PutUvarint(|entries|), PutUvarint(|packed|), PutU32(c.crc(packed));
    var obj := Region(entries, c) + rest;
    RegionParts(p, q, packed, w, rest);
    UvarintRoundTrip(|entries|, q + (packed + (w + rest)));
    UvarintRoundTrip(|packed|, packed + (w + rest));
    U32RoundTrip(c.crc(packed), rest);
    forall i | 0 <= i < |entries| ensures |entries[i].bytes| < TWO64 {
      EntriesAreShort(entries, i);
    }
    EntriesRoundTrip(entries, []);
    assert blob + [] == blob;
  }

  lemma EntriesCount(entries: seq<Value>)
    ensures |entries| <= Raw(entries)
  {
    if entries != [] {
      EntriesAreShort(entries, 0);
    }
  }

  lemma RegionParts(p: Bytes, q: Bytes, packed: Bytes, w: Bytes, rest: Bytes)
    requires |w| == CRC_LEN
    ensures var obj := p + q + packed + w + rest;
            && obj == p + (q + (packed + (w + rest))) && obj[|p|..] == q + (packed + (w + rest))
            && var body := obj[|p| + |q|..];
            && body == packed + (w + rest) && body[..|packed|] == packed && body[|packed|..] == w + rest && (w + rest)[CRC_LEN..] == rest
  {
    Assoc(p + q + packed, w, rest);
    Assoc(p + q, packed, w + rest);
    Assoc(p, q, packed + (w + rest));
    DropPrefix(p, q + (packed + (w + rest)));
    DropPrefix(p + q, packed + (w + rest));
    DropPrefix(packed, w + rest);
    DropPrefix(w, rest);
  }

  lemma TrailerDictRoundTrip(entries: seq<Value>, c: Codec)
    requires c.Lawful() && Bounded(c) && Raw(entries) < TWO63
    ensures ParseTrailerDict(Region(entries, c), c, Raw(entries), |entries|) == Ok(entries)
  {
    hide ParseRegion; hide Region;
    RegionRoundTrip(entries, c, [], Raw(entries), true);
    assert Region(entries, c) + [] == Region(entries, c);
  }

  // ------------------------------------------------------------ the bounds a reader enforces

  function MaxDictRegion(entries: nat, raw: nat): nat {
    |PutUvarint(entries)| + |PutUvarint(raw + 1)| + raw + 1 + CRC_LEN
  }

  /** A manifest reader's checks on a trailer dictionary inside an object of size bytes. */
  predicate TrailerDictOk(off: nat, dictLen: nat, raw: nat, entries: nat, size: nat) {
    && entries <= MAX_SHARED_ENTRIES && raw <= MAX_SHARED_DICT_RAW && entries <= raw
    && off <= size && dictLen <= size - off && size - off - dictLen >= 4
    && MIN_DICT_REGION <= dictLen <= MaxDictRegion(entries, raw)
  }

  lemma {:induction false} RawWithinCharge(s: seq<Value>)
    ensures Raw(s) + DICT_ENTRY_BYTES * |s| == Charge(s)
  {
    if s != [] {
      RawWithinCharge(s[..|s| - 1]);
    }
  }

  lemma RegionWithinBounds(entries: seq<Value>, c: Codec)
    requires Bounded(c)
    ensures MIN_DICT_REGION <= |Region(entries, c)| <= MaxDictRegion(|entries|, Raw(entries))
  {
    hide PutUvarint; hide PutU32; hide Blob; hide Raw;
    var packed := c.pack(Blob(entries));
    assert 1 <= |packed| <= |Blob(entries)| + 1;
    BlobIsRaw(entries);
    UvarintMonotone(|packed|, Raw(entries) + 1);
  }

  /**
   Whatever a writer under the format's cap puts between its frames and its directory, the manifest
   reader accepts.
   */
  lemma WrittenDictAccepted(entries: seq<Value>, cap: nat, c: Codec, data: Bytes, dir: Bytes, closing: Bytes)
    requires Bounded(c) && cap <= MAX_SHARED_DICT_RAW && Charge(entries) <= cap && |entries| <= MAX_SHARED_ENTRIES
    requires |closing| == 4
    ensures var obj := data + Region(entries, c) + dir + closing;
            TrailerDictOk(|data|, |Region(entries, c)|, Raw(entries), |entries|, |obj|)
  {
    hide Region; hide Raw; hide Charge; hide PutUvarint; hide MaxDictRegion;
    RawWithinCharge(entries);
    EntriesCount(entries);
    RegionWithinBounds(entries, c);
  }
}
