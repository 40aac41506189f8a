/**
 The granule grammar of a shared-dictionary column: how a sealed granule is written, how a reader takes
 it apart against the column's finished dictionary, and that the two agree on every row.
 */
module SharedDict {
  import opened Wire
  import opened DictSpec
  import opened DictBuilder

  const MODE_SHARED: byte := 0
  const MODE_SELF: byte := 1
  const MODE_SHARED_NARROW: byte := 2
  const MODE_SHARED_WIDE: byte := 3

  /** A bytes column in split form: ids at a fixed width into a table, or (width 0) one entry per row. */
  datatype DictColumn = DictColumn(entries: seq<Value>, ids: Bytes, width: nat) {
    function Len(): nat {
      if width == 0 then |entries| else if width == 1 then |ids| else |ids| / 2
    }

    predicate Wf() {
      width <= 2 && (width > 0 ==> forall r :: 0 <= r < Len() ==> IdAt(ids, width, r) < |entries|)
    }

    function At(r: nat): Value
      requires Wf() && r < Len()
    {
      if width == 0 then entries[r] else entries[IdAt(ids, width, r)]
    }

    function Rows(): (rows: seq<Value>)
      requires Wf()
      ensures |rows| == Len()
    {
      seq(Len(), r requires 0 <= r < Len() => At(r))
    }
  }

  /** Row r of a packed big-endian id array. */
  function IdAt(ids: Bytes, width: nat, r: nat): (id: int)
    requires (width == 1 && r < |ids|) || (width == 2 && r < |ids| / 2)
    ensures 0 <= id < 65536
  {
    if width == 1 then ids[r]
    else
      var hi: int, lo: int := ids[2 * r], ids[2 * r + 1];
      256 * hi + lo
  }

  // ------------------------------------------------------------ writing

  /** The packed form of ids at a width. */
  function PackIds(wide: bool, ids: seq<int>): (b: Bytes)
    requires forall i :: 0 <= i < |ids| ==> 0 <= ids[i] < if wide then 65536 else 256
    ensures |b| == if wide then 2 * |ids| else |ids|
    ensures forall r :: 0 <= r < |ids| ==> IdAt(b, if wide then 2 else 1, r) == ids[r]
  {
    if ids == [] then []
    else
      var n := |ids| - 1;
      var b := PackIds(wide, ids[..n]);
      if wide then b + [ids[n] / 256, ids[n] % 256] else b + [ids[n]]
  }

  /** Appends a joined granule: its mode byte, then each row's id truncated to the mode's width. */
  method AppendSharedIDs(dst: Bytes, mode: byte, ids: seq<int>) returns (out: Bytes)
    requires mode == MODE_SHARED_NARROW || mode == MODE_SHARED_WIDE
    requires forall i :: 0 <= i < |ids| ==> 0 <= ids[i] < if mode == MODE_SHARED_WIDE then 65536 else 256
    ensures out == dst + [mode] + PackIds(mode == MODE_SHARED_WIDE, ids)
  {
    out := dst + [mode];
    for i := 0 to |ids|
      invariant out == dst + [mode] + PackIds(mode == MODE_SHARED_WIDE, ids[..i])
    {
      assert ids[..i + 1][..i] == ids[..i];
      if mode == MODE_SHARED_NARROW {
        out := out + [ids[i] % 256];
      } else {
        out := out + [ids[i] / 256 % 256, ids[i] % 256];
      }
    }
    assert ids[..|ids|] == ids;
  }

  /** A granule's ids fit the width it is written at. */
  ghost predicate Packable(g: Granule) {
    g.Shared? ==> forall i :: 0 <= i < |g.ids| ==> 0 <= g.ids[i] < if g.wide then 65536 else 256
  }

  /** A granule's stream, its own rows encoded by enc. */
  function EncodeGranule(g: Granule, enc: seq<Value> -> Bytes): Bytes
    requires Packable(g)
  {
    match g
    case Self(rows) => [MODE_SELF] + enc(rows)
    case Shared(wide, ids) => [if wide then MODE_SHARED_WIDE else MODE_SHARED_NARROW] + PackIds(wide, ids)
  }

  // ------------------------------------------------------------ reading

  /** What a granule stream holds: packed ids, or a chunk stream of its own. */
  datatype Payload = Ids(ids: Bytes, width: nat) | Chunk(stream: Bytes)

  /** The id width a leading-layout granule takes from its dictionary's size. */
  function SharedIDWidth(entries: seq<Value>): nat { if |entries| > 256 then 2 else 1 }

  predicate IdsBounded(ids: Bytes, width: nat, rows: nat, n: nat)
    requires width == 1 || width == 2
    requires |ids| == rows * width
  {
    forall r :: 0 <= r < rows ==> IdAt(ids, width, r) < n
  }

  /** The id width a mode byte stands for under a layout, 0 when the mode is invalid there. */
  function ModeWidth(entries: seq<Value>, trailer: bool, mode: byte): (w: nat)
    ensures w <= 2
  {
    if !trailer && mode == MODE_SHARED then SharedIDWidth(entries)
    else if trailer && mode == MODE_SHARED_NARROW then 1
    else if trailer && mode == MODE_SHARED_WIDE && |entries| > 256 then 2
    else 0
  }

  /** Splits a granule stream of rows rows against a column's dictionary. */
  function SplitGranule(entries: seq<Value>, trailer: bool, stream: Bytes, rows: nat): (r: Result<Payload>)
    ensures r.Ok? && r.value.Ids? ==>
              && (r.value.width == 1 || r.value.width == 2) && |r.value.ids| == rows * r.value.width
              && IdsBounded(r.value.ids, r.value.width, rows, |entries|)
  {
    if stream == [] then Err
    else if stream[0] == MODE_SELF then Ok(Chunk(stream[1..]))
    else
      var width := ModeWidth(entries, trailer, stream[0]);
      if width == 0 || |stream| - 1 != rows * width then Err
      else if !IdsBounded(stream[1..], width, rows, |entries|) then Err
      else Ok(Ids(stream[1..], width))
  }

  /** A granule decoded on its own: a chunk stream must hold exactly the rows the directory places. */
  function DecodeGranule(
    entries: seq<Value>, trailer: bool, stream: Bytes, rows: nat, dec: Bytes -> Result<DictColumn>
  ): (r: Result<DictColumn>)
    ensures r.Ok? ==> r.value.Len() == rows
  {
    match SplitGranule(entries, trailer, stream, rows)
    case Err => Err
    case Ok(Ids(ids, width)) => Ok(DictColumn(entries, ids, width))
    case Ok(Chunk(chunk)) =>
      match dec(chunk)
      case Err => Err
      case Ok(c) => if c.Len() == rows then Ok(c) else Err
  }

  /** The chunk codec's law: what it encodes, it decodes to the same rows. */
  ghost predicate Lawful(enc: seq<Value> -> Bytes, dec: Bytes -> Result<DictColumn>) {
    forall rows :: dec(enc(rows)).Ok? && dec(enc(rows)).value.Wf() && dec(enc(rows)).value.Rows() == rows
  }

  // ------------------------------------------------------------ facts of an encoded column

  lemma {:induction false} EncodeShape(cap: int, chunks: seq<seq<Value>>)
    ensures |Encode(cap, chunks).granules| == |chunks|
  {
    if chunks != [] {
      EncodeShape(cap, chunks[..|chunks| - 1]);
    }
  }

  /** A column's dictionary never repeats a value, addresses within two bytes and stays within the cap. */
  lemma {:induction false} EncodeBounds(cap: int, chunks: seq<seq<Value>>)
    requires cap >= 0
    ensures var d := Encode(cap, chunks).dict;
            Distinct(d) && |d| <= MAX_SHARED_ENTRIES && Charge(d) <= cap
  {
    if chunks != [] {
      var n := |chunks| - 1;
      EncodeBounds(cap, chunks[..n]);
      DecideBounds(Encode(cap, chunks[..n]).dict, cap, chunks[n]);
    }
  }

  lemma DecideBounds(dict: seq<Value>, cap: int, rows: seq<Value>)
    requires Distinct(dict) && |dict| <= MAX_SHARED_ENTRIES && Charge(dict) <= cap
    ensures var d := Decide(dict, cap, rows).1;
            Distinct(d) && |d| <= MAX_SHARED_ENTRIES && Charge(d) <= cap && dict <= d
  {
    hide Distinct; hide Uniq; hide Fresh; hide Charge;
    GrownDistinct(dict, rows);
    FreshLen(Uniq(rows), dict);
    ChargeConcat(dict, Fresh(Uniq(rows), dict));
  }

  lemma {:induction false} FreshLen(s: seq<Value>, dict: seq<Value>)
    ensures |Fresh(s, dict)| <= |s|
  {
    if s != [] {
      FreshLen(s[..|s| - 1], dict);
    }
  }

  lemma {:induction false} ChargeConcat(a: seq<Value>, b: seq<Value>)
    ensures Charge(a + b) == Charge(a) + Charge(b)
  {
    if b == [] {
      assert a + b == a;
    } else {
      var n := |b| - 1;
      ChargeConcat(a, b[..n]);
      assert (a + b)[..|a + b| - 1] == a + b[..n];
    }
  }

  /** What a granule's rows became, stated against the finished dictionary. */
  ghost predicate Faithful(g: Granule, rows: seq<Value>, dict: seq<Value>) {
    match g
    case Self(own) => own == rows
    case Shared(wide, ids) => Names(ids, dict, rows) && Packable(g) && (wide ==> |dict| > 256)
  }

  lemma FaithfulGrow(g: Granule, rows: seq<Value>, dict: seq<Value>, grown: seq<Value>)
    requires Faithful(g, rows, dict) && dict <= grown
    ensures Faithful(g, rows, grown)
  {
  }

  lemma DecideFaithful(dict: seq<Value>, cap: int, rows: seq<Value>)
    requires Distinct(dict) && |dict| <= MAX_SHARED_ENTRIES && Charge(dict) <= cap
    ensures Faithful(Decide(dict, cap, rows).0, rows, Decide(dict, cap, rows).1)
  {
    if Joins(dict, cap, rows) {
      DecideBounds(dict, cap, rows);
      var d := Grown(dict, rows);
      forall i | 0 <= i < |rows| ensures 0 <= IdOf(d, rows[i]) < |d| && d[IdOf(d, rows[i])] == rows[i] {
        assert rows[i] in rows;
        GrownHolds(dict, rows, rows[i]);
        IdOfNames(d, rows[i]);
      }
    }
  }

  /**
   Every granule of an encoded column is faithful to its rows under the column's final dictionary: the
   ids it was written with, narrow or wide, still name its rows after every later granule has joined.
   */
  lemma {:induction false} EncodeFaithful(cap: int, chunks: seq<seq<Value>>, k: nat)
    requires cap >= 0 && k < |chunks|
    ensures |Encode(cap, chunks).granules| == |chunks|
    ensures Faithful(Encode(cap, chunks).granules[k], chunks[k], Encode(cap, chunks).dict)
  {
    hide Faithful; hide Distinct; hide Charge;
    var n := |chunks| - 1;
    var init := Encode(cap, chunks[..n]);
    EncodeShape(cap, chunks[..n]);
    EncodeBounds(cap, chunks[..n]);
    DecideBounds(init.dict, cap, chunks[n]);
    if k == n {
      DecideFaithful(init.dict, cap, chunks[n]);
    } else {
      EncodeFaithful(cap, chunks[..n], k);
      FaithfulGrow(init.granules[k], chunks[k], init.dict, Encode(cap, chunks).dict);
    }
  }

  /**
   Dictionary column round trip: whichever granules joined, kept their own rows, or were written
   narrow before the dictionary passed 256 entries, decoding each granule's stream against the
   column's finished dictionary returns exactly its rows.
   */
  lemma GranuleRoundTrip(
    cap: int, chunks: seq<seq<Value>>, k: nat, enc: seq<Value> -> Bytes, dec: Bytes -> Result<DictColumn>)
    requires cap >= 0 && k < |chunks| && Lawful(enc, dec)
    ensures |Encode(cap, chunks).granules| == |chunks|
    ensures Packable(Encode(cap, chunks).granules[k])
    ensures var col := Encode(cap, chunks);
            var r := DecodeGranule(col.dict, true, EncodeGranule(col.granules[k], enc), |chunks[k]|, dec);
            r.Ok? && r.value.Wf() && r.value.Rows() == chunks[k]
  {
    EncodeFaithful(cap, chunks, k);
    var col := Encode(cap, chunks);
    FaithfulDecodes(col.granules[k], chunks[k], col.dict, enc, dec);
  }

  lemma FaithfulDecodes(
    g: Granule, rows: seq<Value>, dict: seq<Value>, enc: seq<Value> -> Bytes, dec: Bytes -> Result<DictColumn>)
    requires Faithful(g, rows, dict) && Lawful(enc, dec)
    ensures var r := DecodeGranule(dict, true, EncodeGranule(g, enc), |rows|, dec);
            r.Ok? && r.value.Wf() && r.value.Rows() == rows
  {
    var stream := EncodeGranule(g, enc);
    match g
    case Self(own) =>
      assert stream[1..] == enc(rows);
    case Shared(wide, ids) =>
      var b, width := PackIds(wide, ids), if wide then 2 else 1;
      assert stream[1..] == b;
      assert forall r :: 0 <= r < |rows| ==> IdAt(b, width, r) == ids[r];
      assert IdsBounded(b, width, |rows|, |dict|);
      assert DictColumn(dict, b, width).Rows() == rows;
  }
}
