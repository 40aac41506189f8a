/**
 What a shared-dictionary bytes column means, independent of which writer built it: the column is cut
 into granules, and granule by granule either the granule joins the column dictionary, growing it by
 the values it is first to use, or it carries its own rows.
 */
module DictSpec {
  import opened Wire

  const MAX_SHARED_ENTRIES := 65536
  const MAX_SHARED_DICT_RAW := 64 * 1024 * 1024
  const DICT_ENTRY_BYTES := 147
  const MIN_REPEAT := 2

  /** One row of a bytes column. */
  datatype Value = Value(bytes: Bytes)

  /** A sealed granule: its own rows, or one dictionary id per row at a fixed width. */
  datatype Granule =
    | Self(rows: seq<Value>)
    | Shared(wide: bool, ids: seq<int>)

  /** A column's sealed granules and the dictionary they grew. */
  datatype Column = Column(granules: seq<Granule>, dict: seq<Value>)

  predicate Distinct(s: seq<Value>) {
    forall i, j :: 0 <= i < j < |s| ==> s[i] != s[j]
  }

  /** The distinct values of s in first-occurrence order. */
  function Uniq(s: seq<Value>): seq<Value> {
    if s == [] then []
    else
      var u, v := Uniq(s[..|s| - 1]), s[|s| - 1];
      if v in u then u else u + [v]
  }

  /** The values of s that dict does not hold, in order. */
  function Fresh(s: seq<Value>, dict: seq<Value>): seq<Value> {
    if s == [] then []
    else
      var f, v := Fresh(s[..|s| - 1], dict), s[|s| - 1];
      if v in dict then f else f + [v]
  }

  function EntryRaw(v: Value): nat { |PutUvarint(|v.bytes|)| + |v.bytes| }

  function EntryCharge(v: Value): nat { EntryRaw(v) + DICT_ENTRY_BYTES }

  /** What a dictionary's entries take serialized. */
  function Raw(s: seq<Value>): nat {
    if s == [] then 0 else Raw(s[..|s| - 1]) + EntryRaw(s[|s| - 1])
  }

  /** What a dictionary's entries are charged against the byte cap. */
  function Charge(s: seq<Value>): nat {
    if s == [] then 0 else Charge(s[..|s| - 1]) + EntryCharge(s[|s| - 1])
  }

  /** The place of v in dict, -1 when it is not there. */
  function IdOf(dict: seq<Value>, v: Value): int {
    if dict == [] then -1
    else if dict[|dict| - 1] == v then |dict| - 1
    else IdOf(dict[..|dict| - 1], v)
  }

  predicate Joins(dict: seq<Value>, cap: int, rows: seq<Value>) {
    && |Uniq(rows)| * MIN_REPEAT <= |rows|
    && |dict| + |Uniq(rows)| <= MAX_SHARED_ENTRIES
    && Charge(Fresh(Uniq(rows), dict)) <= cap - Charge(dict)
  }

  /** The dictionary once a granule of rows has joined it. */
  function Grown(dict: seq<Value>, rows: seq<Value>): seq<Value> {
    dict + Fresh(Uniq(rows), dict)
  }

  function Ids(dict: seq<Value>, rows: seq<Value>): (ids: seq<int>)
    ensures |ids| == |rows|
  {
    seq(|rows|, i requires 0 <= i < |rows| => IdOf(dict, rows[i]))
  }

  predicate Wide(dict: seq<Value>) { |dict| > 256 }

  /** Decides one granule: whether it joins, what it is written as, and the dictionary after it. */
  function Decide(dict: seq<Value>, cap: int, rows: seq<Value>): (Granule, seq<Value>) {
    if Joins(dict, cap, rows) then
      var d := Grown(dict, rows);
      (Shared(Wide(d), Ids(d, rows)), d)
    else
      (Self(rows), dict)
  }

  /** Encodes a column given as its granules' rows. */
  function Encode(cap: int, chunks: seq<seq<Value>>): Column {
    if chunks == [] then Column([], [])
    else
      var c := Encode(cap, chunks[..|chunks| - 1]);
      var (g, d) := Decide(c.dict, cap, chunks[|chunks| - 1]);
      Column(c.granules + [g], d)
  }

  // ------------------------------------------------------------ what those say

  lemma NotBefore(s: seq<Value>, i: nat)
    requires Distinct(s) && i < |s|
    ensures s[i] !in s[..i]
  {
  }

  lemma DistinctSnoc(s: seq<Value>, v: Value)
    requires Distinct(s) && v !in s
    ensures Distinct(s + [v])
  {
  }

  lemma InSnoc(s: seq<Value>, v: Value)
    requires s != []
    ensures v in s <==> v in s[..|s| - 1] || v == s[|s| - 1]
  {
    assert s == s[..|s| - 1] + [s[|s| - 1]];
  }

  lemma {:induction false} UniqIn(s: seq<Value>, v: Value)
    ensures v in Uniq(s) <==> v in s
  {
    if s != [] {
      UniqIn(s[..|s| - 1], v);
      InSnoc(s, v);
    }
  }

  lemma {:induction false} UniqDistinct(s: seq<Value>)
    ensures Distinct(Uniq(s))
  {
    if s != [] {
      UniqDistinct(s[..|s| - 1]);
      if s[|s| - 1] !in Uniq(s[..|s| - 1]) {
        DistinctSnoc(Uniq(s[..|s| - 1]), s[|s| - 1]);
      }
    }
  }

  lemma {:induction false} FreshIn(s: seq<Value>, dict: seq<Value>, v: Value)
    ensures v in Fresh(s, dict) <==> v in s && v !in dict
  {
    if s != [] {
      FreshIn(s[..|s| - 1], dict, v);
      InSnoc(s, v);
    }
  }

  lemma {:induction false} FreshDistinct(s: seq<Value>, dict: seq<Value>)
    requires Distinct(s)
    ensures Distinct(Fresh(s, dict))
  {
    if s != [] {
      var n := |s| - 1;
      FreshDistinct(s[..n], dict);
      NotBefore(s, n);
      FreshIn(s[..n], dict, s[n]);
      if s[n] !in dict {
        DistinctSnoc(Fresh(s[..n], dict), s[n]);
      }
    }
  }

  /** A joined granule's values are all in the grown dictionary, which still holds none twice. */
  lemma GrownHolds(dict: seq<Value>, rows: seq<Value>, v: Value)
    ensures v in Grown(dict, rows) <==> v in dict || v in rows
  {
    UniqIn(rows, v);
    FreshIn(Uniq(rows), dict, v);
  }

  lemma {:induction false} DistinctConcat(a: seq<Value>, b: seq<Value>)
    requires Distinct(a) && Distinct(b) && forall v :: v in b ==> v !in a
    ensures Distinct(a + b)
  {
    forall i, j | 0 <= i < j < |a + b| ensures (a + b)[i] != (a + b)[j] {
      if i < |a| <= j {
        assert b[j - |a|] in b && a[i] in a;
      }
    }
  }

  lemma GrownDistinct(dict: seq<Value>, rows: seq<Value>)
    requires Distinct(dict)
    ensures Distinct(Grown(dict, rows))
  {
    UniqDistinct(rows);
    var f := Fresh(Uniq(rows), dict);
    FreshDistinct(Uniq(rows), dict);
    forall v | v in f ensures v !in dict {
      FreshIn(Uniq(rows), dict, v);
    }
    DistinctConcat(dict, f);
  }

  lemma {:induction false} IdOfNames(dict: seq<Value>, v: Value)
    ensures if v in dict then 0 <= IdOf(dict, v) < |dict| && dict[IdOf(dict, v)] == v else IdOf(dict, v) == -1
  {
    if dict != [] {
      InSnoc(dict, v);
      IdOfNames(dict[..|dict| - 1], v);
    }
  }
}
