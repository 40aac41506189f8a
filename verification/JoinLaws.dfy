/** When a granule joins the column dictionary, and what joining costs. */
module JoinLaws {
  import opened Wire
  import opened DictSpec

  function Values(s: seq<Value>): set<Value> { set v | v in s }

  lemma {:induction false} UniqCount(s: seq<Value>)
    ensures Values(Uniq(s)) == Values(s) && |Uniq(s)| == |Values(s)|
  {
    if s != [] {
      var n := |s| - 1;
      UniqCount(s[..n]);
      assert s == s[..n] + [s[n]];
      assert Values(s) == Values(s[..n]) + {s[n]};
      UniqIn(s[..n], s[n]);
    }
  }

  lemma {:induction false} FreshCount(s: seq<Value>, dict: seq<Value>)
    ensures |Fresh(s, dict)| <= |s|
  {
    if s != [] {
      FreshCount(s[..|s| - 1], dict);
    }
  }

  lemma {:induction false} ChargeConcat(a: seq<Value>, b: seq<Value>)
    ensures Charge(a + b) == Charge(a) + Charge(b)
  {
    if b == [] {
      assert a + b == a;
    } else {
      ChargeConcat(a, b[..|b| - 1]);
      assert (a + b)[..|a + b| - 1] == a + b[..|b| - 1];
    }
  }

  /**
   A granule joins exactly when each of its values is used twice on average, ids of two bytes are left for
   all of them, and the dictionary it would leave stays within the cap.
   */
  lemma JoinsIff(dict: seq<Value>, cap: int, rows: seq<Value>)
    ensures Joins(dict, cap, rows)
       <==> 2 * |Values(rows)| <= |rows| && |dict| + |Values(rows)| <= 65536 && Charge(Grown(dict, rows)) <= cap
  {
    UniqCount(rows);
    ChargeConcat(dict, Fresh(Uniq(rows), dict));
  }

  /** A joining granule adds at most one entry for every two of its rows. */
  lemma JoinAddsHalf(dict: seq<Value>, cap: int, rows: seq<Value>)
    requires Joins(dict, cap, rows)
    ensures 2 * (|Grown(dict, rows)| - |dict|) <= |rows|
  {
    FreshCount(Uniq(rows), dict);
  }

  /** How many rows of a column are in granules that joined. */
  function JoinedRows(granules: seq<Granule>): nat {
    if granules == [] then 0
    else JoinedRows(granules[..|granules| - 1]) + match granules[|granules| - 1] case Shared(_, ids) => |ids| case Self(_) => 0
  }

  /** So a column's dictionary holds at most one entry for every two rows that point into it. */
  lemma {:induction false} DictWithinHalf(cap: int, chunks: seq<seq<Value>>)
    ensures 2 * |Encode(cap, chunks).dict| <= JoinedRows(Encode(cap, chunks).granules)
  {
    if chunks != [] {
      var n := |chunks| - 1;
      DictWithinHalf(cap, chunks[..n]);
      var c := Encode(cap, chunks[..n]);
      if Joins(c.dict, cap, chunks[n]) {
        JoinAddsHalf(c.dict, cap, chunks[n]);
      }
      var g := Decide(c.dict, cap, chunks[n]).0;
      assert (c.granules + [g])[..|c.granules|] == c.granules;
    }
  }
}
