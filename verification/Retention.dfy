/** Size retention: the time cutoff a byte budget asks for, and exactly what it keeps. */
module Retention {

  /** A flushed part: its latest row's time and its stored size. */
  datatype Part = Part(maxTime: int, bytes: nat)

  function Total(parts: seq<Part>): nat {
    if parts == [] then 0 else parts[0].bytes + Total(parts[1..])
  }

  /** The bytes of the parts a cutoff keeps. */
  function KeptBytes(parts: seq<Part>, cutoff: int): nat {
    if parts == [] then 0 else (if parts[0].maxTime >= cutoff then parts[0].bytes else 0) + KeptBytes(parts[1..], cutoff)
  }

  function KeptCount(parts: seq<Part>, cutoff: int): nat {
    if parts == [] then 0 else (if parts[0].maxTime >= cutoff then 1 else 0) + KeptCount(parts[1..], cutoff)
  }

  ghost predicate Sorted(s: seq<Part>) { forall i, j :: 0 <= i < j < |s| ==> s[i].maxTime <= s[j].maxTime }

  // ------------------------------------------------------------ order does not matter

  lemma {:induction false} KeptConcat(a: seq<Part>, b: seq<Part>, c: int)
    ensures KeptBytes(a + b, c) == KeptBytes(a, c) + KeptBytes(b, c) && KeptCount(a + b, c) == KeptCount(a, c) + KeptCount(b, c)
    ensures Total(a + b) == Total(a) + Total(b)
  {
    if a == [] {
      assert a + b == b;
    } else {
      KeptConcat(a[1..], b, c);
      assert (a + b)[1..] == a[1..] + b;
    }
  }

  /** Moving one part keeps every total. */
  lemma SwapIn(a: seq<Part>, p: Part, b: seq<Part>, c: int)
    ensures KeptBytes(a + [p] + b, c) == KeptBytes([p] + (a + b), c) && KeptCount(a + [p] + b, c) == KeptCount([p] + (a + b), c)
    ensures Total(a + [p] + b) == Total([p] + (a + b))
  {
    KeptConcat(a + [p], b, c);
    KeptConcat(a, [p], c);
    KeptConcat([p], a + b, c);
    KeptConcat(a, b, c);
  }

  /** Reordering the parts changes nothing a cutoff keeps. */
  lemma {:induction false} SameParts(a: seq<Part>, b: seq<Part>, c: int)
    requires multiset(a) == multiset(b)
    ensures |a| == |b| && Total(a) == Total(b) && KeptBytes(a, c) == KeptBytes(b, c) && KeptCount(a, c) == KeptCount(b, c)
    decreases |a|
  {
    hide KeptBytes; hide KeptCount; hide Total;
    SameLength(a, b);
    if a == [] {
    } else {
      var j := Holding(a, b);
      var p, front, back := a[0], b[..j], b[j + 1..];
      Removed(a, b, j);
      SameParts(a[1..], front + back, c);
      SwapIn(front, p, back, c);
      KeptConcat([p], a[1..], c);
      KeptConcat([p], front + back, c);
      assert b == front + [p] + back && a == [p] + a[1..];
    }
  }

  lemma SameLength(a: seq<Part>, b: seq<Part>)
    requires multiset(a) == multiset(b)
    ensures |a| == |b|
  {
    assert |multiset(a)| == |a| && |multiset(b)| == |b|;
  }

  lemma Holding(a: seq<Part>, b: seq<Part>) returns (j: nat)
    requires multiset(a) == multiset(b) && a != []
    ensures j < |b| && b[j] == a[0]
  {
    assert a[0] in multiset(a);
    assert a[0] in b;
    j :| 0 <= j < |b| && b[j] == a[0];
  }

  lemma Removed(a: seq<Part>, b: seq<Part>, j: nat)
    requires multiset(a) == multiset(b) && a != [] && j < |b| && b[j] == a[0]
    ensures multiset(a[1..]) == multiset(b[..j] + b[j + 1..])
  {
    var p, rest := a[0], b[..j] + b[j + 1..];
    InsertedParts([], p, a[1..]);
    InsertedParts(b[..j], p, b[j + 1..]);
    assert [] + [p] + a[1..] == a && [] + a[1..] == a[1..] && b[..j] + [p] + b[j + 1..] == b;
    Cancel(multiset(a[1..]), multiset(rest), p);
  }

  lemma Cancel(x: multiset<Part>, y: multiset<Part>, p: Part)
    requires x + multiset{p} == y + multiset{p}
    ensures x == y
  {
    assert x == (x + multiset{p}) - multiset{p};
    assert y == (y + multiset{p}) - multiset{p};
  }

  method Insert(s: seq<Part>, p: Part) returns (r: seq<Part>)
    requires Sorted(s)
    ensures Sorted(r) && multiset(r) == multiset(s) + multiset{p}
  {
    hide Sorted;
    var i := |s|;
    while i > 0 && s[i - 1].maxTime > p.maxTime
      invariant 0 <= i <= |s| && forall k :: i <= k < |s| ==> s[k].maxTime > p.maxTime
    {
      i := i - 1;
    }
    r := s[..i] + [p] + s[i..];
    InsertedSorted(s, p, i);
    InsertedParts(s[..i], p, s[i..]);
    assert s[..i] + s[i..] == s;
  }

  lemma InsertedSorted(s: seq<Part>, p: Part, i: nat)
    requires Sorted(s) && i <= |s| && (i > 0 ==> s[i - 1].maxTime <= p.maxTime) && forall k :: i <= k < |s| ==> s[k].maxTime > p.maxTime
    ensures Sorted(s[..i] + [p] + s[i..])
  {
    var r := s[..i] + [p] + s[i..];
    forall a, b | 0 <= a < b < |r| ensures r[a].maxTime <= r[b].maxTime {
      assert r[a] == if a < i then s[a] else if a == i then p else s[a - 1];
      assert r[b] == if b < i then s[b] else if b == i then p else s[b - 1];
      assert a < i ==> s[a].maxTime <= s[i - 1].maxTime;
    }
  }

  lemma InsertedParts(a: seq<Part>, p: Part, b: seq<Part>)
    ensures multiset(a + [p] + b) == multiset(a + b) + multiset{p}
  {
    assert multiset(a + [p] + b) == multiset(a) + multiset([p]) + multiset(b);
    assert multiset(a + b) == multiset(a) + multiset(b);
  }

  method SortParts(parts: seq<Part>) returns (s: seq<Part>)
    ensures Sorted(s) && multiset(s) == multiset(parts)
  {
    s := [];
    for i := 0 to |parts|
      invariant Sorted(s) && multiset(s) == multiset(parts[..i])
    {
      s := Insert(s, parts[i]);
      assert parts[..i] + [parts[i]] == parts[..i + 1];
    }
    assert parts[..|parts|] == parts;
  }

  // ------------------------------------------------------------ the cutoff

  /** How many of the oldest parts go: until the rest fits, but never the last one. */
  function Dropped(s: seq<Part>, maxBytes: int, i: nat): (d: nat)
    requires i < |s|
    ensures i <= d < |s|
    ensures d < |s| - 1 ==> Total(s[d..]) <= maxBytes
    ensures forall k :: i <= k < d ==> Total(s[k..]) > maxBytes
    decreases |s| - i
  {
    if i == |s| - 1 || Total(s[i..]) <= maxBytes then i else Dropped(s, maxBytes, i + 1)
  }

  /** The parts are over a budget that is set, and there is one to drop. */
  predicate Over(s: seq<Part>, maxBytes: int) { maxBytes > 0 && |s| >= 2 && Total(s) > maxBytes }

  function CutoffOf(s: seq<Part>, maxBytes: int): int {
    if !Over(s, maxBytes) then 0
    else
      var d := Dropped(s, maxBytes, 0);
      if d == 0 then 0 else s[d - 1].maxTime + 1
  }

  method SumBytes(parts: seq<Part>) returns (n: nat)
    ensures n == Total(parts)
  {
    n := 0;
    assert parts[0..] == parts;
    for i := 0 to |parts|
      invariant n + Total(parts[i..]) == Total(parts)
    {
      assert parts[i..][1..] == parts[i + 1..];
      n := n + parts[i].bytes;
    }
  }

  // ------------------------------------------------------------ what it keeps

  lemma {:induction false} KeptAll(s: seq<Part>, c: int)
    requires forall i :: 0 <= i < |s| ==> s[i].maxTime >= c
    ensures KeptBytes(s, c) == Total(s) && KeptCount(s, c) == |s|
  {
    if s != [] {
      KeptAll(s[1..], c);
    }
  }

  lemma {:induction false} KeptNone(s: seq<Part>, c: int)
    requires forall i :: 0 <= i < |s| ==> s[i].maxTime < c
    ensures KeptBytes(s, c) == 0 && KeptCount(s, c) == 0
  {
    if s != [] {
      KeptNone(s[1..], c);
    }
  }

  lemma {:induction false} KeptWithin(s: seq<Part>, c: int)
    ensures KeptBytes(s, c) <= Total(s) && KeptCount(s, c) <= |s|
  {
    if s != [] {
      KeptWithin(s[1..], c);
    }
  }

  /** The bytes kept from position d on, when everything before it is dropped. */
  lemma KeptSplit(s: seq<Part>, d: nat, c: int)
    requires d <= |s|
    ensures KeptBytes(s, c) == KeptBytes(s[..d], c) + KeptBytes(s[d..], c) && KeptCount(s, c) == KeptCount(s[..d], c) + KeptCount(s[d..], c)
  {
    KeptConcat(s[..d], s[d..], c);
    assert s[..d] + s[d..] == s;
  }

  /** Parts over the budget lose some, and what is left fits it or is one part at most. */
  lemma KeptFits(s: seq<Part>, maxBytes: int)
    requires Sorted(s) && Over(s, maxBytes)
    ensures Dropped(s, maxBytes, 0) > 0
    ensures KeptBytes(s, CutoffOf(s, maxBytes)) <= maxBytes || KeptCount(s, CutoffOf(s, maxBytes)) <= 1
  {
    hide KeptBytes; hide KeptCount; hide Total;
    assert s[0..] == s;
    var d, c := Dropped(s, maxBytes, 0), CutoffOf(s, maxBytes);
    KeptSplit(s, d, c);
    KeptNone(s[..d], c);
    KeptWithin(s[d..], c);
  }

  /** Any earlier cutoff keeps more than the budget. */
  lemma EarlierKeepsMore(s: seq<Part>, maxBytes: int, c: int)
    requires Sorted(s) && Over(s, maxBytes) && c < CutoffOf(s, maxBytes)
    ensures KeptBytes(s, c) > maxBytes
  {
    hide KeptBytes; hide KeptCount; hide Total;
    assert s[0..] == s;
    var d := Dropped(s, maxBytes, 0);
    KeptSplit(s, d - 1, c);
    KeptAll(s[d - 1..], c);
  }

  /** The latest time in the set. */
  function Latest(parts: seq<Part>): int
    requires parts != []
  {
    if |parts| == 1 || parts[0].maxTime > Latest(parts[1..]) then parts[0].maxTime else Latest(parts[1..])
  }

  lemma {:induction false} LatestBounds(parts: seq<Part>)
    requires parts != []
    ensures (forall p :: p in parts ==> p.maxTime <= Latest(parts)) && exists p :: p in parts && p.maxTime == Latest(parts)
  {
    if |parts| > 1 {
      LatestBounds(parts[1..]);
      assert forall p :: p in parts <==> p == parts[0] || p in parts[1..];
    } else {
      assert parts[0] in parts;
    }
  }

  lemma LastIsLatest(s: seq<Part>, parts: seq<Part>)
    requires Sorted(s) && multiset(s) == multiset(parts) && parts != [] && |s| == |parts|
    ensures s[|s| - 1].maxTime == Latest(parts)
  {
    hide Latest;
    assert forall p :: p in s <==> p in multiset(s);
    assert forall p :: p in parts <==> p in multiset(parts);
    var last := s[|s| - 1];
    assert last in s;
    LatestBounds(parts);
    var p :| p in parts && p.maxTime == Latest(parts);
    assert p in s;
  }

  /** More than one part has time t or later, and those parts are over the budget together. */
  predicate TooMuchFrom(parts: seq<Part>, maxBytes: int, t: int) { KeptCount(parts, t) >= 2 && KeptBytes(parts, t) > maxBytes }

  /** The cutoff passes a time exactly when the parts from it on are too much. */
  lemma PassesIff(s: seq<Part>, maxBytes: int, t: int)
    requires Sorted(s) && Over(s, maxBytes) && exists i :: 0 <= i < |s| && s[i].maxTime == t
    ensures CutoffOf(s, maxBytes) > t <==> TooMuchFrom(s, maxBytes, t)
  {
    hide KeptBytes; hide KeptCount; hide Total;
    assert s[0..] == s;
    KeptFits(s, maxBytes);
    var d := Dropped(s, maxBytes, 0);
    var q := FirstFrom(s, t);
    KeptSplit(s, q, t);
    KeptNone(s[..q], t);
    KeptAll(s[q..], t);
    if d > q {
      assert s[d - 1].maxTime >= t;
    } else {
      assert s[d - 1].maxTime < t;
      TailWithin(s, d, q);
    }
  }

  lemma FirstFrom(s: seq<Part>, t: int) returns (q: nat)
    requires Sorted(s) && exists i :: 0 <= i < |s| && s[i].maxTime == t
    ensures q < |s| && s[q].maxTime == t && (forall k :: 0 <= k < q ==> s[k].maxTime < t) && forall k :: q <= k < |s| ==> s[k].maxTime >= t
  {
    q := 0;
    while s[q].maxTime < t
      invariant q < |s| && (forall k :: 0 <= k < q ==> s[k].maxTime < t) && exists i :: q <= i < |s| && s[i].maxTime == t
      decreases |s| - q
    {
      q := q + 1;
    }
  }

  lemma TailWithin(s: seq<Part>, d: nat, q: nat)
    requires d <= q <= |s|
    ensures Total(s[q..]) <= Total(s[d..])
  {
    KeptConcat(s[d..q], s[q..], 0);
    assert s[d..q] + s[q..] == s[d..];
  }

  /**
   The latest part is dropped exactly when it is tied with others that are over the budget together, a
   tie being dropped as a whole, and its time is not -1, for which the cutoff comes out as none.
   */
  lemma NewestKeptIff(s: seq<Part>, maxBytes: int)
    requires Sorted(s) && s != []
    ensures var c, t := CutoffOf(s, maxBytes), s[|s| - 1].maxTime;
            c == 0 || c <= t <==> !(maxBytes > 0 && TooMuchFrom(s, maxBytes, t) && t != -1)
  {
    hide KeptBytes; hide KeptCount; hide Total;
    var t := s[|s| - 1].maxTime;
    KeptWithin(s, t);
    if Over(s, maxBytes) {
      PassesIff(s, maxBytes, t);
      KeptFits(s, maxBytes);
      var d := Dropped(s, maxBytes, 0);
      assert CutoffOf(s, maxBytes) <= t + 1;
    }
  }

  /** Time -1 is the latest of a part that goes, and no later part goes. */
  predicate StopsBeforeZero(parts: seq<Part>, maxBytes: int) {
    && (exists p :: p in parts && p.maxTime == -1) && TooMuchFrom(parts, maxBytes, -1)
    && !TooMuchFrom(parts, maxBytes, 0)
  }

  /** Parts over the budget get no cutoff at all exactly when the newest that should go is at time -1. */
  lemma OverlookedIff(s: seq<Part>, maxBytes: int)
    requires Sorted(s) && Over(s, maxBytes)
    ensures CutoffOf(s, maxBytes) == 0 <==> StopsBeforeZero(s, maxBytes)
  {
    hide KeptBytes; hide KeptCount; hide Total;
    KeptFits(s, maxBytes);
    var d, c := Dropped(s, maxBytes, 0), CutoffOf(s, maxBytes);
    if c == 0 {
      assert s[d - 1] in s && s[d - 1].maxTime == -1;
      PassesIff(s, maxBytes, -1);
    }
    if StopsBeforeZero(s, maxBytes) {
      var p :| p in s && p.maxTime == -1;
      PassesIff(s, maxBytes, -1);
      if c > 0 {
        EarlierKeepsMore(s, maxBytes, 0);
        EarlierKeepsTwo(s, maxBytes, 0);
      }
    }
  }

  lemma EarlierKeepsTwo(s: seq<Part>, maxBytes: int, c: int)
    requires Sorted(s) && Over(s, maxBytes) && c < CutoffOf(s, maxBytes)
    ensures KeptCount(s, c) >= 2
  {
    hide KeptBytes; hide KeptCount; hide Total;
    assert s[0..] == s;
    var d := Dropped(s, maxBytes, 0);
    KeptSplit(s, d - 1, c);
    KeptAll(s[d - 1..], c);
  }

  /**
   The cutoff a budget asks for: none when the parts fit it, or when the newest to go is at time -1;
   otherwise what it keeps fits or is one part, any earlier cutoff would keep too much, and the latest
   part is kept unless it is tied with others and they overrun the budget together.
   */
  method SizeRetentionCutoff(parts: seq<Part>, maxBytes: int) returns (cutoff: int)
    ensures cutoff == 0 <==> !Over(parts, maxBytes) || StopsBeforeZero(parts, maxBytes)
    ensures cutoff != 0 ==> KeptBytes(parts, cutoff) <= maxBytes || KeptCount(parts, cutoff) <= 1
    ensures cutoff != 0 ==> forall c :: c < cutoff ==> KeptBytes(parts, c) > maxBytes
    ensures parts != [] ==>
              (cutoff == 0 || cutoff <= Latest(parts) <==> !(maxBytes > 0 && TooMuchFrom(parts, maxBytes, Latest(parts)) && Latest(parts) != -1))
  {
    hide KeptBytes; hide KeptCount; hide Latest; hide Total; hide Sorted; hide CutoffOf; hide StopsBeforeZero;
    cutoff := 0;
    if maxBytes <= 0 || |parts| < 2 {
      if parts != [] {
        KeptWithin(parts, Latest(parts));
      }
      return;
    }
    var total := SumBytes(parts);
    if total <= maxBytes {
      KeptWithin(parts, Latest(parts));
      return;
    }
    var s := SortParts(parts);
    SameParts(s, parts, 0);
    cutoff := DropOldest(s, maxBytes, total);
    CutoffHolds(s, parts, maxBytes, cutoff);
  }

  /** Drops parts from the oldest until the rest fits. */
  method DropOldest(s: seq<Part>, maxBytes: int, total: nat) returns (cutoff: int)
    requires |s| >= 2 && total == Total(s) > maxBytes > 0
    ensures cutoff == CutoffOf(s, maxBytes)
  {
    hide Total;
    cutoff := 0;
    assert s[0..] == s;
    var i, left := 0, total;
    while i < |s| - 1 && left > maxBytes
      invariant 0 <= i <= |s| - 1 && left == Total(s[i..]) && Dropped(s, maxBytes, 0) == Dropped(s, maxBytes, i)
      invariant cutoff == if i == 0 then 0 else s[i - 1].maxTime + 1
      decreases |s| - i
    {
      TotalHead(s, i);
      left := left - s[i].bytes;
      cutoff := s[i].maxTime + 1;
      i := i + 1;
    }
  }

  lemma TotalHead(s: seq<Part>, i: nat)
    requires i < |s|
    ensures Total(s[i..]) == s[i].bytes + Total(s[i + 1..])
  {
    assert s[i..][1..] == s[i + 1..];
  }

  lemma CutoffHolds(s: seq<Part>, parts: seq<Part>, maxBytes: int, cutoff: int)
    requires Sorted(s) && multiset(s) == multiset(parts) && |s| == |parts| && Over(parts, maxBytes)
    requires Total(s) == Total(parts) && cutoff == CutoffOf(s, maxBytes)
    ensures cutoff == 0 <==> StopsBeforeZero(parts, maxBytes)
    ensures KeptBytes(parts, cutoff) <= maxBytes || KeptCount(parts, cutoff) <= 1
    ensures forall c :: c < cutoff ==> KeptBytes(parts, c) > maxBytes
    ensures cutoff == 0 || cutoff <= Latest(parts) <==> !(TooMuchFrom(parts, maxBytes, Latest(parts)) && Latest(parts) != -1)
  {
    hide KeptBytes; hide KeptCount; hide Latest; hide Total; hide CutoffOf; hide Sorted;
    KeptFits(s, maxBytes);
    SameParts(s, parts, cutoff);
    forall c | c < cutoff ensures KeptBytes(parts, c) > maxBytes {
      EarlierKeepsMore(s, maxBytes, c);
      SameParts(s, parts, c);
    }
    LastIsLatest(s, parts);
    NewestKeptIff(s, maxBytes);
    SameParts(s, parts, Latest(parts));
    OverlookedIff(s, maxBytes);
    SameParts(s, parts, -1);
    SameParts(s, parts, 0);
    assert forall p :: p in s <==> p in multiset(s);
    assert forall p :: p in parts <==> p in multiset(parts);
  }

  /** How the newest part goes: two parts share the latest time and together overrun the budget. */
  lemma TieDropsNewest()
    ensures CutoffOf([Part(5, 3), Part(5, 3)], 4) == 6
  {
    var s := [Part(5, 3), Part(5, 3)];
    assert s[1..] == [Part(5, 3)] && s[1..][1..] == [];
    assert s[0..] == s;
    assert Total(s[1..]) == 3 && Total(s) == 6;
  }

  /** How a set over its budget keeps everything: the part to go is at time -1, and its cutoff reads as none. */
  lemma OverlookedAtZero()
    ensures var s := [Part(-1, 3), Part(7, 3)]; Over(s, 4) && CutoffOf(s, 4) == 0
  {
    var s := [Part(-1, 3), Part(7, 3)];
    assert s[1..] == [Part(7, 3)] && s[1..][1..] == [];
    assert s[0..] == s;
    assert Total(s[1..]) == 3 && Total(s) == 6;
  }
}
