/** The writers' byte arena: a copy stays as it was made while the arena grows. */
module Arena {
  import opened Wire

  const CHUNK_BYTES := 65536

  /** A copy handed out: nothing for an empty value, else a span of one chunk. */
  datatype View = Nothing | View(chunk: array<byte>, off: nat, len: nat)

  /** The chunks' contents. */
  ghost function Image(chunks: seq<array<byte>>): (image: seq<Bytes>)
    reads chunks
    ensures |image| == |chunks| && forall i :: 0 <= i < |chunks| ==> image[i] == chunks[i][..]
  {
    if chunks == [] then [] else Image(chunks[..|chunks| - 1]) + [chunks[|chunks| - 1][..]]
  }

  method WriteInto(c: array<byte>, off: nat, v: Bytes)
    requires off + |v| <= c.Length
    modifies c
    ensures c[off..off + |v|] == v
    ensures forall p :: 0 <= p < off ==> c[p] == old(c[p])
  {
    for i := 0 to |v|
      invariant c[off..off + i] == v[..i]
      invariant forall p :: 0 <= p < off ==> c[p] == old(c[p])
    {
      c[off + i] := v[i];
    }
  }

  /** A copy lies in the filled part of a chunk and still reads as what was copied. */
  ghost predicate Holds(chunks: seq<array<byte>>, lens: seq<nat>, image: seq<Bytes>, v: View, b: Bytes) {
    exists i :: 0 <= i < |chunks| && HoldsAt(chunks, lens, image, v, b, i)
  }

  ghost predicate HoldsAt(chunks: seq<array<byte>>, lens: seq<nat>, image: seq<Bytes>, v: View, b: Bytes, i: nat)
    requires i < |chunks|
  {
    && i < |lens| && i < |image| && v.View? && chunks[i] == v.chunk && v.off + v.len <= lens[i] <= |image[i]|
    && image[i][v.off..v.off + v.len] == b
  }

  /** Filling one chunk past its length keeps every copy. */
  lemma StillHolds(chunks: seq<array<byte>>, lens: seq<nat>, image: seq<Bytes>, lens': seq<nat>, image': seq<Bytes>, i: nat, v: View, b: Bytes)
    requires Holds(chunks, lens, image, v, b) && i < |chunks| == |lens| == |image| == |lens'| == |image'|
    requires forall j :: 0 <= j < |chunks| && j != i ==> lens'[j] == lens[j] && image'[j] == image[j]
    requires lens[i] <= lens'[i] <= |image'[i]| && lens[i] <= |image[i]| && image'[i][..lens[i]] == image[i][..lens[i]]
    ensures Holds(chunks, lens', image', v, b)
  {
    var j :| 0 <= j < |chunks| && HoldsAt(chunks, lens, image, v, b, j);
    assert image'[j][v.off..v.off + v.len] == image'[j][..lens[j]][v.off..v.off + v.len];
    assert image[j][v.off..v.off + v.len] == image[j][..lens[j]][v.off..v.off + v.len];
    assert HoldsAt(chunks, lens', image', v, b, j);
  }

  lemma Filled(chunks: seq<array<byte>>, lens: seq<nat>, image: seq<Bytes>, v: View, b: Bytes, i: nat)
    requires i < |chunks| && HoldsAt(chunks, lens, image, v, b, i)
    ensures Holds(chunks, lens, image, v, b)
  {
  }

  /** An added chunk keeps every copy. */
  lemma HoldsMore(chunks: seq<array<byte>>, lens: seq<nat>, image: seq<Bytes>, c: array<byte>, n: nat, content: Bytes, v: View, b: Bytes)
    requires Holds(chunks, lens, image, v, b) && |chunks| == |lens| == |image|
    ensures Holds(chunks + [c], lens + [n], image + [content], v, b)
  {
    var j :| 0 <= j < |chunks| && HoldsAt(chunks, lens, image, v, b, j);
    assert HoldsAt(chunks + [c], lens + [n], image + [content], v, b, j);
  }

  class ByteArena {
    var chunks: seq<array<byte>>
    var lens: seq<nat>
    var cur: nat
    /** The copies handed out since the last reset, and what was copied. */
    ghost var issued: seq<(View, Bytes)>

    ghost predicate Shape()
      reads this`chunks, this`lens
    {
      && |lens| == |chunks|
      && (forall i :: 0 <= i < |chunks| ==> lens[i] <= chunks[i].Length)
      && (forall i, j :: 0 <= i < j < |chunks| ==> chunks[i] != chunks[j])
    }

    ghost predicate Valid()
      reads this`chunks, this`lens, this`issued, chunks
    {
      Shape() && forall k :: 0 <= k < |issued| ==> Holds(chunks, lens, Image(chunks), issued[k].0, issued[k].1)
    }

    constructor ()
      ensures Valid() && issued == [] && chunks == []
    {
      chunks, lens, cur, issued := [], [], 0, [];
    }

    /** Copies v into a chunk with room, or into a new chunk, disturbing no earlier copy. */
    method Copy(v: Bytes) returns (r: View)
      requires Valid()
      modifies this, chunks
      ensures Valid() && |old(chunks)| <= |chunks| && chunks[..|old(chunks)|] == old(chunks)
      ensures v == [] ==> r == Nothing && issued == old(issued)
      ensures v != [] ==> issued == old(issued) + [(r, v)]
    {
      if |v| == 0 {
        return Nothing;
      }
      hide Holds;
      SkipFull(|v|);
      if cur >= |chunks| {
        var c := new byte[if |v| < CHUNK_BYTES then CHUNK_BYTES else |v|];
        Grow(c);
        cur := |chunks| - 1;
      }
      r := Fill(cur, v);
    }

    /** Moves on to the first chunk, from the current one, with room for n bytes. */
    method SkipFull(n: nat)
      requires Shape()
      modifies this`cur
      ensures cur < |chunks| ==> chunks[cur].Length - lens[cur] >= n
    {
      while cur < |chunks| && chunks[cur].Length - lens[cur] < n
        decreases |chunks| - cur
      {
        cur := cur + 1;
      }
    }

    /** Adds an empty chunk. */
    method Grow(c: array<byte>)
      requires Valid() && c !in chunks
      modifies this`chunks, this`lens
      ensures Valid() && chunks == old(chunks) + [c] && lens == old(lens) + [0] && issued == old(issued)
    {
      hide Holds;
      ghost var chunks0, lens0, image0 := chunks, lens, Image(chunks);
      chunks, lens := chunks + [c], lens + [0];
      assert Image(chunks) == image0 + [c[..]];
      forall k | 0 <= k < |issued| ensures Holds(chunks, lens, Image(chunks), issued[k].0, issued[k].1) {
        HoldsMore(chunks0, lens0, image0, c, 0, c[..], issued[k].0, issued[k].1);
      }
    }

    /** Appends v to chunk i, past everything already there. */
    method Fill(i: nat, v: Bytes) returns (r: View)
      requires Valid() && i < |chunks| && chunks[i].Length - lens[i] >= |v|
      modifies this`lens, this`issued, chunks[i]
      ensures Valid() && issued == old(issued) + [(r, v)]
    {
      hide Holds;
      var c, off := chunks[i], lens[i];
      ghost var lens0, image0, was := lens, Image(chunks), issued;
      WriteInto(c, off, v);
      lens := lens[i := off + |v|];
      r := View(c, off, |v|);
      issued := issued + [(r, v)];
      ghost var image := Image(chunks);
      assert image[i][..off] == image0[i][..off];
      assert forall j :: 0 <= j < |chunks| && j != i ==> chunks[j] != c;
      assert forall j :: 0 <= j < |chunks| && j != i ==> image[j] == image0[j];
      Filled(chunks, lens, image, r, v, i);
      forall k | 0 <= k < |was| ensures Holds(chunks, lens, image, was[k].0, was[k].1) {
        StillHolds(chunks, lens0, image0, lens, image, i, was[k].0, was[k].1);
      }
    }

    /** Empties the arena for reuse, letting go of chunks a long value made. */
    method Reset()
      requires Valid()
      modifies this
      ensures Valid() && issued == [] && cur == 0
      ensures forall c :: c in chunks ==> c in old(chunks) && c.Length == CHUNK_BYTES
      ensures forall c :: c in old(chunks) && c.Length == CHUNK_BYTES ==> c in chunks
      ensures forall i :: 0 <= i < |lens| ==> lens[i] == 0
    {
      var kept: seq<array<byte>>, empty: seq<nat> := [], [];
      for i := 0 to |chunks|
        invariant |empty| == |kept| && chunks == old(chunks)
        invariant forall k :: 0 <= k < |empty| ==> empty[k] == 0
        invariant forall c :: c in kept <==> c in chunks[..i] && c.Length == CHUNK_BYTES
        invariant forall k, l :: 0 <= k < l < |kept| ==> kept[k] != kept[l]
      {
        assert chunks[..i + 1] == chunks[..i] + [chunks[i]];
        if chunks[i].Length == CHUNK_BYTES {
          assert chunks[i] !in chunks[..i];
          kept, empty := kept + [chunks[i]], empty + [0];
        }
      }
      assert chunks[..|chunks|] == chunks;
      chunks, lens, cur, issued := kept, empty, 0, [];
    }
  }
}
