/** A column whose stored frames may have rotted, read under the directory that was sealed over them. */
module FrameRot {
  import opened Wire
  import opened Chunking
  import opened Directory
  import opened DirectoryMeaning
  import opened DirectoryRoundTrip
  import opened Packing
  import BS = BlockStreams

  /** Frame f's bytes are still where they were written, unchanged. */
  ghost predicate Kept(d: Dir, was: Bytes, data: Bytes, f: nat) {
    && f + 1 < |d.frameOff| && 0 <= d.frameOff[f] <= d.frameOff[f + 1] <= |data| && d.frameOff[f + 1] <= |was|
    && data[d.frameOff[f]..d.frameOff[f + 1]] == was[d.frameOff[f]..d.frameOff[f + 1]]
  }

  /** A frame that changed shows it: it is cut off, or fails the checksum its directory records. */
  ghost predicate Shows(d: Dir, was: Bytes, data: Bytes, c: Codec, f: nat) {
    f + 1 < |d.frameOff| && f < |d.frameCRC| && 0 <= d.frameOff[f] <= d.frameOff[f + 1] <= |data| && !Kept(d, was, data, f) ==>
      c.crc(data[d.frameOff[f]..d.frameOff[f + 1]]) != d.frameCRC[f]
  }

  ghost predicate AllShow(d: Dir, was: Bytes, data: Bytes, c: Codec) {
    forall f :: 0 <= f < |d.frameRaw| ==> Shows(d, was, data, c, f)
  }

  /** A frame loads as it was written or not at all. */
  lemma LoadsKept(d: Dir, was: Bytes, data: Bytes, c: Codec, f: nat)
    requires Shows(d, was, data, c, f) && LoadFrame(d, was, c, f).Frame?
    ensures LoadFrame(d, data, c, f) == if Kept(d, was, data, f) then LoadFrame(d, was, c, f) else BS.Unreadable
  {
  }

  /**
   Over stored bytes in which frames may have been lost, cut or changed, so long as changes show: a
   granule reads as the stream that was written exactly when its own frame is unharmed, and otherwise
   fails. No granule ever reads as anything else.
   */
  lemma ReadsOriginalOrFails(a: Sealed, gs: seq<seq<Bytes>>, c: Codec, data: Bytes, k: nat)
    requires c.Lawful() && a.frames == Recs(gs, c) && |Data(gs, c)| <= MAX_INT32 && (a.variable ==> OneEach(a.frames))
    requires k < |Flatten(gs)| && AllShow(DirOf(a), Data(gs, c), data, c)
    ensures var v := ViewOf(DirOf(a), a.variable);
            && k < v.Granules()
            && ReadGranule(DirOf(a), data, c, a.variable, k)
               == if Kept(DirOf(a), Data(gs, c), data, v.FrameOf(k)) then Ok(Flatten(gs)[k]) else Err
  {
    hide Data; hide Flatten; hide Recs; hide LoadFrame; hide DirOf; hide ViewOf; hide Kept; hide Shows;
    ColumnReadsBack(a, gs, c, k);
    var d, v := DirOf(a), ViewOf(DirOf(a), a.variable);
    var f := v.FrameOf(k);
    DirShape(a, gs, c);
    FrameLoads(a, gs, c, f);
    LoadsKept(d, Data(gs, c), data, c, f);
    assert LoadAll(d, data, c)[f] == LoadFrame(d, data, c, f);
  }
}
