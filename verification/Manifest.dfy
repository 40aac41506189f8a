/** The sizing a column is recorded with, and the checks a manifest reader holds it to. */
module Manifest {
  import opened Wire
  import opened Chunking
  import opened Directory
  import opened DirectoryMeaning
  import opened DirectoryRoundTrip
  import opened Layouts
  import opened BlockAccum

  /** Where a column's dictionary region lies, when it has one behind its frames. */
  datatype Span = Span(off: int, len: int)

  /** A framed column's sizing against its object, as a manifest reader checks it. */
  predicate SizingOk(s: Sizing, bytes: int, footer: bool, compact: bool, trailer: Option<Span>, rows: nat) {
    && (trailer.Some? ==> s.dirLen == bytes - trailer.value.off - trailer.value.len - FOOTER_LEN_BYTES)
    && s.dirLen <= bytes - (if footer then FOOTER_LEN_BYTES else 0)
    && s.numFrames <= s.numGranules <= rows && (compact || s.numGranules <= s.dirLen)
    && s.maxFrameBytes <= bytes
    && s.maxGranuleRaw <= s.maxFrameRaw <= MAX_INT32
  }

  lemma {:induction false} MaxLenWithin(m: nat, fs: seq<FrameRec>)
    ensures MaxLen(m, fs) <= m + TotalLen(fs)
    decreases fs
  {
    if fs != [] {
      MaxLenWithin(Max(m, fs[0].len), fs[1..]);
    }
  }

  lemma {:induction false} MaxOfWithin(m: int, ls: seq<nat>)
    ensures MaxOf(m, ls) <= Max(m, Sum(ls))
    decreases ls
  {
    if ls != [] {
      MaxOfWithin(Max(m, ls[0]), ls[1..]);
    }
  }

  lemma {:induction false} MaxOfMonotone(m: int, n: int, ls: seq<nat>)
    requires m <= n
    ensures MaxOf(m, ls) <= MaxOf(n, ls)
    decreases ls
  {
    if ls != [] {
      MaxOfMonotone(Max(m, ls[0]), Max(n, ls[0]), ls[1..]);
    }
  }

  /** No granule is longer than the longest frame. */
  lemma {:induction false} GranuleWithinFrame(m: int, fs: seq<FrameRec>)
    ensures MaxOf(m, Lens(fs)) <= MaxRaw(m, fs)
    decreases fs
  {
    if fs != [] {
      var ls := fs[0].lens;
      MaxOfConcat(m, ls, Lens(fs[1..]));
      MaxOfWithin(m, ls);
      MaxOfMonotone(MaxOf(m, ls), Max(m, Sum(ls)), Lens(fs[1..]));
      GranuleWithinFrame(Max(m, Sum(ls)), fs[1..]);
    }
  }

  lemma {:induction false} MaxRawWithin(m: int, fs: seq<FrameRec>, bound: int)
    requires m <= bound && forall i :: 0 <= i < |fs| ==> Sum(fs[i].lens) <= bound
    ensures MaxRaw(m, fs) <= bound
    decreases fs
  {
    if fs != [] {
      MaxRawWithin(Max(m, Sum(fs[0].lens)), fs[1..], bound);
    }
  }

  lemma {:induction false} FramesWithinGranules(fs: seq<FrameRec>)
    requires NonEmpty(fs)
    ensures |fs| <= |Lens(fs)|
  {
    if fs != [] {
      FramesWithinGranules(fs[1..]);
    }
  }

  lemma GranulesWithinDir(a: Sealed, env: Env)
    ensures |Lens(a.frames)| <= |EncodeDir(a, env.crc)|
  {
    hide PutUvarint; hide PutFrames; hide PutChunks; hide Lens; hide PutLens; hide PutU32;
    LensLong(Lens(a.frames));
  }

  /** Whatever a writer seals, its sizing passes the manifest reader's checks, under every layout. */
  lemma WrittenSizingAccepted(a: Sealed, compact: bool, env: Env, data: Bytes, region: Option<Bytes>, streamed: bool, rows: nat)
    requires WriterOk(a) && |data| == TotalLen(a.frames) && |Lens(a.frames)| <= rows && (region.Some? ==> !compact)
    ensures var (dir, packed) := StoredDir(a, compact, env);
            var obj := ObjectBytes(dir, region, data, streamed);
            SizingOk(SizingOf(a, |dir|), |obj|, streamed || region.Some?, packed,
                     if region.Some? then Some(Span(|data|, |region.value|)) else None, rows)
  {
    hide Lens; hide Sum; hide MaxOf; hide MaxRaw; hide MaxLen; hide TotalLen; hide EncodeDir; hide PutU32; hide PutUvarint;
    MaxLenWithin(0, a.frames);
    GranuleWithinFrame(0, a.frames);
    MaxRawWithin(0, a.frames, MAX_INT32);
    FramesWithinGranules(a.frames);
    GranulesWithinDir(a, env);
  }
}
