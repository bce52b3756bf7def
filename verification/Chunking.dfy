/** Cutting a file into offset-tagged chunks whose running offset is an unsigned 32-bit integer. */
module Chunking {
  import opened Basics
  import opened Bytes
  import opened FileContent

  /** The writes a list of reads turns into, from a running offset that wraps at 2^32. */
  function ChunkWrites(chunks: seq<seq<byte>>, offset: u32): seq<Write> {
    if chunks == [] then [] else
    [Write(offset, chunks[0])] + ChunkWrites(chunks[1..], (offset + |chunks[0]|) % TWO_TO_THE_32)
  }

  lemma ChunkWritesStep(chunks: seq<seq<byte>>, offset: u32)
    requires chunks != []
    ensures ChunkWrites(chunks, offset) ==
            [Write(offset, chunks[0])] + ChunkWrites(chunks[1..], (offset + |chunks[0]|) % TWO_TO_THE_32)
  {
  }

  lemma NoWrap(n: nat)
    requires n < TWO_TO_THE_32
    ensures n % TWO_TO_THE_32 == n
  {
  }

  lemma WrapAdds(start: nat, n: nat)
    ensures (start % TWO_TO_THE_32 + n) % TWO_TO_THE_32 == (start + n) % TWO_TO_THE_32
  {
  }

  predicate NonEmpty(chunks: seq<seq<byte>>) {
    forall i :: 0 <= i < |chunks| ==> chunks[i] != []
  }

  /** Where the last read starts in the source: the length of all reads before it. */
  function LastStart(chunks: seq<seq<byte>>): nat
    requires chunks != []
  {
    if |chunks| == 1 then 0 else |chunks[0]| + LastStart(chunks[1..])
  }

  lemma {:induction false} LastStartPlusLast(chunks: seq<seq<byte>>)
    requires chunks != []
    ensures |Concat(chunks)| == LastStart(chunks) + |chunks[|chunks| - 1]|
  {
    if |chunks| == 1 {
      assert Concat(chunks[1..]) == [];
    } else {
      LastStartPlusLast(chunks[1..]);
      assert chunks[1..][|chunks| - 2] == chunks[|chunks| - 1];
      assert Concat(chunks) == chunks[0] + Concat(chunks[1..]);
      assert LastStart(chunks) == |chunks[0]| + LastStart(chunks[1..]);
    }
  }

  predicate LastReadStartsInRange(chunks: seq<seq<byte>>) {
    chunks == [] || LastStart(chunks) < TWO_TO_THE_32
  }

  /** In range, every write lands at the end of what is already there. */
  lemma {:induction false} InRangeWritesAppend(file: seq<byte>, chunks: seq<seq<byte>>)
    requires chunks != [] ==> |file| + LastStart(chunks) < TWO_TO_THE_32
    ensures ApplyWrites(file, ChunkWrites(chunks, |file| % TWO_TO_THE_32)) == file + Concat(chunks)
    decreases |chunks|
  {
    if chunks == [] {
      assert file + [] == file;
    } else {
      var next := file + chunks[0];
      InRangeWritesAppend(next, chunks[1..]);
      FirstWriteAppends(file, chunks);
      Associative(file, chunks[0], Concat(chunks[1..]));
    }
  }

  lemma FirstWriteAppends(file: seq<byte>, chunks: seq<seq<byte>>)
    requires chunks != [] && |file| < TWO_TO_THE_32
    ensures ApplyWrites(file, ChunkWrites(chunks, |file| % TWO_TO_THE_32)) ==
            ApplyWrites(file + chunks[0], ChunkWrites(chunks[1..], |file + chunks[0]| % TWO_TO_THE_32))
  {
    AppendingWrite(file, chunks[0]);
    InRangeStep(file, chunks);
    FirstWrite(file, Write(|file|, chunks[0]), ChunkWrites(chunks[1..], |file + chunks[0]| % TWO_TO_THE_32));
  }

  /** Every write of a list ends before `bound`. */
  predicate EndBefore(ws: seq<Write>, bound: nat) {
    ws == [] || (ws[0].offset + |ws[0].data| < bound && EndBefore(ws[1..], bound))
  }

  lemma {:induction false} LengthBound(file: seq<byte>, ws: seq<Write>, bound: nat)
    requires |file| < bound && EndBefore(ws, bound)
    ensures |ApplyWrites(file, ws)| < bound
    decreases |ws|
  {
    if ws != [] {
      LengthBound(WriteAt(file, ws[0].offset, ws[0].data), ws[1..], bound);
    }
  }

  /** Out of range, no write reaches the end of the source: the true start of the last chunk was
      lost to the wrap, and every other chunk ends at or before that start. */
  lemma {:induction false} OutOfRangeWritesFallShort(start: nat, chunks: seq<seq<byte>>)
    requires chunks != [] && NonEmpty(chunks) && start + LastStart(chunks) >= TWO_TO_THE_32
    ensures EndBefore(ChunkWrites(chunks, start % TWO_TO_THE_32), start + |Concat(chunks)|)
    decreases |chunks|
  {
    var n, bound := |chunks[0]|, start + |Concat(chunks)|;
    WrapAdds(start, n);
    ChunkWritesStep(chunks, start % TWO_TO_THE_32);
    EndBeforeFirst(Write(start % TWO_TO_THE_32, chunks[0]), ChunkWrites(chunks[1..], (start + n) % TWO_TO_THE_32), bound);
    assert Concat(chunks) == chunks[0] + Concat(chunks[1..]);
    if |chunks| > 1 {
      OutOfRangeWritesFallShort(start + n, chunks[1..]);
    }
    FirstEndsBefore(start, chunks);
  }

  lemma FirstEndsBefore(start: nat, chunks: seq<seq<byte>>)
    requires chunks != [] && NonEmpty(chunks) && start + LastStart(chunks) >= TWO_TO_THE_32
    ensures start % TWO_TO_THE_32 + |chunks[0]| < start + |Concat(chunks)|
  {
    LastStartPlusLast(chunks);
    if |chunks| == 1 {
      WrapLoses(start);
    }
  }

  lemma WrapLoses(n: nat)
    requires n >= TWO_TO_THE_32
    ensures n % TWO_TO_THE_32 < n
  {
  }

  lemma EndBeforeFirst(w: Write, ws: seq<Write>, bound: nat)
    ensures EndBefore([w] + ws, bound) <==> w.offset + |w.data| < bound && EndBefore(ws, bound)
  {
    assert ([w] + ws)[1..] == ws;
  }

  /** Exactly when the chunk writes rebuild the source: a file cut into non-empty reads is stored
      as it is if and only if its last read starts below 2^32. */
  lemma ChunksRebuildSource(chunks: seq<seq<byte>>)
    requires NonEmpty(chunks)
    ensures ApplyWrites([], ChunkWrites(chunks, 0)) == Concat(chunks) <==> LastReadStartsInRange(chunks)
  {
    if LastReadStartsInRange(chunks) {
      InRangeWritesAppend([], chunks);
      assert [] + Concat(chunks) == Concat(chunks);
    } else {
      OutOfRangeWritesFallShort(0, chunks);
      LastStartPlusLast(chunks);
      LengthBound([], ChunkWrites(chunks, 0), |Concat(chunks)|);
    }
  }

  /** A file of at most 2^32 bytes is always in range, however it is read. */
  lemma FourGigabytesAreInRange(chunks: seq<seq<byte>>)
    requires NonEmpty(chunks) && |Concat(chunks)| <= TWO_TO_THE_32
    ensures LastReadStartsInRange(chunks)
  {
    if chunks != [] {
      LastStartPlusLast(chunks);
    }
  }

  /** `ds` is `ws` with any of its writes delivered more than once in a row. */
  predicate Stutters(ds: seq<Write>, ws: seq<Write>) {
    if ds == [] then ws == []
    else ws != [] && ds[0] == ws[0] && (Stutters(ds[1..], ws[1..]) || Stutters(ds[1..], ws))
  }

  lemma {:induction false} StutteringWritesAreHarmless(file: seq<byte>, ds: seq<Write>, ws: seq<Write>)
    requires Stutters(ds, ws)
    ensures ApplyWrites(file, ds) == ApplyWrites(file, ws)
    decreases |ds|
  {
    if ds != [] {
      var next := WriteAt(file, ws[0].offset, ws[0].data);
      if Stutters(ds[1..], ws[1..]) {
        StutteringWritesAreHarmless(next, ds[1..], ws[1..]);
      } else {
        StutteringWritesAreHarmless(next, ds[1..], ws);
        RepeatedWrite(file, ws[0].offset, ws[0].data);
      }
    }
  }

  lemma {:induction false} StuttersKeepWrites(ds: seq<Write>, ws: seq<Write>, w: Write)
    requires Stutters(ds, ws) && w in ds
    ensures w in ws
    decreases |ds|
  {
    if w != ds[0] {
      if Stutters(ds[1..], ws[1..]) { StuttersKeepWrites(ds[1..], ws[1..], w); } else { StuttersKeepWrites(ds[1..], ws, w); }
    }
  }

  // ---- When only some of the writes arrive ---------------------------------------------------------

  /** Some write puts its data over position `i`. */
  predicate Covers(ws: seq<Write>, i: nat) {
    ws != [] && (ws[0].offset <= i < ws[0].offset + |ws[0].data| || Covers(ws[1..], i))
  }

  /** The file is not longer than the source, the writes reach the source's end unless the file does, and
      where none of them writes the file has the source's byte, beyond its end a zero. */
  ghost predicate Restores(file: seq<byte>, ws: seq<Write>, source: seq<byte>) {
    && |file| <= |source| && (|file| < |source| ==> Covers(ws, |source| - 1))
    && forall i :: 0 <= i < |source| ==> Covers(ws, i) || ByteAt(file, i) == source[i]
  }

  predicate SliceOf(w: Write, source: seq<byte>) {
    w.offset + |w.data| <= |source| && w.data == source[w.offset..w.offset + |w.data|]
  }

  ghost predicate AllSlices(ws: seq<Write>, source: seq<byte>) {
    forall w :: w in ws ==> SliceOf(w, source)
  }

  function ByteAt(file: seq<byte>, i: nat): byte {
    if i < |file| then file[i] else 0
  }

  lemma {:induction false} SlicesWriteSource(file: seq<byte>, ws: seq<Write>, source: seq<byte>, i: nat)
    requires AllSlices(ws, source) && i < |source|
    ensures ByteAt(ApplyWrites(file, ws), i) == if Covers(ws, i) then source[i] else ByteAt(file, i)
    decreases |ws|
  {
    if ws != [] {
      assert SliceOf(ws[0], source);
      SlicesWriteSource(WriteAt(file, ws[0].offset, ws[0].data), ws[1..], source, i);
    }
  }

  lemma {:induction false} SlicesReachEnd(file: seq<byte>, ws: seq<Write>, source: seq<byte>)
    requires AllSlices(ws, source)
    ensures var after := ApplyWrites(file, ws);
            if |file| > |source| then |after| == |file| else
            && |after| <= |source|
            && (|after| == |source| <==> |file| == |source| || Covers(ws, |source| - 1))
    decreases |ws|
  {
    if ws != [] {
      assert SliceOf(ws[0], source);
      SlicesReachEnd(WriteAt(file, ws[0].offset, ws[0].data), ws[1..], source);
    }
  }

  /** Writes that are slices of the source, in any number and order, make a file the source exactly when
      they restore it. */
  lemma SlicesRestoreExactly(file: seq<byte>, ws: seq<Write>, source: seq<byte>)
    requires AllSlices(ws, source)
    ensures ApplyWrites(file, ws) == source <==> Restores(file, ws, source)
  {
    var after := ApplyWrites(file, ws);
    SlicesReachEnd(file, ws, source);
    forall i | 0 <= i < |source| ensures ByteAt(after, i) == if Covers(ws, i) then source[i] else ByteAt(file, i) {
      SlicesWriteSource(file, ws, source, i);
    }
    if Restores(file, ws, source) {
      assert |after| == |source|;
      forall i | 0 <= i < |source| ensures after[i] == source[i] {
        assert ByteAt(after, i) == after[i];
      }
    }
  }

  lemma {:induction false} InRangeWritesAreSlices(before: seq<byte>, chunks: seq<seq<byte>>)
    requires chunks != [] ==> |before| + LastStart(chunks) < TWO_TO_THE_32
    ensures AllSlices(ChunkWrites(chunks, |before| % TWO_TO_THE_32), before + Concat(chunks))
    decreases |chunks|
  {
    if chunks != [] {
      InRangeWritesAreSlices(before + chunks[0], chunks[1..]);
      Associative(before, chunks[0], Concat(chunks[1..]));
      FirstIsSlice(before, chunks[0], Concat(chunks[1..]));
      InRangeStep(before, chunks);
      MoreSlices(Write(|before|, chunks[0]), ChunkWrites(chunks[1..], |before + chunks[0]| % TWO_TO_THE_32), before + Concat(chunks));
    }
  }

  lemma InRangeStep(before: seq<byte>, chunks: seq<seq<byte>>)
    requires chunks != [] && |before| < TWO_TO_THE_32
    ensures ChunkWrites(chunks, |before| % TWO_TO_THE_32) ==
            [Write(|before|, chunks[0])] + ChunkWrites(chunks[1..], |before + chunks[0]| % TWO_TO_THE_32)
  {
    NoWrap(|before|);
    ChunkWritesStep(chunks, |before|);
  }

  lemma MoreSlices(w: Write, ws: seq<Write>, source: seq<byte>)
    requires SliceOf(w, source) && AllSlices(ws, source)
    ensures AllSlices([w] + ws, source)
  {
  }

  lemma FirstIsSlice(before: seq<byte>, data: seq<byte>, rest: seq<byte>)
    requires |before| < TWO_TO_THE_32
    ensures SliceOf(Write(|before|, data), before + (data + rest)) && SliceOf(Write(|before|, data), before + data + rest)
  {
  }

  lemma {:induction false} EndBeforeMeans(ws: seq<Write>, bound: nat)
    ensures EndBefore(ws, bound) <==> forall w :: w in ws ==> w.offset + |w.data| < bound
  {
    if ws != [] {
      EndBeforeMeans(ws[1..], bound);
      assert ws == [ws[0]] + ws[1..];
    }
  }

  lemma {:induction false} EndBeforeCoversNot(ws: seq<Write>, bound: nat)
    requires bound > 0 && EndBefore(ws, bound)
    ensures !Covers(ws, bound - 1)
  {
    if ws != [] {
      EndBeforeCoversNot(ws[1..], bound);
    }
  }

  /** The front of one of the writes: what is left of it when it fails part way. */
  ghost predicate FrontOfOne(w: Write, ws: seq<Write>) {
    exists v :: v in ws && w.offset == v.offset && w.data <= v.data
  }

  lemma FrontsAreSlices(fronts: seq<Write>, ws: seq<Write>, source: seq<byte>)
    requires AllSlices(ws, source) && forall w :: w in fronts ==> FrontOfOne(w, ws)
    ensures AllSlices(fronts, source)
  {
    forall w | w in fronts ensures SliceOf(w, source) {
      var v :| v in ws && w.offset == v.offset && w.data <= v.data;
      assert SliceOf(v, source);
    }
  }

  lemma FrontsEndBefore(fronts: seq<Write>, ws: seq<Write>, bound: nat)
    requires EndBefore(ws, bound) && forall w :: w in fronts ==> FrontOfOne(w, ws)
    ensures EndBefore(fronts, bound)
  {
    EndBeforeMeans(ws, bound);
    EndBeforeMeans(fronts, bound);
  }

  /** Any of the chunk writes, whole or broken off, in any number and order, make a file the source exactly
      when the last read starts below 2^32 and they restore the source. (Once the offset has wrapped, a file that already had
      the source's length is the one case left open.) */
  lemma SomeChunksRebuildExactly(file: seq<byte>, chunks: seq<seq<byte>>, ws: seq<Write>)
    requires NonEmpty(chunks) && forall w :: w in ws ==> FrontOfOne(w, ChunkWrites(chunks, 0))
    requires LastReadStartsInRange(chunks) || |file| != |Concat(chunks)|
    ensures ApplyWrites(file, ws) == Concat(chunks) <==> LastReadStartsInRange(chunks) && Restores(file, ws, Concat(chunks))
  {
    if LastReadStartsInRange(chunks) {
      InRangeWritesAreSlices([], chunks);
      assert [] + Concat(chunks) == Concat(chunks);
      FrontsAreSlices(ws, ChunkWrites(chunks, 0), Concat(chunks));
      SlicesRestoreExactly(file, ws, Concat(chunks));
    } else {
      OutOfRangeWritesFallShort(0, chunks);
      LastStartPlusLast(chunks);
      FrontsEndBefore(ws, ChunkWrites(chunks, 0), |Concat(chunks)|);
      if |file| < |Concat(chunks)| {
        LengthBound(file, ws, |Concat(chunks)|);
      } else {
        NeverShorter(file, ws);
      }
    }
  }

  lemma {:induction false} NeverShorter(file: seq<byte>, ws: seq<Write>)
    ensures |ApplyWrites(file, ws)| >= |file|
    decreases |ws|
  {
    if ws != [] {
      NeverShorter(WriteAt(file, ws[0].offset, ws[0].data), ws[1..]);
    }
  }

  /** In range, the chunk writes put the source over the front of the file, whatever it held. */
  lemma {:induction false} InRangeWritesOverlay(file: seq<byte>, done: seq<byte>, chunks: seq<seq<byte>>)
    requires chunks != [] ==> |done| + LastStart(chunks) < TWO_TO_THE_32
    ensures ApplyWrites(WriteAt(file, 0, done), ChunkWrites(chunks, |done| % TWO_TO_THE_32)) == WriteAt(file, 0, done + Concat(chunks))
    decreases |chunks|
  {
    if chunks == [] {
      assert done + [] == done;
    } else {
      InRangeWritesOverlay(file, done + chunks[0], chunks[1..]);
      FirstWriteOverlays(file, done, chunks);
      Associative(done, chunks[0], Concat(chunks[1..]));
    }
  }

  lemma FirstWriteOverlays(file: seq<byte>, done: seq<byte>, chunks: seq<seq<byte>>)
    requires chunks != [] && |done| < TWO_TO_THE_32
    ensures ApplyWrites(WriteAt(file, 0, done), ChunkWrites(chunks, |done| % TWO_TO_THE_32)) ==
            ApplyWrites(WriteAt(file, 0, done + chunks[0]), ChunkWrites(chunks[1..], |done + chunks[0]| % TWO_TO_THE_32))
  {
    ContinuedWrite(file, done, chunks[0]);
    InRangeStep(done, chunks);
    FirstWrite(WriteAt(file, 0, done), Write(|done|, chunks[0]), ChunkWrites(chunks[1..], |done + chunks[0]| % TWO_TO_THE_32));
  }

  /** Exactly when the chunk writes turn a file that already held something into the source. (Once the
      offset has wrapped, a file that already had the source's length is the one case left open.) */
  lemma ChunksOverlayExactly(file: seq<byte>, chunks: seq<seq<byte>>)
    requires NonEmpty(chunks)
    ensures LastReadStartsInRange(chunks) ==> ApplyWrites(file, ChunkWrites(chunks, 0)) == WriteAt(file, 0, Concat(chunks))
    ensures LastReadStartsInRange(chunks) || |file| != |Concat(chunks)| ==>
              (ApplyWrites(file, ChunkWrites(chunks, 0)) == Concat(chunks) <==> LastReadStartsInRange(chunks) && |file| <= |Concat(chunks)|)
  {
    if LastReadStartsInRange(chunks) {
      InRangeWritesOverlay(file, [], chunks);
      assert [] + Concat(chunks) == Concat(chunks);
      WriteFromStart(file, Concat(chunks));
    } else if |file| != |Concat(chunks)| {
      forall w | w in ChunkWrites(chunks, 0) ensures FrontOfOne(w, ChunkWrites(chunks, 0)) {
        assert w.data <= w.data;
      }
      SomeChunksRebuildExactly(file, chunks, ChunkWrites(chunks, 0));
    }
  }

  // ---- Reads that deliver nothing -------------------------------------------------------------------

  /** The reads that delivered something; the loops skip the others. */
  function Filled(pieces: seq<seq<byte>>): (chunks: seq<seq<byte>>)
    ensures NonEmpty(chunks)
  {
    if pieces == [] then [] else (if pieces[0] == [] then [] else [pieces[0]]) + Filled(pieces[1..])
  }

  lemma {:induction false} FilledKeepsContent(pieces: seq<seq<byte>>)
    ensures Concat(Filled(pieces)) == Concat(pieces)
  {
    if pieces != [] {
      FilledKeepsContent(pieces[1..]);
      var rest := Filled(pieces[1..]);
      if pieces[0] == [] {
        assert [] + rest == rest && [] + Concat(rest) == Concat(rest);
      } else {
        assert ([pieces[0]] + rest)[1..] == rest;
      }
    }
  }

  lemma FilledNext(pieces: seq<seq<byte>>, i: nat)
    requires i < |pieces|
    ensures Filled(pieces[i..]) == (if pieces[i] == [] then [] else [pieces[i]]) + Filled(pieces[i + 1..])
  {
    assert pieces[i..][0] == pieces[i] && pieces[i..][1..] == pieces[i + 1..];
  }
}
