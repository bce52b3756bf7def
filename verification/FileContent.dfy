/** Files as byte sequences, written at offsets. */
module FileContent {
  import opened Bytes

  function Max(a: nat, b: nat): nat {
    if a < b then b else a
  }

  /** Seek to `offset` and write `data`: the file grows as needed and a gap reads as zeros.
      Writing nothing changes nothing, even beyond the end. */
  function WriteAt(file: seq<byte>, offset: nat, data: seq<byte>): seq<byte> {
    if data == [] then file else
    seq(Max(|file|, offset + |data|), i requires 0 <= i < Max(|file|, offset + |data|) =>
      if offset <= i < offset + |data| then data[i - offset] else if i < |file| then file[i] else 0)
  }

  datatype Write = Write(offset: u32, data: seq<byte>)

  function ApplyWrites(file: seq<byte>, ws: seq<Write>): seq<byte>
    decreases |ws|
  {
    if ws == [] then file else ApplyWrites(WriteAt(file, ws[0].offset, ws[0].data), ws[1..])
  }

  lemma FirstWrite(file: seq<byte>, w: Write, rest: seq<Write>)
    ensures ApplyWrites(file, [w] + rest) == ApplyWrites(WriteAt(file, w.offset, w.data), rest)
  {
    assert ([w] + rest)[1..] == rest;
  }

  lemma AppendingWrite(file: seq<byte>, data: seq<byte>)
    ensures WriteAt(file, |file|, data) == file + data
  {
  }

  lemma RepeatedWrite(file: seq<byte>, offset: nat, data: seq<byte>)
    ensures WriteAt(WriteAt(file, offset, data), offset, data) == WriteAt(file, offset, data)
  {
  }

  /** Writing from the start overlays the data on the old content. */
  lemma WriteFromStart(file: seq<byte>, data: seq<byte>)
    ensures WriteAt(file, 0, data) == data + if |data| < |file| then file[|data|..] else []
  {
  }

  /** A write that continues where a write from the start ended. */
  lemma ContinuedWrite(file: seq<byte>, a: seq<byte>, b: seq<byte>)
    ensures WriteAt(WriteAt(file, 0, a), |a|, b) == WriteAt(file, 0, a + b)
  {
    if b == [] {
      assert a + b == a;
    } else {
      var left, right := WriteAt(WriteAt(file, 0, a), |a|, b), WriteAt(file, 0, a + b);
      assert |left| == |right|;
      forall i | 0 <= i < |left|
        ensures left[i] == right[i]
      {
        if i < |a| {
          assert WriteAt(file, 0, a)[i] == a[i] == (a + b)[i];
        }
      }
    }
  }

  function Concat(chunks: seq<seq<byte>>): seq<byte> {
    if chunks == [] then [] else chunks[0] + Concat(chunks[1..])
  }

  lemma {:induction false} ConcatAppend(chunks: seq<seq<byte>>, c: seq<byte>)
    ensures Concat(chunks + [c]) == Concat(chunks) + c
  {
    if chunks == [] {
      assert chunks + [c] == [c] && Concat([c]) == c + Concat([]);
    } else {
      ConcatAppend(chunks[1..], c);
      assert (chunks + [c])[1..] == chunks[1..] + [c];
      assert chunks[0] + (Concat(chunks[1..]) + c) == chunks[0] + Concat(chunks[1..]) + c;
    }
  }
}
