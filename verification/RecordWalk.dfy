/** The walk over the records of one directory notification buffer. */
module RecordWalk {
  import opened Bytes

  const HEADER := 12

  /** A record as the walk hands it on, its name still in UTF-16 bytes. */
  datatype Record = Record(action: u32, name: seq<byte>)

  /** What a walk yields; it crashes when a jump leads past the end of the buffer. */
  datatype Outcome = Outcome(records: seq<Record>, crashed: bool)

  function Field(data: seq<byte>, offset: nat): (v: u32)
    requires offset + 4 <= |data|
  {
    FromLEFits(data[offset..offset + 4]);
    Capacities();
    FromLE(data[offset..offset + 4])
  }

  /** Neither the header nor the name ends behind the data. */
  predicate HasRecord(data: seq<byte>, offset: nat) {
    offset + HEADER <= |data| && offset + HEADER + Field(data, offset + 8) <= |data|
  }

  function RecordAt(data: seq<byte>, offset: nat): Record
    requires HasRecord(data, offset)
  {
    Record(Field(data, offset + 4), data[offset + HEADER..offset + HEADER + Field(data, offset + 8)])
  }

  function Walk(data: seq<byte>, offset: nat): Outcome
    decreases |data| - offset
  {
    if offset > |data| then Outcome([], true)
    else if !HasRecord(data, offset) then Outcome([], false)
    else if Field(data, offset) == 0 then Outcome([RecordAt(data, offset)], false)
    else
      var rest := Walk(data, offset + Field(data, offset));
      Outcome([RecordAt(data, offset)] + rest.records, rest.crashed)
  }

  /** The records already yielded and those of the walk from `offset` make up the whole walk. */
  predicate Reaches(data: seq<byte>, done: seq<Record>, offset: nat, whole: Outcome) {
    done + Walk(data, offset).records == whole.records && Walk(data, offset).crashed == whole.crashed
  }

  lemma WalkEnds(data: seq<byte>, done: seq<Record>, offset: nat, whole: Outcome)
    requires Reaches(data, done, offset, whole) && (offset > |data| || !HasRecord(data, offset))
    ensures whole == Outcome(done, offset > |data|)
  {
    assert done + [] == done;
  }

  lemma WalkLast(data: seq<byte>, done: seq<Record>, offset: nat, whole: Outcome)
    requires Reaches(data, done, offset, whole) && HasRecord(data, offset) && Field(data, offset) == 0
    ensures whole == Outcome(done + [RecordAt(data, offset)], false)
  {
  }

  lemma WalkNext(data: seq<byte>, done: seq<Record>, offset: nat, whole: Outcome)
    requires Reaches(data, done, offset, whole) && HasRecord(data, offset) && Field(data, offset) != 0
    ensures Reaches(data, done + [RecordAt(data, offset)], offset + Field(data, offset), whole)
  {
    var rest := Walk(data, offset + Field(data, offset)).records;
    assert done + ([RecordAt(data, offset)] + rest) == done + [RecordAt(data, offset)] + rest;
  }

  /** The inner loop of streamDirectory. */
  method WalkRecords(data: seq<byte>) returns (records: seq<Record>, crashed: bool)
    ensures Outcome(records, crashed) == Walk(data, 0)
  {
    ghost var whole := Walk(data, 0);
    records := [];
    var offset := 0;
    while true
      invariant 0 <= offset && Reaches(data, records, offset, whole)
      decreases |data| - offset
    {
      if offset > |data| || !HasRecord(data, offset) {
        WalkEnds(data, records, offset, whole);
        return records, offset > |data|;
      }
      var next := Field(data, offset);
      if next == 0 {
        WalkLast(data, records, offset, whole);
        return records + [RecordAt(data, offset)], false;
      }
      WalkNext(data, records, offset, whole);
      records := records + [RecordAt(data, offset)];
      offset := offset + next;
    }
  }

  // ---- Any buffer at all -------------------------------------------------------------------------------------

  /** A header and the name it announces lie within the data. */
  predicate RecordWithin(data: seq<byte>, o: nat) {
    o + 12 <= |data| && o + 12 + FromLE(data[o + 8..o + 12]) <= |data|
  }

  /** These offsets are the ones the jumps lead to: each but the last has a record and is followed by the sum of
      itself and its own jump, which is not zero. */
  ghost predicate JumpChain(data: seq<byte>, os: seq<nat>) {
    forall k :: 0 <= k < |os| - 1 ==>
      RecordWithin(data, os[k]) && FromLE(data[os[k]..os[k] + 4]) != 0 && os[k + 1] == os[k] + FromLE(data[os[k]..os[k] + 4])
  }

  /** The record at an offset: the action behind the jump, and the name behind the header. */
  predicate IsRecordAt(r: Record, data: seq<byte>, o: nat)
    requires RecordWithin(data, o)
  {
    r.action == FromLE(data[o + 4..o + 8]) && r.name == data[o + 12..o + 12 + FromLE(data[o + 8..o + 12])]
  }

  ghost predicate RecordsAlong(rs: seq<Record>, data: seq<byte>, os: seq<nat>) {
    |rs| == |os| && forall k :: 0 <= k < |os| ==> RecordWithin(data, os[k]) && IsRecordAt(rs[k], data, os[k])
  }

  /** Where the chain of jumps arrives at a record with jump 0, that record is the last one; where it arrives at
      no whole record the walk ends before it, with a crash exactly when that place is past the end. */
  ghost predicate Follows(o: Outcome, data: seq<byte>, os: seq<nat>)
    requires os != []
  {
    var last := os[|os| - 1];
    if RecordWithin(data, last) then
      FromLE(data[last..last + 4]) == 0 ==> !o.crashed && RecordsAlong(o.records, data, os)
    else (o.crashed <==> last > |data|) && RecordsAlong(o.records, data, os[..|os| - 1])
  }

  /** On any buffer the walk yields the records along its jumps. */
  lemma {:induction false} WalkFollowsJumps(data: seq<byte>, os: seq<nat>)
    requires os != [] && JumpChain(data, os)
    ensures Follows(Walk(data, os[0]), data, os)
    decreases |os|
  {
    if |os| == 1 {
      WalkFollowsNoJump(data, os[0]);
      assert os == [os[0]];
    } else {
      var rest := os[1..];
      assert rest[0] == os[1] && os == [os[0]] + rest;
      WalkFollowsJumps(data, rest);
      WalkFollowsOneMore(data, os[0], rest);
    }
  }

  lemma WalkFollowsNoJump(data: seq<byte>, o: nat)
    ensures Follows(Walk(data, o), data, [o])
  {
    WithinIsHasRecord(data, o);
    assert [o][..0] == [];
  }

  lemma WalkFollowsOneMore(data: seq<byte>, o: nat, rest: seq<nat>)
    requires rest != [] && RecordWithin(data, o) && FromLE(data[o..o + 4]) != 0 && rest[0] == o + FromLE(data[o..o + 4])
    requires Follows(Walk(data, rest[0]), data, rest)
    ensures Follows(Walk(data, o), data, [o] + rest)
  {
    var later := Walk(data, rest[0]);
    WithinIsHasRecord(data, o);
    assert Walk(data, o) == Outcome([RecordAt(data, o)] + later.records, later.crashed);
    OneMoreAlong(RecordAt(data, o), later.records, data, o, rest);
    OneMoreAlong(RecordAt(data, o), later.records, data, o, rest[..|rest| - 1]);
    assert ([o] + rest)[..|rest|] == [o] + rest[..|rest| - 1];
  }

  lemma OneMoreAlong(r: Record, rs: seq<Record>, data: seq<byte>, o: nat, os: seq<nat>)
    requires RecordWithin(data, o) && IsRecordAt(r, data, o)
    ensures RecordsAlong(rs, data, os) ==> RecordsAlong([r] + rs, data, [o] + os)
  {
    if RecordsAlong(rs, data, os) {
      forall k | 0 <= k < |os| + 1 ensures RecordWithin(data, ([o] + os)[k]) && IsRecordAt(([r] + rs)[k], data, ([o] + os)[k]) {
        if k > 0 {
          assert ([o] + os)[k] == os[k - 1] && ([r] + rs)[k] == rs[k - 1];
        }
      }
    }
  }

  lemma WithinIsHasRecord(data: seq<byte>, o: nat)
    ensures RecordWithin(data, o) <==> HasRecord(data, o)
    ensures HasRecord(data, o) ==> IsRecordAt(RecordAt(data, o), data, o) && Field(data, o) == FromLE(data[o..o + 4])
  {
  }

  // ---- The walk inverts the layout ------------------------------------------------------------------------

  /** A record with the padding that separates it from the next one. */
  datatype Entry = Entry(record: Record, padding: seq<byte>)

  predicate Fits(e: Entry) {
    HEADER + |e.record.name| + |e.padding| < TWO_TO_THE_32
  }

  predicate AllFit(es: seq<Entry>) {
    forall i :: 0 <= i < |es| ==> Fits(es[i])
  }

  /** The distance to the next record, 0 in the last one. */
  function Jump(e: Entry, last: bool): nat {
    if last then 0 else HEADER + |e.record.name| + |e.padding|
  }

  function Header(e: Entry, last: bool): (h: seq<byte>)
    ensures |h| == HEADER
  {
    LE(Jump(e, last), 4) + LE(e.record.action, 4) + LE(|e.record.name|, 4)
  }

  /** The buffer as the system fills it. */
  function Layout(es: seq<Entry>): seq<byte> {
    if es == [] then [] else
    Header(es[0], |es| == 1) + (es[0].record.name + if |es| == 1 then [] else es[0].padding + Layout(es[1..]))
  }

  function RecordsOf(es: seq<Entry>): seq<Record> {
    seq(|es|, i requires 0 <= i < |es| => es[i].record)
  }

  lemma {:induction false} FromLEInvertsLE(v: nat, width: nat)
    requires v < Capacity(width)
    ensures FromLE(LE(v, width)) == v
  {
    if width > 0 {
      var s := LE(v, width);
      FromLEInvertsLE(v / 256, width - 1);
      assert s[0] == Digit(v, 0) == v % 256;
      assert s[1..] == LE(v / 256, width - 1);
    }
  }

  lemma FieldReads(data: seq<byte>, offset: nat, v: nat)
    requires offset + 4 <= |data| && v < TWO_TO_THE_32 && data[offset..offset + 4] == LE(v, 4)
    ensures Field(data, offset) == v
  {
    Capacities();
    FromLEInvertsLE(v, 4);
  }

  lemma HeaderSlices(before: seq<byte>, e: Entry, last: bool, after: seq<byte>)
    ensures var data, o := before + (Header(e, last) + (e.record.name + after)), |before|;
            && |data| == o + HEADER + |e.record.name| + |after|
            && data[o..o + 4] == LE(Jump(e, last), 4)
            && data[o + 4..o + 8] == LE(e.record.action, 4)
            && data[o + 8..o + 12] == LE(|e.record.name|, 4)
            && data[o + 12..o + 12 + |e.record.name|] == e.record.name
  {
    HeaderFields(before, LE(Jump(e, last), 4), LE(e.record.action, 4), LE(|e.record.name|, 4), e.record.name, after);
  }

  lemma HeaderFields(before: seq<byte>, a: seq<byte>, b: seq<byte>, c: seq<byte>, name: seq<byte>, after: seq<byte>)
    requires |a| == |b| == |c| == 4
    ensures var data, o := before + (a + b + c + (name + after)), |before|;
            && data[o..o + 4] == a && data[o + 4..o + 8] == b && data[o + 8..o + 12] == c
            && data[o + 12..o + 12 + |name|] == name
  {
  }

  lemma FirstRecordReads(before: seq<byte>, e: Entry, last: bool, after: seq<byte>)
    requires Fits(e)
    ensures var data, o := before + (Header(e, last) + (e.record.name + after)), |before|;
            HasRecord(data, o) && RecordAt(data, o) == e.record && Field(data, o) == Jump(e, last)
  {
    var data, o := before + (Header(e, last) + (e.record.name + after)), |before|;
    HeaderSlices(before, e, last, after);
    FieldReads(data, o, Jump(e, last));
    FieldReads(data, o + 4, e.record.action);
    FieldReads(data, o + 8, |e.record.name|);
  }

  lemma Shift(before: seq<byte>, e: Entry, rest: seq<byte>)
    ensures before + (Header(e, false) + (e.record.name + (e.padding + rest)))
            == (before + (Header(e, false) + (e.record.name + e.padding))) + rest
    ensures |before + (Header(e, false) + (e.record.name + e.padding))| == |before| + Jump(e, false)
  {
    Regroup(before, Header(e, false), e.record.name, e.padding, rest);
  }

  lemma Regroup(a: seq<byte>, b: seq<byte>, c: seq<byte>, d: seq<byte>, e: seq<byte>)
    ensures a + (b + (c + (d + e))) == (a + (b + (c + d))) + e
  {
  }

  lemma LayoutFirst(es: seq<Entry>)
    requires |es| > 1
    ensures Layout(es) == Header(es[0], false) + (es[0].record.name + (es[0].padding + Layout(es[1..])))
  {
  }

  lemma LayoutOnly(es: seq<Entry>)
    requires |es| == 1
    ensures Layout(es) == Header(es[0], true) + (es[0].record.name + []) && RecordsOf(es) == [es[0].record]
  {
  }

  /** The walk over the first of several records goes on behind its padding. */
  lemma WalkPastFirst(before: seq<byte>, e: Entry, rest: seq<byte>)
    requires Fits(e)
    ensures var data := before + (Header(e, false) + (e.record.name + (e.padding + rest)));
            var passed := before + (Header(e, false) + (e.record.name + e.padding));
            && data == passed + rest
            && Walk(data, |before|) == Outcome([e.record] + Walk(data, |passed|).records, Walk(data, |passed|).crashed)
  {
    FirstRecordReads(before, e, false, e.padding + rest);
    Shift(before, e, rest);
  }

  lemma {:induction false} WalkFrom(before: seq<byte>, es: seq<Entry>)
    requires es != [] && AllFit(es)
    ensures Walk(before + Layout(es), |before|) == Outcome(RecordsOf(es), false)
    decreases |es|
  {
    var e := es[0];
    if |es| == 1 {
      LayoutOnly(es);
      FirstRecordReads(before, e, true, []);
    } else {
      LayoutFirst(es);
      WalkPastFirst(before, e, Layout(es[1..]));
      WalkFrom(before + (Header(e, false) + (e.record.name + e.padding)), es[1..]);
      RecordsSplit(es);
    }
  }

  lemma RecordsSplit(es: seq<Entry>)
    requires es != []
    ensures RecordsOf(es) == [es[0].record] + RecordsOf(es[1..])
  {
  }

  /** A buffer of records with any names and any padding between them is walked record by record, in
      order and to the end, without ever leaving the buffer. */
  lemma WalkInvertsLayout(es: seq<Entry>)
    requires AllFit(es)
    ensures Walk(Layout(es), 0) == Outcome(RecordsOf(es), false)
  {
    if es != [] {
      WalkFrom([], es);
      assert [] + Layout(es) == Layout(es);
    }
  }
}
