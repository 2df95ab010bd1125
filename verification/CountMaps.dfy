/** `map<string, int32>` fields, as Person and LargeMap write and read them. */
module CountMaps {
  import opened Bytes
  import opened Sequences
  import opened Base128
  import opened Records
  import opened Scalars
  import opened Fields
  import opened Maps
  import opened Folding
  import opened Writing
  import opened Reading

  type CountEntry = Entry<i32>

  function CountValue(value: i32): Record {
    Tagged(16, ToPayload(Int32, value))
  }

  const NO_ENTRY: CountEntry := Entry([], 0)

  /** What one record of an entry does; a missing key or value keeps its default. */
  function EntryStep(e: CountEntry, r: Record): Option<CountEntry> {
    match r.tag
    case 10 => if ValidUtf8(r.payload.data) then Some(e.(key := r.payload.data)) else None
    case 16 => Some(e.(value := FromPayload(Int32, r.payload)))
    case _ => Some(e)
  }

  function DecodeEntry(data: bytes): Option<CountEntry> {
    Run(EntryStep, NO_ENTRY, data)
  }

  /** The effect on the map of one map record. */
  function Insert(m: map<text, i32>, data: bytes): Option<map<text, i32>> {
    match DecodeEntry(data)
    case None => None
    case Some(e) => Some(m[e.key := e.value])
  }

  /** A written entry reads back. */
  lemma {:induction false} EntryRoundTrip(e: CountEntry)
    requires |Encode(EntryRecords(CountValue, e))| < ADDRESS_SPACE
    ensures Run(EntryStep, NO_ENTRY, Encode(EntryRecords(CountValue, e))) == Some(e)
  {
    RunEncode(EntryStep, NO_ENTRY, EntryRecords(CountValue, e));
    var rs := EntryRecords(CountValue, e);
    assert rs == [rs[0]] + [rs[1]];
    FoldAppend(EntryStep, NO_ENTRY, [rs[0]], [rs[1]]);
    FoldOne(EntryStep, NO_ENTRY, rs[0]);
    FoldOne(EntryStep, NO_ENTRY.(key := e.key), rs[1]);
    ScalarRoundTrip(Int32, e.value);
  }

  /** An entry may lack its key, its value or both. */
  lemma {:induction false} EmptyEntry()
    ensures DecodeEntry([]) == Some(Entry([], 0))
  {
  }

  /** What a record does, arm by arm; a value need not be written canonically. */
  ghost predicate EntryEffect(e: CountEntry, r: Record, next: Option<CountEntry>) {
    && (r.tag == 10 ==> next == if ValidUtf8(r.payload.data) then Some(e.(key := r.payload.data)) else None)
    && (r.tag == 16 ==> forall v: i32 :: Denotes(Int32, r.payload, v) ==> next == Some(e.(value := v)))
    && (r.tag !in {10, 16} ==> next == Some(e))
  }

  lemma {:induction false} EntryStepEffect(e: CountEntry, r: Record)
    ensures EntryEffect(e, r, EntryStep(e, r))
  {
    if r.tag == 16 {
      OnlyDenotes(Int32, r.payload);
    }
  }

  /** Any input accepted so far, followed by one more record. */
  lemma {:induction false} OneMoreInEntry(xs: bytes, e: CountEntry, r: Record)
    requires DecodeEntry(xs) == Some(e) && |EncodeRecord(r)| < ADDRESS_SPACE
    ensures EntryEffect(e, r, DecodeEntry(xs + EncodeRecord(r)))
  {
    RunOneMore(EntryStep, NO_ENTRY, xs, e, r);
    EntryStepEffect(e, r);
  }

  /** Unknown records at any record boundary are transparent, whatever follows them. */
  lemma {:induction false} UnknownInEntry(xs: bytes, us: bytes, ys: bytes)
    requires Parse(xs).Some? && Parse(us).Some?
    requires forall i :: 0 <= i < |Parse(us).value| ==> Parse(us).value[i].tag !in {10, 16}
    ensures DecodeEntry(xs + us + ys) == DecodeEntry(xs + ys)
  {
    RunUnknown(EntryStep, (r: Record) => if r.tag in {10, 16} then r.tag else 0, NO_ENTRY, xs, us, ys);
  }

  /** The loop of `get_size` over the map's entries. */
  method CountSize(tag: u32, es: seq<CountEntry>) returns (size: nat)
    requires tag % 8 == 2 && tag < 0x80
    ensures size == |Encode(MapRecords(tag, CountValue, es))|
  {
    size := 0;
    for i := 0 to |es|
      invariant size + |Encode(MapRecords(tag, CountValue, es[i..]))| == |Encode(MapRecords(tag, CountValue, es))|
    {
      var entry := CountEntrySize(tag, es[i].key, es[i].value);
      size := size + entry;
      NextEntry([], tag, CountValue, es, i);
    }
  }

  method CountEntrySize(tag: u32, key: text, value: i32) returns (size: nat)
    requires tag % 8 == 2 && tag < 0x80
    ensures size == |EncodeRecord(EntryRecord(tag, CountValue, Entry(key, value)))|
  {
    var entryLength := 1 + SizeofLen(|key|) + 1 + SizeofScalar(Int32, value);
    size := 1 + SizeofLen(entryLength);
    EntryRecordSize(tag, CountValue, Entry(key, value));
    RecordSize(CountValue(value));
    ScalarSize(Int32, value);
  }

  /** The loop of `write_message` over the map's entries. */
  method WriteCounts(w: Writer, tag: u32, es: seq<CountEntry>)
    requires tag % 8 == 2 && tag < 0x80
    modifies w
    ensures w.buf == old(w.buf) + Encode(MapRecords(tag, CountValue, es))
  {
    for i := 0 to |es|
      invariant w.buf + Encode(MapRecords(tag, CountValue, es[i..]))
             == old(w.buf) + Encode(MapRecords(tag, CountValue, es))
    {
      ghost var before := w.buf;
      WriteEntry(w, tag, es[i].key, es[i].value);
      NextEntry(before, tag, CountValue, es, i);
    }
    ConcatNil(w.buf);
  }

  /** `write_map`: the predicted entry length, then key and value with their tags. */
  method WriteEntry(w: Writer, tag: u32, key: text, value: i32)
    requires tag % 8 == 2
    modifies w
    ensures w.buf == old(w.buf) + EncodeRecord(EntryRecord(tag, CountValue, Entry(key, value)))
  {
    var entryLength := 1 + SizeofLen(|key|) + 1 + SizeofScalar(Int32, value);
    w.WriteVarint(tag);
    w.WriteVarint(entryLength);
    w.WriteBytesWithTag(10, key);
    w.WriteScalarWithTag(16, Int32, value);
    EntryEncoding(CountValue, Entry(key, value));
    RecordSize(CountValue(value));
    ScalarSize(Int32, value);
    Concat4(old(w.buf), Varint(tag), Varint(entryLength),
            EncodeRecord(Tagged(10, LEN(key))), EncodeRecord(CountValue(value)));
  }

  /** The arms of the loop's `match`. */
  method ReadEntryArm(r: Reader, input: bytes, e: CountEntry, tag: u32) returns (res: Option<CountEntry>)
    requires r.Valid(input)
    modifies r
    ensures r.Delivers(input, StepAt(EntryStep, e, tag, old(r.Window(input))), res)
  {
    match tag {
      case 10 =>
        LenArm(EntryStep, e, tag, r.Window(input));
        var key :- r.ReadString(input);
        return Some(e.(key := key));
      case 16 =>
        ScalarArm(EntryStep, e, tag, r.Window(input), Int32);
        var value :- r.ReadScalar(input, Int32);
        return Some(e.(value := value));
      case _ =>
        UnknownArm(EntryStep, e, tag, r.Window(input));
        var _ :- r.ReadUnknown(input, tag);
        return Some(e);
    }
  }

  /** `read_map` with a string key and an `int32` value. */
  method ReadEntry(r: Reader, input: bytes) returns (res: Option<CountEntry>)
    requires r.Valid(input)
    modifies r
    ensures r.Delivers(input, GetNested(EntryStep, NO_ENTRY, old(r.Window(input))), res)
  {
    var outer :- r.Enter(input);
    ghost var data, limit := r.Window(input), r.end;
    var e := NO_ENTRY;
    while !r.IsEof()
      invariant r.Valid(input) && old(r.start) <= r.start && r.end == limit
      invariant Run(EntryStep, NO_ENTRY, data) == Run(EntryStep, e, r.Window(input))
      decreases r.end - r.start
    {
      RunStep(EntryStep, e, r.Window(input));
      var tag :- r.NextTag(input);
      e :- ReadEntryArm(r, input, e, tag);
    }
    r.Leave(input, outer);
    return Some(e);
  }
}
