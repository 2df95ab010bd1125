/** `map<string, Audit>` fields: entries whose value is itself a nested message. */
module AuditMaps {
  import opened Bytes
  import opened Sequences
  import opened Base128
  import opened Records
  import opened Fields
  import opened Maps
  import opened Folding
  import opened Writing
  import opened Reading
  import AuditCodec

  type Audit = AuditCodec.Audit
  type AuditEntry = Entry<Audit>

  function AuditValue(value: Audit): Record {
    AuditCodec.NestedRecord(18, value)
  }

  const NO_ENTRY: AuditEntry := Entry([], AuditCodec.DEFAULT)

  /** What one record of an entry does; a missing key or value keeps its default. */
  function EntryStep(e: AuditEntry, r: Record): Option<AuditEntry> {
    match r.tag
    case 10 => if ValidUtf8(r.payload.data) then Some(e.(key := r.payload.data)) else None
    case 18 => var a :- AuditCodec.Decode(r.payload.data); Some(e.(value := a))
    case _ => Some(e)
  }

  function DecodeEntry(data: bytes): Option<AuditEntry> {
    Run(EntryStep, NO_ENTRY, data)
  }

  /** The effect on the map of one map record. */
  function Insert(m: map<text, Audit>, data: bytes): Option<map<text, Audit>> {
    match DecodeEntry(data)
    case None => None
    case Some(e) => Some(m[e.key := e.value])
  }

  /** A written entry reads back. */
  lemma {:induction false} EntryRoundTrip(e: AuditEntry)
    requires |Encode(EntryRecords(AuditValue, e))| < ADDRESS_SPACE
    ensures Run(EntryStep, NO_ENTRY, Encode(EntryRecords(AuditValue, e))) == Some(e)
  {
    RunEncode(EntryStep, NO_ENTRY, EntryRecords(AuditValue, e));
    var rs := EntryRecords(AuditValue, e);
    RecordFits(rs, 1);
    AuditCodec.RoundTrip(e.value);
    FoldField(EntryStep, NO_ENTRY, [rs[0]]);
    FoldSnoc(EntryStep, NO_ENTRY, [rs[0]], [rs[1]], NO_ENTRY.(key := e.key));
    assert rs == [rs[0]] + [rs[1]];
  }

  /** An entry may lack its key, its value or both. */
  lemma {:induction false} EmptyEntry()
    ensures DecodeEntry([]) == Some(Entry([], AuditCodec.Audit([], 0)))
  {
  }

  /** What a record does, arm by arm; a value need not be written canonically. */
  ghost predicate EntryEffect(e: AuditEntry, r: Record, next: Option<AuditEntry>) {
    && (r.tag == 10 ==> next == if ValidUtf8(r.payload.data) then Some(e.(key := r.payload.data)) else None)
    && (r.tag == 18 ==>
          match AuditCodec.Decode(r.payload.data)
          case None => next == None
          case Some(a) => next == Some(e.(value := a)))
    && (r.tag !in {10, 18} ==> next == Some(e))
  }

  lemma {:induction false} EntryStepEffect(e: AuditEntry, r: Record)
    ensures EntryEffect(e, r, EntryStep(e, r))
  {
  }

  /** Any input accepted so far, followed by one more record. */
  lemma {:induction false} OneMoreInEntry(xs: bytes, e: AuditEntry, r: Record)
    requires DecodeEntry(xs) == Some(e) && |EncodeRecord(r)| < ADDRESS_SPACE
    ensures EntryEffect(e, r, DecodeEntry(xs + EncodeRecord(r)))
  {
    RunOneMore(EntryStep, NO_ENTRY, xs, e, r);
    EntryStepEffect(e, r);
  }

  /** Unknown records at any record boundary are transparent, whatever follows them. */
  lemma {:induction false} UnknownInEntry(xs: bytes, us: bytes, ys: bytes)
    requires Parse(xs).Some? && Parse(us).Some?
    requires forall i :: 0 <= i < |Parse(us).value| ==> Parse(us).value[i].tag !in {10, 18}
    ensures DecodeEntry(xs + us + ys) == DecodeEntry(xs + ys)
  {
    RunUnknown(EntryStep, (r: Record) => if r.tag in {10, 18} then r.tag else 0, NO_ENTRY, xs, us, ys);
  }

  lemma {:induction false} SameStep(e: AuditEntry, a: bytes, b: bytes)
    requires AuditCodec.Decode(a) == AuditCodec.Decode(b)
    ensures EntryStep(e, Tagged(18, LEN(a))) == EntryStep(e, Tagged(18, LEN(b)))
  {
  }

  /** Unknown records inside the nested value of an entry are transparent as well. */
  lemma {:induction false} UnknownInValue(before: bytes, xs: bytes, us: bytes, ys: bytes, after: bytes)
    requires Parse(before).Some? && Parse(xs).Some? && Parse(us).Some?
    requires forall i :: 0 <= i < |Parse(us).value| ==> Parse(us).value[i].tag !in {10, 16}
    requires |EncodeRecord(Tagged(18, LEN(xs + us + ys)))| < ADDRESS_SPACE
    requires |EncodeRecord(Tagged(18, LEN(xs + ys)))| < ADDRESS_SPACE
    ensures DecodeEntry(before + EncodeRecord(Tagged(18, LEN(xs + us + ys))) + after)
         == DecodeEntry(before + EncodeRecord(Tagged(18, LEN(xs + ys))) + after)
  {
    AuditCodec.UnknownTransparent(xs, us, ys);
    forall e: AuditEntry
      ensures EntryStep(e, Tagged(18, LEN(xs + us + ys))) == EntryStep(e, Tagged(18, LEN(xs + ys)))
    {
      SameStep(e, xs + us + ys, xs + ys);
    }
    RunReplace(EntryStep, NO_ENTRY, before, Tagged(18, LEN(xs + us + ys)), Tagged(18, LEN(xs + ys)), after);
  }

  /** The loop of `get_size` over the map's entries. */
  method AuditsSize(tag: u32, es: seq<AuditEntry>) returns (size: nat)
    requires tag % 8 == 2 && tag < 0x80
    ensures size == |Encode(MapRecords(tag, AuditValue, es))|
  {
    size := 0;
    for i := 0 to |es|
      invariant size + |Encode(MapRecords(tag, AuditValue, es[i..]))| == |Encode(MapRecords(tag, AuditValue, es))|
    {
      var entry := AuditEntrySize(tag, es[i].key, es[i].value);
      size := size + entry;
      NextEntry([], tag, AuditValue, es, i);
    }
  }

  method AuditEntrySize(tag: u32, key: text, value: Audit) returns (size: nat)
    requires tag % 8 == 2 && tag < 0x80
    ensures size == |EncodeRecord(EntryRecord(tag, AuditValue, Entry(key, value)))|
  {
    var valueLength := AuditCodec.GetSize(value);
    var entryLength := 1 + SizeofLen(|key|) + 1 + SizeofLen(valueLength);
    size := 1 + SizeofLen(entryLength);
    EntryRecordSize(tag, AuditValue, Entry(key, value));
    RecordSize(AuditValue(value));
  }

  /** The loop of `write_message` over the map's entries. */
  method WriteAudits(w: Writer, tag: u32, es: seq<AuditEntry>)
    requires tag % 8 == 2 && tag < 0x80
    modifies w
    ensures w.buf == old(w.buf) + Encode(MapRecords(tag, AuditValue, es))
  {
    for i := 0 to |es|
      invariant w.buf + Encode(MapRecords(tag, AuditValue, es[i..]))
             == old(w.buf) + Encode(MapRecords(tag, AuditValue, es))
    {
      ghost var before := w.buf;
      WriteEntry(w, tag, es[i].key, es[i].value);
      NextEntry(before, tag, AuditValue, es, i);
    }
    ConcatNil(w.buf);
  }

  /** `write_map`: the predicted entry length, then key and nested value with their tags. */
  method WriteEntry(w: Writer, tag: u32, key: text, value: Audit)
    requires tag % 8 == 2
    modifies w
    ensures w.buf == old(w.buf) + EncodeRecord(EntryRecord(tag, AuditValue, Entry(key, value)))
  {
    var valueLength := AuditCodec.GetSize(value);
    var entryLength := 1 + SizeofLen(|key|) + 1 + SizeofLen(valueLength);
    w.WriteVarint(tag);
    w.WriteVarint(entryLength);
    w.WriteBytesWithTag(10, key);
    AuditCodec.WriteNested(w, 18, value);
    EntryEncoding(AuditValue, Entry(key, value));
    RecordSize(AuditValue(value));
    Concat4(old(w.buf), Varint(tag), Varint(entryLength),
            EncodeRecord(Tagged(10, LEN(key))), EncodeRecord(AuditValue(value)));
  }

  /** The arms of the loop's `match`. */
  method ReadEntryArm(r: Reader, input: bytes, e: AuditEntry, tag: u32) returns (res: Option<AuditEntry>)
    requires r.Valid(input)
    modifies r
    ensures r.Delivers(input, StepAt(EntryStep, e, tag, old(r.Window(input))), res)
  {
    match tag {
      case 10 =>
        LenArm(EntryStep, e, tag, r.Window(input));
        var key :- r.ReadString(input);
        return Some(e.(key := key));
      case 18 =>
        LenArm(EntryStep, e, tag, r.Window(input));
        var value :- AuditCodec.ReadNested(r, input);
        return Some(e.(value := value));
      case _ =>
        UnknownArm(EntryStep, e, tag, r.Window(input));
        var _ :- r.ReadUnknown(input, tag);
        return Some(e);
    }
  }

  /** `read_map` with a string key and a nested audit as its value. */
  method ReadEntry(r: Reader, input: bytes) returns (res: Option<AuditEntry>)
    requires r.Valid(input)
    modifies r
    ensures r.Delivers(input, GetNested(EntryStep, NO_ENTRY, old(r.Window(input))), res)
  {
    var outer :- r.Enter(input);
    ghost var data, limit := r.Window(input), r.end;
    var e := NO_ENTRY;
    while !r.IsEof()
      invariant r.Valid(input) && old(r.start) <= r.start && r.end == limit
      invariant Run(EntryStep, NO_ENTRY, data) == Run(EntryStep, e, r.Window(input))
      decreases r.end - r.start
    {
      RunStep(EntryStep, e, r.Window(input));
      var tag :- r.NextTag(input);
      e :- ReadEntryArm(r, input, e, tag);
    }
    r.Leave(input, outer);
    return Some(e);
  }
}
