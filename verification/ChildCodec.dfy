/** PresenceMixChild: an `int32` and a string, nested in PresenceMix two ways. */
module ChildCodec {
  import opened Bytes
  import opened Sequences
  import opened Base128
  import opened Records
  import opened Scalars
  import opened Fields
  import opened Folding
  import opened Layouts
  import opened Writing
  import opened Reading

  datatype Child = Child(id: i32, labelText: text)

  const DEFAULT := Child(0, [])

  /** The records of an encoded child. */
  function ChildRecords(c: Child): seq<Record> {
    ScalarField(8, Int32, c.id) + BytesField(18, c.labelText)
  }

  /** What one record does to a child. */
  function Step(m: Child, r: Record): Option<Child> {
    match r.tag
    case 8 => Some(m.(id := FromPayload(Int32, r.payload)))
    case 18 => if ValidUtf8(r.payload.data) then Some(m.(labelText := r.payload.data)) else None
    case _ => Some(m)
  }

  function Decode(data: bytes): Option<Child> {
    Run(Step, DEFAULT, data)
  }

  /** The later message wins field by field; an elided field leaves the earlier value. */
  function Merge(a: Child, b: Child): Child {
    Child(if b.id != 0 then b.id else a.id, if b.labelText != [] then b.labelText else a.labelText)
  }

  /** Decoding an encoding on top of any child merges the two. */
  lemma {:induction false} Absorb(m: Child, c: Child)
    ensures Fold(Step, m, ChildRecords(c)) == Some(Merge(m, c))
  {
    var id, labelText := ScalarField(8, Int32, c.id), BytesField(18, c.labelText);
    FoldField(Step, m, id);
    FoldSnoc(Step, m, id, labelText, Merge(m, Child(c.id, [])));
    ScalarRoundTrip(Int32, c.id);
  }

  /** Every child is recovered from its encoding. */
  lemma {:induction false} RoundTrip(c: Child)
    requires |Encode(ChildRecords(c))| < ADDRESS_SPACE
    ensures Decode(Encode(ChildRecords(c))) == Some(c)
  {
    RunEncode(Step, DEFAULT, ChildRecords(c));
    Absorb(DEFAULT, c);
  }

  /** The record that carries a nested child, and what its payload decodes to. */
  function NestedRecord(tag: u32, c: Child): Record
    requires tag % 8 == 2
  {
    Tagged(tag, LEN(Encode(ChildRecords(c))))
  }

  lemma {:induction false} NestedRoundTrip(tag: u32, c: Child)
    requires tag % 8 == 2 && |EncodeRecord(NestedRecord(tag, c))| < ADDRESS_SPACE
    ensures Decode(NestedRecord(tag, c).payload.data) == Some(c)
  {
    RoundTrip(c);
  }

  /** What a record does, arm by arm; a value need not be written canonically. */
  ghost predicate Effect(m: Child, r: Record, next: Option<Child>) {
    && (r.tag == 8 ==> forall v: i32 :: Denotes(Int32, r.payload, v) ==> next == Some(m.(id := v)))
    && (r.tag == 18 ==> next == if ValidUtf8(r.payload.data) then Some(m.(labelText := r.payload.data)) else None)
    && (r.tag !in {8, 18} ==> next == Some(m))
  }

  lemma {:induction false} StepEffect(m: Child, r: Record)
    ensures Effect(m, r, Step(m, r))
  {
    if r.tag == 8 {
      OnlyDenotes(Int32, r.payload);
    }
  }

  /** Any input accepted so far, followed by one more record. */
  lemma {:induction false} OneMoreRecord(xs: bytes, m: Child, r: Record)
    requires Decode(xs) == Some(m) && |EncodeRecord(r)| < ADDRESS_SPACE
    ensures Effect(m, r, Decode(xs + EncodeRecord(r)))
  {
    RunOneMore(Step, DEFAULT, xs, m, r);
    StepEffect(m, r);
  }

  /** Unknown records at any record boundary are transparent, whatever follows them. */
  lemma {:induction false} UnknownTransparent(xs: bytes, us: bytes, ys: bytes)
    requires Parse(xs).Some? && Parse(us).Some?
    requires forall i :: 0 <= i < |Parse(us).value| ==> Parse(us).value[i].tag !in {8, 18}
    ensures Decode(xs + us + ys) == Decode(xs + ys)
  {
    RunUnknown(Step, (r: Record) => if r.tag in {8, 18} then r.tag else 0, DEFAULT, xs, us, ys);
  }

  /** The tags of an encoded message: a field that is written, in the place of its number. */
  function ChildTags(c: Child): seq<u32> {
    Once(8, c.id != 0) + Once(18, c.labelText != [])
  }

  /** The encoding has these tags, in ascending order. */
  lemma {:induction false} Layout(c: Child)
    requires |Encode(ChildRecords(c))| < ADDRESS_SPACE
    ensures var rs := Parse(Encode(ChildRecords(c)));
            rs.Some? && Tags(rs.value) == ChildTags(c) && Ascending(Tags(rs.value))
  {
    ParseEncode(ChildRecords(c));
    TagsAppend(ScalarField(8, Int32, c.id), BytesField(18, c.labelText));
    ScalarTags(8, Int32, c.id);
    BytesTags(18, c.labelText);
  }

  method GetSize(c: Child) returns (size: nat)
    ensures size == |Encode(ChildRecords(c))|
  {
    size := 0;
    if c.id != 0 {
      size := size + (1 + SizeofScalar(Int32, c.id));
    }
    if c.labelText != [] {
      size := size + (1 + SizeofLen(|c.labelText|));
    }
    ScalarFieldSize(8, Int32, c.id);
    BytesFieldSize(18, c.labelText);
    EncodeAppend(ScalarField(8, Int32, c.id), BytesField(18, c.labelText));
  }

  method WriteMessage(c: Child, w: Writer)
    modifies w
    ensures w.buf == old(w.buf) + Encode(ChildRecords(c))
  {
    w.WriteScalarField(8, Int32, c.id);
    w.WriteBytesField(18, c.labelText);
    Grow(old(w.buf), ScalarField(8, Int32, c.id), BytesField(18, c.labelText));
  }

  /** `write_with_tag` around `write_message`: the predicted size, then the message. */
  method WriteNested(w: Writer, tag: u32, c: Child)
    requires tag % 8 == 2
    modifies w
    ensures w.buf == old(w.buf) + EncodeRecord(NestedRecord(tag, c))
  {
    var size := GetSize(c);
    w.WriteVarint(tag);
    w.WriteVarint(size);
    WriteMessage(c, w);
    Concat3(old(w.buf), Varint(tag), Varint(size), Encode(ChildRecords(c)));
  }

  /** The arms of the loop's `match`. */
  method ReadArm(r: Reader, input: bytes, m: Child, tag: u32) returns (res: Option<Child>)
    requires r.Valid(input)
    modifies r
    ensures r.Delivers(input, StepAt(Step, m, tag, old(r.Window(input))), res)
  {
    match tag {
      case 8 =>
        ScalarArm(Step, m, tag, r.Window(input), Int32);
        var v :- r.ReadScalar(input, Int32);
        return Some(m.(id := v));
      case 18 =>
        LenArm(Step, m, tag, r.Window(input));
        var v :- r.ReadString(input);
        return Some(m.(labelText := v));
      case _ =>
        UnknownArm(Step, m, tag, r.Window(input));
        var _ :- r.ReadUnknown(input, tag);
        return Some(m);
    }
  }

  method FromReader(r: Reader, input: bytes) returns (res: Option<Child>)
    requires r.Valid(input)
    modifies r
    ensures r.Delivers(input, Whole(Run(Step, DEFAULT, old(r.Window(input)))), res)
  {
    ghost var window := r.Window(input);
    var msg := DEFAULT;
    while !r.IsEof()
      invariant r.Valid(input) && old(r.start) <= r.start && r.end == old(r.end)
      invariant Run(Step, DEFAULT, window) == Run(Step, msg, r.Window(input))
      decreases r.end - r.start
    {
      RunStep(Step, msg, r.Window(input));
      var tag :- r.NextTag(input);
      msg :- ReadArm(r, input, msg, tag);
    }
    return Some(msg);
  }

  /** `read_message`: the declared length, all of it and nothing beyond it. */
  method ReadNested(r: Reader, input: bytes) returns (res: Option<Child>)
    requires r.Valid(input)
    modifies r
    ensures r.Delivers(input, GetNested(Step, DEFAULT, old(r.Window(input))), res)
  {
    var outer :- r.Enter(input);
    var c :- FromReader(r, input);
    r.Leave(input, outer);
    return Some(c);
  }
}
