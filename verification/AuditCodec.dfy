/** ComplexAudit: a string and an `int64`, nested in Complex three ways. */
module AuditCodec {
  import opened Bytes
  import opened Sequences
  import opened Base128
  import opened Records
  import opened Scalars
  import opened Fields
  import opened Folding
  import opened Layouts
  import opened Writing
  import opened Reading

  datatype Audit = Audit(actor: text, atUnix: i64)

  const DEFAULT := Audit([], 0)

  /** The records of an encoded audit. */
  function AuditRecords(a: Audit): seq<Record> {
    BytesField(10, a.actor) + ScalarField(16, Int64, a.atUnix)
  }

  /** What one record does to an audit. */
  function Step(m: Audit, r: Record): Option<Audit> {
    match r.tag
    case 10 => if ValidUtf8(r.payload.data) then Some(m.(actor := r.payload.data)) else None
    case 16 => Some(m.(atUnix := FromPayload(Int64, r.payload)))
    case _ => Some(m)
  }

  function Decode(data: bytes): Option<Audit> {
    Run(Step, DEFAULT, data)
  }

  /** The later message wins field by field; an elided field leaves the earlier value. */
  function Merge(a: Audit, b: Audit): Audit {
    Audit(if b.actor != [] then b.actor else a.actor, if b.atUnix != 0 then b.atUnix else a.atUnix)
  }

  /** Decoding an encoding on top of any audit merges the two. */
  lemma {:induction false} Absorb(m: Audit, a: Audit)
    ensures Fold(Step, m, AuditRecords(a)) == Some(Merge(m, a))
  {
    var actor, atUnix := BytesField(10, a.actor), ScalarField(16, Int64, a.atUnix);
    FoldField(Step, m, actor);
    FoldSnoc(Step, m, actor, atUnix, Merge(m, Audit(a.actor, 0)));
    ScalarRoundTrip(Int64, a.atUnix);
  }

  /** Every audit is recovered from its encoding. */
  lemma {:induction false} RoundTrip(a: Audit)
    requires |Encode(AuditRecords(a))| < ADDRESS_SPACE
    ensures Decode(Encode(AuditRecords(a))) == Some(a)
  {
    RunEncode(Step, DEFAULT, AuditRecords(a));
    Absorb(DEFAULT, a);
  }

  /** The record that carries a nested audit, and what its payload decodes to. */
  function NestedRecord(tag: u32, a: Audit): Record
    requires tag % 8 == 2
  {
    Tagged(tag, LEN(Encode(AuditRecords(a))))
  }

  lemma {:induction false} NestedRoundTrip(tag: u32, a: Audit)
    requires tag % 8 == 2 && |EncodeRecord(NestedRecord(tag, a))| < ADDRESS_SPACE
    ensures Decode(NestedRecord(tag, a).payload.data) == Some(a)
  {
    RoundTrip(a);
  }

  /** What a record does, arm by arm; a value need not be written canonically. */
  ghost predicate Effect(m: Audit, r: Record, next: Option<Audit>) {
    && (r.tag == 10 ==> next == if ValidUtf8(r.payload.data) then Some(m.(actor := r.payload.data)) else None)
    && (r.tag == 16 ==> forall v: i64 :: Denotes(Int64, r.payload, v) ==> next == Some(m.(atUnix := v)))
    && (r.tag !in {10, 16} ==> next == Some(m))
  }

  lemma {:induction false} StepEffect(m: Audit, r: Record)
    ensures Effect(m, r, Step(m, r))
  {
    if r.tag == 16 {
      OnlyDenotes(Int64, r.payload);
    }
  }

  /** Any input accepted so far, followed by one more record. */
  lemma {:induction false} OneMoreRecord(xs: bytes, m: Audit, r: Record)
    requires Decode(xs) == Some(m) && |EncodeRecord(r)| < ADDRESS_SPACE
    ensures Effect(m, r, Decode(xs + EncodeRecord(r)))
  {
    RunOneMore(Step, DEFAULT, xs, m, r);
    StepEffect(m, r);
  }

  /** Unknown records at any record boundary are transparent, whatever follows them. */
  lemma {:induction false} UnknownTransparent(xs: bytes, us: bytes, ys: bytes)
    requires Parse(xs).Some? && Parse(us).Some?
    requires forall i :: 0 <= i < |Parse(us).value| ==> Parse(us).value[i].tag !in {10, 16}
    ensures Decode(xs + us + ys) == Decode(xs + ys)
  {
    RunUnknown(Step, (r: Record) => if r.tag in {10, 16} then r.tag else 0, DEFAULT, xs, us, ys);
  }

  /** The tags of an encoded message: a field that is written, in the place of its number. */
  function AuditTags(a: Audit): seq<u32> {
    Once(10, a.actor != []) + Once(16, a.atUnix != 0)
  }

  /** The encoding has these tags, in ascending order. */
  lemma {:induction false} Layout(a: Audit)
    requires |Encode(AuditRecords(a))| < ADDRESS_SPACE
    ensures var rs := Parse(Encode(AuditRecords(a)));
            rs.Some? && Tags(rs.value) == AuditTags(a) && Ascending(Tags(rs.value))
  {
    ParseEncode(AuditRecords(a));
    TagsAppend(BytesField(10, a.actor), ScalarField(16, Int64, a.atUnix));
    BytesTags(10, a.actor);
    ScalarTags(16, Int64, a.atUnix);
  }

  method GetSize(a: Audit) returns (size: nat)
    ensures size == |Encode(AuditRecords(a))|
  {
    size := 0;
    if a.actor != [] {
      size := size + (1 + SizeofLen(|a.actor|));
    }
    if a.atUnix != 0 {
      size := size + (1 + SizeofScalar(Int64, a.atUnix));
    }
    BytesFieldSize(10, a.actor);
    ScalarFieldSize(16, Int64, a.atUnix);
    EncodeAppend(BytesField(10, a.actor), ScalarField(16, Int64, a.atUnix));
  }

  method WriteMessage(a: Audit, w: Writer)
    modifies w
    ensures w.buf == old(w.buf) + Encode(AuditRecords(a))
  {
    w.WriteBytesField(10, a.actor);
    w.WriteScalarField(16, Int64, a.atUnix);
    Grow(old(w.buf), BytesField(10, a.actor), ScalarField(16, Int64, a.atUnix));
  }

  /** `write_with_tag` around `write_message`: the predicted size, then the message. */
  method WriteNested(w: Writer, tag: u32, a: Audit)
    requires tag % 8 == 2
    modifies w
    ensures w.buf == old(w.buf) + EncodeRecord(NestedRecord(tag, a))
  {
    var size := GetSize(a);
    w.WriteVarint(tag);
    w.WriteVarint(size);
    WriteMessage(a, w);
    Concat3(old(w.buf), Varint(tag), Varint(size), Encode(AuditRecords(a)));
  }

  /** The arms of the loop's `match`. */
  method ReadArm(r: Reader, input: bytes, m: Audit, tag: u32) returns (res: Option<Audit>)
    requires r.Valid(input)
    modifies r
    ensures r.Delivers(input, StepAt(Step, m, tag, old(r.Window(input))), res)
  {
    match tag {
      case 10 =>
        LenArm(Step, m, tag, r.Window(input));
        var v :- r.ReadString(input);
        return Some(m.(actor := v));
      case 16 =>
        ScalarArm(Step, m, tag, r.Window(input), Int64);
        var v :- r.ReadScalar(input, Int64);
        return Some(m.(atUnix := v));
      case _ =>
        UnknownArm(Step, m, tag, r.Window(input));
        var _ :- r.ReadUnknown(input, tag);
        return Some(m);
    }
  }

  method FromReader(r: Reader, input: bytes) returns (res: Option<Audit>)
    requires r.Valid(input)
    modifies r
    ensures r.Delivers(input, Whole(Run(Step, DEFAULT, old(r.Window(input)))), res)
  {
    ghost var window := r.Window(input);
    var msg := DEFAULT;
    while !r.IsEof()
      invariant r.Valid(input) && old(r.start) <= r.start && r.end == old(r.end)
      invariant Run(Step, DEFAULT, window) == Run(Step, msg, r.Window(input))
      decreases r.end - r.start
    {
      RunStep(Step, msg, r.Window(input));
      var tag :- r.NextTag(input);
      msg :- ReadArm(r, input, msg, tag);
    }
    return Some(msg);
  }

  /** `read_message`: the declared length, all of it and nothing beyond it. */
  method ReadNested(r: Reader, input: bytes) returns (res: Option<Audit>)
    requires r.Valid(input)
    modifies r
    ensures r.Delivers(input, GetNested(Step, DEFAULT, old(r.Window(input))), res)
  {
    var outer :- r.Enter(input);
    var a :- FromReader(r, input);
    r.Leave(input, outer);
    return Some(a);
  }
}
