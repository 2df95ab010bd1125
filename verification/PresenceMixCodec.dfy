/** PresenceMix: explicit presence and a four-armed oneof, two of its fields nested messages. */
module PresenceMixCodec {
  import opened Bytes
  import opened Sequences
  import opened Base128
  import opened Records
  import opened Scalars
  import opened Fields
  import opened Folding
  import opened Layouts
  import opened Writing
  import opened Reading
  import ChildCodec

  type Child = ChildCodec.Child

  datatype Pick = Name(name: text) | Token(token: bytes) | Nested(nested: Child) | Code(code: i64)

  datatype PresenceMix = PresenceMix(
    count: Option<i32>,
    note: Option<text>,
    raw: Option<bytes>,
    child: Option<Child>,
    pick: Option<Pick>)

  const DEFAULT := PresenceMix(None, None, None, None, None)

  // A present field is written even when its value is zero or empty.

  function CountField(count: Option<i32>): seq<Record> {
    if count.Some? then [Tagged(8, ToPayload(Int32, count.value))] else []
  }

  function PresentBytes(tag: u32, data: Option<bytes>): seq<Record>
    requires tag % 8 == 2
  {
    if data.Some? then [Tagged(tag, LEN(data.value))] else []
  }

  function ChildField(child: Option<Child>): seq<Record> {
    if child.Some? then [ChildCodec.NestedRecord(34, child.value)] else []
  }

  function PickField(pick: Option<Pick>): seq<Record> {
    match pick
    case None => []
    case Some(Name(name)) => [Tagged(42, LEN(name))]
    case Some(Token(token)) => [Tagged(50, LEN(token))]
    case Some(Nested(nested)) => [ChildCodec.NestedRecord(58, nested)]
    case Some(Code(code)) => [Tagged(64, ToPayload(Int64, code))]
  }

  /** The records of an encoded message. */
  function PresenceMixRecords(p: PresenceMix): seq<Record> {
    CountField(p.count) + PresentBytes(18, p.note) + PresentBytes(26, p.raw) + ChildField(p.child) + PickField(p.pick)
  }

  /** What one record does to a message. */
  function Step(m: PresenceMix, r: Record): Option<PresenceMix> {
    match r.tag
    case 8 => Some(m.(count := Some(FromPayload(Int32, r.payload))))
    case 18 => if ValidUtf8(r.payload.data) then Some(m.(note := Some(r.payload.data))) else None
    case 26 => Some(m.(raw := Some(r.payload.data)))
    case 34 => var c :- ChildCodec.Decode(r.payload.data); Some(m.(child := Some(c)))
    case 42 => if ValidUtf8(r.payload.data) then Some(m.(pick := Some(Name(r.payload.data)))) else None
    case 50 => Some(m.(pick := Some(Token(r.payload.data))))
    case 58 => var c :- ChildCodec.Decode(r.payload.data); Some(m.(pick := Some(Nested(c))))
    case 64 => Some(m.(pick := Some(Code(FromPayload(Int64, r.payload)))))
    case _ => Some(m)
  }

  function Decode(s: bytes): Option<PresenceMix> {
    Run(Step, DEFAULT, s)
  }

  /** Each field of the later message wins if it is present; a later child replaces, it does not merge. */
  function Merge(a: PresenceMix, b: PresenceMix): PresenceMix {
    PresenceMix(
      if b.count.Some? then b.count else a.count,
      if b.note.Some? then b.note else a.note,
      if b.raw.Some? then b.raw else a.raw,
      if b.child.Some? then b.child else a.child,
      if b.pick.Some? then b.pick else a.pick)
  }

  // ----------------------------------------------------------------- decoding

  lemma {:induction false} AbsorbChild(m: PresenceMix, child: Option<Child>)
    requires |Encode(ChildField(child))| < ADDRESS_SPACE
    ensures Fold(Step, m, ChildField(child)) == Some(if child.Some? then m.(child := child) else m)
  {
    FoldField(Step, m, ChildField(child));
    if child.Some? {
      EncodeOne(ChildField(child)[0]);
      ChildCodec.NestedRoundTrip(34, child.value);
    }
  }

  lemma {:induction false} AbsorbPick(m: PresenceMix, pick: Option<Pick>)
    requires |Encode(PickField(pick))| < ADDRESS_SPACE
    ensures Fold(Step, m, PickField(pick)) == Some(if pick.Some? then m.(pick := pick) else m)
  {
    FoldField(Step, m, PickField(pick));
    if pick.Some? {
      EncodeOne(PickField(pick)[0]);
      assert PickField(pick) == [PickField(pick)[0]];
      StepsToPick(m, pick.value);
    }
  }

  lemma {:induction false} StepsToPick(m: PresenceMix, pick: Pick)
    requires |EncodeRecord(PickField(Some(pick))[0])| < ADDRESS_SPACE
    ensures Step(m, PickField(Some(pick))[0]) == Some(m.(pick := Some(pick)))
  {
    match pick
    case Nested(nested) => ChildCodec.NestedRoundTrip(58, nested);
    case Code(code) => ScalarRoundTrip(Int64, code);
    case _ =>
  }

  lemma {:induction false} PartsFit(p: PresenceMix)
    ensures |Encode(PresenceMixRecords(p))|
         == |Encode(CountField(p.count))| + |Encode(PresentBytes(18, p.note))| + |Encode(PresentBytes(26, p.raw))|
            + |Encode(ChildField(p.child))| + |Encode(PickField(p.pick))|
  {
    var count, note, raw := CountField(p.count), PresentBytes(18, p.note), PresentBytes(26, p.raw);
    EncodeAppend(count + note + raw + ChildField(p.child), PickField(p.pick));
    EncodeAppend(count + note + raw, ChildField(p.child));
    EncodeAppend(count + note, raw);
    EncodeAppend(count, note);
  }

  /** Decoding an encoding on top of any message merges the two. */
  lemma {:induction false} Absorb(m: PresenceMix, p: PresenceMix)
    requires |Encode(PresenceMixRecords(p))| < ADDRESS_SPACE
    ensures Fold(Step, m, PresenceMixRecords(p)) == Some(Merge(m, p))
  {
    var plain := CountField(p.count) + PresentBytes(18, p.note) + PresentBytes(26, p.raw);
    PartsFit(p);
    AbsorbPlain(m, p);
    var m1 := Merge(m, p.(child := None, pick := None));
    FoldThen(Step, m, plain, m1, ChildField(p.child));
    AbsorbChild(m1, p.child);
    var m2 := Merge(m, p.(pick := None));
    FoldThen(Step, m, plain + ChildField(p.child), m2, PickField(p.pick));
    AbsorbPick(m2, p.pick);
  }

  lemma {:induction false} AbsorbPlain(m: PresenceMix, p: PresenceMix)
    ensures Fold(Step, m, CountField(p.count) + PresentBytes(18, p.note) + PresentBytes(26, p.raw))
         == Some(Merge(m, p.(child := None, pick := None)))
  {
    var count, note, raw := CountField(p.count), PresentBytes(18, p.note), PresentBytes(26, p.raw);
    var m1 := if p.count.Some? then m.(count := p.count) else m;
    FoldField(Step, m, count);
    if p.count.Some? {
      ScalarRoundTrip(Int32, p.count.value);
    }
    FoldSnoc(Step, m, count, note, m1);
    FoldSnoc(Step, m, count + note, raw, if p.note.Some? then m1.(note := p.note) else m1);
  }

  /** Every message is recovered from its encoding: absent, present-but-empty and every arm alike. */
  lemma {:induction false} RoundTrip(p: PresenceMix)
    requires |Encode(PresenceMixRecords(p))| < ADDRESS_SPACE
    ensures Decode(Encode(PresenceMixRecords(p))) == Some(p)
  {
    RunEncode(Step, DEFAULT, PresenceMixRecords(p));
    Absorb(DEFAULT, p);
  }

  /** Concatenation is merge. */
  lemma {:induction false} Concatenation(a: PresenceMix, b: PresenceMix)
    requires |Encode(PresenceMixRecords(a)) + Encode(PresenceMixRecords(b))| < ADDRESS_SPACE
    ensures Decode(Encode(PresenceMixRecords(a)) + Encode(PresenceMixRecords(b))) == Some(Merge(a, b))
  {
    Absorb(DEFAULT, a);
    RunTwo(Step, DEFAULT, PresenceMixRecords(a), a, PresenceMixRecords(b));
    Absorb(a, b);
  }

  /** The struct field a record feeds; the four arms of the oneof are one field. */
  function Slot(r: Record): nat {
    match r.tag
    case 8 => 1
    case 18 => 2
    case 26 => 3
    case 34 => 4
    case 42 | 50 | 58 | 64 => 5
    case _ => 0
  }

  lemma {:induction false} StepLaws()
    ensures Ignores(Step, Slot) && Commutes(Step, Slot)
  {
    forall m: PresenceMix, a: Record, b: Record | Slot(a) != Slot(b)
      ensures Two(Step, m, a, b) == Two(Step, m, b, a)
    {
      StepsCommute(m, a, b);
    }
  }

  lemma {:induction false} StepsCommute(m: PresenceMix, a: Record, b: Record)
    requires Slot(a) != Slot(b)
    ensures Two(Step, m, a, b) == Two(Step, m, b, a)
  {
  }

  /** Records may be reordered between fields, and unknown ones added, without changing the outcome. */
  lemma {:induction false} FieldOrderIrrelevant(s: bytes, t: bytes)
    requires Parse(s).Some? && Parse(t).Some?
    requires SameFields(Slot, Parse(s).value, Parse(t).value)
    ensures Decode(s) == Decode(t)
  {
    StepLaws();
    RunFieldOrder(Step, Slot, DEFAULT, s, t);
  }

  /** Neighbours with different tags may be swapped anywhere in an input, unless both are arms of the oneof. */
  lemma {:induction false} SwapNeighbours(xs: bytes, a: Record, b: Record, ys: bytes)
    requires Parse(xs).Some?
    requires |EncodeRecord(a)| < ADDRESS_SPACE && |EncodeRecord(b)| < ADDRESS_SPACE
    requires a.tag != b.tag && !({a.tag, b.tag} <= {42, 50, 58, 64})
    ensures Decode(xs + EncodeRecord(a) + EncodeRecord(b) + ys) == Decode(xs + EncodeRecord(b) + EncodeRecord(a) + ys)
  {
    forall m: PresenceMix
      ensures Two(Step, m, a, b) == Two(Step, m, b, a)
    {
      if Slot(a) != Slot(b) {
        StepsCommute(m, a, b);
      } else {
        assert Slot(a) == 0;
      }
    }
    RunSwap(Step, DEFAULT, xs, a, b, ys);
  }

  /** The record that carries an arm of the oneof. */
  function ArmRecord(pick: Pick): Record {
    PickField(Some(pick))[0]
  }

  /** Two arms of the oneof may not: the later one wins, so their order matters unless they are equal. */
  lemma {:induction false} LaterArmWins(a: Pick, b: Pick)
    requires |EncodeRecord(ArmRecord(a))| < ADDRESS_SPACE && |EncodeRecord(ArmRecord(b))| < ADDRESS_SPACE
    ensures var x, y := EncodeRecord(ArmRecord(a)), EncodeRecord(ArmRecord(b));
            && Decode(x + y) == Some(DEFAULT.(pick := Some(b)))
            && (Decode(x + y) == Decode(y + x) <==> a == b)
  {
    StepsToPick(DEFAULT, a);
    StepsToPick(DEFAULT, b);
    StepsToPick(DEFAULT.(pick := Some(a)), b);
    StepsToPick(DEFAULT.(pick := Some(b)), a);
    RunPair(Step, DEFAULT, ArmRecord(a), DEFAULT.(pick := Some(a)), ArmRecord(b), DEFAULT.(pick := Some(b)));
    RunPair(Step, DEFAULT, ArmRecord(b), DEFAULT.(pick := Some(b)), ArmRecord(a), DEFAULT.(pick := Some(a)));
  }

  /** Unknown records at any record boundary are transparent, whatever follows them. */
  lemma {:induction false} UnknownTransparent(xs: bytes, us: bytes, ys: bytes)
    requires Parse(xs).Some? && Parse(us).Some?
    requires forall i :: 0 <= i < |Parse(us).value| ==> Parse(us).value[i].tag !in {8, 18, 26, 34, 42, 50, 58, 64}
    ensures Decode(xs + us + ys) == Decode(xs + ys)
  {
    StepLaws();
    RunUnknown(Step, Slot, DEFAULT, xs, us, ys);
  }

  /** What a record does, arm by arm; a value need not be written canonically. */
  ghost predicate Effect(m: PresenceMix, r: Record, next: Option<PresenceMix>) {
    && (r.tag == 8 ==> forall v: i32 :: Denotes(Int32, r.payload, v) ==> next == Some(m.(count := Some(v))))
    && (r.tag == 18 ==> next == if ValidUtf8(r.payload.data) then Some(m.(note := Some(r.payload.data))) else None)
    && (r.tag == 26 ==> next == Some(m.(raw := Some(r.payload.data))))
    && (r.tag == 34 ==>
          match ChildCodec.Decode(r.payload.data)
          case None => next == None
          case Some(c) => next == Some(m.(child := Some(c))))
    && (r.tag == 42 ==>
          next == if ValidUtf8(r.payload.data) then Some(m.(pick := Some(Name(r.payload.data)))) else None)
    && (r.tag == 50 ==> next == Some(m.(pick := Some(Token(r.payload.data)))))
    && (r.tag == 58 ==>
          match ChildCodec.Decode(r.payload.data)
          case None => next == None
          case Some(c) => next == Some(m.(pick := Some(Nested(c)))))
    && (r.tag == 64 ==> forall v: i64 :: Denotes(Int64, r.payload, v) ==> next == Some(m.(pick := Some(Code(v)))))
    && (r.tag !in {8, 18, 26, 34, 42, 50, 58, 64} ==> next == Some(m))
  }

  lemma {:induction false} StepEffect(m: PresenceMix, r: Record)
    ensures Effect(m, r, Step(m, r))
  {
    if r.tag == 8 {
      OnlyDenotes(Int32, r.payload);
    }
    if r.tag == 64 {
      OnlyDenotes(Int64, r.payload);
    }
  }

  /** Any input accepted so far, followed by one more record. */
  lemma {:induction false} OneMoreRecord(xs: bytes, m: PresenceMix, r: Record)
    requires Decode(xs) == Some(m) && |EncodeRecord(r)| < ADDRESS_SPACE
    ensures Effect(m, r, Decode(xs + EncodeRecord(r)))
  {
    RunOneMore(Step, DEFAULT, xs, m, r);
    StepEffect(m, r);
  }

  lemma {:induction false} SameStep(m: PresenceMix, tag: u32, a: bytes, b: bytes)
    requires tag in {34, 58} && ChildCodec.Decode(a) == ChildCodec.Decode(b)
    ensures Step(m, Tagged(tag, LEN(a))) == Step(m, Tagged(tag, LEN(b)))
  {
  }

  /** Two payloads that decode to the same nested message are interchangeable. */
  lemma {:induction false} ReplaceChild(pre: bytes, tag: u32, a: bytes, b: bytes, post: bytes)
    requires Parse(pre).Some? && tag in {34, 58} && ChildCodec.Decode(a) == ChildCodec.Decode(b)
    requires |EncodeRecord(Tagged(tag, LEN(a)))| < ADDRESS_SPACE && |EncodeRecord(Tagged(tag, LEN(b)))| < ADDRESS_SPACE
    ensures Decode(pre + EncodeRecord(Tagged(tag, LEN(a))) + post)
         == Decode(pre + EncodeRecord(Tagged(tag, LEN(b))) + post)
  {
    forall m: PresenceMix
      ensures Step(m, Tagged(tag, LEN(a))) == Step(m, Tagged(tag, LEN(b)))
    {
      SameStep(m, tag, a, b);
    }
    RunReplace(Step, DEFAULT, pre, Tagged(tag, LEN(a)), Tagged(tag, LEN(b)), post);
  }

  /** Unknown records inside a nested child are transparent as well, wherever the child stands. */
  lemma {:induction false} UnknownInChild(pre: bytes, tag: u32, xs: bytes, us: bytes, ys: bytes, post: bytes)
    requires Parse(pre).Some? && Parse(xs).Some? && Parse(us).Some? && tag in {34, 58}
    requires forall i :: 0 <= i < |Parse(us).value| ==> Parse(us).value[i].tag !in {8, 18}
    requires |EncodeRecord(Tagged(tag, LEN(xs + us + ys)))| < ADDRESS_SPACE
    requires |EncodeRecord(Tagged(tag, LEN(xs + ys)))| < ADDRESS_SPACE
    ensures Decode(pre + EncodeRecord(Tagged(tag, LEN(xs + us + ys))) + post)
         == Decode(pre + EncodeRecord(Tagged(tag, LEN(xs + ys))) + post)
  {
    ChildCodec.UnknownTransparent(xs, us, ys);
    ReplaceChild(pre, tag, xs + us + ys, xs + ys, post);
  }

  function PickTags(pick: Option<Pick>): seq<u32> {
    match pick
    case None => []
    case Some(Name(_)) => [42]
    case Some(Token(_)) => [50]
    case Some(Nested(_)) => [58]
    case Some(Code(_)) => [64]
  }

  /** The tags of an encoded message: a field that is written, in the place of its number. */
  function PresenceMixTags(p: PresenceMix): seq<u32> {
    Once(8, p.count.Some?) + Once(18, p.note.Some?) + Once(26, p.raw.Some?) + Once(34, p.child.Some?)
    + PickTags(p.pick)
  }

  lemma {:induction false} PieceTags(p: PresenceMix)
    ensures Tags(CountField(p.count)) == Once(8, p.count.Some?)
    ensures Tags(PresentBytes(18, p.note)) == Once(18, p.note.Some?)
    ensures Tags(PresentBytes(26, p.raw)) == Once(26, p.raw.Some?)
    ensures Tags(ChildField(p.child)) == Once(34, p.child.Some?)
    ensures Tags(PickField(p.pick)) == PickTags(p.pick)
  {
  }

  lemma {:induction false} TagsAscend(p: PresenceMix)
    ensures Ascending(PresenceMixTags(p))
  {
    Triple(8, p.count.Some?, 18, p.note.Some?, 26, p.raw.Some?);
    var ts := Once(8, p.count.Some?) + Once(18, p.note.Some?) + Once(26, p.raw.Some?);
    Between(ts, 8, 26, Once(34, p.child.Some?), 34, 34);
    Between(ts + Once(34, p.child.Some?), 8, 34, PickTags(p.pick), 42, 64);
  }

  /** The encoding has these tags, in ascending order. */
  lemma {:induction false} Layout(p: PresenceMix)
    requires |Encode(PresenceMixRecords(p))| < ADDRESS_SPACE
    ensures var rs := Parse(Encode(PresenceMixRecords(p)));
            rs.Some? && Tags(rs.value) == PresenceMixTags(p) && Ascending(Tags(rs.value))
  {
    ParseEncode(PresenceMixRecords(p));
    var count, note, raw := CountField(p.count), PresentBytes(18, p.note), PresentBytes(26, p.raw);
    TagsAppend(count + note + raw + ChildField(p.child), PickField(p.pick));
    TagsAppend(count + note + raw, ChildField(p.child));
    TagsAppend(count + note, raw);
    TagsAppend(count, note);
    PieceTags(p);
    TagsAscend(p);
  }

  // ---------------------------------------------------------- size and writing

  method PickSize(pick: Option<Pick>) returns (size: nat)
    ensures size == |Encode(PickField(pick))|
  {
    match pick {
      case None => size := 0;
      case Some(Name(name)) => size := 1 + SizeofLen(|name|);
      case Some(Token(token)) => size := 1 + SizeofLen(|token|);
      case Some(Nested(nested)) =>
        var length := ChildCodec.GetSize(nested);
        size := 1 + SizeofLen(length);
      case Some(Code(code)) =>
        size := 1 + SizeofScalar(Int64, code);
        ScalarSize(Int64, code);
    }
    if pick.Some? {
      EncodeOne(PickField(pick)[0]);
      assert PickField(pick) == [PickField(pick)[0]];
      RecordSize(PickField(pick)[0]);
    }
  }

  lemma {:induction false} PresentBytesSize(tag: u32, data: Option<bytes>)
    requires tag % 8 == 2 && tag < 0x80
    ensures |Encode(PresentBytes(tag, data))| == if data.Some? then 1 + SizeofLen(|data.value|) else 0
  {
    if data.Some? {
      EncodeOne(Tagged(tag, LEN(data.value)));
      RecordSize(Tagged(tag, LEN(data.value)));
    }
  }

  method CountSize(count: Option<i32>) returns (size: nat)
    ensures size == |Encode(CountField(count))|
  {
    size := 0;
    if count.Some? {
      size := 1 + SizeofScalar(Int32, count.value);
      EncodeOne(Tagged(8, ToPayload(Int32, count.value)));
      RecordSize(Tagged(8, ToPayload(Int32, count.value)));
      ScalarSize(Int32, count.value);
    }
  }

  method ChildSize(child: Option<Child>) returns (size: nat)
    ensures size == |Encode(ChildField(child))|
  {
    size := 0;
    if child.Some? {
      var length := ChildCodec.GetSize(child.value);
      size := 1 + SizeofLen(length);
      EncodeOne(ChildCodec.NestedRecord(34, child.value));
      RecordSize(ChildCodec.NestedRecord(34, child.value));
    }
  }

  /** The predicted size is the encoded length. */
  method GetSize(p: PresenceMix) returns (size: nat)
    ensures size == |Encode(PresenceMixRecords(p))|
  {
    size := CountSize(p.count);
    if p.note.Some? {
      size := size + (1 + SizeofLen(|p.note.value|));
    }
    if p.raw.Some? {
      size := size + (1 + SizeofLen(|p.raw.value|));
    }
    var child := ChildSize(p.child);
    var pick := PickSize(p.pick);
    size := size + child + pick;
    PresentBytesSize(18, p.note);
    PresentBytesSize(26, p.raw);
    PartsFit(p);
  }

  method WriteCount(w: Writer, count: Option<i32>)
    modifies w
    ensures w.buf == old(w.buf) + Encode(CountField(count))
  {
    if count.Some? {
      w.WriteScalarWithTag(8, Int32, count.value);
      EncodeOne(Tagged(8, ToPayload(Int32, count.value)));
    }
  }

  method WritePresentBytes(w: Writer, tag: u32, data: Option<bytes>)
    requires tag % 8 == 2
    modifies w
    ensures w.buf == old(w.buf) + Encode(PresentBytes(tag, data))
  {
    if data.Some? {
      w.WriteBytesWithTag(tag, data.value);
      EncodeOne(Tagged(tag, LEN(data.value)));
    }
  }

  method WriteChild(w: Writer, child: Option<Child>)
    modifies w
    ensures w.buf == old(w.buf) + Encode(ChildField(child))
  {
    if child.Some? {
      ChildCodec.WriteNested(w, 34, child.value);
      EncodeOne(ChildCodec.NestedRecord(34, child.value));
    }
  }

  method WritePick(w: Writer, pick: Option<Pick>)
    modifies w
    ensures w.buf == old(w.buf) + Encode(PickField(pick))
  {
    match pick {
      case None =>
      case Some(Name(name)) => w.WriteBytesWithTag(42, name);
      case Some(Token(token)) => w.WriteBytesWithTag(50, token);
      case Some(Nested(nested)) => ChildCodec.WriteNested(w, 58, nested);
      case Some(Code(code)) => w.WriteScalarWithTag(64, Int64, code);
    }
    if pick.Some? {
      EncodeOne(PickField(pick)[0]);
      assert PickField(pick) == [PickField(pick)[0]];
    }
  }

  method WriteMessage(p: PresenceMix, w: Writer)
    modifies w
    ensures w.buf == old(w.buf) + Encode(PresenceMixRecords(p))
  {
    ghost var done := CountField(p.count);
    WriteCount(w, p.count);
    WritePresentBytes(w, 18, p.note);
    Grow(old(w.buf), done, PresentBytes(18, p.note));
    done := done + PresentBytes(18, p.note);
    WritePresentBytes(w, 26, p.raw);
    Grow(old(w.buf), done, PresentBytes(26, p.raw));
    done := done + PresentBytes(26, p.raw);
    WriteChild(w, p.child);
    Grow(old(w.buf), done, ChildField(p.child));
    done := done + ChildField(p.child);
    WritePick(w, p.pick);
    Grow(old(w.buf), done, PickField(p.pick));
  }

  /** `encode_to_vec`: the buffer fills the predicted size exactly and reads back as the message. */
  method EncodeToVec(p: PresenceMix) returns (out: bytes, capacity: nat)
    ensures out == Encode(PresenceMixRecords(p)) && |out| == capacity
    ensures capacity < ADDRESS_SPACE ==> Decode(out) == Some(p)
    ensures capacity < ADDRESS_SPACE ==> Parse(out).Some? && Ascending(Tags(Parse(out).value))
  {
    capacity := GetSize(p);
    var w := new Writer();
    WriteMessage(p, w);
    out := w.buf;
    ConcatNil(Encode(PresenceMixRecords(p)));
    if capacity < ADDRESS_SPACE {
      RoundTrip(p);
      Layout(p);
    }
  }

  // ------------------------------------------------------------------ reading

  /** The arms of the loop's `match`. */
  method ReadArm(r: Reader, input: bytes, m: PresenceMix, tag: u32) returns (res: Option<PresenceMix>)
    requires r.Valid(input)
    modifies r
    ensures r.Delivers(input, StepAt(Step, m, tag, old(r.Window(input))), res)
  {
    match tag {
      case 8 =>
        ScalarArm(Step, m, tag, r.Window(input), Int32);
        var v :- r.ReadScalar(input, Int32);
        return Some(m.(count := Some(v)));
      case 18 =>
        LenArm(Step, m, tag, r.Window(input));
        var v :- r.ReadString(input);
        return Some(m.(note := Some(v)));
      case 26 =>
        LenArm(Step, m, tag, r.Window(input));
        var v :- r.ReadBytes(input);
        return Some(m.(raw := Some(v)));
      case 34 =>
        LenArm(Step, m, tag, r.Window(input));
        var c :- ChildCodec.ReadNested(r, input);
        return Some(m.(child := Some(c)));
      case 42 =>
        LenArm(Step, m, tag, r.Window(input));
        var v :- r.ReadString(input);
        return Some(m.(pick := Some(Name(v))));
      case 50 =>
        LenArm(Step, m, tag, r.Window(input));
        var v :- r.ReadBytes(input);
        return Some(m.(pick := Some(Token(v))));
      case 58 =>
        LenArm(Step, m, tag, r.Window(input));
        var c :- ChildCodec.ReadNested(r, input);
        return Some(m.(pick := Some(Nested(c))));
      case 64 =>
        ScalarArm(Step, m, tag, r.Window(input), Int64);
        var v :- r.ReadScalar(input, Int64);
        return Some(m.(pick := Some(Code(v))));
      case _ =>
        UnknownArm(Step, m, tag, r.Window(input));
        var _ :- r.ReadUnknown(input, tag);
        return Some(m);
    }
  }

  method FromReader(r: Reader, input: bytes) returns (res: Option<PresenceMix>)
    requires r.Valid(input)
    modifies r
    ensures r.Delivers(input, Whole(Decode(old(r.Window(input)))), res)
  {
    ghost var window := r.Window(input);
    var msg := DEFAULT;
    while !r.IsEof()
      invariant r.Valid(input) && old(r.start) <= r.start && r.end == old(r.end)
      invariant Decode(window) == Run(Step, msg, r.Window(input))
      decreases r.end - r.start
    {
      RunStep(Step, msg, r.Window(input));
      var tag :- r.NextTag(input);
      msg :- ReadArm(r, input, msg, tag);
    }
    return Some(msg);
  }
}
