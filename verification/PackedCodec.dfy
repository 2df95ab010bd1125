/**
 The packed messages: one repeated field each, of fourteen element types. They differ only in the
 element kind, which is a parameter here.
 */
module PackedCodec {
  import opened Bytes
  import opened Sequences
  import opened Base128
  import opened Records
  import opened Scalars
  import opened Fields
  import opened Folding
  import opened Writing
  import opened Reading

  function PackedRecords(kind: Kind, vs: seq<int>): seq<Record>
    requires AllInRange(kind, vs)
  {
    PackedField(10, kind, vs)
  }

  /** A packed record replaces the list. */
  function StepOf(kind: Kind, m: seq<int>, r: Record): (res: Option<seq<int>>)
    ensures AllInRange(kind, m) && res.Some? ==> AllInRange(kind, res.value)
  {
    match r.tag
    case 10 => Unpack(kind, r.payload.data)
    case _ => Some(m)
  }

  function Step(kind: Kind): (seq<int>, Record) -> Option<seq<int>> {
    (m: seq<int>, r: Record) => StepOf(kind, m, r)
  }

  function Decode(kind: Kind, s: bytes): Option<seq<int>> {
    Run(Step(kind), [], s)
  }

  lemma {:induction false} Absorb(kind: Kind, m: seq<int>, vs: seq<int>)
    requires AllInRange(kind, vs)
    ensures Fold(Step(kind), m, PackedRecords(kind, vs)) == Some(if vs != [] then vs else m)
  {
    FoldField(Step(kind), m, PackedRecords(kind, vs));
    PackRoundTrip(kind, vs);
  }

  /** Lists of every length and every element kind are recovered exactly; the empty list writes nothing. */
  lemma {:induction false} RoundTrip(kind: Kind, vs: seq<int>)
    requires AllInRange(kind, vs)
    requires |Encode(PackedRecords(kind, vs))| < ADDRESS_SPACE
    ensures Decode(kind, Encode(PackedRecords(kind, vs))) == Some(vs)
    ensures Encode(PackedRecords(kind, vs)) == [] <==> vs == []
  {
    RunEncode(Step(kind), [], PackedRecords(kind, vs));
    Absorb(kind, [], vs);
  }

  /** A second message's list replaces the first; the two are not joined. */
  lemma {:induction false} Concatenation(kind: Kind, vs: seq<int>, ws: seq<int>)
    requires AllInRange(kind, vs) && AllInRange(kind, ws)
    requires |Encode(PackedRecords(kind, vs)) + Encode(PackedRecords(kind, ws))| < ADDRESS_SPACE
    ensures Decode(kind, Encode(PackedRecords(kind, vs)) + Encode(PackedRecords(kind, ws)))
         == Some(if ws != [] then ws else vs)
  {
    Absorb(kind, [], vs);
    RunTwo(Step(kind), [], PackedRecords(kind, vs), vs, PackedRecords(kind, ws));
    Absorb(kind, vs, ws);
  }

  /** Only records with tag 10 feed the list. */
  function Slot(r: Record): nat {
    if r.tag == 10 then 1 else 0
  }

  /** Unknown records at any record boundary are transparent, whatever follows them. */
  lemma {:induction false} UnknownTransparent(kind: Kind, xs: bytes, us: bytes, ys: bytes)
    requires Parse(xs).Some? && Parse(us).Some?
    requires forall i :: 0 <= i < |Parse(us).value| ==> Parse(us).value[i].tag !in {10}
    ensures Decode(kind, xs + us + ys) == Decode(kind, xs + ys)
  {
    RunUnknown(Step(kind), Slot, [], xs, us, ys);
  }

  /** What a record does: tag 10 replaces the list, or fails with its payload. */
  ghost predicate Effect(kind: Kind, vs: seq<int>, r: Record, next: Option<seq<int>>) {
    && (r.tag == 10 ==> next == Unpack(kind, r.payload.data))
    && (r.tag != 10 ==> next == Some(vs))
  }

  /** Any input accepted so far, followed by one more record. */
  lemma {:induction false} OneMoreRecord(kind: Kind, xs: bytes, vs: seq<int>, r: Record)
    requires Decode(kind, xs) == Some(vs) && |EncodeRecord(r)| < ADDRESS_SPACE
    ensures Effect(kind, vs, r, Decode(kind, xs + EncodeRecord(r)))
  {
    RunOneMore(Step(kind), [], xs, vs, r);
    assert Effect(kind, vs, r, Step(kind)(vs, r));
  }

  lemma {:induction false} FixedSize(kind: Kind, vs: seq<int>, width: nat)
    requires AllInRange(kind, vs)
    requires match kind
             case Fixed32 | SFixed32 | Float => width == 4
             case Fixed64 | SFixed64 | Double => width == 8
             case Bool => width == 1
             case _ => false
    ensures |Pack(kind, vs)| == |vs| * width
  {
    if vs != [] {
      ScalarSize(kind, vs[0]);
      FixedSize(kind, vs[1..], width);
      Distribute(|vs[1..]|, width);
    }
  }

  lemma {:induction false} Distribute(n: nat, width: nat)
    ensures width + n * width == (n + 1) * width
  {
  }

  /** A sum over the elements, or a multiple of their number where every element has one size. */
  method GetSize(kind: Kind, vs: seq<int>) returns (size: nat)
    requires AllInRange(kind, vs)
    ensures size == |Encode(PackedRecords(kind, vs))|
  {
    PackedFieldSize(10, kind, vs);
    if vs == [] {
      return 0;
    }
    var packed;
    match kind {
      case Fixed32 | SFixed32 | Float =>
        packed := |vs| * 4;
        FixedSize(kind, vs, 4);
      case Fixed64 | SFixed64 | Double =>
        packed := |vs| * 8;
        FixedSize(kind, vs, 8);
      case Bool =>
        packed := |vs|;
        FixedSize(kind, vs, 1);
      case _ =>
        packed := SumSizes(kind, vs);
    }
    return 1 + SizeofLen(packed);
  }

  method WriteMessage(kind: Kind, vs: seq<int>, w: Writer)
    requires AllInRange(kind, vs)
    modifies w
    ensures w.buf == old(w.buf) + Encode(PackedRecords(kind, vs))
  {
    w.WritePackedField(10, kind, vs);
  }

  /** `encode_to_vec`: the buffer fills the predicted size exactly and reads back as the message. */
  method EncodeToVec(kind: Kind, vs: seq<int>) returns (out: bytes, capacity: nat)
    requires AllInRange(kind, vs)
    ensures out == Encode(PackedRecords(kind, vs)) && |out| == capacity
    ensures capacity < ADDRESS_SPACE ==> Decode(kind, out) == Some(vs)
  {
    capacity := GetSize(kind, vs);
    var w := new Writer();
    WriteMessage(kind, vs, w);
    out := w.buf;
    ConcatNil(Encode(PackedRecords(kind, vs)));
    if capacity < ADDRESS_SPACE {
      RoundTrip(kind, vs);
    }
  }

  lemma {:induction false} PackedArm(kind: Kind, m: seq<int>, s: bytes)
    ensures StepAt(Step(kind), m, 10, s) == GetPacked(kind, s)
  {
    LenArm(Step(kind), m, 10, s);
  }

  /** The arms of the loop's `match`. */
  method ReadArm(r: Reader, input: bytes, kind: Kind, m: seq<int>, tag: u32) returns (res: Option<seq<int>>)
    requires r.Valid(input)
    modifies r
    ensures r.Delivers(input, StepAt(Step(kind), m, tag, old(r.Window(input))), res)
  {
    match tag {
      case 10 =>
        PackedArm(kind, m, r.Window(input));
        var vs :- r.ReadPacked(input, kind);
        return Some(vs);
      case _ =>
        UnknownArm(Step(kind), m, tag, r.Window(input));
        var _ :- r.ReadUnknown(input, tag);
        return Some(m);
    }
  }

  method FromReader(r: Reader, input: bytes, kind: Kind) returns (res: Option<seq<int>>)
    requires r.Valid(input)
    modifies r
    ensures r.Delivers(input, Whole(Decode(kind, old(r.Window(input)))), res)
  {
    ghost var window := r.Window(input);
    var msg: seq<int> := [];
    while !r.IsEof()
      invariant r.Valid(input) && old(r.start) <= r.start && r.end == old(r.end)
      invariant Decode(kind, window) == Run(Step(kind), msg, r.Window(input))
      decreases r.end - r.start
    {
      RunStep(Step(kind), msg, r.Window(input));
      var tag :- r.NextTag(input);
      msg :- ReadArm(r, input, kind, msg, tag);
    }
    return Some(msg);
  }
}
