/** ScalarMix: every scalar wire type under proto3 default elision, and two packed lists. */
module ScalarMixCodec {
  import opened Bytes
  import opened Sequences
  import opened Base128
  import opened Records
  import opened Scalars
  import opened Fields
  import opened Folding
  import opened Layouts
  import opened Writing
  import opened Reading

  /** `ratio` and `score` are IEEE 754 bit patterns. */
  datatype ScalarMix = ScalarMix(
    active: bit, count: u32, total: u64, delta: i32, bigDelta: i64,
    checksum: u32, token: u64, signedFixed: i32, signedBigFixed: i64, ratio: u32, score: u64,
    kind: i32, flags: seq<bit>, ids: seq<u64>)

  const DEFAULT := ScalarMix(0, 0, 0, 0, 0, 0, 0, 0, 0, 0, 0, 0, [], [])

  /** The negative zeros, which compare equal to 0.0. */
  const MINUS_ZERO_32: u32 := 0x8000_0000
  const MINUS_ZERO_64: u64 := 0x8000_0000_0000_0000

  /** `ratio != 0.0` on bit patterns: false for both zeros, true for every NaN. */
  predicate NonZero32(bits: u32) {
    bits != 0 && bits != MINUS_ZERO_32
  }

  predicate NonZero64(bits: u64) {
    bits != 0 && bits != MINUS_ZERO_64
  }

  function FloatField(bits: u32): seq<Record> {
    if NonZero32(bits) then [Tagged(85, ToPayload(Float, bits))] else []
  }

  function DoubleField(bits: u64): seq<Record> {
    if NonZero64(bits) then [Tagged(89, ToPayload(Double, bits))] else []
  }

  // The fourteen fields in six groups, by wire form.

  function VarintRecords(m: ScalarMix): seq<Record> {
    ScalarField(8, Bool, m.active) + ScalarField(16, UInt32, m.count) + ScalarField(24, UInt64, m.total)
  }

  function ZigZagRecords(m: ScalarMix): seq<Record> {
    ScalarField(32, SInt32, m.delta) + ScalarField(40, SInt64, m.bigDelta)
  }

  function FixedRecords(m: ScalarMix): seq<Record> {
    ScalarField(53, Fixed32, m.checksum) + ScalarField(57, Fixed64, m.token)
  }

  function SignedRecords(m: ScalarMix): seq<Record> {
    ScalarField(69, SFixed32, m.signedFixed) + ScalarField(73, SFixed64, m.signedBigFixed)
  }

  function FloatRecords(m: ScalarMix): seq<Record> {
    FloatField(m.ratio) + DoubleField(m.score)
  }

  function ListRecords(m: ScalarMix): seq<Record> {
    ScalarField(96, Int32, m.kind) + PackedField(106, Bool, m.flags) + PackedField(114, UInt64, m.ids)
  }

  /** The records of an encoded message. */
  function ScalarMixRecords(m: ScalarMix): seq<Record> {
    VarintRecords(m) + ZigZagRecords(m) + FixedRecords(m) + SignedRecords(m) + FloatRecords(m) + ListRecords(m)
  }

  /** What one record does to a message. */
  function Step(m: ScalarMix, r: Record): Option<ScalarMix> {
    match r.tag
    case 8 => Some(m.(active := FromPayload(Bool, r.payload)))
    case 16 => Some(m.(count := FromPayload(UInt32, r.payload)))
    case 24 => Some(m.(total := FromPayload(UInt64, r.payload)))
    case 32 => Some(m.(delta := FromPayload(SInt32, r.payload)))
    case 40 => Some(m.(bigDelta := FromPayload(SInt64, r.payload)))
    case 53 => Some(m.(checksum := FromPayload(Fixed32, r.payload)))
    case 57 => Some(m.(token := FromPayload(Fixed64, r.payload)))
    case 69 => Some(m.(signedFixed := FromPayload(SFixed32, r.payload)))
    case 73 => Some(m.(signedBigFixed := FromPayload(SFixed64, r.payload)))
    case 85 => Some(m.(ratio := FromPayload(Float, r.payload)))
    case 89 => Some(m.(score := FromPayload(Double, r.payload)))
    case 96 => Some(m.(kind := FromPayload(Int32, r.payload)))
    case 106 => var vs :- Unpack(Bool, r.payload.data); Some(m.(flags := vs))
    case 114 => var vs :- Unpack(UInt64, r.payload.data); Some(m.(ids := vs))
    case _ => Some(m)
  }

  function Decode(s: bytes): Option<ScalarMix> {
    Run(Step, DEFAULT, s)
  }

  // Merging, group by group: the later message's written fields win.

  function MergeVarints(a: ScalarMix, b: ScalarMix): ScalarMix {
    a.(active := if b.active != 0 then b.active else a.active,
       count := if b.count != 0 then b.count else a.count,
       total := if b.total != 0 then b.total else a.total)
  }

  function MergeZigZags(a: ScalarMix, b: ScalarMix): ScalarMix {
    a.(delta := if b.delta != 0 then b.delta else a.delta,
       bigDelta := if b.bigDelta != 0 then b.bigDelta else a.bigDelta)
  }

  function MergeFixed(a: ScalarMix, b: ScalarMix): ScalarMix {
    a.(checksum := if b.checksum != 0 then b.checksum else a.checksum,
       token := if b.token != 0 then b.token else a.token)
  }

  function MergeSigned(a: ScalarMix, b: ScalarMix): ScalarMix {
    a.(signedFixed := if b.signedFixed != 0 then b.signedFixed else a.signedFixed,
       signedBigFixed := if b.signedBigFixed != 0 then b.signedBigFixed else a.signedBigFixed)
  }

  function MergeFloats(a: ScalarMix, b: ScalarMix): ScalarMix {
    a.(ratio := if NonZero32(b.ratio) then b.ratio else a.ratio,
       score := if NonZero64(b.score) then b.score else a.score)
  }

  function MergeLists(a: ScalarMix, b: ScalarMix): ScalarMix {
    a.(kind := if b.kind != 0 then b.kind else a.kind,
       flags := if b.flags != [] then b.flags else a.flags,
       ids := if b.ids != [] then b.ids else a.ids)
  }

  function Merge(a: ScalarMix, b: ScalarMix): ScalarMix {
    MergeLists(MergeFloats(MergeSigned(MergeFixed(MergeZigZags(MergeVarints(a, b), b), b), b), b), b)
  }

  /** All that a round trip loses: the sign of a zero. */
  function Normal(m: ScalarMix): ScalarMix {
    m.(ratio := if m.ratio == MINUS_ZERO_32 then 0 else m.ratio,
       score := if m.score == MINUS_ZERO_64 then 0 else m.score)
  }

  // ----------------------------------------------------------------- decoding

  lemma {:induction false} AbsorbVarints(m: ScalarMix, s: ScalarMix)
    ensures Fold(Step, m, VarintRecords(s)) == Some(MergeVarints(m, s))
  {
    var active, count := ScalarField(8, Bool, s.active), ScalarField(16, UInt32, s.count);
    var m1 := if s.active != 0 then m.(active := s.active) else m;
    FoldField(Step, m, active);
    FoldSnoc(Step, m, active, count, m1);
    FoldSnoc(Step, m, active + count, ScalarField(24, UInt64, s.total),
             if s.count != 0 then m1.(count := s.count) else m1);
  }

  lemma {:induction false} AbsorbZigZags(m: ScalarMix, s: ScalarMix)
    ensures Fold(Step, m, ZigZagRecords(s)) == Some(MergeZigZags(m, s))
  {
    var delta := ScalarField(32, SInt32, s.delta);
    ScalarRoundTrip(SInt32, s.delta);
    ScalarRoundTrip(SInt64, s.bigDelta);
    FoldField(Step, m, delta);
    FoldSnoc(Step, m, delta, ScalarField(40, SInt64, s.bigDelta), if s.delta != 0 then m.(delta := s.delta) else m);
  }

  lemma {:induction false} AbsorbFixed(m: ScalarMix, s: ScalarMix)
    ensures Fold(Step, m, FixedRecords(s)) == Some(MergeFixed(m, s))
  {
    var checksum := ScalarField(53, Fixed32, s.checksum);
    FoldField(Step, m, checksum);
    FoldSnoc(Step, m, checksum, ScalarField(57, Fixed64, s.token),
             if s.checksum != 0 then m.(checksum := s.checksum) else m);
  }

  lemma {:induction false} AbsorbSigned(m: ScalarMix, s: ScalarMix)
    ensures Fold(Step, m, SignedRecords(s)) == Some(MergeSigned(m, s))
  {
    var fixed := ScalarField(69, SFixed32, s.signedFixed);
    ScalarRoundTrip(SFixed32, s.signedFixed);
    ScalarRoundTrip(SFixed64, s.signedBigFixed);
    FoldField(Step, m, fixed);
    FoldSnoc(Step, m, fixed, ScalarField(73, SFixed64, s.signedBigFixed),
             if s.signedFixed != 0 then m.(signedFixed := s.signedFixed) else m);
  }

  lemma {:induction false} AbsorbFloats(m: ScalarMix, s: ScalarMix)
    ensures Fold(Step, m, FloatRecords(s)) == Some(MergeFloats(m, s))
  {
    FoldField(Step, m, FloatField(s.ratio));
    FoldSnoc(Step, m, FloatField(s.ratio), DoubleField(s.score),
             if NonZero32(s.ratio) then m.(ratio := s.ratio) else m);
  }

  lemma {:induction false} AbsorbLists(m: ScalarMix, s: ScalarMix)
    ensures Fold(Step, m, ListRecords(s)) == Some(MergeLists(m, s))
  {
    var kind, flags := ScalarField(96, Int32, s.kind), PackedField(106, Bool, s.flags);
    var m1 := if s.kind != 0 then m.(kind := s.kind) else m;
    ScalarRoundTrip(Int32, s.kind);
    FoldField(Step, m, kind);
    FoldSnoc(Step, m, kind, flags, m1);
    PackRoundTrip(Bool, s.flags);
    ListSteps(m1, Pack(Bool, s.flags));
    var m2 := if s.flags != [] then m1.(flags := s.flags) else m1;
    FoldSnoc(Step, m, kind + flags, PackedField(114, UInt64, s.ids), m2);
    PackRoundTrip(UInt64, s.ids);
    ListSteps(m2, Pack(UInt64, s.ids));
  }

  lemma {:induction false} ListSteps(m: ScalarMix, data: bytes)
    ensures Unpack(Bool, data).Some? ==> Step(m, Tagged(106, LEN(data))) == Some(m.(flags := Unpack(Bool, data).value))
    ensures Unpack(UInt64, data).Some? ==>
              Step(m, Tagged(114, LEN(data))) == Some(m.(ids := Unpack(UInt64, data).value))
  {
  }

  /** Decoding an encoding on top of any message merges the two. */
  lemma {:induction false} Absorb(m: ScalarMix, s: ScalarMix)
    ensures Fold(Step, m, ScalarMixRecords(s)) == Some(Merge(m, s))
  {
    var m1 := MergeVarints(m, s);
    var m2 := MergeZigZags(m1, s);
    var m3 := MergeFixed(m2, s);
    var m4 := MergeSigned(m3, s);
    var rs := VarintRecords(s);
    AbsorbVarints(m, s);
    FoldThen(Step, m, rs, m1, ZigZagRecords(s));
    AbsorbZigZags(m1, s);
    rs := rs + ZigZagRecords(s);
    FoldThen(Step, m, rs, m2, FixedRecords(s));
    AbsorbFixed(m2, s);
    rs := rs + FixedRecords(s);
    FoldThen(Step, m, rs, m3, SignedRecords(s));
    AbsorbSigned(m3, s);
    rs := rs + SignedRecords(s);
    FoldThen(Step, m, rs, m4, FloatRecords(s));
    AbsorbFloats(m4, s);
    rs := rs + FloatRecords(s);
    FoldThen(Step, m, rs, MergeFloats(m4, s), ListRecords(s));
    AbsorbLists(MergeFloats(m4, s), s);
  }

  /** Every message is recovered up to the sign of its zeros, so NaN patterns are kept. */
  lemma {:induction false} RoundTrip(m: ScalarMix)
    requires |Encode(ScalarMixRecords(m))| < ADDRESS_SPACE
    ensures Decode(Encode(ScalarMixRecords(m))) == Some(Normal(m))
  {
    RunEncode(Step, DEFAULT, ScalarMixRecords(m));
    Absorb(DEFAULT, m);
  }

  /** It is recovered exactly if and only if neither float is a negative zero. */
  lemma {:induction false} RoundTripExactly(m: ScalarMix)
    requires |Encode(ScalarMixRecords(m))| < ADDRESS_SPACE
    ensures Decode(Encode(ScalarMixRecords(m))) == Some(m)
       <==> m.ratio != MINUS_ZERO_32 && m.score != MINUS_ZERO_64
  {
    RoundTrip(m);
  }

  /** A negative zero that does not survive. */
  lemma {:induction false} MinusZeroIsLost()
    ensures var m := DEFAULT.(ratio := MINUS_ZERO_32);
            Encode(ScalarMixRecords(m)) == [] && Decode([]) == Some(DEFAULT) && m != DEFAULT
  {
  }

  /** Concatenation is merge. */
  lemma {:induction false} Concatenation(a: ScalarMix, b: ScalarMix)
    requires |Encode(ScalarMixRecords(a)) + Encode(ScalarMixRecords(b))| < ADDRESS_SPACE
    ensures Decode(Encode(ScalarMixRecords(a)) + Encode(ScalarMixRecords(b))) == Some(Merge(Normal(a), b))
  {
    Absorb(DEFAULT, a);
    RunTwo(Step, DEFAULT, ScalarMixRecords(a), Normal(a), ScalarMixRecords(b));
    Absorb(Normal(a), b);
  }

  const TAGS: set<u32> := {8, 16, 24, 32, 40, 53, 57, 69, 73, 85, 89, 96, 106, 114}

  /** The struct field a record feeds: each has its own tag. */
  function Slot(r: Record): nat {
    if r.tag in TAGS then r.tag else 0
  }

  lemma {:induction false} StepLaws()
    ensures Ignores(Step, Slot) && Commutes(Step, Slot)
  {
    forall m: ScalarMix, a: Record, b: Record | Slot(a) != Slot(b)
      ensures Two(Step, m, a, b) == Two(Step, m, b, a)
    {
      StepsCommute(m, a, b);
    }
  }

  lemma {:induction false} StepsCommute(m: ScalarMix, a: Record, b: Record)
    requires Slot(a) != Slot(b)
    ensures Two(Step, m, a, b) == Two(Step, m, b, a)
  {
  }

  /** Records may be reordered between fields, and unknown ones added, without changing the outcome. */
  lemma {:induction false} FieldOrderIrrelevant(s: bytes, t: bytes)
    requires Parse(s).Some? && Parse(t).Some?
    requires SameFields(Slot, Parse(s).value, Parse(t).value)
    ensures Decode(s) == Decode(t)
  {
    StepLaws();
    RunFieldOrder(Step, Slot, DEFAULT, s, t);
  }

  /** Unknown records at any record boundary are transparent, whatever follows them. */
  lemma {:induction false} UnknownTransparent(xs: bytes, us: bytes, ys: bytes)
    requires Parse(xs).Some? && Parse(us).Some?
    requires forall i :: 0 <= i < |Parse(us).value| ==> Parse(us).value[i].tag !in TAGS
    ensures Decode(xs + us + ys) == Decode(xs + ys)
  {
    StepLaws();
    RunUnknown(Step, Slot, DEFAULT, xs, us, ys);
  }

  /** What a record does, arm by arm; a value need not be written canonically. */
  ghost predicate VarintEffect(m: ScalarMix, r: Record, next: Option<ScalarMix>) {
    && (r.tag == 8 ==> forall v: bit :: Denotes(Bool, r.payload, v) ==> next == Some(m.(active := v)))
    && (r.tag == 16 ==> forall v: u32 :: Denotes(UInt32, r.payload, v) ==> next == Some(m.(count := v)))
    && (r.tag == 24 ==> forall v: u64 :: Denotes(UInt64, r.payload, v) ==> next == Some(m.(total := v)))
    && (r.tag == 32 ==> forall v: i32 :: Denotes(SInt32, r.payload, v) ==> next == Some(m.(delta := v)))
    && (r.tag == 40 ==> forall v: i64 :: Denotes(SInt64, r.payload, v) ==> next == Some(m.(bigDelta := v)))
    && (r.tag == 96 ==> forall v: i32 :: Denotes(Int32, r.payload, v) ==> next == Some(m.(kind := v)))
  }

  /** The arms of fixed width. */
  ghost predicate FixedEffect(m: ScalarMix, r: Record, next: Option<ScalarMix>) {
    && (r.tag == 53 ==> forall v: u32 :: Denotes(Fixed32, r.payload, v) ==> next == Some(m.(checksum := v)))
    && (r.tag == 57 ==> forall v: u64 :: Denotes(Fixed64, r.payload, v) ==> next == Some(m.(token := v)))
    && (r.tag == 69 ==> forall v: i32 :: Denotes(SFixed32, r.payload, v) ==> next == Some(m.(signedFixed := v)))
    && (r.tag == 73 ==> forall v: i64 :: Denotes(SFixed64, r.payload, v) ==> next == Some(m.(signedBigFixed := v)))
    && (r.tag == 85 ==> forall v: u32 :: Denotes(Float, r.payload, v) ==> next == Some(m.(ratio := v)))
    && (r.tag == 89 ==> forall v: u64 :: Denotes(Double, r.payload, v) ==> next == Some(m.(score := v)))
  }

  /** The packed arms, and the last one. */
  ghost predicate ListEffect(m: ScalarMix, r: Record, next: Option<ScalarMix>) {
    && (r.tag == 106 ==>
          match Unpack(Bool, r.payload.data)
          case None => next == None
          case Some(vs) => next == Some(m.(flags := vs)))
    && (r.tag == 114 ==>
          match Unpack(UInt64, r.payload.data)
          case None => next == None
          case Some(vs) => next == Some(m.(ids := vs)))
    && (r.tag !in TAGS ==> next == Some(m))
  }

  lemma {:induction false} StepVarintEffect(m: ScalarMix, r: Record)
    ensures VarintEffect(m, r, Step(m, r))
  {
    if r.tag == 8 {
      OnlyDenotes(Bool, r.payload);
    }
    if r.tag == 16 {
      OnlyDenotes(UInt32, r.payload);
    }
    if r.tag == 24 {
      OnlyDenotes(UInt64, r.payload);
    }
    if r.tag == 32 {
      OnlyDenotes(SInt32, r.payload);
    }
    if r.tag == 40 {
      OnlyDenotes(SInt64, r.payload);
    }
    if r.tag == 96 {
      OnlyDenotes(Int32, r.payload);
    }
  }

  lemma {:induction false} StepFixedEffect(m: ScalarMix, r: Record)
    ensures FixedEffect(m, r, Step(m, r))
  {
    if r.tag == 53 {
      OnlyDenotes(Fixed32, r.payload);
    }
    if r.tag == 57 {
      OnlyDenotes(Fixed64, r.payload);
    }
    if r.tag == 69 {
      OnlyDenotes(SFixed32, r.payload);
    }
    if r.tag == 73 {
      OnlyDenotes(SFixed64, r.payload);
    }
    if r.tag == 85 {
      OnlyDenotes(Float, r.payload);
    }
    if r.tag == 89 {
      OnlyDenotes(Double, r.payload);
    }
  }

  lemma {:induction false} StepListEffect(m: ScalarMix, r: Record)
    ensures ListEffect(m, r, Step(m, r))
  {
  }

  /** Any input accepted so far, followed by one more record. */
  lemma {:induction false} OneMoreRecord(xs: bytes, m: ScalarMix, r: Record)
    requires Decode(xs) == Some(m) && |EncodeRecord(r)| < ADDRESS_SPACE
    ensures var next := Decode(xs + EncodeRecord(r));
            VarintEffect(m, r, next) && FixedEffect(m, r, next) && ListEffect(m, r, next)
  {
    RunOneMore(Step, DEFAULT, xs, m, r);
    StepVarintEffect(m, r);
    StepFixedEffect(m, r);
    StepListEffect(m, r);
  }

  // The tags of an encoded message, group by group.

  function VarintTags(m: ScalarMix): seq<u32> {
    Once(8, m.active != 0) + Once(16, m.count != 0) + Once(24, m.total != 0)
  }

  function ZigZagTags(m: ScalarMix): seq<u32> {
    Once(32, m.delta != 0) + Once(40, m.bigDelta != 0)
  }

  function FixedTags(m: ScalarMix): seq<u32> {
    Once(53, m.checksum != 0) + Once(57, m.token != 0)
  }

  function SignedTags(m: ScalarMix): seq<u32> {
    Once(69, m.signedFixed != 0) + Once(73, m.signedBigFixed != 0)
  }

  function FloatTags(m: ScalarMix): seq<u32> {
    Once(85, NonZero32(m.ratio)) + Once(89, NonZero64(m.score))
  }

  function ListTags(m: ScalarMix): seq<u32> {
    Once(96, m.kind != 0) + Once(106, m.flags != []) + Once(114, m.ids != [])
  }

  lemma {:induction false} VarintTagsMean(m: ScalarMix)
    ensures Tags(VarintRecords(m)) == VarintTags(m)
  {
    var active, count := ScalarField(8, Bool, m.active), ScalarField(16, UInt32, m.count);
    TagsAppend(active + count, ScalarField(24, UInt64, m.total));
    TagsAppend(active, count);
    ScalarTags(8, Bool, m.active);
    ScalarTags(16, UInt32, m.count);
    ScalarTags(24, UInt64, m.total);
  }

  lemma {:induction false} ZigZagTagsMean(m: ScalarMix)
    ensures Tags(ZigZagRecords(m)) == ZigZagTags(m)
  {
    TagsAppend(ScalarField(32, SInt32, m.delta), ScalarField(40, SInt64, m.bigDelta));
    ScalarTags(32, SInt32, m.delta);
    ScalarTags(40, SInt64, m.bigDelta);
  }

  lemma {:induction false} FixedTagsMean(m: ScalarMix)
    ensures Tags(FixedRecords(m)) == FixedTags(m)
  {
    TagsAppend(ScalarField(53, Fixed32, m.checksum), ScalarField(57, Fixed64, m.token));
    ScalarTags(53, Fixed32, m.checksum);
    ScalarTags(57, Fixed64, m.token);
  }

  lemma {:induction false} SignedTagsMean(m: ScalarMix)
    ensures Tags(SignedRecords(m)) == SignedTags(m)
  {
    TagsAppend(ScalarField(69, SFixed32, m.signedFixed), ScalarField(73, SFixed64, m.signedBigFixed));
    ScalarTags(69, SFixed32, m.signedFixed);
    ScalarTags(73, SFixed64, m.signedBigFixed);
  }

  lemma {:induction false} FloatTagsMean(m: ScalarMix)
    ensures Tags(FloatRecords(m)) == FloatTags(m)
  {
    TagsAppend(FloatField(m.ratio), DoubleField(m.score));
  }

  lemma {:induction false} ListTagsMean(m: ScalarMix)
    ensures Tags(ListRecords(m)) == ListTags(m)
  {
    var kind, flags := ScalarField(96, Int32, m.kind), PackedField(106, Bool, m.flags);
    TagsAppend(kind + flags, PackedField(114, UInt64, m.ids));
    TagsAppend(kind, flags);
    ScalarTags(96, Int32, m.kind);
    PackedTags(106, Bool, m.flags);
    PackedTags(114, UInt64, m.ids);
  }

  lemma {:induction false} GroupsAscend(m: ScalarMix)
    ensures Ascending(ScalarMixTags(m))
  {
    Triple(8, m.active != 0, 16, m.count != 0, 24, m.total != 0);
    Pair(32, m.delta != 0, 40, m.bigDelta != 0);
    Pair(53, m.checksum != 0, 57, m.token != 0);
    Pair(69, m.signedFixed != 0, 73, m.signedBigFixed != 0);
    Pair(85, NonZero32(m.ratio), 89, NonZero64(m.score));
    Triple(96, m.kind != 0, 106, m.flags != [], 114, m.ids != []);
    var ts := VarintTags(m);
    Between(ts, 8, 24, ZigZagTags(m), 32, 40);
    ts := ts + ZigZagTags(m);
    Between(ts, 8, 40, FixedTags(m), 53, 57);
    ts := ts + FixedTags(m);
    Between(ts, 8, 57, SignedTags(m), 69, 73);
    ts := ts + SignedTags(m);
    Between(ts, 8, 73, FloatTags(m), 85, 89);
    ts := ts + FloatTags(m);
    Between(ts, 8, 89, ListTags(m), 96, 114);
  }

  /** The tags of an encoded message: a field that is written, in the place of its number. */
  function ScalarMixTags(m: ScalarMix): seq<u32> {
    VarintTags(m) + ZigZagTags(m) + FixedTags(m) + SignedTags(m) + FloatTags(m) + ListTags(m)
  }

  /** The encoding has these tags, in ascending order. */
  lemma {:induction false} Layout(m: ScalarMix)
    requires |Encode(ScalarMixRecords(m))| < ADDRESS_SPACE
    ensures var rs := Parse(Encode(ScalarMixRecords(m)));
            rs.Some? && Tags(rs.value) == ScalarMixTags(m) && Ascending(Tags(rs.value))
  {
    ParseEncode(ScalarMixRecords(m));
    var rs := VarintRecords(m);
    TagsAppend(rs, ZigZagRecords(m));
    rs := rs + ZigZagRecords(m);
    TagsAppend(rs, FixedRecords(m));
    rs := rs + FixedRecords(m);
    TagsAppend(rs, SignedRecords(m));
    rs := rs + SignedRecords(m);
    TagsAppend(rs, FloatRecords(m));
    rs := rs + FloatRecords(m);
    TagsAppend(rs, ListRecords(m));
    VarintTagsMean(m);
    ZigZagTagsMean(m);
    FixedTagsMean(m);
    SignedTagsMean(m);
    FloatTagsMean(m);
    ListTagsMean(m);
    GroupsAscend(m);
  }

  // ---------------------------------------------------------- size and writing

  method VarintSize(m: ScalarMix) returns (size: nat)
    ensures size == |Encode(VarintRecords(m))|
  {
    size := 0;
    if m.active != 0 {
      size := size + 2;
    }
    if m.count != 0 {
      size := size + (1 + SizeofScalar(UInt32, m.count));
    }
    if m.total != 0 {
      size := size + (1 + SizeofScalar(UInt64, m.total));
    }
    var active, count := ScalarField(8, Bool, m.active), ScalarField(16, UInt32, m.count);
    var total := ScalarField(24, UInt64, m.total);
    ScalarFieldSize(8, Bool, m.active);
    ScalarFieldSize(16, UInt32, m.count);
    ScalarFieldSize(24, UInt64, m.total);
    EncodeAppend(active + count, total);
    EncodeAppend(active, count);
  }

  method ZigZagSize(m: ScalarMix) returns (size: nat)
    ensures size == |Encode(ZigZagRecords(m))|
  {
    size := 0;
    if m.delta != 0 {
      size := size + (1 + SizeofScalar(SInt32, m.delta));
    }
    if m.bigDelta != 0 {
      size := size + (1 + SizeofScalar(SInt64, m.bigDelta));
    }
    ScalarFieldSize(32, SInt32, m.delta);
    ScalarFieldSize(40, SInt64, m.bigDelta);
    EncodeAppend(ScalarField(32, SInt32, m.delta), ScalarField(40, SInt64, m.bigDelta));
  }

  method FixedSize(m: ScalarMix) returns (size: nat)
    ensures size == |Encode(FixedRecords(m))| + |Encode(SignedRecords(m))|
  {
    size := 0;
    if m.checksum != 0 {
      size := size + (1 + 4);
    }
    if m.token != 0 {
      size := size + (1 + 8);
    }
    if m.signedFixed != 0 {
      size := size + (1 + 4);
    }
    if m.signedBigFixed != 0 {
      size := size + (1 + 8);
    }
    ScalarFieldSize(53, Fixed32, m.checksum);
    ScalarFieldSize(57, Fixed64, m.token);
    EncodeAppend(ScalarField(53, Fixed32, m.checksum), ScalarField(57, Fixed64, m.token));
    ScalarFieldSize(69, SFixed32, m.signedFixed);
    ScalarFieldSize(73, SFixed64, m.signedBigFixed);
    EncodeAppend(ScalarField(69, SFixed32, m.signedFixed), ScalarField(73, SFixed64, m.signedBigFixed));
  }

  method FloatSize(m: ScalarMix) returns (size: nat)
    ensures size == |Encode(FloatRecords(m))|
  {
    size := 0;
    if NonZero32(m.ratio) {
      size := size + (1 + 4);
      EncodeOne(Tagged(85, ToPayload(Float, m.ratio)));
    }
    if NonZero64(m.score) {
      size := size + (1 + 8);
      EncodeOne(Tagged(89, ToPayload(Double, m.score)));
    }
    EncodeAppend(FloatField(m.ratio), DoubleField(m.score));
  }

  method ListSize(m: ScalarMix) returns (size: nat)
    ensures size == |Encode(ListRecords(m))| + if m.ids != [] then 1 else 0
  {
    size := 0;
    if m.kind != 0 {
      size := size + (1 + SizeofScalar(Int32, m.kind));
    }
    if m.flags != [] {
      size := size + (1 + SizeofLen(|m.flags|));
    }
    if m.ids != [] {
      var length := SumSizes(UInt64, m.ids);
      size := size + (2 + SizeofLen(length));
    }
    var kind, flags := ScalarField(96, Int32, m.kind), PackedField(106, Bool, m.flags);
    ScalarFieldSize(96, Int32, m.kind);
    PackedFieldSize(106, Bool, m.flags);
    BoolsAreBytes(m.flags);
    PackedFieldSize(114, UInt64, m.ids);
    EncodeAppend(kind + flags, PackedField(114, UInt64, m.ids));
    EncodeAppend(kind, flags);
  }

  lemma {:induction false} BoolsAreBytes(flags: seq<bit>)
    ensures |Pack(Bool, flags)| == |flags|
  {
    if flags != [] {
      ScalarSize(Bool, flags[0]);
      BoolsAreBytes(flags[1..]);
    }
  }

  /**
   The predicted size is a tight upper bound: two bytes are counted for the one-byte tag of `ids`,
   so it is one too many exactly when that list is written.
   */
  method GetSize(m: ScalarMix) returns (size: nat)
    ensures size == |Encode(ScalarMixRecords(m))| + if m.ids != [] then 1 else 0
  {
    var varints := VarintSize(m);
    var zigZags := ZigZagSize(m);
    var fixed := FixedSize(m);
    var floats := FloatSize(m);
    var lists := ListSize(m);
    size := varints + zigZags + fixed + floats + lists;
    var rs := VarintRecords(m);
    EncodeAppend(rs, ZigZagRecords(m));
    EncodeAppend(rs + ZigZagRecords(m), FixedRecords(m));
    EncodeAppend(rs + ZigZagRecords(m) + FixedRecords(m), SignedRecords(m));
    EncodeAppend(rs + ZigZagRecords(m) + FixedRecords(m) + SignedRecords(m), FloatRecords(m));
    EncodeAppend(rs + ZigZagRecords(m) + FixedRecords(m) + SignedRecords(m) + FloatRecords(m), ListRecords(m));
  }

  method WriteIntegers(w: Writer, m: ScalarMix)
    modifies w
    ensures w.buf == old(w.buf) + Encode(VarintRecords(m)) + Encode(ZigZagRecords(m))
  {
    var active, count := ScalarField(8, Bool, m.active), ScalarField(16, UInt32, m.count);
    w.WriteScalarField(8, Bool, m.active);
    w.WriteScalarField(16, UInt32, m.count);
    Grow(old(w.buf), active, count);
    w.WriteScalarField(24, UInt64, m.total);
    Grow(old(w.buf), active + count, ScalarField(24, UInt64, m.total));
    ghost var before := w.buf;
    w.WriteScalarField(32, SInt32, m.delta);
    w.WriteScalarField(40, SInt64, m.bigDelta);
    Grow(before, ScalarField(32, SInt32, m.delta), ScalarField(40, SInt64, m.bigDelta));
  }

  method WriteFixedFields(w: Writer, m: ScalarMix)
    modifies w
    ensures w.buf == old(w.buf) + Encode(FixedRecords(m)) + Encode(SignedRecords(m))
  {
    w.WriteScalarField(53, Fixed32, m.checksum);
    w.WriteScalarField(57, Fixed64, m.token);
    Grow(old(w.buf), ScalarField(53, Fixed32, m.checksum), ScalarField(57, Fixed64, m.token));
    ghost var before := w.buf;
    w.WriteScalarField(69, SFixed32, m.signedFixed);
    w.WriteScalarField(73, SFixed64, m.signedBigFixed);
    Grow(before, ScalarField(69, SFixed32, m.signedFixed), ScalarField(73, SFixed64, m.signedBigFixed));
  }

  method WriteFloats(w: Writer, m: ScalarMix)
    modifies w
    ensures w.buf == old(w.buf) + Encode(FloatRecords(m))
  {
    if NonZero32(m.ratio) {
      w.WriteScalarWithTag(85, Float, m.ratio);
      EncodeOne(Tagged(85, ToPayload(Float, m.ratio)));
    }
    if NonZero64(m.score) {
      w.WriteScalarWithTag(89, Double, m.score);
      EncodeOne(Tagged(89, ToPayload(Double, m.score)));
    }
    Grow(old(w.buf), FloatField(m.ratio), DoubleField(m.score));
  }

  method WriteLists(w: Writer, m: ScalarMix)
    modifies w
    ensures w.buf == old(w.buf) + Encode(ListRecords(m))
  {
    var kind, flags := ScalarField(96, Int32, m.kind), PackedField(106, Bool, m.flags);
    w.WriteScalarField(96, Int32, m.kind);
    w.WritePackedField(106, Bool, m.flags);
    Grow(old(w.buf), kind, flags);
    w.WritePackedField(114, UInt64, m.ids);
    Grow(old(w.buf), kind + flags, PackedField(114, UInt64, m.ids));
  }

  method WriteMessage(m: ScalarMix, w: Writer)
    modifies w
    ensures w.buf == old(w.buf) + Encode(ScalarMixRecords(m))
  {
    ghost var rs := VarintRecords(m);
    WriteIntegers(w, m);
    Grow(old(w.buf), rs, ZigZagRecords(m));
    rs := rs + ZigZagRecords(m);
    WriteFixedFields(w, m);
    Grow(old(w.buf), rs, FixedRecords(m));
    rs := rs + FixedRecords(m);
    Grow(old(w.buf), rs, SignedRecords(m));
    rs := rs + SignedRecords(m);
    WriteFloats(w, m);
    Grow(old(w.buf), rs, FloatRecords(m));
    rs := rs + FloatRecords(m);
    WriteLists(w, m);
    Grow(old(w.buf), rs, ListRecords(m));
  }

  /** `encode_to_vec`: the reserved capacity is one byte too large exactly when `ids` is written. */
  method EncodeToVec(m: ScalarMix) returns (out: bytes, capacity: nat)
    ensures out == Encode(ScalarMixRecords(m)) && capacity == |out| + if m.ids != [] then 1 else 0
    ensures capacity < ADDRESS_SPACE ==> Decode(out) == Some(Normal(m))
    ensures capacity < ADDRESS_SPACE ==> Parse(out).Some? && Ascending(Tags(Parse(out).value))
  {
    capacity := GetSize(m);
    var w := new Writer();
    WriteMessage(m, w);
    out := w.buf;
    ConcatNil(Encode(ScalarMixRecords(m)));
    if capacity < ADDRESS_SPACE {
      RoundTrip(m);
      Layout(m);
    }
  }

  // ------------------------------------------------------------------ reading

  /** The arms of the loop's `match`, by wire type. */
  method ReadArm(r: Reader, input: bytes, m: ScalarMix, tag: u32) returns (res: Option<ScalarMix>)
    requires r.Valid(input)
    modifies r
    ensures r.Delivers(input, StepAt(Step, m, tag, old(r.Window(input))), res)
  {
    match tag % 8 {
      case 0 => res := ReadVarintArm(r, input, m, tag);
      case 2 => res := ReadListArm(r, input, m, tag);
      case _ => res := ReadFixedArm(r, input, m, tag);
    }
  }

  /** The arms whose payload is a varint. */
  method ReadVarintArm(r: Reader, input: bytes, m: ScalarMix, tag: u32) returns (res: Option<ScalarMix>)
    requires r.Valid(input) && tag % 8 == 0
    modifies r
    ensures r.Delivers(input, StepAt(Step, m, tag, old(r.Window(input))), res)
  {
    match tag {
      case 8 =>
        ScalarArm(Step, m, tag, r.Window(input), Bool);
        var v :- r.ReadScalar(input, Bool);
        return Some(m.(active := v));
      case 16 =>
        ScalarArm(Step, m, tag, r.Window(input), UInt32);
        var v :- r.ReadScalar(input, UInt32);
        return Some(m.(count := v));
      case 24 =>
        ScalarArm(Step, m, tag, r.Window(input), UInt64);
        var v :- r.ReadScalar(input, UInt64);
        return Some(m.(total := v));
      case 32 =>
        ScalarArm(Step, m, tag, r.Window(input), SInt32);
        var v :- r.ReadScalar(input, SInt32);
        return Some(m.(delta := v));
      case 40 =>
        ScalarArm(Step, m, tag, r.Window(input), SInt64);
        var v :- r.ReadScalar(input, SInt64);
        return Some(m.(bigDelta := v));
      case 96 =>
        ScalarArm(Step, m, tag, r.Window(input), Int32);
        var v :- r.ReadScalar(input, Int32);
        return Some(m.(kind := v));
      case _ =>
        UnknownArm(Step, m, tag, r.Window(input));
        var _ :- r.ReadUnknown(input, tag);
        return Some(m);
    }
  }

  /** The arms of fixed width. */
  method ReadFixedArm(r: Reader, input: bytes, m: ScalarMix, tag: u32) returns (res: Option<ScalarMix>)
    requires r.Valid(input) && tag % 8 != 0 && tag % 8 != 2
    modifies r
    ensures r.Delivers(input, StepAt(Step, m, tag, old(r.Window(input))), res)
  {
    match tag {
      case 53 =>
        ScalarArm(Step, m, tag, r.Window(input), Fixed32);
        var v :- r.ReadScalar(input, Fixed32);
        return Some(m.(checksum := v));
      case 57 =>
        ScalarArm(Step, m, tag, r.Window(input), Fixed64);
        var v :- r.ReadScalar(input, Fixed64);
        return Some(m.(token := v));
      case 69 =>
        ScalarArm(Step, m, tag, r.Window(input), SFixed32);
        var v :- r.ReadScalar(input, SFixed32);
        return Some(m.(signedFixed := v));
      case 73 =>
        ScalarArm(Step, m, tag, r.Window(input), SFixed64);
        var v :- r.ReadScalar(input, SFixed64);
        return Some(m.(signedBigFixed := v));
      case 85 =>
        ScalarArm(Step, m, tag, r.Window(input), Float);
        var v :- r.ReadScalar(input, Float);
        return Some(m.(ratio := v));
      case 89 =>
        ScalarArm(Step, m, tag, r.Window(input), Double);
        var v :- r.ReadScalar(input, Double);
        return Some(m.(score := v));
      case _ =>
        UnknownArm(Step, m, tag, r.Window(input));
        var _ :- r.ReadUnknown(input, tag);
        return Some(m);
    }
  }

  lemma {:induction false} FlagsArm(m: ScalarMix, s: bytes)
    ensures StepAt(Step, m, 106, s) == match GetPacked(Bool, s)
                                       case None => None
                                       case Some((vs, rest)) => Some((m.(flags := vs), rest))
  {
    LenArm(Step, m, 106, s);
  }

  lemma {:induction false} IdsArm(m: ScalarMix, s: bytes)
    ensures StepAt(Step, m, 114, s) == match GetPacked(UInt64, s)
                                       case None => None
                                       case Some((vs, rest)) => Some((m.(ids := vs), rest))
  {
    LenArm(Step, m, 114, s);
  }

  /** The packed arms. */
  method ReadListArm(r: Reader, input: bytes, m: ScalarMix, tag: u32) returns (res: Option<ScalarMix>)
    requires r.Valid(input) && tag % 8 == 2
    modifies r
    ensures r.Delivers(input, StepAt(Step, m, tag, old(r.Window(input))), res)
  {
    match tag {
      case 106 =>
        FlagsArm(m, r.Window(input));
        var vs :- r.ReadPacked(input, Bool);
        return Some(m.(flags := vs));
      case 114 =>
        IdsArm(m, r.Window(input));
        var vs :- r.ReadPacked(input, UInt64);
        return Some(m.(ids := vs));
      case _ =>
        UnknownArm(Step, m, tag, r.Window(input));
        var _ :- r.ReadUnknown(input, tag);
        return Some(m);
    }
  }

  method FromReader(r: Reader, input: bytes) returns (res: Option<ScalarMix>)
    requires r.Valid(input)
    modifies r
    ensures r.Delivers(input, Whole(Decode(old(r.Window(input)))), res)
  {
    ghost var window := r.Window(input);
    var msg := DEFAULT;
    while !r.IsEof()
      invariant r.Valid(input) && old(r.start) <= r.start && r.end == old(r.end)
      invariant Decode(window) == Run(Step, msg, r.Window(input))
      decreases r.end - r.start
    {
      RunStep(Step, msg, r.Window(input));
      var tag :- r.NextTag(input);
      msg :- ReadArm(r, input, msg, tag);
    }
    return Some(msg);
  }
}
