/**
 Decoding as a fold. Every message type supplies a step, what one record does to a message;
 the laws here hold for all of them.
 */
module Folding {
  import opened Bytes
  import opened Sequences
  import opened Records

  /** The effect of a list of records, in order; `None` as soon as one is rejected. */
  function Fold<M>(step: (M, Record) -> Option<M>, m: M, rs: seq<Record>): Option<M> {
    if rs == [] then Some(m)
    else
      match step(m, rs[0])
      case None => None
      case Some(m') => Fold(step, m', rs[1..])
  }

  /** The decoding loop: read one record, apply it, go on with the rest of the input. */
  function Run<M>(step: (M, Record) -> Option<M>, m: M, s: bytes): Option<M>
    decreases |s|
  {
    if s == [] then Some(m)
    else
      match GetRecord(s)
      case None => None
      case Some((r, rest)) =>
        match step(m, r)
        case None => None
        case Some(m') => Run(step, m', rest)
  }

  /** One turn of the decoding loop, when the tag has been read. */
  function StepAt<M>(step: (M, Record) -> Option<M>, m: M, tag: u32, s: bytes): Option<(M, bytes)> {
    match GetPayload(tag % 8, s)
    case None => None
    case Some((p, rest)) => Bind(step(m, Tagged(tag, p)), rest)
  }

  function Bind<M>(m: Option<M>, rest: bytes): Option<(M, bytes)> {
    match m
    case None => None
    case Some(v) => Some((v, rest))
  }

  /** The loop, unrolled once: a tag, one step, and the rest of the input. */
  lemma {:induction false} RunStep<M>(step: (M, Record) -> Option<M>, m: M, s: bytes)
    requires s != []
    ensures Run(step, m, s) == match GetTag(s)
                               case None => None
                               case Some((tag, s1)) => RunRest(step, StepAt(step, m, tag, s1))
  {
  }

  function RunRest<M>(step: (M, Record) -> Option<M>, turn: Option<(M, bytes)>): Option<M> {
    match turn
    case None => None
    case Some((m, rest)) => Run(step, m, rest)
  }

  function FoldOption<M>(step: (M, Record) -> Option<M>, m: Option<M>, rs: Option<seq<Record>>): Option<M> {
    if m.None? || rs.None? then None else Fold(step, m.value, rs.value)
  }

  /** The one-pass loop does what parsing first and folding after would. */
  lemma {:induction false} RunIsFold<M>(step: (M, Record) -> Option<M>, m: M, s: bytes)
    ensures Run(step, m, s) == FoldOption(step, Some(m), Parse(s))
    decreases |s|
  {
    if s != [] && GetRecord(s).Some? {
      var (r, rest) := GetRecord(s).value;
      if step(m, r).Some? {
        RunIsFold(step, step(m, r).value, rest);
      }
      if Parse(rest).Some? {
        assert ([r] + Parse(rest).value)[1..] == Parse(rest).value;
      }
    }
  }

  lemma {:induction false} FoldAppend<M>(step: (M, Record) -> Option<M>, m: M, rs: seq<Record>, qs: seq<Record>)
    ensures Fold(step, m, rs + qs) == FoldOption(step, Fold(step, m, rs), Some(qs))
  {
    if rs == [] {
      assert rs + qs == qs;
    } else {
      TailOfConcat(rs, qs);
      match step(m, rs[0])
      case None =>
      case Some(m') => FoldAppend(step, m', rs[1..], qs);
    }
  }

  lemma {:induction false} FoldOne<M>(step: (M, Record) -> Option<M>, m: M, r: Record)
    ensures Fold(step, m, [r]) == step(m, r)
  {
    assert [r][1..] == [];
  }

  /** The fold of more records starts from where the first ones led. */
  lemma {:induction false} FoldThen<M>(step: (M, Record) -> Option<M>, m: M, rs: seq<Record>, mid: M, qs: seq<Record>)
    requires Fold(step, m, rs) == Some(mid)
    ensures Fold(step, m, rs + qs) == Fold(step, mid, qs)
  {
    FoldAppend(step, m, rs, qs);
  }

  lemma {:induction false} FoldCons<M>(step: (M, Record) -> Option<M>, m: M, r: Record, mid: M, rs: seq<Record>)
    requires step(m, r) == Some(mid)
    ensures Fold(step, m, [r] + rs) == Fold(step, mid, rs)
  {
    assert ([r] + rs)[1..] == rs;
  }

  /** An elided field does nothing, a written one takes its step. */
  lemma {:induction false} FoldField<M>(step: (M, Record) -> Option<M>, m: M, field: seq<Record>)
    requires |field| <= 1
    ensures Fold(step, m, field) == if field == [] then Some(m) else step(m, field[0])
  {
    if field != [] {
      assert field == [field[0]];
      FoldOne(step, m, field[0]);
    }
  }

  /** The last field of a list, applied to what the others led to. */
  lemma {:induction false} FoldSnoc<M>(step: (M, Record) -> Option<M>, m: M,
                                       rs: seq<Record>, field: seq<Record>, mid: M)
    requires Fold(step, m, rs) == Some(mid)
    requires |field| <= 1
    ensures Fold(step, m, rs + field) == if field == [] then Some(mid) else step(mid, field[0])
  {
    FoldAppend(step, m, rs, field);
    FoldField(step, mid, field);
  }

  function RunOption<M>(step: (M, Record) -> Option<M>, m: Option<M>, s: bytes): Option<M> {
    if m.None? then None else Run(step, m.value, s)
  }

  /** Decoding a concatenation continues from where decoding the first part ended. */
  lemma {:induction false} RunConcat<M>(step: (M, Record) -> Option<M>, m: M, xs: bytes, ys: bytes)
    requires Parse(xs).Some?
    ensures Run(step, m, xs + ys) == RunOption(step, Run(step, m, xs), ys)
  {
    RunIsFold(step, m, xs + ys);
    RunIsFold(step, m, xs);
    ParseConcat(xs, ys);
    if Parse(ys).Some? {
      FoldAppend(step, m, Parse(xs).value, Parse(ys).value);
    }
    if Run(step, m, xs).Some? {
      RunIsFold(step, Run(step, m, xs).value, ys);
    }
  }

  /** Decoding what was encoded folds the records that were written. */
  lemma {:induction false} RunEncode<M>(step: (M, Record) -> Option<M>, m: M, rs: seq<Record>)
    requires |Encode(rs)| < ADDRESS_SPACE
    ensures Run(step, m, Encode(rs)) == Fold(step, m, rs)
  {
    RunIsFold(step, m, Encode(rs));
    ParseEncode(rs);
  }

  /** Decoding two encodings, one after the other, folds the second from where the first led. */
  lemma {:induction false} RunTwo<M>(step: (M, Record) -> Option<M>, m: M, rs: seq<Record>, mid: M, qs: seq<Record>)
    requires |Encode(rs) + Encode(qs)| < ADDRESS_SPACE
    requires Fold(step, m, rs) == Some(mid)
    ensures Run(step, m, Encode(rs) + Encode(qs)) == Fold(step, mid, qs)
  {
    EncodeAppend(rs, qs);
    RunEncode(step, m, rs + qs);
    FoldThen(step, m, rs, mid, qs);
  }

  /** A nested message: a length and a window that must be consumed whole. */
  function GetNested<M>(step: (M, Record) -> Option<M>, m: M, s: bytes): Option<(M, bytes)> {
    match GetLen(s)
    case None => None
    case Some((data, rest)) =>
      Bind(Run(step, m, data), rest)
  }

  /** A message that fills its window. */
  function Whole<M>(m: Option<M>): Option<(M, bytes)> {
    Bind(m, [])
  }

  // --------------------------------------------------------------- field slots

  /** A slot function names the struct field a record feeds; slot 0 is "no field". */
  type Slots = Record -> nat

  ghost predicate Ignores<M(!new)>(step: (M, Record) -> Option<M>, slot: Slots) {
    forall m: M, r: Record :: slot(r) == 0 ==> step(m, r) == Some(m)
  }

  function Two<M>(step: (M, Record) -> Option<M>, m: M, a: Record, b: Record): Option<M> {
    match step(m, a)
    case None => None
    case Some(m') => step(m', b)
  }

  /** Records for different fields may be applied in either order. */
  ghost predicate Commutes<M(!new)>(step: (M, Record) -> Option<M>, slot: Slots) {
    forall m: M, a: Record, b: Record :: slot(a) != slot(b) ==> Two(step, m, a, b) == Two(step, m, b, a)
  }

  /** Two adjacent records whose order does not matter to the step may be swapped in the input. */
  lemma {:induction false} RunSwap<M(!new)>(step: (M, Record) -> Option<M>, m: M,
                                            xs: bytes, a: Record, b: Record, ys: bytes)
    requires Parse(xs).Some?
    requires |EncodeRecord(a)| < ADDRESS_SPACE && |EncodeRecord(b)| < ADDRESS_SPACE
    requires forall m': M :: Two(step, m', a, b) == Two(step, m', b, a)
    ensures Run(step, m, xs + EncodeRecord(a) + EncodeRecord(b) + ys)
         == Run(step, m, xs + EncodeRecord(b) + EncodeRecord(a) + ys)
  {
    var ab, ba := EncodeRecord(a) + (EncodeRecord(b) + ys), EncodeRecord(b) + (EncodeRecord(a) + ys);
    Concat3(xs, EncodeRecord(a), EncodeRecord(b), ys);
    Concat3(xs, EncodeRecord(b), EncodeRecord(a), ys);
    RunConcat(step, m, xs, ab);
    RunConcat(step, m, xs, ba);
    if Run(step, m, xs).Some? {
      var m' := Run(step, m, xs).value;
      RunTwoRecords(step, m', a, b, ys);
      RunTwoRecords(step, m', b, a, ys);
      assert Two(step, m', a, b) == Two(step, m', b, a);
    }
  }

  lemma {:induction false} RunTwoRecords<M>(step: (M, Record) -> Option<M>, m: M, a: Record, b: Record, ys: bytes)
    requires |EncodeRecord(a)| < ADDRESS_SPACE && |EncodeRecord(b)| < ADDRESS_SPACE
    ensures Run(step, m, EncodeRecord(a) + (EncodeRecord(b) + ys)) == RunOption(step, Two(step, m, a, b), ys)
  {
    RunOneRecord(step, m, a, EncodeRecord(b) + ys);
    if step(m, a).Some? {
      RunOneRecord(step, step(m, a).value, b, ys);
    }
  }

  lemma {:induction false} RunPair<M>(step: (M, Record) -> Option<M>, m: M, a: Record, mid: M, b: Record, end: M)
    requires |EncodeRecord(a)| < ADDRESS_SPACE && |EncodeRecord(b)| < ADDRESS_SPACE
    requires step(m, a) == Some(mid) && step(mid, b) == Some(end)
    ensures Run(step, m, EncodeRecord(a) + EncodeRecord(b)) == Some(end)
  {
    RunTwoRecords(step, m, a, b, []);
    ConcatNil(EncodeRecord(b));
  }

  /** Any accepted input, followed by one more record: one more step. */
  lemma {:induction false} RunOneMore<M>(step: (M, Record) -> Option<M>, m: M, xs: bytes, mid: M, r: Record)
    requires Run(step, m, xs) == Some(mid) && |EncodeRecord(r)| < ADDRESS_SPACE
    ensures Run(step, m, xs + EncodeRecord(r)) == step(mid, r)
  {
    RunIsFold(step, m, xs);
    RunConcat(step, m, xs, EncodeRecord(r));
    RunOneRecord(step, mid, r, []);
    ConcatNil(EncodeRecord(r));
  }

  /** A record may be replaced by any other with the same effect. */
  lemma {:induction false} RunReplace<M(!new)>(step: (M, Record) -> Option<M>, m: M,
                                               xs: bytes, a: Record, b: Record, ys: bytes)
    requires Parse(xs).Some?
    requires |EncodeRecord(a)| < ADDRESS_SPACE && |EncodeRecord(b)| < ADDRESS_SPACE
    requires forall m': M :: step(m', a) == step(m', b)
    ensures Run(step, m, xs + EncodeRecord(a) + ys) == Run(step, m, xs + EncodeRecord(b) + ys)
  {
    Concat2(xs, EncodeRecord(a), ys);
    Concat2(xs, EncodeRecord(b), ys);
    RunConcat(step, m, xs, EncodeRecord(a) + ys);
    RunConcat(step, m, xs, EncodeRecord(b) + ys);
    if Run(step, m, xs).Some? {
      var m' := Run(step, m, xs).value;
      RunOneRecord(step, m', a, ys);
      RunOneRecord(step, m', b, ys);
      assert step(m', a) == step(m', b);
    }
  }

  lemma {:induction false} RunOneRecord<M>(step: (M, Record) -> Option<M>, m: M, r: Record, ys: bytes)
    requires |EncodeRecord(r)| < ADDRESS_SPACE
    ensures Run(step, m, EncodeRecord(r) + ys) == RunOption(step, step(m, r), ys)
  {
    RecordRoundTrip(r, ys);
    RunStep(step, m, EncodeRecord(r) + ys);
  }

  /** The records that feed one field, in order. */
  function Feeding(slot: Slots, k: nat, rs: seq<Record>): seq<Record> {
    if rs == [] then []
    else (if slot(rs[0]) == k then [rs[0]] else []) + Feeding(slot, k, rs[1..])
  }

  /** The same records for every field, in the same order; only the interleaving differs. */
  ghost predicate SameFields(slot: Slots, rs: seq<Record>, qs: seq<Record>) {
    forall k: nat :: k != 0 ==> Feeding(slot, k, rs) == Feeding(slot, k, qs)
  }

  lemma {:induction false} FeedingAppend(slot: Slots, k: nat, rs: seq<Record>, qs: seq<Record>)
    ensures Feeding(slot, k, rs + qs) == Feeding(slot, k, rs) + Feeding(slot, k, qs)
  {
    if rs == [] {
      assert rs + qs == qs;
    } else {
      TailOfConcat(rs, qs);
      FeedingAppend(slot, k, rs[1..], qs);
      Concat2(if slot(rs[0]) == k then [rs[0]] else [], Feeding(slot, k, rs[1..]), Feeding(slot, k, qs));
    }
  }

  /** A record moves in front of records for other fields. */
  lemma {:induction false} MoveToFront<M(!new)>(step: (M, Record) -> Option<M>, slot: Slots, m: M,
                                        before: seq<Record>, r: Record, after: seq<Record>)
    requires Commutes(step, slot)
    requires forall i :: 0 <= i < |before| ==> slot(before[i]) != slot(r)
    ensures Fold(step, m, before + [r] + after) == Fold(step, m, [r] + (before + after))
  {
    if before == [] {
      assert before + [r] + after == [r] + (before + after);
    } else {
      var b, rest := before[0], before[1..];
      assert before + [r] + after == [b] + (rest + [r] + after);
      assert [r] + (before + after) == [r, b] + (rest + after);
      assert [b, r] + (rest + after) == [b] + ([r] + (rest + after));
      if step(m, b).Some? {
        MoveToFront(step, slot, step(m, b).value, rest, r, after);
      }
      FoldTwo(step, m, b, r, rest + after);
      FoldTwo(step, m, r, b, rest + after);
      assert Two(step, m, b, r) == Two(step, m, r, b);
    }
  }

  lemma {:induction false} FoldTwo<M>(step: (M, Record) -> Option<M>, m: M, a: Record, b: Record, rs: seq<Record>)
    ensures Fold(step, m, [a, b] + rs) == FoldOption(step, Two(step, m, a, b), Some(rs))
  {
    var all := [a, b] + rs;
    assert all[1..] == [b] + rs;
    assert all[1..][1..] == rs;
  }

  /** The first record of a slot, split off. */
  lemma {:induction false} FirstFeeding(slot: Slots, k: nat, qs: seq<Record>)
      returns (before: seq<Record>, r: Record, after: seq<Record>)
    requires Feeding(slot, k, qs) != []
    ensures qs == before + [r] + after
    ensures slot(r) == k && r == Feeding(slot, k, qs)[0]
    ensures forall i :: 0 <= i < |before| ==> slot(before[i]) != k
  {
    if slot(qs[0]) == k {
      before, r, after := [], qs[0], qs[1..];
    } else {
      before, r, after := FirstFeeding(slot, k, qs[1..]);
      before := [qs[0]] + before;
    }
  }

  lemma {:induction false} NoFields<M(!new)>(step: (M, Record) -> Option<M>, slot: Slots, m: M, qs: seq<Record>)
    requires Ignores(step, slot)
    requires SameFields(slot, [], qs)
    ensures Fold(step, m, qs) == Some(m)
  {
    if qs != [] {
      assert Feeding(slot, slot(qs[0]), []) == [];
      SameFieldsTail(slot, [], qs);
      NoFields(step, slot, m, qs[1..]);
    }
  }

  lemma {:induction false} SameFieldsTail(slot: Slots, rs: seq<Record>, qs: seq<Record>)
    requires qs != [] && slot(qs[0]) == 0
    requires SameFields(slot, rs, qs)
    ensures SameFields(slot, rs, qs[1..])
  {
    forall k: nat | k != 0
      ensures Feeding(slot, k, rs) == Feeding(slot, k, qs[1..])
    {
      assert Feeding(slot, k, rs) == Feeding(slot, k, qs);
    }
  }

  lemma {:induction false} OtherFields(slot: Slots, before: seq<Record>, r: Record, after: seq<Record>, k: nat)
    requires forall i :: 0 <= i < |before| ==> slot(before[i]) != slot(r)
    ensures Feeding(slot, k, before + [r] + after)
         == (if slot(r) == k then [r] else []) + Feeding(slot, k, before + after)
  {
    FeedingAppend(slot, k, before, [r] + after);
    FeedingAppend(slot, k, before, after);
    assert before + [r] + after == before + ([r] + after);
    assert ([r] + after)[1..] == after;
    if slot(r) == k {
      NoneFeeding(slot, k, before);
    }
  }

  lemma {:induction false} NoneFeeding(slot: Slots, k: nat, rs: seq<Record>)
    requires forall i :: 0 <= i < |rs| ==> slot(rs[i]) != k
    ensures Feeding(slot, k, rs) == []
  {
    if rs != [] {
      NoneFeeding(slot, k, rs[1..]);
    }
  }

  lemma {:induction false} SameTail<T>(a: seq<T>, b: seq<T>, c: seq<T>)
    requires a + b == a + c
    ensures b == c
  {
    assert b == (a + b)[|a|..];
    assert c == (a + c)[|a|..];
  }

  /**
   The order of records matters only within a field: two lists that agree field by field decode
   alike, whatever their interleaving and whatever unknown records they contain.
   */
  lemma {:induction false} FieldOrder<M(!new)>(step: (M, Record) -> Option<M>, slot: Slots, m: M,
                                       rs: seq<Record>, qs: seq<Record>)
    requires Ignores(step, slot) && Commutes(step, slot)
    requires SameFields(slot, rs, qs)
    ensures Fold(step, m, rs) == Fold(step, m, qs)
  {
    if rs == [] {
      NoFields(step, slot, m, qs);
    } else if slot(rs[0]) == 0 {
      SameFieldsTail(slot, qs, rs);
      FieldOrder(step, slot, m, rs[1..], qs);
    } else {
      var k := slot(rs[0]);
      assert Feeding(slot, k, rs) == Feeding(slot, k, qs);
      var before, r, after := FirstFeeding(slot, k, qs);
      assert r == rs[0];
      forall j: nat | j != 0
        ensures Feeding(slot, j, rs[1..]) == Feeding(slot, j, before + after)
      {
        OtherFields(slot, before, r, after, j);
        assert Feeding(slot, j, rs) == Feeding(slot, j, qs);
        var own := if k == j then [r] else [];
        assert own + Feeding(slot, j, rs[1..]) == own + Feeding(slot, j, before + after);
        SameTail(own, Feeding(slot, j, rs[1..]), Feeding(slot, j, before + after));
      }
      MoveToFront(step, slot, m, before, r, after);
      assert ([r] + (before + after))[1..] == before + after;
      if step(m, r).Some? {
        FieldOrder(step, slot, step(m, r).value, rs[1..], before + after);
      }
    }
  }

  /** The byte-level form: accepted or not, two inputs that agree field by field decode alike. */
  lemma {:induction false} RunFieldOrder<M(!new)>(step: (M, Record) -> Option<M>, slot: Slots, m: M, s: bytes, t: bytes)
    requires Ignores(step, slot) && Commutes(step, slot)
    requires Parse(s).Some? && Parse(t).Some?
    requires SameFields(slot, Parse(s).value, Parse(t).value)
    ensures Run(step, m, s) == Run(step, m, t)
  {
    RunIsFold(step, m, s);
    RunIsFold(step, m, t);
    FieldOrder(step, slot, m, Parse(s).value, Parse(t).value);
  }

  lemma {:induction false} FoldUnknown<M(!new)>(step: (M, Record) -> Option<M>, slot: Slots, m: M, us: seq<Record>)
    requires Ignores(step, slot)
    requires forall i :: 0 <= i < |us| ==> slot(us[i]) == 0
    ensures Fold(step, m, us) == Some(m)
  {
    if us != [] {
      FoldUnknown(step, slot, m, us[1..]);
    }
  }

  /** Unknown records inserted at a record boundary change nothing, whatever follows. */
  lemma {:induction false} RunUnknown<M(!new)>(step: (M, Record) -> Option<M>, slot: Slots, m: M,
                                               xs: bytes, us: bytes, ys: bytes)
    requires Ignores(step, slot)
    requires Parse(xs).Some? && Parse(us).Some?
    requires forall i :: 0 <= i < |Parse(us).value| ==> slot(Parse(us).value[i]) == 0
    ensures Run(step, m, xs + us + ys) == Run(step, m, xs + ys)
  {
    Concat2(xs, us, ys);
    RunConcat(step, m, xs, us + ys);
    RunConcat(step, m, xs, ys);
    if Run(step, m, xs).Some? {
      var m' := Run(step, m, xs).value;
      RunConcat(step, m', us, ys);
      RunIsFold(step, m', us);
      FoldUnknown(step, slot, m', Parse(us).value);
    }
  }
}
