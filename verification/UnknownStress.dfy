/** The unknown-field stress payload: many small varint fields, cycling over a span of numbers. */
module UnknownStress {
  import opened Bytes
  import opened Sequences
  import opened Base128
  import opened Records
  import opened Folding
  import opened Fields
  import opened Writing
  import PersonCodec
  import ZigZag

  const STRESS_COUNT := 1024
  const STRESS_FIRST_NUMBER := 1000
  const STRESS_NUMBER_SPAN := 16

  /** The loop counts in an `int`, and the field numbers have tags of 32 bits. */
  ghost predicate InBounds(n: nat, first: nat, span: nat) {
    span > 0 && first + span < 0x2000_0000 && n < 0x8000_0000
  }

  function StressRecord(i: nat, first: nat, span: nat): Record
    requires InBounds(i + 1, first, span)
  {
    Tagged((first + i % span) * 8, VARINT(i + 1))
  }

  /** The first `n` appended fields. */
  function StressRecords(n: nat, first: nat, span: nat): (rs: seq<Record>)
    requires InBounds(n, first, span)
    ensures |rs| == n
  {
    if n == 0 then [] else StressRecords(n - 1, first, span) + [StressRecord(n - 1, first, span)]
  }

  /** `MakeUnknownFieldPayload`, for any count, first number and span. */
  method MakeUnknownFieldPayload(base: bytes, n: nat, first: nat, span: nat) returns (out: bytes)
    requires InBounds(n, first, span)
    ensures out == base + Encode(StressRecords(n, first, span))
    ensures Parse(base).Some? ==> Appended(Parse(base).value, Parse(out), n, first, span)
  {
    var w := new Writer();
    w.buf := base;
    for i := 0 to n
      invariant w.buf == base + Encode(StressRecords(i, first, span))
    {
      ghost var before := w.buf;
      var number := first + i % span;
      w.WriteVarint(number * 8);
      w.WriteVarint(i + 1);
      Concat2(before, Varint(number * 8), Varint(i + 1));
      EncodeOne(StressRecord(i, first, span));
      Grow(base, StressRecords(i, first, span), [StressRecord(i, first, span)]);
    }
    out := w.buf;
    if Parse(base).Some? {
      StressAppends(base, n, first, span);
    }
  }

  function CountOf(fields: seq<Record>, number: nat): nat {
    if fields == [] then 0
    else CountOf(fields[..|fields| - 1], number) + if fields[|fields| - 1].tag / 8 == number then 1 else 0
  }

  /** `UnknownFieldCountByNumber`. */
  method UnknownFieldCountByNumber(fields: seq<Record>, number: nat) returns (count: nat)
    ensures count == CountOf(fields, number)
    ensures count == |set i: nat | i < |fields| && fields[i].tag / 8 == number|
  {
    CountMeans(fields, number);
    count := 0;
    for i := 0 to |fields|
      invariant count == CountOf(fields[..i], number)
    {
      assert fields[..i + 1][..i] == fields[..i];
      if fields[i].tag / 8 == number {
        count := count + 1;
      }
    }
    assert fields[..|fields|] == fields;
  }

  /** The count is the number of positions that hold the number. */
  lemma {:induction false} CountMeans(fields: seq<Record>, number: nat)
    ensures CountOf(fields, number) == |set i: nat | i < |fields| && fields[i].tag / 8 == number|
  {
    if fields != [] {
      var last := |fields| - 1;
      var before := set i: nat | i < last && fields[..last][i].tag / 8 == number;
      CountMeans(fields[..last], number);
      assert (set i: nat | i < |fields| && fields[i].tag / 8 == number)
          == before + if fields[last].tag / 8 == number then {last} else {};
    }
  }

  lemma {:induction false} CountSnoc(rs: seq<Record>, r: Record, number: nat)
    ensures CountOf(rs + [r], number) == CountOf(rs, number) + if r.tag / 8 == number then 1 else 0
  {
    TakeDrop(rs, [r]);
  }

  lemma {:induction false} CountTurn(n: nat, first: nat, span: nat, number: nat)
    requires InBounds(n + 1, first, span)
    ensures CountOf(StressRecords(n + 1, first, span), number)
         == CountOf(StressRecords(n, first, span), number) + if first + n % span == number then 1 else 0
  {
    CountSnoc(StressRecords(n, first, span), StressRecord(n, first, span), number);
  }

  /** The turns of the loop that hit one residue. */
  function Turns(n: nat, span: nat, j: nat): set<nat>
    requires span > 0
  {
    set i: nat | i < n && i % span == j
  }

  lemma {:induction false} NextTurn(n: nat, span: nat, j: nat)
    requires span > 0
    ensures |Turns(n + 1, span, j)| == |Turns(n, span, j)| + if n % span == j then 1 else 0
  {
    if n % span == j {
      assert Turns(n + 1, span, j) == Turns(n, span, j) + {n};
    } else {
      assert Turns(n + 1, span, j) == Turns(n, span, j);
    }
  }

  /** A number occurs once for every turn that hits it. */
  lemma {:induction false} StressTurns(n: nat, first: nat, span: nat, j: nat)
    requires InBounds(n, first, span) && j < span
    ensures CountOf(StressRecords(n, first, span), first + j) == |Turns(n, span, j)|
  {
    if n > 0 {
      CountTurn(n - 1, first, span, first + j);
      StressTurns(n - 1, first, span, j);
      NextTurn(n - 1, span, j);
    }
  }

  /** In closed form: the cycles begun, less one where the last does not reach `j`. */
  lemma {:induction false} StressCount(n: nat, first: nat, span: nat, j: nat)
    requires InBounds(n, first, span) && j < span
    ensures CountOf(StressRecords(n, first, span), first + j) == (n + span - 1 - j) / span
  {
    if n == 0 {
      ZigZag.ModIs(span - 1 - j, span, 0, span - 1 - j);
    } else {
      CountTurn(n - 1, first, span, first + j);
      StressCount(n - 1, first, span, j);
      NextMultiple(n - 1, span, j);
    }
  }

  lemma {:induction false} NextMultiple(i: nat, span: nat, j: nat)
    requires j < span
    ensures (i + span - j) / span == (i + span - 1 - j) / span + if i % span == j then 1 else 0
  {
    CycleBegun(i, span, j);
    CycleBegun(i, span, j + 1);
  }

  lemma {:induction false} CycleBegun(i: nat, span: nat, j: nat)
    requires 0 < span && j <= span
    ensures (i + span - j) / span == i / span + if i % span >= j then 1 else 0
  {
    var q, r := i / span, i % span;
    if r < j {
      ZigZag.ModIs(i + span - j, span, q, r + span - j);
    } else {
      Quotients(q, span);
      ZigZag.ModIs(i + span - j, span, q + 1, r - j);
    }
  }

  lemma {:induction false} Quotients(q: nat, span: nat)
    ensures (q + 1) * span == q * span + span
  {
  }

  lemma {:induction false} WholeCycles(n: nat, span: nat, j: nat)
    requires j < span && n % span == 0
    ensures (n + span - 1 - j) / span == n / span
  {
    ZigZag.ModIs(n + span - 1 - j, span, n / span, span - 1 - j);
  }

  /** The unknown fields a parser preserves: the records that feed no field. */
  function UnknownFields(slot: Slots, rs: seq<Record>): seq<Record> {
    Feeding(slot, 0, rs)
  }

  /** Some appended field has number 1, the only number whose varint fields `Person` knows. */
  predicate HitsId(n: nat, first: nat, span: nat) {
    first <= 1 && 1 - first < n && 1 - first < span
  }

  lemma {:induction false} StressSlot(i: nat, first: nat, span: nat)
    requires InBounds(i + 1, first, span)
    ensures PersonCodec.Slot(StressRecord(i, first, span)) == if first + i % span == 1 then 1 else 0
    ensures HitsId(i + 1, first, span) <==> HitsId(i, first, span) || first + i % span == 1
  {
    if i < span {
      ZigZag.ModIs(i, span, 0, i);
    }
  }

  lemma {:induction false} StressSlots(n: nat, first: nat, span: nat)
    requires InBounds(n, first, span) && !HitsId(n, first, span)
    ensures forall i :: 0 <= i < n ==> PersonCodec.Slot(StressRecords(n, first, span)[i]) == 0
  {
    if n > 0 {
      StressSlot(n - 1, first, span);
      StressSlots(n - 1, first, span);
    }
  }

  lemma {:induction false} StressStep(m: PersonCodec.Person, i: nat, first: nat, span: nat)
    requires InBounds(i + 1, first, span)
    ensures PersonCodec.Step(m, StressRecord(i, first, span))
         == Some(if first + i % span == 1 then m.(id := i + 1) else m)
  {
  }

  /** On their own, the appended fields decode to the default, but for the id when one of them hits it. */
  lemma {:induction false} StressAlone(n: nat, first: nat, span: nat)
    requires InBounds(n, first, span)
    ensures var res := Fold(PersonCodec.Step, PersonCodec.DEFAULT, StressRecords(n, first, span));
            && res.Some?
            && res.value == PersonCodec.DEFAULT.(id := res.value.id)
            && res.value.id >= 0
            && (res.value.id > 0 <==> HitsId(n, first, span))
  {
    if n > 0 {
      StressAlone(n - 1, first, span);
      StressSlot(n - 1, first, span);
      var rs, r := StressRecords(n - 1, first, span), StressRecord(n - 1, first, span);
      var before := Fold(PersonCodec.Step, PersonCodec.DEFAULT, rs).value;
      StressStep(before, n - 1, first, span);
      FoldSnoc(PersonCodec.Step, PersonCodec.DEFAULT, rs, [r], before);
    }
  }

  lemma {:induction false} StressFits(n: nat, first: nat, span: nat)
    requires InBounds(n, first, span)
    ensures |Encode(StressRecords(n, first, span))| <= 20 * n
  {
    if n > 0 {
      StressFits(n - 1, first, span);
      EncodeAppend(StressRecords(n - 1, first, span), [StressRecord(n - 1, first, span)]);
      EncodeOne(StressRecord(n - 1, first, span));
      Varint64Length((first + (n - 1) % span) * 8);
      Varint64Length(n);
    }
  }

  /** The payload parses to the base's records followed by the appended ones. */
  lemma {:induction false} StressParses(base: bytes, n: nat, first: nat, span: nat)
    requires InBounds(n, first, span) && Parse(base).Some?
    ensures Parse(base + Encode(StressRecords(n, first, span)))
         == Some(Parse(base).value + StressRecords(n, first, span))
  {
    StressFits(n, first, span);
    ParseEncode(StressRecords(n, first, span));
    ParseConcat(base, Encode(StressRecords(n, first, span)));
  }

  /** What was appended: field `i` has its number and the value `i + 1`. */
  predicate Appended(before: seq<Record>, after: Option<seq<Record>>, n: nat, first: nat, span: nat) {
    && span > 0 && after.Some? && |after.value| == |before| + n && before <= after.value
    && var appended := after.value[|before|..];
    && forall i :: 0 <= i < n ==>
         && appended[i].tag == 8 * (first + i % span)
         && appended[i].payload.VARINT? && appended[i].payload.n == i + 1
  }

  lemma {:induction false} StressRecordAt(n: nat, first: nat, span: nat, i: nat)
    requires InBounds(n, first, span) && i < n
    ensures StressRecords(n, first, span)[i] == StressRecord(i, first, span)
  {
    if i < n - 1 {
      StressRecordAt(n - 1, first, span, i);
    }
  }

  lemma {:induction false} StressAppends(base: bytes, n: nat, first: nat, span: nat)
    requires InBounds(n, first, span) && Parse(base).Some?
    ensures Appended(Parse(base).value, Parse(base + Encode(StressRecords(n, first, span))), n, first, span)
  {
    StressParses(base, n, first, span);
    TakeDrop(Parse(base).value, StressRecords(n, first, span));
    forall i | 0 <= i < n
      ensures StressRecords(n, first, span)[i] == StressRecord(i, first, span)
    {
      StressRecordAt(n, first, span, i);
    }
  }

  /** The appended fields do not disturb the known ones. */
  lemma {:induction false} StressTransparent(base: bytes, n: nat, first: nat, span: nat)
    requires InBounds(n, first, span) && !HitsId(n, first, span) && Parse(base).Some?
    ensures PersonCodec.Decode(base + Encode(StressRecords(n, first, span))) == PersonCodec.Decode(base)
  {
    var s := Encode(StressRecords(n, first, span));
    StressFits(n, first, span);
    ParseEncode(StressRecords(n, first, span));
    StressSlots(n, first, span);
    PersonCodec.UnknownTransparent(base, s, []);
    ConcatNil(base + s);
    ConcatNil(base);
  }

  /** The condition is exact: if some appended field has number 1, a base shows it. */
  lemma {:induction false} StressTransparentExactly(n: nat, first: nat, span: nat)
    requires InBounds(n, first, span)
    ensures !HitsId(n, first, span)
       <==> forall base :: Parse(base).Some? ==>
              PersonCodec.Decode(base + Encode(StressRecords(n, first, span))) == PersonCodec.Decode(base)
  {
    var s := Encode(StressRecords(n, first, span));
    if HitsId(n, first, span) {
      StressAlone(n, first, span);
      StressFits(n, first, span);
      RunEncode(PersonCodec.Step, PersonCodec.DEFAULT, StressRecords(n, first, span));
      ConcatNil(s);
      assert Parse([]).Some? && PersonCodec.Decode([] + s) != PersonCodec.Decode([]);
    } else {
      forall base: bytes | Parse(base).Some?
        ensures PersonCodec.Decode(base + s) == PersonCodec.Decode(base)
      {
        StressTransparent(base, n, first, span);
      }
    }
  }

  lemma {:induction false} UnknownSnoc(slot: Slots, rs: seq<Record>, r: Record)
    ensures UnknownFields(slot, rs + [r]) == UnknownFields(slot, rs) + if slot(r) == 0 then [r] else []
  {
    FeedingAppend(slot, 0, rs, [r]);
    HeadTail(r, []);
    ConcatNil(if slot(r) == 0 then [r] else []);
  }

  lemma {:induction false} StressHits(n: nat, first: nat, span: nat)
    requires InBounds(n, first, span)
    ensures CountOf(StressRecords(n, first, span), 1) > 0 <==> HitsId(n, first, span)
  {
    if n > 0 {
      StressHits(n - 1, first, span);
      StressSlot(n - 1, first, span);
      CountTurn(n - 1, first, span, 1);
    }
  }

  /** Of the appended fields, those with number 1 are known and all the others are not. */
  lemma {:induction false} StressUnknown(n: nat, first: nat, span: nat, number: nat)
    requires InBounds(n, first, span)
    ensures var rs := StressRecords(n, first, span);
            CountOf(UnknownFields(PersonCodec.Slot, rs), number) == if number == 1 then 0 else CountOf(rs, number)
  {
    if n > 0 {
      var rs, r := StressRecords(n - 1, first, span), StressRecord(n - 1, first, span);
      var unknown := UnknownFields(PersonCodec.Slot, rs);
      StressUnknown(n - 1, first, span, number);
      StressSlot(n - 1, first, span);
      UnknownSnoc(PersonCodec.Slot, rs, r);
      CountSnoc(rs, r, number);
      CountSnoc(unknown, r, number);
      ConcatNil(unknown);
    }
  }

  lemma {:induction false} StressUnknownLength(n: nat, first: nat, span: nat)
    requires InBounds(n, first, span)
    ensures var rs := StressRecords(n, first, span);
            |UnknownFields(PersonCodec.Slot, rs)| == n - CountOf(rs, 1)
  {
    if n > 0 {
      var rs, r := StressRecords(n - 1, first, span), StressRecord(n - 1, first, span);
      StressUnknownLength(n - 1, first, span);
      StressSlot(n - 1, first, span);
      UnknownSnoc(PersonCodec.Slot, rs, r);
      CountSnoc(rs, r, 1);
    }
  }

  /**
   On a Person without unknown fields, the payload's unknown fields are exactly the appended ones if
   and only if none of these has number 1. They are evenly spread over the other numbers: `n / span`
   each when the cycles are whole.
   */
  lemma {:induction false} StressAccounting(base: bytes, n: nat, first: nat, span: nat, j: nat)
    requires InBounds(n, first, span) && j < span
    requires Parse(base).Some? && UnknownFields(PersonCodec.Slot, Parse(base).value) == []
    ensures var all := Parse(base + Encode(StressRecords(n, first, span)));
            && all.Some?
            && var unknown := UnknownFields(PersonCodec.Slot, all.value);
            && (|unknown| == n <==> !HitsId(n, first, span))
            && (first + j != 1 ==> CountOf(unknown, first + j) == (n + span - 1 - j) / span)
            && (first + j != 1 && n % span == 0 ==> CountOf(unknown, first + j) == n / span)
  {
    var rs := StressRecords(n, first, span);
    StressParses(base, n, first, span);
    FeedingAppend(PersonCodec.Slot, 0, Parse(base).value, rs);
    ConcatNil(UnknownFields(PersonCodec.Slot, rs));
    StressUnknown(n, first, span, first + j);
    StressUnknownLength(n, first, span);
    StressHits(n, first, span);
    StressCount(n, first, span, j);
    if n % span == 0 {
      WholeCycles(n, span, j);
    }
  }

  /** The benchmark's own numbers: 1024 unknown fields, 64 for each of the sixteen numbers. */
  lemma {:induction false} BenchmarkAccounting(base: bytes, n: nat, first: nat, span: nat, j: nat)
    requires n == STRESS_COUNT && first == STRESS_FIRST_NUMBER && span == STRESS_NUMBER_SPAN && j < span
    requires Parse(base).Some? && UnknownFields(PersonCodec.Slot, Parse(base).value) == []
    ensures var all := Parse(base + Encode(StressRecords(n, first, span)));
            && all.Some?
            && var unknown := UnknownFields(PersonCodec.Slot, all.value);
            && |unknown| == 1024 && CountOf(unknown, first + j) == 64
  {
    StressAccounting(base, n, first, span, j);
  }
}
