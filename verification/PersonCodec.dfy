/** Person: a scalar, a string, a packed list and a map of counts. */
module PersonCodec {
  import opened Bytes
  import opened Sequences
  import opened Base128
  import opened Records
  import opened Scalars
  import opened Fields
  import opened Maps
  import opened Folding
  import opened Layouts
  import opened Writing
  import opened Reading
  import opened CountMaps
  import ChildCodec

  datatype Person = Person(id: i32, name: text, scores: seq<i32>, counts: map<text, i32>)

  const DEFAULT := Person(0, [], [], map[])

  function CountsField(p: Person, order: seq<text>): seq<Record>
    requires Enumerates(order, p.counts.Keys)
  {
    MapRecords(34, CountValue, Entries(p.counts, order))
  }

  /** The records of an encoded person, for one order of the map's entries. */
  function PersonRecords(p: Person, order: seq<text>): seq<Record>
    requires Enumerates(order, p.counts.Keys)
  {
    ScalarField(8, Int32, p.id) + BytesField(18, p.name) + PackedField(26, Int32, p.scores) + CountsField(p, order)
  }

  /** What one record does to a person. */
  function Step(m: Person, r: Record): Option<Person> {
    match r.tag
    case 8 => Some(m.(id := FromPayload(Int32, r.payload)))
    case 18 => if ValidUtf8(r.payload.data) then Some(m.(name := r.payload.data)) else None
    case 26 => var vs :- Unpack(Int32, r.payload.data); Some(m.(scores := vs))
    case 34 => var counts :- Insert(m.counts, r.payload.data); Some(m.(counts := counts))
    case _ => Some(m)
  }

  function Decode(s: bytes): Option<Person> {
    Run(Step, DEFAULT, s)
  }

  /** The later person's written fields win, scores included; counts are overridden key by key. */
  function Merge(a: Person, b: Person): Person {
    Person(
      if b.id != 0 then b.id else a.id,
      if b.name != [] then b.name else a.name,
      if b.scores != [] then b.scores else a.scores,
      a.counts + b.counts)
  }

  // ----------------------------------------------------------------- decoding

  lemma {:induction false} AbsorbEntries(m: Person, es: seq<CountEntry>)
    requires |Encode(MapRecords(34, CountValue, es))| < ADDRESS_SPACE
    ensures Fold(Step, m, MapRecords(34, CountValue, es)) == Some(m.(counts := InsertAll(m.counts, es)))
    decreases |es|
  {
    if es != [] {
      var first, rest := EntryRecord(34, CountValue, es[0]), MapRecords(34, CountValue, es[1..]);
      EncodeHead([], first, rest);
      RecordFits([first] + rest, 0);
      EntryRoundTrip(es[0]);
      FoldCons(Step, m, first, m.(counts := m.counts[es[0].key := es[0].value]), rest);
      AbsorbEntries(m.(counts := m.counts[es[0].key := es[0].value]), es[1..]);
    }
  }

  lemma {:induction false} AbsorbMap(m: Person, p: Person, order: seq<text>)
    requires Enumerates(order, p.counts.Keys)
    requires |Encode(CountsField(p, order))| < ADDRESS_SPACE
    ensures Fold(Step, m, CountsField(p, order)) == Some(m.(counts := m.counts + p.counts))
  {
    AbsorbEntries(m, Entries(p.counts, order));
    InsertEntries(m.counts, p.counts, order);
  }

  lemma {:induction false} AbsorbPlain(m: Person, p: Person)
    ensures Fold(Step, m, ScalarField(8, Int32, p.id) + BytesField(18, p.name) + PackedField(26, Int32, p.scores))
         == Some(Merge(m, p).(counts := m.counts))
  {
    var id, name, scores := ScalarField(8, Int32, p.id), BytesField(18, p.name), PackedField(26, Int32, p.scores);
    var m1 := if p.id != 0 then m.(id := p.id) else m;
    FoldField(Step, m, id);
    ScalarRoundTrip(Int32, p.id);
    FoldSnoc(Step, m, id, name, m1);
    FoldSnoc(Step, m, id + name, scores, if p.name != [] then m1.(name := p.name) else m1);
    PackRoundTrip(Int32, p.scores);
  }

  lemma {:induction false} PartsFit(p: Person, order: seq<text>)
    requires Enumerates(order, p.counts.Keys)
    ensures |Encode(PersonRecords(p, order))|
         == |Encode(ScalarField(8, Int32, p.id))| + |Encode(BytesField(18, p.name))|
            + |Encode(PackedField(26, Int32, p.scores))| + |Encode(CountsField(p, order))|
  {
    var id, name, scores := ScalarField(8, Int32, p.id), BytesField(18, p.name), PackedField(26, Int32, p.scores);
    EncodeAppend(id + name + scores, CountsField(p, order));
    EncodeAppend(id + name, scores);
    EncodeAppend(id, name);
  }

  /** Decoding an encoding on top of any person merges the two, for every order of the map's entries. */
  lemma {:induction false} Absorb(m: Person, p: Person, order: seq<text>)
    requires Enumerates(order, p.counts.Keys)
    requires |Encode(PersonRecords(p, order))| < ADDRESS_SPACE
    ensures Fold(Step, m, PersonRecords(p, order)) == Some(Merge(m, p))
  {
    PartsFit(p, order);
    AbsorbPlain(m, p);
    var plain := Merge(m, p).(counts := m.counts);
    FoldThen(Step, m, ScalarField(8, Int32, p.id) + BytesField(18, p.name) + PackedField(26, Int32, p.scores),
             plain, CountsField(p, order));
    AbsorbMap(plain, p, order);
  }

  lemma {:induction false} FromDefault(p: Person, order: seq<text>)
    requires Enumerates(order, p.counts.Keys)
    requires |Encode(PersonRecords(p, order))| < ADDRESS_SPACE
    ensures Fold(Step, DEFAULT, PersonRecords(p, order)) == Some(p)
  {
    Absorb(DEFAULT, p, order);
    assert DEFAULT.counts + p.counts == p.counts;
  }

  /** Every person is recovered from its encoding, whatever the order of the map's entries. */
  lemma {:induction false} RoundTrip(p: Person, order: seq<text>)
    requires Enumerates(order, p.counts.Keys)
    requires |Encode(PersonRecords(p, order))| < ADDRESS_SPACE
    ensures Decode(Encode(PersonRecords(p, order))) == Some(p)
  {
    RunEncode(Step, DEFAULT, PersonRecords(p, order));
    FromDefault(p, order);
  }

  /** Concatenation is merge. */
  lemma {:induction false} Concatenation(a: Person, p: seq<text>, b: Person, q: seq<text>)
    requires Enumerates(p, a.counts.Keys) && Enumerates(q, b.counts.Keys)
    requires |Encode(PersonRecords(a, p)) + Encode(PersonRecords(b, q))| < ADDRESS_SPACE
    ensures Decode(Encode(PersonRecords(a, p)) + Encode(PersonRecords(b, q))) == Some(Merge(a, b))
  {
    FromDefault(a, p);
    RunTwo(Step, DEFAULT, PersonRecords(a, p), a, PersonRecords(b, q));
    Absorb(a, b, q);
  }

  /** The struct field a record feeds. */
  function Slot(r: Record): nat {
    match r.tag
    case 8 => 1
    case 18 => 2
    case 26 => 3
    case 34 => 4
    case _ => 0
  }

  lemma {:induction false} StepLaws()
    ensures Ignores(Step, Slot) && Commutes(Step, Slot)
  {
    forall m: Person, a: Record, b: Record | Slot(a) != Slot(b)
      ensures Two(Step, m, a, b) == Two(Step, m, b, a)
    {
      StepsCommute(m, a, b);
    }
  }

  lemma {:induction false} StepsCommute(m: Person, a: Record, b: Record)
    requires Slot(a) != Slot(b)
    ensures Two(Step, m, a, b) == Two(Step, m, b, a)
  {
  }

  /** Records may be reordered between fields, and unknown ones added, without changing the outcome. */
  lemma {:induction false} FieldOrderIrrelevant(s: bytes, t: bytes)
    requires Parse(s).Some? && Parse(t).Some?
    requires SameFields(Slot, Parse(s).value, Parse(t).value)
    ensures Decode(s) == Decode(t)
  {
    StepLaws();
    RunFieldOrder(Step, Slot, DEFAULT, s, t);
  }

  /** Unknown records at any record boundary are transparent, whatever follows them. */
  lemma {:induction false} UnknownTransparent(xs: bytes, us: bytes, ys: bytes)
    requires Parse(xs).Some? && Parse(us).Some?
    requires forall i :: 0 <= i < |Parse(us).value| ==> Parse(us).value[i].tag !in {8, 18, 26, 34}
    ensures Decode(xs + us + ys) == Decode(xs + ys)
  {
    StepLaws();
    RunUnknown(Step, Slot, DEFAULT, xs, us, ys);
  }

  /** What a record does, arm by arm; a value need not be written canonically. */
  ghost predicate Effect(m: Person, r: Record, next: Option<Person>) {
    && (r.tag == 8 ==> forall v: i32 :: Denotes(Int32, r.payload, v) ==> next == Some(m.(id := v)))
    && (r.tag == 18 ==> next == if ValidUtf8(r.payload.data) then Some(m.(name := r.payload.data)) else None)
    && (r.tag == 26 ==>
          match Unpack(Int32, r.payload.data)
          case None => next == None
          case Some(vs) => next == Some(m.(scores := vs)))
    && (r.tag == 34 ==>
          match DecodeEntry(r.payload.data)
          case None => next == None
          case Some(e) => next == Some(m.(counts := m.counts[e.key := e.value])))
    && (r.tag !in {8, 18, 26, 34} ==> next == Some(m))
  }

  lemma {:induction false} StepEffect(m: Person, r: Record)
    ensures Effect(m, r, Step(m, r))
  {
    if r.tag == 8 {
      OnlyDenotes(Int32, r.payload);
    }
  }

  /** Any input accepted so far, followed by one more record. */
  lemma {:induction false} OneMoreRecord(xs: bytes, m: Person, r: Record)
    requires Decode(xs) == Some(m) && |EncodeRecord(r)| < ADDRESS_SPACE
    ensures Effect(m, r, Decode(xs + EncodeRecord(r)))
  {
    RunOneMore(Step, DEFAULT, xs, m, r);
    StepEffect(m, r);
  }

  /** The tags of an encoded message: a field that is written, in the place of its number. */
  function PersonTags(p: Person): seq<u32> {
    Once(8, p.id != 0) + Once(18, p.name != []) + Once(26, p.scores != []) + Times(34, |p.counts|)
  }

  lemma {:induction false} TagsAscend(p: Person)
    ensures Ascending(PersonTags(p))
  {
    var ts := Once(8, p.id != 0);
    ThenOnce(ts, 8, 18, p.name != []);
    ThenOnce(ts + Once(18, p.name != []), 18, 26, p.scores != []);
    Then(ts + Once(18, p.name != []) + Once(26, p.scores != []), 26, 34, |p.counts|);
  }

  /** The encoding has these tags, in ascending order. */
  lemma {:induction false} Layout(p: Person, order: seq<text>)
    requires Enumerates(order, p.counts.Keys)
    requires |Encode(PersonRecords(p, order))| < ADDRESS_SPACE
    ensures var rs := Parse(Encode(PersonRecords(p, order)));
            rs.Some? && Tags(rs.value) == PersonTags(p) && Ascending(Tags(rs.value))
  {
    ParseEncode(PersonRecords(p, order));
    var id, name := ScalarField(8, Int32, p.id), BytesField(18, p.name);
    var scores, counts := PackedField(26, Int32, p.scores), CountsField(p, order);
    TagsAppend(id + name + scores, counts);
    TagsAppend(id + name, scores);
    TagsAppend(id, name);
    ScalarTags(8, Int32, p.id);
    BytesTags(18, p.name);
    PackedTags(26, Int32, p.scores);
    MapTags(34, CountValue, Entries(p.counts, order));
    OrderLength(order, p.counts.Keys);
    TagsAscend(p);
  }

  /** Unknown records inside a map entry are transparent as well. */
  lemma {:induction false} UnknownInMapEntry(pre: bytes, xs: bytes, us: bytes, ys: bytes, post: bytes)
    requires Parse(pre).Some? && Parse(xs).Some? && Parse(us).Some?
    requires forall i :: 0 <= i < |Parse(us).value| ==> Parse(us).value[i].tag !in {10, 16}
    requires |EncodeRecord(Tagged(34, LEN(xs + us + ys)))| < ADDRESS_SPACE
    requires |EncodeRecord(Tagged(34, LEN(xs + ys)))| < ADDRESS_SPACE
    ensures Decode(pre + EncodeRecord(Tagged(34, LEN(xs + us + ys))) + post)
         == Decode(pre + EncodeRecord(Tagged(34, LEN(xs + ys))) + post)
  {
    UnknownInEntry(xs, us, ys);
    RunReplace(Step, DEFAULT, pre, Tagged(34, LEN(xs + us + ys)), Tagged(34, LEN(xs + ys)), post);
  }

  /** The map's records stand in the order of the iteration; each holds its key, then its value. */
  lemma {:induction false} EntriesInOrder(p: Person, order: seq<text>, i: nat)
    requires Enumerates(order, p.counts.Keys) && i < |order|
    requires |Encode(PersonRecords(p, order))| < ADDRESS_SPACE
    ensures var rs := Parse(Encode(PersonRecords(p, order)));
            && rs.Some?
            && var entries := OfTag(34, rs.value);
            && |entries| == |order| && entries[i].payload.LEN?
            && Parse(entries[i].payload.data)
            == Some([Tagged(10, LEN(order[i])), Tagged(16, ToPayload(Int32, p.counts[order[i]]))])
  {
    ParseEncode(PersonRecords(p, order));
    var before := ScalarField(8, Int32, p.id) + BytesField(18, p.name) + PackedField(26, Int32, p.scores);
    ConcatNil(PersonRecords(p, order));
    EntryInOrder(34, CountValue, p.counts, order, i, before, []);
  }

  // --------------------------------------------------------- schema projection

  /** The child reader keeps up with the person reader, record by record. */
  lemma {:induction false} ProjectionFrom(m: Person, s: bytes)
    requires Run(Step, m, s).Some?
    ensures var p := Run(Step, m, s).value;
            Run(ChildCodec.Step, ChildCodec.Child(m.id, m.name), s) == Some(ChildCodec.Child(p.id, p.name))
    decreases |s|
  {
    if s != [] {
      var (r, rest) := GetRecord(s).value;
      StepProjects(m, r);
      ProjectionFrom(Step(m, r).value, rest);
    }
  }

  lemma {:induction false} StepProjects(m: Person, r: Record)
    requires Step(m, r).Some?
    ensures var p := Step(m, r).value;
            ChildCodec.Step(ChildCodec.Child(m.id, m.name), r) == Some(ChildCodec.Child(p.id, p.name))
  {
  }

  /**
   Whatever bytes the person reader accepts, the child reader accepts too and sees the same id and
   name: scores and counts are unknown to it and skipped whole.
   */
  lemma {:induction false} Projection(s: bytes)
    requires Decode(s).Some?
    ensures ChildCodec.Decode(s) == Some(ChildCodec.Child(Decode(s).value.id, Decode(s).value.name))
  {
    ProjectionFrom(DEFAULT, s);
  }

  /** In particular on the encoding of any person. */
  lemma {:induction false} EncodingProjects(p: Person, order: seq<text>)
    requires Enumerates(order, p.counts.Keys)
    requires |Encode(PersonRecords(p, order))| < ADDRESS_SPACE
    ensures ChildCodec.Decode(Encode(PersonRecords(p, order))) == Some(ChildCodec.Child(p.id, p.name))
  {
    RoundTrip(p, order);
    Projection(Encode(PersonRecords(p, order)));
  }

  // ---------------------------------------------------------- size and writing

  /** The predicted size is the encoded length, for every order of the map's entries. */
  method GetSize(p: Person, order: seq<text>) returns (size: nat)
    requires Enumerates(order, p.counts.Keys)
    ensures forall o :: Enumerates(o, p.counts.Keys) ==> size == |Encode(PersonRecords(p, o))|
  {
    size := 0;
    if p.id != 0 {
      size := size + (1 + SizeofScalar(Int32, p.id));
    }
    if p.name != [] {
      size := size + (1 + SizeofLen(|p.name|));
    }
    if p.scores != [] {
      var packed := SumSizes(Int32, p.scores);
      size := size + (1 + SizeofLen(packed));
    }
    var counts := CountSize(34, Entries(p.counts, order));
    size := size + counts;
    ScalarFieldSize(8, Int32, p.id);
    BytesFieldSize(18, p.name);
    PackedFieldSize(26, Int32, p.scores);
    forall o | Enumerates(o, p.counts.Keys)
      ensures size == |Encode(PersonRecords(p, o))|
    {
      MapLengthOrderFree(34, CountValue, p.counts, order, o);
      PartsFit(p, o);
    }
  }

  method WriteMessage(p: Person, order: seq<text>, w: Writer)
    requires Enumerates(order, p.counts.Keys)
    modifies w
    ensures w.buf == old(w.buf) + Encode(PersonRecords(p, order))
  {
    ghost var done := ScalarField(8, Int32, p.id);
    w.WriteScalarField(8, Int32, p.id);
    w.WriteBytesField(18, p.name);
    Grow(old(w.buf), done, BytesField(18, p.name));
    done := done + BytesField(18, p.name);
    w.WritePackedField(26, Int32, p.scores);
    Grow(old(w.buf), done, PackedField(26, Int32, p.scores));
    done := done + PackedField(26, Int32, p.scores);
    WriteCounts(w, 34, Entries(p.counts, order));
    Grow(old(w.buf), done, CountsField(p, order));
  }

  /** `encode_to_vec`: the buffer fills the predicted size exactly and reads back as the message. */
  method EncodeToVec(p: Person, order: seq<text>) returns (out: bytes, capacity: nat)
    requires Enumerates(order, p.counts.Keys)
    ensures out == Encode(PersonRecords(p, order)) && |out| == capacity
    ensures capacity < ADDRESS_SPACE ==> Decode(out) == Some(p)
    ensures capacity < ADDRESS_SPACE ==> Parse(out).Some? && Ascending(Tags(Parse(out).value))
  {
    capacity := GetSize(p, order);
    var w := new Writer();
    WriteMessage(p, order, w);
    out := w.buf;
    ConcatNil(Encode(PersonRecords(p, order)));
    if capacity < ADDRESS_SPACE {
      RoundTrip(p, order);
      Layout(p, order);
    }
  }

  // ------------------------------------------------------------------ reading

  /** The arms of the loop's `match`. */
  method ReadArm(r: Reader, input: bytes, m: Person, tag: u32) returns (res: Option<Person>)
    requires r.Valid(input)
    modifies r
    ensures r.Delivers(input, StepAt(Step, m, tag, old(r.Window(input))), res)
  {
    match tag {
      case 8 =>
        ScalarArm(Step, m, tag, r.Window(input), Int32);
        var v :- r.ReadScalar(input, Int32);
        return Some(m.(id := v));
      case 18 =>
        LenArm(Step, m, tag, r.Window(input));
        var v :- r.ReadString(input);
        return Some(m.(name := v));
      case 26 =>
        LenArm(Step, m, tag, r.Window(input));
        var vs :- r.ReadPacked(input, Int32);
        return Some(m.(scores := vs));
      case 34 =>
        LenArm(Step, m, tag, r.Window(input));
        var e :- ReadEntry(r, input);
        return Some(m.(counts := m.counts[e.key := e.value]));
      case _ =>
        UnknownArm(Step, m, tag, r.Window(input));
        var _ :- r.ReadUnknown(input, tag);
        return Some(m);
    }
  }

  method FromReader(r: Reader, input: bytes) returns (res: Option<Person>)
    requires r.Valid(input)
    modifies r
    ensures r.Delivers(input, Whole(Decode(old(r.Window(input)))), res)
  {
    ghost var window := r.Window(input);
    var msg := DEFAULT;
    while !r.IsEof()
      invariant r.Valid(input) && old(r.start) <= r.start && r.end == old(r.end)
      invariant Decode(window) == Run(Step, msg, r.Window(input))
      decreases r.end - r.start
    {
      RunStep(Step, msg, r.Window(input));
      var tag :- r.NextTag(input);
      msg :- ReadArm(r, input, msg, tag);
    }
    return Some(msg);
  }
}
