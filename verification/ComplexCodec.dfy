/**
 Complex: an optional nested message, a repeated one, a map of them and a oneof that may hold one.
 Every nested length prefix is a predicted size.
 */
module ComplexCodec {
  import opened Bytes
  import opened Sequences
  import opened Base128
  import opened Records
  import opened Scalars
  import opened Fields
  import opened Maps
  import opened Folding
  import opened Layouts
  import opened Writing
  import opened Reading
  import opened AuditMaps
  import AuditCodec

  datatype Subject = UserName(name: text) | OrganizationId(org: bytes) | AuditSubject(audit: Audit)

  datatype Complex = Complex(
    id: i32,
    audit: Option<Audit>,
    history: seq<Audit>,
    audits: map<text, Audit>,
    subject: Option<Subject>)

  const DEFAULT := Complex(0, None, [], map[], None)

  function AuditField(audit: Option<Audit>): seq<Record> {
    if audit.Some? then [AuditCodec.NestedRecord(18, audit.value)] else []
  }

  function HistoryRecords(history: seq<Audit>): seq<Record> {
    if history == [] then [] else [AuditCodec.NestedRecord(26, history[0])] + HistoryRecords(history[1..])
  }

  function SubjectField(subject: Option<Subject>): seq<Record> {
    match subject
    case None => []
    case Some(UserName(name)) => [Tagged(42, LEN(name))]
    case Some(OrganizationId(org)) => [Tagged(50, LEN(org))]
    case Some(AuditSubject(audit)) => [AuditCodec.NestedRecord(58, audit)]
  }

  function AuditsField(c: Complex, order: seq<text>): seq<Record>
    requires Enumerates(order, c.audits.Keys)
  {
    MapRecords(34, AuditValue, Entries(c.audits, order))
  }

  /** The records of an encoded message, for one order of the map's entries. */
  function ComplexRecords(c: Complex, order: seq<text>): seq<Record>
    requires Enumerates(order, c.audits.Keys)
  {
    ScalarField(8, Int32, c.id) + AuditField(c.audit) + HistoryRecords(c.history)
    + AuditsField(c, order) + SubjectField(c.subject)
  }

  /** What one record does to a message. */
  function Step(m: Complex, r: Record): Option<Complex> {
    match r.tag
    case 8 => Some(m.(id := FromPayload(Int32, r.payload)))
    case 18 => var a :- AuditCodec.Decode(r.payload.data); Some(m.(audit := Some(a)))
    case 26 => var a :- AuditCodec.Decode(r.payload.data); Some(m.(history := m.history + [a]))
    case 34 => var audits :- Insert(m.audits, r.payload.data); Some(m.(audits := audits))
    case 42 => if ValidUtf8(r.payload.data) then Some(m.(subject := Some(UserName(r.payload.data)))) else None
    case 50 => Some(m.(subject := Some(OrganizationId(r.payload.data))))
    case 58 =>
      var a :- AuditCodec.Decode(r.payload.data); Some(m.(subject := Some(AuditSubject(a))))
    case _ => Some(m)
  }

  function Decode(s: bytes): Option<Complex> {
    Run(Step, DEFAULT, s)
  }

  /** Singular fields: the later message wins if it wrote one. History is appended, the map overridden. */
  function Merge(a: Complex, b: Complex): Complex {
    Complex(
      if b.id != 0 then b.id else a.id,
      if b.audit.Some? then b.audit else a.audit,
      a.history + b.history,
      a.audits + b.audits,
      if b.subject.Some? then b.subject else a.subject)
  }

  // ----------------------------------------------------------------- decoding

  lemma {:induction false} AbsorbAudit(m: Complex, audit: Option<Audit>)
    requires |Encode(AuditField(audit))| < ADDRESS_SPACE
    ensures Fold(Step, m, AuditField(audit)) == Some(if audit.Some? then m.(audit := audit) else m)
  {
    FoldField(Step, m, AuditField(audit));
    if audit.Some? {
      EncodeOne(AuditField(audit)[0]);
      AuditCodec.NestedRoundTrip(18, audit.value);
    }
  }

  lemma {:induction false} AbsorbHistory(m: Complex, history: seq<Audit>)
    requires |Encode(HistoryRecords(history))| < ADDRESS_SPACE
    ensures Fold(Step, m, HistoryRecords(history)) == Some(m.(history := m.history + history))
    decreases |history|
  {
    if history == [] {
      ConcatNil(m.history);
    } else {
      var a, rest := history[0], history[1..];
      EncodeHead([], AuditCodec.NestedRecord(26, a), HistoryRecords(rest));
      AppendsToHistory(m, a);
      FoldCons(Step, m, AuditCodec.NestedRecord(26, a), m.(history := m.history + [a]), HistoryRecords(rest));
      AbsorbHistory(m.(history := m.history + [a]), rest);
      AppendSplit(m.history, history);
    }
  }

  lemma {:induction false} AppendsToHistory(m: Complex, a: Audit)
    requires |EncodeRecord(AuditCodec.NestedRecord(26, a))| < ADDRESS_SPACE
    ensures Step(m, AuditCodec.NestedRecord(26, a)) == Some(m.(history := m.history + [a]))
  {
    AuditCodec.NestedRoundTrip(26, a);
  }

  /** Map records insert their entries, whatever the entries are. */
  lemma {:induction false} AbsorbEntries(m: Complex, es: seq<AuditEntry>)
    requires |Encode(MapRecords(34, AuditValue, es))| < ADDRESS_SPACE
    ensures Fold(Step, m, MapRecords(34, AuditValue, es)) == Some(m.(audits := InsertAll(m.audits, es)))
    decreases |es|
  {
    if es != [] {
      var first, rest := EntryRecord(34, AuditValue, es[0]), MapRecords(34, AuditValue, es[1..]);
      EncodeHead([], first, rest);
      RecordFits([first] + rest, 0);
      EntryRoundTrip(es[0]);
      FoldCons(Step, m, first, m.(audits := m.audits[es[0].key := es[0].value]), rest);
      AbsorbEntries(m.(audits := m.audits[es[0].key := es[0].value]), es[1..]);
    }
  }

  lemma {:induction false} AbsorbSubject(m: Complex, subject: Option<Subject>)
    requires |Encode(SubjectField(subject))| < ADDRESS_SPACE
    ensures Fold(Step, m, SubjectField(subject)) == Some(if subject.Some? then m.(subject := subject) else m)
  {
    FoldField(Step, m, SubjectField(subject));
    if subject.Some? {
      EncodeOne(SubjectField(subject)[0]);
      assert SubjectField(subject) == [SubjectField(subject)[0]];
      StepsToSubject(m, subject.value);
    }
  }

  lemma {:induction false} StepsToSubject(m: Complex, subject: Subject)
    requires |EncodeRecord(SubjectField(Some(subject))[0])| < ADDRESS_SPACE
    ensures Step(m, SubjectField(Some(subject))[0]) == Some(m.(subject := Some(subject)))
  {
    match subject
    case AuditSubject(audit) => AuditCodec.NestedRoundTrip(58, audit);
    case _ =>
  }

  /** Decoding an encoding on top of any message merges the two, for every order of the map's entries. */
  lemma {:induction false} Absorb(m: Complex, c: Complex, order: seq<text>)
    requires Enumerates(order, c.audits.Keys)
    requires |Encode(ComplexRecords(c, order))| < ADDRESS_SPACE
    ensures Fold(Step, m, ComplexRecords(c, order)) == Some(Merge(m, c))
  {
    var id, audit, history := ScalarField(8, Int32, c.id), AuditField(c.audit), HistoryRecords(c.history);
    var audits, subject := AuditsField(c, order), SubjectField(c.subject);
    PartsFit(c, order);
    var m1 := if c.id != 0 then m.(id := c.id) else m;
    FoldField(Step, m, id);
    ScalarRoundTrip(Int32, c.id);
    FoldThen(Step, m, id, m1, audit);
    var m2 := if c.audit.Some? then m1.(audit := c.audit) else m1;
    AbsorbAudit(m1, c.audit);
    FoldThen(Step, m, id + audit, m2, history);
    var m3 := m2.(history := m2.history + c.history);
    AbsorbHistory(m2, c.history);
    FoldThen(Step, m, id + audit + history, m3, audits);
    AbsorbMap(m3, c, order);
    FoldThen(Step, m, id + audit + history + audits, m3.(audits := m3.audits + c.audits), subject);
    AbsorbSubject(m3.(audits := m3.audits + c.audits), c.subject);
  }

  lemma {:induction false} AbsorbMap(m: Complex, c: Complex, order: seq<text>)
    requires Enumerates(order, c.audits.Keys)
    requires |Encode(AuditsField(c, order))| < ADDRESS_SPACE
    ensures Fold(Step, m, AuditsField(c, order)) == Some(m.(audits := m.audits + c.audits))
  {
    AbsorbEntries(m, Entries(c.audits, order));
    InsertEntries(m.audits, c.audits, order);
  }

  lemma {:induction false} PartsFit(c: Complex, order: seq<text>)
    requires Enumerates(order, c.audits.Keys)
    ensures |Encode(ComplexRecords(c, order))|
         == |Encode(ScalarField(8, Int32, c.id))| + |Encode(AuditField(c.audit))| + |Encode(HistoryRecords(c.history))|
            + |Encode(AuditsField(c, order))| + |Encode(SubjectField(c.subject))|
  {
    var id, audit, history := ScalarField(8, Int32, c.id), AuditField(c.audit), HistoryRecords(c.history);
    EncodeAppend(id + audit + history + AuditsField(c, order), SubjectField(c.subject));
    EncodeAppend(id + audit + history, AuditsField(c, order));
    EncodeAppend(id + audit, history);
    EncodeAppend(id, audit);
  }

  lemma {:induction false} FromDefault(c: Complex, order: seq<text>)
    requires Enumerates(order, c.audits.Keys)
    requires |Encode(ComplexRecords(c, order))| < ADDRESS_SPACE
    ensures Fold(Step, DEFAULT, ComplexRecords(c, order)) == Some(c)
  {
    Absorb(DEFAULT, c, order);
    assert DEFAULT.history + c.history == c.history;
    assert DEFAULT.audits + c.audits == c.audits;
  }

  /** Every message is recovered from its encoding, whatever the order of the map's entries. */
  lemma {:induction false} RoundTrip(c: Complex, order: seq<text>)
    requires Enumerates(order, c.audits.Keys)
    requires |Encode(ComplexRecords(c, order))| < ADDRESS_SPACE
    ensures Decode(Encode(ComplexRecords(c, order))) == Some(c)
  {
    RunEncode(Step, DEFAULT, ComplexRecords(c, order));
    FromDefault(c, order);
  }

  /** No two messages share an encoding, even under different orders of their maps. */
  lemma {:induction false} Injective(a: Complex, p: seq<text>, b: Complex, q: seq<text>)
    requires Enumerates(p, a.audits.Keys) && Enumerates(q, b.audits.Keys)
    requires |Encode(ComplexRecords(a, p))| < ADDRESS_SPACE
    requires Encode(ComplexRecords(a, p)) == Encode(ComplexRecords(b, q))
    ensures a == b
  {
    RoundTrip(a, p);
    RoundTrip(b, q);
  }

  /** Concatenation is merge. */
  lemma {:induction false} Concatenation(a: Complex, p: seq<text>, b: Complex, q: seq<text>)
    requires Enumerates(p, a.audits.Keys) && Enumerates(q, b.audits.Keys)
    requires |Encode(ComplexRecords(a, p)) + Encode(ComplexRecords(b, q))| < ADDRESS_SPACE
    ensures Decode(Encode(ComplexRecords(a, p)) + Encode(ComplexRecords(b, q))) == Some(Merge(a, b))
  {
    FromDefault(a, p);
    RunTwo(Step, DEFAULT, ComplexRecords(a, p), a, ComplexRecords(b, q));
    Absorb(a, b, q);
  }

  /** The struct field a record feeds; the three arms of the oneof are one field. */
  function Slot(r: Record): nat {
    match r.tag
    case 8 => 1
    case 18 => 2
    case 26 => 3
    case 34 => 4
    case 42 | 50 | 58 => 5
    case _ => 0
  }

  lemma {:induction false} StepLaws()
    ensures Ignores(Step, Slot) && Commutes(Step, Slot)
  {
    forall m: Complex, a: Record, b: Record | Slot(a) != Slot(b)
      ensures Two(Step, m, a, b) == Two(Step, m, b, a)
    {
      StepsCommute(m, a, b);
    }
  }

  lemma {:induction false} StepsCommute(m: Complex, a: Record, b: Record)
    requires Slot(a) != Slot(b)
    ensures Two(Step, m, a, b) == Two(Step, m, b, a)
  {
  }

  /** Records may be reordered between fields, and unknown ones added, without changing the outcome. */
  lemma {:induction false} FieldOrderIrrelevant(s: bytes, t: bytes)
    requires Parse(s).Some? && Parse(t).Some?
    requires SameFields(Slot, Parse(s).value, Parse(t).value)
    ensures Decode(s) == Decode(t)
  {
    StepLaws();
    RunFieldOrder(Step, Slot, DEFAULT, s, t);
  }

  /** Neighbours with different tags may be swapped anywhere in an input, unless both are arms of the oneof. */
  lemma {:induction false} SwapNeighbours(xs: bytes, a: Record, b: Record, ys: bytes)
    requires Parse(xs).Some?
    requires |EncodeRecord(a)| < ADDRESS_SPACE && |EncodeRecord(b)| < ADDRESS_SPACE
    requires a.tag != b.tag && !({a.tag, b.tag} <= {42, 50, 58})
    ensures Decode(xs + EncodeRecord(a) + EncodeRecord(b) + ys) == Decode(xs + EncodeRecord(b) + EncodeRecord(a) + ys)
  {
    forall m: Complex
      ensures Two(Step, m, a, b) == Two(Step, m, b, a)
    {
      if Slot(a) != Slot(b) {
        StepsCommute(m, a, b);
      } else {
        assert Slot(a) == 0;
      }
    }
    RunSwap(Step, DEFAULT, xs, a, b, ys);
  }

  /** The record that carries an arm of the oneof. */
  function ArmRecord(subject: Subject): Record {
    SubjectField(Some(subject))[0]
  }

  /** Two arms of the oneof may not: the later one wins, so their order matters unless they are equal. */
  lemma {:induction false} LaterArmWins(a: Subject, b: Subject)
    requires |EncodeRecord(ArmRecord(a))| < ADDRESS_SPACE && |EncodeRecord(ArmRecord(b))| < ADDRESS_SPACE
    ensures var x, y := EncodeRecord(ArmRecord(a)), EncodeRecord(ArmRecord(b));
            && Decode(x + y) == Some(DEFAULT.(subject := Some(b)))
            && (Decode(x + y) == Decode(y + x) <==> a == b)
  {
    StepsToSubject(DEFAULT, a);
    StepsToSubject(DEFAULT, b);
    StepsToSubject(DEFAULT.(subject := Some(a)), b);
    StepsToSubject(DEFAULT.(subject := Some(b)), a);
    RunPair(Step, DEFAULT, ArmRecord(a), DEFAULT.(subject := Some(a)), ArmRecord(b), DEFAULT.(subject := Some(b)));
    RunPair(Step, DEFAULT, ArmRecord(b), DEFAULT.(subject := Some(b)), ArmRecord(a), DEFAULT.(subject := Some(a)));
  }

  /** Unknown records at any record boundary are transparent, whatever follows them. */
  lemma {:induction false} UnknownTransparent(xs: bytes, us: bytes, ys: bytes)
    requires Parse(xs).Some? && Parse(us).Some?
    requires forall i :: 0 <= i < |Parse(us).value| ==> Parse(us).value[i].tag !in {8, 18, 26, 34, 42, 50, 58}
    ensures Decode(xs + us + ys) == Decode(xs + ys)
  {
    StepLaws();
    RunUnknown(Step, Slot, DEFAULT, xs, us, ys);
  }

  /** What a record does, arm by arm; a value need not be written canonically. */
  ghost predicate Effect(m: Complex, r: Record, next: Option<Complex>) {
    && (r.tag == 8 ==> forall v: i32 :: Denotes(Int32, r.payload, v) ==> next == Some(m.(id := v)))
    && (r.tag == 18 ==>
          match AuditCodec.Decode(r.payload.data)
          case None => next == None
          case Some(a) => next == Some(m.(audit := Some(a))))
    && (r.tag == 26 ==>
          match AuditCodec.Decode(r.payload.data)
          case None => next == None
          case Some(a) => next == Some(m.(history := m.history + [a])))
    && (r.tag == 34 ==>
          match DecodeEntry(r.payload.data)
          case None => next == None
          case Some(e) => next == Some(m.(audits := m.audits[e.key := e.value])))
    && (r.tag == 42 ==>
          next == if ValidUtf8(r.payload.data) then Some(m.(subject := Some(UserName(r.payload.data)))) else None)
    && (r.tag == 50 ==> next == Some(m.(subject := Some(OrganizationId(r.payload.data)))))
    && (r.tag == 58 ==>
          match AuditCodec.Decode(r.payload.data)
          case None => next == None
          case Some(a) => next == Some(m.(subject := Some(AuditSubject(a)))))
    && (r.tag !in {8, 18, 26, 34, 42, 50, 58} ==> next == Some(m))
  }

  lemma {:induction false} StepEffect(m: Complex, r: Record)
    ensures Effect(m, r, Step(m, r))
  {
    if r.tag == 8 {
      OnlyDenotes(Int32, r.payload);
    }
  }

  /** Any input accepted so far, followed by one more record. */
  lemma {:induction false} OneMoreRecord(xs: bytes, m: Complex, r: Record)
    requires Decode(xs) == Some(m) && |EncodeRecord(r)| < ADDRESS_SPACE
    ensures Effect(m, r, Decode(xs + EncodeRecord(r)))
  {
    RunOneMore(Step, DEFAULT, xs, m, r);
    StepEffect(m, r);
  }

  function SubjectTags(subject: Option<Subject>): seq<u32> {
    match subject
    case None => []
    case Some(UserName(_)) => [42]
    case Some(OrganizationId(_)) => [50]
    case Some(AuditSubject(_)) => [58]
  }

  /** The tags of an encoded message: a field that is written, in the place of its number. */
  function ComplexTags(c: Complex): seq<u32> {
    Once(8, c.id != 0) + Once(18, c.audit.Some?) + Times(26, |c.history|) + Times(34, |c.audits|)
    + SubjectTags(c.subject)
  }

  lemma {:induction false} PieceTags(c: Complex)
    ensures Tags(ScalarField(8, Int32, c.id)) == Once(8, c.id != 0)
    ensures Tags(AuditField(c.audit)) == Once(18, c.audit.Some?)
    ensures Tags(SubjectField(c.subject)) == SubjectTags(c.subject)
  {
  }

  lemma {:induction false} HistoryTags(history: seq<Audit>)
    ensures Tags(HistoryRecords(history)) == Times(26, |history|)
  {
    if history != [] {
      HistoryTags(history[1..]);
      TagsAppend([AuditCodec.NestedRecord(26, history[0])], HistoryRecords(history[1..]));
    }
  }

  lemma {:induction false} TagsAscend(c: Complex)
    ensures Ascending(ComplexTags(c))
  {
    var ts := Once(8, c.id != 0);
    ThenOnce(ts, 8, 18, c.audit.Some?);
    ts := ts + Once(18, c.audit.Some?);
    Then(ts, 18, 26, |c.history|);
    ts := ts + Times(26, |c.history|);
    Then(ts, 26, 34, |c.audits|);
    ts := ts + Times(34, |c.audits|);
    if c.subject.Some? {
      ThenOnce(ts, 34, SubjectTags(c.subject)[0], true);
      assert SubjectTags(c.subject) == [SubjectTags(c.subject)[0]];
    } else {
      ConcatNil(ts);
    }
  }

  /** The encoding has these tags, in ascending order. */
  lemma {:induction false} Layout(c: Complex, order: seq<text>)
    requires Enumerates(order, c.audits.Keys)
    requires |Encode(ComplexRecords(c, order))| < ADDRESS_SPACE
    ensures var rs := Parse(Encode(ComplexRecords(c, order)));
            rs.Some? && Tags(rs.value) == ComplexTags(c) && Ascending(Tags(rs.value))
  {
    ParseEncode(ComplexRecords(c, order));
    var id, audit, history := ScalarField(8, Int32, c.id), AuditField(c.audit), HistoryRecords(c.history);
    TagsAppend(id + audit + history + AuditsField(c, order), SubjectField(c.subject));
    TagsAppend(id + audit + history, AuditsField(c, order));
    TagsAppend(id + audit, history);
    TagsAppend(id, audit);
    PieceTags(c);
    HistoryTags(c.history);
    MapTags(34, AuditValue, Entries(c.audits, order));
    OrderLength(order, c.audits.Keys);
    TagsAscend(c);
  }

  lemma {:induction false} SameEntry(m: Complex, a: bytes, b: bytes)
    requires DecodeEntry(a) == DecodeEntry(b)
    ensures Step(m, Tagged(34, LEN(a))) == Step(m, Tagged(34, LEN(b)))
  {
  }

  /** And so are two map records whose payloads decode to the same entry. */
  lemma {:induction false} ReplaceEntry(pre: bytes, a: bytes, b: bytes, post: bytes)
    requires Parse(pre).Some? && DecodeEntry(a) == DecodeEntry(b)
    requires |EncodeRecord(Tagged(34, LEN(a)))| < ADDRESS_SPACE && |EncodeRecord(Tagged(34, LEN(b)))| < ADDRESS_SPACE
    ensures Decode(pre + EncodeRecord(Tagged(34, LEN(a))) + post)
         == Decode(pre + EncodeRecord(Tagged(34, LEN(b))) + post)
  {
    forall m: Complex
      ensures Step(m, Tagged(34, LEN(a))) == Step(m, Tagged(34, LEN(b)))
    {
      SameEntry(m, a, b);
    }
    RunReplace(Step, DEFAULT, pre, Tagged(34, LEN(a)), Tagged(34, LEN(b)), post);
  }

  /** Unknown records inside a map entry are transparent as well. */
  lemma {:induction false} UnknownInMapEntry(pre: bytes, xs: bytes, us: bytes, ys: bytes, post: bytes)
    requires Parse(pre).Some? && Parse(xs).Some? && Parse(us).Some?
    requires forall i :: 0 <= i < |Parse(us).value| ==> Parse(us).value[i].tag !in {10, 18}
    requires |EncodeRecord(Tagged(34, LEN(xs + us + ys)))| < ADDRESS_SPACE
    requires |EncodeRecord(Tagged(34, LEN(xs + ys)))| < ADDRESS_SPACE
    ensures Decode(pre + EncodeRecord(Tagged(34, LEN(xs + us + ys))) + post)
         == Decode(pre + EncodeRecord(Tagged(34, LEN(xs + ys))) + post)
  {
    UnknownInEntry(xs, us, ys);
    ReplaceEntry(pre, xs + us + ys, xs + ys, post);
  }

  lemma {:induction false} SameStep(m: Complex, tag: u32, a: bytes, b: bytes)
    requires tag in {18, 26, 58} && AuditCodec.Decode(a) == AuditCodec.Decode(b)
    ensures Step(m, Tagged(tag, LEN(a))) == Step(m, Tagged(tag, LEN(b)))
  {
  }

  /** Two payloads that decode to the same nested message are interchangeable. */
  lemma {:induction false} ReplaceAudit(pre: bytes, tag: u32, a: bytes, b: bytes, post: bytes)
    requires Parse(pre).Some? && tag in {18, 26, 58} && AuditCodec.Decode(a) == AuditCodec.Decode(b)
    requires |EncodeRecord(Tagged(tag, LEN(a)))| < ADDRESS_SPACE && |EncodeRecord(Tagged(tag, LEN(b)))| < ADDRESS_SPACE
    ensures Decode(pre + EncodeRecord(Tagged(tag, LEN(a))) + post)
         == Decode(pre + EncodeRecord(Tagged(tag, LEN(b))) + post)
  {
    forall m: Complex
      ensures Step(m, Tagged(tag, LEN(a))) == Step(m, Tagged(tag, LEN(b)))
    {
      SameStep(m, tag, a, b);
    }
    RunReplace(Step, DEFAULT, pre, Tagged(tag, LEN(a)), Tagged(tag, LEN(b)), post);
  }

  /** Unknown records inside a nested audit are transparent, wherever the audit stands. */
  lemma {:induction false} UnknownInAudit(pre: bytes, tag: u32, xs: bytes, us: bytes, ys: bytes, post: bytes)
    requires Parse(pre).Some? && Parse(xs).Some? && Parse(us).Some? && tag in {18, 26, 58}
    requires forall i :: 0 <= i < |Parse(us).value| ==> Parse(us).value[i].tag !in {10, 16}
    requires |EncodeRecord(Tagged(tag, LEN(xs + us + ys)))| < ADDRESS_SPACE
    requires |EncodeRecord(Tagged(tag, LEN(xs + ys)))| < ADDRESS_SPACE
    ensures Decode(pre + EncodeRecord(Tagged(tag, LEN(xs + us + ys))) + post)
         == Decode(pre + EncodeRecord(Tagged(tag, LEN(xs + ys))) + post)
  {
    AuditCodec.UnknownTransparent(xs, us, ys);
    ReplaceAudit(pre, tag, xs + us + ys, xs + ys, post);
  }

  /** A map entry with a nested audit among other records. */
  function EntryAround(before: bytes, audit: bytes, after: bytes): Record {
    Tagged(34, LEN(before + EncodeRecord(Tagged(18, LEN(audit))) + after))
  }

  /** And inside an audit that is the value of a map entry, two levels down. */
  lemma {:induction false} UnknownInMapValue(pre: bytes, before: bytes, xs: bytes, us: bytes, ys: bytes,
                                              after: bytes, post: bytes)
    requires Parse(pre).Some? && Parse(before).Some? && Parse(xs).Some? && Parse(us).Some?
    requires forall i :: 0 <= i < |Parse(us).value| ==> Parse(us).value[i].tag !in {10, 16}
    requires |EncodeRecord(EntryAround(before, xs + us + ys, after))| < ADDRESS_SPACE
    requires |EncodeRecord(EntryAround(before, xs + ys, after))| < ADDRESS_SPACE
    ensures Decode(pre + EncodeRecord(EntryAround(before, xs + us + ys, after)) + post)
         == Decode(pre + EncodeRecord(EntryAround(before, xs + ys, after)) + post)
  {
    var a, b := EntryAround(before, xs + us + ys, after), EntryAround(before, xs + ys, after);
    RecordLonger(34, before + EncodeRecord(Tagged(18, LEN(xs + us + ys))) + after);
    RecordLonger(34, before + EncodeRecord(Tagged(18, LEN(xs + ys))) + after);
    UnknownInValue(before, xs, us, ys, after);
    ReplaceEntry(pre, a.payload.data, b.payload.data, post);
  }

  lemma {:induction false} OutsideTheMap(c: Complex)
    ensures 34 !in Tags(ScalarField(8, Int32, c.id) + AuditField(c.audit) + HistoryRecords(c.history))
    ensures 34 !in Tags(SubjectField(c.subject))
  {
    PieceTags(c);
    HistoryTags(c.history);
    TagsAppend(ScalarField(8, Int32, c.id) + AuditField(c.audit), HistoryRecords(c.history));
    TagsAppend(ScalarField(8, Int32, c.id), AuditField(c.audit));
  }

  /** The map's records stand in the order of the iteration; each holds its key, then its value. */
  lemma {:induction false} EntriesInOrder(c: Complex, order: seq<text>, i: nat)
    requires Enumerates(order, c.audits.Keys) && i < |order|
    requires |Encode(ComplexRecords(c, order))| < ADDRESS_SPACE
    ensures var rs := Parse(Encode(ComplexRecords(c, order)));
            && rs.Some?
            && var entries := OfTag(34, rs.value);
            && |entries| == |order| && entries[i].payload.LEN?
            && Parse(entries[i].payload.data)
            == Some([Tagged(10, LEN(order[i])), AuditCodec.NestedRecord(18, c.audits[order[i]])])
  {
    ParseEncode(ComplexRecords(c, order));
    var before := ScalarField(8, Int32, c.id) + AuditField(c.audit) + HistoryRecords(c.history);
    OutsideTheMap(c);
    EntryInOrder(34, AuditValue, c.audits, order, i, before, SubjectField(c.subject));
  }

  // ---------------------------------------------------------- size and writing

  method HistorySize(history: seq<Audit>) returns (size: nat)
    ensures size == |Encode(HistoryRecords(history))|
  {
    size := 0;
    for i := 0 to |history|
      invariant size + |Encode(HistoryRecords(history[i..]))| == |Encode(HistoryRecords(history))|
    {
      var length := AuditCodec.GetSize(history[i]);
      size := size + (1 + SizeofLen(length));
      assert history[i..][1..] == history[i + 1..];
      RecordSize(AuditCodec.NestedRecord(26, history[i]));
      EncodeHead([], AuditCodec.NestedRecord(26, history[i]), HistoryRecords(history[i + 1..]));
    }
  }

  method SubjectSize(subject: Option<Subject>) returns (size: nat)
    ensures size == |Encode(SubjectField(subject))|
  {
    match subject {
      case None => size := 0;
      case Some(UserName(name)) => size := 1 + SizeofLen(|name|);
      case Some(OrganizationId(org)) => size := 1 + SizeofLen(|org|);
      case Some(AuditSubject(audit)) =>
        var length := AuditCodec.GetSize(audit);
        size := 1 + SizeofLen(length);
    }
    if subject.Some? {
      EncodeOne(SubjectField(subject)[0]);
      assert SubjectField(subject) == [SubjectField(subject)[0]];
      RecordSize(SubjectField(subject)[0]);
    }
  }

  method AuditFieldSize(audit: Option<Audit>) returns (size: nat)
    ensures size == |Encode(AuditField(audit))|
  {
    size := 0;
    if audit.Some? {
      var length := AuditCodec.GetSize(audit.value);
      size := 1 + SizeofLen(length);
      RecordSize(AuditCodec.NestedRecord(18, audit.value));
      EncodeOne(AuditCodec.NestedRecord(18, audit.value));
    }
  }

  /** The predicted size is the encoded length, for every order of the map's entries. */
  method GetSize(c: Complex, order: seq<text>) returns (size: nat)
    requires Enumerates(order, c.audits.Keys)
    ensures forall o :: Enumerates(o, c.audits.Keys) ==> size == |Encode(ComplexRecords(c, o))|
  {
    size := 0;
    if c.id != 0 {
      size := size + (1 + SizeofScalar(Int32, c.id));
    }
    ScalarFieldSize(8, Int32, c.id);
    var audit := AuditFieldSize(c.audit);
    var history := HistorySize(c.history);
    var audits := AuditsSize(34, Entries(c.audits, order));
    var subject := SubjectSize(c.subject);
    size := size + audit + history + audits + subject;
    forall o | Enumerates(o, c.audits.Keys)
      ensures size == |Encode(ComplexRecords(c, o))|
    {
      MapLengthOrderFree(34, AuditValue, c.audits, order, o);
      PartsFit(c, o);
    }
  }

  method WriteHistory(w: Writer, history: seq<Audit>)
    modifies w
    ensures w.buf == old(w.buf) + Encode(HistoryRecords(history))
  {
    for i := 0 to |history|
      invariant w.buf + Encode(HistoryRecords(history[i..])) == old(w.buf) + Encode(HistoryRecords(history))
    {
      ghost var before := w.buf;
      AuditCodec.WriteNested(w, 26, history[i]);
      assert history[i..][1..] == history[i + 1..];
      EncodeHead(before, AuditCodec.NestedRecord(26, history[i]), HistoryRecords(history[i + 1..]));
    }
    ConcatNil(w.buf);
  }

  method WriteAuditField(w: Writer, audit: Option<Audit>)
    modifies w
    ensures w.buf == old(w.buf) + Encode(AuditField(audit))
  {
    if audit.Some? {
      AuditCodec.WriteNested(w, 18, audit.value);
      EncodeOne(AuditCodec.NestedRecord(18, audit.value));
    }
  }

  method WriteSubject(w: Writer, subject: Option<Subject>)
    modifies w
    ensures w.buf == old(w.buf) + Encode(SubjectField(subject))
  {
    match subject {
      case None =>
      case Some(UserName(name)) => w.WriteBytesWithTag(42, name);
      case Some(OrganizationId(org)) => w.WriteBytesWithTag(50, org);
      case Some(AuditSubject(audit)) => AuditCodec.WriteNested(w, 58, audit);
    }
    if subject.Some? {
      EncodeOne(SubjectField(subject)[0]);
      assert SubjectField(subject) == [SubjectField(subject)[0]];
    }
  }

  method WriteMessage(c: Complex, order: seq<text>, w: Writer)
    requires Enumerates(order, c.audits.Keys)
    modifies w
    ensures w.buf == old(w.buf) + Encode(ComplexRecords(c, order))
  {
    ghost var done := ScalarField(8, Int32, c.id);
    w.WriteScalarField(8, Int32, c.id);
    WriteAuditField(w, c.audit);
    Grow(old(w.buf), done, AuditField(c.audit));
    done := done + AuditField(c.audit);
    WriteHistory(w, c.history);
    Grow(old(w.buf), done, HistoryRecords(c.history));
    done := done + HistoryRecords(c.history);
    WriteAudits(w, 34, Entries(c.audits, order));
    Grow(old(w.buf), done, AuditsField(c, order));
    done := done + AuditsField(c, order);
    WriteSubject(w, c.subject);
    Grow(old(w.buf), done, SubjectField(c.subject));
  }

  /** `encode_to_vec`: the buffer fills the predicted size exactly and reads back as the message. */
  method EncodeToVec(c: Complex, order: seq<text>) returns (out: bytes, capacity: nat)
    requires Enumerates(order, c.audits.Keys)
    ensures out == Encode(ComplexRecords(c, order)) && |out| == capacity
    ensures capacity < ADDRESS_SPACE ==> Decode(out) == Some(c)
    ensures capacity < ADDRESS_SPACE ==> Parse(out).Some? && Ascending(Tags(Parse(out).value))
  {
    capacity := GetSize(c, order);
    var w := new Writer();
    WriteMessage(c, order, w);
    out := w.buf;
    assert out == Encode(ComplexRecords(c, order));
    if capacity < ADDRESS_SPACE {
      RoundTrip(c, order);
      Layout(c, order);
    }
  }

  // ------------------------------------------------------------------ reading

  /** The arms of the loop's `match`. */
  method ReadArm(r: Reader, input: bytes, m: Complex, tag: u32) returns (res: Option<Complex>)
    requires r.Valid(input)
    modifies r
    ensures r.Delivers(input, StepAt(Step, m, tag, old(r.Window(input))), res)
  {
    match tag {
      case 8 =>
        ScalarArm(Step, m, tag, r.Window(input), Int32);
        var v :- r.ReadScalar(input, Int32);
        return Some(m.(id := v));
      case 18 =>
        LenArm(Step, m, tag, r.Window(input));
        var a :- AuditCodec.ReadNested(r, input);
        return Some(m.(audit := Some(a)));
      case 26 =>
        LenArm(Step, m, tag, r.Window(input));
        var a :- AuditCodec.ReadNested(r, input);
        return Some(m.(history := m.history + [a]));
      case 34 =>
        LenArm(Step, m, tag, r.Window(input));
        var e :- ReadEntry(r, input);
        return Some(m.(audits := m.audits[e.key := e.value]));
      case 42 =>
        LenArm(Step, m, tag, r.Window(input));
        var v :- r.ReadString(input);
        return Some(m.(subject := Some(UserName(v))));
      case 50 =>
        LenArm(Step, m, tag, r.Window(input));
        var v :- r.ReadBytes(input);
        return Some(m.(subject := Some(OrganizationId(v))));
      case 58 =>
        LenArm(Step, m, tag, r.Window(input));
        var a :- AuditCodec.ReadNested(r, input);
        return Some(m.(subject := Some(AuditSubject(a))));
      case _ =>
        UnknownArm(Step, m, tag, r.Window(input));
        var _ :- r.ReadUnknown(input, tag);
        return Some(m);
    }
  }

  method FromReader(r: Reader, input: bytes) returns (res: Option<Complex>)
    requires r.Valid(input)
    modifies r
    ensures r.Delivers(input, Whole(Decode(old(r.Window(input)))), res)
  {
    ghost var window := r.Window(input);
    var msg := DEFAULT;
    while !r.IsEof()
      invariant r.Valid(input) && old(r.start) <= r.start && r.end == old(r.end)
      invariant Decode(window) == Run(Step, msg, r.Window(input))
      decreases r.end - r.start
    {
      RunStep(Step, msg, r.Window(input));
      var tag :- r.NextTag(input);
      msg :- ReadArm(r, input, msg, tag);
    }
    return Some(msg);
  }

  /** A reader over a whole input: the message, with the reader at the end of the input, or a failure. */
  method DecodeBytes(input: bytes) returns (res: Option<Complex>, r: Reader)
    ensures res == Decode(input)
    ensures res.Some? ==> r.start == r.end == |input|
  {
    r := new Reader(input);
    assert r.Window(input) == input;
    res := FromReader(r, input);
  }
}
