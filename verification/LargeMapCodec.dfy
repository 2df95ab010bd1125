/** LargeMap: nothing but a map of counts, written in whatever order the hash map iterates. */
module LargeMapCodec {
  import opened Bytes
  import opened Sequences
  import opened Records
  import opened Fields
  import opened Maps
  import opened Folding
  import opened Scalars
  import opened Layouts
  import opened Writing
  import opened Reading
  import opened CountMaps

  type LargeMap = map<text, i32>

  const DEFAULT: LargeMap := map[]

  /** The records for one order of the entries. */
  function LargeMapRecords(m: LargeMap, order: seq<text>): seq<Record>
    requires Enumerates(order, m.Keys)
  {
    MapRecords(10, CountValue, Entries(m, order))
  }

  function Step(m: LargeMap, r: Record): Option<LargeMap> {
    match r.tag
    case 10 => Insert(m, r.payload.data)
    case _ => Some(m)
  }

  function Decode(s: bytes): Option<LargeMap> {
    Run(Step, DEFAULT, s)
  }

  /** Any list of entries, repeated keys and all, decodes to their insertion one after the other. */
  lemma {:induction false} AbsorbEntries(m: LargeMap, es: seq<CountEntry>)
    requires |Encode(MapRecords(10, CountValue, es))| < ADDRESS_SPACE
    ensures Fold(Step, m, MapRecords(10, CountValue, es)) == Some(InsertAll(m, es))
    decreases |es|
  {
    if es != [] {
      var first, rest := EntryRecord(10, CountValue, es[0]), MapRecords(10, CountValue, es[1..]);
      EncodeHead([], first, rest);
      RecordFits([first] + rest, 0);
      EntryRoundTrip(es[0]);
      FoldCons(Step, m, first, m[es[0].key := es[0].value], rest);
      AbsorbEntries(m[es[0].key := es[0].value], es[1..]);
    }
  }

  /** The last entry for a key decides what an entry list decodes to. */
  lemma {:induction false} LastEntryDecides(es: seq<CountEntry>, i: nat)
    requires |Encode(MapRecords(10, CountValue, es))| < ADDRESS_SPACE
    requires i < |es| && forall j :: i < j < |es| ==> es[j].key != es[i].key
    ensures var m := Decode(Encode(MapRecords(10, CountValue, es)));
            m.Some? && es[i].key in m.value && m.value[es[i].key] == es[i].value
  {
    RunEncode(Step, DEFAULT, MapRecords(10, CountValue, es));
    AbsorbEntries(DEFAULT, es);
    LastEntryWins(DEFAULT, es, i);
  }

  /**
   Order is irrelevant: under any two enumerations the encodings have equal length and both decode
   to the map.
   */
  lemma {:induction false} OrderIrrelevant(m: LargeMap, p: seq<text>, q: seq<text>)
    requires Enumerates(p, m.Keys) && Enumerates(q, m.Keys)
    requires |Encode(LargeMapRecords(m, p))| < ADDRESS_SPACE
    ensures |Encode(LargeMapRecords(m, p))| == |Encode(LargeMapRecords(m, q))|
    ensures Decode(Encode(LargeMapRecords(m, p))) == Some(m)
    ensures Decode(Encode(LargeMapRecords(m, q))) == Some(m)
  {
    MapLengthOrderFree(10, CountValue, m, p, q);
    RoundTrip(m, p);
    RoundTrip(m, q);
  }

  lemma {:induction false} RoundTrip(m: LargeMap, order: seq<text>)
    requires Enumerates(order, m.Keys)
    requires |Encode(LargeMapRecords(m, order))| < ADDRESS_SPACE
    ensures Decode(Encode(LargeMapRecords(m, order))) == Some(m)
  {
    RunEncode(Step, DEFAULT, LargeMapRecords(m, order));
    AbsorbEntries(DEFAULT, Entries(m, order));
    InsertEntries(DEFAULT, m, order);
    assert DEFAULT + m == m;
  }

  /** Only records with tag 10 feed the map. */
  function Slot(r: Record): nat {
    if r.tag == 10 then 1 else 0
  }

  /** Unknown records at any record boundary are transparent, whatever follows them. */
  lemma {:induction false} UnknownTransparent(xs: bytes, us: bytes, ys: bytes)
    requires Parse(xs).Some? && Parse(us).Some?
    requires forall i :: 0 <= i < |Parse(us).value| ==> Parse(us).value[i].tag !in {10}
    ensures Decode(xs + us + ys) == Decode(xs + ys)
  {
    RunUnknown(Step, Slot, DEFAULT, xs, us, ys);
  }

  /** What a record does: tag 10 inserts an entry, or fails with it. */
  ghost predicate Effect(m: LargeMap, r: Record, next: Option<LargeMap>) {
    && (r.tag == 10 ==>
          match DecodeEntry(r.payload.data)
          case None => next == None
          case Some(e) => next == Some(m[e.key := e.value]))
    && (r.tag != 10 ==> next == Some(m))
  }

  /** Any input accepted so far, followed by one more record. */
  lemma {:induction false} OneMoreRecord(xs: bytes, m: LargeMap, r: Record)
    requires Decode(xs) == Some(m) && |EncodeRecord(r)| < ADDRESS_SPACE
    ensures Effect(m, r, Decode(xs + EncodeRecord(r)))
  {
    RunOneMore(Step, DEFAULT, xs, m, r);
    assert Effect(m, r, Step(m, r));
  }

  /** Unknown records inside a map entry are transparent as well. */
  lemma {:induction false} UnknownInMapEntry(pre: bytes, xs: bytes, us: bytes, ys: bytes, post: bytes)
    requires Parse(pre).Some? && Parse(xs).Some? && Parse(us).Some?
    requires forall i :: 0 <= i < |Parse(us).value| ==> Parse(us).value[i].tag !in {10, 16}
    requires |EncodeRecord(Tagged(10, LEN(xs + us + ys)))| < ADDRESS_SPACE
    requires |EncodeRecord(Tagged(10, LEN(xs + ys)))| < ADDRESS_SPACE
    ensures Decode(pre + EncodeRecord(Tagged(10, LEN(xs + us + ys))) + post)
         == Decode(pre + EncodeRecord(Tagged(10, LEN(xs + ys))) + post)
  {
    UnknownInEntry(xs, us, ys);
    RunReplace(Step, DEFAULT, pre, Tagged(10, LEN(xs + us + ys)), Tagged(10, LEN(xs + ys)), post);
  }

  /** The map's records stand in the order of the iteration; each holds its key, then its value. */
  lemma {:induction false} EntriesInOrder(m: LargeMap, order: seq<text>, i: nat)
    requires Enumerates(order, m.Keys) && i < |order|
    requires |Encode(LargeMapRecords(m, order))| < ADDRESS_SPACE
    ensures var rs := Parse(Encode(LargeMapRecords(m, order)));
            && rs.Some?
            && var entries := OfTag(10, rs.value);
            && |entries| == |order| && entries[i].payload.LEN?
            && Parse(entries[i].payload.data)
            == Some([Tagged(10, LEN(order[i])), Tagged(16, ToPayload(Int32, m[order[i]]))])
  {
    ParseEncode(LargeMapRecords(m, order));
    var field := LargeMapRecords(m, order);
    ConcatNil(field);
    ConcatNil([] + field);
    EntryInOrder(10, CountValue, m, order, i, [], []);
  }

  /** One record an entry and nothing else. */
  lemma {:induction false} Layout(m: LargeMap, order: seq<text>)
    requires Enumerates(order, m.Keys)
    requires |Encode(LargeMapRecords(m, order))| < ADDRESS_SPACE
    ensures var rs := Parse(Encode(LargeMapRecords(m, order)));
            rs.Some? && Tags(rs.value) == Times(10, |m|)
  {
    ParseEncode(LargeMapRecords(m, order));
    MapTags(10, CountValue, Entries(m, order));
    OrderLength(order, m.Keys);
  }

  /** The sum over the entries is the encoded length, for every order. */
  method GetSize(m: LargeMap, order: seq<text>) returns (size: nat)
    requires Enumerates(order, m.Keys)
    ensures forall o :: Enumerates(o, m.Keys) ==> size == |Encode(LargeMapRecords(m, o))|
  {
    size := CountSize(10, Entries(m, order));
    forall o | Enumerates(o, m.Keys)
      ensures size == |Encode(LargeMapRecords(m, o))|
    {
      MapLengthOrderFree(10, CountValue, m, order, o);
    }
  }

  method WriteMessage(m: LargeMap, order: seq<text>, w: Writer)
    requires Enumerates(order, m.Keys)
    modifies w
    ensures w.buf == old(w.buf) + Encode(LargeMapRecords(m, order))
  {
    WriteCounts(w, 10, Entries(m, order));
  }

  /** `encode_to_vec`: the buffer fills the predicted size exactly and reads back as the message. */
  method EncodeToVec(m: LargeMap, order: seq<text>) returns (out: bytes, capacity: nat)
    requires Enumerates(order, m.Keys)
    ensures out == Encode(LargeMapRecords(m, order)) && |out| == capacity
    ensures capacity < ADDRESS_SPACE ==> Decode(out) == Some(m)
  {
    capacity := GetSize(m, order);
    var w := new Writer();
    WriteMessage(m, order, w);
    out := w.buf;
    ConcatNil(Encode(LargeMapRecords(m, order)));
    if capacity < ADDRESS_SPACE {
      RoundTrip(m, order);
    }
  }

  /** The arms of the loop's `match`. */
  method ReadArm(r: Reader, input: bytes, m: LargeMap, tag: u32) returns (res: Option<LargeMap>)
    requires r.Valid(input)
    modifies r
    ensures r.Delivers(input, StepAt(Step, m, tag, old(r.Window(input))), res)
  {
    match tag {
      case 10 =>
        LenArm(Step, m, tag, r.Window(input));
        var e :- ReadEntry(r, input);
        return Some(m[e.key := e.value]);
      case _ =>
        UnknownArm(Step, m, tag, r.Window(input));
        var _ :- r.ReadUnknown(input, tag);
        return Some(m);
    }
  }

  method FromReader(r: Reader, input: bytes) returns (res: Option<LargeMap>)
    requires r.Valid(input)
    modifies r
    ensures r.Delivers(input, Whole(Decode(old(r.Window(input)))), res)
  {
    ghost var window := r.Window(input);
    var msg := DEFAULT;
    while !r.IsEof()
      invariant r.Valid(input) && old(r.start) <= r.start && r.end == old(r.end)
      invariant Decode(window) == Run(Step, msg, r.Window(input))
      decreases r.end - r.start
    {
      RunStep(Step, msg, r.Window(input));
      var tag :- r.NextTag(input);
      msg :- ReadArm(r, input, msg, tag);
    }
    return Some(msg);
  }
}
