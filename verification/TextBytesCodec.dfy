/** TextBytes: a string, bytes, and a repeated field of each. */
module TextBytesCodec {
  import opened Bytes
  import opened Sequences
  import opened Base128
  import opened Records
  import opened Fields
  import opened Folding
  import opened Layouts
  import opened Writing
  import opened Reading

  datatype TextBytes = TextBytes(title: text, payload: bytes, tags: seq<text>, chunks: seq<bytes>)

  const DEFAULT := TextBytes([], [], [], [])

  /** The records of an encoded message. */
  function TextBytesRecords(t: TextBytes): seq<Record> {
    BytesField(10, t.title) + BytesField(18, t.payload) + RepeatedField(26, t.tags) + RepeatedField(34, t.chunks)
  }

  /** What one record does to a message. */
  function Step(m: TextBytes, r: Record): Option<TextBytes> {
    match r.tag
    case 10 => if ValidUtf8(r.payload.data) then Some(m.(title := r.payload.data)) else None
    case 18 => Some(m.(payload := r.payload.data))
    case 26 => if ValidUtf8(r.payload.data) then Some(m.(tags := m.tags + [r.payload.data])) else None
    case 34 => Some(m.(chunks := m.chunks + [r.payload.data]))
    case _ => Some(m)
  }

  function Decode(s: bytes): Option<TextBytes> {
    Run(Step, DEFAULT, s)
  }

  function Merge(a: TextBytes, b: TextBytes): TextBytes {
    TextBytes(
      if b.title != [] then b.title else a.title,
      if b.payload != [] then b.payload else a.payload,
      a.tags + b.tags,
      a.chunks + b.chunks)
  }

  lemma {:induction false} AbsorbTags(m: TextBytes, tags: seq<text>)
    ensures Fold(Step, m, RepeatedField(26, tags)) == Some(m.(tags := m.tags + tags))
    decreases |tags|
  {
    if tags == [] {
      ConcatNil(m.tags);
    } else {
      var next := m.(tags := m.tags + [tags[0]]);
      FoldCons(Step, m, Tagged(26, LEN(tags[0])), next, RepeatedField(26, tags[1..]));
      AbsorbTags(next, tags[1..]);
      AppendSplit(m.tags, tags);
    }
  }

  lemma {:induction false} AbsorbChunks(m: TextBytes, chunks: seq<bytes>)
    ensures Fold(Step, m, RepeatedField(34, chunks)) == Some(m.(chunks := m.chunks + chunks))
    decreases |chunks|
  {
    if chunks == [] {
      ConcatNil(m.chunks);
    } else {
      var next := m.(chunks := m.chunks + [chunks[0]]);
      FoldCons(Step, m, Tagged(34, LEN(chunks[0])), next, RepeatedField(34, chunks[1..]));
      AbsorbChunks(next, chunks[1..]);
      AppendSplit(m.chunks, chunks);
    }
  }

  /** Decoding an encoding on top of any message merges the two. */
  lemma {:induction false} Absorb(m: TextBytes, t: TextBytes)
    ensures Fold(Step, m, TextBytesRecords(t)) == Some(Merge(m, t))
  {
    var title, payload := BytesField(10, t.title), BytesField(18, t.payload);
    var tags, chunks := RepeatedField(26, t.tags), RepeatedField(34, t.chunks);
    var m1 := if t.title != [] then m.(title := t.title) else m;
    FoldField(Step, m, title);
    FoldSnoc(Step, m, title, payload, m1);
    var m2 := if t.payload != [] then m1.(payload := t.payload) else m1;
    FoldThen(Step, m, title + payload, m2, tags);
    AbsorbTags(m2, t.tags);
    var m3 := m2.(tags := m2.tags + t.tags);
    FoldThen(Step, m, title + payload + tags, m3, chunks);
    AbsorbChunks(m3, t.chunks);
  }

  lemma {:induction false} FromDefault(t: TextBytes)
    ensures Fold(Step, DEFAULT, TextBytesRecords(t)) == Some(t)
  {
    Absorb(DEFAULT, t);
    assert DEFAULT.tags + t.tags == t.tags;
    assert DEFAULT.chunks + t.chunks == t.chunks;
  }

  /** Every message is recovered from its encoding. */
  lemma {:induction false} RoundTrip(t: TextBytes)
    requires |Encode(TextBytesRecords(t))| < ADDRESS_SPACE
    ensures Decode(Encode(TextBytesRecords(t))) == Some(t)
  {
    RunEncode(Step, DEFAULT, TextBytesRecords(t));
    FromDefault(t);
  }

  /** Concatenation is merge: repeated strings and bytes append. */
  lemma {:induction false} Concatenation(a: TextBytes, b: TextBytes)
    requires |Encode(TextBytesRecords(a)) + Encode(TextBytesRecords(b))| < ADDRESS_SPACE
    ensures Decode(Encode(TextBytesRecords(a)) + Encode(TextBytesRecords(b))) == Some(Merge(a, b))
  {
    FromDefault(a);
    RunTwo(Step, DEFAULT, TextBytesRecords(a), a, TextBytesRecords(b));
    Absorb(a, b);
  }

  /** The struct field a record feeds: each has its own tag. */
  function Slot(r: Record): nat {
    if r.tag in {10, 18, 26, 34} then r.tag else 0
  }

  lemma {:induction false} StepLaws()
    ensures Ignores(Step, Slot) && Commutes(Step, Slot)
  {
    forall m: TextBytes, a: Record, b: Record | Slot(a) != Slot(b)
      ensures Two(Step, m, a, b) == Two(Step, m, b, a)
    {
      StepsCommute(m, a, b);
    }
  }

  lemma {:induction false} StepsCommute(m: TextBytes, a: Record, b: Record)
    requires Slot(a) != Slot(b)
    ensures Two(Step, m, a, b) == Two(Step, m, b, a)
  {
  }

  /** Records may be reordered between fields, and unknown ones added, without changing the outcome. */
  lemma {:induction false} FieldOrderIrrelevant(s: bytes, t: bytes)
    requires Parse(s).Some? && Parse(t).Some?
    requires SameFields(Slot, Parse(s).value, Parse(t).value)
    ensures Decode(s) == Decode(t)
  {
    StepLaws();
    RunFieldOrder(Step, Slot, DEFAULT, s, t);
  }

  /** Unknown records at any record boundary are transparent, whatever follows them. */
  lemma {:induction false} UnknownTransparent(xs: bytes, us: bytes, ys: bytes)
    requires Parse(xs).Some? && Parse(us).Some?
    requires forall i :: 0 <= i < |Parse(us).value| ==> Parse(us).value[i].tag !in {10, 18, 26, 34}
    ensures Decode(xs + us + ys) == Decode(xs + ys)
  {
    StepLaws();
    RunUnknown(Step, Slot, DEFAULT, xs, us, ys);
  }

  /** What a record does, arm by arm; a value need not be written canonically. */
  ghost predicate Effect(m: TextBytes, r: Record, next: Option<TextBytes>) {
    && (r.tag == 10 ==> next == if ValidUtf8(r.payload.data) then Some(m.(title := r.payload.data)) else None)
    && (r.tag == 18 ==> next == Some(m.(payload := r.payload.data)))
    && (r.tag == 26 ==> next == if ValidUtf8(r.payload.data) then Some(m.(tags := m.tags + [r.payload.data])) else None)
    && (r.tag == 34 ==> next == Some(m.(chunks := m.chunks + [r.payload.data])))
    && (r.tag !in {10, 18, 26, 34} ==> next == Some(m))
  }

  lemma {:induction false} StepEffect(m: TextBytes, r: Record)
    ensures Effect(m, r, Step(m, r))
  {
  }

  /** Any input accepted so far, followed by one more record. */
  lemma {:induction false} OneMoreRecord(xs: bytes, m: TextBytes, r: Record)
    requires Decode(xs) == Some(m) && |EncodeRecord(r)| < ADDRESS_SPACE
    ensures Effect(m, r, Decode(xs + EncodeRecord(r)))
  {
    RunOneMore(Step, DEFAULT, xs, m, r);
    StepEffect(m, r);
  }

  /** The tags of an encoded message: a field that is written, in the place of its number. */
  function TextBytesTags(t: TextBytes): seq<u32> {
    Once(10, t.title != []) + Once(18, t.payload != []) + Times(26, |t.tags|) + Times(34, |t.chunks|)
  }

  lemma {:induction false} PieceTags(t: TextBytes)
    ensures Tags(BytesField(10, t.title)) == Once(10, t.title != [])
    ensures Tags(BytesField(18, t.payload)) == Once(18, t.payload != [])
    ensures Tags(RepeatedField(26, t.tags)) == Times(26, |t.tags|)
    ensures Tags(RepeatedField(34, t.chunks)) == Times(34, |t.chunks|)
  {
    BytesTags(10, t.title);
    BytesTags(18, t.payload);
    RepeatedTags(26, t.tags);
    RepeatedTags(34, t.chunks);
  }

  lemma {:induction false} TagsMean(t: TextBytes)
    ensures Tags(TextBytesRecords(t)) == TextBytesTags(t)
  {
    var title, payload := BytesField(10, t.title), BytesField(18, t.payload);
    var tags, chunks := RepeatedField(26, t.tags), RepeatedField(34, t.chunks);
    TagsAppend(title + payload + tags, chunks);
    TagsAppend(title + payload, tags);
    TagsAppend(title, payload);
    PieceTags(t);
  }

  lemma {:induction false} TagsAscend(t: TextBytes)
    ensures Ascending(TextBytesTags(t))
  {
    var ts := Once(10, t.title != []);
    ThenOnce(ts, 10, 18, t.payload != []);
    Then(ts + Once(18, t.payload != []), 18, 26, |t.tags|);
    Then(ts + Once(18, t.payload != []) + Times(26, |t.tags|), 26, 34, |t.chunks|);
  }

  /** The encoding has these tags, in ascending order. */
  lemma {:induction false} Layout(t: TextBytes)
    requires |Encode(TextBytesRecords(t))| < ADDRESS_SPACE
    ensures var rs := Parse(Encode(TextBytesRecords(t)));
            rs.Some? && Tags(rs.value) == TextBytesTags(t) && Ascending(Tags(rs.value))
  {
    ParseEncode(TextBytesRecords(t));
    TagsMean(t);
    TagsAscend(t);
  }

  /** The loop of `get_size` over a repeated field. */
  method RepeatedSize(tag: u32, items: seq<bytes>) returns (size: nat)
    requires tag % 8 == 2 && tag < 0x80
    ensures size == |Encode(RepeatedField(tag, items))|
  {
    size := 0;
    for i := 0 to |items|
      invariant size + |Encode(RepeatedField(tag, items[i..]))| == |Encode(RepeatedField(tag, items))|
    {
      size := size + (1 + SizeofLen(|items[i]|));
      assert items[i..][1..] == items[i + 1..];
      RecordSize(Tagged(tag, LEN(items[i])));
      EncodeHead([], Tagged(tag, LEN(items[i])), RepeatedField(tag, items[i + 1..]));
    }
  }

  /** The predicted size is the encoded length. */
  method GetSize(t: TextBytes) returns (size: nat)
    ensures size == |Encode(TextBytesRecords(t))|
  {
    size := 0;
    if t.title != [] {
      size := size + (1 + SizeofLen(|t.title|));
    }
    if t.payload != [] {
      size := size + (1 + SizeofLen(|t.payload|));
    }
    var tags := RepeatedSize(26, t.tags);
    var chunks := RepeatedSize(34, t.chunks);
    size := size + tags + chunks;
    var title, payload := BytesField(10, t.title), BytesField(18, t.payload);
    BytesFieldSize(10, t.title);
    BytesFieldSize(18, t.payload);
    EncodeAppend(title + payload + RepeatedField(26, t.tags), RepeatedField(34, t.chunks));
    EncodeAppend(title + payload, RepeatedField(26, t.tags));
    EncodeAppend(title, payload);
  }

  method WriteMessage(t: TextBytes, w: Writer)
    modifies w
    ensures w.buf == old(w.buf) + Encode(TextBytesRecords(t))
  {
    ghost var done := BytesField(10, t.title);
    w.WriteBytesField(10, t.title);
    w.WriteBytesField(18, t.payload);
    Grow(old(w.buf), done, BytesField(18, t.payload));
    done := done + BytesField(18, t.payload);
    w.WriteRepeated(26, t.tags);
    Grow(old(w.buf), done, RepeatedField(26, t.tags));
    done := done + RepeatedField(26, t.tags);
    w.WriteRepeated(34, t.chunks);
    Grow(old(w.buf), done, RepeatedField(34, t.chunks));
  }

  /** `encode_to_vec`: the buffer fills the predicted size exactly and reads back as the message. */
  method EncodeToVec(t: TextBytes) returns (out: bytes, capacity: nat)
    ensures out == Encode(TextBytesRecords(t)) && |out| == capacity
    ensures capacity < ADDRESS_SPACE ==> Decode(out) == Some(t)
    ensures capacity < ADDRESS_SPACE ==> Parse(out).Some? && Ascending(Tags(Parse(out).value))
  {
    capacity := GetSize(t);
    var w := new Writer();
    WriteMessage(t, w);
    out := w.buf;
    ConcatNil(Encode(TextBytesRecords(t)));
    if capacity < ADDRESS_SPACE {
      RoundTrip(t);
      Layout(t);
    }
  }

  /** The arms of the loop's `match`. */
  method ReadArm(r: Reader, input: bytes, m: TextBytes, tag: u32) returns (res: Option<TextBytes>)
    requires r.Valid(input)
    modifies r
    ensures r.Delivers(input, StepAt(Step, m, tag, old(r.Window(input))), res)
  {
    match tag {
      case 10 =>
        LenArm(Step, m, tag, r.Window(input));
        var v :- r.ReadString(input);
        return Some(m.(title := v));
      case 18 =>
        LenArm(Step, m, tag, r.Window(input));
        var v :- r.ReadBytes(input);
        return Some(m.(payload := v));
      case 26 =>
        LenArm(Step, m, tag, r.Window(input));
        var v :- r.ReadString(input);
        return Some(m.(tags := m.tags + [v]));
      case 34 =>
        LenArm(Step, m, tag, r.Window(input));
        var v :- r.ReadBytes(input);
        return Some(m.(chunks := m.chunks + [v]));
      case _ =>
        UnknownArm(Step, m, tag, r.Window(input));
        var _ :- r.ReadUnknown(input, tag);
        return Some(m);
    }
  }

  method FromReader(r: Reader, input: bytes) returns (res: Option<TextBytes>)
    requires r.Valid(input)
    modifies r
    ensures r.Delivers(input, Whole(Decode(old(r.Window(input)))), res)
  {
    ghost var window := r.Window(input);
    var msg := DEFAULT;
    while !r.IsEof()
      invariant r.Valid(input) && old(r.start) <= r.start && r.end == old(r.end)
      invariant Decode(window) == Run(Step, msg, r.Window(input))
      decreases r.end - r.start
    {
      RunStep(Step, msg, r.Window(input));
      var tag :- r.NextTag(input);
      msg :- ReadArm(r, input, msg, tag);
    }
    return Some(msg);
  }
}
