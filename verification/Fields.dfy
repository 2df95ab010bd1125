/** The shapes of fields: elided defaults and repeated values. */
module Fields {
  import opened Bytes
  import opened Sequences
  import opened Base128
  import opened Records
  import opened Scalars

  /** A scalar field is written unless it is zero. */
  function ScalarField(tag: u32, kind: Kind, v: int): seq<Record>
    requires InRange(kind, v) && tag % 8 == WireTypeOf(kind)
  {
    if v != 0 then [Tagged(tag, ToPayload(kind, v))] else []
  }

  /** A string or bytes field is written unless it is empty. */
  function BytesField(tag: u32, data: bytes): seq<Record>
    requires tag % 8 == 2
  {
    if data != [] then [Tagged(tag, LEN(data))] else []
  }

  /** A packed field is written unless the list is empty. */
  function PackedField(tag: u32, kind: Kind, vs: seq<int>): seq<Record>
    requires AllInRange(kind, vs) && tag % 8 == 2
  {
    if vs != [] then [Tagged(tag, LEN(Pack(kind, vs)))] else []
  }

  /** A repeated string or bytes field: one record an element. */
  function RepeatedField(tag: u32, items: seq<bytes>): seq<Record>
    requires tag % 8 == 2
  {
    if items == [] then [] else [Tagged(tag, LEN(items[0]))] + RepeatedField(tag, items[1..])
  }

  /** More records behind those already in a buffer. */
  lemma {:induction false} Grow(base: bytes, rs: seq<Record>, qs: seq<Record>)
    ensures base + Encode(rs) + Encode(qs) == base + Encode(rs + qs)
  {
    EncodeAppend(rs, qs);
    Concat2(base, Encode(rs), Encode(qs));
  }

  /** A list of records, from its first. */
  lemma {:induction false} EncodeHead(base: bytes, r: Record, rs: seq<Record>)
    ensures base + Encode([r] + rs) == base + EncodeRecord(r) + Encode(rs)
    ensures |Encode([r] + rs)| == |EncodeRecord(r)| + |Encode(rs)|
  {
    assert ([r] + rs)[1..] == rs;
    Concat2(base, EncodeRecord(r), Encode(rs));
  }

  /** `1 + sizeof`: a tag below 128 is one byte long. */
  lemma {:induction false} RecordSize(r: Record)
    requires r.tag < 0x80
    ensures |EncodeRecord(r)| == 1 + |EncodePayload(r.payload)|
    ensures r.payload.LEN? ==> |EncodePayload(r.payload)| == SizeofLen(|r.payload.data|)
  {
  }

  lemma {:induction false} RecordLonger(tag: u32, data: bytes)
    requires tag % 8 == 2
    ensures |data| < |EncodeRecord(Tagged(tag, LEN(data)))|
  {
  }

  lemma {:induction false} ScalarFieldSize(tag: u32, kind: Kind, v: int)
    requires InRange(kind, v) && tag % 8 == WireTypeOf(kind) && tag < 0x80
    ensures |Encode(ScalarField(tag, kind, v))| == if v != 0 then 1 + SizeofScalar(kind, v) else 0
  {
    if v != 0 {
      EncodeOne(Tagged(tag, ToPayload(kind, v)));
      RecordSize(Tagged(tag, ToPayload(kind, v)));
      ScalarSize(kind, v);
    }
  }

  lemma {:induction false} BytesFieldSize(tag: u32, data: bytes)
    requires tag % 8 == 2 && tag < 0x80
    ensures |Encode(BytesField(tag, data))| == if data != [] then 1 + SizeofLen(|data|) else 0
  {
    if data != [] {
      EncodeOne(Tagged(tag, LEN(data)));
      RecordSize(Tagged(tag, LEN(data)));
    }
  }

  lemma {:induction false} PackedFieldSize(tag: u32, kind: Kind, vs: seq<int>)
    requires AllInRange(kind, vs) && tag % 8 == 2 && tag < 0x80
    ensures |Encode(PackedField(tag, kind, vs))| == if vs != [] then 1 + SizeofLen(|Pack(kind, vs)|) else 0
  {
    if vs != [] {
      EncodeOne(Tagged(tag, LEN(Pack(kind, vs))));
      RecordSize(Tagged(tag, LEN(Pack(kind, vs))));
    }
  }

  /** No record is longer than the encoding it is part of. */
  lemma {:induction false} RecordFits(rs: seq<Record>, i: nat)
    requires i < |rs|
    ensures |EncodeRecord(rs[i])| <= |Encode(rs)|
    ensures rs[i].payload.LEN? ==> |rs[i].payload.data| < |Encode(rs)|
  {
    if i > 0 {
      RecordFits(rs[1..], i - 1);
    }
  }
}
