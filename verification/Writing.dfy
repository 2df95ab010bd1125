/** The writer: a growing buffer that every `write_message` appends to. */
module Writing {
  import opened Bytes
  import opened Sequences
  import opened Base128
  import opened Records
  import opened Scalars
  import opened Fields

  class Writer {
    var buf: bytes

    constructor ()
      ensures buf == []
    {
      buf := [];
    }

    /** Seven bits at a time, shifting the value down, until what is left fits one byte. */
    method WriteVarint(n: nat)
      modifies this
      ensures buf == old(buf) + Varint(n)
    {
      var value := n;
      while value >= 0x80
        invariant buf + Varint(value) == old(buf) + Varint(n)
      {
        buf := buf + [value % 0x80 + 0x80];
        value := value / 0x80;
        assert buf + Varint(value) == old(buf) + Varint(n);
      }
      buf := buf + [value];
    }

    /** The bytes of a word, least significant first. */
    method WriteFixed(n: nat, width: nat)
      modifies this
      ensures buf == old(buf) + LittleEndian(n, width)
    {
      var value, left := n, width;
      while left > 0
        invariant buf + LittleEndian(value, left) == old(buf) + LittleEndian(n, width)
      {
        buf := buf + [value % 0x100];
        value, left := value / 0x100, left - 1;
        assert buf + LittleEndian(value, left) == old(buf) + LittleEndian(n, width);
      }
    }

    /** `write_int32`, `write_sint64`, `write_fixed32` and the other scalar writers. */
    method WriteScalar(kind: Kind, v: int)
      requires InRange(kind, v)
      modifies this
      ensures buf == old(buf) + EncodeScalar(kind, v)
    {
      match ToPayload(kind, v) {
        case VARINT(n) => WriteVarint(n);
        case I64(w) => WriteFixed(w, 8);
        case I32(x) => WriteFixed(x, 4);
      }
    }

    /** `write_string` and `write_bytes`. */
    method WriteBytes(data: bytes)
      modifies this
      ensures buf == old(buf) + EncodePayload(LEN(data))
    {
      WriteVarint(|data|);
      buf := buf + data;
      Concat2(old(buf), Varint(|data|), data);
    }

    /** `write_with_tag` around a scalar. */
    method WriteScalarWithTag(tag: u32, kind: Kind, v: int)
      requires InRange(kind, v) && tag % 8 == WireTypeOf(kind)
      modifies this
      ensures buf == old(buf) + EncodeRecord(Tagged(tag, ToPayload(kind, v)))
    {
      WriteVarint(tag);
      WriteScalar(kind, v);
      Concat2(old(buf), Varint(tag), EncodeScalar(kind, v));
    }

    /** `write_with_tag` around a string or bytes. */
    method WriteBytesWithTag(tag: u32, data: bytes)
      requires tag % 8 == 2
      modifies this
      ensures buf == old(buf) + EncodeRecord(Tagged(tag, LEN(data)))
    {
      WriteVarint(tag);
      WriteBytes(data);
      Concat2(old(buf), Varint(tag), EncodePayload(LEN(data)));
    }

    /** A scalar field under its `if v != 0`. */
    method WriteScalarField(tag: u32, kind: Kind, v: int)
      requires InRange(kind, v) && tag % 8 == WireTypeOf(kind)
      modifies this
      ensures buf == old(buf) + Encode(ScalarField(tag, kind, v))
    {
      if v != 0 {
        WriteScalarWithTag(tag, kind, v);
        EncodeOne(Tagged(tag, ToPayload(kind, v)));
      }
    }

    /** A string or bytes field under its `if !data.is_empty()`. */
    method WriteBytesField(tag: u32, data: bytes)
      requires tag % 8 == 2
      modifies this
      ensures buf == old(buf) + Encode(BytesField(tag, data))
    {
      if data != [] {
        WriteBytesWithTag(tag, data);
        EncodeOne(Tagged(tag, LEN(data)));
      }
    }

    /** A packed field under its `if !values.is_empty()`. */
    method WritePackedField(tag: u32, kind: Kind, vs: seq<int>)
      requires AllInRange(kind, vs) && tag % 8 == 2
      modifies this
      ensures buf == old(buf) + Encode(PackedField(tag, kind, vs))
    {
      if vs != [] {
        WritePackedWithTag(tag, kind, vs);
        EncodeOne(Tagged(tag, LEN(Pack(kind, vs))));
      }
    }

    /** A repeated string or bytes field: one record an item. */
    method WriteRepeated(tag: u32, items: seq<bytes>)
      requires tag % 8 == 2
      modifies this
      ensures buf == old(buf) + Encode(RepeatedField(tag, items))
    {
      for i := 0 to |items|
        invariant buf + Encode(RepeatedField(tag, items[i..])) == old(buf) + Encode(RepeatedField(tag, items))
      {
        ghost var before := buf;
        WriteBytesWithTag(tag, items[i]);
        assert items[i..][1..] == items[i + 1..];
        EncodeHead(before, Tagged(tag, LEN(items[i])), RepeatedField(tag, items[i + 1..]));
      }
      ConcatNil(buf);
    }

    /** The elements of a packed record, one after the other. */
    method WriteElements(kind: Kind, vs: seq<int>)
      requires AllInRange(kind, vs)
      modifies this
      ensures buf == old(buf) + Pack(kind, vs)
    {
      for i := 0 to |vs|
        invariant buf + Pack(kind, vs[i..]) == old(buf) + Pack(kind, vs)
      {
        ghost var before := buf;
        WriteScalar(kind, vs[i]);
        assert vs[i..][1..] == vs[i + 1..];
        Concat2(before, EncodeScalar(kind, vs[i]), Pack(kind, vs[i + 1..]));
      }
      ConcatNil(buf);
    }

    /** `write_packed_with_tag`: the tag, the sum of the element sizes, the elements. */
    method WritePackedWithTag(tag: u32, kind: Kind, vs: seq<int>)
      requires AllInRange(kind, vs) && tag % 8 == 2
      modifies this
      ensures buf == old(buf) + EncodeRecord(Tagged(tag, LEN(Pack(kind, vs))))
    {
      var size := SumSizes(kind, vs);
      WriteVarint(tag);
      WriteVarint(size);
      WriteElements(kind, vs);
      Concat3(old(buf), Varint(tag), Varint(size), Pack(kind, vs));
    }
  }

  /** `values.iter().map(size).sum()`: the length of the packed payload. */
  method SumSizes(kind: Kind, vs: seq<int>) returns (size: nat)
    requires AllInRange(kind, vs)
    ensures size == |Pack(kind, vs)|
  {
    size := 0;
    for i := 0 to |vs|
      invariant size + |Pack(kind, vs[i..])| == |Pack(kind, vs)|
    {
      ScalarSize(kind, vs[i]);
      size := size + SizeofScalar(kind, vs[i]);
      assert vs[i..][1..] == vs[i + 1..];
    }
  }
}
