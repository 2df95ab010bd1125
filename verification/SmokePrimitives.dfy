/** The wire primitives of the conformance smoke test, which work on unbounded integers. */
module SmokePrimitives {
  import opened Bytes
  import opened Sequences
  import opened Base128
  import opened Records

  /** What `varint` returns; a negative value does not fit a byte and raises. */
  function VarintOf(value: int): Option<bytes> {
    if value < 0 then None else Some(Varint(value))
  }

  /** `varint`: a negative value skips the loop and fails at the final append. */
  method MakeVarint(value: int) returns (res: Option<bytes>)
    ensures res == VarintOf(value)
  {
    var out: bytes := [];
    var v := value;
    while v >= 0x80
      invariant v < 0 ==> v == value && out == []
      invariant v >= 0 ==> value >= 0 && out + Varint(v) == Varint(value)
    {
      ghost var before := out;
      out := out + [v % 0x80 + 0x80];
      Concat2(before, [v % 0x80 + 0x80], Varint(v / 0x80));
      v := v / 0x80;
    }
    if v < 0 {
      return None;
    }
    out := out + [v];
    return Some(out);
  }

  /** `key`: the number shifted by three, with the wire type in the low bits. */
  function Key(number: int, wireType: nat): Option<bytes>
    requires wireType < 8
  {
    VarintOf(number * 8 + wireType)
  }

  function FieldVarint(number: int, value: int): Option<bytes> {
    var k :- Key(number, 0);
    var v :- VarintOf(value);
    Some(k + v)
  }

  function FieldBytes(number: int, value: bytes): Option<bytes> {
    var k :- Key(number, 2);
    var l :- VarintOf(|value|);
    Some(k + l + value)
  }

  /** The helpers fail exactly on negative arguments. */
  lemma {:induction false} FailsOnNegatives(number: int, value: int, data: bytes)
    ensures FieldVarint(number, value) == None <==> number < 0 || value < 0
    ensures FieldBytes(number, data) == None <==> number < 0
  {
    assert number * 8 >= 0 <==> number >= 0;
  }

  /** On the numbers and values the wire format knows, a helper makes one record. */
  lemma {:induction false} MakesRecords(number: nat, value: u64, data: bytes)
    requires number < 0x2000_0000
    ensures FieldVarint(number, value) == Some(EncodeRecord(Tagged(number * 8, VARINT(value))))
    ensures FieldBytes(number, data) == Some(EncodeRecord(Tagged(number * 8 + 2, LEN(data))))
  {
    Concat2(Varint(number * 8 + 2), Varint(|data|), data);
  }

  /** Joined fields, nested ones included, parse back to the records they were made from. */
  lemma {:induction false} JoinedFieldsRead(outer: nat, inner: nat, value: u64, more: bytes)
    requires outer < 0x2000_0000 && inner < 0x2000_0000
    requires |FieldVarint(inner, value).value| < ADDRESS_SPACE
    ensures var nested := FieldVarint(inner, value).value;
            && GetRecord(FieldBytes(outer, nested).value + more) == Some((Tagged(outer * 8 + 2, LEN(nested)), more))
            && Parse(nested) == Some([Tagged(inner * 8, VARINT(value))])
  {
    var nested := FieldVarint(inner, value).value;
    MakesRecords(inner, value, []);
    MakesRecords(outer, 0, nested);
    RecordRoundTrip(Tagged(outer * 8 + 2, LEN(nested)), more);
    EncodeOne(Tagged(inner * 8, VARINT(value)));
    ParseEncode([Tagged(inner * 8, VARINT(value))]);
  }

  /** Whatever the size of the numbers, key and value read back one after the other, with anything behind them. */
  lemma {:induction false} FieldsReadBack(number: nat, value: nat, data: bytes, rest: bytes, budget: nat)
    requires |FieldVarint(number, value).value| <= budget && |FieldBytes(number, data).value| <= budget
    ensures GetVarint(FieldVarint(number, value).value + rest, budget) == Some((number * 8, Varint(value) + rest))
    ensures GetVarint(Varint(value) + rest, budget) == Some((value, rest))
    ensures GetVarint(FieldBytes(number, data).value + rest, budget)
         == Some((number * 8 + 2, Varint(|data|) + (data + rest)))
    ensures GetVarint(Varint(|data|) + (data + rest), budget) == Some((|data|, data + rest))
  {
    Concat2(Varint(number * 8), Varint(value), rest);
    VarintRoundTrip(number * 8, budget, Varint(value) + rest);
    VarintRoundTrip(value, budget, rest);
    Concat3(Varint(number * 8 + 2), Varint(|data|), data, rest);
    VarintRoundTrip(number * 8 + 2, budget, Varint(|data|) + (data + rest));
    VarintRoundTrip(|data|, budget, data + rest);
  }

  /**
   No field is a proper prefix of another, whichever helpers made the two: for all numbers, values
   and data, also those beyond the wire format.
   */
  lemma {:induction false} FieldsPrefixFree(a: nat, x: nat, c: bytes, b: nat, y: nat, d: bytes)
    ensures FieldVarint(a, x).value <= FieldVarint(b, y).value <==> a == b && x == y
    ensures FieldBytes(a, c).value <= FieldBytes(b, d).value <==> a == b && c == d
    ensures !(FieldVarint(a, x).value <= FieldBytes(b, d).value)
    ensures !(FieldBytes(a, c).value <= FieldVarint(b, y).value)
  {
    VarintsPrefixFree(a, x, b, y);
    BytesPrefixFree(a, c, b, d);
    KeysDiffer(a, x, b, d);
    KeysDiffer(b, y, a, c);
  }

  lemma {:induction false} VarintsPrefixFree(a: nat, x: nat, b: nat, y: nat)
    ensures FieldVarint(a, x).value <= FieldVarint(b, y).value <==> a == b && x == y
  {
    if FieldVarint(a, x).value <= FieldVarint(b, y).value {
      VarintSplits(a * 8, Varint(x), b * 8, Varint(y));
      VarintPrefixFree(x, y);
    }
  }

  lemma {:induction false} BytesPrefixFree(a: nat, c: bytes, b: nat, d: bytes)
    ensures FieldBytes(a, c).value <= FieldBytes(b, d).value <==> a == b && c == d
  {
    Concat2(Varint(a * 8 + 2), Varint(|c|), c);
    Concat2(Varint(b * 8 + 2), Varint(|d|), d);
    if FieldBytes(a, c).value <= FieldBytes(b, d).value {
      VarintSplits(a * 8 + 2, Varint(|c|) + c, b * 8 + 2, Varint(|d|) + d);
      LenPrefixFree(c, d);
    }
  }

  /** The wire type in the key tells the two helpers apart. */
  lemma {:induction false} KeysDiffer(a: nat, x: nat, b: nat, d: bytes)
    ensures !(FieldVarint(a, x).value <= FieldBytes(b, d).value)
    ensures !(FieldBytes(b, d).value <= FieldVarint(a, x).value)
  {
    Concat2(Varint(b * 8 + 2), Varint(|d|), d);
    if FieldVarint(a, x).value <= FieldBytes(b, d).value {
      VarintSplits(a * 8, Varint(x), b * 8 + 2, Varint(|d|) + d);
    }
    if FieldBytes(b, d).value <= FieldVarint(a, x).value {
      VarintSplits(b * 8 + 2, Varint(|d|) + d, a * 8, Varint(x));
    }
  }
}
