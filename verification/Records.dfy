/** Records, the unit every encoded message is made of: a tag and a payload. */
module Records {
  import opened Bytes
  import opened Sequences
  import opened Base128

  /** A payload, one case for each wire type the decoders accept. */
  datatype Payload =
    | VARINT(n: u64)
    | I64(w: u64)
    | LEN(data: bytes)
    | I32(x: u32)

  function WireType(p: Payload): (wt: nat)
    ensures wt < 8
  {
    match p
    case VARINT(_) => 0
    case I64(_) => 1
    case LEN(_) => 2
    case I32(_) => 5
  }

  /** The low three bits of a tag are its wire type. */
  datatype TaggedPayload = Tagged(tag: u32, payload: Payload)
  type Record = r: TaggedPayload | r.tag % 8 == WireType(r.payload) witness Tagged(0, VARINT(0))

  function LittleEndian(n: nat, width: nat): (s: bytes)
    ensures |s| == width
  {
    if width == 0 then [] else [n % 0x100] + LittleEndian(n / 0x100, width - 1)
  }

  function FromLittleEndian(s: bytes): nat {
    if s == [] then 0 else s[0] + 0x100 * FromLittleEndian(s[1..])
  }

  function Pow256(k: nat): (r: nat)
    ensures r >= 1
  {
    if k == 0 then 1 else 0x100 * Pow256(k - 1)
  }

  lemma {:induction false} Pow256Values()
    ensures Pow256(4) == 0x1_0000_0000 && Pow256(8) == 0x1_0000_0000_0000_0000
  {
    assert Pow256(4) == 0x1_0000 * Pow256(2);
    assert Pow256(8) == 0x1_0000_0000 * Pow256(4) by {
      assert Pow256(8) == 0x1_0000 * Pow256(6);
      assert Pow256(6) == 0x1_0000 * Pow256(4);
    }
  }

  lemma {:induction false} FromLittleEndianBound(s: bytes)
    ensures FromLittleEndian(s) < Pow256(|s|)
  {
    if s != [] {
      FromLittleEndianBound(s[1..]);
    }
  }

  lemma {:induction false} LittleEndianRoundTrip(n: nat, width: nat)
    requires n < Pow256(width)
    ensures FromLittleEndian(LittleEndian(n, width)) == n
  {
    if width > 0 {
      LittleEndianRoundTrip(n / 0x100, width - 1);
      assert LittleEndian(n, width)[1..] == LittleEndian(n / 0x100, width - 1);
    }
  }

  /** The byte of weight 256^i. */
  function Octet(n: nat, i: nat): byte {
    if i == 0 then n % 0x100 else Octet(n / 0x100, i - 1)
  }

  /** Fixed-width words are written lowest byte first. */
  lemma {:induction false} LittleEndianAt(n: nat, width: nat, i: nat)
    requires i < width
    ensures LittleEndian(n, width)[i] == Octet(n, i)
  {
    if i > 0 {
      LittleEndianAt(n / 0x100, width - 1, i - 1);
    }
  }

  lemma {:induction false} LittleEndianOnto(s: bytes)
    ensures LittleEndian(FromLittleEndian(s), |s|) == s
  {
    if s != [] {
      LittleEndianOnto(s[1..]);
      var n := FromLittleEndian(s);
      assert n % 0x100 == s[0] && n / 0x100 == FromLittleEndian(s[1..]);
    }
  }

  function EncodePayload(p: Payload): bytes {
    match p
    case VARINT(n) => Varint(n)
    case I64(w) => LittleEndian(w, 8)
    case LEN(data) => Varint(|data|) + data
    case I32(x) => LittleEndian(x, 4)
  }

  function EncodeRecord(r: Record): (s: bytes)
    ensures s != []
  {
    Varint(r.tag) + EncodePayload(r.payload)
  }

  /** The encoding of a message: its records one after the other. */
  function Encode(rs: seq<Record>): bytes {
    if rs == [] then [] else EncodeRecord(rs[0]) + Encode(rs[1..])
  }

  function GetI32(s: bytes): Option<(u32, bytes)> {
    if |s| < 4 then None
    else
      FromLittleEndianBound(s[..4]);
      Pow256Values();
      Some((FromLittleEndian(s[..4]), s[4..]))
  }

  function GetI64(s: bytes): Option<(u64, bytes)> {
    if |s| < 8 then None
    else
      FromLittleEndianBound(s[..8]);
      Pow256Values();
      Some((FromLittleEndian(s[..8]), s[8..]))
  }

  /** A length prefix and as many bytes as it announces. */
  function GetLen(s: bytes): (r: Option<(bytes, bytes)>)
    ensures r.Some? ==> |r.value.0| + |r.value.1| < |s|
  {
    match GetVarint64(s)
    case None => None
    case Some((length, rest)) =>
      if length > |rest| then None else Some((rest[..length], rest[length..]))
  }

  /** The low 32 bits of a varint. */
  function GetTag(s: bytes): (r: Option<(u32, bytes)>)
    ensures r.Some? ==> |r.value.1| < |s|
  {
    match GetVarint64(s)
    case None => None
    case Some((n, rest)) => Some((n % 0x1_0000_0000, rest))
  }

  /** Groups (wire types 3 and 4) and the unassigned wire types 6 and 7 are errors. */
  function GetPayload(wireType: nat, s: bytes): (r: Option<(Payload, bytes)>)
    ensures r.Some? ==> |r.value.1| <= |s| && WireType(r.value.0) == wireType
  {
    match wireType
    case 0 => var (n, rest) :- GetVarint64(s); Some((VARINT(n), rest))
    case 1 => var (w, rest) :- GetI64(s); Some((I64(w), rest))
    case 2 => var (data, rest) :- GetLen(s); Some((LEN(data), rest))
    case 5 => var (x, rest) :- GetI32(s); Some((I32(x), rest))
    case _ => None
  }

  function GetRecord(s: bytes): (r: Option<(Record, bytes)>)
    ensures r.Some? ==> |r.value.1| < |s|
  {
    match GetTag(s)
    case None => None
    case Some((tag, s1)) =>
      match GetPayload(tag % 8, s1)
      case None => None
      case Some((p, s2)) => Some((Tagged(tag, p), s2))
  }

  /** All the records of an input, or `None` when it is not a sequence of records. */
  function Parse(s: bytes): Option<seq<Record>>
    decreases |s|
  {
    if s == [] then Some([])
    else
      match GetRecord(s)
      case None => None
      case Some((r, rest)) => Prepend([r], Parse(rest))
  }

  function Prepend(rs: seq<Record>, more: Option<seq<Record>>): Option<seq<Record>> {
    match more
    case None => None
    case Some(qs) => Some(rs + qs)
  }

  // ---------------------------------------------------------------- round trips

  lemma {:induction false} I32RoundTrip(x: u32, rest: bytes)
    ensures GetI32(LittleEndian(x, 4) + rest) == Some((x, rest))
  {
    TakeDrop(LittleEndian(x, 4), rest);
    Pow256Values();
    LittleEndianRoundTrip(x, 4);
  }

  lemma {:induction false} I64RoundTrip(w: u64, rest: bytes)
    ensures GetI64(LittleEndian(w, 8) + rest) == Some((w, rest))
  {
    TakeDrop(LittleEndian(w, 8), rest);
    Pow256Values();
    LittleEndianRoundTrip(w, 8);
  }

  lemma {:induction false} GetLenIs(s: bytes, length: u64, tail: bytes)
    requires GetVarint64(s) == Some((length, tail)) && length <= |tail|
    ensures GetLen(s) == Some((tail[..length], tail[length..]))
  {
  }

  lemma {:induction false} LenRoundTrip(data: bytes, rest: bytes)
    requires |data| < ADDRESS_SPACE
    ensures GetLen(Varint(|data|) + data + rest) == Some((data, rest))
  {
    Concat2(Varint(|data|), data, rest);
    Varint64RoundTrip(|data|, data + rest);
    GetLenIs(Varint(|data|) + (data + rest), |data|, data + rest);
    TakeDrop(data, rest);
  }

  lemma {:induction false} PayloadRoundTrip(p: Payload, rest: bytes)
    requires p.LEN? ==> |p.data| < ADDRESS_SPACE
    ensures GetPayload(WireType(p), EncodePayload(p) + rest) == Some((p, rest))
  {
    match p
    case VARINT(n) => Varint64RoundTrip(n, rest);
    case I64(w) => I64RoundTrip(w, rest);
    case LEN(data) => LenRoundTrip(data, rest);
    case I32(x) => I32RoundTrip(x, rest);
  }

  lemma {:induction false} RecordRoundTrip(r: Record, rest: bytes)
    requires r.payload.LEN? ==> |r.payload.data| < ADDRESS_SPACE
    ensures GetRecord(EncodeRecord(r) + rest) == Some((r, rest))
  {
    Concat2(Varint(r.tag), EncodePayload(r.payload), rest);
    Varint64RoundTrip(r.tag, EncodePayload(r.payload) + rest);
    PayloadRoundTrip(r.payload, rest);
  }

  /** A length-delimited payload marks its own end. */
  lemma {:induction false} LenPrefixFree(a: bytes, b: bytes)
    requires Varint(|a|) + a <= Varint(|b|) + b
    ensures a == b
  {
    VarintSplits(|a|, a, |b|, b);
  }

  lemma {:induction false} WordPrefixFree(a: nat, b: nat, width: nat)
    requires a < Pow256(width) && b < Pow256(width)
    requires LittleEndian(a, width) <= LittleEndian(b, width)
    ensures a == b
  {
    LittleEndianRoundTrip(a, width);
    LittleEndianRoundTrip(b, width);
    assert LittleEndian(a, width) == LittleEndian(b, width);
  }

  lemma {:induction false} PayloadPrefixFree(a: Payload, b: Payload)
    requires WireType(a) == WireType(b) && EncodePayload(a) <= EncodePayload(b)
    ensures a == b
  {
    Pow256Values();
    match a
    case VARINT(n) => VarintPrefixFree(n, b.n);
    case I64(w) => WordPrefixFree(w, b.w, 8);
    case LEN(data) => LenPrefixFree(data, b.data);
    case I32(x) => WordPrefixFree(x, b.x, 4);
  }

  /** No encoded record is a proper prefix of another. */
  lemma {:induction false} RecordPrefixFree(a: Record, b: Record)
    ensures EncodeRecord(a) <= EncodeRecord(b) <==> a == b
  {
    if EncodeRecord(a) <= EncodeRecord(b) {
      VarintSplits(a.tag, EncodePayload(a.payload), b.tag, EncodePayload(b.payload));
      PayloadPrefixFree(a.payload, b.payload);
    }
  }

  lemma {:induction false} ParseEncode(rs: seq<Record>)
    requires |Encode(rs)| < ADDRESS_SPACE
    ensures Parse(Encode(rs)) == Some(rs)
  {
    if rs != [] {
      RecordRoundTrip(rs[0], Encode(rs[1..]));
      ParseEncode(rs[1..]);
      assert [rs[0]] + rs[1..] == rs;
    }
  }

  lemma {:induction false} EncodeAppend(rs: seq<Record>, qs: seq<Record>)
    ensures Encode(rs + qs) == Encode(rs) + Encode(qs)
  {
    if rs == [] {
      assert rs + qs == qs;
    } else {
      TailOfConcat(rs, qs);
      EncodeAppend(rs[1..], qs);
      Concat2(EncodeRecord(rs[0]), Encode(rs[1..]), Encode(qs));
    }
  }

  lemma {:induction false} EncodeOne(r: Record)
    ensures Encode([r]) == EncodeRecord(r)
  {
    assert [r][1..] == [];
    assert EncodeRecord(r) + [] == EncodeRecord(r);
  }

  // --------------------------------------------------------------- containment

  lemma {:induction false} GetVarintSuffix(s: bytes, budget: nat)
    requires GetVarint(s, budget).Some?
    ensures var rest := GetVarint(s, budget).value.1; rest == s[|s| - |rest|..]
  {
    if s[0] >= 0x80 {
      GetVarintSuffix(s[1..], budget - 1);
    }
  }

  /**
   A nested read takes exactly the bytes its length prefix declares, and fails if and only if the
   prefix is unreadable or declares more than the window holds.
   */
  lemma {:induction false} NestedContained(s: bytes)
    ensures GetLen(s).Some? <==> GetVarint64(s).Some? && GetVarint64(s).value.0 <= |GetVarint64(s).value.1|
    ensures GetLen(s).Some? ==>
              var (data, rest) := GetLen(s).value;
              && |data| == GetVarint64(s).value.0
              && |data| + |rest| < |s|
              && data + rest == s[|s| - |data| - |rest|..]
  {
    if GetLen(s).Some? {
      GetVarintSuffix(s, MAX_VARINT);
    }
  }

  /** A fixed-width read takes the word at the front, and fails only where the input is too short for it. */
  lemma {:induction false} FixedMeans(s: bytes, x: u32, w: u64, rest: bytes)
    ensures GetI32(s) == Some((x, rest)) <==> s == LittleEndian(x, 4) + rest
    ensures GetI64(s) == Some((w, rest)) <==> s == LittleEndian(w, 8) + rest
    ensures (GetI32(s).Some? <==> |s| >= 4) && (GetI64(s).Some? <==> |s| >= 8)
  {
    I32RoundTrip(x, rest);
    I64RoundTrip(w, rest);
    if |s| >= 4 {
      LittleEndianOnto(s[..4]);
      assert s == s[..4] + s[4..];
    }
    if |s| >= 8 {
      LittleEndianOnto(s[..8]);
      assert s == s[..8] + s[8..];
    }
  }

  /** The wire types that are read, and as what; no other is. */
  lemma {:induction false} PayloadMeans(wireType: nat, s: bytes)
    ensures GetPayload(wireType, s).Some? <==>
              match wireType
              case 0 => GetVarint64(s).Some?
              case 1 => |s| >= 8
              case 2 => GetLen(s).Some?
              case 5 => |s| >= 4
              case _ => false
    ensures GetPayload(wireType, s).Some? ==>
              var (p, rest) := GetPayload(wireType, s).value;
              && WireType(p) == wireType
              && match p
                 case VARINT(n) => GetVarint64(s) == Some((n, rest))
                 case I64(w) => s == LittleEndian(w, 8) + rest
                 case LEN(data) => GetLen(s) == Some((data, rest))
                 case I32(x) => s == LittleEndian(x, 4) + rest
  {
    if wireType == 1 && GetI64(s).Some? {
      FixedMeans(s, 0, GetI64(s).value.0, GetI64(s).value.1);
    }
    if wireType == 5 && GetI32(s).Some? {
      FixedMeans(s, GetI32(s).value.0, 0, GetI32(s).value.1);
    }
  }

  /**
   A record is read exactly if its tag is and its payload is; the tag is the low 32 bits of a varint
   and its low three bits choose the payload.
   */
  lemma {:induction false} RecordMeans(s: bytes)
    ensures GetVarint64(s).None? ==> GetRecord(s).None?
    ensures GetVarint64(s).Some? ==>
              var (n, s1) := GetVarint64(s).value;
              && (GetRecord(s).Some? <==> GetPayload(n % 8, s1).Some?)
              && (GetRecord(s).Some? ==>
                    var (r, rest) := GetRecord(s).value;
                    r.tag == n % 0x1_0000_0000 && GetPayload(n % 8, s1) == Some((r.payload, rest)))
  {
    if GetVarint64(s).Some? {
      LowBits(GetVarint64(s).value.0);
    }
  }

  lemma {:induction false} LowBits(n: nat)
    ensures n % 0x1_0000_0000 % 8 == n % 8
  {
  }

  // ------------------------------------------------------------- concatenation

  lemma {:induction false} GetVarint64Extends(s: bytes, more: bytes)
    requires GetVarint64(s).Some?
    ensures GetVarint64(s + more) == Some((GetVarint64(s).value.0, GetVarint64(s).value.1 + more))
  {
    GetVarintExtends(s, MAX_VARINT, more);
  }

  lemma {:induction false} GetPayloadExtends(wireType: nat, s: bytes, more: bytes)
    requires GetPayload(wireType, s).Some?
    ensures GetPayload(wireType, s + more)
         == Some((GetPayload(wireType, s).value.0, GetPayload(wireType, s).value.1 + more))
  {
    match wireType
    case 0 => GetVarint64Extends(s, more);
    case 1 => assert (s + more)[..8] == s[..8] && (s + more)[8..] == s[8..] + more;
    case 2 =>
      GetVarint64Extends(s, more);
      var (length, rest) := GetVarint64(s).value;
      assert (rest + more)[..length] == rest[..length] && (rest + more)[length..] == rest[length..] + more;
    case 5 => assert (s + more)[..4] == s[..4] && (s + more)[4..] == s[4..] + more;
  }

  lemma {:induction false} GetRecordExtends(s: bytes, more: bytes)
    requires GetRecord(s).Some?
    ensures GetRecord(s + more) == Some((GetRecord(s).value.0, GetRecord(s).value.1 + more))
  {
    GetVarint64Extends(s, more);
    var (tag, rest) := GetTag(s).value;
    GetPayloadExtends(tag % 8, rest, more);
  }

  /** A complete input followed by any bytes: the records of the one, then those of the other. */
  lemma {:induction false} ParseConcat(xs: bytes, ys: bytes)
    requires Parse(xs).Some?
    ensures Parse(xs + ys) == Prepend(Parse(xs).value, Parse(ys))
    decreases |xs|
  {
    if xs == [] {
      assert xs + ys == ys;
      assert Parse(ys).Some? ==> [] + Parse(ys).value == Parse(ys).value;
    } else {
      GetRecordExtends(xs, ys);
      var (r, rest) := GetRecord(xs).value;
      ParseConcat(rest, ys);
      if Parse(ys).Some? {
        assert [r] + (Parse(rest).value + Parse(ys).value) == ([r] + Parse(rest).value) + Parse(ys).value;
      }
    }
  }
}
