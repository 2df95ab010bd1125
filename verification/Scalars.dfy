/** The scalar field types: which payload holds a value, what a payload reads as, and its size. */
module Scalars {
  import opened Bytes
  import opened Sequences
  import opened Base128
  import opened Records
  import ZigZag

  datatype Kind =
    | Int32 | Int64 | UInt32 | UInt64 | SInt32 | SInt64 | Bool | Enum
    | Fixed32 | Fixed64 | SFixed32 | SFixed64 | Float | Double

  /** The values of the Rust type behind a kind. Floats are their IEEE 754 bit patterns. */
  predicate InRange(kind: Kind, v: int) {
    match kind
    case Int32 | SInt32 | Enum | SFixed32 => -0x8000_0000 <= v < 0x8000_0000
    case Int64 | SInt64 | SFixed64 => -0x8000_0000_0000_0000 <= v < 0x8000_0000_0000_0000
    case UInt32 | Fixed32 | Float => 0 <= v < 0x1_0000_0000
    case UInt64 | Fixed64 | Double => 0 <= v < 0x1_0000_0000_0000_0000
    case Bool => 0 <= v < 2
  }

  function WireTypeOf(kind: Kind): nat {
    match kind
    case Fixed32 | SFixed32 | Float => 5
    case Fixed64 | SFixed64 | Double => 1
    case _ => 0
  }

  /** Two's complement: negative values wrap to the top of the unsigned range. */
  function Unsigned32(v: int): u32 {
    v % 0x1_0000_0000
  }

  function Unsigned64(v: int): u64 {
    v % 0x1_0000_0000_0000_0000
  }

  function Signed32(n: u32): i32 {
    if n < 0x8000_0000 then n else n - 0x1_0000_0000
  }

  function Signed64(n: u64): i64 {
    if n < 0x8000_0000_0000_0000 then n else n - 0x1_0000_0000_0000_0000
  }

  /** What is written for a value. Negative `int32` and enum values are sign-extended to 64 bits. */
  function ToPayload(kind: Kind, v: int): (p: Payload)
    requires InRange(kind, v)
    ensures WireType(p) == WireTypeOf(kind)
  {
    match kind
    case Int32 | Int64 | Enum => VARINT(Unsigned64(v))
    case UInt32 | UInt64 | Bool => VARINT(v)
    case SInt32 | SInt64 => VARINT(ZigZag.Interleave(v))
    case Fixed32 | Float => I32(v)
    case SFixed32 => I32(Unsigned32(v))
    case Fixed64 | Double => I64(v)
    case SFixed64 => I64(Unsigned64(v))
  }

  /** What a payload reads as; 32-bit kinds keep the low 32 bits of a varint. */
  function FromPayload(kind: Kind, p: Payload): (v: int)
    requires WireType(p) == WireTypeOf(kind)
    ensures InRange(kind, v)
  {
    match kind
    case Int32 | Enum => Signed32(p.n % 0x1_0000_0000)
    case Int64 => Signed64(p.n)
    case UInt32 => p.n % 0x1_0000_0000
    case UInt64 => p.n
    case SInt32 => ZigZag.Decode(p.n % 0x1_0000_0000)
    case SInt64 => ZigZag.Decode(p.n)
    case Bool => if p.n != 0 then 1 else 0
    case Fixed32 | Float => p.x
    case SFixed32 => Signed32(p.x)
    case Fixed64 | Double => p.w
    case SFixed64 => Signed64(p.w)
  }

  /** `sizeof_int32`, `sizeof_sint32` and the rest; the fixed kinds have constant size. */
  function SizeofScalar(kind: Kind, v: int): nat
    requires InRange(kind, v)
  {
    match kind
    case Int32 | Int64 | Enum => SizeofVarint(Unsigned64(v))
    case UInt32 | UInt64 => SizeofVarint(v)
    case SInt32 => ZigZag.SizeofSint32(v)
    case SInt64 => ZigZag.SizeofSint64(v)
    case Bool => 1
    case Fixed32 | SFixed32 | Float => 4
    case Fixed64 | SFixed64 | Double => 8
  }

  function EncodeScalar(kind: Kind, v: int): bytes
    requires InRange(kind, v)
  {
    EncodePayload(ToPayload(kind, v))
  }

  /** Every value of every kind is recovered. */
  lemma {:induction false} ScalarRoundTrip(kind: Kind, v: int)
    requires InRange(kind, v)
    ensures FromPayload(kind, ToPayload(kind, v)) == v
  {
    match kind
    case Int32 | Enum => WrapUnwrap(v, 0);
    case SFixed32 => WrapUnwrap(v, 0);
    case Int64 | SFixed64 => WrapUnwrap(0, v);
    case SInt32 | SInt64 => InterleaveFits(v);
    case _ =>
  }

  /** Sign extension to 64 bits and truncation to 32 keep a 32-bit value. */
  lemma {:induction false} WrapUnwrap(v: i32, w: i64)
    ensures Signed32(Unsigned64(v) % 0x1_0000_0000) == v
    ensures Signed32(Unsigned32(v)) == v
    ensures Signed64(Unsigned64(w)) == w
  {
  }

  lemma {:induction false} InterleaveFits(v: i64)
    ensures ZigZag.Interleave(v) < 0x1_0000_0000_0000_0000
    ensures -0x8000_0000 <= v < 0x8000_0000 ==> ZigZag.Interleave(v) % 0x1_0000_0000 == ZigZag.Interleave(v)
    ensures ZigZag.Decode(ZigZag.Interleave(v)) == v
  {
  }

  /** The predicted size is the written size. */
  lemma {:induction false} ScalarSize(kind: Kind, v: int)
    requires InRange(kind, v)
    ensures |EncodeScalar(kind, v)| == SizeofScalar(kind, v)
  {
    match kind
    case SInt32 => ZigZag.SizeofSintIsLength(v, 0);
    case SInt64 => ZigZag.SizeofSintIsLength(0, v);
    case _ =>
  }

  /** A negative `int32` takes ten bytes, a non-negative one at most five. */
  lemma {:induction false} Int32Size(v: i32)
    ensures v < 0 ==> SizeofScalar(Int32, v) == 10
    ensures v >= 0 ==> SizeofScalar(Int32, v) <= 5
  {
    Varint64Length(Unsigned64(v));
    VarintLength(Unsigned64(v), 9);
    assert Pow128(9) == 0x80 * 0x80 * 0x80 * 0x80 * Pow128(5);
    assert Pow128(5) == 0x80 * 0x80 * 0x80 * 0x80 * 0x80;
  }

  /**
   What a payload denotes as a value of a kind: the value in range that agrees with it modulo the
   width of the kind, is its zig-zag preimage, or tells zero from the rest.
   */
  predicate Denotes(kind: Kind, p: Payload, v: int) {
    InRange(kind, v) && WireType(p) == WireTypeOf(kind) &&
    match kind
    case Int32 | Enum | UInt32 => (v - p.n) % 0x1_0000_0000 == 0
    case Int64 | UInt64 => (v - p.n) % 0x1_0000_0000_0000_0000 == 0
    case SInt32 => ZigZag.Interleave(v) == p.n % 0x1_0000_0000
    case SInt64 => ZigZag.Interleave(v) == p.n
    case Bool => v == 1 <==> p.n != 0
    case Fixed32 | SFixed32 | Float => (v - p.x) % 0x1_0000_0000 == 0
    case Fixed64 | SFixed64 | Double => (v - p.w) % 0x1_0000_0000_0000_0000 == 0
  }

  /** Every payload denotes one value, the one that is read, canonical or not. */
  lemma {:induction false} DenotesMeans(kind: Kind, p: Payload, v: int)
    requires WireType(p) == WireTypeOf(kind)
    ensures Denotes(kind, p, v) <==> v == FromPayload(kind, p)
  {
    match p
    case VARINT(n) => DenotesVarint(kind, n, v);
    case I32(x) => Word32(v, x);
    case I64(w) => Word64(v, w);
  }

  lemma {:induction false} DenotesVarint(kind: Kind, n: u64, v: int)
    requires WireTypeOf(kind) == 0
    ensures Denotes(kind, VARINT(n), v) <==> v == FromPayload(kind, VARINT(n))
  {
    match kind
    case Int32 | Enum | UInt32 => Word32(v, n);
    case Int64 | UInt64 => Word64(v, n);
    case SInt32 => ZigZagDenotes(n % 0x1_0000_0000, v);
    case SInt64 => ZigZagDenotes(n, v);
    case Bool =>
  }

  /** The value that is read is one that the payload denotes, and there is no other. */
  lemma {:induction false} OnlyDenotes(kind: Kind, p: Payload)
    requires WireType(p) == WireTypeOf(kind)
    ensures Denotes(kind, p, FromPayload(kind, p))
    ensures forall v :: Denotes(kind, p, v) ==> v == FromPayload(kind, p)
  {
    DenotesMeans(kind, p, FromPayload(kind, p));
    forall v | Denotes(kind, p, v)
      ensures v == FromPayload(kind, p)
    {
      DenotesMeans(kind, p, v);
    }
  }

  /** Residues determine the values of a signed and of an unsigned word. */
  lemma {:induction false} Word32(v: int, n: nat)
    ensures -0x8000_0000 <= v < 0x8000_0000 ==>
              ((v - n) % 0x1_0000_0000 == 0 <==> v == Signed32(n % 0x1_0000_0000))
    ensures 0 <= v < 0x1_0000_0000 ==> ((v - n) % 0x1_0000_0000 == 0 <==> v == n % 0x1_0000_0000)
  {
  }

  lemma {:induction false} Word64(v: int, n: u64)
    ensures -0x8000_0000_0000_0000 <= v < 0x8000_0000_0000_0000 ==>
              ((v - n) % 0x1_0000_0000_0000_0000 == 0 <==> v == Signed64(n))
    ensures 0 <= v < 0x1_0000_0000_0000_0000 ==> ((v - n) % 0x1_0000_0000_0000_0000 == 0 <==> v == n)
  {
  }

  lemma {:induction false} ZigZagDenotes(n: nat, v: int)
    ensures ZigZag.Interleave(v) == n <==> v == ZigZag.Decode(n)
  {
  }

  /** What is written for a value: 64-bit two's complement for the signed varint kinds. */
  lemma {:induction false} WrittenAs(kind: Kind, v: int)
    requires InRange(kind, v)
    ensures kind in {Int32, Int64, Enum} ==> (ToPayload(kind, v).n - v) % 0x1_0000_0000_0000_0000 == 0
    ensures kind in {UInt32, UInt64, Bool} ==> ToPayload(kind, v).n == v
  {
    if kind in {Int32, Int64, Enum} {
      Wrapped(v);
    }
  }

  lemma {:induction false} ZigZagWrittenAs(v: i32, w: i64)
    ensures ZigZag.Fits(v, 32) && ToPayload(SInt32, v).n == ZigZag.Encode(v, 32)
    ensures ZigZag.Fits(w, 64) && ToPayload(SInt64, w).n == ZigZag.Encode(w, 64)
  {
    ZigZag.Pow2Values();
    ZigZag.EncodeValue(v, 32);
    ZigZag.EncodeValue(w, 64);
  }

  lemma {:induction false} Wrapped(v: int)
    ensures (Unsigned64(v) - v) % 0x1_0000_0000_0000_0000 == 0
  {
  }

  // ------------------------------------------------------------------- packed

  predicate AllInRange(kind: Kind, vs: seq<int>) {
    forall i :: 0 <= i < |vs| ==> InRange(kind, vs[i])
  }

  /** A packed record's payload: the elements without tags. */
  function Pack(kind: Kind, vs: seq<int>): bytes
    requires AllInRange(kind, vs)
  {
    if vs == [] then [] else EncodeScalar(kind, vs[0]) + Pack(kind, vs[1..])
  }

  function GetScalar(kind: Kind, s: bytes): (r: Option<(int, bytes)>)
    ensures r.Some? ==> |r.value.1| < |s| && InRange(kind, r.value.0)
  {
    match GetPayload(WireTypeOf(kind), s)
    case None => None
    case Some((p, rest)) => Some((FromPayload(kind, p), rest))
  }

  function Unpack(kind: Kind, s: bytes): (r: Option<seq<int>>)
    ensures r.Some? ==> AllInRange(kind, r.value)
    decreases |s|
  {
    if s == [] then Some([])
    else
      match GetScalar(kind, s)
      case None => None
      case Some((v, rest)) =>
        match Unpack(kind, rest)
        case None => None
        case Some(vs) => Some([v] + vs)
  }

  /** Unpacking, element by element: every payload of the kind's wire type counts, canonical or not. */
  lemma {:induction false} UnpackMeans(kind: Kind, s: bytes)
    ensures s == [] ==> Unpack(kind, s) == Some([])
    ensures s != [] ==>
              match GetPayload(WireTypeOf(kind), s)
              case None => Unpack(kind, s) == None
              case Some((p, rest)) =>
                forall v :: Denotes(kind, p, v) ==>
                  match Unpack(kind, rest)
                  case None => Unpack(kind, s) == None
                  case Some(vs) => Unpack(kind, s) == Some([v] + vs)
  {
    if s != [] && GetPayload(WireTypeOf(kind), s).Some? {
      OnlyDenotes(kind, GetPayload(WireTypeOf(kind), s).value.0);
    }
  }

  /** The elements stand in the order of the list. */
  lemma {:induction false} PackAppend(kind: Kind, vs: seq<int>, ws: seq<int>)
    requires AllInRange(kind, vs) && AllInRange(kind, ws)
    ensures Pack(kind, vs + ws) == Pack(kind, vs) + Pack(kind, ws)
    ensures |vs| == 1 ==> Pack(kind, vs) == EncodePayload(ToPayload(kind, vs[0]))
  {
    if vs == [] {
      ConcatNil(ws);
    } else {
      TailOfConcat(vs, ws);
      PackAppend(kind, vs[1..], ws);
      Concat2(EncodeScalar(kind, vs[0]), Pack(kind, vs[1..]), Pack(kind, ws));
    }
  }

  lemma {:induction false} PackNonEmpty(kind: Kind, vs: seq<int>)
    requires AllInRange(kind, vs) && vs != []
    ensures Pack(kind, vs) != []
  {
    assert EncodeScalar(kind, vs[0]) != [];
  }

  /** Lists of any length, of any kind, are recovered exactly. */
  lemma {:induction false} PackRoundTrip(kind: Kind, vs: seq<int>)
    requires AllInRange(kind, vs)
    ensures Unpack(kind, Pack(kind, vs)) == Some(vs)
  {
    if vs != [] {
      var s := Pack(kind, vs);
      PayloadRoundTrip(ToPayload(kind, vs[0]), Pack(kind, vs[1..]));
      ScalarRoundTrip(kind, vs[0]);
      PackNonEmpty(kind, vs);
      assert GetScalar(kind, s) == Some((vs[0], Pack(kind, vs[1..])));
      PackRoundTrip(kind, vs[1..]);
      assert [vs[0]] + vs[1..] == vs;
    }
  }
}
