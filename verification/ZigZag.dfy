/** The zig-zag map on `w`-bit signed integers, bit by bit as the code computes it. */
module ZigZag {
  import opened Bytes
  import opened Base128

  const INT_BITS := 32
  const LONG_BITS := 64

  function Pow2(w: nat): (r: nat)
    ensures r >= 1
  {
    if w == 0 then 1 else 2 * Pow2(w - 1)
  }

  lemma {:induction false} Pow2Add(a: nat, b: nat)
    ensures Pow2(a + b) == Pow2(a) * Pow2(b)
  {
    if a > 0 {
      Pow2Add(a - 1, b);
    }
  }

  lemma {:induction false} Pow2Values()
    ensures Pow2(31) == 0x8000_0000
    ensures Pow2(32) == 0x1_0000_0000
    ensures Pow2(63) == 0x8000_0000_0000_0000
    ensures Pow2(64) == 0x1_0000_0000_0000_0000
  {
    assert Pow2(8) == 0x100;
    Pow2Add(8, 7);
    Pow2Add(8, 8);
    Pow2Add(16, 15);
    Pow2Add(16, 16);
    Pow2Add(32, 31);
    Pow2Add(32, 32);
  }

  /** The `w`-bit two's complement word of an integer. */
  function Word(v: int, w: nat): (r: nat)
    ensures r < Pow2(w)
  {
    v % Pow2(w)
  }

  /** Exclusive or of two `w`-bit words. */
  function Xor(a: nat, b: nat, w: nat): (r: nat)
    ensures r < Pow2(w)
  {
    if w == 0 then 0 else (a % 2 + b % 2) % 2 + 2 * Xor(a / 2, b / 2, w - 1)
  }

  predicate Fits(v: int, w: nat) {
    w >= 1 && 0 - Pow2(w - 1) <= v < Pow2(w - 1)
  }

  /** `((v << 1) ^ (v >> (w - 1)))` on a `w`-bit signed integer: the left shift drops the top
      bit and the right shift copies the sign. */
  function Encode(v: int, w: nat): (r: nat)
    requires Fits(v, w)
    ensures r < Pow2(w)
  {
    Xor(Word(2 * v, w), Word(v / Pow2(w - 1), w), w)
  }

  /** What the trick computes: the two signs interleaved, small magnitudes first. */
  function Interleave(v: int): nat {
    if v >= 0 then 2 * v else -2 * v - 1
  }

  /** The inverse: even words are the non-negative integers, odd ones the negative. */
  function Decode(n: nat): int {
    if n % 2 == 0 then n / 2 else -(n / 2) - 1
  }

  lemma {:induction false} XorZero(a: nat, w: nat)
    requires a < Pow2(w)
    ensures Xor(a, 0, w) == a
  {
    if w > 0 {
      XorZero(a / 2, w - 1);
    }
  }

  lemma {:induction false} Halves(h: nat)
    ensures (2 * h + 1) % 2 == 1 && (2 * h + 1) / 2 == h
  {
  }

  /** Flipping the lowest bit and all the others. */
  lemma {:induction false} FlipBit(a: nat, p: nat)
    ensures (a % 2 + 1) % 2 + 2 * (p - 1 - a / 2) == 2 * p - 1 - a
  {
  }

  lemma {:induction false} XorOnes(a: nat, w: nat)
    requires a < Pow2(w)
    ensures Xor(a, Pow2(w) - 1, w) == Pow2(w) - 1 - a
  {
    if w > 0 {
      Halves(Pow2(w - 1) - 1);
      XorOnes(a / 2, w - 1);
      FlipBit(a, Pow2(w - 1));
    }
  }

  /** The word of a negative integer wraps to the top of the range. */
  lemma {:induction false} WordOf(v: int, w: nat)
    ensures 0 <= v < Pow2(w) ==> Word(v, w) == v
    ensures 0 - Pow2(w) <= v < 0 ==> Word(v, w) == v + Pow2(w)
  {
    var p := Pow2(w);
    if 0 <= v < p {
      ModIs(v, p, 0, v);
    } else if 0 - p <= v < 0 {
      ModIs(v, p, -1, v + p);
    }
  }

  lemma {:induction false} ModIs(v: int, p: int, q: int, r: int)
    requires p > 0 && v == q * p + r && 0 <= r < p
    ensures v % p == r && v / p == q
  {
    var d := v / p - q;
    assert v == v / p * p + v % p;
    assert d * p == r - v % p;
    MulBound(d, p);
  }

  lemma {:induction false} MulBound(d: int, p: int)
    requires p > 0
    ensures d >= 1 ==> d * p >= p
    ensures d <= -1 ==> d * p <= -p
  {
  }

  /** The bit trick interleaves the two signs. */
  lemma {:induction false} EncodeValue(v: int, w: nat)
    requires Fits(v, w)
    ensures Encode(v, w) == Interleave(v)
  {
    var half := Pow2(w - 1);
    if v >= 0 {
      ModIs(v, half, 0, v);
      WordOf(2 * v, w);
      WordOf(0, w);
      XorZero(2 * v, w);
    } else {
      ModIs(v, half, -1, v + half);
      WordOf(2 * v, w);
      WordOf(-1, w);
      XorOnes(2 * v + Pow2(w), w);
    }
  }

  /** Together with `EncodeDecode`: a bijection between the signed and the unsigned `w`-bit integers. */
  lemma {:induction false} DecodeEncode(v: int, w: nat)
    requires Fits(v, w)
    ensures Decode(Encode(v, w)) == v
  {
    EncodeValue(v, w);
    DecodeInterleave(v);
  }

  lemma {:induction false} DecodeInterleave(v: int)
    ensures Decode(Interleave(v)) == v
  {
  }

  lemma {:induction false} EncodeDecode(n: nat, w: nat)
    requires n < Pow2(w) && w >= 1
    ensures Fits(Decode(n), w) && Encode(Decode(n), w) == n
  {
    DecodeFits(n, w);
    EncodeValue(Decode(n), w);
  }

  lemma {:induction false} DecodeFits(n: nat, w: nat)
    requires n < Pow2(w) && w >= 1
    ensures Fits(Decode(n), w)
    ensures n == Interleave(Decode(n))
  {
    assert Pow2(w) == 2 * Pow2(w - 1);
  }

  function Magnitude(v: int): nat {
    if v >= 0 then v else -v - 1
  }

  /** `sizeof_sint32`. */
  function SizeofSint32(v: i32): (size: nat) {
    Pow2Values();
    SizeofVarint(Encode(v, INT_BITS))
  }

  /** `sizeof_sint64`. */
  function SizeofSint64(v: i64): (size: nat) {
    Pow2Values();
    SizeofVarint(Encode(v, LONG_BITS))
  }

  /** The size computed through the trick is the length of the varint that is written. */
  lemma {:induction false} SizeofSintIsLength(v: i32, w: i64)
    ensures SizeofSint32(v) == |Varint(Interleave(v))|
    ensures SizeofSint64(w) == |Varint(Interleave(w))|
  {
    Pow2Values();
    EncodeValue(v, INT_BITS);
    EncodeValue(w, LONG_BITS);
  }

  /** The two signs of one magnitude are encoded next to each other and take equally many bytes. */
  lemma {:induction false} PairSize(m: nat)
    ensures SizeofVarint(2 * m) == SizeofVarint(2 * m + 1)
  {
    assert 2 * m / 0x80 == (2 * m + 1) / 0x80;
  }

  lemma {:induction false} EncodeSize(v: int, w: nat)
    requires Fits(v, w)
    ensures SizeofVarint(Encode(v, w)) == SizeofVarint(2 * Magnitude(v))
  {
    EncodeValue(v, w);
    PairSize(Magnitude(v));
  }

  /** Small magnitudes take few bytes, whatever their sign. */
  lemma {:induction false} SizeofSintMonotone(a: i32, b: i32, c: i64, d: i64)
    ensures SizeofSint32(a) <= 5 && SizeofSint64(c) <= 10
    ensures Magnitude(a) <= Magnitude(b) ==> SizeofSint32(a) <= SizeofSint32(b)
    ensures Magnitude(c) <= Magnitude(d) ==> SizeofSint64(c) <= SizeofSint64(d)
  {
    Pow2Values();
    EncodeSize(a, INT_BITS);
    EncodeSize(b, INT_BITS);
    EncodeSize(c, LONG_BITS);
    EncodeSize(d, LONG_BITS);
    Varint64Length(Encode(a, INT_BITS));
    Varint64Length(Encode(c, LONG_BITS));
    if Magnitude(a) <= Magnitude(b) {
      SizeofVarintMonotone(2 * Magnitude(a), 2 * Magnitude(b));
    }
    if Magnitude(c) <= Magnitude(d) {
      SizeofVarintMonotone(2 * Magnitude(c), 2 * Magnitude(d));
    }
  }
}
