/** Base 128 varints: the encoding, its decoder and its size. */
module Base128 {
  import opened Bytes
  import opened Sequences

  /** Seven bits a byte, least significant group first, the top bit set on all but the last. */
  function Varint(n: nat): (s: bytes)
    ensures |s| >= 1
  {
    if n < 0x80 then [n] else [n % 0x80 + 0x80] + Varint(n / 0x80)
  }

  /** The longest varint a reader accepts. */
  const MAX_VARINT := 10

  /** Reads a varint of at most `budget` bytes; returns its value and what follows it. */
  function GetVarint(s: bytes, budget: nat): (r: Option<(nat, bytes)>)
    ensures r.Some? ==> |r.value.1| < |s|
  {
    if s == [] || budget == 0 then None
    else if s[0] < 0x80 then Some((s[0], s[1..]))
    else
      match GetVarint(s[1..], budget - 1)
      case None => None
      case Some((high, rest)) => Some((s[0] - 0x80 + 0x80 * high, rest))
  }

  /** Reads a 64-bit varint, dropping the bits beyond the 64th. */
  function GetVarint64(s: bytes): (r: Option<(u64, bytes)>)
    ensures r.Some? ==> |r.value.1| < |s|
  {
    match GetVarint(s, MAX_VARINT)
    case None => None
    case Some((n, rest)) => Some((n % 0x1_0000_0000_0000_0000, rest))
  }

  /** `sizeof_varint`: the number of seven-bit groups. */
  function SizeofVarint(n: nat): (size: nat)
    ensures size == |Varint(n)|
  {
    if n < 0x80 then 1 else 1 + SizeofVarint(n / 0x80)
  }

  /** `sizeof_len`: a length-delimited payload with its prefix. */
  function SizeofLen(length: nat): nat {
    SizeofVarint(length) + length
  }

  function Pow128(k: nat): (r: nat)
    ensures r >= 1
  {
    if k == 0 then 1 else 0x80 * Pow128(k - 1)
  }

  /** The length of an encoding, exactly. */
  lemma {:induction false} VarintLength(n: nat, k: nat)
    requires k >= 1
    ensures |Varint(n)| <= k <==> n < Pow128(k)
  {
    if k == 1 {
      assert Pow128(1) == 0x80 * Pow128(0);
    } else {
      assert Pow128(k) == 0x80 * Pow128(k - 1);
      assert Pow128(k - 1) == 0x80 * Pow128(k - 2);
      if n >= 0x80 {
        VarintLength(n / 0x80, k - 1);
      }
    }
  }

  lemma {:induction false} Varint64Length(n: nat)
    ensures n < 0x1_0000_0000_0000_0000 ==> |Varint(n)| <= 10
    ensures n < 0x1_0000_0000 ==> |Varint(n)| <= 5
  {
    VarintLength(n, 10);
    VarintLength(n, 5);
    assert Pow128(5) == 0x80 * 0x80 * 0x80 * 0x80 * 0x80;
    assert Pow128(10) == 0x80 * 0x80 * 0x80 * 0x80 * 0x80 * Pow128(5);
  }

  lemma {:induction false} SizeofVarintMonotone(a: nat, b: nat)
    requires a <= b
    ensures SizeofVarint(a) <= SizeofVarint(b)
  {
    if a >= 0x80 {
      SizeofVarintMonotone(a / 0x80, b / 0x80);
    }
  }

  /** Reading an encoding gives the value back and leaves whatever follows untouched. */
  lemma {:induction false} VarintRoundTrip(n: nat, budget: nat, rest: bytes)
    requires |Varint(n)| <= budget
    ensures GetVarint(Varint(n) + rest, budget) == Some((n, rest))
  {
    var s := Varint(n) + rest;
    if n < 0x80 {
      assert s[1..] == rest;
    } else {
      assert s[1..] == Varint(n / 0x80) + rest;
      VarintRoundTrip(n / 0x80, budget - 1, rest);
    }
  }

  lemma {:induction false} Varint64RoundTrip(n: u64, rest: bytes)
    ensures GetVarint64(Varint(n) + rest) == Some((n, rest))
  {
    Varint64Length(n);
    VarintRoundTrip(n, MAX_VARINT, rest);
    Untruncated(Varint(n) + rest, n, rest);
  }

  lemma {:induction false} Untruncated(s: bytes, n: u64, rest: bytes)
    requires GetVarint(s, MAX_VARINT) == Some((n, rest))
    ensures GetVarint64(s) == Some((n, rest))
  {
  }

  /** No other byte string that reads as `n` is shorter. */
  lemma {:induction false} VarintShortest(s: bytes, n: nat, budget: nat)
    requires GetVarint(s, budget) == Some((n, []))
    ensures |Varint(n)| <= |s|
  {
    if s[0] >= 0x80 {
      var high := GetVarint(s[1..], budget - 1).value.0;
      VarintShortest(s[1..], high, budget - 1);
      assert n / 0x80 == high;
    }
  }

  /** Even with bytes behind them, one encoding is never mistaken for another. */
  lemma {:induction false} VarintSplits(a: nat, x: bytes, b: nat, y: bytes)
    requires Varint(a) + x <= Varint(b) + y
    ensures a == b && x <= y
  {
    var more := (Varint(b) + y)[|Varint(a) + x|..];
    assert Varint(b) + y == Varint(a) + x + more;
    Concat2(Varint(a), x, more);
    var budget := |Varint(a)| + |Varint(b)|;
    VarintRoundTrip(a, budget, x + more);
    VarintRoundTrip(b, budget, y);
  }

  /** The code is prefix-free. */
  lemma {:induction false} VarintPrefixFree(a: nat, b: nat)
    requires Varint(a) <= Varint(b)
    ensures a == b
  {
    ConcatNil(Varint(a));
    ConcatNil(Varint(b));
    VarintSplits(a, [], b, []);
  }

  /** What follows an input does not change what is read from it. */
  lemma {:induction false} GetVarintExtends(s: bytes, budget: nat, more: bytes)
    requires GetVarint(s, budget).Some?
    ensures GetVarint(s + more, budget)
         == Some((GetVarint(s, budget).value.0, GetVarint(s, budget).value.1 + more))
  {
    assert (s + more)[1..] == s[1..] + more;
    if s[0] >= 0x80 {
      GetVarintExtends(s[1..], budget - 1, more);
    }
  }

  /** The last byte of the varint at the front of `s`: the first below 0x80. */
  predicate Ends(s: bytes, k: nat) {
    k < |s| && s[k] < 0x80 && forall i :: 0 <= i < k ==> s[i] >= 0x80
  }

  /** The digit of weight 128^i. */
  function Digit(n: nat, i: nat): (d: nat)
    ensures d < 0x80
  {
    if i == 0 then n % 0x80 else Digit(n / 0x80, i - 1)
  }

  /** The bytes up to `k` hold the digits of `n`, lowest first. */
  predicate Spells(s: bytes, k: nat, n: nat) {
    && k < |s| && n < Pow128(k + 1)
    && forall i :: 0 <= i <= k ==> Digit(n, i) == s[i] % 0x80
  }

  lemma {:induction false} SpellsMore(s: bytes, k: nat, high: nat)
    requires k > 0 && s != [] && Spells(s[1..], k - 1, high)
    ensures Spells(s, k, s[0] % 0x80 + 0x80 * high)
  {
    var n := s[0] % 0x80 + 0x80 * high;
    assert n / 0x80 == high && n % 0x80 == s[0] % 0x80;
    forall i | 0 < i <= k
      ensures Digit(n, i) == s[i] % 0x80
    {
      assert s[i] == s[1..][i - 1];
    }
  }

  lemma {:induction false} EndsLater(s: bytes, k: nat)
    requires Ends(s, k) && k > 0
    ensures s[0] >= 0x80 && Ends(s[1..], k - 1) && s[1..][k..] == s[k + 1..]
  {
  }

  /**
   What a varint is, byte by byte: it reads exactly if a byte below 0x80 comes in time, takes the
   bytes up to and including that one, and these spell its value.
   */
  lemma {:induction false} VarintMeans(s: bytes, budget: nat, k: nat)
    requires Ends(s, k)
    ensures GetVarint(s, budget).Some? <==> k < budget
    ensures k < budget ==>
              var (n, rest) := GetVarint(s, budget).value;
              rest == s[k + 1..] && Spells(s, k, n)
  {
    if k == 0 {
      assert Pow128(1) == 0x80 * Pow128(0);
    } else if budget > 0 {
      EndsLater(s, k);
      VarintMeans(s[1..], budget - 1, k - 1);
      if k < budget {
        SpellsMore(s, k, GetVarint(s[1..], budget - 1).value.0);
      }
    }
  }

  /** Without such a byte there is nothing to read. */
  lemma {:induction false} VarintUnended(s: bytes, budget: nat)
    requires forall i :: 0 <= i < |s| ==> s[i] >= 0x80
    ensures GetVarint(s, budget) == None
  {
    if s != [] && budget > 0 {
      VarintUnended(s[1..], budget - 1);
    }
  }

  /** The 64-bit reader accepts ten bytes and keeps the low 64 bits of what they spell. */
  lemma {:induction false} Varint64Means(s: bytes, k: nat)
    requires Ends(s, k)
    ensures GetVarint64(s).Some? <==> k < 10
    ensures k < 10 ==>
              var (n, rest) := GetVarint64(s).value;
              rest == s[k + 1..] && exists all: nat :: Spells(s, k, all) && n == all % 0x1_0000_0000_0000_0000
  {
    VarintMeans(s, 10, k);
    if k < 10 {
      assert Spells(s, k, GetVarint(s, 10).value.0);
    }
  }

  /** Bytes spell one number only. */
  lemma {:induction false} SpellsOne(s: bytes, k: nat, n: nat, m: nat)
    requires Spells(s, k, n) && Spells(s, k, m)
    ensures n == m
  {
    if k == 0 {
      assert Pow128(1) == 0x80 * Pow128(0);
      assert Digit(n, 0) == Digit(m, 0);
    } else {
      SpellsFewer(s, k, n);
      SpellsFewer(s, k, m);
      SpellsOne(s[1..], k - 1, n / 0x80, m / 0x80);
    }
  }

  lemma {:induction false} SpellsFewer(s: bytes, k: nat, n: nat)
    requires Spells(s, k, n) && k > 0
    ensures n % 0x80 == s[0] % 0x80 && Spells(s[1..], k - 1, n / 0x80)
  {
    assert Digit(n, 0) == s[0] % 0x80;
    assert Pow128(k + 1) == 0x80 * Pow128(k);
    forall i | 0 <= i < k
      ensures Digit(n / 0x80, i) == s[1..][i] % 0x80
    {
      assert Digit(n, i + 1) == s[i + 1] % 0x80;
    }
  }
}
