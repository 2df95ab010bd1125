/** Which byte strings are UTF-8: exactly the concatenated encodings of Unicode scalar values. */
module Utf8 {
  import opened Bytes
  import opened Sequences

  /** A Unicode scalar value: a code point that is not a surrogate. */
  type scalar = c: int | 0 <= c < 0xD800 || 0xE000 <= c < 0x11_0000

  /** The encoding form of section 3.9 of the Unicode Standard: six payload bits a trailing byte. */
  function EncodeChar(c: scalar): (s: bytes)
    ensures s != []
  {
    if c < 0x80 then [c]
    else if c < 0x800 then [0xC0 + c / 0x40, 0x80 + c % 0x40]
    else if c < 0x1_0000 then [0xE0 + c / 0x1000, 0x80 + c / 0x40 % 0x40, 0x80 + c % 0x40]
    else [0xF0 + c / 0x4_0000, 0x80 + c / 0x1000 % 0x40, 0x80 + c / 0x40 % 0x40, 0x80 + c % 0x40]
  }

  function EncodeChars(cs: seq<scalar>): bytes {
    if cs == [] then [] else EncodeChar(cs[0]) + EncodeChars(cs[1..])
  }

  /** A character at the front of what is left is recognised, with its length. */
  lemma {:induction false} CharRecognised(s: bytes, i: nat, c: scalar)
    requires i <= |s| && EncodeChar(c) <= s[i..]
    ensures i < |s| && CharWidth(s, i) == |EncodeChar(c)|
  {
    var e := EncodeChar(c);
    assert forall k :: 0 <= k < |e| ==> s[i + k] == s[i..][k] == e[k];
    if c < 0x80 {
    } else if c < 0x800 {
    } else if c < 0x1_0000 {
      assert s[i + 1] == e[1] && s[i + 2] == e[2];
    } else {
      assert s[i + 1] == e[1] && s[i + 2] == e[2] && s[i + 3] == e[3];
    }
  }

  lemma {:induction false} Digit(high: int, low: int)
    requires 0 <= low < 0x40
    ensures (high * 0x40 + low) / 0x40 == high && (high * 0x40 + low) % 0x40 == low
  {
  }

  lemma {:induction false} Shift(c: nat, unit: nat)
    requires unit == 0x40 || unit == 0x1000
    ensures c / (unit * 0x40) == c / 0x40 / unit
  {
  }

  lemma {:induction false} TwoBytes(a: int, x: int)
    requires 2 <= a < 0x20 && 0 <= x < 0x40
    ensures EncodeChar(a * 0x40 + x) == [0xC0 + a, 0x80 + x]
  {
    Digit(a, x);
  }

  lemma {:induction false} ThreeBytes(a: int, x: int, y: int)
    requires 0 <= a < 0x10 && 0 <= x < 0x40 && 0 <= y < 0x40
    requires (a == 0 ==> x >= 0x20) && (a == 0xD ==> x < 0x20)
    ensures EncodeChar((a * 0x40 + x) * 0x40 + y) == [0xE0 + a, 0x80 + x, 0x80 + y]
  {
    Digit(a, x);
    Digit(a * 0x40 + x, y);
    Shift((a * 0x40 + x) * 0x40 + y, 0x40);
  }

  lemma {:induction false} FourBytes(a: int, x: int, y: int, z: int)
    requires 0 <= a < 5 && 0 <= x < 0x40 && 0 <= y < 0x40 && 0 <= z < 0x40
    requires (a == 0 ==> x >= 0x10) && (a == 4 ==> x < 0x10)
    ensures EncodeChar(((a * 0x40 + x) * 0x40 + y) * 0x40 + z) == [0xF0 + a, 0x80 + x, 0x80 + y, 0x80 + z]
  {
    var two := a * 0x40 + x;
    var three := two * 0x40 + y;
    Digit(a, x);
    Digit(two, y);
    Digit(three, z);
    Shift(three * 0x40 + z, 0x40);
    Shift(three * 0x40 + z, 0x1000);
  }

  /** What is recognised is a character. */
  lemma {:induction false} CharDecodes(s: bytes, i: nat) returns (c: scalar)
    requires i < |s| && CharWidth(s, i) > 0
    ensures EncodeChar(c) == s[i..i + CharWidth(s, i)]
  {
    var lead: int := s[i];
    if CharWidth(s, i) == 1 {
      return s[i];
    }
    var x: int := s[i + 1] - 0x80;
    if CharWidth(s, i) == 2 {
      assert s[i..i + 2] == [s[i], s[i + 1]];
      TwoBytes(lead - 0xC0, x);
      return (lead - 0xC0) * 0x40 + x;
    }
    var y: int := s[i + 2] - 0x80;
    if CharWidth(s, i) == 3 {
      assert s[i..i + 3] == [s[i], s[i + 1], s[i + 2]];
      ThreeBytes(lead - 0xE0, x, y);
      return ((lead - 0xE0) * 0x40 + x) * 0x40 + y;
    }
    var z: int := s[i + 3] - 0x80;
    assert s[i..i + 4] == [s[i], s[i + 1], s[i + 2], s[i + 3]];
    FourBytes(lead - 0xF0, x, y, z);
    return (((lead - 0xF0) * 0x40 + x) * 0x40 + y) * 0x40 + z;
  }

  lemma {:induction false} Advance(s: bytes, i: nat, e: bytes, more: bytes)
    requires i <= |s| && s[i..] == e + more
    ensures e <= s[i..] && i + |e| <= |s| && s[i + |e|..] == more
  {
    TakeDrop(e, more);
    assert s[i + |e|..] == s[i..][|e|..];
  }

  lemma {:induction false} EncodedIsValid(cs: seq<scalar>, s: bytes, i: nat)
    requires i <= |s| && s[i..] == EncodeChars(cs)
    ensures Utf8From(s, i)
    decreases |cs|
  {
    if cs != [] {
      var e, more := EncodeChar(cs[0]), EncodeChars(cs[1..]);
      Advance(s, i, e, more);
      CharRecognised(s, i, cs[0]);
      EncodedIsValid(cs[1..], s, i + |e|);
    }
  }

  lemma {:induction false} ValidIsEncoded(s: bytes, i: nat) returns (cs: seq<scalar>)
    requires i <= |s| && Utf8From(s, i)
    ensures s[i..] == EncodeChars(cs)
    decreases |s| - i
  {
    if i == |s| {
      cs := [];
    } else {
      var n := CharWidth(s, i);
      var c := CharDecodes(s, i);
      var rest := ValidIsEncoded(s, i + n);
      cs := [c] + rest;
      HeadTail(c, rest);
      assert s[i..] == s[i..i + n] + s[i + n..];
    }
  }

  /** The byte test accepts the encodings of scalar values and nothing else. */
  lemma {:induction false} ValidUtf8Means(s: bytes)
    ensures ValidUtf8(s) <==> exists cs :: s == EncodeChars(cs)
  {
    assert s[0..] == s;
    if ValidUtf8(s) {
      var cs := ValidIsEncoded(s, 0);
      assert s == EncodeChars(cs);
    }
    if cs :| s == EncodeChars(cs) {
      EncodedIsValid(cs, s, 0);
    }
  }
}
