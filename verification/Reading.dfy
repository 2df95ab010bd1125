/** The reader: a position and a limit in an input; nested reads lower the limit for a while. */
module Reading {
  import opened Bytes
  import opened Base128
  import opened Records
  import opened Scalars
  import opened Folding

  class Reader {
    var start: nat
    var end: nat

    /** `from_bytes`. */
    constructor (input: bytes)
      ensures start == 0 && end == |input|
    {
      start, end := 0, |input|;
    }

    ghost predicate Valid(input: bytes)
      reads this
    {
      start <= end <= |input|
    }

    /** What is left to read below the limit. */
    ghost function Window(input: bytes): bytes
      reads this
      requires Valid(input)
    {
      input[start..end]
    }

    /**
     The outcome of one read: a value and the rest of the window, as the functional reader says,
     under the same limit; or a failure. Either way the reader has not moved backwards, nor its
     limit up.
     */
    twostate predicate Delivers<T(!new)>(input: bytes, new expected: Option<(T, bytes)>, new res: Option<T>)
      reads this
    {
      && Valid(input) && old(start) <= start && end <= old(end)
      && match expected
         case None => res == None
         case Some((v, rest)) => res == Some(v) && Window(input) == rest && end == old(end)
    }

    predicate IsEof()
      reads this
    {
      start == end
    }

    method ReadVarint(input: bytes) returns (res: Option<u64>)
      requires Valid(input)
      modifies this
      ensures Delivers(input, GetVarint64(old(Window(input))), res)
    {
      var n :- ReadGroups(input, MAX_VARINT);
      return Some(n % 0x1_0000_0000_0000_0000);
    }

    /** The seven-bit groups of a varint: the first byte, then the higher groups if it announces any. */
    method ReadGroups(input: bytes, budget: nat) returns (res: Option<nat>)
      requires Valid(input)
      modifies this
      ensures Delivers(input, GetVarint(old(Window(input)), budget), res)
      decreases budget
    {
      if IsEof() || budget == 0 {
        return None;
      }
      var b: int := input[start];
      start := start + 1;
      assert old(Window(input))[0] == b && old(Window(input))[1..] == Window(input);
      if b < 0x80 {
        return Some(b);
      }
      var high :- ReadGroups(input, budget - 1);
      return Some(b - 0x80 + 0x80 * high);
    }

    method NextTag(input: bytes) returns (res: Option<u32>)
      requires Valid(input)
      modifies this
      ensures Delivers(input, GetTag(old(Window(input))), res)
    {
      var n :- ReadVarint(input);
      return Some(n % 0x1_0000_0000);
    }

    method ReadI32(input: bytes) returns (res: Option<u32>)
      requires Valid(input)
      modifies this
      ensures Delivers(input, GetI32(old(Window(input))), res)
    {
      if end - start < 4 {
        return None;
      }
      FromLittleEndianBound(input[start..start + 4]);
      Pow256Values();
      assert Window(input)[..4] == input[start..start + 4] && Window(input)[4..] == input[start + 4..end];
      start := start + 4;
      return Some(FromLittleEndian(input[start - 4..start]));
    }

    method ReadI64(input: bytes) returns (res: Option<u64>)
      requires Valid(input)
      modifies this
      ensures Delivers(input, GetI64(old(Window(input))), res)
    {
      if end - start < 8 {
        return None;
      }
      FromLittleEndianBound(input[start..start + 8]);
      Pow256Values();
      assert Window(input)[..8] == input[start..start + 8] && Window(input)[8..] == input[start + 8..end];
      start := start + 8;
      return Some(FromLittleEndian(input[start - 8..start]));
    }

    /** `read_int32`, `read_sint64`, `read_fixed32` and the other scalar readers. */
    method ReadScalar(input: bytes, kind: Kind) returns (res: Option<int>)
      requires Valid(input)
      modifies this
      ensures Delivers(input, GetScalar(kind, old(Window(input))), res)
    {
      match WireTypeOf(kind) {
        case 5 =>
          var x :- ReadI32(input);
          return Some(FromPayload(kind, I32(x)));
        case 1 =>
          var w :- ReadI64(input);
          return Some(FromPayload(kind, I64(w)));
        case _ =>
          var n :- ReadVarint(input);
          return Some(FromPayload(kind, VARINT(n)));
      }
    }

    /**
     Opens a nested read: takes a length and lowers the limit to the end of that many bytes.
     Returns the outer limit, for `Leave`.
     */
    method Enter(input: bytes) returns (outer: Option<nat>)
      requires Valid(input)
      modifies this
      ensures Valid(input) && old(start) <= start && end <= old(end)
      ensures match GetLen(old(Window(input)))
              case None => outer == None
              case Some((data, rest)) =>
                && outer == Some(old(end)) && Window(input) == data && input[end..old(end)] == rest
    {
      var length :- ReadVarint(input);
      if length > end - start {
        return None;
      }
      outer := Some(end);
      ghost var w := Window(input);
      end := start + length;
      assert w[..length] == Window(input) && w[length..] == input[end..old(end)];
    }

    /** Closes a nested read: goes on behind it, under the outer limit. */
    method Leave(ghost input: bytes, outer: nat)
      requires Valid(input) && end <= outer <= |input|
      modifies this
      ensures Valid(input) && end == outer
      ensures start == old(end) && Window(input) == input[old(end)..outer]
    {
      start, end := end, outer;
    }

    /** `read_bytes`. */
    method ReadBytes(input: bytes) returns (res: Option<bytes>)
      requires Valid(input)
      modifies this
      ensures Delivers(input, GetLen(old(Window(input))), res)
    {
      var outer :- Enter(input);
      res := Some(input[start..end]);
      Leave(input, outer);
    }

    /** `read_string`: bytes that must be UTF-8. */
    method ReadString(input: bytes) returns (res: Option<text>)
      requires Valid(input)
      modifies this
      ensures Delivers(input, GetText(old(Window(input))), res)
    {
      var data :- ReadBytes(input);
      if !ValidUtf8(data) {
        return None;
      }
      return Some(data);
    }

    /** `read_packed`: elements up to the end of the nested window. */
    method ReadPacked(input: bytes, kind: Kind) returns (res: Option<seq<int>>)
      requires Valid(input)
      modifies this
      ensures Delivers(input, GetPacked(kind, old(Window(input))), res)
      ensures res.Some? ==> AllInRange(kind, res.value)
    {
      var outer :- Enter(input);
      var vs :- ReadElements(input, kind);
      Leave(input, outer);
      return Some(vs);
    }

    method ReadElements(input: bytes, kind: Kind) returns (res: Option<seq<int>>)
      requires Valid(input)
      modifies this
      ensures Delivers(input, Whole(Unpack(kind, old(Window(input)))), res)
      ensures res.Some? ==> AllInRange(kind, res.value)
    {
      ghost var data := Window(input);
      var vs: seq<int> := [];
      OntoNil(Unpack(kind, data));
      while !IsEof()
        invariant Valid(input) && old(start) <= start && end == old(end)
        invariant AllInRange(kind, vs)
        invariant Unpack(kind, data) == Onto(vs, Unpack(kind, Window(input)))
        decreases end - start
      {
        var v :- ReadScalar(input, kind);
        OntoStep(vs, v, Unpack(kind, Window(input)));
        vs := vs + [v];
      }
      assert vs + [] == vs;
      return Some(vs);
    }

    /** `read_unknown`: steps over the payload of a record no arm matches. */
    method ReadUnknown(input: bytes, tag: u32) returns (res: Option<()>)
      requires Valid(input)
      modifies this
      ensures Delivers(input, Skipped(GetPayload(tag % 8, old(Window(input)))), res)
    {
      match tag % 8 {
        case 0 =>
          var _ :- ReadVarint(input);
        case 1 =>
          var _ :- ReadI64(input);
        case 2 =>
          var _ :- ReadBytes(input);
        case 5 =>
          var _ :- ReadI32(input);
        case _ =>
          return None;
      }
      return Some(());
    }
  }

  // ------------------------------------------- one turn of a decoding loop

  /** An arm with a length-delimited payload. */
  lemma {:induction false} LenArm<M>(step: (M, Record) -> Option<M>, m: M, tag: u32, s: bytes)
    requires tag % 8 == 2
    ensures StepAt(step, m, tag, s) == match GetLen(s)
                                       case None => None
                                       case Some((data, rest)) => Bind(step(m, Tagged(tag, LEN(data))), rest)
  {
  }

  /** An arm with a scalar payload. */
  lemma {:induction false} ScalarArm<M>(step: (M, Record) -> Option<M>, m: M, tag: u32, s: bytes, kind: Kind)
    requires tag % 8 == WireTypeOf(kind)
    ensures StepAt(step, m, tag, s) == match GetPayload(WireTypeOf(kind), s)
                                       case None => None
                                       case Some((p, rest)) => Bind(step(m, Tagged(tag, p)), rest)
  {
  }

  /** The last arm, for a record the step ignores. */
  lemma {:induction false} UnknownArm<M>(step: (M, Record) -> Option<M>, m: M, tag: u32, s: bytes)
    requires forall p: Payload :: WireType(p) == tag % 8 ==> step(m, Tagged(tag, p)) == Some(m)
    ensures StepAt(step, m, tag, s) == match GetPayload(tag % 8, s)
                                       case None => None
                                       case Some((_, rest)) => Some((m, rest))
  {
  }

  function GetText(s: bytes): Option<(text, bytes)> {
    match GetLen(s)
    case None => None
    case Some((data, rest)) => if ValidUtf8(data) then Some((data, rest)) else None
  }

  function GetPacked(kind: Kind, s: bytes): (r: Option<(seq<int>, bytes)>)
    ensures r.Some? ==> AllInRange(kind, r.value.0)
  {
    match GetLen(s)
    case None => None
    case Some((data, rest)) =>
      match Unpack(kind, data)
      case None => None
      case Some(vs) => Some((vs, rest))
  }

  ghost function Skipped(r: Option<(Payload, bytes)>): Option<((), bytes)> {
    match r
    case None => None
    case Some((_, rest)) => Some(((), rest))
  }

  ghost function Onto(vs: seq<int>, more: Option<seq<int>>): Option<seq<int>> {
    match more
    case None => None
    case Some(ws) => Some(vs + ws)
  }

  lemma {:induction false} OntoNil(more: Option<seq<int>>)
    ensures Onto([], more) == more
  {
    if more.Some? {
      assert [] + more.value == more.value;
    }
  }

  lemma {:induction false} OntoStep(vs: seq<int>, v: int, more: Option<seq<int>>)
    ensures Onto(vs, Onto([v], more)) == Onto(vs + [v], more)
  {
    if more.Some? {
      assert vs + ([v] + more.value) == vs + [v] + more.value;
    }
  }
}
