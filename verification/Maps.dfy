/** Map fields: one record an entry, in whatever order the hash map yields its entries. */
module Maps {
  import opened Bytes
  import opened Base128
  import opened Records
  import opened Fields

  datatype Entry<+V> = Entry(key: text, value: V)

  /** An enumeration of a hash map's keys: all of them, each once, in any order. */
  ghost predicate Enumerates(order: seq<text>, keys: set<text>) {
    && (forall i, j :: 0 <= i < j < |order| ==> order[i] != order[j])
    && (forall k :: k in order <==> k in keys)
  }

  /** Every set of keys has an enumeration, so what holds for all of them is not empty talk. */
  lemma {:induction false} SomeOrder(keys: set<text>) returns (order: seq<text>)
    ensures Enumerates(order, keys)
    decreases |keys|
  {
    if keys == {} {
      order := [];
    } else {
      var k :| k in keys;
      var rest := SomeOrder(keys - {k});
      order := [k] + rest;
    }
  }

  /** It has as many elements as there are keys. */
  lemma {:induction false} OrderLength(order: seq<text>, keys: set<text>)
    requires Enumerates(order, keys)
    ensures |order| == |keys|
  {
    if order == [] {
      assert keys == {};
    } else {
      assert order[0] in order;
      RemoveKey(order, 0, keys);
      assert order[..0] + order[1..] == order[1..];
      OrderLength(order[1..], keys - {order[0]});
    }
  }

  /** The entries of a map as an iteration in that order yields them. */
  function Entries<V>(m: map<text, V>, order: seq<text>): (es: seq<Entry<V>>)
    requires forall k :: k in order ==> k in m
    ensures |es| == |order|
  {
    if order == [] then [] else [Entry(order[0], m[order[0]])] + Entries(m, order[1..])
  }

  /** `insert`, entry after entry. */
  function InsertAll<V>(m: map<text, V>, es: seq<Entry<V>>): map<text, V>
    decreases |es|
  {
    if es == [] then m else InsertAll(m[es[0].key := es[0].value], es[1..])
  }

  /** Whatever the order, inserting a map's entries overrides with that map. */
  lemma {:induction false} InsertEntries<V>(m: map<text, V>, other: map<text, V>, order: seq<text>)
    requires Enumerates(order, other.Keys)
    ensures InsertAll(m, Entries(other, order)) == m + other
  {
    InsertSome(m, other, order);
    assert forall k :: k in (m + other).Keys <==> k in m || k in order;
  }

  lemma {:induction false} InsertSome<V>(m: map<text, V>, other: map<text, V>, order: seq<text>)
    requires forall k :: k in order ==> k in other
    ensures var r := InsertAll(m, Entries(other, order));
            && (forall k :: k in r <==> k in m || k in order)
            && (forall k :: k in r ==> r[k] == if k in order then other[k] else m[k])
    decreases |order|
  {
    if order != [] {
      var m' := m[order[0] := other[order[0]]];
      assert forall k :: k in order <==> k == order[0] || k in order[1..];
      InsertSome(m', other, order[1..]);
      assert Entries(other, order)[1..] == Entries(other, order[1..]);
    }
  }

  /** With repeated keys, the last entry for a key wins; other keys are left alone. */
  lemma {:induction false} LastEntryWins<V>(m: map<text, V>, es: seq<Entry<V>>, i: nat)
    requires i < |es|
    requires forall j :: i < j < |es| ==> es[j].key != es[i].key
    ensures es[i].key in InsertAll(m, es) && InsertAll(m, es)[es[i].key] == es[i].value
    decreases |es|
  {
    var m' := m[es[0].key := es[0].value];
    if i == 0 {
      OtherKeys(m', es[1..], es[0].key);
    } else {
      LastEntryWins(m', es[1..], i - 1);
    }
  }

  lemma {:induction false} OtherKeys<V>(m: map<text, V>, es: seq<Entry<V>>, k: text)
    requires forall j :: 0 <= j < |es| ==> es[j].key != k
    ensures k in InsertAll(m, es) <==> k in m
    ensures k in m ==> InsertAll(m, es)[k] == m[k]
    decreases |es|
  {
    if es != [] {
      OtherKeys(m[es[0].key := es[0].value], es[1..], k);
    }
  }

  function Total(size: text -> nat, order: seq<text>): nat {
    if order == [] then 0 else size(order[0]) + Total(size, order[1..])
  }

  lemma {:induction false} TotalAppend(size: text -> nat, a: seq<text>, b: seq<text>)
    ensures Total(size, a + b) == Total(size, a) + Total(size, b)
  {
    if a == [] {
      assert a + b == b;
    } else {
      assert (a + b)[1..] == a[1..] + b;
      TotalAppend(size, a[1..], b);
    }
  }

  /** A sum over a map does not depend on the order of enumeration. */
  lemma {:induction false} TotalOrderFree(size: text -> nat, a: seq<text>, b: seq<text>, keys: set<text>)
    requires Enumerates(a, keys) && Enumerates(b, keys)
    ensures Total(size, a) == Total(size, b)
  {
    if a == [] {
      Member(b);
    } else {
      var k := a[0];
      assert k in a && k in b;
      var i :| 0 <= i < |b| && b[i] == k;
      assert b == b[..i] + [k] + b[i + 1..];
      TotalAppend(size, b[..i] + [k], b[i + 1..]);
      TotalAppend(size, b[..i], [k]);
      TotalAppend(size, b[..i], b[i + 1..]);
      assert Total(size, [k]) == size(k) + Total(size, [k][1..]);
      var rest := b[..i] + b[i + 1..];
      RemoveKey(a, 0, keys);
      RemoveKey(b, i, keys);
      assert a[..0] + a[1..] == a[1..];
      TotalOrderFree(size, a[1..], rest, keys - {k});
    }
  }

  lemma {:induction false} Member<T>(s: seq<T>)
    ensures s == [] || exists x :: x in s
  {
    assert s == [] || s[0] in s;
  }

  lemma {:induction false} RemoveKey(order: seq<text>, i: nat, keys: set<text>)
    requires Enumerates(order, keys) && i < |order|
    ensures Enumerates(order[..i] + order[i + 1..], keys - {order[i]})
  {
    var rest := order[..i] + order[i + 1..];
    forall k
      ensures k in rest <==> k in keys && k != order[i]
    {
      if k in keys && k != order[i] {
        var j :| 0 <= j < |order| && order[j] == k;
        assert rest[if j < i then j else j - 1] == k;
      }
      if k in rest {
        var j :| 0 <= j < |rest| && rest[j] == k;
        assert order[if j < i then j else j + 1] == k;
      }
    }
  }

  // ----------------------------------------------------------------- encoding

  /** An entry is a message of its own: the key in field 1, the value in field 2, both always written. */
  function EntryRecords<V>(value: V -> Record, e: Entry<V>): seq<Record> {
    [Tagged(10, LEN(e.key)), value(e.value)]
  }

  function EntryRecord<V>(tag: u32, value: V -> Record, e: Entry<V>): Record
    requires tag % 8 == 2
  {
    Tagged(tag, LEN(Encode(EntryRecords(value, e))))
  }

  function MapRecords<V>(tag: u32, value: V -> Record, es: seq<Entry<V>>): seq<Record>
    requires tag % 8 == 2
  {
    if es == [] then [] else [EntryRecord(tag, value, es[0])] + MapRecords(tag, value, es[1..])
  }

  /** The size of one entry, prefix and tag included, given the size of its value record. */
  function EntrySize(key: bytes, valueSize: nat): nat {
    1 + SizeofLen(1 + SizeofLen(|key|) + valueSize)
  }

  lemma {:induction false} EntryEncoding<V>(value: V -> Record, e: Entry<V>)
    ensures Encode(EntryRecords(value, e)) == EncodeRecord(Tagged(10, LEN(e.key))) + EncodeRecord(value(e.value))
    ensures |Encode(EntryRecords(value, e))| == 1 + SizeofLen(|e.key|) + |EncodeRecord(value(e.value))|
  {
    var a, b := Tagged(10, LEN(e.key)), value(e.value);
    assert EntryRecords(value, e) == [a] + [b];
    EncodeAppend([a], [b]);
    EncodeOne(a);
    EncodeOne(b);
    RecordSize(a);
  }

  lemma {:induction false} EntryRecordSize<V>(tag: u32, value: V -> Record, e: Entry<V>)
    requires tag % 8 == 2 && tag < 0x80
    ensures |EncodeRecord(EntryRecord(tag, value, e))| == EntrySize(e.key, |EncodeRecord(value(e.value))|)
  {
    EntryEncoding(value, e);
    RecordSize(EntryRecord(tag, value, e));
  }

  /** One turn of a loop over the entries: what it adds to the size, and to a buffer. */
  lemma {:induction false} NextEntry<V>(base: bytes, tag: u32, value: V -> Record, es: seq<Entry<V>>, i: nat)
    requires tag % 8 == 2 && tag < 0x80 && i < |es|
    ensures |Encode(MapRecords(tag, value, es[i..]))|
         == |EncodeRecord(EntryRecord(tag, value, es[i]))| + |Encode(MapRecords(tag, value, es[i + 1..]))|
    ensures base + EncodeRecord(EntryRecord(tag, value, es[i])) + Encode(MapRecords(tag, value, es[i + 1..]))
         == base + Encode(MapRecords(tag, value, es[i..]))
  {
    assert es[i..][1..] == es[i + 1..];
    EncodeHead(base, EntryRecord(tag, value, es[i]), MapRecords(tag, value, es[i + 1..]));
  }

  function SizeAt<V>(value: V -> Record, m: map<text, V>): text -> nat {
    (k: text) => if k in m then EntrySize(k, |EncodeRecord(value(m[k]))|) else 0
  }

  lemma {:induction false} MapLength<V>(tag: u32, value: V -> Record, m: map<text, V>, order: seq<text>)
    requires tag % 8 == 2 && tag < 0x80
    requires forall k :: k in order ==> k in m
    ensures |Encode(MapRecords(tag, value, Entries(m, order)))| == Total(SizeAt(value, m), order)
  {
    if order != [] {
      var es := Entries(m, order);
      assert es[1..] == Entries(m, order[1..]);
      EntryRecordSize(tag, value, es[0]);
      EncodeHead([], EntryRecord(tag, value, es[0]), MapRecords(tag, value, es[1..]));
      MapLength(tag, value, m, order[1..]);
    }
  }

  /** The number of bytes of a map field does not depend on the order of the entries. */
  lemma {:induction false} MapLengthOrderFree<V>(tag: u32, value: V -> Record, m: map<text, V>,
                                                 a: seq<text>, b: seq<text>)
    requires tag % 8 == 2 && tag < 0x80
    requires Enumerates(a, m.Keys) && Enumerates(b, m.Keys)
    ensures |Encode(MapRecords(tag, value, Entries(m, a)))| == |Encode(MapRecords(tag, value, Entries(m, b)))|
  {
    MapLength(tag, value, m, a);
    MapLength(tag, value, m, b);
    TotalOrderFree(SizeAt(value, m), a, b, m.Keys);
  }
}
