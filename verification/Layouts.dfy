/** The layout of an encoding: which tags it has, how often, and in which order. */
module Layouts {
  import opened Bytes
  import opened Sequences
  import opened Records
  import opened Scalars
  import opened Fields
  import opened Maps
  import opened Folding

  function Tags(rs: seq<Record>): (ts: seq<u32>)
    ensures |ts| == |rs|
  {
    seq(|rs|, i requires 0 <= i < |rs| => rs[i].tag)
  }

  /** A tag that occurs `k` times in a row. */
  function Times(tag: u32, k: nat): (ts: seq<u32>)
    ensures |ts| == k
  {
    seq(k, _ => tag)
  }

  function Once(tag: u32, written: bool): seq<u32> {
    if written then [tag] else []
  }

  predicate Ascending(ts: seq<u32>) {
    forall i, j :: 0 <= i < j < |ts| ==> ts[i] <= ts[j]
  }

  predicate UpTo(ts: seq<u32>, tag: u32) {
    Ascending(ts) && forall t :: t in ts ==> t <= tag
  }

  /** One more field, with a higher tag than those before it. */
  lemma {:induction false} Then(ts: seq<u32>, low: u32, tag: u32, k: nat)
    requires UpTo(ts, low) && low <= tag
    ensures UpTo(ts + Times(tag, k), tag)
  {
    var all := ts + Times(tag, k);
    forall t | t in all
      ensures t <= tag
    {
      var i :| 0 <= i < |all| && all[i] == t;
      if i < |ts| {
        assert ts[i] in ts;
      }
    }
    forall i, j | 0 <= i < j < |all|
      ensures all[i] <= all[j]
    {
      if i < |ts| {
        assert ts[i] in ts;
      }
    }
  }

  lemma {:induction false} ThenOnce(ts: seq<u32>, low: u32, tag: u32, written: bool)
    requires UpTo(ts, low) && low <= tag
    ensures UpTo(ts + Once(tag, written), tag)
  {
    assert Once(tag, written) == Times(tag, if written then 1 else 0);
    Then(ts, low, tag, if written then 1 else 0);
  }

  predicate Within(ts: seq<u32>, low: u32, high: u32) {
    Ascending(ts) && forall t :: t in ts ==> low <= t <= high
  }

  /** Two runs of fields, the second with the higher tags. */
  lemma {:induction false} Between(ts: seq<u32>, a: u32, b: u32, us: seq<u32>, c: u32, d: u32)
    requires Within(ts, a, b) && Within(us, c, d) && a <= b <= c <= d
    ensures Within(ts + us, a, d)
  {
    var all := ts + us;
    assert forall t :: t in all <==> t in ts || t in us;
    forall i, j | 0 <= i < j < |all|
      ensures all[i] <= all[j]
    {
      if i < |ts| <= j {
        assert ts[i] in ts && us[j - |ts|] in us;
      }
    }
  }

  lemma {:induction false} Pair(a: u32, p: bool, b: u32, q: bool)
    requires a <= b
    ensures Within(Once(a, p) + Once(b, q), a, b)
  {
    Between(Once(a, p), a, a, Once(b, q), b, b);
  }

  lemma {:induction false} Triple(a: u32, p: bool, b: u32, q: bool, c: u32, r: bool)
    requires a <= b <= c
    ensures Within(Once(a, p) + Once(b, q) + Once(c, r), a, c)
  {
    Pair(a, p, b, q);
    Between(Once(a, p) + Once(b, q), a, b, Once(c, r), c, c);
  }

  lemma {:induction false} TagsAppend(rs: seq<Record>, qs: seq<Record>)
    ensures Tags(rs + qs) == Tags(rs) + Tags(qs)
  {
  }

  lemma {:induction false} ScalarTags(tag: u32, kind: Kind, v: int)
    requires InRange(kind, v) && tag % 8 == WireTypeOf(kind)
    ensures Tags(ScalarField(tag, kind, v)) == Once(tag, v != 0)
  {
  }

  lemma {:induction false} BytesTags(tag: u32, data: bytes)
    requires tag % 8 == 2
    ensures Tags(BytesField(tag, data)) == Once(tag, data != [])
  {
  }

  lemma {:induction false} PackedTags(tag: u32, kind: Kind, vs: seq<int>)
    requires AllInRange(kind, vs) && tag % 8 == 2
    ensures Tags(PackedField(tag, kind, vs)) == Once(tag, vs != [])
  {
  }

  lemma {:induction false} RepeatedTags(tag: u32, items: seq<bytes>)
    requires tag % 8 == 2
    ensures Tags(RepeatedField(tag, items)) == Times(tag, |items|)
  {
    if items != [] {
      RepeatedTags(tag, items[1..]);
      TagsAppend([Tagged(tag, LEN(items[0]))], RepeatedField(tag, items[1..]));
    }
  }

  lemma {:induction false} MapTags<V>(tag: u32, value: V -> Record, es: seq<Entry<V>>)
    requires tag % 8 == 2
    ensures Tags(MapRecords(tag, value, es)) == Times(tag, |es|)
  {
    if es != [] {
      MapTags(tag, value, es[1..]);
      TagsAppend([EntryRecord(tag, value, es[0])], MapRecords(tag, value, es[1..]));
    }
  }

  /** The records with one tag, in order. */
  function OfTag(tag: u32, rs: seq<Record>): seq<Record> {
    Feeding((r: Record) => r.tag, tag, rs)
  }

  lemma {:induction false} OfTagAppend(tag: u32, rs: seq<Record>, qs: seq<Record>)
    ensures OfTag(tag, rs + qs) == OfTag(tag, rs) + OfTag(tag, qs)
  {
    FeedingAppend((r: Record) => r.tag, tag, rs, qs);
  }

  lemma {:induction false} OfTagNone(tag: u32, rs: seq<Record>)
    requires tag !in Tags(rs)
    ensures OfTag(tag, rs) == []
  {
    if rs != [] {
      assert Tags(rs)[0] == rs[0].tag;
      assert Tags(rs[1..]) == Tags(rs)[1..];
      OfTagNone(tag, rs[1..]);
    }
  }

  lemma {:induction false} OfTagAll(tag: u32, rs: seq<Record>)
    requires Tags(rs) == Times(tag, |rs|)
    ensures OfTag(tag, rs) == rs
  {
    if rs != [] {
      assert Tags(rs)[0] == rs[0].tag;
      assert Tags(rs[1..]) == Tags(rs)[1..] == Times(tag, |rs| - 1);
      OfTagAll(tag, rs[1..]);
    }
  }

  /** A list whose only records with a tag are those of one field: they come out in the field's order. */
  lemma {:induction false} OfTagBetween(tag: u32, before: seq<Record>, field: seq<Record>, after: seq<Record>)
    requires tag !in Tags(before) && tag !in Tags(after) && Tags(field) == Times(tag, |field|)
    ensures OfTag(tag, before + field + after) == field
  {
    OfTagAppend(tag, before + field, after);
    OfTagAppend(tag, before, field);
    OfTagNone(tag, before);
    OfTagNone(tag, after);
    OfTagAll(tag, field);
    ConcatNil(field);
  }

  /** The records of a map field stand in the order of its entries. */
  lemma {:induction false} MapRecordAt<V>(tag: u32, value: V -> Record, es: seq<Entry<V>>, i: nat)
    requires tag % 8 == 2 && i < |es|
    ensures |MapRecords(tag, value, es)| == |es| && MapRecords(tag, value, es)[i] == EntryRecord(tag, value, es[i])
  {
    MapTags(tag, value, es);
    HeadTail(EntryRecord(tag, value, es[0]), MapRecords(tag, value, es[1..]));
    if i > 0 {
      MapRecordAt(tag, value, es[1..], i - 1);
      assert MapRecords(tag, value, es)[i] == MapRecords(tag, value, es)[1..][i - 1];
    }
  }

  /** And the entries in the order of the iteration. */
  lemma {:induction false} EntryAt<V>(m: map<text, V>, order: seq<text>, i: nat)
    requires i < |order| && forall k :: k in order ==> k in m
    ensures Entries(m, order)[i] == Entry(order[i], m[order[i]])
  {
    HeadTail(Entry(order[0], m[order[0]]), Entries(m, order[1..]));
    if i > 0 {
      EntryAt(m, order[1..], i - 1);
      assert Entries(m, order)[i] == Entries(m, order)[1..][i - 1];
    }
  }

  /** Key first, then value, whatever the two are. */
  lemma {:induction false} EntryLayout<V>(tag: u32, value: V -> Record, e: Entry<V>)
    requires tag % 8 == 2 && |EncodeRecord(EntryRecord(tag, value, e))| < ADDRESS_SPACE
    ensures Parse(EntryRecord(tag, value, e).payload.data) == Some([Tagged(10, LEN(e.key)), value(e.value)])
  {
    ParseEncode(EntryRecords(value, e));
  }

  /** Between records with other tags, the records of a map field hold the entries as the iteration yields them. */
  lemma {:induction false} EntryInOrder<V>(tag: u32, value: V -> Record, m: map<text, V>, order: seq<text>, i: nat,
                                           before: seq<Record>, after: seq<Record>)
    requires tag % 8 == 2 && i < |order| && forall k :: k in order ==> k in m
    requires tag !in Tags(before) && tag !in Tags(after)
    requires |Encode(before + MapRecords(tag, value, Entries(m, order)) + after)| < ADDRESS_SPACE
    ensures var entries := OfTag(tag, before + MapRecords(tag, value, Entries(m, order)) + after);
            && |entries| == |order| && entries[i].payload.LEN?
            && Parse(entries[i].payload.data) == Some([Tagged(10, LEN(order[i])), value(m[order[i]])])
  {
    var field := MapRecords(tag, value, Entries(m, order));
    MapRecordAt(tag, value, Entries(m, order), i);
    EntryAt(m, order, i);
    MapTags(tag, value, Entries(m, order));
    OfTagBetween(tag, before, field, after);
    RecordFits(before + field + after, |before| + i);
    EntryLayout(tag, value, Entry(order[i], m[order[i]]));
  }
}
