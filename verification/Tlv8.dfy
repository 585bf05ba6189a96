/** The TLV8 messages of pairing: fragmentation into pieces of at most 255 bytes and the parser that puts
    them together again (PHKNetworkIP.cpp:1099-1157, PHKNetworkIP.h:80-103). */
module Tlv8 {
  import opened Bits

  const SLOTS: nat := 10

  datatype Record = Record(index: int, data: seq<int>, activate: bool)

  const EMPTY := Record(0, [], false)

  predicate Proper(r: Record) {
    0 <= r.index < 0x100 && Bytes(r.data)
  }

  /** The fragments of one value; an empty value has none. */
  function Fragments(tag: int, data: seq<int>): seq<int>
    decreases |data|
  {
    if |data| == 0 then []
    else
      var n := if |data| > 255 then 255 else |data|;
      [tag, n] + data[..n] + Fragments(tag, data[n..])
  }

  lemma FragmentsUnfold(tag: int, data: seq<int>, n: int)
    requires |data| > 0 && n == if |data| > 255 then 255 else |data|
    ensures Fragments(tag, data) == [tag, n] + data[..n] + Fragments(tag, data[n..])
  {
  }

  /** Item j of a value: the tag, the length of the piece, and the bytes from 255 j on. */
  predicate ItemAt(s: seq<int>, tag: int, data: seq<int>, j: nat, p: nat)
    requires 255 * j < |data|
  {
    var n := if |data| - 255 * j > 255 then 255 else |data| - 255 * j;
    p + 2 + n <= |s| && s[p] == tag && s[p + 1] == n && s[p + 2..p + 2 + n] == data[255 * j..255 * j + n]
  }

  /** The items are one after the other, all but the last one with 255 bytes, and nothing else is written. */
  lemma {:induction false} FragmentIs(tag: int, data: seq<int>, j: nat)
    requires 255 * j < |data|
    ensures |Fragments(tag, data)| == |data| + 2 * ((|data| + 254) / 255) && ItemAt(Fragments(tag, data), tag, data, j, 257 * j)
    decreases |data|
  {
    hide *;
    var n := if |data| > 255 then 255 else |data|;
    FragmentsLength(tag, data);
    FragmentsUnfold(tag, data, n);
    if j == 0 {
      ItemFirst(Fragments(tag, data), Fragments(tag, data[n..]), tag, data, n);
    } else {
      FragmentIs(tag, data[255..], j - 1);
      ItemLater(Fragments(tag, data), Fragments(tag, data[255..]), [tag, n] + data[..n], tag, data, j);
    }
  }

  lemma ItemFirst(s: seq<int>, rest: seq<int>, tag: int, data: seq<int>, n: int)
    requires |data| > 0 && n == (if |data| > 255 then 255 else |data|) && s == [tag, n] + data[..n] + rest
    ensures ItemAt(s, tag, data, 0, 0)
  {
    assert s[2..2 + n] == data[..n];
  }

  lemma ItemLater(s: seq<int>, rest: seq<int>, first: seq<int>, tag: int, data: seq<int>, j: nat)
    requires 0 < j && 255 * j < |data| && |first| == 257 && s == first + rest && ItemAt(rest, tag, data[255..], j - 1, 257 * (j - 1))
    ensures ItemAt(s, tag, data, j, 257 * j)
  {
    var n, p, d := if |data| - 255 * j > 255 then 255 else |data| - 255 * j, 257 * (j - 1), 255 * (j - 1);
    assert 257 * j == 257 + p && 255 * j == 255 + d;
    Later(s, rest, first, p, n);
    Dropped(data, d, n);
  }

  lemma Later(s: seq<int>, rest: seq<int>, first: seq<int>, p: nat, n: nat)
    requires |first| == 257 && s == first + rest && p + 2 + n <= |rest|
    ensures s[257 + p] == rest[p] && s[257 + p + 1] == rest[p + 1] && s[257 + p + 2..257 + p + 2 + n] == rest[p + 2..p + 2 + n]
  {
  }

  lemma Dropped(data: seq<int>, d: nat, n: nat)
    requires 255 + d + n <= |data|
    ensures data[255..][d..d + n] == data[255 + d..255 + d + n]
  {
  }

  lemma {:induction false} FragmentsLength(tag: int, data: seq<int>)
    ensures |Fragments(tag, data)| == |data| + 2 * ((|data| + 254) / 255)
    decreases |data|
  {
    if |data| > 0 {
      FragmentsLength(tag, data[if |data| > 255 then 255 else |data|..]);
    }
  }

  /** What rawData writes for a list of records. */
  function Encoded(records: seq<Record>): seq<int> {
    if |records| == 0 then []
    else (if records[0].activate then Fragments(records[0].index, records[0].data) else []) + Encoded(records[1..])
  }

  /** The first active record with a tag, or -1. */
  function Find(records: seq<Record>, tag: int): (i: int)
    ensures -1 <= i < |records|
    ensures i >= 0 ==> records[i].activate && records[i].index == tag
    ensures forall k :: 0 <= k < (if i >= 0 then i else |records|) ==> !(records[k].activate && records[k].index == tag)
  {
    if |records| == 0 then -1
    else if records[0].activate && records[0].index == tag then 0
    else var j := Find(records[1..], tag); if j < 0 then -1 else j + 1
  }

  /** A value under a tag: a new record, or more bytes for the record that has the tag. */
  function Absorb(records: seq<Record>, tag: int, data: seq<int>): (r: seq<Record>)
    ensures |records| <= |r| <= |records| + 1
  {
    var i := Find(records, tag);
    if i < 0 then records + [Record(tag, data, true)]
    else records[i := Record(tag, records[i].data + data, true)]
  }

  /** A sequence of whole TLV items. */
  predicate Complete(input: seq<int>)
    decreases |input|
  {
    |input| == 0 || (|input| >= 2 && 0 <= input[1] && 2 + input[1] <= |input| && Complete(input[2 + input[1]..]))
  }

  /** What the parser makes of the items. */
  function Parsed(records: seq<Record>, input: seq<int>): (r: seq<Record>)
    requires Complete(input)
    ensures |records| <= |r|
    decreases |input|
  {
    if |input| == 0 then records
    else Parsed(Absorb(records, input[0], input[2..2 + input[1]]), input[2 + input[1]..])
  }

  /** The records as a receiver should see them: in order, without the inactive and empty ones, values of
      the same tag joined at the first. */
  function Merged(acc: seq<Record>, records: seq<Record>): (r: seq<Record>)
    ensures |acc| <= |r| <= |acc| + |records|
    decreases |records|
  {
    if |records| == 0 then acc
    else
      var r := records[0];
      Merged(if r.activate && |r.data| > 0 then Absorb(acc, r.index, r.data) else acc, records[1..])
  }

  lemma {:induction false} FindUpdated(records: seq<Record>, tag: int, i: int, data: seq<int>)
    requires i == Find(records, tag) && i >= 0
    ensures Find(records[i := Record(tag, data, true)], tag) == i
    decreases |records|
  {
    var s := records[i := Record(tag, data, true)];
    if i > 0 {
      assert s[1..] == records[1..][i - 1 := Record(tag, data, true)] && s[0] == records[0];
      FindUpdated(records[1..], tag, i - 1, data);
    }
  }

  lemma {:induction false} FindAppended(records: seq<Record>, tag: int, data: seq<int>)
    requires Find(records, tag) < 0
    ensures Find(records + [Record(tag, data, true)], tag) == |records|
    decreases |records|
  {
    var s := records + [Record(tag, data, true)];
    if |records| > 0 {
      assert s[1..] == records[1..] + [Record(tag, data, true)];
      FindAppended(records[1..], tag, data);
    }
  }

  /** Two pieces of a value, one after the other, are one value. */
  lemma AbsorbTwice(records: seq<Record>, tag: int, a: seq<int>, b: seq<int>)
    ensures Absorb(Absorb(records, tag, a), tag, b) == Absorb(records, tag, a + b)
  {
    var i := Find(records, tag);
    var s := Absorb(records, tag, a);
    if i < 0 {
      FindAppended(records, tag, a);
      assert s[|records| := Record(tag, a + b, true)] == records + [Record(tag, a + b, true)];
    } else {
      FindUpdated(records, tag, i, records[i].data + a);
      assert (records[i].data + a) + b == records[i].data + (a + b);
    }
  }

  /** Fragments followed by more items are whole items, and parsing them absorbs the value. */
  lemma {:induction false} FragmentsParse(records: seq<Record>, tag: int, data: seq<int>, rest: seq<int>)
    requires Complete(rest) && |data| > 0
    ensures Complete(Fragments(tag, data) + rest)
    ensures Parsed(records, Fragments(tag, data) + rest) == Parsed(Absorb(records, tag, data), rest)
    decreases |data|
  {
    var n := if |data| > 255 then 255 else |data|;
    var value, more := data[..n], data[n..];
    var tail := Fragments(tag, more) + rest;
    FragmentsUnfold(tag, data, n);
    hide *;
    if |more| > 0 {
      FragmentsParse(Absorb(records, tag, value), tag, more, rest);
      AbsorbTwice(records, tag, value, more);
      assert value + more == data;
    } else {
      NoFragments(tag, more, rest);
      assert value == data;
    }
    ItemParse(records, tag, n, value, tail);
    Regroup([tag, n], value, Fragments(tag, more), rest);
  }

  lemma NoFragments(tag: int, more: seq<int>, rest: seq<int>)
    requires |more| == 0
    ensures Fragments(tag, more) + rest == rest
  {
  }

  lemma Regroup(a: seq<int>, b: seq<int>, c: seq<int>, d: seq<int>)
    ensures a + b + c + d == a + b + (c + d)
  {
  }

  /** An item in front of whole items. */
  lemma ItemParse(records: seq<Record>, tag: int, n: int, value: seq<int>, tail: seq<int>)
    requires |value| == n && Complete(tail)
    ensures Complete([tag, n] + value + tail)
    ensures Parsed(records, [tag, n] + value + tail) == Parsed(Absorb(records, tag, value), tail)
  {
    var input := [tag, n] + value + tail;
    assert input[2..2 + n] == value && input[2 + n..] == tail;
  }

  /** The round trip: parsing what rawData writes gives the records back, merged. */
  lemma {:induction false} ParseEncoded(acc: seq<Record>, records: seq<Record>)
    ensures Complete(Encoded(records)) && Parsed(acc, Encoded(records)) == Merged(acc, records)
    decreases |records|
  {
    if |records| > 0 {
      var r := records[0];
      if r.activate && |r.data| > 0 {
        ParseEncoded(Absorb(acc, r.index, r.data), records[1..]);
        FragmentsParse(acc, r.index, r.data, Encoded(records[1..]));
      } else {
        ParseEncoded(acc, records[1..]);
        assert Encoded(records) == Encoded(records[1..]);
      }
    }
  }

  /** Active, non-empty records with different tags come back exactly. */
  lemma {:induction false} MergedDistinct(acc: seq<Record>, records: seq<Record>)
    requires forall i :: 0 <= i < |records| ==> records[i].activate && |records[i].data| > 0
    requires forall i, j :: 0 <= i < j < |records| ==> records[i].index != records[j].index
    requires forall i, j :: 0 <= i < |acc| && 0 <= j < |records| ==> acc[i].index != records[j].index
    ensures Merged(acc, records) == acc + records
    decreases |records|
  {
    if |records| == 0 {
      assert acc + records == acc;
    } else {
      var r := records[0];
      assert Find(acc, r.index) < 0;
      MergedDistinct(acc + [r], records[1..]);
      assert Absorb(acc, r.index, r.data) == acc + [r];
      assert (acc + [r]) + records[1..] == acc + records;
    }
  }

  // ---- what merging means

  /** All bytes that stand under a tag, in order. */
  function ValueOf(records: seq<Record>, tag: int): seq<int> {
    if records == [] then []
    else
      var r := records[|records| - 1];
      ValueOf(records[..|records| - 1], tag) + if r.activate && r.index == tag then r.data else []
  }

  /** The tags with a value, in the order of their first bytes. */
  function Tags(records: seq<Record>): (t: seq<int>)
    ensures forall i, j :: 0 <= i < j < |t| ==> t[i] != t[j]
  {
    if records == [] then []
    else
      var r, t := records[|records| - 1], Tags(records[..|records| - 1]);
      if r.activate && |r.data| > 0 && r.index !in t then t + [r.index] else t
  }

  /** One record for each tag, with everything that stands under it. */
  function Grouped(records: seq<Record>): (g: seq<Record>)
    ensures |g| == |Tags(records)|
  {
    seq(|Tags(records)|, i requires 0 <= i < |Tags(records)| => Record(Tags(records)[i], ValueOf(records, Tags(records)[i]), true))
  }

  lemma {:induction false} MergedConcat(acc: seq<Record>, a: seq<Record>, b: seq<Record>)
    ensures Merged(acc, a + b) == Merged(Merged(acc, a), b)
    decreases |a|
  {
    if |a| == 0 {
      assert a + b == b;
    } else {
      assert (a + b)[1..] == a[1..] + b && (a + b)[0] == a[0];
      var r := a[0];
      MergedConcat(if r.activate && |r.data| > 0 then Absorb(acc, r.index, r.data) else acc, a[1..], b);
    }
  }

  lemma {:induction false} NoValue(records: seq<Record>, tag: int)
    requires tag !in Tags(records)
    ensures ValueOf(records, tag) == []
    decreases |records|
  {
    if records != [] {
      NoValue(records[..|records| - 1], tag);
    }
  }

  lemma FindGrouped(records: seq<Record>, tag: int)
    ensures var i := Find(Grouped(records), tag); if i < 0 then tag !in Tags(records) else Tags(records)[i] == tag
  {
    var i, t := Find(Grouped(records), tag), Tags(records);
    forall k | 0 <= k < |t| ensures i < 0 ==> t[k] != tag {
      assert Grouped(records)[k] == Record(t[k], ValueOf(records, t[k]), true);
    }
  }

  /** The merged records are one record for each tag, in the order of the tags' first bytes, whose value is the
      concatenation of the values under that tag. */
  lemma {:induction false} MergedIs(records: seq<Record>)
    ensures Merged([], records) == Grouped(records)
    decreases |records|
  {
    if records != [] {
      var rs, r := records[..|records| - 1], records[|records| - 1];
      assert records == rs + [r] && [r][1..] == [];
      MergedIs(rs);
      MergedConcat([], rs, [r]);
      GroupedStep(rs, r);
    }
  }

  lemma GroupedStep(rs: seq<Record>, r: Record)
    ensures Grouped(rs + [r]) == if r.activate && |r.data| > 0 then Absorb(Grouped(rs), r.index, r.data) else Grouped(rs)
  {
    var records, t := rs + [r], Tags(rs);
    assert records[..|records| - 1] == rs;
    FindGrouped(rs, r.index);
    var g, h, tag := Grouped(rs), Grouped(records), r.index;
    forall i | 0 <= i < |t|
      ensures h[i] == if r.activate && tag == t[i] then Record(t[i], g[i].data + r.data, true) else g[i]
      ensures |r.data| == 0 ==> g[i].data + r.data == g[i].data
    {
      assert ValueOf(records, t[i]) == ValueOf(rs, t[i]) + if r.activate && tag == t[i] then r.data else [];
      assert ValueOf(rs, t[i]) + [] == ValueOf(rs, t[i]);
    }
    if !(r.activate && |r.data| > 0) {
      assert h == g;
    } else if tag in t {
      assert h == Absorb(g, tag, r.data);
    } else {
      NoValue(rs, tag);
      assert [] + r.data == r.data;
      assert h[|t|] == Record(tag, r.data, true);
      assert h == g + [Record(tag, r.data, true)];
    }
  }

  // ---- a text cut short

  function Size(records: seq<Record>): nat {
    if records == [] then 0 else Size(records[..|records| - 1]) + |records[|records| - 1].data|
  }

  lemma {:induction false} SizeUpdated(records: seq<Record>, i: nat, r: Record)
    requires i < |records|
    ensures Size(records[i := r]) == Size(records) - |records[i].data| + |r.data|
    decreases |records|
  {
    var n := |records| - 1;
    if i < n {
      assert records[i := r][..n] == records[..n][i := r];
      SizeUpdated(records[..n], i, r);
    } else {
      assert records[i := r][..n] == records[..n];
    }
  }

  lemma AbsorbSize(records: seq<Record>, tag: int, data: seq<int>)
    ensures Size(Absorb(records, tag, data)) == Size(records) + |data|
  {
    var i := Find(records, tag);
    if i < 0 {
      var s := records + [Record(tag, data, true)];
      assert s[..|s| - 1] == records;
    } else {
      SizeUpdated(records, i, Record(tag, records[i].data + data, true));
    }
  }

  /** Items that carry at least one byte each, which is what rawData writes. */
  predicate Filled(input: seq<int>)
    decreases |input|
  {
    |input| == 0 || (|input| >= 2 && 0 < input[1] && 2 + input[1] <= |input| && Filled(input[2 + input[1]..]))
  }

  function Carried(input: seq<int>): nat
    requires Complete(input)
    decreases |input|
  {
    if |input| == 0 then 0 else input[1] + Carried(input[2 + input[1]..])
  }

  lemma {:induction false} ParsedSize(acc: seq<Record>, input: seq<int>)
    requires Complete(input)
    ensures Size(Parsed(acc, input)) == Size(acc) + Carried(input)
    decreases |input|
  {
    if |input| > 0 {
      AbsorbSize(acc, input[0], input[2..2 + input[1]]);
      ParsedSize(Absorb(acc, input[0], input[2..2 + input[1]]), input[2 + input[1]..]);
    }
  }

  lemma {:induction false} FilledComplete(input: seq<int>)
    requires Filled(input)
    ensures Complete(input) && (|input| > 0 ==> Carried(input) > 0)
    decreases |input|
  {
    if |input| > 0 {
      FilledComplete(input[2 + input[1]..]);
    }
  }

  lemma {:induction false} CutAtItem(a: seq<int>, b: seq<int>)
    requires Complete(a) && Filled(a + b)
    ensures Filled(b) && Complete(b) && Complete(a + b) && Carried(a + b) == Carried(a) + Carried(b)
    decreases |a|
  {
    if |a| == 0 {
      assert a + b == b;
    } else {
      assert (a + b)[2 + a[1]..] == a[2 + a[1]..] + b;
      CutAtItem(a[2 + a[1]..], b);
    }
    FilledComplete(a + b);
    FilledComplete(b);
  }

  lemma {:induction false} FragmentsFilled(tag: int, data: seq<int>, rest: seq<int>)
    requires Filled(rest)
    ensures Filled(Fragments(tag, data) + rest)
    decreases |data|
  {
    if |data| == 0 {
      assert Fragments(tag, data) + rest == rest;
    } else {
      var n := if |data| > 255 then 255 else |data|;
      FragmentsFilled(tag, data[n..], rest);
      FragmentsUnfold(tag, data, n);
      hide Fragments, Filled;
      Regroup([tag, n], data[..n], Fragments(tag, data[n..]), rest);
      ItemFilled(tag, n, data[..n], Fragments(tag, data[n..]) + rest);
    }
  }

  lemma ItemFilled(tag: int, n: int, value: seq<int>, tail: seq<int>)
    requires |value| == n > 0 && Filled(tail)
    ensures Filled([tag, n] + value + tail)
  {
    var input := [tag, n] + value + tail;
    assert input[2 + n..] == tail;
  }

  lemma {:induction false} EncodedFilled(records: seq<Record>)
    ensures Filled(Encoded(records))
    decreases |records|
  {
    if |records| > 0 {
      EncodedFilled(records[1..]);
      FragmentsFilled(records[0].index, records[0].data, Encoded(records[1..]));
      assert [] + Encoded(records[1..]) == Encoded(records[1..]);
    }
  }

  /** Cutting at an item boundary before the end loses bytes of the records. */
  lemma CutLoses(input: seq<int>, n: nat)
    requires n < |input| && Filled(input) && Complete(input[..n])
    ensures Complete(input) && Size(Parsed([], input[..n])) < Size(Parsed([], input))
  {
    hide *;
    assert input[..n] + input[n..] == input;
    CutAtItem(input[..n], input[n..]);
    FilledComplete(input[n..]);
    ParsedSize([], input[..n]);
    ParsedSize([], input);
  }

  /** The length rawData returns has 16 bits: what it hands out parses to the merged records if and only if the
      encoding is shorter than 2^16. */
  lemma RoundTripIff(records: seq<Record>)
    ensures var e := Encoded(records); var raw := e[..|e| % 0x10000];
      Complete(raw) && Parsed([], raw) == Merged([], records) <==> |e| < 0x10000
  {
    hide *;
    var e := Encoded(records);
    var n := |e| % 0x10000;
    ParseEncoded([], records);
    if |e| < 0x10000 {
      assert e[..n] == e;
    } else if Complete(e[..n]) {
      EncodedFilled(records);
      CutLoses(e, n);
    }
  }

  lemma {:induction false} EncodedConcat(a: seq<Record>, b: seq<Record>)
    ensures Encoded(a + b) == Encoded(a) + Encoded(b)
    decreases |a|
  {
    if |a| == 0 {
      assert a + b == b;
    } else {
      assert (a + b)[1..] == a[1..] + b && (a + b)[0] == a[0];
      EncodedConcat(a[1..], b);
    }
  }

  lemma {:induction false} EncodedInactive(records: seq<Record>)
    requires forall i :: 0 <= i < |records| ==> !records[i].activate
    ensures Encoded(records) == []
    decreases |records|
  {
    if |records| > 0 {
      EncodedInactive(records[1..]);
    }
  }

  class MessageData {
    var records: seq<Record>
    var count: int

    /** The slots from `count` on are unused. */
    ghost predicate Valid()
      reads this
    {
      && |records| == SLOTS && 0 <= count <= SLOTS
      && (forall i :: 0 <= i < SLOTS ==> Proper(records[i]))
      && (forall i :: count <= i < SLOTS ==> !records[i].activate)
    }

    constructor ()
      ensures Valid() && count == 0
    {
      records, count := seq(SLOTS, _ => EMPTY), 0;
    }

    /** addRecord; the source does not check for a full table. */
    method AddRecord(record: Record)
      requires Valid() && count < SLOTS && Proper(record)
      modifies this
      ensures Valid() && count == old(count) + 1 && records[..count] == old(records[..count]) + [record]
    {
      records := records[count := record];
      count := count + 1;
    }

    /** recordIndex */
    method RecordIndex(index: int) returns (i: int)
      requires Valid()
      ensures i == Find(records[..count], index)
    {
      for k := 0 to count
        invariant forall j :: 0 <= j < k ==> !(records[j].activate && records[j].index == index)
      {
        if records[k].activate && records[k].index == index {
          FindIs(records[..count], index, k);
          return k;
        }
      }
      FindIs(records[..count], index, -1);
      return -1;
    }

    static lemma FindIs(records: seq<Record>, tag: int, i: int)
      requires -1 <= i < |records|
      requires i >= 0 ==> records[i].activate && records[i].index == tag
      requires forall k :: 0 <= k < (if i >= 0 then i else |records|) ==> !(records[k].activate && records[k].index == tag)
      ensures Find(records, tag) == i
    {
    }

    /** One turn of the parse loop, on a whole item. */
    method Item(tag: int, data: seq<int>)
      requires Valid() && 0 <= tag < 0x100 && Bytes(data) && |Absorb(records[..count], tag, data)| <= SLOTS
      modifies this
      ensures Valid() && records[..count] == Absorb(old(records[..count]), tag, data)
    {
      var index := RecordIndex(tag);
      if index < 0 {
        records := records[count := Record(tag, data, true)];
        count := count + 1;
      } else {
        records := records[index := Record(tag, records[index].data + data, true)];
      }
    }

    /** The parsing constructor.  Every item of the input must be whole and the different tags must fit the
        table; the source checks neither. */
    constructor Parse(rawData: seq<int>)
      requires |rawData| < 0x10000 && Bytes(rawData) && Complete(rawData) && |Parsed([], rawData)| <= SLOTS
      ensures Valid() && records[..count] == Parsed([], rawData)
    {
      records, count := seq(SLOTS, _ => EMPTY), 0;
      new;
      assert records[..count] == [];
      ParseItems(rawData);
    }

    /** The parse loop. */
    method ParseItems(rawData: seq<int>)
      requires Valid() && |rawData| < 0x10000 && Bytes(rawData) && Complete(rawData)
      requires |Parsed(records[..count], rawData)| <= SLOTS
      modifies this
      ensures Valid() && records[..count] == Parsed(old(records[..count]), rawData)
    {
      hide Absorb, Parsed, Complete;
      var delta := 0;
      ghost var rest := rawData;
      while delta < |rawData|
        invariant Valid() && 0 <= delta <= |rawData| && rest == rawData[delta..] && Bytes(rest)
        invariant Complete(rest) && Parsed(records[..count], rest) == Parsed(old(records[..count]), rawData)
      {
        ParsedStep(records[..count], rest);
        var tag, length := rawData[delta], rawData[delta + 1];
        assert tag == rest[0] && length == rest[1];
        var value := rawData[delta + 2..delta + 2 + length];
        assert rest[2..2 + length] == value;
        Item(tag, value);
        delta := (delta + length + 2) % 0x10000;
        rest := rest[2 + length..];
      }
      assert rest == [];
      ParsedEnd(records[..count]);
    }

    static lemma ParsedEnd(records: seq<Record>)
      ensures Complete([]) && Parsed(records, []) == records
    {
    }

    /** The first item of the rest. */
    static lemma ParsedStep(records: seq<Record>, rest: seq<int>)
      requires |rest| > 0 && Complete(rest)
      ensures 2 <= |rest| && 0 <= rest[1] && 2 + rest[1] <= |rest| && Complete(rest[2 + rest[1]..])
      ensures Parsed(records, rest) == Parsed(Absorb(records, rest[0], rest[2..2 + rest[1]]), rest[2 + rest[1]..])
      ensures |Absorb(records, rest[0], rest[2..2 + rest[1]])| <= |Parsed(records, rest)|
    {
    }

    /** The inner loop of rawData. */
    static method Fragment(tag: int, data: seq<int>) returns (buffer: seq<int>)
      ensures buffer == Fragments(tag, data)
    {
      buffer := [];
      var j := 0;
      ghost var rest := data;
      FragmentsEnd(tag);
      hide Fragments;
      while j != |data|
        invariant 0 <= j <= |data| && rest == data[j..] && buffer + Fragments(tag, rest) == Fragments(tag, data)
        decreases |data| - j
      {
        var len := if |data| - j > 255 then 255 else |data| - j;
        FragmentsUnfold(tag, rest, len);
        Joined(buffer, tag, len, rest[..len], Fragments(tag, rest[len..]));
        assert rest[..len] == data[j..j + len];
        buffer := buffer + ([tag] + ([len] + data[j..j + len]));
        rest := rest[len..];
        j := j + len;
      }
      assert rest == [];
    }

    static lemma FragmentsEnd(tag: int)
      ensures Fragments(tag, []) == []
    {
    }

    static lemma Joined(buffer: seq<int>, tag: int, len: int, piece: seq<int>, more: seq<int>)
      ensures buffer + ([tag, len] + piece + more) == (buffer + ([tag] + ([len] + piece))) + more
    {
      assert [tag, len] + piece == [tag] + ([len] + piece);
    }

    /** rawData: all ten slots are written out; the length has 16 bits. */
    method RawData() returns (raw: seq<int>)
      requires Valid()
      ensures raw == Encoded(records[..count])[..|Encoded(records[..count])| % 0x10000]
    {
      var buffer := [];
      assert records[..0] == [];
      for i := 0 to SLOTS
        invariant buffer == Encoded(records[..i])
      {
        assert records[..i + 1] == records[..i] + [records[i]];
        EncodedConcat(records[..i], [records[i]]);
        EncodedOne(records[i]);
        if records[i].activate {
          var f := Fragment(records[i].index, records[i].data);
          buffer := buffer + f;
        }
      }
      assert records[..SLOTS] == records[..count] + records[count..];
      EncodedConcat(records[..count], records[count..]);
      EncodedInactive(records[count..]);
      raw := buffer[..|buffer| % 0x10000];
    }

    static lemma EncodedOne(r: Record)
      ensures Encoded([r]) == if r.activate then Fragments(r.index, r.data) else []
    {
      assert [r][1..] == [];
    }
  }

  lemma {:induction false} FragmentsBytes(tag: int, data: seq<int>)
    requires 0 <= tag < 0x100 && Bytes(data)
    ensures Bytes(Fragments(tag, data))
    decreases |data|
  {
    if |data| > 0 {
      var n := if |data| > 255 then 255 else |data|;
      FragmentsBytes(tag, data[n..]);
    }
  }

  lemma {:induction false} EncodedBytes(records: seq<Record>)
    requires forall i :: 0 <= i < |records| ==> Proper(records[i])
    ensures Bytes(Encoded(records))
    decreases |records|
  {
    if |records| > 0 {
      FragmentsBytes(records[0].index, records[0].data);
      EncodedBytes(records[1..]);
    }
  }

  /** Writing and parsing, end to end, for any table whose encoding fits 16 bits of length. */
  method RoundTrip(d: MessageData) returns (e: MessageData)
    requires d.Valid() && |Encoded(d.records[..d.count])| < 0x10000
    ensures e.Valid() && e.records[..e.count] == Merged([], d.records[..d.count])
  {
    ghost var list := d.records[..d.count];
    EncodedBytes(list);
    ParseEncoded([], list);
    assert |list| <= SLOTS;
    hide *;
    var raw := d.RawData();
    assert raw == Encoded(list);
    e := new MessageData.Parse(raw);
  }
}
