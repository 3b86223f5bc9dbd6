/**
 The part of CBOR that entitlement documents use: deterministic encoding with
 shortest heads (section 4.2.1 of RFC 8949) and a decoder that, like the library's, reads
 any head width, so that a document must still be compared with its encoding.
 */
module Cbor {
  import opened Base

  const MAX_ARRAY := 4096
  const TWO64 := 0x1_0000_0000_0000_0000

  // A map lists its keys and values alternately. Tags, simple values and floats have no item:
  // a document that holds one is refused.
  datatype Item =
    | UInt(n: nat)
    | NInt(n: nat)                // the integer -1 - n
    | Bytes(data: seq<Byte>)
    | Text(data: seq<Byte>)
    | Array(items: seq<Item>)
    | Map(items: seq<Item>)

  /******* Heads *******/

  function Power(k: nat): nat {
    if k == 0 then 1 else 256 * Power(k - 1)
  }

  /** n in k bytes, most significant first. */
  function BigEndian(n: nat, k: nat): (r: seq<Byte>)
    requires n < Power(k)
    ensures |r| == k
  {
    if k == 0 then [] else BigEndian(n / 256, k - 1) + [n % 256]
  }

  function FromBigEndian(s: seq<Byte>): (n: nat)
    ensures n < Power(|s|)
  {
    if |s| == 0 then 0 else 256 * FromBigEndian(s[..|s| - 1]) + s[|s| - 1]
  }

  lemma {:induction false} BigEndianRoundTrip(n: nat, k: nat)
    requires n < Power(k)
    ensures FromBigEndian(BigEndian(n, k)) == n
  {
    if k > 0 {
      var s := BigEndian(n, k);
      assert s[..|s| - 1] == BigEndian(n / 256, k - 1) && s[|s| - 1] == n % 256;
      BigEndianRoundTrip(n / 256, k - 1);
    }
  }

  /** The width in bytes of the shortest argument, zero when it fits the head itself. */
  function Width(n: nat): nat {
    if n < 24 then 0 else if n < 0x100 then 1 else if n < 0x1_0000 then 2 else if n < 0x1_0000_0000 then 4 else 8
  }

  function WidthCode(width: nat): nat
    requires width in {1, 2, 4, 8}
  {
    if width == 1 then 24 else if width == 2 then 25 else if width == 4 then 26 else 27
  }

  lemma Powers()
    ensures Power(1) == 0x100 && Power(2) == 0x1_0000 && Power(4) == 0x1_0000_0000 && Power(8) == TWO64
  {
    assert Power(3) == 0x100_0000;
    assert Power(5) == 0x100_0000_0000;
    assert Power(6) == 0x1_0000_0000_0000;
    assert Power(7) == 0x100_0000_0000_0000;
  }

  function Head(major: nat, n: nat): (r: seq<Byte>)
    requires major < 8 && n < TWO64
    ensures |r| == 1 + Width(n)
  {
    Powers();
    if n < 24 then [32 * major + n] else [32 * major + WidthCode(Width(n))] + BigEndian(n, Width(n))
  }

  datatype Read<T> = Fail | Read(value: T, rest: seq<Byte>)

  /** Major type and argument, in any width. */
  function ReadHead(s: seq<Byte>): (r: Read<(nat, nat)>)
    ensures r.Read? ==> |r.rest| < |s|
  {
    if |s| == 0 then Fail
    else
      var major, info := s[0] / 32, s[0] % 32;
      if info < 24 then Read((major, info), s[1..])
      else if info > 27 then Fail
      else
        var width := if info == 24 then 1 else if info == 25 then 2 else if info == 26 then 4 else 8;
        if |s| < 1 + width then Fail else Read((major, FromBigEndian(s[1..1 + width])), s[1 + width..])
  }

  lemma WideHeadRoundTrip(major: nat, n: nat, rest: seq<Byte>)
    requires major < 8 && 24 <= n < TWO64
    ensures ReadHead(Head(major, n) + rest) == Read((major, n), rest)
  {
    var width := Width(n);
    Powers();
    var tail := BigEndian(n, width);
    var s := [32 * major + WidthCode(width)] + tail + rest;
    assert Head(major, n) + rest == s;
    assert s[1..1 + width] == tail && s[1 + width..] == rest;
    BigEndianRoundTrip(n, width);
    WidthRead(s, major, width);
  }

  lemma WidthRead(s: seq<Byte>, major: nat, width: nat)
    requires width in {1, 2, 4, 8} && major < 8 && |s| >= 1 + width && s[0] == 32 * major + WidthCode(width)
    ensures ReadHead(s) == Read((major, FromBigEndian(s[1..1 + width])), s[1 + width..])
  {
  }

  lemma HeadRoundTrip(major: nat, n: nat, rest: seq<Byte>)
    requires major < 8 && n < TWO64
    ensures ReadHead(Head(major, n) + rest) == Read((major, n), rest)
  {
    if n < 24 {
      var s := [32 * major + n] + rest;
      assert Head(major, n) + rest == s && s[1..] == rest;
    } else {
      WideHeadRoundTrip(major, n, rest);
    }
  }

  /******* Items *******/

  /** What can be encoded and read back: 64-bit arguments, bounded arrays, maps of whole pairs. */
  predicate Encodable(x: Item) {
    match x
    case UInt(n) => n < TWO64
    case NInt(n) => n < TWO64
    case Bytes(data) => |data| < TWO64
    case Text(data) => |data| < TWO64
    case Array(items) => |items| <= MAX_ARRAY && AllEncodable(items)
    case Map(items) => |items| % 2 == 0 && |items| / 2 < TWO64 && AllEncodable(items)
  }

  predicate AllEncodable(items: seq<Item>) {
    forall i :: 0 <= i < |items| ==> Encodable(items[i])
  }

  function Encode(x: Item): (r: seq<Byte>)
    requires Encodable(x)
    ensures |r| > 0
    decreases x, 0
  {
    match x
    case UInt(n) => Head(0, n)
    case NInt(n) => Head(1, n)
    case Bytes(data) => Head(2, |data|) + data
    case Text(data) => Head(3, |data|) + data
    case Array(items) => Head(4, |items|) + EncodeAll(items)
    case Map(items) => Head(5, |items| / 2) + EncodeAll(items)
  }

  function EncodeAll(items: seq<Item>): seq<Byte>
    requires AllEncodable(items)
    decreases items, 1
  {
    if |items| == 0 then [] else Encode(items[0]) + EncodeAll(items[1..])
  }

  /** One item and what follows it. */
  function Decode(s: seq<Byte>): (r: Read<Item>)
    ensures r.Read? ==> |r.rest| < |s|
    decreases |s|, 0
  {
    var head := ReadHead(s);
    if head.Fail? then Fail
    else
      var n, rest := head.value.1, head.rest;
      match head.value.0
      case 0 => Read(UInt(n), rest)
      case 1 => Read(NInt(n), rest)
      case 2 => if |rest| < n then Fail else Read(Bytes(rest[..n]), rest[n..])
      case 3 => if |rest| < n then Fail else Read(Text(rest[..n]), rest[n..])
      case 4 =>
        if n > MAX_ARRAY then Fail
        else
          var all := DecodeAll(n, rest);
          if all.Fail? then Fail else Read(Array(all.value), all.rest)
      case 5 =>
        var all := DecodeAll(2 * n, rest);
        if all.Fail? then Fail else Read(Map(all.value), all.rest)
      case _ => Fail
  }

  function DecodeAll(n: nat, s: seq<Byte>): (r: Read<seq<Item>>)
    ensures r.Read? ==> |r.rest| <= |s| && |r.value| == n
    decreases |s|, 1
  {
    if n == 0 then Read([], s)
    else
      var first := Decode(s);
      if first.Fail? then Fail
      else
        var others := DecodeAll(n - 1, first.rest);
        if others.Fail? then Fail else Read([first.value] + others.value, others.rest)
  }

  /** Decoding undoes deterministic encoding, whatever follows. */
  lemma {:induction false} RoundTrip(x: Item, rest: seq<Byte>)
    requires Encodable(x)
    ensures Decode(Encode(x) + rest) == Read(x, rest)
    decreases x, 0
  {
    match x
    case UInt(n) => IntegerRoundTrip(0, n, rest);
    case NInt(n) => IntegerRoundTrip(1, n, rest);
    case Bytes(data) => DataRoundTrip(2, data, rest);
    case Text(data) => DataRoundTrip(3, data, rest);
    case Array(items) =>
      AllRoundTrip(items, rest);
      ListRoundTrip(4, |items|, EncodeAll(items), items, rest);
    case Map(items) =>
      AllRoundTrip(items, rest);
      ListRoundTrip(5, |items| / 2, EncodeAll(items), items, rest);
  }

  lemma IntegerRoundTrip(major: nat, n: nat, rest: seq<Byte>)
    requires major in {0, 1} && n < TWO64
    ensures Decode(Head(major, n) + rest) == Read(if major == 0 then UInt(n) else NInt(n), rest)
  {
    HeadRoundTrip(major, n, rest);
  }

  lemma Associate(a: seq<Byte>, b: seq<Byte>, c: seq<Byte>)
    ensures a + (b + c) == a + b + c
  {
  }

  lemma ListRoundTrip(major: nat, n: nat, body: seq<Byte>, items: seq<Item>, rest: seq<Byte>)
    requires major in {4, 5} && n < TWO64 && |items| == (if major == 4 then n else 2 * n) && (major == 4 ==> n <= MAX_ARRAY)
    requires DecodeAll(|items|, body + rest) == Read(items, rest)
    ensures Decode(Head(major, n) + body + rest) == Read(if major == 4 then Array(items) else Map(items), rest)
  {
    Associate(Head(major, n), body, rest);
    HeadRoundTrip(major, n, body + rest);
  }

  lemma DataRoundTrip(major: nat, data: seq<Byte>, rest: seq<Byte>)
    requires major in {2, 3} && |data| < TWO64
    ensures Decode(Head(major, |data|) + data + rest) == Read(if major == 2 then Bytes(data) else Text(data), rest)
  {
    Associate(Head(major, |data|), data, rest);
    HeadRoundTrip(major, |data|, data + rest);
    assert (data + rest)[..|data|] == data && (data + rest)[|data|..] == rest;
  }

  lemma {:induction false} AllRoundTrip(items: seq<Item>, rest: seq<Byte>)
    requires AllEncodable(items)
    ensures DecodeAll(|items|, EncodeAll(items) + rest) == Read(items, rest)
    decreases items, 1
  {
    if |items| == 0 {
      assert EncodeAll(items) + rest == rest;
    } else {
      var first, others := Encode(items[0]), EncodeAll(items[1..]) + rest;
      assert EncodeAll(items) + rest == first + others;
      RoundTrip(items[0], others);
      AllRoundTrip(items[1..], rest);
      AllConsRead(first + others, items, others, rest);
    }
  }

  lemma AllConsRead(s: seq<Byte>, items: seq<Item>, others: seq<Byte>, rest: seq<Byte>)
    requires |items| > 0 && Decode(s) == Read(items[0], others) && DecodeAll(|items| - 1, others) == Read(items[1..], rest)
    ensures DecodeAll(|items|, s) == Read(items, rest)
  {
    assert [items[0]] + items[1..] == items;
  }

  /** A whole document: one item and nothing after it. */
  function DecodeWhole(s: seq<Byte>): Option<Item> {
    var r := Decode(s);
    if r.Read? && r.rest == [] then Some(r.value) else None
  }

  lemma WholeRoundTrip(x: Item)
    requires Encodable(x)
    ensures DecodeWhole(Encode(x)) == Some(x)
  {
    assert Encode(x) + [] == Encode(x);
    RoundTrip(x, []);
  }

  /** Different items have different encodings. */
  lemma EncodeInjective(x: Item, y: Item)
    requires Encodable(x) && Encodable(y) && Encode(x) == Encode(y)
    ensures x == y
  {
    WholeRoundTrip(x);
    WholeRoundTrip(y);
  }

  /******* Shortest encoding *******/

  lemma {:induction false} BigEndianOf(s: seq<Byte>)
    ensures BigEndian(FromBigEndian(s), |s|) == s
  {
    if |s| > 0 {
      BigEndianOf(s[..|s| - 1]);
      assert s == s[..|s| - 1] + [s[|s| - 1]];
    }
  }

  /** The code takes no more bytes of s than what was read of it, and as many only if it is those bytes. */
  predicate Shortest(s: seq<Byte>, code: seq<Byte>, rest: seq<Byte>) {
    |code| + |rest| <= |s| && (|code| + |rest| == |s| ==> s == code + rest)
  }

  lemma ThreeParts(s: seq<Byte>, width: nat)
    requires 1 + width <= |s|
    ensures s == [s[0]] + s[1..1 + width] + s[1 + width..]
  {
  }

  lemma WideHeadShortest(s: seq<Byte>, major: nat, width: nat, argument: seq<Byte>)
    requires width in {1, 2, 4, 8} && major < 8 && |argument| == width && |s| >= 1 + width
    requires s[0] == 32 * major + WidthCode(width) && argument == s[1..1 + width]
    ensures var n := FromBigEndian(argument); n < TWO64 && Shortest(s, Head(major, n), s[1 + width..])
  {
    var n := FromBigEndian(argument);
    Powers();
    BigEndianOf(argument);
    if Width(n) == width {
      assert Head(major, n) == [s[0]] + argument;
      ThreeParts(s, width);
    }
  }

  /** Every head that is read is at least as long as the deterministic one, and equal to it if it is no longer. */
  lemma HeadShortest(s: seq<Byte>)
    requires ReadHead(s).Read?
    ensures var (major, n) := ReadHead(s).value; major < 8 && n < TWO64 && Shortest(s, Head(major, n), ReadHead(s).rest)
  {
    var major, info := s[0] / 32, s[0] % 32;
    if info < 24 {
      assert Head(major, info) == [s[0]];
      assert s == [s[0]] + s[1..];
    } else {
      var width := if info == 24 then 1 else if info == 25 then 2 else if info == 26 then 4 else 8;
      WideHeadShortest(s, major, width, s[1..1 + width]);
    }
  }

  lemma ShortestThen(s: seq<Byte>, code: seq<Byte>, middle: seq<Byte>, more: seq<Byte>, rest: seq<Byte>)
    requires Shortest(s, code, middle) && Shortest(middle, more, rest)
    ensures Shortest(s, code + more, rest)
  {
    Associate(code, more, rest);
  }

  lemma {:induction false} DecodeShortest(s: seq<Byte>)
    requires Decode(s).Read?
    ensures Encodable(Decode(s).value) && Shortest(s, Encode(Decode(s).value), Decode(s).rest)
    decreases |s|, 0
  {
    var (major, n) := ReadHead(s).value;
    HeadShortest(s);
    if major < 2 {
    } else if major < 4 {
      DataShortest(s, major, n, ReadHead(s).rest);
    } else {
      var count := if major == 4 then n else 2 * n;
      DecodeAllShortest(count, ReadHead(s).rest);
      ListShortest(s, major, n, ReadHead(s).rest, DecodeAll(count, ReadHead(s).rest).value, DecodeAll(count, ReadHead(s).rest).rest);
    }
  }

  lemma DataShortest(s: seq<Byte>, major: nat, n: nat, rest: seq<Byte>)
    requires major in {2, 3} && n <= |rest| && n < TWO64 && Shortest(s, Head(major, n), rest)
    ensures var x := if major == 2 then Bytes(rest[..n]) else Text(rest[..n]); Encodable(x) && Shortest(s, Encode(x), rest[n..])
  {
    assert rest == rest[..n] + rest[n..];
    ShortestThen(s, Head(major, n), rest, rest[..n], rest[n..]);
  }

  lemma ListShortest(s: seq<Byte>, major: nat, n: nat, rest: seq<Byte>, items: seq<Item>, after: seq<Byte>)
    requires major in {4, 5} && n < TWO64 && (major == 4 ==> n <= MAX_ARRAY) && |items| == (if major == 4 then n else 2 * n)
    requires AllEncodable(items) && Shortest(s, Head(major, n), rest) && Shortest(rest, EncodeAll(items), after)
    ensures var x := if major == 4 then Array(items) else Map(items); Encodable(x) && Shortest(s, Encode(x), after)
  {
    ShortestThen(s, Head(major, n), rest, EncodeAll(items), after);
  }

  lemma {:induction false} DecodeAllShortest(n: nat, s: seq<Byte>)
    requires DecodeAll(n, s).Read?
    ensures AllEncodable(DecodeAll(n, s).value) && Shortest(s, EncodeAll(DecodeAll(n, s).value), DecodeAll(n, s).rest)
    decreases |s|, 1
  {
    if n > 0 {
      var first := Decode(s);
      DecodeShortest(s);
      DecodeAllShortest(n - 1, first.rest);
      var others := DecodeAll(n - 1, first.rest);
      var items := DecodeAll(n, s).value;
      assert items[0] == first.value && items[1..] == others.value;
      ShortestThen(s, Encode(first.value), first.rest, EncodeAll(others.value), others.rest);
    }
  }

  /**
   Deterministic encoding is the unique shortest one: every document that decodes to an item is longer than the item's encoding,
   unless it is that encoding.
   */
  lemma EncodeShortest(s: seq<Byte>, x: Item)
    requires DecodeWhole(s) == Some(x)
    ensures Encodable(x) && |Encode(x)| <= |s| && (|Encode(x)| == |s| <==> s == Encode(x))
  {
    DecodeShortest(s);
    assert Encode(x) + [] == Encode(x);
  }

  /** Examples of appendix A of RFC 8949. */
  lemma AppendixA()
    ensures Encode(UInt(0)) == [0x00] && Encode(UInt(10)) == [0x0a] && Encode(UInt(23)) == [0x17] && Encode(UInt(24)) == [0x18, 0x18]
    ensures Encode(UInt(100)) == [0x18, 0x64] && Encode(UInt(1000)) == [0x19, 0x03, 0xe8] && Encode(NInt(0)) == [0x20] && Encode(NInt(99)) == [0x38, 0x63]
    ensures Encode(Bytes([1, 2, 3, 4])) == [0x44, 0x01, 0x02, 0x03, 0x04] && Encode(Text([0x61])) == [0x61, 0x61]
  {
    Powers();
    assert BigEndian(0, 0) == [];
    assert BigEndian(24, 1) == [0x18] && BigEndian(100, 1) == [0x64] && BigEndian(99, 1) == [0x63];
    assert BigEndian(3, 1) == [3] && BigEndian(1000, 2) == [0x03, 0xe8];
  }

  /** More of them: an array, and a map of two pairs. */
  lemma AppendixALists(items: seq<Item>, pairs: seq<Item>)
    requires items == [UInt(1), UInt(2), UInt(3)] && pairs == [UInt(1), UInt(2), UInt(3), UInt(4)]
    ensures Encodable(Array(items)) && Encode(Array(items)) == [0x83, 0x01, 0x02, 0x03]
    ensures Encodable(Map(pairs)) && Encode(Map(pairs)) == [0xa2, 0x01, 0x02, 0x03, 0x04]
  {
    SmallItems(items);
    SmallItems(pairs);
    assert EncodeAll(items) == [1, 2, 3] && EncodeAll(pairs) == [1, 2, 3, 4];
  }

  /** And an integer of four bytes. */
  lemma AppendixAWide(n: nat)
    requires n == 1000000
    ensures Encode(UInt(n)) == [0x1a, 0x00, 0x0f, 0x42, 0x40]
  {
    Powers();
    assert BigEndian(0, 0) == [] && BigEndian(0, 1) == [0x00] && BigEndian(0x0f, 2) == [0x00, 0x0f];
    assert BigEndian(0x0f42, 3) == [0x00, 0x0f, 0x42];
    assert BigEndian(n, 4) == [0x00, 0x0f, 0x42, 0x40];
  }

  /** Integers below 24 are their own bytes. */
  lemma {:induction false} SmallItems(items: seq<Item>)
    requires forall i :: 0 <= i < |items| ==> items[i].UInt? && items[i].n < 24
    ensures AllEncodable(items) && |EncodeAll(items)| == |items| && forall i :: 0 <= i < |items| ==> EncodeAll(items)[i] == items[i].n
  {
    if |items| > 0 {
      SmallItems(items[1..]);
    }
  }

  /** The decoder alone is not injective: it also reads a longer head. */
  lemma LongHeadIsRead()
    ensures DecodeWhole([24, 1]) == DecodeWhole([1]) == Some(UInt(1))
  {
    assert FromBigEndian([]) == 0;
    assert [24, 1][1..2] == [1] && [1][..0] == [];
    assert FromBigEndian([1]) == 1;
  }

  /******* Maps with integer labels *******/

  datatype Field = Field(key: nat, value: Item)

  function Flatten(fields: seq<Field>): (r: seq<Item>)
    ensures |r| == 2 * |fields|
  {
    if |fields| == 0 then [] else [UInt(fields[0].key), fields[0].value] + Flatten(fields[1..])
  }

  /** The values by label; None for a label of another type or one that is repeated. */
  function ByLabel(items: seq<Item>): Option<map<nat, Item>>
    decreases |items|
  {
    if |items| == 0 then Some(map[])
    else if |items| == 1 || !items[0].UInt? then None
    else
      var others := ByLabel(items[2..]);
      if others.None? || items[0].n in others.value then None else Some(others.value[items[0].n := items[1]])
  }

  predicate Ascending(fields: seq<Field>) {
    forall i, j :: 0 <= i < j < |fields| ==> fields[i].key < fields[j].key
  }

  /** Reading back fields of ascending labels gives each its value and nothing else. */
  lemma {:induction false} LabelsRoundTrip(fields: seq<Field>)
    requires Ascending(fields)
    ensures ByLabel(Flatten(fields)).Some?
    ensures forall i :: 0 <= i < |fields| ==>
              fields[i].key in ByLabel(Flatten(fields)).value && ByLabel(Flatten(fields)).value[fields[i].key] == fields[i].value
    ensures forall l :: l in ByLabel(Flatten(fields)).value ==> exists i :: 0 <= i < |fields| && fields[i].key == l
  {
    if |fields| > 0 {
      var others := fields[1..];
      LabelsRoundTrip(others);
      assert Flatten(fields)[2..] == Flatten(others);
      var m := ByLabel(Flatten(others)).value;
      assert fields[0].key !in m;
      forall i | 0 <= i < |fields| ensures fields[i].key in ByLabel(Flatten(fields)).value && ByLabel(Flatten(fields)).value[fields[i].key] == fields[i].value {
        if i > 0 { assert fields[i] == others[i - 1]; }
      }
      forall l | l in ByLabel(Flatten(fields)).value ensures exists i :: 0 <= i < |fields| && fields[i].key == l {
        if l in m {
          var i :| 0 <= i < |others| && others[i].key == l;
          assert fields[i + 1].key == l;
        }
      }
    }
  }

  predicate FieldsEncodable(fields: seq<Field>) {
    |fields| <= 64 && forall i :: 0 <= i < |fields| ==> fields[i].key < 24 && Encodable(fields[i].value)
  }

  lemma {:induction false} FlattenEncodable(fields: seq<Field>)
    requires forall i :: 0 <= i < |fields| ==> fields[i].key < 24 && Encodable(fields[i].value)
    ensures AllEncodable(Flatten(fields))
  {
    if |fields| > 0 {
      FlattenEncodable(fields[1..]);
    }
  }

  function FieldMap(fields: seq<Field>): (x: Item)
    requires FieldsEncodable(fields)
    ensures Encodable(x) && x.Map?
  {
    FlattenEncodable(fields);
    Map(Flatten(fields))
  }
}
