/**
 Splitting release layers into inspected bytes: gzip members (section 2.3 of RFC 1952) into
 headers, compressed bodies, trailers and padding, and a tar stream into file bodies and
 everything else. DEFLATE itself is a parameter.
 */
module ReleaseContent {
  import opened Base

  type Positive = x: int | x >= 1 witness 1

  // One bounded call of the decompressor: its output, whether the member ended, whether input is left
  // unread before that end, and how many bytes follow the member.
  datatype Inflated = Broken | Inflated(output: Octets, ended: bool, tail: bool, unused: nat)

  // A whole member at the start of the input: what it decompresses to and how long it is.
  datatype Member = Member(output: Octets, size: nat)

  type Inflate = (Octets, Positive) -> Inflated
  type Members = Octets -> Option<Member>

  /**
   What the bounded decompressor promises: with room for more than the whole output it ends the member
   and reports what follows; otherwise it fails, stops early or fills all the room it was given.
   */
  ghost predicate Honest(inflate: Inflate, members: Members, s: Octets, limit: Positive) {
    var r := inflate(s, limit);
    match members(s)
    case Some(m) =>
      m.size <= |s| && if |m.output| < limit then r == Inflated(m.output, true, false, |s| - m.size) else Stopped(r, limit)
    case None => Stopped(r, limit)
  }

  predicate Stopped(r: Inflated, limit: int) {
    r.Broken? || !r.ended || r.tail || |r.output| >= limit
  }

  /******* Headers *******/

  predicate Flag(flags: Byte, bit: nat)
    requires bit > 0
  {
    flags / bit % 2 == 1
  }

  /** The first zero byte at or after an index. */
  function FindZero(s: Octets, from: nat): (r: Option<nat>)
    ensures r.Some? ==> from <= r.value < |s| && s[r.value] == 0 && forall i :: from <= i < r.value ==> s[i] != 0
    ensures r.None? ==> forall i :: from <= i < |s| ==> s[i] != 0
    decreases |s| - from
  {
    if from >= |s| then None else if s[from] == 0 then Some(from) else FindZero(s, from + 1)
  }

  /** The end of a zero-terminated field, if the header has one. */
  function FieldEnd(s: Octets, from: nat, present: bool): Option<nat> {
    if !present then Some(from)
    else
      var zero := FindZero(s, from);
      if zero.Some? then Some(zero.value + 1) else None
  }

  function Little(low: int, high: int): int {
    low + 256 * high
  }

  function ExtraEnd(s: Octets): Option<nat>
    requires |s| >= 10
  {
    if !Flag(s[3], 4) then Some(10)
    else if |s| < 12 || 12 + Little(s[10], s[11]) > |s| then None
    else Some(12 + Little(s[10], s[11]))
  }

  /** The end of the name and the comment, as far as the header has them. */
  function TextsEnd(s: Octets, from: nat, flags: Byte): Option<nat> {
    var name := FieldEnd(s, from, Flag(flags, 8));
    if name.None? then None else FieldEnd(s, name.value, Flag(flags, 16))
  }

  /** The length of the member header at the start of s, with no bound on it. */
  function HeaderLength(s: Octets): Option<nat> {
    if |s| < 10 || s[..3] != [0x1f, 0x8b, 0x08] || s[3] >= 32 then None
    else
      var extra := ExtraEnd(s);
      if extra.None? then None
      else
        var texts := TextsEnd(s, extra.value, s[3]);
        if texts.None? then None
        else
          var end := texts.value + if Flag(s[3], 2) then 2 else 0;
          if end > |s| then None else Some(end)
  }

  /******* The split, without bounds *******/

  datatype Part = Part(padding: Octets, header: Octets, body: Octets, trailer: Octets, output: Octets)

  datatype Split = Split(parts: seq<Part>, tail: Octets)

  function Zeros(s: Octets): (n: nat)
    ensures n <= |s| && (forall i :: 0 <= i < n ==> s[i] == 0) && (n < |s| ==> s[n] != 0)
  {
    if |s| == 0 || s[0] != 0 then 0 else 1 + Zeros(s[1..])
  }

  lemma Cut(s: Octets, n: nat, h: nat, size: nat)
    requires n + size <= |s| && h + 8 <= size
    ensures s[..n + size] == s[..n] + s[n..][..h] + s[n..][h..size - 8] + s[n..][size - 8..size]
  {
    var d := s[n..];
    assert d[..h] + d[h..size - 8] == d[..size - 8];
    assert d[..size - 8] + d[size - 8..size] == d[..size];
    assert s[..n] + d[..size] == s[..n + size];
    assert s[..n] + d[..h] + d[h..size - 8] + d[size - 8..size] == s[..n] + (d[..h] + d[h..size - 8] + d[size - 8..size]);
  }

  /** The member after n bytes of padding, if it is a whole one. */
  function PartAt(s: Octets, n: nat, members: Members): (r: Option<Part>)
    requires n <= |s|
    ensures r.Some? ==> Size(r.value) <= |s| && |r.value.padding| == n && |r.value.trailer| == 8 && |r.value.header| >= 10
    ensures r.Some? ==> s[..Size(r.value)] == r.value.padding + r.value.header + r.value.body + r.value.trailer
  {
    var d := s[n..];
    var h := HeaderLength(d);
    var m := members(d);
    if h.None? || m.None? || m.value.size < h.value + 8 || m.value.size > |d| then None
    else
      var size := m.value.size;
      Cut(s, n, h.value, size);
      Some(Part(s[..n], d[..h.value], d[h.value..size - 8], d[size - 8..size], m.value.output))
  }

  function Size(p: Part): nat {
    |p.padding| + |p.header| + |p.body| + |p.trailer|
  }

  /** Members with zero padding between and after them, but not before the first. */
  function Parse(s: Octets, first: bool, members: Members): Option<Split>
    decreases |s|
  {
    var n := Zeros(s);
    if n > 0 && first then None
    else if n == |s| then Some(Split([], s))
    else
      var part := PartAt(s, n, members);
      if part.None? then None
      else
        var others := Parse(s[Size(part.value)..], false, members);
        if others.None? then None else Some(Split([part.value] + others.value.parts, others.value.tail))
  }

  function Joined(parts: seq<Part>): Octets {
    if |parts| == 0 then []
    else var p := parts[0]; p.padding + p.header + p.body + p.trailer + Joined(parts[1..])
  }

  function MetadataOf(parts: seq<Part>): Octets {
    if |parts| == 0 then []
    else var p := parts[0]; p.padding + p.header + p.trailer + MetadataOf(parts[1..])
  }

  function OutputOf(parts: seq<Part>): Octets {
    if |parts| == 0 then [] else parts[0].output + OutputOf(parts[1..])
  }

  predicate AllZero(s: Octets) {
    forall i :: 0 <= i < |s| ==> s[i] == 0
  }

  /** A partition of the input in order, with zero padding and none before the first member. */
  predicate Partitions(s: Octets, first: bool, r: Split) {
    && Joined(r.parts) + r.tail == s && AllZero(r.tail)
    && (forall i :: 0 <= i < |r.parts| ==> WellShaped(r.parts[i]))
    && (first && |r.parts| > 0 ==> r.parts[0].padding == [])
  }

  predicate WellShaped(p: Part) {
    AllZero(p.padding) && |p.header| >= 10 && |p.trailer| == 8
  }

  /** Padding, headers, bodies and trailers partition the input exactly, in order. */
  lemma {:induction false} SplitPartitions(s: Octets, first: bool, members: Members)
    requires Parse(s, first, members).Some?
    ensures Partitions(s, first, Parse(s, first, members).value)
    decreases |s|
  {
    var n := Zeros(s);
    if n < |s| {
      ParseStep(s, first, members);
      var p := PartAt(s, n, members).value;
      SplitPartitions(s[Size(p)..], false, members);
      PartitionCons(s, first, p, Parse(s[Size(p)..], false, members).value);
    } else {
      assert Joined([]) + s == s;
    }
  }

  lemma PartitionCons(s: Octets, first: bool, p: Part, r: Split)
    requires Size(p) <= |s| && s[..Size(p)] == p.padding + p.header + p.body + p.trailer && |p.padding| == Zeros(s)
    requires |p.header| >= 10 && |p.trailer| == 8 && (first ==> Zeros(s) == 0) && Partitions(s[Size(p)..], false, r)
    ensures Partitions(s, first, Split([p] + r.parts, r.tail))
  {
    assert s == s[..Size(p)] + s[Size(p)..];
    JoinedCons(p, r.parts, r.tail);
    forall i | 0 <= i < |p.padding| ensures p.padding[i] == 0 { assert s[i] == s[..Size(p)][i] == p.padding[i]; }
  }

  lemma ParseStep(s: Octets, first: bool, members: Members)
    requires Zeros(s) < |s| && !(Zeros(s) > 0 && first)
    ensures var part := PartAt(s, Zeros(s), members);
            if part.None? then Parse(s, first, members).None?
            else Parse(s, first, members) == Prepend([part.value], Parse(s[Size(part.value)..], false, members))
  {
  }

  lemma JoinedCons(p: Part, parts: seq<Part>, tail: Octets)
    ensures Joined([p] + parts) + tail == p.padding + p.header + p.body + p.trailer + (Joined(parts) + tail)
  {
    assert ([p] + parts)[1..] == parts;
  }

  /** Metadata is everything but the bodies, and bodies are counted once. */
  lemma {:induction false} MetadataIsTheRest(parts: seq<Part>)
    ensures |Joined(parts)| == |MetadataOf(parts)| + BodyBytes(parts)
    ensures MetadataOf(parts) == Joined(seq(|parts|, i requires 0 <= i < |parts| => parts[i].(body := [])))
  {
    if |parts| > 0 {
      MetadataIsTheRest(parts[1..]);
      var bare := seq(|parts|, i requires 0 <= i < |parts| => parts[i].(body := []));
      assert bare[1..] == seq(|parts[1..]|, i requires 0 <= i < |parts[1..]| => parts[1..][i].(body := []));
    }
  }

  function BodyBytes(parts: seq<Part>): nat {
    if |parts| == 0 then 0 else |parts[0].body| + BodyBytes(parts[1..])
  }

  lemma {:induction false} Appended(a: seq<Part>, b: seq<Part>)
    ensures MetadataOf(a + b) == MetadataOf(a) + MetadataOf(b) && OutputOf(a + b) == OutputOf(a) + OutputOf(b)
  {
    if |a| == 0 {
      assert a + b == b;
    } else {
      assert (a + b)[1..] == a[1..] + b;
      Appended(a[1..], b);
    }
  }

  /******* The bounded split *******/

  datatype Bounds = Bounds(output: int, metadata: int, members: int)

  predicate Within(r: Split, bounds: Bounds) {
    && |OutputOf(r.parts)| <= bounds.output && |MetadataOf(r.parts)| + |r.tail| <= bounds.metadata && |r.parts| <= bounds.members
  }

  /** What the decoder accepts: some members, all three bounds positive and kept. */
  predicate Accepts(s: Octets, bounds: Bounds, members: Members) {
    && bounds.output >= 1 && bounds.metadata >= 1 && bounds.members >= 1
    && Parse(s, true, members).Some? && Parse(s, true, members).value.parts != [] && Within(Parse(s, true, members).value, bounds)
  }

  method Find(s: Octets, from: nat, limit: int) returns (r: Option<nat>)
    ensures r.Some? ==> FindZero(s, from) == r && r.value < limit
    ensures r.None? ==> FindZero(s, from).None? || FindZero(s, from).value >= limit
  {
    var i := from;
    while i < |s| && i < limit
      invariant from <= i
      invariant FindZero(s, from) == FindZero(s, i)
      decreases |s| - i
    {
      if s[i] == 0 { return Some(i); }
      i := i + 1;
    }
    return None;
  }

  /** A terminated field, searched for no further than it could fit. */
  method ReadField(s: Octets, from: nat, present: bool, room: int) returns (r: Option<nat>)
    ensures r.Some? ==> FieldEnd(s, from, present) == r
    ensures r.None? ==> FieldEnd(s, from, present).None? || FieldEnd(s, from, present).value > room + 1
  {
    if !present { return Some(from); }
    var zero := Find(s, from, room + 1);
    if zero.None? { return None; }
    return Some(zero.value + 1);
  }

  method ReadTexts(s: Octets, from: nat, flags: Byte, room: int) returns (r: Option<nat>)
    ensures r.Some? ==> TextsEnd(s, from, flags) == r
    ensures r.None? ==> TextsEnd(s, from, flags).None? || TextsEnd(s, from, flags).value > room + 1
  {
    var name := ReadField(s, from, Flag(flags, 8), room);
    if name.None? { return None; }
    r := ReadField(s, name.value, Flag(flags, 16), room);
  }

  /** The header at the start of s; the search for its terminators stops where it would exceed the room. */
  method ReadHeader(s: Octets, room: int) returns (r: Option<nat>)
    requires room >= 0
    ensures r.Some? ==> HeaderLength(s) == r
    ensures r.None? ==> HeaderLength(s).None? || HeaderLength(s).value > room
  {
    if |s| < 10 || s[..3] != [0x1f, 0x8b, 0x08] { return None; }
    var flags, end := s[3], 10;
    if flags >= 32 { return None; }
    if Flag(flags, 4) {
      if end + 2 > |s| { return None; }
      end := end + 2 + Little(s[10], s[11]);
    }
    if end > |s| { return None; }
    var texts := ReadTexts(s, end, flags, room);
    if texts.None? { return None; }
    end := texts.value;
    if Flag(flags, 2) { end := end + 2; }
    if end > |s| { return None; }
    return Some(end);
  }

  function Prepend(done: seq<Part>, r: Option<Split>): Option<Split> {
    if r.None? then None else Some(Split(done + r.value.parts, r.value.tail))
  }

  lemma PrependTwice(a: seq<Part>, b: seq<Part>, r: Option<Split>)
    ensures Prepend(a, Prepend(b, r)) == Prepend(a + b, r)
  {
    if r.Some? { assert a + (b + r.value.parts) == (a + b) + r.value.parts; }
  }

  /** The whole split is the parts done so far followed by that of the rest. */
  ghost predicate Resumes(whole: Option<Split>, done: seq<Part>, rest: Octets, members: Members) {
    whole == Prepend(done, Parse(rest, done == [], members))
  }

  lemma Continue(whole: Option<Split>, done: seq<Part>, s: Octets, members: Members, p: Part)
    requires Resumes(whole, done, s, members)
    requires Zeros(s) < |s| && !(Zeros(s) > 0 && done == []) && PartAt(s, Zeros(s), members) == Some(p)
    ensures Resumes(whole, done + [p], s[Size(p)..], members)
  {
    ParseStep(s, done == [], members);
    PrependTwice(done, [p], Parse(s[Size(p)..], false, members));
  }

  /** Totals over the whole input are those over the parts done and those over the rest. */
  lemma Exceeds(whole: Option<Split>, done: seq<Part>, rest: Octets, members: Members)
    requires Resumes(whole, done, rest, members) && whole.Some?
    ensures Parse(rest, done == [], members).Some?
    ensures var left := Parse(rest, done == [], members).value;
            && |OutputOf(whole.value.parts)| == |OutputOf(done)| + |OutputOf(left.parts)|
            && |MetadataOf(whole.value.parts)| + |whole.value.tail| == |MetadataOf(done)| + |MetadataOf(left.parts)| + |left.tail|
            && |whole.value.parts| == |done| + |left.parts|
  {
    Appended(done, Parse(rest, done == [], members).value.parts);
  }

  method SkipPadding(data: Octets, offset: nat) returns (end: nat)
    requires offset <= |data|
    ensures offset <= end <= |data| && end - offset == Zeros(data[offset..])
  {
    end := offset;
    while end < |data| && data[end] == 0
      invariant offset <= end <= |data|
      invariant Zeros(data[offset..]) == end - offset + Zeros(data[end..])
    {
      assert data[end..][1..] == data[end + 1..];
      end := end + 1;
    }
  }

  /** The unread rest starts with a member, or is all padding. */
  lemma FirstOfRest(s: Octets, first: bool, members: Members)
    requires Parse(s, first, members).Some?
    ensures var left := Parse(s, first, members).value;
            && !(Zeros(s) > 0 && first)
            && if Zeros(s) == |s| then left == Split([], s)
               else
                 && PartAt(s, Zeros(s), members).Some? && |left.parts| > 0
                 && var p := PartAt(s, Zeros(s), members).value;
                    |MetadataOf(left.parts)| >= |p.padding| + |p.header| + 8 && |OutputOf(left.parts)| >= |p.output|
  {
  }

  /** Why an input is refused at this offset. */
  ghost predicate Refusing(s: Octets, done: seq<Part>, members: Members, bounds: Bounds) {
    var n := Zeros(s);
    || (n > 0 && done == [])
    || |MetadataOf(done)| + n > bounds.metadata
    || (n < |s| && |done| + 1 > bounds.members)
    || (n < |s| && !Fits(PartAt(s, n, members), done, bounds))
  }

  ghost predicate Fits(p: Option<Part>, done: seq<Part>, bounds: Bounds) {
    && p.Some? && |MetadataOf(done)| + |p.value.padding| + |p.value.header| + 8 <= bounds.metadata
    && |OutputOf(done)| + |p.value.output| <= bounds.output
  }

  lemma Refused(whole: Option<Split>, done: seq<Part>, rest: Octets, members: Members, bounds: Bounds)
    requires Resumes(whole, done, rest, members) && Refusing(rest, done, members, bounds)
    ensures whole.None? || !Within(whole.value, bounds)
  {
    if whole.Some? {
      Exceeds(whole, done, rest, members);
      FirstOfRest(rest, done == [], members);
    }
  }

  lemma Finished(whole: Option<Split>, done: seq<Part>, rest: Octets, members: Members)
    requires Resumes(whole, done, rest, members) && Zeros(rest) == |rest| && done != []
    ensures whole == Some(Split(done, rest))
  {
    assert done + [] == done;
  }

  /** Retained bytes are counted before they are appended. */
  method Retain(metadata: Octets, value: Octets, bound: int) returns (r: Option<Octets>)
    ensures r == if |metadata| + |value| > bound then None else Some(metadata + value)
  {
    if |metadata| + |value| > bound { return None; }
    return Some(metadata + value);
  }

  /** One bounded call of the decompressor on the member at the start of s. */
  method ReadMember(s: Octets, room: nat, inflate: Inflate, ghost members: Members) returns (r: Option<Member>)
    requires Honest(inflate, members, s, room + 1)
    ensures r == match members(s) case None => None case Some(m) => if |m.output| <= room then Some(m) else None
    ensures r.Some? ==> r.value.size <= |s|
  {
    var result := inflate(s, room + 1);
    if result.Broken? { return None; }
    if |result.output| > room { return None; }
    if !result.ended || result.tail { return None; }
    return Some(Member(result.output, |s| - result.unused));
  }

  // A member that was read: its length, its output, and its header and trailer.
  datatype Reading = Reading(size: nat, output: Octets, kept: Octets)

  /** The member at the start of s, where its header and trailer and its output fit the room left. */
  method ReadBody(s: Octets, room: nat, outputRoom: nat, inflate: Inflate, ghost members: Members) returns (r: Option<Reading>)
    requires Honest(inflate, members, s, outputRoom + 1)
    ensures var p := PartAt(s, 0, members);
            && (r.Some? <==> p.Some? && |p.value.header| + 8 <= room && |p.value.output| <= outputRoom)
            && (r.Some? ==> r.value == Reading(Size(p.value), p.value.output, p.value.header + p.value.trailer))
  {
    assert s[0..] == s;
    var header := ReadHeader(s, room);
    if header.None? || header.value > room { return None; }
    var member := ReadMember(s, outputRoom, inflate, members);
    if member.None? || member.value.size < header.value + 8 { return None; }
    if header.value + 8 > room { return None; }
    var size := member.value.size;
    return Some(Reading(size, member.value.output, s[..header.value] + s[size - 8..size]));
  }

  lemma PartAfterPadding(s: Octets, n: nat, members: Members)
    requires n <= |s|
    ensures var p, q := PartAt(s, n, members), PartAt(s[n..], 0, members);
            p.Some? == q.Some? && (p.Some? ==> p.value == q.value.(padding := s[..n]))
  {
    assert s[n..][0..] == s[n..];
  }

  // One turn of the loop: refuse the input, end with trailing padding, or pass one member.
  datatype Turn = Refuse | Finish(metadata: Octets) | Next(end: nat, output: Octets, metadata: Octets)

  /** What a turn at this offset must do. */
  ghost predicate TurnIs(turn: Turn, s: Octets, offset: nat, metadata: Octets, done: seq<Part>, members: Members, bounds: Bounds) {
    var n := Zeros(s);
    if Refusing(s, done, members, bounds) then turn == Refuse
    else if n == |s| then turn == Finish(metadata + s)
    else
      var p := PartAt(s, n, members);
      p.Some? && turn == Next(offset + Size(p.value), p.value.output, metadata + p.value.padding + p.value.header + p.value.trailer)
  }

  lemma TurnReads(s: Octets, offset: nat, metadata: Octets, done: seq<Part>, members: Members, bounds: Bounds, read: Option<Reading>)
    requires metadata == MetadataOf(done) && Zeros(s) < |s| && !(Zeros(s) > 0 && done == [])
    requires |metadata| + Zeros(s) <= bounds.metadata && |done| + 1 <= bounds.members && |OutputOf(done)| <= bounds.output
    requires var p := PartAt(s[Zeros(s)..], 0, members);
             && (read.Some? <==> p.Some? && |metadata| + Zeros(s) + |p.value.header| + 8 <= bounds.metadata && |OutputOf(done)| + |p.value.output| <= bounds.output)
             && (read.Some? ==> read.value == Reading(Size(p.value), p.value.output, p.value.header + p.value.trailer))
    ensures TurnIs(if read.None? then Refuse else Next(offset + Zeros(s) + read.value.size, read.value.output, metadata + s[..Zeros(s)] + read.value.kept),
                   s, offset, metadata, done, members, bounds)
  {
    PartAfterPadding(s, Zeros(s), members);
    if read.Some? {
      var p := PartAt(s[Zeros(s)..], 0, members).value;
      assert metadata + s[..Zeros(s)] + (p.header + p.trailer) == metadata + s[..Zeros(s)] + p.header + p.trailer;
    }
  }

  method ReadPart(data: Octets, bounds: Bounds, offset: nat, outputSize: nat, metadata: Octets, count: nat, inflate: Inflate, ghost members: Members, ghost done: seq<Part>)
    returns (turn: Turn)
    requires offset < |data| && forall s, n :: Honest(inflate, members, s, n)
    requires outputSize == |OutputOf(done)| <= bounds.output && metadata == MetadataOf(done) && count == |done|
    ensures TurnIs(turn, data[offset..], offset, metadata, done, members, bounds)
  {
    var start := SkipPadding(data, offset);
    ghost var s := data[offset..];
    var padding, rest := data[offset..start], data[start..];
    assert s[Zeros(s)..] == rest && s[..Zeros(s)] == padding;
    if start != offset && count == 0 { return Refuse; }
    var kept := Retain(metadata, padding, bounds.metadata);
    if kept.None? { return Refuse; }
    if start == |data| { return Finish(kept.value); }
    if count + 1 > bounds.members { return Refuse; }
    assert Honest(inflate, members, rest, bounds.output - outputSize + 1);
    var read := ReadBody(rest, bounds.metadata - |kept.value|, bounds.output - outputSize, inflate, members);
    TurnReads(s, offset, metadata, done, members, bounds, read);
    if read.None? { return Refuse; }
    return Next(start + read.value.size, read.value.output, kept.value + read.value.kept);
  }

  /** The outputs and the metadata of the parts done, within the bounds. */
  ghost predicate Holds(payloads: Octets, metadata: Octets, done: seq<Part>, bounds: Bounds) {
    && payloads == OutputOf(done) && metadata == MetadataOf(done)
    && |payloads| <= bounds.output && |metadata| <= bounds.metadata && |done| <= bounds.members
  }

  lemma HoldsNext(payloads: Octets, metadata: Octets, done: seq<Part>, bounds: Bounds, p: Part)
    requires Holds(payloads, metadata, done, bounds) && Fits(Some(p), done, bounds) && |p.trailer| == 8 && |done| + 1 <= bounds.members
    ensures Holds(payloads + p.output, metadata + p.padding + p.header + p.trailer, done + [p], bounds)
  {
    AppendedOne(done, p);
  }

  lemma TurnPasses(turn: Turn, s: Octets, offset: nat, metadata: Octets, done: seq<Part>, members: Members, bounds: Bounds)
    requires TurnIs(turn, s, offset, metadata, done, members, bounds) && turn.Next?
    ensures Zeros(s) < |s| && !(Zeros(s) > 0 && done == []) && |done| + 1 <= bounds.members
    ensures var p := PartAt(s, Zeros(s), members);
            && Fits(p, done, bounds) && |p.value.trailer| == 8 && Size(p.value) > 0
            && turn == Next(offset + Size(p.value), p.value.output, metadata + p.value.padding + p.value.header + p.value.trailer)
  {
  }

  lemma PassedPart(whole: Option<Split>, done: seq<Part>, s: Octets, offset: nat, payloads: Octets, metadata: Octets, members: Members, bounds: Bounds, turn: Turn)
    returns (p: Part)
    requires Resumes(whole, done, s, members) && Holds(payloads, metadata, done, bounds)
    requires TurnIs(turn, s, offset, metadata, done, members, bounds) && turn.Next?
    ensures 0 < Size(p) <= |s| && turn.end == offset + Size(p) && Resumes(whole, done + [p], s[Size(p)..], members)
    ensures Holds(payloads + turn.output, turn.metadata, done + [p], bounds)
  {
    TurnPasses(turn, s, offset, metadata, done, members, bounds);
    p := PartAt(s, Zeros(s), members).value;
    Continue(whole, done, s, members, p);
    HoldsNext(payloads, metadata, done, bounds, p);
  }

  lemma LastTurn(whole: Option<Split>, tail: Octets, payloads: Octets, metadata: Octets, done: seq<Part>, bounds: Bounds)
    requires whole == Some(Split(done, tail)) && Holds(payloads, metadata, done, bounds) && |metadata| + |tail| <= bounds.metadata
    ensures Within(whole.value, bounds)
  {
  }

  /**
   decode_gzip_members accepts exactly the inputs that split into members within the three bounds,
   and returns the joined outputs and every byte that is not in a body.
   */
  method DecodeGzipMembers(data: Octets, bounds: Bounds, inflate: Inflate, ghost members: Members) returns (r: Option<(Octets, Octets)>)
    requires forall s, n :: Honest(inflate, members, s, n)
    ensures r.Some? <==> Accepts(data, bounds, members)
    ensures r.Some? ==> r.value.0 == OutputOf(Parse(data, true, members).value.parts)
    ensures r.Some? ==> r.value.1 == MetadataOf(Parse(data, true, members).value.parts) + Parse(data, true, members).value.tail
  {
    if bounds.output < 1 || bounds.metadata < 1 || bounds.members < 1 { return None; }
    var payloads: Octets, metadata: Octets, offset, count := [], [], 0, 0;
    ghost var done: seq<Part> := [];
    ghost var whole := Parse(data, true, members);
    Starts(data, members);
    while offset < |data|
      invariant 0 <= offset <= |data| && Resumes(whole, done, data[offset..], members)
      invariant Holds(payloads, metadata, done, bounds) && count == |done|
      decreases |data| - offset
    {
      var turn := ReadPart(data, bounds, offset, |payloads|, metadata, count, inflate, members, done);
      match turn
      case Refuse =>
        Refused(whole, done, data[offset..], members, bounds);
        return None;
      case Finish(all) =>
        Finished(whole, done, data[offset..], members);
        LastTurn(whole, data[offset..], payloads, metadata, done, bounds);
        return Some((payloads, all));
      case Next(end, output, all) =>
        ghost var p := PassedPart(whole, done, data[offset..], offset, payloads, metadata, members, bounds, turn);
        assert data[offset..][Size(p)..] == data[end..];
        done := done + [p];
        payloads, metadata, count, offset := payloads + output, all, count + 1, end;
    }
    if count == 0 {
      NoMembers(whole, data[offset..], members);
      return None;
    }
    Finished(whole, done, data[offset..], members);
    LastTurn(whole, data[offset..], payloads, metadata, done, bounds);
    return Some((payloads, metadata));
  }

  lemma Starts(data: Octets, members: Members)
    ensures Resumes(Parse(data, true, members), [], data[0..], members)
  {
    assert data[0..] == data;
    var r := Parse(data, true, members);
    if r.Some? { assert [] + r.value.parts == r.value.parts; }
  }

  lemma NoMembers(whole: Option<Split>, rest: Octets, members: Members)
    requires whole == Prepend([], Parse(rest, true, members)) && rest == []
    ensures whole == Some(Split([], []))
  {
    var none: seq<Part> := [];
    assert Parse(rest, true, members) == Some(Split(none, [])) && none + none == none;
  }

  lemma AppendedOne(done: seq<Part>, p: Part)
    ensures MetadataOf(done + [p]) == MetadataOf(done) + p.padding + p.header + p.trailer && OutputOf(done + [p]) == OutputOf(done) + p.output
  {
    Appended(done, [p]);
    assert [p][1..] == [];
    assert MetadataOf([p]) == p.padding + p.header + p.trailer;
  }

  /******* The tar walk *******/

  datatype Entry = Entry(name: string, root: bool, file: bool, start: nat, size: int)

  // Bytes between file bodies, and the bodies.
  datatype Walk = Walk(chunks: seq<Octets>, bodies: seq<Octets>)

  /** Chunk, body, chunk, body, ..., and the last chunk. */
  function Weave(chunks: seq<Octets>, bodies: seq<Octets>): Octets
    requires |chunks| == |bodies| + 1
  {
    if |bodies| == 0 then chunks[0]
    else Weave(chunks[..|bodies|], bodies[..|bodies| - 1]) + bodies[|bodies| - 1] + chunks[|bodies|]
  }

  /** The entries that are regular files, in order. */
  function Files(entries: seq<Entry>): seq<Entry> {
    if |entries| == 0 then []
    else
      var e := entries[|entries| - 1];
      if e.file && !e.root then Files(entries[..|entries| - 1]) + [e] else Files(entries[..|entries| - 1])
  }

  /** Where the last file body ends. */
  function CursorAfter(files: seq<Entry>): int {
    if |files| == 0 then 0 else files[|files| - 1].start + files[|files| - 1].size
  }

  /** The entry has no negative size, a name not seen before, and a body after the previous one and inside the stream. */
  ghost predicate Admissible(before: seq<Entry>, e: Entry, length: nat) {
    && e.size >= 0
    && (e.root || (!Named(before, e.name)
                   && (e.file ==> CursorAfter(Files(before)) <= e.start && e.start + e.size <= length)))
  }

  ghost predicate InOrder(entries: seq<Entry>, length: nat)
    decreases |entries|
  {
    |entries| == 0 ||
    (InOrder(entries[..|entries| - 1], length) && Admissible(entries[..|entries| - 1], entries[|entries| - 1], length))
  }

  lemma {:induction false} InOrderPrefix(before: seq<Entry>, after: seq<Entry>, length: nat)
    requires InOrder(before + after, length)
    ensures InOrder(before, length)
    decreases |after|
  {
    if |after| == 0 {
      assert before + after == before;
    } else {
      var n := |after| - 1;
      assert (before + after)[..|before + after| - 1] == before + after[..n];
      InOrderPrefix(before, after[..n], length);
    }
  }

  lemma InOrderSnoc(before: seq<Entry>, e: Entry, length: nat)
    ensures InOrder(before + [e], length) <==> InOrder(before, length) && Admissible(before, e, length)
  {
    assert (before + [e])[..|before|] == before;
  }

  /** An entry that is not admissible where it stands refuses the whole list. */
  lemma NotInOrder(before: seq<Entry>, e: Entry, after: seq<Entry>, length: nat)
    requires !Admissible(before, e, length)
    ensures !InOrder(before + [e] + after, length)
  {
    if InOrder(before + [e] + after, length) {
      InOrderPrefix(before + [e], after, length);
      InOrderSnoc(before, e, length);
    }
  }

  lemma FilesSnoc(before: seq<Entry>, e: Entry)
    ensures Files(before + [e]) == if e.file && !e.root then Files(before) + [e] else Files(before)
  {
    assert (before + [e])[..|before|] == before;
  }

  predicate BodyIs(raw: Octets, e: Entry, body: Octets) {
    e.size >= 0 && e.start + e.size <= |raw| && body == raw[e.start..e.start + e.size]
  }

  ghost predicate BodiesAre(raw: Octets, files: seq<Entry>, bodies: seq<Octets>) {
    |bodies| == |files| && forall k :: 0 <= k < |files| ==> BodyIs(raw, files[k], bodies[k])
  }

  lemma BodiesSnoc(raw: Octets, files: seq<Entry>, bodies: seq<Octets>, e: Entry, body: Octets)
    requires BodiesAre(raw, files, bodies) && BodyIs(raw, e, body)
    ensures BodiesAre(raw, files + [e], bodies + [body])
  {
  }

  /** Each chunk is what lies between the previous body and its own. */
  ghost predicate ChunksAre(raw: Octets, files: seq<Entry>, chunks: seq<Octets>) {
    |chunks| == |files| && forall k :: 0 <= k < |files| ==> ChunkIs(raw, if k == 0 then 0 else files[k - 1].start + files[k - 1].size, files[k].start, chunks[k])
  }

  predicate ChunkIs(raw: Octets, from: int, to: int, chunk: Octets) {
    0 <= from <= to <= |raw| && chunk == raw[from..to]
  }

  lemma ChunksSnoc(raw: Octets, files: seq<Entry>, chunks: seq<Octets>, e: Entry, chunk: Octets)
    requires ChunksAre(raw, files, chunks) && ChunkIs(raw, CursorAfter(files), e.start, chunk)
    ensures ChunksAre(raw, files + [e], chunks + [chunk])
  {
  }

  /** The stream up to the cursor is woven from the chunks and the bodies of these files. */
  ghost predicate WovenTo(raw: Octets, cursor: int, chunks: seq<Octets>, bodies: seq<Octets>, files: seq<Entry>) {
    && cursor == CursorAfter(files) && 0 <= cursor <= |raw| && |chunks| == |bodies| == |files|
    && Weave(chunks + [[]], bodies) == raw[..cursor] && BodiesAre(raw, files, bodies) && ChunksAre(raw, files, chunks)
  }

  lemma WovenFile(raw: Octets, cursor: nat, chunks: seq<Octets>, bodies: seq<Octets>, files: seq<Entry>, e: Entry)
    requires WovenTo(raw, cursor, chunks, bodies, files) && e.size >= 0 && cursor <= e.start && e.start + e.size <= |raw|
    ensures var end := e.start + e.size;
            WovenTo(raw, end, chunks + [raw[cursor..e.start]], bodies + [raw[e.start..end]], files + [e])
  {
    Woven(chunks, bodies, raw[cursor..e.start], raw[e.start..e.start + e.size]);
    ThreeParts(raw, cursor, e.start, e.start + e.size);
    BodiesSnoc(raw, files, bodies, e, raw[e.start..e.start + e.size]);
    ChunksSnoc(raw, files, chunks, e, raw[cursor..e.start]);
  }

  /** The bodies are those of the files, the chunks are what lies between, and together they are the stream. */
  ghost predicate Splits(raw: Octets, files: seq<Entry>, w: Walk) {
    && |w.chunks| == |files| + 1 && BodiesAre(raw, files, w.bodies) && Weave(w.chunks, w.bodies) == raw
    && ChunksAre(raw, files, w.chunks[..|files|]) && ChunkIs(raw, CursorAfter(files), |raw|, w.chunks[|files|])
  }

  lemma WovenAll(raw: Octets, cursor: nat, chunks: seq<Octets>, bodies: seq<Octets>, files: seq<Entry>)
    requires WovenTo(raw, cursor, chunks, bodies, files)
    ensures Splits(raw, files, Walk(chunks + [raw[cursor..]], bodies))
  {
    LastChunk(raw, chunks, bodies, cursor);
    assert (chunks + [raw[cursor..]])[..|files|] == chunks;
  }

  ghost predicate SeenIs(seen: set<string>, before: seq<Entry>) {
    forall x :: x in seen <==> Named(before, x)
  }

  ghost predicate Named(before: seq<Entry>, x: string) {
    exists j :: 0 <= j < |before| && !before[j].root && before[j].name == x
  }

  lemma NamedSnoc(before: seq<Entry>, e: Entry, x: string)
    ensures Named(before + [e], x) <==> Named(before, x) || (!e.root && x == e.name)
  {
    var after := before + [e];
    if Named(before, x) {
      var j :| 0 <= j < |before| && !before[j].root && before[j].name == x;
      assert after[j] == before[j];
    }
    if !e.root && x == e.name { assert after[|before|].name == x; }
  }

  lemma SeenSnoc(seen: set<string>, before: seq<Entry>, e: Entry)
    requires SeenIs(seen, before)
    ensures SeenIs(if e.root then seen else seen + {e.name}, before + [e])
  {
    forall x ensures x in (if e.root then seen else seen + {e.name}) <==> Named(before + [e], x) { NamedSnoc(before, e, x); }
  }

  /** What the walk holds after some entries. */
  ghost predicate Walking(raw: Octets, before: seq<Entry>, cursor: int, chunks: seq<Octets>, bodies: seq<Octets>, seen: set<string>) {
    InOrder(before, |raw|) && WovenTo(raw, cursor, chunks, bodies, Files(before)) && SeenIs(seen, before)
  }

  predicate Stops(e: Entry, cursor: int, seen: set<string>, length: nat) {
    e.size < 0 || (!e.root && (e.name in seen || (e.file && (e.start < cursor || e.start + e.size > length))))
  }

  /** An entry stops the walk exactly if it is not admissible. */
  lemma StopsExactly(raw: Octets, before: seq<Entry>, e: Entry, cursor: nat, chunks: seq<Octets>, bodies: seq<Octets>, seen: set<string>)
    requires Walking(raw, before, cursor, chunks, bodies, seen)
    ensures Stops(e, cursor, seen, |raw|) <==> !Admissible(before, e, |raw|)
  {
    assert e.name in seen <==> Named(before, e.name);
  }

  lemma WalkOther(raw: Octets, before: seq<Entry>, e: Entry, cursor: nat, chunks: seq<Octets>, bodies: seq<Octets>, seen: set<string>)
    requires Walking(raw, before, cursor, chunks, bodies, seen) && Admissible(before, e, |raw|) && (e.root || !e.file)
    ensures Walking(raw, before + [e], cursor, chunks, bodies, if e.root then seen else seen + {e.name})
  {
    InOrderSnoc(before, e, |raw|);
    FilesSnoc(before, e);
    SeenSnoc(seen, before, e);
  }

  lemma WalkFile(raw: Octets, before: seq<Entry>, e: Entry, cursor: nat, chunks: seq<Octets>, bodies: seq<Octets>, seen: set<string>)
    requires Walking(raw, before, cursor, chunks, bodies, seen) && Admissible(before, e, |raw|)
    requires !e.root && e.file && e.size >= 0 && cursor <= e.start && e.start + e.size <= |raw|
    ensures Walking(raw, before + [e], e.start + e.size, chunks + [raw[cursor..e.start]], bodies + [raw[e.start..e.start + e.size]], seen + {e.name})
  {
    InOrderSnoc(before, e, |raw|);
    FilesSnoc(before, e);
    SeenSnoc(seen, before, e);
    WovenFile(raw, cursor, chunks, bodies, Files(before), e);
  }

  /**
   The walk accepts exactly the entries that are in order, and splits the stream into the file bodies
   and the chunks between them: woven together they are the stream, byte for byte.
   */
  method WalkTar(raw: Octets, entries: seq<Entry>) returns (r: Option<Walk>)
    ensures r.Some? <==> InOrder(entries, |raw|)
    ensures r.Some? ==> Splits(raw, Files(entries), r.value)
  {
    var chunks: seq<Octets>, bodies: seq<Octets>, cursor := [], [], 0;
    var seen: set<string> := {};
    WalkStarts(raw, entries);
    for i := 0 to |entries|
      invariant cursor >= 0 && Walking(raw, entries[..i], cursor, chunks, bodies, seen)
    {
      var e := entries[i];
      ghost var before := entries[..i];
      SplitAt(entries, i);
      StopsExactly(raw, before, e, cursor, chunks, bodies, seen);
      if Stops(e, cursor, seen, |raw|) { NotInOrder(before, e, entries[i + 1..], |raw|); }
      if e.size < 0 { return None; }
      if e.root {
        WalkOther(raw, before, e, cursor, chunks, bodies, seen);
        continue;
      }
      if e.name in seen { return None; }
      if e.file {
        var end := e.start + e.size;
        if e.start < cursor || end > |raw| { return None; }
        WalkFile(raw, before, e, cursor, chunks, bodies, seen);
        chunks, bodies, cursor := chunks + [raw[cursor..e.start]], bodies + [raw[e.start..end]], end;
      } else {
        WalkOther(raw, before, e, cursor, chunks, bodies, seen);
      }
      seen := seen + {e.name};
    }
    assert entries[..|entries|] == entries;
    WovenAll(raw, cursor, chunks, bodies, Files(entries));
    return Some(Walk(chunks + [raw[cursor..]], bodies));
  }

  lemma SplitAt(entries: seq<Entry>, i: nat)
    requires i < |entries|
    ensures entries[..i + 1] == entries[..i] + [entries[i]] && entries == entries[..i] + [entries[i]] + entries[i + 1..]
  {
    assert entries == entries[..i + 1] + entries[i + 1..];
  }

  lemma WalkStarts(raw: Octets, entries: seq<Entry>)
    ensures Walking(raw, entries[..0], 0, [], [], {})
  {
    assert entries[..0] == [];
  }

  /** One more chunk and body. */
  lemma Woven(chunks: seq<Octets>, bodies: seq<Octets>, chunk: Octets, body: Octets)
    requires |chunks| == |bodies|
    ensures Weave(chunks + [chunk] + [[]], bodies + [body]) == Weave(chunks + [[]], bodies) + chunk + body
  {
    WeaveChunk(chunks, bodies, chunk);
    WeaveBody(chunks + [chunk], bodies, body);
  }

  lemma ThreeParts(raw: Octets, a: nat, b: nat, c: nat)
    requires a <= b <= c <= |raw|
    ensures raw[..a] + raw[a..b] + raw[b..c] == raw[..c]
  {
  }

  lemma WeaveChunk(chunks: seq<Octets>, bodies: seq<Octets>, chunk: Octets)
    requires |chunks| == |bodies|
    ensures Weave(chunks + [chunk], bodies) == Weave(chunks + [[]], bodies) + chunk
  {
    var n := |bodies|;
    assert (chunks + [[]])[..n] == chunks == (chunks + [chunk])[..n];
    if n > 0 {
      var before := Weave(chunks, bodies[..n - 1]) + bodies[n - 1];
      assert Weave(chunks + [[]], bodies) == before + [] == before;
    }
  }

  lemma WeaveBody(chunks: seq<Octets>, bodies: seq<Octets>, body: Octets)
    requires |chunks| == |bodies| + 1
    ensures Weave(chunks + [[]], bodies + [body]) == Weave(chunks, bodies) + body
  {
    var more := bodies + [body];
    assert (chunks + [[]])[..|more|] == chunks && more[..|more| - 1] == bodies;
    assert Weave(chunks, bodies) + body + [] == Weave(chunks, bodies) + body;
  }

  lemma LastChunk(raw: Octets, chunks: seq<Octets>, bodies: seq<Octets>, cursor: nat)
    requires |chunks| == |bodies| && cursor <= |raw| && Weave(chunks + [[]], bodies) == raw[..cursor]
    ensures Weave(chunks + [raw[cursor..]], bodies) == raw
  {
    WeaveChunk(chunks, bodies, raw[cursor..]);
    assert raw == raw[..cursor] + raw[cursor..];
  }
}
