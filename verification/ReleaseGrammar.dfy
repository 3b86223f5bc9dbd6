/**
 The formats that release layers are split by, stated from outside the scanners: how a gzip member header is spelled (section 2.3 of
 RFC 1952), which inputs are members with padding, and which tar entries are in order.
 */
module ReleaseGrammar {
  import opened Base
  import opened ReleaseContent

  /******* Member headers *******/

  // `fixed` is modification time, extra flags and operating system; `extra` starts with its own length in two bytes; `crc` is the
  // two bytes of the header checksum.
  datatype Header = Header(flags: Byte, fixed: Octets, extra: Option<Octets>, name: Option<Octets>, comment: Option<Octets>, crc: Option<Octets>)

  predicate NoZero(s: Octets) {
    forall i :: 0 <= i < |s| ==> s[i] != 0
  }

  /** Low byte, high byte, and as many bytes as they say. */
  predicate Sized(extra: Octets) {
    |extra| >= 2 && |extra| == 2 + (extra[0] as int) + 256 * (extra[1] as int)
  }

  /** The flags name the fields that are there. */
  predicate WellFormed(h: Header) {
    && |h.fixed| == 6 && (h.extra.Some? ==> Sized(h.extra.value)) && (h.crc.Some? ==> |h.crc.value| == 2)
    && (h.name.Some? ==> NoZero(h.name.value)) && (h.comment.Some? ==> NoZero(h.comment.value))
    && h.flags < 32 && h.crc.Some? == Flag(h.flags, 2) && h.extra.Some? == Flag(h.flags, 4)
    && h.name.Some? == Flag(h.flags, 8) && h.comment.Some? == Flag(h.flags, 16)
  }

  function Bit(b: bool, weight: nat): nat {
    if b then weight else 0
  }

  /** Each flag is its own binary digit. */
  lemma FlagsAre(text: bool, crc: bool, extra: bool, name: bool, comment: bool)
    ensures var f := Bit(text, 1) + Bit(crc, 2) + Bit(extra, 4) + Bit(name, 8) + Bit(comment, 16);
            Flag(f, 1) == text && Flag(f, 2) == crc && Flag(f, 4) == extra && Flag(f, 8) == name && Flag(f, 16) == comment && f < 32
  {
  }

  function Terminated(field: Option<Octets>): Octets {
    if field.Some? then field.value + [0] else []
  }

  function Bare(field: Option<Octets>): Octets {
    if field.Some? then field.value else []
  }

  function Spelling(h: Header): Octets
    requires WellFormed(h)
  {
    [0x1f, 0x8b, 0x08, h.flags] + h.fixed + Bare(h.extra) + Terminated(h.name) + Terminated(h.comment) + Bare(h.crc)
  }

  /** The field starts at this offset of s. */
  predicate At(s: Octets, from: int, field: Octets) {
    0 <= from && from + |field| <= |s| && forall i :: 0 <= i < |field| ==> field[i] == s[from + i]
  }

  lemma TerminatedEnd(s: Octets, from: nat, field: Option<Octets>)
    requires At(s, from, Terminated(field)) && (field.Some? ==> NoZero(field.value))
    ensures FieldEnd(s, from, field.Some?) == Some(from + |Terminated(field)|)
  {
    if field.Some? {
      var t, n := Terminated(field), |field.value|;
      assert forall i :: from <= i < from + n ==> s[i] == t[i - from] == field.value[i - from];
      assert s[from + n] == t[n] == 0;
    }
  }

  lemma FieldOf(s: Octets, from: nat, present: bool) returns (field: Option<Octets>)
    requires from <= |s| && FieldEnd(s, from, present).Some?
    ensures field.Some? == present && (present ==> NoZero(field.value))
    ensures At(s, from, Terminated(field)) && FieldEnd(s, from, present).value == from + |Terminated(field)|
  {
    if present {
      var end := FindZero(s, from).value;
      field := Some(s[from..end]);
    } else {
      field := None;
    }
  }

  /** Where each field of the spelling stands in an input that starts with it. */
  ghost predicate Laid(h: Header, s: Octets)
    requires WellFormed(h)
  {
    var a := 10 + |Bare(h.extra)|;
    var b := a + |Terminated(h.name)|;
    var c := b + |Terminated(h.comment)|;
    && At(s, 0, [0x1f, 0x8b, 0x08, h.flags]) && At(s, 4, h.fixed) && At(s, 10, Bare(h.extra))
    && At(s, a, Terminated(h.name)) && At(s, b, Terminated(h.comment)) && At(s, c, Bare(h.crc))
  }

  lemma AtConcat(s: Octets, from: nat, x: Octets, y: Octets)
    ensures At(s, from, x + y) <==> At(s, from, x) && At(s, from + |x|, y)
  {
    var both := x + y;
    assert forall i :: 0 <= i < |x| ==> both[i] == x[i];
    assert forall i :: 0 <= i < |y| ==> both[|x| + i] == y[i];
    if At(s, from, x) && At(s, from + |x|, y) {
      forall i | 0 <= i < |both| ensures both[i] == s[from + i] {
        if i >= |x| { assert y[i - |x|] == s[from + |x| + (i - |x|)]; }
      }
    }
  }

  lemma AtThree(s: Octets, from: nat, x: Octets, y: Octets, z: Octets)
    ensures At(s, from, x + y + z) <==> At(s, from, x) && At(s, from + |x|, y) && At(s, from + |x| + |y|, z)
  {
    AtConcat(s, from, x + y, z);
    AtConcat(s, from, x, y);
  }

  lemma AtSix(s: Octets, a: Octets, b: Octets, c: Octets, x: Octets, y: Octets, z: Octets)
    ensures At(s, 0, a + b + c + x + y + z) <==>
            && At(s, 0, a) && At(s, |a|, b) && At(s, |a| + |b|, c) && At(s, |a| + |b| + |c|, x)
            && At(s, |a| + |b| + |c| + |x|, y) && At(s, |a| + |b| + |c| + |x| + |y|, z)
  {
    AtConcat(s, 0, a + b + c + x + y, z);
    AtThree(s, 0, a + b + c, x, y);
    AtThree(s, 0, a, b, c);
  }

  lemma LaidExactly(h: Header, s: Octets)
    requires WellFormed(h)
    ensures At(s, 0, Spelling(h)) <==> Laid(h, s)
  {
    AtSix(s, [0x1f, 0x8b, 0x08, h.flags], h.fixed, Bare(h.extra), Terminated(h.name), Terminated(h.comment), Bare(h.crc));
  }

  lemma ExtraRead(h: Header, s: Octets)
    requires WellFormed(h) && |s| >= 10 && s[3] == h.flags && At(s, 10, Bare(h.extra))
    ensures ExtraEnd(s) == Some(10 + |Bare(h.extra)|)
  {
    if h.extra.Some? {
      var t := h.extra.value;
      assert t[0] == s[10 + 0] && t[1] == s[10 + 1];
    }
  }

  /** The length from where its parts end. */
  lemma LengthIs(s: Octets, extra: nat, texts: nat)
    requires |s| >= 10 && s[..3] == [0x1f, 0x8b, 0x08] && s[3] < 32 && ExtraEnd(s) == Some(extra) && TextsEnd(s, extra, s[3]) == Some(texts)
    ensures var end := texts + Bit(Flag(s[3], 2), 2); HeaderLength(s) == if end <= |s| then Some(end) else None
  {
  }

  lemma TextsRead(s: Octets, from: nat, flags: Byte, name: Option<Octets>, comment: Option<Octets>)
    requires name.Some? == Flag(flags, 8) && (name.Some? ==> NoZero(name.value)) && At(s, from, Terminated(name))
    requires comment.Some? == Flag(flags, 16) && (comment.Some? ==> NoZero(comment.value)) && At(s, from + |Terminated(name)|, Terminated(comment))
    ensures TextsEnd(s, from, flags) == Some(from + |Terminated(name)| + |Terminated(comment)|)
  {
    TerminatedEnd(s, from, name);
    TerminatedEnd(s, from + |Terminated(name)|, comment);
  }

  lemma FieldsRead(h: Header, s: Octets, f: Byte)
    requires WellFormed(h) && |s| >= 10 && s[..3] == [0x1f, 0x8b, 0x08] && s[3] == f && f < 32 && ExtraEnd(s) == Some(10 + |Bare(h.extra)|)
    requires Flag(f, 2) == h.crc.Some? && Flag(f, 8) == h.name.Some? && Flag(f, 16) == h.comment.Some?
    requires var a := 10 + |Bare(h.extra)|; var b := a + |Terminated(h.name)|;
             At(s, a, Terminated(h.name)) && At(s, b, Terminated(h.comment)) && At(s, b + |Terminated(h.comment)|, Bare(h.crc))
    ensures HeaderLength(s) == Some(10 + |Bare(h.extra)| + |Terminated(h.name)| + |Terminated(h.comment)| + |Bare(h.crc)|)
  {
    var a := 10 + |Bare(h.extra)|;
    TextsRead(s, a, f, h.name, h.comment);
    LengthIs(s, a, a + |Terminated(h.name)| + |Terminated(h.comment)|);
  }

  /** A well-formed header is read as far as it goes, whatever follows it. */
  lemma HeaderIsRead(h: Header, s: Octets)
    requires WellFormed(h) && At(s, 0, Spelling(h))
    ensures HeaderLength(s) == Some(|Spelling(h)|)
  {
    LaidExactly(h, s);
    MagicRead(h, s);
    ExtraRead(h, s);
    FieldsRead(h, s, h.flags);
    SpellingSize(h);
  }

  lemma SpellingSize(h: Header)
    requires WellFormed(h)
    ensures |Spelling(h)| == 10 + |Bare(h.extra)| + |Terminated(h.name)| + |Terminated(h.comment)| + |Bare(h.crc)|
  {
  }

  lemma MagicRead(h: Header, s: Octets)
    requires WellFormed(h) && Laid(h, s)
    ensures |s| >= 10 && s[..3] == [0x1f, 0x8b, 0x08] && s[3] == h.flags
  {
    var magic: Octets := [0x1f, 0x8b, 0x08, h.flags];
    assert magic[0] == s[0 + 0] && magic[1] == s[0 + 1] && magic[2] == s[0 + 2] && magic[3] == s[0 + 3];
  }

  lemma ExtraOf(s: Octets) returns (extra: Option<Octets>)
    requires |s| >= 10 && ExtraEnd(s).Some?
    ensures extra.Some? == Flag(s[3], 4) && (extra.Some? ==> Sized(extra.value))
    ensures At(s, 10, Bare(extra)) && ExtraEnd(s).value == 10 + |Bare(extra)|
  {
    if Flag(s[3], 4) {
      var n := Little(s[10], s[11]);
      extra := Some(s[10..12 + n]);
    } else {
      extra := None;
    }
  }

  lemma TextsOf(s: Octets, from: nat, flags: Byte) returns (name: Option<Octets>, comment: Option<Octets>)
    requires from <= |s| && TextsEnd(s, from, flags).Some?
    ensures name.Some? == Flag(flags, 8) && (name.Some? ==> NoZero(name.value)) && At(s, from, Terminated(name))
    ensures comment.Some? == Flag(flags, 16) && (comment.Some? ==> NoZero(comment.value)) && At(s, from + |Terminated(name)|, Terminated(comment))
    ensures TextsEnd(s, from, flags).value == from + |Terminated(name)| + |Terminated(comment)|
  {
    name := FieldOf(s, from, Flag(flags, 8));
    comment := FieldOf(s, from + |Terminated(name)|, Flag(flags, 16));
  }

  lemma SliceAt(s: Octets, a: nat, b: nat)
    requires a <= b <= |s|
    ensures At(s, a, s[a..b])
  {
  }

  lemma MagicAt(s: Octets)
    requires |s| >= 10 && s[..3] == [0x1f, 0x8b, 0x08]
    ensures At(s, 0, [0x1f, 0x8b, 0x08, s[3]])
  {
    assert s[0] == s[..3][0] && s[1] == s[..3][1] && s[2] == s[..3][2];
  }

  lemma PartsEnd(s: Octets)
    requires HeaderLength(s).Some?
    ensures |s| >= 10 && s[..3] == [0x1f, 0x8b, 0x08] && s[3] < 32 && ExtraEnd(s).Some? && ExtraEnd(s).value <= |s|
    ensures var texts := TextsEnd(s, ExtraEnd(s).value, s[3]);
            texts.Some? && HeaderLength(s).value == texts.value + Bit(Flag(s[3], 2), 2) <= |s|
  {
  }

  lemma CrcOf(s: Octets, from: nat, present: bool) returns (crc: Option<Octets>)
    requires from + Bit(present, 2) <= |s|
    ensures crc.Some? == present && |Bare(crc)| == Bit(present, 2) && At(s, from, Bare(crc))
  {
    if present {
      crc := Some(s[from..from + 2]);
      SliceAt(s, from, from + 2);
    } else {
      crc := None;
    }
  }

  // The optional fields of a header.
  datatype Fields = Fields(extra: Option<Octets>, name: Option<Octets>, comment: Option<Octets>, crc: Option<Octets>)

  ghost predicate FieldsAt(s: Octets, flags: Byte, f: Fields, end: int)
  {
    && (f.extra.Some? ==> Sized(f.extra.value)) && f.extra.Some? == Flag(flags, 4) && f.name.Some? == Flag(flags, 8)
    && f.comment.Some? == Flag(flags, 16) && f.crc.Some? == Flag(flags, 2)
    && (f.name.Some? ==> NoZero(f.name.value)) && (f.comment.Some? ==> NoZero(f.comment.value)) && (f.crc.Some? ==> |f.crc.value| == 2)
    && var a := 10 + |Bare(f.extra)|; var b := a + |Terminated(f.name)|; var c := b + |Terminated(f.comment)|;
       && At(s, 10, Bare(f.extra)) && At(s, a, Terminated(f.name)) && At(s, b, Terminated(f.comment)) && At(s, c, Bare(f.crc))
       && end == c + |Bare(f.crc)|
  }

  lemma FieldsOf(s: Octets, flags: Byte, extra: Option<Octets>, textsEnd: nat, end: nat) returns (f: Fields)
    requires (extra.Some? ==> Sized(extra.value)) && extra.Some? == Flag(flags, 4) && At(s, 10, Bare(extra))
    requires TextsEnd(s, 10 + |Bare(extra)|, flags) == Some(textsEnd) && end == textsEnd + Bit(Flag(flags, 2), 2) <= |s|
    ensures FieldsAt(s, flags, f, end)
  {
    var name, comment := TextsOf(s, 10 + |Bare(extra)|, flags);
    var crc := CrcOf(s, 10 + |Bare(extra)| + |Terminated(name)| + |Terminated(comment)|, Flag(flags, 2));
    f := Fields(extra, name, comment, crc);
    Assembled(s, flags, f);
  }

  lemma Assembled(s: Octets, flags: Byte, f: Fields)
    requires (f.extra.Some? ==> Sized(f.extra.value)) && f.extra.Some? == Flag(flags, 4) && At(s, 10, Bare(f.extra))
    requires f.name.Some? == Flag(flags, 8) && (f.name.Some? ==> NoZero(f.name.value)) && At(s, 10 + |Bare(f.extra)|, Terminated(f.name))
    requires f.comment.Some? == Flag(flags, 16) && (f.comment.Some? ==> NoZero(f.comment.value))
    requires At(s, 10 + |Bare(f.extra)| + |Terminated(f.name)|, Terminated(f.comment))
    requires f.crc.Some? == Flag(flags, 2) && |Bare(f.crc)| == Bit(Flag(flags, 2), 2)
    requires At(s, 10 + |Bare(f.extra)| + |Terminated(f.name)| + |Terminated(f.comment)|, Bare(f.crc))
    ensures FieldsAt(s, flags, f, 10 + |Bare(f.extra)| + |Terminated(f.name)| + |Terminated(f.comment)| + |Bare(f.crc)|)
  {
  }

  /** And whatever is read as a header is the spelling of one. */
  lemma ReadIsHeader(s: Octets) returns (h: Header)
    requires HeaderLength(s).Some?
    ensures WellFormed(h) && HeaderLength(s).value == |Spelling(h)| && At(s, 0, Spelling(h))
  {
    PartsEnd(s);
    var extra := ExtraOf(s);
    var from := ExtraEnd(s).value;
    var f := FieldsOf(s, s[3], extra, TextsEnd(s, from, s[3]).value, HeaderLength(s).value);
    h := HeaderWith(s, f, HeaderLength(s).value);
  }

  lemma HeaderWith(s: Octets, f: Fields, end: nat) returns (h: Header)
    requires |s| >= 10 && s[..3] == [0x1f, 0x8b, 0x08] && s[3] < 32 && FieldsAt(s, s[3], f, end)
    ensures WellFormed(h) && |Spelling(h)| == end && At(s, 0, Spelling(h))
  {
    h := Header(s[3], s[4..10], f.extra, f.name, f.comment, f.crc);
    MagicAt(s);
    SliceAt(s, 4, 10);
    FieldsForm(s, h, f, end);
    LaidExactly(h, s);
    SpellingSize(h);
  }

  lemma FieldsForm(s: Octets, h: Header, f: Fields, end: nat)
    requires h == Header(h.flags, h.fixed, f.extra, f.name, f.comment, f.crc) && h.flags < 32 && |h.fixed| == 6 && FieldsAt(s, h.flags, f, end)
    requires At(s, 0, [0x1f, 0x8b, 0x08, h.flags]) && At(s, 4, h.fixed)
    ensures WellFormed(h) && Laid(h, s)
    ensures end == 10 + |Bare(h.extra)| + |Terminated(h.name)| + |Terminated(h.comment)| + |Bare(h.crc)|
  {
  }

  /** A header of length n is found exactly if the input starts with a well-formed header of that length. */
  lemma HeaderExactly(s: Octets, n: nat)
    ensures HeaderLength(s) == Some(n) <==> exists h :: WellFormed(h) && At(s, 0, Spelling(h)) && |Spelling(h)| == n
  {
    if HeaderLength(s) == Some(n) {
      var h := ReadIsHeader(s);
    }
    if h :| WellFormed(h) && At(s, 0, Spelling(h)) && |Spelling(h)| == n { HeaderIsRead(h, s); }
  }

  /******* Members with padding *******/

  /** A member without its padding. */
  function Whole(p: Part): Octets {
    p.header + p.body + p.trailer
  }

  /** The input from the i-th member's header on. */
  function From(r: Split, i: nat): Octets
    requires i < |r.parts|
  {
    Whole(r.parts[i]) + (Joined(r.parts[i + 1..]) + r.tail)
  }

  /** The member at the start of this input has the part's header, body, output and an eight-byte trailer, after zero padding. */
  predicate IsMember(p: Part, d: Octets, members: Members) {
    && AllZero(p.padding) && |p.trailer| == 8 && HeaderLength(d) == Some(|p.header|)
    && members(d) == Some(Member(p.output, |p.header| + |p.body| + 8))
  }

  /** The split is in the format: in order it is the input, every part is a member there, and padding is never first. */
  predicate InFormat(s: Octets, first: bool, r: Split, members: Members) {
    && Joined(r.parts) + r.tail == s && AllZero(r.tail)
    && (forall i :: 0 <= i < |r.parts| ==> IsMember(r.parts[i], From(r, i), members))
    && (first ==> if |r.parts| > 0 then r.parts[0].padding == [] else r.tail == [])
  }

  lemma FromCons(p: Part, r: Split, i: nat)
    requires i <= |r.parts|
    ensures From(Split([p] + r.parts, r.tail), i) == if i == 0 then Whole(p) + (Joined(r.parts) + r.tail) else From(r, i - 1)
  {
    var all := [p] + r.parts;
    assert all[1..] == r.parts;
    if i > 0 { assert all[i + 1..] == r.parts[i..]; }
  }

  lemma JoinedFirst(p: Part, r: Split)
    ensures Joined([p] + r.parts) + r.tail == p.padding + (Whole(p) + (Joined(r.parts) + r.tail))
  {
    JoinedCons(p, r.parts, r.tail);
    Nested(p.padding, p.header, p.body, p.trailer, Joined(r.parts) + r.tail);
  }

  lemma Nested(a: Octets, b: Octets, c: Octets, d: Octets, rest: Octets)
    ensures a + b + c + d + rest == a + (b + c + d + rest)
  {
  }

  lemma FormatCons(s: Octets, first: bool, p: Part, rest: Octets, r: Split, members: Members)
    requires InFormat(rest, false, r, members) && (first ==> p.padding == []) && IsMember(p, Whole(p) + rest, members) && s == p.padding + (Whole(p) + rest)
    ensures InFormat(s, first, Split([p] + r.parts, r.tail), members)
  {
    var all := Split([p] + r.parts, r.tail);
    JoinedFirst(p, r);
    forall i | 0 <= i < |all.parts| ensures IsMember(all.parts[i], From(all, i), members) {
      FromCons(p, r, i);
      if i > 0 { assert all.parts[i] == r.parts[i - 1]; }
    }
  }

  lemma FormatUncons(s: Octets, first: bool, p: Part, r: Split, members: Members)
    requires InFormat(s, first, Split([p] + r.parts, r.tail), members)
    ensures var rest := Joined(r.parts) + r.tail;
            && InFormat(rest, false, r, members) && (first ==> p.padding == [])
            && IsMember(p, Whole(p) + rest, members) && s == p.padding + (Whole(p) + rest)
  {
    var all := Split([p] + r.parts, r.tail);
    JoinedFirst(p, r);
    FromCons(p, r, 0);
    forall i | 0 <= i < |r.parts| ensures IsMember(r.parts[i], From(r, i), members) {
      FromCons(p, r, i + 1);
      assert IsMember(all.parts[i + 1], From(all, i + 1), members);
    }
  }

  /** The part found after the padding is the member there. */
  lemma PartIsMember(s: Octets, n: nat, members: Members)
    requires n <= |s| && PartAt(s, n, members).Some? && AllZero(s[..n])
    ensures var p := PartAt(s, n, members).value; s == p.padding + (Whole(p) + s[Size(p)..]) && IsMember(p, Whole(p) + s[Size(p)..], members)
  {
    var p := PartAt(s, n, members).value;
    Nested(p.padding, p.header, p.body, p.trailer, s[Size(p)..]);
    assert s == s[..Size(p)] + s[Size(p)..];
    Skip(p.padding, Whole(p) + s[Size(p)..], 0);
  }

  lemma Slices(a: Octets, b: Octets, c: Octets, rest: Octets)
    ensures var d := a + b + c + rest; var n := |a| + |b|;
            d[..|a|] == a && d[|a|..n] == b && d[n..n + |c|] == c && d[n + |c|..] == rest
  {
  }

  lemma Skip(padding: Octets, d: Octets, n: nat)
    requires n <= |d|
    ensures (padding + d)[..|padding|] == padding && (padding + d)[|padding|..] == d && (padding + d)[|padding| + n..] == d[n..]
  {
  }

  lemma PartSlices(p: Part, rest: Octets)
    requires |p.trailer| == 8
    ensures var d := Whole(p) + rest; var s := p.padding + d; var n, h := |p.padding|, |p.header|; var end := h + |p.body|;
            && s[..n] == p.padding && s[n..] == d && s[Size(p)..] == rest && |d| >= end + 8
            && d[..h] == p.header && d[h..end] == p.body && d[end..end + 8] == p.trailer
  {
    Slices(p.header, p.body, p.trailer, rest);
    Skip(p.padding, Whole(p) + rest, |Whole(p)|);
  }

  /** And a member after zero padding is the part that is found. */
  lemma MemberIsPart(s: Octets, p: Part, rest: Octets, members: Members)
    requires IsMember(p, Whole(p) + rest, members) && s == p.padding + (Whole(p) + rest)
    ensures Zeros(s) == |p.padding| < |s| && PartAt(s, |p.padding|, members) == Some(p) && s[Size(p)..] == rest
  {
    PartSlices(p, rest);
    MemberStarts(s, p, Whole(p) + rest, members);
    PartFound(s, |p.padding|, Whole(p) + rest, p, members);
  }

  lemma PartFound(s: Octets, n: nat, d: Octets, p: Part, members: Members)
    requires n <= |s| && s[n..] == d && s[..n] == p.padding && IsMember(p, d, members) && |p.header| + |p.body| + 8 <= |d|
    requires var h, end := |p.header|, |p.header| + |p.body|; d[..h] == p.header && d[h..end] == p.body && d[end..end + 8] == p.trailer
    ensures PartAt(s, n, members) == Some(p)
  {
  }

  lemma MemberStarts(s: Octets, p: Part, d: Octets, members: Members)
    requires s == p.padding + d && IsMember(p, d, members)
    ensures Zeros(s) == |p.padding| < |s|
  {
    assert d[..3][0] == d[0] == 0x1f;
    assert s[|p.padding|] == 0x1f;
    assert forall i :: 0 <= i < |p.padding| ==> s[i] == p.padding[i];
  }

  lemma FormatStep(s: Octets, first: bool, p: Part, r: Split, members: Members)
    requires PartAt(s, Zeros(s), members) == Some(p) && (first ==> Zeros(s) == 0) && InFormat(s[Size(p)..], false, r, members)
    ensures InFormat(s, first, Split([p] + r.parts, r.tail), members)
  {
    PartIsMember(s, Zeros(s), members);
    FormatCons(s, first, p, s[Size(p)..], r, members);
  }

  lemma {:induction false} ParseIsFormat(s: Octets, first: bool, members: Members)
    requires Parse(s, first, members).Some?
    ensures InFormat(s, first, Parse(s, first, members).value, members)
    decreases |s|
  {
    if Zeros(s) < |s| {
      ParseStep(s, first, members);
      var p := PartAt(s, Zeros(s), members).value;
      ParseIsFormat(s[Size(p)..], false, members);
      FormatStep(s, first, p, Parse(s[Size(p)..], false, members).value, members);
    } else {
      assert Joined([]) + s == s;
    }
  }

  lemma {:induction false} FormatIsParsed(s: Octets, first: bool, r: Split, members: Members)
    requires InFormat(s, first, r, members)
    ensures Parse(s, first, members) == Some(r)
    decreases |r.parts|
  {
    if |r.parts| == 0 {
      assert s == r.tail && Zeros(s) == |s|;
    } else {
      var p, others := r.parts[0], Split(r.parts[1..], r.tail);
      assert r == Split([p] + others.parts, others.tail);
      FormatUncons(s, first, p, others, members);
      MemberIsPart(s, p, Joined(others.parts) + others.tail, members);
      FormatIsParsed(Joined(others.parts) + others.tail, false, others, members);
      ParseStep(s, first, members);
    }
  }

  /** The parser finds a split exactly if the input is in the format, and then that one and no other. */
  lemma ParseExactly(s: Octets, first: bool, r: Split, members: Members)
    ensures Parse(s, first, members) == Some(r) <==> InFormat(s, first, r, members)
  {
    if Parse(s, first, members) == Some(r) { ParseIsFormat(s, first, members); }
    if InFormat(s, first, r, members) { FormatIsParsed(s, first, r, members); }
  }

  /** At least one member, with outputs, all other bytes and members within their bounds. */
  predicate InBounds(r: Split, bounds: Bounds) {
    && 1 <= |r.parts| <= bounds.members && |OutputOf(r.parts)| <= bounds.output && |MetadataOf(r.parts)| + |r.tail| <= bounds.metadata
    && 1 <= bounds.output && 1 <= bounds.metadata
  }

  /** The decoder accepts exactly the inputs in the format that are within the bounds. */
  lemma AcceptsExactly(s: Octets, bounds: Bounds, members: Members)
    ensures Accepts(s, bounds, members) <==> exists r :: InFormat(s, true, r, members) && InBounds(r, bounds)
  {
    if Accepts(s, bounds, members) {
      var r := Parse(s, true, members).value;
      ParseExactly(s, true, r, members);
      assert InBounds(r, bounds);
    }
    if r :| InFormat(s, true, r, members) && InBounds(r, bounds) { ParseExactly(s, true, r, members); }
  }

  /** Outputs and metadata are those of the parts, one after another. */
  lemma TotalsAre(before: seq<Part>, p: Part, after: seq<Part>)
    ensures OutputOf(before + [p] + after) == OutputOf(before) + p.output + OutputOf(after)
    ensures MetadataOf(before + [p] + after) == MetadataOf(before) + p.padding + p.header + p.trailer + MetadataOf(after)
  {
    AppendedOne(before, p);
    Appended(before + [p], after);
  }

  /******* Tar entries in order *******/

  /** The files are the entries that are regular files and not the root, in order. */
  lemma {:induction false} FilesAre(before: seq<Entry>, e: Entry, after: seq<Entry>)
    ensures Files(before + [e] + after) == Files(before) + (if e.file && !e.root then [e] else []) + Files(after)
    decreases |after|
  {
    if |after| == 0 {
      assert before + [e] + after == before + [e];
      FilesSnoc(before, e);
    } else {
      var init, last := after[..|after| - 1], after[|after| - 1];
      assert before + [e] + after == before + [e] + init + [last] && after == init + [last];
      FilesAre(before, e, init);
      FilesSnoc(before + [e] + init, last);
      FilesSnoc(init, last);
    }
  }

  predicate IsFile(e: Entry) {
    e.file && !e.root
  }

  /** Sizes, names and bodies of any two entries, without a cursor. */
  ghost predicate Arranged(entries: seq<Entry>, length: nat) {
    && (forall i :: 0 <= i < |entries| ==> entries[i].size >= 0 && (IsFile(entries[i]) ==> entries[i].start + entries[i].size <= length))
    && (forall i, j :: 0 <= i < j < |entries| ==> Compatible(entries[i], entries[j]))
  }

  /** Different names unless one is the root, and the first body before the second. */
  predicate Compatible(a: Entry, b: Entry) {
    && (!a.root && !b.root ==> a.name != b.name)
    && (IsFile(a) && IsFile(b) ==> a.start + a.size <= b.start)
  }

  /** The cursor is the end of the last body. */
  ghost predicate CursorIs(entries: seq<Entry>, cursor: int) {
    && (forall i :: 0 <= i < |entries| && IsFile(entries[i]) ==> entries[i].start + entries[i].size <= cursor)
    && (cursor == 0 || exists i :: 0 <= i < |entries| && IsFile(entries[i]) && entries[i].start + entries[i].size == cursor)
  }

  lemma {:induction false} CursorOf(entries: seq<Entry>, length: nat)
    requires InOrder(entries, length)
    ensures CursorIs(entries, CursorAfter(Files(entries))) && CursorAfter(Files(entries)) >= 0
    decreases |entries|
  {
    if |entries| > 0 {
      var before, e := entries[..|entries| - 1], entries[|entries| - 1];
      assert entries == before + [e];
      CursorOf(before, length);
      FilesSnoc(before, e);
      CursorSnoc(before, e, CursorAfter(Files(before)), length);
    }
  }

  lemma CursorSnoc(before: seq<Entry>, e: Entry, cursor: nat, length: nat)
    requires CursorIs(before, cursor) && e.size >= 0 && (IsFile(e) ==> cursor <= e.start)
    ensures CursorIs(before + [e], if IsFile(e) then e.start + e.size else cursor)
  {
    var after := before + [e];
    assert after[|before|] == e && forall i :: 0 <= i < |before| ==> after[i] == before[i];
    if !IsFile(e) && cursor != 0 {
      var i :| 0 <= i < |before| && IsFile(before[i]) && before[i].start + before[i].size == cursor;
      assert IsFile(after[i]);
    }
  }

  lemma AdmissibleExactly(before: seq<Entry>, e: Entry, cursor: nat, length: nat)
    requires CursorIs(before, cursor) && cursor == CursorAfter(Files(before))
    ensures Admissible(before, e, length) <==>
            && e.size >= 0 && (IsFile(e) ==> e.start + e.size <= length)
            && (forall i :: 0 <= i < |before| ==> Compatible(before[i], e))
  {
  }

  lemma ArrangedSnoc(before: seq<Entry>, e: Entry, length: nat)
    ensures Arranged(before + [e], length) <==>
            && Arranged(before, length) && e.size >= 0 && (IsFile(e) ==> e.start + e.size <= length)
            && (forall i :: 0 <= i < |before| ==> Compatible(before[i], e))
  {
    var after := before + [e];
    assert after[|before|] == e && forall i :: 0 <= i < |before| ==> after[i] == before[i];
    if Arranged(after, length) {
      forall i | 0 <= i < |before| ensures Compatible(before[i], e) { assert Compatible(after[i], after[|before|]); }
      forall i, j | 0 <= i < j < |before| ensures Compatible(before[i], before[j]) { assert Compatible(after[i], after[j]); }
    }
  }

  /** The walk's entries are in order exactly if sizes are not negative, bodies lie inside the stream one after another, and no name repeats. */
  lemma {:induction false} InOrderExactly(entries: seq<Entry>, length: nat)
    ensures InOrder(entries, length) <==> Arranged(entries, length)
    decreases |entries|
  {
    if |entries| > 0 {
      var before, e := entries[..|entries| - 1], entries[|entries| - 1];
      assert entries == before + [e];
      InOrderExactly(before, length);
      InOrderSnoc(before, e, length);
      ArrangedSnoc(before, e, length);
      if InOrder(before, length) {
        CursorOf(before, length);
        AdmissibleExactly(before, e, CursorAfter(Files(before)), length);
      }
    }
  }
}
