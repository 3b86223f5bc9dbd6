/**
 Entitlement documents: grant and revocation payloads and the COSE_Sign1 envelope. Each is
 decoded, checked claim by claim, encoded again and compared, so that a document
 is accepted exactly when it is the deterministic encoding of valid claims.
 */
module Entitlements {
  import opened Base
  import opened Cbor

  const MAX_INT64 := 0x7fff_ffff_ffff_ffff
  const MAX_ENVELOPE := 65536
  const SIGNATURE_SIZE := 64

  datatype TrustClass = Production | Development

  // The organization is absent, and the limit may be set, for an installation-wide grant. No limit is zero.
  datatype Grant = Grant(
    issuer: Octets, issuance: Octets, sequence: nat, plugin: Octets, installation: Octets, organization: Option<Octets>,
    features: seq<Octets>, limit: nat, issued: nat, notBefore: nat, expires: nat, graceUntil: nat, trust: TrustClass)

  datatype Revocations = Revocations(issuer: Octets, sequence: nat, issued: nat, issuances: seq<Octets>, trust: TrustClass)

  datatype Envelope = Envelope(kid: Octets, payload: Octets, signature: Octets)

  /******* Spelling of the texts *******/

  const GRANT: Octets := [103, 114, 97, 110, 116]
  const REVOCATIONS: Octets := [114, 101, 118, 111, 99, 97, 116, 105, 111, 110, 115]
  const ORGANIZATIONS: Octets := [111, 114, 103, 97, 110, 105, 122, 97, 116, 105, 111, 110, 115]
  const PRODUCTION: Octets := [112, 114, 111, 100, 117, 99, 116, 105, 111, 110]
  const DEVELOPMENT: Octets := [100, 101, 118, 101, 108, 111, 112, 109, 101, 110, 116]

  function TrustText(t: TrustClass): Octets {
    if t.Production? then PRODUCTION else DEVELOPMENT
  }

  predicate Letter(b: Byte) {
    97 <= b <= 122
  }

  predicate SlugByte(b: Byte) {
    Letter(b) || 48 <= b <= 57 || b == 45
  }

  /** A lower-case letter, then letters, digits and hyphens. */
  predicate Word(s: Octets) {
    |s| > 0 && Letter(s[0]) && forall i :: 0 <= i < |s| ==> SlugByte(s[i])
  }

  predicate Slug(s: Octets) {
    Word(s) && |s| <= 63
  }

  /** Words separated by dots. */
  predicate Dotted(s: Octets) {
    Word(s) || exists j :: 0 <= j < |s| && s[j] == 46 && Word(s[..j]) && Dotted(s[j + 1..])
  }

  /** At least two words. */
  predicate PluginId(s: Octets) {
    |s| <= 255 && Dotted(s) && !Word(s)
  }

  predicate AsciiIdentifier(s: Octets) {
    1 <= |s| <= 128 && forall i :: 0 <= i < |s| ==> 33 <= s[i] <= 126
  }

  predicate StrictlySorted(s: seq<Octets>) {
    forall i :: 0 < i < |s| ==> Less(s[i - 1], s[i])
  }

  /** Sixteen bytes of the standard variant and a version from 1 to 8, and so never nil. */
  predicate ValidUuid(id: Octets) {
    |id| == 16 && 1 <= id[6] / 16 <= 8 && id[8] / 64 == 2
  }

  /******* Valid claims *******/

  predicate ValidGrant(g: Grant) {
    && AsciiIdentifier(g.issuer) && ValidUuid(g.issuance) && 1 <= g.sequence <= MAX_INT64
    && PluginId(g.plugin) && ValidUuid(g.installation) && (g.organization.Some? ==> ValidUuid(g.organization.value))
    && 1 <= |g.features| <= 64 && (forall i :: 0 <= i < |g.features| ==> Slug(g.features[i])) && StrictlySorted(g.features)
    && g.limit <= MAX_INT64 && (g.limit != 0 ==> g.organization.None?)
    && g.issued <= g.notBefore < g.expires <= g.graceUntil <= MAX_INT64
  }

  predicate ValidRevocations(r: Revocations) {
    && AsciiIdentifier(r.issuer) && 1 <= r.sequence <= MAX_INT64 && r.issued <= MAX_INT64
    && |r.issuances| <= MAX_ARRAY && (forall i :: 0 <= i < |r.issuances| ==> ValidUuid(r.issuances[i])) && StrictlySorted(r.issuances)
  }

  predicate ValidEnvelope(e: Envelope) {
    1 <= |e.kid| <= 64 && |e.signature| == SIGNATURE_SIZE && |e.payload| <= MAX_ENVELOPE
  }

  /******* Their items, with labels in ascending order *******/

  function Texts(s: seq<Octets>): (r: seq<Item>)
    ensures |r| == |s| && forall i :: 0 <= i < |s| ==> r[i] == Text(s[i])
  {
    seq(|s|, i requires 0 <= i < |s| => Text(s[i]))
  }

  function ByteStrings(s: seq<Octets>): (r: seq<Item>)
    ensures |r| == |s| && forall i :: 0 <= i < |s| ==> r[i] == Bytes(s[i])
  {
    seq(|s|, i requires 0 <= i < |s| => Bytes(s[i]))
  }

  function LimitItems(limit: nat): seq<Item> {
    if limit == 0 then [] else [Text(ORGANIZATIONS), UInt(limit)]
  }

  function GrantFields(g: Grant): seq<Field> {
    [Field(1, UInt(1)), Field(2, Text(GRANT)), Field(3, Text(g.issuer)), Field(4, Bytes(g.issuance)),
     Field(5, UInt(g.sequence)), Field(6, Text(g.plugin)), Field(7, Bytes(g.installation))]
    + (if g.organization.Some? then [Field(8, Bytes(g.organization.value))] else [])
    + [Field(9, Array(Texts(g.features))), Field(10, Map(LimitItems(g.limit))), Field(11, UInt(g.issued)),
       Field(12, UInt(g.notBefore)), Field(13, UInt(g.expires)), Field(14, UInt(g.graceUntil)), Field(15, Text(TrustText(g.trust)))]
  }

  function RevocationFields(r: Revocations): seq<Field> {
    [Field(1, UInt(1)), Field(2, Text(REVOCATIONS)), Field(3, Text(r.issuer)), Field(4, UInt(r.sequence)),
     Field(5, UInt(r.issued)), Field(6, Array(ByteStrings(r.issuances))), Field(7, Text(TrustText(r.trust)))]
  }

  function HeaderFields(kid: Octets): seq<Field> {
    [Field(1, NInt(7)), Field(4, Bytes(kid))]
  }

  /** The label of the i-th field: label 8 only where there is an organization. */
  lemma GrantKey(g: Grant, i: nat)
    requires i < |GrantFields(g)|
    ensures GrantFields(g)[i].key == if i < 7 || g.organization.Some? then i + 1 else i + 2
  {
  }

  lemma GrantValue(g: Grant, i: nat)
    requires ValidGrant(g) && i < |GrantFields(g)|
    ensures Encodable(GrantFields(g)[i].value)
  {
    assert AllEncodable(Texts(g.features));
    assert AllEncodable(LimitItems(g.limit));
  }

  lemma GrantEncodable(g: Grant)
    requires ValidGrant(g)
    ensures FieldsEncodable(GrantFields(g)) && Ascending(GrantFields(g))
  {
    var fields := GrantFields(g);
    forall i | 0 <= i < |fields| ensures fields[i].key < 24 && Encodable(fields[i].value) {
      GrantKey(g, i);
      GrantValue(g, i);
    }
    forall i, j | 0 <= i < j < |fields| ensures fields[i].key < fields[j].key {
      GrantKey(g, i);
      GrantKey(g, j);
    }
  }

  lemma RevocationsEncodable(r: Revocations)
    requires ValidRevocations(r)
    ensures FieldsEncodable(RevocationFields(r)) && Ascending(RevocationFields(r))
  {
    assert AllEncodable(ByteStrings(r.issuances));
  }

  function EncodeGrant(g: Grant): Octets
    requires ValidGrant(g)
  {
    GrantEncodable(g);
    Encode(FieldMap(GrantFields(g)))
  }

  function EncodeRevocations(r: Revocations): Octets
    requires ValidRevocations(r)
  {
    RevocationsEncodable(r);
    Encode(FieldMap(RevocationFields(r)))
  }

  /******* Decoding *******/

  /** Labels 1 to fields, each present unless optional, and no other. */
  predicate Labelled(m: map<nat, Item>, fields: nat, optional: set<nat>) {
    && (forall l :: l in m ==> 1 <= l <= fields)
    && (forall l :: 1 <= l <= fields && l !in optional ==> l in m)
  }

  function DecodeMap(raw: Octets, fields: nat, optional: set<nat>): (r: Option<map<nat, Item>>)
    ensures r.Some? ==> Labelled(r.value, fields, optional)
  {
    var x := DecodeWhole(raw);
    if x.None? || !x.value.Map? then None
    else
      var m := ByLabel(x.value.items);
      if m.Some? && Labelled(m.value, fields, optional) then m else None
  }

  function TextList(items: seq<Item>): Option<seq<Octets>> {
    if forall i :: 0 <= i < |items| ==> items[i].Text?
    then Some(seq(|items|, i requires 0 <= i < |items| => items[i].data)) else None
  }

  function BytesList(items: seq<Item>): Option<seq<Octets>> {
    if forall i :: 0 <= i < |items| ==> items[i].Bytes?
    then Some(seq(|items|, i requires 0 <= i < |items| => items[i].data)) else None
  }

  /** The limits map: empty, or the one limit that is known. */
  function LimitOf(items: seq<Item>): Option<nat> {
    if items == [] then Some(0)
    else if |items| == 2 && items[0] == Text(ORGANIZATIONS) && items[1].UInt? && items[1].n != 0 then Some(items[1].n)
    else None
  }

  function TrustOf(x: Item): Option<TrustClass> {
    if x == Text(PRODUCTION) then Some(Production) else if x == Text(DEVELOPMENT) then Some(Development) else None
  }

  /** Each claim has its type. */
  predicate GrantTyped(m: map<nat, Item>)
    requires Labelled(m, 15, {8})
  {
    && m[1] == UInt(1) && m[2] == Text(GRANT) && m[3].Text? && m[4].Bytes? && m[5].UInt? && m[6].Text? && m[7].Bytes?
    && (8 in m ==> m[8].Bytes?) && m[9].Array? && TextList(m[9].items).Some? && m[10].Map? && LimitOf(m[10].items).Some?
    && m[11].UInt? && m[12].UInt? && m[13].UInt? && m[14].UInt? && TrustOf(m[15]).Some?
  }

  function GrantClaims(m: map<nat, Item>): Grant
    requires Labelled(m, 15, {8}) && GrantTyped(m)
  {
    Grant(m[3].data, m[4].data, m[5].n, m[6].data, m[7].data, if 8 in m then Some(m[8].data) else None,
          TextList(m[9].items).value, LimitOf(m[10].items).value, m[11].n, m[12].n, m[13].n, m[14].n, TrustOf(m[15]).value)
  }

  function DecodeGrant(raw: Octets): Option<Grant> {
    var m := DecodeMap(raw, 15, {8});
    if m.None? || !GrantTyped(m.value) then None
    else
      var g := GrantClaims(m.value);
      if ValidGrant(g) && raw == EncodeGrant(g) then Some(g) else None
  }

  predicate RevocationsTyped(m: map<nat, Item>)
    requires Labelled(m, 7, {})
  {
    && m[1] == UInt(1) && m[2] == Text(REVOCATIONS) && m[3].Text? && m[4].UInt? && m[5].UInt?
    && m[6].Array? && BytesList(m[6].items).Some? && TrustOf(m[7]).Some?
  }

  function RevocationClaims(m: map<nat, Item>): Revocations
    requires Labelled(m, 7, {}) && RevocationsTyped(m)
  {
    Revocations(m[3].data, m[4].n, m[5].n, BytesList(m[6].items).value, TrustOf(m[7]).value)
  }

  function DecodeRevocations(raw: Octets): Option<Revocations> {
    var m := DecodeMap(raw, 7, {});
    if m.None? || !RevocationsTyped(m.value) then None
    else
      var r := RevocationClaims(m.value);
      if ValidRevocations(r) && raw == EncodeRevocations(r) then Some(r) else None
  }

  /******* Canonical documents *******/

  ghost predicate HasKey(fields: seq<Field>, l: nat) {
    exists i :: 0 <= i < |fields| && fields[i].key == l
  }

  lemma MapRoundTrip(fields: seq<Field>, count: nat, optional: set<nat>)
    requires FieldsEncodable(fields) && Ascending(fields)
    requires forall i :: 0 <= i < |fields| ==> 1 <= fields[i].key <= count
    requires forall l :: 1 <= l <= count && l !in optional ==> HasKey(fields, l)
    ensures var m := DecodeMap(Encode(FieldMap(fields)), count, optional);
            && m.Some?
            && (forall i :: 0 <= i < |fields| ==> fields[i].key in m.value && m.value[fields[i].key] == fields[i].value)
            && (forall l :: l in m.value ==> HasKey(fields, l))
  {
    WholeRoundTrip(FieldMap(fields));
    LabelsRoundTrip(fields);
  }

  lemma TextListRoundTrip(s: seq<Octets>)
    ensures TextList(Texts(s)) == Some(s) && BytesList(ByteStrings(s)) == Some(s)
  {
    assert TextList(Texts(s)).value == s && BytesList(ByteStrings(s)).value == s;
  }

  lemma GrantFieldsCover(g: Grant, l: nat)
    requires 1 <= l <= 15 && l != 8
    ensures HasKey(GrantFields(g), l)
  {
    var i := if l < 8 then l - 1 else if g.organization.Some? then l - 1 else l - 2;
    assert GrantFields(g)[i].key == l;
  }

  /** Every field is read back under its label, and nothing else is. */
  ghost predicate ReadBack(fields: seq<Field>, m: map<nat, Item>) {
    && (forall i :: 0 <= i < |fields| ==> fields[i].key in m && m[fields[i].key] == fields[i].value)
    && (forall l :: l in m ==> HasKey(fields, l))
  }

  lemma FirstClaims(g: Grant, m: map<nat, Item>)
    requires ReadBack(GrantFields(g), m) && Labelled(m, 15, {8})
    ensures m[1] == UInt(1) && m[2] == Text(GRANT) && m[3] == Text(g.issuer) && m[4] == Bytes(g.issuance) && m[5] == UInt(g.sequence)
    ensures m[6] == Text(g.plugin) && m[7] == Bytes(g.installation)
    ensures (8 in m <==> g.organization.Some?) && (8 in m ==> m[8] == Bytes(g.organization.value))
  {
    var fields := GrantFields(g);
    assert fields[0].key == 1 && fields[1].key == 2 && fields[2].key == 3 && fields[3].key == 4;
    assert fields[4].key == 5 && fields[5].key == 6 && fields[6].key == 7;
    if g.organization.Some? { assert fields[7].key == 8; }
  }

  lemma LastClaims(g: Grant, m: map<nat, Item>)
    requires ReadBack(GrantFields(g), m) && Labelled(m, 15, {8})
    ensures m[9] == Array(Texts(g.features)) && m[10] == Map(LimitItems(g.limit)) && m[11] == UInt(g.issued) && m[12] == UInt(g.notBefore)
    ensures m[13] == UInt(g.expires) && m[14] == UInt(g.graceUntil) && m[15] == Text(TrustText(g.trust))
  {
    var fields := GrantFields(g);
    var k := if g.organization.Some? then 8 else 7;
    assert fields[k].key == 9 && fields[k + 1].key == 10 && fields[k + 2].key == 11 && fields[k + 3].key == 12;
    assert fields[k + 4].key == 13 && fields[k + 5].key == 14 && fields[k + 6].key == 15;
  }

  lemma GrantMapRead(g: Grant)
    requires ValidGrant(g)
    ensures DecodeMap(EncodeGrant(g), 15, {8}).Some? && ReadBack(GrantFields(g), DecodeMap(EncodeGrant(g), 15, {8}).value)
  {
    var fields := GrantFields(g);
    GrantEncodable(g);
    forall l: nat | 1 <= l <= 15 && l != 8 ensures HasKey(fields, l) { GrantFieldsCover(g, l); }
    MapRoundTrip(fields, 15, {8});
  }

  /** Decoding the encoding of valid claims gives them back. */
  lemma GrantRoundTrip(g: Grant)
    requires ValidGrant(g)
    ensures DecodeGrant(EncodeGrant(g)) == Some(g)
  {
    GrantMapRead(g);
    var m := DecodeMap(EncodeGrant(g), 15, {8}).value;
    FirstClaims(g, m);
    LastClaims(g, m);
    GrantRead(g, m);
  }

  lemma GrantRead(g: Grant, m: map<nat, Item>)
    requires ValidGrant(g) && Labelled(m, 15, {8})
    requires (8 in m <==> g.organization.Some?) && (8 in m ==> m[8] == Bytes(g.organization.value))
    requires m[1] == UInt(1) && m[2] == Text(GRANT) && m[3] == Text(g.issuer) && m[4] == Bytes(g.issuance) && m[5] == UInt(g.sequence)
    requires m[6] == Text(g.plugin) && m[7] == Bytes(g.installation) && m[9] == Array(Texts(g.features)) && m[10] == Map(LimitItems(g.limit))
    requires m[11] == UInt(g.issued) && m[12] == UInt(g.notBefore) && m[13] == UInt(g.expires) && m[14] == UInt(g.graceUntil)
    requires m[15] == Text(TrustText(g.trust))
    ensures GrantTyped(m) && GrantClaims(m) == g
  {
    TextListRoundTrip(g.features);
  }

  /******* What the accepted claims are *******/

  /** The bytes of an ASCII text. */
  function Ascii(s: string): Octets
    requires forall i :: 0 <= i < |s| ==> s[i] < 128 as char
  {
    seq(|s|, i requires 0 <= i < |s| => s[i] as int)
  }

  lemma TextsSpelled()
    ensures GRANT == Ascii("grant") && REVOCATIONS == Ascii("revocations") && ORGANIZATIONS == Ascii("organizations")
    ensures TrustText(Production) == Ascii("production") && TrustText(Development) == Ascii("development")
  {
  }

  /** The words with a dot between each and the next. */
  function Joined(words: seq<Octets>): Octets
    requires |words| > 0
  {
    if |words| == 1 then words[0] else words[0] + [46] + Joined(words[1..])
  }

  ghost predicate Spelled(s: Octets, words: seq<Octets>) {
    |words| > 0 && (forall i :: 0 <= i < |words| ==> Word(words[i])) && s == Joined(words)
  }

  lemma SpelledCons(word: Octets, rest: Octets, others: seq<Octets>)
    requires Word(word) && Spelled(rest, others)
    ensures Spelled(word + [46] + rest, [word] + others)
  {
    assert ([word] + others)[1..] == others;
  }

  lemma SpelledCut(s: Octets, j: nat, others: seq<Octets>)
    requires j < |s| && s[j] == 46 && Word(s[..j]) && Spelled(s[j + 1..], others)
    ensures Spelled(s, [s[..j]] + others)
  {
    SpelledCons(s[..j], s[j + 1..], others);
    CutAtDot(s, j);
  }

  lemma CutAtDot(s: Octets, j: nat)
    requires j < |s| && s[j] == 46
    ensures s == s[..j] + [46] + s[j + 1..]
  {
  }

  lemma {:induction false} WordsOf(s: Octets) returns (words: seq<Octets>)
    requires Dotted(s)
    ensures Spelled(s, words)
  {
    if Word(s) {
      words := [s];
    } else {
      var j :| 0 <= j < |s| && s[j] == 46 && Word(s[..j]) && Dotted(s[j + 1..]);
      var others := WordsOf(s[j + 1..]);
      words := [s[..j]] + others;
      SpelledCut(s, j, others);
    }
  }

  /** Cutting the first word and its dot off the text. */
  lemma FirstWord(s: Octets, words: seq<Octets>)
    requires |words| > 1 && s == Joined(words)
    ensures var j := |words[0]|; j < |s| && s[..j] == words[0] && s[j] == 46 && s[j + 1..] == Joined(words[1..])
  {
  }

  lemma {:induction false} DottedOf(s: Octets, words: seq<Octets>)
    requires Spelled(s, words)
    ensures Dotted(s)
    decreases |words|
  {
    if |words| > 1 {
      FirstWord(s, words);
      assert Word(words[0]) && Spelled(s[|words[0]| + 1..], words[1..]);
      DottedOf(s[|words[0]| + 1..], words[1..]);
    }
  }

  /** Two or more words joined by dots. */
  ghost predicate DottedName(s: Octets) {
    exists words :: |words| >= 2 && Spelled(s, words)
  }

  lemma NotOneWord(s: Octets, words: seq<Octets>)
    requires |words| >= 2 && Spelled(s, words)
    ensures !Word(s)
  {
    FirstWord(s, words);
    assert !SlugByte(s[|words[0]|]);
  }

  /** A plugin is named by two or more words joined by dots, in at most 255 bytes. */
  lemma PluginIdExactly(s: Octets)
    ensures PluginId(s) <==> |s| <= 255 && DottedName(s)
  {
    if PluginId(s) {
      var words := WordsOf(s);
      assert |words| >= 2;
    }
    if words :| |words| >= 2 && Spelled(s, words) {
      DottedOf(s, words);
      NotOneWord(s, words);
    }
  }

  /** Sorted without repetition: each before every later one. */
  predicate Increasing(s: seq<Octets>) {
    forall i, j :: 0 <= i < j < |s| ==> Less(s[i], s[j])
  }

  lemma {:induction false} SortedIsIncreasing(s: seq<Octets>, i: nat, j: nat)
    requires StrictlySorted(s) && i < j < |s|
    ensures Less(s[i], s[j])
    decreases j
  {
    if i + 1 < j {
      SortedIsIncreasing(s, i, j - 1);
      LessTransitive(s[i], s[j - 1], s[j]);
    }
  }

  lemma StrictlySortedExactly(s: seq<Octets>)
    ensures StrictlySorted(s) <==> Increasing(s)
  {
    if StrictlySorted(s) {
      forall i, j | 0 <= i < j < |s| ensures Less(s[i], s[j]) { SortedIsIncreasing(s, i, j); }
    }
  }

  predicate Between(b: Byte, low: char, high: char) {
    low as int <= b <= high as int
  }

  /** A feature: a letter and up to 62 letters, digits and hyphens. */
  predicate FeatureName(s: Octets) {
    && 1 <= |s| <= 63 && Between(s[0], 'a', 'z')
    && forall i :: 0 <= i < |s| ==> Between(s[i], 'a', 'z') || Between(s[i], '0', '9') || s[i] == '-' as int
  }

  /** Identity claims: sixteen bytes with version nibble 1 to 8 and the two variant bits 10. */
  predicate Identity(id: Octets) {
    |id| == 16 && 0x10 <= id[6] < 0x90 && 0x80 <= id[8] < 0xc0
  }

  /**
   The claims a grant may have: printable issuer, real identities, a plugin of dotted words, one to 64 distinct features in order, a
   limit only without an organization, and the four times in order within 63 bits.
   */
  ghost predicate Meant(g: Grant) {
    && 1 <= |g.issuer| <= 128 && (forall i :: 0 <= i < |g.issuer| ==> Between(g.issuer[i], '!', '~'))
    && Identity(g.issuance) && Identity(g.installation) && (g.organization.Some? ==> Identity(g.organization.value))
    && 1 <= g.sequence < 0x8000_0000_0000_0000 && |g.plugin| <= 255 && DottedName(g.plugin)
    && 1 <= |g.features| <= 64 && Increasing(g.features) && (forall i :: 0 <= i < |g.features| ==> FeatureName(g.features[i]))
    && g.limit < 0x8000_0000_0000_0000 && (g.limit > 0 ==> g.organization == None)
    && g.issued <= g.notBefore && g.notBefore < g.expires && g.expires <= g.graceUntil && g.graceUntil < 0x8000_0000_0000_0000
  }

  lemma SlugExactly(s: Octets)
    ensures Slug(s) <==> FeatureName(s)
  {
  }

  lemma FeaturesMean(features: seq<Octets>)
    ensures (forall i :: 0 <= i < |features| ==> Slug(features[i])) && StrictlySorted(features) <==>
            Increasing(features) && forall i :: 0 <= i < |features| ==> FeatureName(features[i])
  {
    StrictlySortedExactly(features);
    forall i | 0 <= i < |features| ensures Slug(features[i]) <==> FeatureName(features[i]) { SlugExactly(features[i]); }
  }

  lemma ClaimsMean(g: Grant)
    ensures ValidGrant(g) <==> Meant(g)
  {
    PluginIdExactly(g.plugin);
    FeaturesMean(g.features);
  }

  /** Some payload is accepted with these claims exactly when they are claims a grant may have. */
  lemma GrantsMean(g: Grant)
    ensures (exists raw :: DecodeGrant(raw) == Some(g)) <==> Meant(g)
  {
    ClaimsMean(g);
    if raw :| DecodeGrant(raw) == Some(g) { GrantAcceptedExactly(raw, g); }
    if ValidGrant(g) { GrantRoundTrip(g); }
  }

  /** The same for revocations: up to 4096 distinct identities in order. */
  lemma RevocationsMean(r: Revocations)
    ensures (exists raw :: DecodeRevocations(raw) == Some(r)) <==>
            && 1 <= |r.issuer| <= 128 && (forall i :: 0 <= i < |r.issuer| ==> Between(r.issuer[i], '!', '~'))
            && 1 <= r.sequence < 0x8000_0000_0000_0000 && r.issued < 0x8000_0000_0000_0000
            && |r.issuances| <= 4096 && Increasing(r.issuances) && forall i :: 0 <= i < |r.issuances| ==> Identity(r.issuances[i])
  {
    StrictlySortedExactly(r.issuances);
    assert forall i :: 0 <= i < |r.issuances| ==> (ValidUuid(r.issuances[i]) <==> Identity(r.issuances[i]));
    if raw :| DecodeRevocations(raw) == Some(r) { RevocationsAcceptedExactly(raw, r); }
    if ValidRevocations(r) { RevocationsRoundTrip(r); }
  }

  /** A payload is accepted with some claims exactly when they are valid and it is their encoding. */
  lemma GrantAcceptedExactly(raw: Octets, g: Grant)
    ensures DecodeGrant(raw) == Some(g) <==> ValidGrant(g) && raw == EncodeGrant(g)
  {
    if ValidGrant(g) { GrantRoundTrip(g); }
  }

  /** Two accepted payloads are byte-identical exactly when their claims are equal. */
  lemma GrantsUnique(a: Octets, b: Octets)
    requires DecodeGrant(a).Some? && DecodeGrant(b).Some?
    ensures DecodeGrant(a) == DecodeGrant(b) <==> a == b
  {
    GrantAcceptedExactly(a, DecodeGrant(a).value);
    GrantAcceptedExactly(b, DecodeGrant(b).value);
  }

  lemma RevocationFieldsCover(r: Revocations, l: nat)
    requires 1 <= l <= 7
    ensures HasKey(RevocationFields(r), l)
  {
    assert RevocationFields(r)[l - 1].key == l;
  }

  lemma RevocationsRoundTrip(r: Revocations)
    requires ValidRevocations(r)
    ensures DecodeRevocations(EncodeRevocations(r)) == Some(r)
  {
    var fields := RevocationFields(r);
    RevocationsEncodable(r);
    forall l: nat | 1 <= l <= 7 ensures HasKey(fields, l) { RevocationFieldsCover(r, l); }
    MapRoundTrip(fields, 7, {});
    var m := DecodeMap(EncodeRevocations(r), 7, {}).value;
    TextListRoundTrip(r.issuances);
    assert fields[0].key == 1 && fields[1].key == 2 && fields[2].key == 3 && fields[3].key == 4;
    assert fields[4].key == 5 && fields[5].key == 6 && fields[6].key == 7;
    assert m[1] == UInt(1) && m[2] == Text(REVOCATIONS) && m[3] == Text(r.issuer) && m[4] == UInt(r.sequence);
    assert m[5] == UInt(r.issued) && m[6] == Array(ByteStrings(r.issuances)) && m[7] == Text(TrustText(r.trust));
  }

  lemma RevocationsAcceptedExactly(raw: Octets, r: Revocations)
    ensures DecodeRevocations(raw) == Some(r) <==> ValidRevocations(r) && raw == EncodeRevocations(r)
  {
    if ValidRevocations(r) { RevocationsRoundTrip(r); }
  }

  /** The map keys are in the bytewise order of their encodings, as deterministic encoding asks. */
  lemma KeysDeterministic(fields: seq<Field>, i: nat, j: nat)
    requires FieldsEncodable(fields) && Ascending(fields) && i < j < |fields|
    ensures Less(Encode(UInt(fields[i].key)), Encode(UInt(fields[j].key)))
  {
    assert Encode(UInt(fields[i].key)) == [fields[i].key] && Encode(UInt(fields[j].key)) == [fields[j].key];
  }

  /******* The envelope *******/

  function ProtectedHeader(kid: Octets): (r: Octets)
    requires |kid| <= 64
    ensures |r| < 256
  {
    var fields := HeaderFields(kid);
    HeaderSize(kid);
    Encode(FieldMap(fields))
  }

  lemma HeaderSize(kid: Octets)
    requires |kid| <= 64
    ensures |Encode(FieldMap(HeaderFields(kid)))| < 256
  {
    FlattenEncodable(HeaderFields(kid));
    var fields := HeaderFields(kid);
    var items := Flatten(fields);
    assert fields[1..] == [fields[1]] && fields[1..][1..] == [];
    assert Flatten(fields[1..]) == [UInt(4), Bytes(kid)];
    assert items == [UInt(1), NInt(7), UInt(4), Bytes(kid)];
    EncodeCons(items);
    EncodeCons(items[1..]);
    EncodeCons(items[1..][1..]);
    EncodeCons(items[1..][1..][1..]);
  }

  lemma EncodeCons(items: seq<Item>)
    requires AllEncodable(items) && |items| > 0
    ensures AllEncodable(items[1..]) && |EncodeAll(items)| == |Encode(items[0])| + |EncodeAll(items[1..])|
  {
  }

  function EnvelopeParts(e: Envelope): seq<Item>
    requires |e.kid| <= 64
  {
    [Bytes(ProtectedHeader(e.kid)), Map([]), Bytes(e.payload), Bytes(e.signature)]
  }

  function EncodeEnvelope(e: Envelope): Octets
    requires ValidEnvelope(e)
  {
    assert AllEncodable(EnvelopeParts(e));
    [0xd2] + Encode(Array(EnvelopeParts(e)))
  }

  /** The key identifier of a protected header that holds the algorithm and it alone. */
  function KidOf(protected: Octets): Option<Octets> {
    var x := DecodeWhole(protected);
    if x.None? || !x.value.Map? then None
    else
      var m := ByLabel(x.value.items);
      if m.None? || |m.value| != 2 || 1 !in m.value || 4 !in m.value then None
      else if m.value[1] != NInt(7) || !m.value[4].Bytes? then None
      else Some(m.value[4].data)
  }

  function DecodeEnvelope(raw: Octets): Option<Envelope> {
    if |raw| == 0 || |raw| > MAX_ENVELOPE || raw[0] != 0xd2 then None
    else
      var x := DecodeWhole(raw[1..]);
      if x.None? || !x.value.Array? || |x.value.items| != 4 then None
      else
        var parts := x.value.items;
        if !parts[0].Bytes? || parts[1] != Map([]) || !parts[2].Bytes? || !parts[3].Bytes? then None
        else
          var kid := KidOf(parts[0].data);
          if kid.None? then None
          else
            var e := Envelope(kid.value, parts[2].data, parts[3].data);
            if ValidEnvelope(e) && parts[0].data == ProtectedHeader(e.kid) && raw == EncodeEnvelope(e) then Some(e) else None
  }

  lemma KidRoundTrip(kid: Octets)
    requires |kid| <= 64
    ensures KidOf(ProtectedHeader(kid)) == Some(kid)
  {
    var fields := HeaderFields(kid);
    WholeRoundTrip(FieldMap(fields));
    LabelsRoundTrip(fields);
    var m := ByLabel(Flatten(fields)).value;
    assert fields[0].key == 1 && fields[1].key == 4;
    assert m.Keys == {1, 4};
    assert |m| == |m.Keys|;
  }

  /** An envelope is accepted exactly when it is the deterministic COSE_Sign1 encoding of its parts and within the size bound. */
  lemma EnvelopeAcceptedExactly(raw: Octets, e: Envelope)
    ensures DecodeEnvelope(raw) == Some(e) <==> ValidEnvelope(e) && |raw| <= MAX_ENVELOPE && raw == EncodeEnvelope(e)
  {
    if ValidEnvelope(e) && |raw| <= MAX_ENVELOPE && raw == EncodeEnvelope(e) {
      assert AllEncodable(EnvelopeParts(e));
      assert raw[1..] == Encode(Array(EnvelopeParts(e)));
      WholeRoundTrip(Array(EnvelopeParts(e)));
      KidRoundTrip(e.kid);
    }
  }

  lemma {:induction false} EncodeConcat(x: seq<Item>, y: seq<Item>)
    requires AllEncodable(x) && AllEncodable(y)
    ensures AllEncodable(x + y) && EncodeAll(x + y) == EncodeAll(x) + EncodeAll(y)
  {
    if |x| == 0 {
      assert x + y == y;
    } else {
      EncodeConcat(x[1..], y);
      EncodeFirst(x + y, x[0], x[1..] + y);
      Associate(Encode(x[0]), EncodeAll(x[1..]), EncodeAll(y));
    }
  }

  lemma EncodeFirst(items: seq<Item>, first: Item, others: seq<Item>)
    requires items == [first] + others && Encodable(first) && AllEncodable(others)
    ensures AllEncodable(items) && EncodeAll(items) == Encode(first) + EncodeAll(others)
  {
    assert items[1..] == others;
  }

  lemma TwoParts(a: Item, b: Item)
    requires Encodable(a) && Encodable(b)
    ensures AllEncodable([a, b]) && EncodeAll([a, b]) == Encode(a) + Encode(b)
  {
    OnePart(a);
    OnePart(b);
    EncodeConcat([a], [b]);
    assert [a] + [b] == [a, b];
  }

  lemma OnePart(a: Item)
    requires Encodable(a)
    ensures AllEncodable([a]) && EncodeAll([a]) == Encode(a)
  {
    assert [a][1..] == [];
    assert EncodeAll([a]) == Encode(a) + [];
  }

  lemma FourParts(a: Item, b: Item, c: Item, d: Item)
    requires Encodable(a) && Encodable(b) && Encodable(c) && Encodable(d)
    ensures AllEncodable([a, b, c, d]) && EncodeAll([a, b, c, d]) == Encode(a) + Encode(b) + Encode(c) + Encode(d)
  {
    TwoParts(a, b);
    TwoParts(c, d);
    EncodeConcat([a, b], [c, d]);
    assert [a, b] + [c, d] == [a, b, c, d];
    Associate(Encode(a) + Encode(b), Encode(c), Encode(d));
  }

  /** The bytes of an envelope: tag 18, an array of four, a header with algorithm -8 and the key identifier, an empty map, payload and signature. */
  lemma EnvelopeLayout(e: Envelope)
    requires ValidEnvelope(e)
    ensures ProtectedHeader(e.kid) == [0xa2, 0x01, 0x27, 0x04] + Encode(Bytes(e.kid))
    ensures EncodeEnvelope(e) == [0xd2, 0x84] + Encode(Bytes(ProtectedHeader(e.kid))) + [0xa0] + Encode(Bytes(e.payload)) + Encode(Bytes(e.signature))
  {
    HeaderLayout(e.kid);
    var header, payload, signature := Bytes(ProtectedHeader(e.kid)), Bytes(e.payload), Bytes(e.signature);
    FourParts(header, Map([]), payload, signature);
    assert Encode(Map([])) == [0xa0] + [] == [0xa0];
    Layout(Encode(header), Encode(payload), Encode(signature));
  }

  lemma Layout(header: Octets, payload: Octets, signature: Octets)
    ensures [0xd2] + ([0x84] + (header + [0xa0] + payload + signature)) == [0xd2, 0x84] + header + [0xa0] + payload + signature
  {
  }

  lemma HeaderLayout(kid: Octets)
    requires |kid| <= 64
    ensures ProtectedHeader(kid) == [0xa2, 0x01, 0x27, 0x04] + Encode(Bytes(kid))
  {
    var fields := HeaderFields(kid);
    assert fields[1..] == [fields[1]] && fields[1..][1..] == [];
    assert Flatten(fields[1..]) == [UInt(4), Bytes(kid)];
    assert Flatten(fields) == [UInt(1), NInt(7), UInt(4), Bytes(kid)];
    FourParts(UInt(1), NInt(7), UInt(4), Bytes(kid));
    assert Encode(UInt(1)) == [0x01] && Encode(NInt(7)) == [0x27] && Encode(UInt(4)) == [0x04];
  }

  /** Some envelope is accepted with these parts exactly when identifier and signature have their sizes and the whole is within the bound. */
  lemma EnvelopesMean(e: Envelope)
    ensures (exists raw :: DecodeEnvelope(raw) == Some(e)) <==>
            && 1 <= |e.kid| <= 64 && |e.signature| == 64 && |e.payload| <= 65536
            && |Encode(Bytes(ProtectedHeader(e.kid)))| + |Encode(Bytes(e.payload))| + |Encode(Bytes(e.signature))| + 3 <= 65536
  {
    if raw :| DecodeEnvelope(raw) == Some(e) {
      EnvelopeAcceptedExactly(raw, e);
      EnvelopeLayout(e);
    }
    if ValidEnvelope(e) {
      EnvelopeLayout(e);
      EnvelopeAcceptedExactly(EncodeEnvelope(e), e);
    }
  }
}
