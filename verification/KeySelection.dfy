/** Selecting the one trusted key of an issuer for a document. */
module KeySelection {
  import opened Base
  import Entitlements

  datatype Purpose = ForGrant | ForRevocation

  datatype Key = Key(id: Octets, publicKey: Octets, purposes: set<Purpose>, validFrom: int, validUntil: int)

  datatype Issuer = Issuer(id: Octets, plugins: set<Octets>, keys: seq<Key>)

  datatype Request = Request(issuer: Octets, kid: Octets, purpose: Purpose, plugin: Octets, issuedAt: int)

  predicate Usable(key: Key, q: Request) {
    && |key.publicKey| == 32 && q.purpose in key.purposes && 0 <= key.validFrom <= q.issuedAt
    && (key.validUntil != 0 ==> key.validFrom < key.validUntil && q.issuedAt < key.validUntil)
  }

  predicate Allows(entry: Issuer, q: Request) {
    entry.id == q.issuer && q.plugin != [] ==> q.plugin in entry.plugins
  }

  /** Key j of entry i carries the identifier, and the entry is the issuer's. */
  predicate Candidate(issuers: seq<Issuer>, q: Request, i: int, j: int) {
    0 <= i < |issuers| && issuers[i].id == q.issuer && 0 <= j < |issuers[i].keys| && issuers[i].keys[j].id == q.kid
  }

  /** The one candidate in all entries of the issuer is usable, and it is this key. */
  ghost predicate Sole(issuers: seq<Issuer>, q: Request, i: int, j: int) {
    && Candidate(issuers, q, i, j) && Usable(issuers[i].keys[j], q)
    && (forall a, b :: Candidate(issuers, q, a, b) ==> a == i && b == j)
  }

  ghost predicate Selects(issuers: seq<Issuer>, q: Request, key: Key) {
    && (forall i :: 0 <= i < |issuers| ==> Allows(issuers[i], q))
    && (exists i, j :: Sole(issuers, q, i, j) && issuers[i].keys[j] == key)
  }

  /** Scan order: entry by entry, key by key. */
  predicate Before(a: int, b: int, i: int, j: int) {
    a < i || (a == i && b < j)
  }

  /** What was found is the only candidate before this point. */
  ghost predicate FoundBefore(issuers: seq<Issuer>, q: Request, i: int, j: int, found: Option<Key>, fi: int, fj: int) {
    && (found.Some? ==> Candidate(issuers, q, fi, fj) && Before(fi, fj, i, j) && issuers[fi].keys[fj] == found.value && Usable(found.value, q))
    && (forall a, b :: Candidate(issuers, q, a, b) && Before(a, b, i, j) ==> found.Some? && a == fi && b == fj)
  }

  /** A second candidate, or one that is not usable, rules out every selection. */
  lemma NoneSelected(issuers: seq<Issuer>, q: Request, i: int, j: int, found: Option<Key>, fi: int, fj: int)
    requires FoundBefore(issuers, q, i, j, found, fi, fj) && Candidate(issuers, q, i, j)
    requires found.Some? || !Usable(issuers[i].keys[j], q)
    ensures forall key :: !Selects(issuers, q, key)
  {
  }

  /** No plugin is named when revocations are verified, so that any entry allows them. */
  method SelectKey(class_: Entitlements.TrustClass, mode: Entitlements.TrustClass, issuers: seq<Issuer>, q: Request) returns (r: Option<Key>)
    ensures r.Some? ==> class_ == mode && Selects(issuers, q, r.value)
    ensures r.None? ==> class_ != mode || forall key :: !Selects(issuers, q, key)
    ensures r.Some? ==> |r.value.publicKey| == 32 && q.purpose in r.value.purposes && r.value.id == q.kid && InTime(r.value, q.issuedAt)
  {
    if class_ != mode { return None; }
    var found: Option<Key> := None;
    ghost var fi, fj := 0, 0;
    for i := 0 to |issuers|
      invariant forall k :: 0 <= k < i ==> Allows(issuers[k], q)
      invariant FoundBefore(issuers, q, i, 0, found, fi, fj)
    {
      if issuers[i].id != q.issuer { continue; }
      if q.plugin != [] && q.plugin !in issuers[i].plugins { return None; }
      for j := 0 to |issuers[i].keys|
        invariant FoundBefore(issuers, q, i, j, found, fi, fj)
      {
        var key := issuers[i].keys[j];
        if key.id != q.kid { continue; }
        if found.Some? || !Usable(key, q) {
          NoneSelected(issuers, q, i, j, found, fi, fj);
          return None;
        }
        found, fi, fj := Some(key), i, j;
      }
    }
    if found.Some? { assert Sole(issuers, q, fi, fj); }
    return found;
  }

  /** A signing time the key is trusted for: not before it is valid and, unless it never retires, before its retirement. */
  predicate InTime(key: Key, at: int) {
    0 <= key.validFrom <= at && (key.validUntil == 0 || at < key.validUntil)
  }

  /** The issuer lets this plugin through in every one of its entries; a request without a plugin asks for nothing. */
  ghost predicate Authorized(issuers: seq<Issuer>, q: Request) {
    q.plugin == [] || forall e :: e in issuers && e.id == q.issuer ==> q.plugin in e.plugins
  }

  /**
   A key is selected exactly if the issuer is authorized, the key is the only one of its entries with the identifier, and it is a whole public key for
   the purpose at the signing time. A window that ends before it begins holds no time, so the check of its order adds nothing.
   */
  lemma SelectsExactly(issuers: seq<Issuer>, q: Request, key: Key)
    ensures Selects(issuers, q, key) <==>
            && Authorized(issuers, q) && |key.publicKey| == 32 && q.purpose in key.purposes && InTime(key, q.issuedAt)
            && exists i, j :: Only(issuers, q, key, i, j)
  {
    if Authorized(issuers, q) {
      forall i | 0 <= i < |issuers| ensures Allows(issuers[i], q) { }
    }
    if Selects(issuers, q, key) {
      var i, j :| Sole(issuers, q, i, j) && issuers[i].keys[j] == key;
      forall a, b | 0 <= a < |issuers| && issuers[a].id == q.issuer && 0 <= b < |issuers[a].keys| && issuers[a].keys[b].id == q.kid
        ensures a == i && b == j
      {
        assert Candidate(issuers, q, a, b);
      }
      assert Only(issuers, q, key, i, j);
      forall e | e in issuers && e.id == q.issuer && q.plugin != [] ensures q.plugin in e.plugins {
        var k :| 0 <= k < |issuers| && issuers[k] == e;
        assert Allows(issuers[k], q);
      }
    }
    if i, j :| Only(issuers, q, key, i, j) {
      assert Usable(key, q) ==> Sole(issuers, q, i, j);
    }
  }

  /** The key stands at this place, and no other place of the issuer carries the identifier. */
  ghost predicate Only(issuers: seq<Issuer>, q: Request, key: Key, i: int, j: int) {
    && 0 <= i < |issuers| && issuers[i].id == q.issuer && 0 <= j < |issuers[i].keys| && issuers[i].keys[j] == key && key.id == q.kid
    && forall a, b :: 0 <= a < |issuers| && issuers[a].id == q.issuer && 0 <= b < |issuers[a].keys| && issuers[a].keys[b].id == q.kid ==> a == i && b == j
  }

  /** Whichever keys satisfy the selection, they are the same key. */
  lemma SelectionUnique(issuers: seq<Issuer>, q: Request, a: Key, b: Key)
    requires Selects(issuers, q, a) && Selects(issuers, q, b)
    ensures a == b
  {
    var i, j :| Sole(issuers, q, i, j) && issuers[i].keys[j] == a;
    var k, l :| Sole(issuers, q, k, l) && issuers[k].keys[l] == b;
    assert Candidate(issuers, q, k, l);
  }
}
