/**
 Deployment admission requests: their canonical form, which makes requests that differ
 only in confirmation order or in absent versus empty collections the same
 intent, and the validation of that form.
 */
module AdmissionRequests {
  import opened Base

  type Uuid = nat
  const NIL: Uuid := 0
  const MAX_ENTRIES := 1000

  datatype Mode = Deploy | Rollback | Destroy

  // A None collection is a nil one. `formatted` is the outcome of the checks on the
  // spelling of the digest, the mode and the module keys.
  datatype Admission = Admission(
    id: Uuid, project: Uuid, environment: Uuid, actor: Uuid, digest: string, formatted: bool, mode: Mode,
    modules: Option<map<Uuid, Uuid>>, carried: Option<map<Uuid, Uuid>>,
    confirmed: Option<seq<Uuid>>, drafts: Option<map<Uuid, Uuid>>)

  function MapOf(m: Option<map<Uuid, Uuid>>): map<Uuid, Uuid> {
    if m.Some? then m.value else map[]
  }

  function ListOf(s: Option<seq<Uuid>>): seq<Uuid> {
    if s.Some? then s.value else []
  }

  /** A Go map lookup: the zero identity where the key is missing. */
  function Lookup(m: map<Uuid, Uuid>, k: Uuid): Uuid {
    if k in m then m[k] else NIL
  }

  /******* Sorting the confirmations *******/

  predicate Sorted(s: seq<Uuid>) {
    forall i, j :: 0 <= i < j < |s| ==> s[i] <= s[j]
  }

  function Insert(x: Uuid, s: seq<Uuid>): (r: seq<Uuid>)
    ensures multiset(r) == multiset(s) + multiset{x}
  {
    if |s| == 0 || x <= s[0] then [x] + s
    else
      assert s == [s[0]] + s[1..];
      [s[0]] + Insert(x, s[1..])
  }

  lemma {:induction false} InsertSorted(x: Uuid, s: seq<Uuid>)
    requires Sorted(s)
    ensures Sorted(Insert(x, s))
  {
    if |s| > 0 && x > s[0] {
      var r := Insert(x, s[1..]);
      InsertSorted(x, s[1..]);
      forall i | 0 <= i < |r| ensures s[0] <= r[i] {
        assert r[i] in multiset(s[1..]) + multiset{x};
        assert r[i] in s[1..] || r[i] == x;
      }
    }
  }

  /** Go's slices.SortFunc on identities. */
  function Sort(s: seq<Uuid>): (r: seq<Uuid>)
    ensures Sorted(r) && multiset(r) == multiset(s)
  {
    if |s| == 0 then []
    else
      assert s == [s[0]] + s[1..];
      InsertSorted(s[0], Sort(s[1..]));
      Insert(s[0], Sort(s[1..]))
  }

  lemma FirstIsLeast(a: seq<Uuid>, b: seq<Uuid>)
    requires Sorted(a) && Sorted(b) && multiset(a) == multiset(b) && |a| > 0
    ensures |b| > 0 && a[0] == b[0]
  {
    assert a[0] in multiset(b) && |multiset(a)| == |a| && |multiset(b)| == |b|;
    assert b[0] in multiset(a);
    var i :| 0 <= i < |b| && b[i] == a[0];
    var j :| 0 <= j < |a| && a[j] == b[0];
  }

  lemma {:induction false} SortedIsUnique(a: seq<Uuid>, b: seq<Uuid>)
    requires Sorted(a) && Sorted(b) && multiset(a) == multiset(b)
    ensures a == b
  {
    if |a| == 0 {
      assert |multiset(b)| == |b|;
    } else {
      FirstIsLeast(a, b);
      assert a == [a[0]] + a[1..] && b == [b[0]] + b[1..];
      assert multiset(a[1..]) == multiset(a) - multiset{a[0]} == multiset(b[1..]);
      SortedIsUnique(a[1..], b[1..]);
    }
  }

  /******* Canonical form *******/

  function Canonical(v: Admission): Admission {
    v.(modules := Some(MapOf(v.modules)),
       carried := Some(MapOf(v.carried)),
       drafts := if MapOf(v.drafts) == map[] then None else v.drafts,
       confirmed := Some(Sort(ListOf(v.confirmed))))
  }

  /** The same request up to confirmation order and nil versus empty collections. */
  predicate SameIntent(a: Admission, b: Admission) {
    && a.id == b.id && a.project == b.project && a.environment == b.environment && a.actor == b.actor
    && a.digest == b.digest && a.formatted == b.formatted && a.mode == b.mode
    && MapOf(a.modules) == MapOf(b.modules) && MapOf(a.carried) == MapOf(b.carried) && MapOf(a.drafts) == MapOf(b.drafts)
    && multiset(ListOf(a.confirmed)) == multiset(ListOf(b.confirmed))
  }

  lemma CanonicalExactly(a: Admission, b: Admission)
    ensures Canonical(a) == Canonical(b) <==> SameIntent(a, b)
  {
    if SameIntent(a, b) { SortedIsUnique(Sort(ListOf(a.confirmed)), Sort(ListOf(b.confirmed))); }
  }

  lemma CanonicalIdempotent(v: Admission)
    ensures Canonical(Canonical(v)) == Canonical(v)
  {
    CanonicalExactly(Canonical(v), v);
  }

  /******* Validation *******/

  predicate Distinct(s: seq<Uuid>) {
    forall i, j :: 0 <= i < j < |s| ==> s[i] != s[j]
  }

  predicate SubMap(m: map<Uuid, Uuid>, whole: map<Uuid, Uuid>) {
    forall k :: k in m ==> k in whole && m[k] == whole[k]
  }

  predicate Valid(v: Admission) {
    && v.id != NIL && v.project != NIL && v.environment != NIL && v.actor != NIL && v.formatted && v.modules.Some?
    && |MapOf(v.modules)| <= MAX_ENTRIES && |MapOf(v.carried)| <= MAX_ENTRIES
    && |MapOf(v.drafts)| <= MAX_ENTRIES && |ListOf(v.confirmed)| <= MAX_ENTRIES
    && (forall m :: m in MapOf(v.modules) ==> m != NIL && MapOf(v.modules)[m] != NIL)
    && SubMap(MapOf(v.carried), MapOf(v.modules)) && SubMap(MapOf(v.drafts), MapOf(v.modules))
    && (forall x :: x in ListOf(v.confirmed) ==> x != NIL) && Distinct(ListOf(v.confirmed))
    && (v.mode.Destroy? ==> MapOf(v.modules) == map[] && MapOf(v.carried) == map[] && ListOf(v.confirmed) == [])
  }

  /** Whether every entry of m is an entry of whole, key by key. */
  method CheckSubMap(m: map<Uuid, Uuid>, whole: map<Uuid, Uuid>) returns (ok: bool)
    ensures ok == SubMap(m, whole)
  {
    var rest := m.Keys;
    while rest != {}
      invariant rest <= m.Keys
      invariant forall k :: k in m && k !in rest ==> k in whole && m[k] == whole[k]
      decreases |rest|
    {
      var k :| k in rest;
      if k !in whole || m[k] != whole[k] { return false; }
      rest := rest - {k};
    }
    return true;
  }

  method CheckModules(m: map<Uuid, Uuid>) returns (ok: bool)
    ensures ok == forall k :: k in m ==> k != NIL && m[k] != NIL
  {
    var rest := m.Keys;
    while rest != {}
      invariant rest <= m.Keys
      invariant forall k :: k in m && k !in rest ==> k != NIL && m[k] != NIL
      decreases |rest|
    {
      var k :| k in rest;
      if k == NIL || m[k] == NIL { return false; }
      rest := rest - {k};
    }
    return true;
  }

  method CheckConfirmations(s: seq<Uuid>) returns (ok: bool)
    ensures ok <==> (forall x :: x in s ==> x != NIL) && Distinct(s)
  {
    var seen: set<Uuid> := {};
    for i := 0 to |s|
      invariant seen == set j | 0 <= j < i :: s[j]
      invariant forall j :: 0 <= j < i ==> s[j] != NIL
      invariant Distinct(s[..i])
    {
      assert s[i] in s;
      if s[i] == NIL { return false; }
      if s[i] in seen {
        assert exists j :: 0 <= j < i && s[j] == s[i];
        return false;
      }
      assert s[..i + 1] == s[..i] + [s[i]];
      seen := seen + {s[i]};
    }
    assert s[..|s|] == s;
    return true;
  }

  method Validate(v: Admission) returns (ok: bool)
    ensures ok == Valid(v)
  {
    if v.id == NIL || v.project == NIL || v.environment == NIL || v.actor == NIL || !v.formatted || v.modules.None?
       || |v.modules.value| > MAX_ENTRIES { return false; }
    var modules, carried, drafts, confirmed := MapOf(v.modules), MapOf(v.carried), MapOf(v.drafts), ListOf(v.confirmed);
    ok := CheckModules(modules);
    if !ok { return false; }
    if |carried| > MAX_ENTRIES || |confirmed| > MAX_ENTRIES { return false; }
    ok := CheckSubMap(carried, modules);
    if !ok || |drafts| > MAX_ENTRIES { return false; }
    ok := CheckSubMap(drafts, modules);
    if !ok { return false; }
    ok := CheckConfirmations(confirmed);
    if !ok { return false; }
    if v.mode.Destroy? && (|modules| != 0 || |carried| != 0 || |confirmed| != 0) { return false; }
  }

  /** Validity is a property of the intent: canonical equals are valid together, and order and nil do not matter. */
  lemma ValidityOfIntent(a: Admission, b: Admission)
    requires SameIntent(a, b)
    ensures Valid(Canonical(a)) == Valid(Canonical(b))
    ensures a.modules.Some? ==> Valid(Canonical(a)) == Valid(a)
  {
    CanonicalExactly(a, b);
    var s, r := ListOf(a.confirmed), Sort(ListOf(a.confirmed));
    assert |s| == |multiset(s)| == |multiset(r)| == |r|;
    assert forall x :: x in s <==> x in multiset(s);
    assert forall x :: x in r <==> x in multiset(r);
    DistinctIsMultiplicity(s);
    DistinctIsMultiplicity(r);
  }

  lemma {:induction false} DistinctIsMultiplicity(s: seq<Uuid>)
    ensures Distinct(s) <==> forall x :: multiset(s)[x] <= 1
  {
    if |s| > 0 {
      DistinctIsMultiplicity(s[1..]);
      assert s == [s[0]] + s[1..];
      assert multiset(s) == multiset{s[0]} + multiset(s[1..]);
      if Distinct(s) {
        assert s[0] !in s[1..];
        forall x ensures multiset(s)[x] <= 1 { assert multiset(s[1..])[x] <= 1; }
      }
      if forall x :: multiset(s)[x] <= 1 {
        forall x ensures multiset(s[1..])[x] <= 1 { assert multiset(s)[x] <= 1; }
        assert multiset(s)[s[0]] <= 1;
        assert s[0] !in multiset(s[1..]);
        forall i, j | 0 <= i < j < |s| ensures s[i] != s[j] {
          if i > 0 { assert s[1..][i - 1] != s[1..][j - 1]; } else { assert s[j] == s[1..][j - 1]; }
        }
      }
    }
  }
}
