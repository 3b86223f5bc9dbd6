/**
 The lifecycle decision of an authorization: a walk over the resolved Modules that
 deletes each confirmed Defective target from the set of confirmations, and what it
 decides, stated without the walk.
 */
module AdmissionDecision {
  import opened Base
  import opened AdmissionRequests

  datatype Lifecycle = Proposed | Default | Deprecated | Defective

  // Version identities are unique across Modules.
  datatype Version = Version(module_: Uuid, lifecycle: Lifecycle)

  datatype Snapshot = Snapshot(module_: Uuid, environment: Uuid, project: Uuid)

  datatype Catalogue = Catalogue(archived: map<Uuid, bool>, versions: map<Uuid, Version>, snapshots: map<Uuid, Snapshot>)

  datatype Policy = Policy(freshProposed: bool, freshDraftTests: bool)

  datatype Error = BadRequest | NotFound | Conflict | Busy | PinProtection | LifecycleConflict | Failed

  // What an authorization has read: active Pins by Module, and the draft tests that
  // succeeded before in this Environment, as pairs of Module and snapshot.
  datatype Evidence = Evidence(catalogue: Catalogue, active: map<Uuid, Uuid>, executed: set<(Uuid, Uuid)>, policy: Policy)

  /******* One Module *******/

  predicate Carries(v: Admission, m: Uuid, version: Uuid) {
    Lookup(MapOf(v.carried), m) == version
  }

  predicate IsDraft(v: Admission, m: Uuid) {
    m in MapOf(v.drafts)
  }

  /** The decision on a draft test of Module m. */
  function DraftError(e: Evidence, v: Admission, m: Uuid): Option<Error>
    requires m in MapOf(v.drafts) && m in e.catalogue.archived
  {
    var snapshot := MapOf(v.drafts)[m];
    var retained := Carries(v, m, snapshot);
    if snapshot !in e.catalogue.snapshots
       || e.catalogue.snapshots[snapshot].module_ != m || e.catalogue.snapshots[snapshot].environment != v.environment
    then Some(NotFound)
    else if e.catalogue.snapshots[snapshot].project != v.project then Some(BadRequest)
    else if (retained || v.mode.Rollback?) && (m, snapshot) !in e.executed then Some(LifecycleConflict)
    else if e.catalogue.archived[m] && !retained && !v.mode.Rollback? then Some(LifecycleConflict)
    else if !retained && !v.mode.Rollback? && !e.policy.freshDraftTests then Some(LifecycleConflict)
    else None
  }

  predicate Found(e: Evidence, m: Uuid, version: Uuid) {
    version in e.catalogue.versions && e.catalogue.versions[version].module_ == m
  }

  /** The decision on a published Version of Module m, apart from its confirmation. */
  function VersionError(e: Evidence, v: Admission, m: Uuid): Option<Error>
    requires m in MapOf(v.modules) && m in e.catalogue.archived
  {
    var version := MapOf(v.modules)[m];
    if !Found(e, m, version) then Some(NotFound)
    else
      var lifecycle := e.catalogue.versions[version].lifecycle;
      var pinned := Lookup(e.active, m) == version;
      if e.catalogue.archived[m] && !v.mode.Rollback? && !Carries(v, m, version) then Some(LifecycleConflict)
      else if lifecycle.Proposed? && !pinned && !v.mode.Rollback? && !Carries(v, m, version) && !e.policy.freshProposed then Some(LifecycleConflict)
      else if lifecycle.Deprecated? && !pinned && !v.mode.Rollback? then Some(LifecycleConflict)
      else if lifecycle.Defective? && !pinned && !v.mode.Rollback? then Some(LifecycleConflict)
      else None
  }

  /** A published target whose Version is Defective. */
  predicate IsDefective(e: Evidence, v: Admission, m: Uuid) {
    && m in MapOf(v.modules) && !IsDraft(v, m) && Found(e, m, MapOf(v.modules)[m])
    && e.catalogue.versions[MapOf(v.modules)[m]].lifecycle.Defective?
  }

  function ModuleError(e: Evidence, v: Admission, m: Uuid): Option<Error>
    requires m in MapOf(v.modules)
  {
    if m !in e.catalogue.archived then Some(NotFound)
    else if IsDraft(v, m) then DraftError(e, v, m)
    else VersionError(e, v, m)
  }

  /** One turn of the walk: the confirmations left, or the error that stops it. */
  function Turn(e: Evidence, v: Admission, m: Uuid, confirmed: set<Uuid>): Result<set<Uuid>, Error>
    requires m in MapOf(v.modules)
  {
    if ModuleError(e, v, m).Some? then Err(ModuleError(e, v, m).value)
    else if !IsDefective(e, v, m) then Ok(confirmed)
    else if MapOf(v.modules)[m] !in confirmed then Err(LifecycleConflict)
    else Ok(confirmed - {MapOf(v.modules)[m]})
  }

  /******* The walk and its meaning *******/

  predicate Targets(v: Admission, keys: seq<Uuid>) {
    (forall m :: m in keys ==> m in MapOf(v.modules)) && Distinct(keys)
  }

  function Walk(e: Evidence, v: Admission, keys: seq<Uuid>, confirmed: set<Uuid>): Result<set<Uuid>, Error>
    requires Targets(v, keys)
  {
    if |keys| == 0 then Ok(confirmed)
    else
      var turn := Turn(e, v, keys[0], confirmed);
      if turn.Err? then turn else Walk(e, v, keys[1..], turn.value)
  }

  ghost predicate Permitted(e: Evidence, v: Admission, keys: seq<Uuid>) {
    forall m :: m in keys ==> m in MapOf(v.modules) && ModuleError(e, v, m).None?
  }

  function Defectives(e: Evidence, v: Admission, keys: seq<Uuid>): set<Uuid> {
    set m | m in keys && IsDefective(e, v, m) :: MapOf(v.modules)[m]
  }

  lemma DefectivesCons(e: Evidence, v: Admission, keys: seq<Uuid>)
    requires Targets(v, keys) && |keys| > 0
    ensures Defectives(e, v, keys) ==
            Defectives(e, v, keys[1..]) + if IsDefective(e, v, keys[0]) then {MapOf(v.modules)[keys[0]]} else {}
    ensures IsDefective(e, v, keys[0]) ==> MapOf(v.modules)[keys[0]] !in Defectives(e, v, keys[1..])
  {
    assert keys == [keys[0]] + keys[1..];
    if IsDefective(e, v, keys[0]) {
      var d := MapOf(v.modules)[keys[0]];
      forall m | m in keys[1..] && IsDefective(e, v, m) ensures MapOf(v.modules)[m] != d {
        assert m != keys[0] && e.catalogue.versions[MapOf(v.modules)[m]].module_ == m;
      }
    }
  }

  lemma {:induction false} WalkExactly(e: Evidence, v: Admission, keys: seq<Uuid>, confirmed: set<Uuid>)
    requires Targets(v, keys)
    ensures Walk(e, v, keys, confirmed).Ok? <==> Permitted(e, v, keys) && Defectives(e, v, keys) <= confirmed
    ensures Walk(e, v, keys, confirmed).Ok? ==> Walk(e, v, keys, confirmed).value == confirmed - Defectives(e, v, keys)
  {
    if |keys| > 0 {
      assert keys == [keys[0]] + keys[1..];
      DefectivesCons(e, v, keys);
      var turn := Turn(e, v, keys[0], confirmed);
      if turn.Ok? {
        WalkExactly(e, v, keys[1..], turn.value);
      }
    }
  }

  /** The walk over all the resolved Modules, in ascending order. */
  function Verdict(e: Evidence, v: Admission, keys: seq<Uuid>): Option<Error>
    requires Targets(v, keys)
  {
    match Walk(e, v, keys, set x | x in ListOf(v.confirmed))
    case Err(error) => Some(error)
    case Ok(left) => if left != {} then Some(BadRequest) else None
  }

  predicate AllKeys(v: Admission, keys: seq<Uuid>) {
    Targets(v, keys) && forall m :: m in MapOf(v.modules) ==> m in keys
  }

  /** x is the Defective Version of a published target. */
  ghost predicate DefectiveTarget(e: Evidence, v: Admission, x: Uuid) {
    exists m :: IsDefective(e, v, m) && MapOf(v.modules)[m] == x
  }

  lemma DefectivesAre(e: Evidence, v: Admission, keys: seq<Uuid>, x: Uuid)
    requires AllKeys(v, keys)
    ensures x in Defectives(e, v, keys) <==> DefectiveTarget(e, v, x)
  {
    if DefectiveTarget(e, v, x) {
      var m :| IsDefective(e, v, m) && MapOf(v.modules)[m] == x;
      assert m in keys;
    }
  }

  lemma SameSets(a: set<Uuid>, b: set<Uuid>)
    ensures a - b == {} && b <= a <==> a == b
  {
    assert forall x :: x in a && x !in b ==> x in a - b;
  }

  /**
   The decision: a walk in any order passes if and only if every Module is permitted on its own and the
   confirmations name exactly the Defective published targets.
   */
  lemma VerdictExactly(e: Evidence, v: Admission, keys: seq<Uuid>)
    requires AllKeys(v, keys)
    ensures Verdict(e, v, keys).None? <==>
            && (forall m :: m in MapOf(v.modules) ==> ModuleError(e, v, m).None?)
            && (forall x :: x in ListOf(v.confirmed) <==> DefectiveTarget(e, v, x))
  {
    var confirmed := set x | x in ListOf(v.confirmed);
    var defectives := Defectives(e, v, keys);
    WalkExactly(e, v, keys, confirmed);
    forall x ensures x in defectives <==> DefectiveTarget(e, v, x) { DefectivesAre(e, v, keys, x); }
    SameSets(confirmed, defectives);
    assert confirmed == defectives <==> forall x :: x in ListOf(v.confirmed) <==> DefectiveTarget(e, v, x);
  }

  /**
   What a passed decision means for each target: a Defective one is confirmed, Defective and Deprecated
   ones are actively pinned or part of a rollback, an archived Module only carries forward or rolls back, and
   a retained draft test succeeded here before.
   */
  lemma VerdictMeans(e: Evidence, v: Admission, keys: seq<Uuid>, m: Uuid)
    requires AllKeys(v, keys) && Valid(v) && Verdict(e, v, keys).None? && m in MapOf(v.modules)
    ensures m in e.catalogue.archived
    ensures !IsDraft(v, m) ==>
              var version := MapOf(v.modules)[m];
              && Found(e, m, version)
              && (e.catalogue.versions[version].lifecycle.Defective? ==> version in ListOf(v.confirmed))
              && (e.catalogue.versions[version].lifecycle.Defective? || e.catalogue.versions[version].lifecycle.Deprecated? ==>
                    v.mode.Rollback? || (m in e.active && e.active[m] == version))
              && (e.catalogue.archived[m] ==> v.mode.Rollback? || (m in MapOf(v.carried) && MapOf(v.carried)[m] == version))
    ensures IsDraft(v, m) ==>
              var snapshot := MapOf(v.drafts)[m];
              && snapshot == MapOf(v.modules)[m] && snapshot in e.catalogue.snapshots
              && e.catalogue.snapshots[snapshot] == Snapshot(m, v.environment, v.project)
              && (m in MapOf(v.carried) || v.mode.Rollback? ==> (m, snapshot) in e.executed)
              && (m !in MapOf(v.carried) && !v.mode.Rollback? ==> e.policy.freshDraftTests && !e.catalogue.archived[m])
  {
    VerdictExactly(e, v, keys);
    assert ModuleError(e, v, m).None?;
    if IsDefective(e, v, m) { assert DefectiveTarget(e, v, MapOf(v.modules)[m]); }
  }

  /******* The loop *******/

  /** The keys of a map in ascending order. */
  function SortedKeys(keys: set<Uuid>): (r: seq<Uuid>)
    ensures forall m :: m in r <==> m in keys
    ensures Distinct(r) && Sorted(r)
    decreases |keys|
  {
    if keys == {} then []
    else
      var least := Least(keys);
      [least] + SortedKeys(keys - {least})
  }

  predicate IsLeast(m: Uuid, keys: set<Uuid>) {
    m in keys && forall k :: k in keys ==> m <= k
  }

  function Least(keys: set<Uuid>): (m: Uuid)
    requires keys != {}
    ensures IsLeast(m, keys)
  {
    LeastExists(keys);
    var m :| IsLeast(m, keys);
    m
  }

  lemma {:induction false} LeastExists(keys: set<Uuid>)
    requires keys != {}
    ensures exists m :: IsLeast(m, keys)
    decreases |keys|
  {
    var x :| x in keys;
    if keys == {x} {
      assert IsLeast(x, keys);
    } else {
      var rest := keys - {x};
      assert keys == rest + {x};
      LeastExists(rest);
      var m :| IsLeast(m, rest);
      assert IsLeast(if x < m then x else m, keys);
    }
  }

  lemma WalkTurn(e: Evidence, v: Admission, keys: seq<Uuid>, i: nat, confirmed: set<Uuid>)
    requires Targets(v, keys) && i < |keys|
    ensures Targets(v, keys[i..]) && Targets(v, keys[i + 1..])
    ensures var turn := Turn(e, v, keys[i], confirmed);
            Walk(e, v, keys[i..], confirmed) == if turn.Err? then turn else Walk(e, v, keys[i + 1..], turn.value)
  {
    assert keys[i..][0] == keys[i] && keys[i..][1..] == keys[i + 1..];
  }

  method CheckLifecycle(e: Evidence, v: Admission) returns (failed: Option<Error>)
    ensures AllKeys(v, SortedKeys(MapOf(v.modules).Keys))
    ensures failed == Verdict(e, v, SortedKeys(MapOf(v.modules).Keys))
  {
    var modules := MapOf(v.modules);
    var keys := SortedKeys(modules.Keys);
    var confirmed := set x | x in ListOf(v.confirmed);
    ghost var whole := Walk(e, v, keys, confirmed);
    assert keys[0..] == keys;
    for i := 0 to |keys|
      invariant Targets(v, keys[i..]) && whole == Walk(e, v, keys[i..], confirmed)
    {
      WalkTurn(e, v, keys, i, confirmed);
      var turn := Turn(e, v, keys[i], confirmed);
      if turn.Err? { return Some(turn.error); }
      confirmed := turn.value;
    }
    return if confirmed != {} then Some(BadRequest) else None;
  }
}
