/**
 The admission tables as their transactions change them, statement by statement, each
 proved to do exactly its step of DeploymentAdmission.
 */
module AdmissionStore {
  import opened Base
  import opened AdmissionRequests
  import opened AdmissionDecision
  import opened DeploymentAdmission
  import E = EnvironmentDeletion

  lemma OneActivePin(s: State, e: Uuid, m: Uuid, p: Uuid)
    requires PinsInv(s.pins) && ActivePin(s, p, e, m)
    ensures m in ActivePins(s, e) && ActivePins(s, e)[m] == s.pins[p].version
  {
    forall q | ActivePin(s, q, e, m) ensures q == p {
      assert q != p ==> !Rivals(s.pins[q], s.pins[p]);
    }
  }

  /** The map holds the active Pins of the Environment among those visited. */
  ghost predicate Collected(s: State, e: Uuid, visited: set<Uuid>, active: map<Uuid, Uuid>) {
    && (forall m :: m in active ==> m in ActivePins(s, e) && active[m] == ActivePins(s, e)[m])
    && (forall p :: p in visited && p in s.pins && ActivePin(s, p, e, s.pins[p].module_) ==> s.pins[p].module_ in active)
  }

  lemma CollectOne(s: State, e: Uuid, visited: set<Uuid>, p: Uuid, active: map<Uuid, Uuid>)
    requires PinsInv(s.pins) && p in s.pins
    requires !ActivePin(s, p, e, s.pins[p].module_) ==> Collected(s, e, visited, active)
    requires ActivePin(s, p, e, s.pins[p].module_) ==>
               exists before: map<Uuid, Uuid> :: Collected(s, e, visited, before) && active == before[s.pins[p].module_ := s.pins[p].version]
    ensures Collected(s, e, visited + {p}, active)
  {
    if ActivePin(s, p, e, s.pins[p].module_) { OneActivePin(s, e, s.pins[p].module_, p); }
  }

  lemma CollectedAll(s: State, e: Uuid, active: map<Uuid, Uuid>)
    requires Collected(s, e, s.pins.Keys, active)
    ensures active == ActivePins(s, e)
  {
    forall m | m in ActivePins(s, e) ensures m in active {
      var p :| p in s.pins && ActivePin(s, p, e, s.pins[p].module_) && s.pins[p].module_ == m;
      assert p in s.pins.Keys;
    }
  }

  class Tables {
    var envs: E.Table
    var catalogue: Catalogue
    var guards: map<Uuid, Guard>
    var epochs: map<Uuid, nat>
    var pins: map<Uuid, Pin>
    var dispatches: map<Uuid, Dispatch>

    constructor ()
      ensures Contents() == EMPTY && Inv(Contents())
    {
      envs, catalogue := E.EMPTY, Catalogue(map[], map[], map[]);
      guards, epochs, pins, dispatches := map[], map[], map[], map[];
      new;
      EmptyInv();
    }

    function Contents(): State
      reads this
    {
      State(envs, catalogue, guards, epochs, pins, dispatches)
    }

    /** The first Pin of the Environment that the resolved Modules do not preserve stops the scan. */
    method CheckPins(v: Admission) returns (preserved: bool)
      ensures preserved == PinsPreserved(Contents(), v)
    {
      var rest := pins.Keys;
      while rest != {}
        invariant rest <= pins.Keys
        invariant forall p :: p in pins && p !in rest && pins[p].environment == v.environment ==> Preserves(v, pins[p])
        decreases |rest|
      {
        var p :| p in rest;
        rest := rest - {p};
        var pin := pins[p];
        if pin.environment != v.environment || !Protected(pin.status) { continue; }
        if v.mode.Destroy? && pin.status.Active? { continue; }
        if v.mode.Destroy? || Lookup(MapOf(v.modules), pin.module_) != pin.version { return false; }
      }
      return true;
    }

    method CollectActivePins(e: Uuid) returns (active: map<Uuid, Uuid>)
      requires PinsInv(pins)
      ensures active == ActivePins(Contents(), e)
    {
      active := map[];
      var rest := pins.Keys;
      ghost var s := Contents();
      while rest != {}
        invariant rest <= pins.Keys && Collected(s, e, pins.Keys - rest, active)
        decreases |rest|
      {
        var p :| p in rest;
        assert pins.Keys - (rest - {p}) == pins.Keys - rest + {p};
        rest := rest - {p};
        if pins[p].environment == e && pins[p].status.Active? {
          active := active[pins[p].module_ := pins[p].version];
        }
        CollectOne(s, e, pins.Keys - rest - {p}, p, active);
      }
      assert pins.Keys - rest == pins.Keys;
      CollectedAll(s, e, active);
    }

    method AdvanceEpoch(e: Uuid) returns (epoch: nat)
      modifies this`epochs
      ensures epoch == Epoch(old(Contents()), e) + 1 && epochs == old(epochs)[e := epoch]
    {
      epoch := 1;
      if e in epochs { epoch := epochs[e] + 1; }
      epochs := epochs[e := epoch];
    }

    /** Everything that is read and decided about a canonical request. */
    method Decide(v: Admission, policy: Policy) returns (failed: Option<Error>)
      requires PinsInv(pins)
      ensures failed == AuthorizeError(Contents(), v, policy)
    {
      var valid := Validate(v);
      if !valid { return Some(BadRequest); }
      if v.id in guards {
        if Canonical(guards[v.id].intent) != v || guards[v.id].outcome.Some? { return Some(Conflict); }
      } else if !Barrier(Contents(), v.environment) {
        return Some(Busy);
      }
      if v.environment !in envs.rows { return Some(NotFound); }
      if !InScope(envs.rows[v.environment], v) { return Some(Conflict); }
      var preserved := CheckPins(v);
      if !preserved { return Some(PinProtection); }
      var active := CollectActivePins(v.environment);
      failed := CheckLifecycle(Evidence(catalogue, active, Executed(Contents(), v.environment), policy), v);
    }

    /** The epoch and the guard that carries it are written together. */
    method AddGuard(v: Admission, outcome: Option<Outcome>) returns (epoch: nat)
      modifies this`epochs, this`guards
      ensures Contents() == InsertGuard(old(Contents()), v, outcome) && epoch == Epoch(old(Contents()), v.environment) + 1
    {
      epoch := AdvanceEpoch(v.environment);
      guards := guards[v.id := Guard(v, epoch, outcome)];
    }

    /** The update of the outcome, which an equal outcome leaves as it is. */
    method FinishGuard(id: Uuid, outcome: Outcome)
      requires id in guards && guards[id].outcome in {None, Some(outcome)}
      modifies this`guards
      ensures Contents() == SetOutcome(old(Contents()), id, outcome)
    {
      var g := guards[id];
      if g.outcome.None? {
        guards := guards[id := g.(outcome := Some(outcome))];
      } else {
        assert guards[id := g.(outcome := Some(outcome))] == guards;
      }
    }

    /** The receipt of a decided request, with a new guard unless it is a replay. */
    method Conclude(v: Admission, failed: Option<Error>) returns (r: Result<Receipt, Error>)
      modifies this`epochs, this`guards
      ensures r == if failed.Some? then Err(failed.value) else Ok(AuthorizeReceipt(old(Contents()), v))
      ensures Contents() == if failed.None? && v.id !in old(guards) then InsertGuard(old(Contents()), v, None) else old(Contents())
    {
      if failed.Some? { return Err(failed.value); }
      if v.id in guards { return Ok(ReceiptOf(v, guards[v.id].epoch, None)); }
      var epoch := AddGuard(v, None);
      return Ok(ReceiptOf(v, epoch, None));
    }

    method AuthorizeAdmission(value: Admission, policy: Policy) returns (r: Result<Receipt, Error>)
      requires PinsInv(pins)
      modifies this`epochs, this`guards
      ensures r == AuthorizeResult(old(Contents()), value, policy)
      ensures Contents() == Authorize(old(Contents()), value, policy)
    {
      var v := Canonical(value);
      var failed := Decide(v, policy);
      r := Conclude(v, failed);
    }

    method SettleAdmission(id: Uuid, project: Uuid, e: Uuid, digest: string, outcome: Outcome) returns (r: Result<Receipt, Error>)
      modifies this`guards
      ensures r == SettleResult(old(Contents()), id, project, e, digest, outcome)
      ensures Contents() == Settle(old(Contents()), id, project, e, digest, outcome)
    {
      if id !in guards { return Err(NotFound); }
      var g := guards[id];
      if g.intent.environment != e || g.intent.project != project || g.intent.digest != digest
         || (g.outcome.Some? && g.outcome.value != outcome) { return Err(Conflict); }
      FinishGuard(id, outcome);
      return Ok(ReceiptOf(g.intent, g.epoch, Some(outcome)));
    }

    method SealAdmission(value: Admission) returns (r: Result<Receipt, Error>)
      modifies this`epochs, this`guards
      ensures r == SealResult(old(Contents()), value)
      ensures Contents() == Seal(old(Contents()), value)
    {
      var v := Canonical(value);
      var valid := Validate(v);
      if !valid { return Err(BadRequest); }
      if v.id !in guards {
        var epoch := AddGuard(v, Some(Absent));
        return Ok(ReceiptOf(v, epoch, Some(Absent)));
      }
      var sealable := Canonical(guards[v.id].intent) == v && (guards[v.id].outcome.None? || guards[v.id].outcome.value == Absent);
      if !sealable { return Err(Conflict); }
      r := Ok(ReceiptOf(v, guards[v.id].epoch, Some(Absent)));
      FinishGuard(v.id, Absent);
    }

    /** The handler checks the epoch it read before gathering its evidence, then the Pin is inserted. */
    method CreatePin(p: Uuid, e: Uuid, m: Uuid, version: Uuid, epoch: int, defectiveAllowed: bool) returns (failed: Option<Error>)
      requires Inv(Contents())
      modifies this
      ensures failed == CreatePinError(old(Contents()), p, e, m, version, epoch, defectiveAllowed)
      ensures Contents() == Do(old(Contents()), CreatingPin(p, e, m, version, epoch, defectiveAllowed)) && Inv(Contents())
    {
      PinKeeps(Contents(), CreatingPin(p, e, m, version, epoch, defectiveAllowed));
      failed := EpochError(Contents(), e, epoch);
      if failed.Some? { return; }
      if version == NIL || version !in catalogue.versions || catalogue.versions[version].module_ != m { return Some(NotFound); }
      if catalogue.versions[version].lifecycle.Defective? && !defectiveAllowed { return Some(BadRequest); }
      var taken := IsTaken(e, m);
      if taken || p in pins { return Some(Conflict); }
      pins := pins[p := Pin(e, m, version, Active, 1, None, None)];
      return None;
    }

    method IsTaken(e: Uuid, m: Uuid) returns (taken: bool)
      ensures taken == Taken(Contents(), e, m)
    {
      if p :| p in pins && pins[p].environment == e && Protected(pins[p].status) && pins[p].module_ == m {
        assert ProtectedPin(Contents(), p, e);
        return true;
      }
      return false;
    }

    /** Why a transition is refused, in the order of the checks. */
    method RefuseMove(p: Uuid, expected: int, to: PinStatus, operation: Option<Uuid>, target: Option<Uuid>, evidence: Option<int>) returns (failed: Option<Error>)
      ensures failed == TransitionError(Contents(), p, expected, to, operation, target, evidence)
    {
      if p !in pins { return Some(NotFound); }
      var pin := pins[p];
      if evidence.Some? {
        failed := EpochError(Contents(), pin.environment, evidence.value);
        if failed.Some? { return; }
      }
      if to.Active? && pin.status.Overridden? && !Barrier(Contents(), pin.environment) { return Some(Busy); }
      if pin.revision != expected { return Some(Conflict); }
      if pin.status.OverridePending? && to.Removed? { return Some(Conflict); }
      if !ValidTransition(pin.status, to) { return Some(BadRequest); }
      if pin.status == to { return None; }
      if to.OverridePending? && (operation.None? || target.None?) { return Some(BadRequest); }
      if (pin.status.OverridePending? || pin.status.Overridden?) && operation.Some? && pin.operation != operation { return Some(Conflict); }
      var taken := IsTaken(pin.environment, pin.module_);
      if Protected(to) && !Protected(pin.status) && taken { return Some(Failed); }
      return None;
    }

    /** Begin, reconcile and restore of an override, and removal, are calls of this one transition. */
    method MovePin(p: Uuid, expected: int, to: PinStatus, operation: Option<Uuid>, target: Option<Uuid>, evidence: Option<int>) returns (failed: Option<Error>)
      requires Inv(Contents())
      modifies this
      ensures failed == TransitionError(old(Contents()), p, expected, to, operation, target, evidence)
      ensures Contents() == Do(old(Contents()), MovingPin(p, expected, to, operation, target, evidence)) && Inv(Contents())
    {
      PinKeeps(Contents(), MovingPin(p, expected, to, operation, target, evidence));
      failed := RefuseMove(p, expected, to, operation, target, evidence);
      if failed.None? && pins[p].status != to {
        pins := pins[p := Moved(pins[p], to, operation, target)];
      }
    }
  }
}
