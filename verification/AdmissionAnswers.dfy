/**
 What each admission, Pin and dispatch step requires and writes, said of the stored rows
 and the request alone, and what must have happened before a destroy.
 */
module AdmissionAnswers {
  import opened Base
  import opened AdmissionRequests
  import opened AdmissionDecision
  import opened DeploymentAdmission
  import opened AdmissionRuns
  import E = EnvironmentDeletion

  /******* Requests and Modules *******/

  /** A valid request, claim by claim. */
  lemma ValidExactly(v: Admission)
    requires v.modules.Some?
    ensures Valid(v) <==>
            && v.formatted && v.id != 0 && v.project != 0 && v.environment != 0 && v.actor != 0
            && |v.modules.value| <= 1000 && (v.carried.Some? ==> |v.carried.value| <= 1000) && (v.drafts.Some? ==> |v.drafts.value| <= 1000)
            && (forall m :: m in v.modules.value ==> m != 0 && v.modules.value[m] != 0)
            && (v.carried.Some? ==> forall m :: m in v.carried.value ==> m in v.modules.value && v.carried.value[m] == v.modules.value[m])
            && (v.drafts.Some? ==> forall m :: m in v.drafts.value ==> m in v.modules.value && v.drafts.value[m] == v.modules.value[m])
            && (v.confirmed.Some? ==>
                  && |v.confirmed.value| <= 1000 && (forall i :: 0 <= i < |v.confirmed.value| ==> v.confirmed.value[i] != 0)
                  && (forall i, j :: 0 <= i < j < |v.confirmed.value| ==> v.confirmed.value[i] != v.confirmed.value[j]))
            && (v.mode == Destroy ==> v.modules.value == map[] && (v.carried.Some? ==> v.carried.value == map[]) && (v.confirmed.Some? ==> v.confirmed.value == []))
  {
    var s := ListOf(v.confirmed);
    assert (forall x :: x in s ==> x != NIL) <==> (forall i :: 0 <= i < |s| ==> s[i] != 0) by {
      if forall x :: x in s ==> x != NIL { forall i | 0 <= i < |s| ensures s[i] != 0 { assert s[i] in s; } }
    }
    assert SubMap(MapOf(v.carried), MapOf(v.modules)) <==>
           (v.carried.Some? ==> forall m :: m in v.carried.value ==> m in v.modules.value && v.carried.value[m] == v.modules.value[m]);
  }

  /** A draft test is permitted exactly so. */
  predicate DraftPermitted(e: Evidence, v: Admission, m: Uuid, x: Uuid, kept: bool) {
    && x in e.catalogue.snapshots && e.catalogue.snapshots[x] == Snapshot(m, v.environment, v.project)
    && (kept || v.mode == Rollback ==> (m, x) in e.executed)
    && (!kept && v.mode != Rollback ==> m in e.catalogue.archived && !e.catalogue.archived[m] && e.policy.freshDraftTests)
  }

  /** A published Version is permitted exactly so, apart from its confirmation. */
  predicate VersionPermitted(e: Evidence, v: Admission, m: Uuid, x: Uuid, kept: bool) {
    && x in e.catalogue.versions && e.catalogue.versions[x].module_ == m
    && var pinned := m in e.active && e.active[m] == x;
       && (m in e.catalogue.archived && e.catalogue.archived[m] ==> v.mode == Rollback || kept)
       && (match e.catalogue.versions[x].lifecycle
           case Proposed => pinned || v.mode == Rollback || kept || e.policy.freshProposed
           case Default => true
           case Deprecated => pinned || v.mode == Rollback
           case Defective => pinned || v.mode == Rollback)
  }

  lemma ModulePermittedExactly(e: Evidence, v: Admission, m: Uuid)
    requires Valid(v) && m in MapOf(v.modules)
    ensures ModuleError(e, v, m).None? <==>
            && m in e.catalogue.archived
            && if m in MapOf(v.drafts) then DraftPermitted(e, v, m, MapOf(v.modules)[m], m in MapOf(v.carried))
               else VersionPermitted(e, v, m, MapOf(v.modules)[m], m in MapOf(v.carried))
    ensures ModuleError(e, v, m) == Some(NotFound) <==>
            || m !in e.catalogue.archived
            || (var x := MapOf(v.modules)[m];
                if m in MapOf(v.drafts)
                then x !in e.catalogue.snapshots || e.catalogue.snapshots[x].module_ != m || e.catalogue.snapshots[x].environment != v.environment
                else x !in e.catalogue.versions || e.catalogue.versions[x].module_ != m)
  {
  }

  /** The draft tests that count as executed are exactly those of succeeded admissions of this Environment. */
  lemma ExecutedExactly(s: State, e: Uuid, m: Uuid, x: Uuid)
    ensures (m, x) in Executed(s, e) <==> exists id :: SucceededWith(s, id, e, m, x)
  {
    if (m, x) in Executed(s, e) { ExecutedBy(s, e, m, x); }
    if id :| SucceededWith(s, id, e, m, x) {
      assert (m, MapOf(s.guards[id].intent.modules)[m]) in Executed(s, e);
    }
  }

  /** A Module counts as pinned to a Version exactly if an active Pin of this Environment says so. */
  lemma ActivePinsExactly(s: State, e: Uuid, m: Uuid, x: Uuid)
    requires PinsInv(s.pins)
    ensures m in ActivePins(s, e) && ActivePins(s, e)[m] == x <==>
            exists p :: p in s.pins && s.pins[p].environment == e && s.pins[p].module_ == m && s.pins[p].status == PinStatus.Active && s.pins[p].version == x
  {
    ActivePinsMean(s, e, m);
    if p :| p in s.pins && s.pins[p].environment == e && s.pins[p].module_ == m && s.pins[p].status == PinStatus.Active && s.pins[p].version == x {
      assert ActivePin(s, p, e, m);
      forall q | ActivePin(s, q, e, m) ensures q == p { assert q != p ==> !Rivals(s.pins[q], s.pins[p]); }
    }
  }

  /******* Settling and sealing *******/

  /**
   A settlement is accepted exactly for the stored project, Environment and digest and, on a settled guard, its own outcome; it stores
   the outcome it was given on that guard and changes nothing else.
   */
  lemma SettledExactly(s: State, id: Uuid, project: Uuid, e: Uuid, digest: string, outcome: Outcome)
    ensures var r := SettleResult(s, id, project, e, digest, outcome);
            && (r == Err(NotFound) <==> id !in s.guards)
            && (r.Ok? <==> && id in s.guards && s.guards[id].intent.project == project && s.guards[id].intent.environment == e
                           && s.guards[id].intent.digest == digest && (s.guards[id].outcome == None || s.guards[id].outcome == Some(outcome)))
            && (r.Err? ==> Settle(s, id, project, e, digest, outcome) == s)
            && (r.Ok? ==> Settle(s, id, project, e, digest, outcome) ==
                          s.(guards := s.guards[id := Guard(s.guards[id].intent, s.guards[id].epoch, Some(outcome))]))
  {
  }

  /** Sealing is accepted exactly for a new id or the same intent without another outcome, and records absence. */
  lemma SealedExactly(s: State, value: Admission)
    requires Inv(s)
    ensures var r, t := SealResult(s, value), Seal(s, value);
            && (r.Ok? <==> Valid(Canonical(value)) &&
                           (value.id in s.guards ==> SameIntent(s.guards[value.id].intent, value) && s.guards[value.id].outcome in {None, Some(Absent)}))
            && (r.Err? ==> t == s)
            && (r.Ok? ==> value.id in t.guards && t.guards[value.id].outcome == Some(Absent) && SameIntent(t.guards[value.id].intent, value)
                          && (forall id :: id != value.id ==> (id in t.guards <==> id in s.guards) && (id in s.guards ==> t.guards[id] == s.guards[id]))
                          && t.pins == s.pins && t.dispatches == s.dispatches && t.envs == s.envs)
            && (r.Ok? && value.id !in s.guards ==> t.guards[value.id].epoch == Epoch(s, value.environment) + 1)
  {
    CanonicalIdempotent(value);
    CanonicalExactly(Canonical(value), value);
    if value.id in s.guards {
      CanonicalExactly(s.guards[value.id].intent, value);
    } else {
      Inserted(s, Canonical(value), Some(Absent));
    }
  }

  /** The errors of an epoch check, by their conditions. */
  lemma EpochErrors(s: State, e: Uuid, expected: int)
    ensures EpochError(s, e, expected) ==
            if expected < 0 then Some(BadRequest)
            else if expected != (if e in s.epochs then s.epochs[e] else 0) then Some(Conflict)
            else if (exists id :: UnresolvedIn(s, id, e)) || (exists d :: PendingIn(s, d, e)) then Some(Busy)
            else None
  {
    if Barrier(s, e) { BarrierClears(s, e); }
  }

  /******* Pins and dispatches *******/

  /**
   A Pin is created exactly if the epoch is the one read before, nothing is unresolved, the Version exists for the Module and is not
   Defective without its confirmation, and no active or override-pending Pin of the Module exists; then it is active and says what was asked.
   */
  lemma PinCreatedExactly(s: State, p: Uuid, e: Uuid, m: Uuid, version: Uuid, epoch: int, allowed: bool)
    ensures var t := Do(s, CreatingPin(p, e, m, version, epoch, allowed));
            var created :=
              && 0 <= epoch == (if e in s.epochs then s.epochs[e] else 0) && Barrier(s, e)
              && version != 0 && version in s.catalogue.versions && s.catalogue.versions[version].module_ == m
              && (s.catalogue.versions[version].lifecycle == Defective ==> allowed)
              && p !in s.pins
              && (forall q :: q in s.pins && s.pins[q].environment == e && s.pins[q].module_ == m ==> s.pins[q].status in {PinStatus.Overridden, Removed});
            t == if created then s.(pins := s.pins[p := Pin(e, m, version, PinStatus.Active, 1, None, None)]) else s
  {
    if q :| q in s.pins && s.pins[q].environment == e && s.pins[q].module_ == m && !(s.pins[q].status in {PinStatus.Overridden, Removed}) {
      assert ProtectedPin(s, q, e);
      assert Taken(s, e, m);
    }
  }

  /** The moves of a Pin between statuses. */
  predicate Legal(before: PinStatus, after: PinStatus) {
    (before, after) in {
      (PinStatus.Active, OverridePending), (PinStatus.Active, Removed),
      (OverridePending, PinStatus.Active), (OverridePending, PinStatus.Overridden),
      (PinStatus.Overridden, PinStatus.Active), (PinStatus.Overridden, Removed)}
  }

  /**
   What an accepted move of a Pin implies: the expected version, a legal move, the owning operation, for an override its operation and target, and for
   a restore the barrier; and what it writes.
   */
  lemma PinMovedMeans(s: State, step: Step)
    requires Inv(s) && step.MovingPin? && Do(s, step) != s
    ensures step.p in s.pins
    ensures var pin, after := s.pins[step.p], Do(s, step).pins[step.p];
            && pin.revision == step.expected && Legal(pin.status, step.to)
            && (step.to == OverridePending ==> step.operation.Some? && step.target.Some?)
            && (pin.operation.Some? && step.operation.Some? ==> pin.operation == step.operation)
            && (pin.status == PinStatus.Overridden && step.to == PinStatus.Active ==> Barrier(s, pin.environment))
            && (step.evidence.Some? ==> step.evidence.value == Epoch(s, pin.environment) && Barrier(s, pin.environment))
            && after.status == step.to && after.revision == pin.revision + 1
            && after.environment == pin.environment && after.module_ == pin.module_ && after.version == pin.version
            && (step.to in {PinStatus.Active, Removed} ==> after.operation == None && after.target == None)
            && (step.to == OverridePending ==> after.operation == step.operation && after.target == step.target)
            && (step.to == PinStatus.Overridden ==> after.operation == pin.operation && after.target == (if step.target.Some? then step.target else pin.target))
            && Do(s, step) == s.(pins := s.pins[step.p := after])
  {
  }

  /** No Pin of the Module is protected in the Environment. */
  ghost predicate Unprotected(s: State, e: Uuid, m: Uuid) {
    forall q :: q in s.pins && s.pins[q].environment == e && s.pins[q].module_ == m ==> s.pins[q].status in {PinStatus.Overridden, Removed}
  }

  ghost predicate MoveDue(s: State, step: Step) {
    && step.MovingPin? && step.p in s.pins
    && var pin := s.pins[step.p];
       && pin.revision == step.expected && Legal(pin.status, step.to)
       && (step.to == OverridePending ==> step.operation.Some? && step.target.Some?)
       && (pin.operation.Some? && step.operation.Some? ==> pin.operation == step.operation)
       && (pin.status == PinStatus.Overridden && step.to == PinStatus.Active ==>
             Barrier(s, pin.environment) && Unprotected(s, pin.environment, pin.module_))
       && (step.evidence.Some? ==> 0 <= step.evidence.value == Epoch(s, pin.environment) && Barrier(s, pin.environment))
  }

  /** And such a move is accepted, unless another Pin of the Module took the protection meanwhile. */
  lemma PinMoves(s: State, step: Step)
    requires Inv(s) && MoveDue(s, step)
    ensures TransitionError(s, step.p, step.expected, step.to, step.operation, step.target, step.evidence).None? && Do(s, step) != s
  {
    var pin := s.pins[step.p];
    assert Owned(pin);
    MoveAllowed(s, step);
    MoveWrites(s, step);
  }

  lemma MoveAllowed(s: State, step: Step)
    requires MoveDue(s, step) && Owned(s.pins[step.p])
    ensures TransitionError(s, step.p, step.expected, step.to, step.operation, step.target, step.evidence).None?
  {
    var pin := s.pins[step.p];
    assert Unprotected(s, pin.environment, pin.module_) ==> !Taken(s, pin.environment, pin.module_);
  }

  lemma MoveWrites(s: State, step: Step)
    requires MoveDue(s, step) && TransitionError(s, step.p, step.expected, step.to, step.operation, step.target, step.evidence).None?
    ensures Do(s, step) != s
  {
    var pin := s.pins[step.p];
    assert Moved(pin, step.to, step.operation, step.target).revision == pin.revision + 1;
    assert Do(s, step).pins[step.p] == Moved(pin, step.to, step.operation, step.target);
  }

  /** The four steps on dispatches, by what they leave behind. */
  lemma DispatchesExactly(s: State, d: Uuid, e: Uuid, noEffect: bool)
    ensures Do(s, Recording(d, e)).dispatches == if d !in s.dispatches && Barrier(s, e) then s.dispatches[d := Dispatch(e, Open)] else s.dispatches
    ensures Do(s, Recovering(d, e)).dispatches ==
            if d !in s.dispatches || s.dispatches[d] == Dispatch(e, Open) then s.dispatches[d := Dispatch(e, Withdrawn)] else s.dispatches
    ensures Do(s, Withdrawing(d)).dispatches ==
            if d in s.dispatches && s.dispatches[d].phase == Open then s.dispatches[d := Dispatch(s.dispatches[d].environment, Withdrawn)] else s.dispatches
    ensures Do(s, Completing(d, noEffect)).dispatches ==
            if d in s.dispatches && (!noEffect || s.dispatches[d].phase == Withdrawn)
            then s.dispatches[d := Dispatch(s.dispatches[d].environment, Settled)] else s.dispatches
  {
  }

  /**
   Removing an Environment ends every Pin of it and no other; any other change of an Environment leaves Pins, guards, epochs and
   dispatches alone. A delete or a removal that misreports a pending override does nothing.
   */
  lemma EnvironmentChanges(s: State, change: E.Step, p: Uuid)
    requires p in s.pins
    ensures var t := Do(s, ChangingEnvironment(change));
            var misread := (change.Delete? || change.Remove?) &&
                           change.blocked != (exists q :: q in s.pins && s.pins[q].environment == change.e && s.pins[q].status == OverridePending);
            var removed := change.Remove? && !misread && E.Outcome(s.envs, change).Ok?;
            && t.guards == s.guards && t.epochs == s.epochs && t.dispatches == s.dispatches && t.catalogue == s.catalogue
            && t.envs == (if misread then s.envs else E.Do(s.envs, change)) && t.pins.Keys == s.pins.Keys
            && t.pins[p] == if removed && s.pins[p].environment == change.e && s.pins[p].status != Removed
                            then s.pins[p].(status := Removed, revision := s.pins[p].revision + 1, operation := None, target := None)
                            else s.pins[p]
  {
    if change.Delete? || change.Remove? { PendingExactly(s, change.e); }
  }

  lemma PendingExactly(s: State, e: Uuid)
    ensures HasPending(s, e) <==> exists q :: q in s.pins && s.pins[q].environment == e && s.pins[q].status == OverridePending
  {
    if q :| q in s.pins && s.pins[q].environment == e && s.pins[q].status == OverridePending { assert ProtectedPin(s, q, e); }
  }

  /** What each refusal before the lifecycle decision says about the state. */
  lemma RefusalsMean(s: State, v: Admission)
    requires ScopeError(s, v).Some?
    ensures match ScopeError(s, v).value
            case BadRequest => !Valid(v)
            case Busy => v.id !in s.guards && ((exists id :: UnresolvedIn(s, id, v.environment)) || (exists d :: PendingIn(s, d, v.environment)))
            case NotFound => v.environment !in s.envs.rows
            case PinProtection => exists p :: BreaksPin(s, v, p)
            case Conflict =>
              || (v.id in s.guards && (s.guards[v.id].outcome.Some? || Canonical(s.guards[v.id].intent) != v))
              || s.envs.rows[v.environment].project != v.project
              || (v.mode == Destroy && !(s.envs.rows[v.environment].status == E.Deleting && s.envs.rows[v.environment].force == Some(false)
                                         && s.envs.rows[v.environment].rules.Some?))
            case _ => false
  {
    if !PinsPreserved(s, v) {
      var p :| p in s.pins && s.pins[p].environment == v.environment && !Preserves(v, s.pins[p]);
      assert BreaksPin(s, v, p);
    }
  }

  /** An override-pending Pin of the Environment on a destroy, or an active or pending one whose Version the request does not map. */
  predicate BreaksPin(s: State, v: Admission, p: Uuid) {
    && p in s.pins && s.pins[p].environment == v.environment
    && if v.mode == Destroy then s.pins[p].status == OverridePending
       else s.pins[p].status in {PinStatus.Active, OverridePending} && Lookup(MapOf(v.modules), s.pins[p].module_) != s.pins[p].version
  }

  /******* A destroy follows an accepted deletion *******/

  /** The k-th step is an accepted request to delete the Environment, with or without force. */
  ghost predicate AcceptedDeletion(steps: seq<Step>, k: nat, e: Uuid, force: bool) {
    && k < |steps| && steps[k].ChangingEnvironment? && steps[k].step.Delete? && steps[k].step.e == e && steps[k].step.force == force
    && var s := Run(EMPTY, steps[..k]);
       steps[k].step.blocked == HasPending(s, e) && E.Outcome(s.envs, steps[k].step).Ok?
  }

  ghost predicate DeletionBefore(steps: seq<Step>, n: nat, e: Uuid) {
    exists k :: 0 <= k < n && AcceptedDeletion(steps, k, e, false)
  }

  /** After n steps, a recorded policy without force has an accepted deletion behind it. */
  ghost predicate PolicyExplained(steps: seq<Step>, n: nat, e: Uuid)
    requires n <= |steps|
  {
    var s := Run(EMPTY, steps[..n]);
    e in s.envs.rows && s.envs.rows[e].force == Some(false) ==> DeletionBefore(steps, n, e)
  }

  lemma PolicyStep(steps: seq<Step>, n: nat, e: Uuid)
    requires n < |steps| && Inv(Run(EMPTY, steps[..n])) && PolicyExplained(steps, n, e)
    ensures PolicyExplained(steps, n + 1, e)
  {
    var s, step := Run(EMPTY, steps[..n]), steps[n];
    RunSnoc(EMPTY, steps, n);
    var t := Do(s, step);
    if e in t.envs.rows && t.envs.rows[e].force == Some(false) && !(e in s.envs.rows && s.envs.rows[e].force == Some(false)) {
      PolicyNeedsDelete(s, step, e);
      assert AcceptedDeletion(steps, n, e, false);
    }
  }

  lemma PolicyNeedsDelete(s: State, step: Step, e: Uuid)
    requires Inv(s) && e in Do(s, step).envs.rows && Do(s, step).envs.rows[e].force == Some(false)
    requires !(e in s.envs.rows && s.envs.rows[e].force == Some(false))
    ensures step.ChangingEnvironment? && step.step.Delete? && step.step.e == e && !step.step.force
    ensures step.step.blocked == HasPending(s, e) && E.Outcome(s.envs, step.step).Ok?
  {
    EnvsOfStep(s, step);
    var change := step.step;
    if change.Delete? && change.e == e && E.Outcome(s.envs, change).Ok? {
      E.DeleteRecords(s.envs, e, change.force, change.rules, change.blocked);
    } else {
      E.FlagsOfStep(s.envs, change, e);
    }
  }

  lemma EnvsOfStep(s: State, step: Step)
    requires Do(s, step).envs != s.envs
    ensures step.ChangingEnvironment? && Do(s, step).envs == E.Do(s.envs, step.step)
    ensures step.step.Delete? ==> step.step.blocked == HasPending(s, step.step.e)
  {
  }

  lemma {:induction false} PolicyRun(steps: seq<Step>, n: nat, e: Uuid)
    requires n <= |steps|
    ensures PolicyExplained(steps, n, e)
    decreases n
  {
    if n == 0 {
      assert steps[..0] == [];
    } else {
      PolicyRun(steps, n - 1, e);
      Reachable(steps[..n - 1]);
      PolicyStep(steps, n - 1, e);
    }
  }

  /** The k-th step authorized this guard as a new one. */
  ghost predicate AuthorizedAt(steps: seq<Step>, k: nat, g: Admission) {
    && k < |steps| && steps[k].Authorizing? && Canonical(steps[k].value) == g
    && AuthorizeResult(Run(EMPTY, steps[..k]), steps[k].value, steps[k].policy).Ok?
  }

  ghost predicate AuthorizedBefore(steps: seq<Step>, n: nat, g: Admission) {
    exists k :: 0 <= k < n && AuthorizedAt(steps, k, g)
  }

  lemma IntentStays(s: State, step: Step, id: Uuid)
    requires Inv(s) && id in s.guards
    ensures id in Do(s, step).guards && Do(s, step).guards[id].intent == s.guards[id].intent
  {
    DoLater(s, step);
  }

  /** An unresolved guard after n steps was authorized by one of them. */
  ghost predicate GuardExplained(steps: seq<Step>, n: nat, id: Uuid)
    requires n <= |steps|
  {
    var s := Run(EMPTY, steps[..n]);
    Unresolved(s, id) ==> AuthorizedBefore(steps, n, s.guards[id].intent)
  }

  lemma AuthorizedStep(steps: seq<Step>, n: nat, id: Uuid)
    requires n < |steps| && GuardExplained(steps, n, id) && Inv(Run(EMPTY, steps[..n]))
    ensures GuardExplained(steps, n + 1, id)
  {
    var s := Run(EMPTY, steps[..n]);
    RunSnoc(EMPTY, steps, n);
    var t := Do(s, steps[n]);
    if Unresolved(t, id) {
      if Unresolved(s, id) {
        IntentStays(s, steps[n], id);
      } else {
        NewUnresolved(s, steps[n], id);
        assert AuthorizedAt(steps, n, t.guards[id].intent);
      }
    }
  }

  lemma {:induction false} UnresolvedWasAuthorized(steps: seq<Step>, n: nat, id: Uuid)
    requires n <= |steps|
    ensures GuardExplained(steps, n, id)
    decreases n
  {
    if n == 0 {
      assert steps[..0] == [];
    } else {
      UnresolvedWasAuthorized(steps, n - 1, id);
      Reachable(steps[..n - 1]);
      AuthorizedStep(steps, n - 1, id);
    }
  }

  lemma NewUnresolved(s: State, step: Step, id: Uuid)
    requires Inv(s) && Unresolved(Do(s, step), id) && !Unresolved(s, id)
    ensures step.Authorizing? && Canonical(step.value) == Do(s, step).guards[id].intent && AuthorizeResult(s, step.value, step.policy).Ok?
  {
    var e := Do(s, step).guards[id].intent.environment;
    assert UnresolvedIn(Do(s, step), id, e) && !UnresolvedIn(s, id, e);
    if step.Settling? || step.Sealing? { ResolvesOnly(s, step, id, e); }
    GuardsChange(s, step);
    AuthorizedGuardIs(s, step.value, step.policy, id);
  }

  lemma GuardsChange(s: State, step: Step)
    requires Do(s, step).guards != s.guards
    ensures step.Authorizing? || step.Settling? || step.Sealing?
  {
  }

  lemma AuthorizedGuardIs(s: State, value: Admission, policy: Policy, id: Uuid)
    requires Unresolved(Authorize(s, value, policy), id) && !Unresolved(s, id)
    ensures Canonical(value) == Authorize(s, value, policy).guards[id].intent && AuthorizeResult(s, value, policy).Ok?
  {
    Inserted(s, Canonical(value), None);
  }

  /**
   In every run, an unresolved destroy was authorized by a step that follows an accepted request to delete that Environment without force:
   nothing else brings an Environment into the state that a destroy needs.
   */
  lemma DestroyFollowsDeletion(steps: seq<Step>, id: Uuid)
    requires Unresolved(Run(EMPTY, steps), id) && Run(EMPTY, steps).guards[id].intent.mode.Destroy?
    ensures exists k, j :: DeletedThenAuthorized(steps, k, j, Run(EMPTY, steps).guards[id].intent)
  {
    assert steps[..|steps|] == steps;
    UnresolvedWasAuthorized(steps, |steps|, id);
    var g := Run(EMPTY, steps).guards[id].intent;
    var j :| 0 <= j < |steps| && AuthorizedAt(steps, j, g);
    AuthorizedExactly(Run(EMPTY, steps[..j]), steps[j].value, steps[j].policy);
    PolicyRun(steps, j, g.environment);
    var k :| 0 <= k < j && AcceptedDeletion(steps, k, g.environment, false);
    assert DeletedThenAuthorized(steps, k, j, g);
  }

  ghost predicate DeletedThenAuthorized(steps: seq<Step>, k: int, j: int, g: Admission) {
    0 <= k < j < |steps| && AcceptedDeletion(steps, k, g.environment, false) && AuthorizedAt(steps, j, g)
  }
}
