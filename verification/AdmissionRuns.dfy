/** What holds of admissions, epochs, Pins and deletions over every run. */
module AdmissionRuns {
  import opened Base
  import opened AdmissionRequests
  import opened AdmissionDecision
  import opened DeploymentAdmission
  import E = EnvironmentDeletion

  /******* What later steps cannot take back *******/

  predicate SameGuard(g: Guard, later: Guard) {
    later.intent == g.intent && later.epoch == g.epoch && (g.outcome.Some? ==> later.outcome == g.outcome)
  }

  predicate SamePin(pin: Pin, later: Pin) {
    && later.environment == pin.environment && later.module_ == pin.module_ && later.version == pin.version
    && pin.revision <= later.revision && (pin.status.Removed? ==> later.status.Removed?)
  }

  ghost predicate Later(s: State, t: State) {
    && (forall id :: id in s.guards ==> id in t.guards && SameGuard(s.guards[id], t.guards[id]))
    && (forall d :: d in s.dispatches ==> d in t.dispatches && t.dispatches[d].environment == s.dispatches[d].environment)
    && (forall p :: p in s.pins ==> p in t.pins && SamePin(s.pins[p], t.pins[p]))
    && E.Follows(s.envs, t.envs)
  }

  lemma LaterTransitive(s: State, t: State, u: State)
    requires Later(s, t) && Later(t, u) && Inv(s)
    ensures Later(s, u)
  {
    E.FollowsTransitive(s.envs, t.envs, u.envs);
    forall id | id in s.guards ensures id in u.guards && SameGuard(s.guards[id], u.guards[id]) { assert id in t.guards; }
    forall p | p in s.pins ensures p in u.pins && SamePin(s.pins[p], u.pins[p]) { assert p in t.pins; }
  }

  lemma InsertGuardLater(s: State, v: Admission, outcome: Option<Outcome>)
    requires v.id !in s.guards
    ensures Later(s, InsertGuard(s, v, outcome))
  {
  }

  lemma SetOutcomeLater(s: State, id: Uuid, outcome: Outcome)
    requires id in s.guards && s.guards[id].outcome in {None, Some(outcome)}
    ensures Later(s, SetOutcome(s, id, outcome))
  {
  }

  lemma SetPinLater(s: State, p: Uuid, pin: Pin)
    requires p in s.pins ==> SamePin(s.pins[p], pin)
    ensures Later(s, SetPin(s, p, pin))
  {
  }

  lemma DispatchLater(s: State, d: Uuid, e: Uuid, phase: Phase)
    ensures d !in s.dispatches ==> Later(s, InsertDispatch(s, d, e, phase))
    ensures d in s.dispatches ==> Later(s, SetPhase(s, d, phase))
  {
  }

  lemma DropPinsLater(s: State, e: Uuid, envs: E.Table)
    requires E.Follows(s.envs, envs)
    ensures Later(s, DropPins(s, e).(envs := envs))
  {
  }

  lemma EnvironmentLater(s: State, change: E.Step)
    requires Inv(s)
    ensures Later(s, ChangeEnvironment(s, change))
  {
    var envs := E.Do(s.envs, change);
    E.DoFollows(s.envs, change);
    LaterReflexive(s);
    if (change.Delete? || change.Remove?) && change.blocked != HasPending(s, change.e) {
      assert ChangeEnvironment(s, change) == s;
    } else if change.Remove? && E.Outcome(s.envs, change).Ok? {
      DropPinsLater(s, change.e, envs);
    } else {
      EnvsLater(s, envs);
    }
  }

  lemma EnvsLater(s: State, envs: E.Table)
    requires E.Follows(s.envs, envs)
    ensures Later(s, s.(envs := envs))
  {
  }

  lemma LaterReflexive(s: State)
    ensures Later(s, s)
  {
  }

  lemma AuthorizeLater(s: State, value: Admission, policy: Policy)
    ensures Later(s, Authorize(s, value, policy))
  {
    LaterReflexive(s);
    if value.id !in s.guards { InsertGuardLater(s, Canonical(value), None); }
  }

  lemma SettleLater(s: State, id: Uuid, project: Uuid, e: Uuid, digest: string, outcome: Outcome)
    ensures Later(s, Settle(s, id, project, e, digest, outcome))
  {
    LaterReflexive(s);
    if id in s.guards && s.guards[id].outcome in {None, Some(outcome)} { SetOutcomeLater(s, id, outcome); }
  }

  lemma SealLater(s: State, value: Admission)
    ensures Later(s, Seal(s, value))
  {
    LaterReflexive(s);
    if value.id !in s.guards {
      InsertGuardLater(s, Canonical(value), Some(Absent));
    } else if s.guards[value.id].outcome in {None, Some(Absent)} {
      SetOutcomeLater(s, value.id, Absent);
    }
  }

  lemma PinLater(s: State, step: Step)
    requires step.CreatingPin? || step.MovingPin?
    ensures Later(s, Do(s, step))
  {
    LaterReflexive(s);
    match step
    case CreatingPin(p, e, m, version, _, _) =>
      if p !in s.pins { SetPinLater(s, p, Pin(e, m, version, Active, 1, None, None)); }
    case MovingPin(p, _, to, operation, target, _) =>
      if p in s.pins && ValidTransition(s.pins[p].status, to) { SetPinLater(s, p, Moved(s.pins[p], to, operation, target)); }
  }

  lemma DispatchStepLater(s: State, step: Step)
    requires step.Recording? || step.Recovering? || step.Withdrawing? || step.Completing?
    ensures Later(s, Do(s, step))
  {
    LaterReflexive(s);
    if step.Recording? { DispatchLater(s, step.d, step.e, Open); }
    else if step.Recovering? { DispatchLater(s, step.d, step.e, Withdrawn); }
    else if step.Withdrawing? { DispatchLater(s, step.d, 0, Withdrawn); }
    else { DispatchLater(s, step.d, 0, Settled); }
  }

  lemma DoLater(s: State, step: Step)
    requires Inv(s)
    ensures Later(s, Do(s, step))
  {
    if step.Authorizing? { AuthorizeLater(s, step.value, step.policy); }
    else if step.Settling? { SettleLater(s, step.id, step.project, step.e, step.digest, step.outcome); }
    else if step.Sealing? { SealLater(s, step.value); }
    else if step.CreatingPin? || step.MovingPin? { PinLater(s, step); }
    else if step.ChangingEnvironment? { EnvironmentLater(s, step.step); }
    else if step.ChangingCatalogue? { CatalogueLater(s, step.catalogue); }
    else { DispatchStepLater(s, step); }
  }

  lemma CatalogueLater(s: State, catalogue: Catalogue)
    ensures Later(s, s.(catalogue := catalogue))
  {
  }

  lemma {:induction false} RunLater(s: State, steps: seq<Step>)
    requires Inv(s)
    ensures Inv(Run(s, steps)) && Later(s, Run(s, steps))
    decreases |steps|
  {
    if |steps| > 0 {
      DoKeeps(s, steps[0]);
      DoLater(s, steps[0]);
      RunLater(Do(s, steps[0]), steps[1..]);
      LaterTransitive(s, Do(s, steps[0]), Run(s, steps));
    }
  }

  lemma Reachable(steps: seq<Step>)
    ensures Inv(Run(EMPTY, steps))
  {
    EmptyInv();
    RunKeeps(EMPTY, steps);
  }

  /******* The admission state machine *******/

  /**
   In every reachable state an Environment has at most one unresolved admission, and no open
   dispatch beside it; a dispatch that is unresolved beside an admission was recovered as withdrawn.
   */
  lemma OneUnresolved(steps: seq<Step>, e: Uuid, i: Uuid, j: Uuid, d: Uuid)
    requires UnresolvedIn(Run(EMPTY, steps), i, e)
    ensures UnresolvedIn(Run(EMPTY, steps), j, e) ==> i == j
    ensures PendingIn(Run(EMPTY, steps), d, e) ==> Run(EMPTY, steps).dispatches[d].phase.Withdrawn?
  {
    var s := Run(EMPTY, steps);
    Reachable(steps);
    assert j in s.guards && i != j ==> Compatible(s.guards[i], s.guards[j]);
    assert d in s.dispatches ==> Clear(s.guards[i], s.dispatches[d]);
  }

  /** Each id keeps one intent, one epoch and, once it has one, its outcome. */
  lemma IdentityKept(before: seq<Step>, after: seq<Step>, id: Uuid)
    requires id in Run(EMPTY, before).guards
    ensures var s, t := Run(EMPTY, before), Run(Run(EMPTY, before), after);
            && id in t.guards && t.guards[id].intent == s.guards[id].intent && t.guards[id].epoch == s.guards[id].epoch
            && (s.guards[id].outcome.Some? ==> t.guards[id].outcome == s.guards[id].outcome)
            && (forall j :: j in t.guards && j != id && t.guards[j].intent.environment == t.guards[id].intent.environment ==>
                  t.guards[j].epoch != t.guards[id].epoch)
  {
    Reachable(before);
    RunLater(Run(EMPTY, before), after);
    var t := Run(Run(EMPTY, before), after);
    forall j | j in t.guards && j != id && t.guards[j].intent.environment == t.guards[id].intent.environment
      ensures t.guards[j].epoch != t.guards[id].epoch
    {
      assert Compatible(t.guards[id], t.guards[j]);
    }
  }

  /**
   A settled or sealed id never yields an active receipt again: whatever request uses it,
   authorization fails and changes nothing, and only its own outcome can be settled again.
   */
  lemma SettledIsFinal(before: seq<Step>, after: seq<Step>, value: Admission, policy: Policy, e: Uuid, project: Uuid, digest: string, outcome: Outcome)
    requires value.id in Run(EMPTY, before).guards && Run(EMPTY, before).guards[value.id].outcome.Some?
    ensures var t := Run(Run(EMPTY, before), after);
            && AuthorizeResult(t, value, policy).Err? && Authorize(t, value, policy) == t
            && Settle(t, value.id, project, e, digest, outcome) == t
            && (SettleResult(t, value.id, project, e, digest, outcome).Ok? ==> Run(EMPTY, before).guards[value.id].outcome == Some(outcome))
            && (SealResult(t, value).Ok? ==> Run(EMPTY, before).guards[value.id].outcome == Some(Absent) && Seal(t, value) == t)
  {
    Reachable(before);
    RunLater(Run(EMPTY, before), after);
    SettledRefuses(Run(Run(EMPTY, before), after), value, policy);
    SettledStays(Run(Run(EMPTY, before), after), value, e, project, digest, outcome);
  }

  lemma SettledRefuses(t: State, value: Admission, policy: Policy)
    requires value.id in t.guards && t.guards[value.id].outcome.Some?
    ensures AuthorizeResult(t, value, policy).Err? && Authorize(t, value, policy) == t
  {
  }

  lemma SettledStays(t: State, value: Admission, e: Uuid, project: Uuid, digest: string, outcome: Outcome)
    requires value.id in t.guards && t.guards[value.id].outcome.Some?
    ensures Settle(t, value.id, project, e, digest, outcome) == t
    ensures SettleResult(t, value.id, project, e, digest, outcome).Ok? ==> t.guards[value.id].outcome == Some(outcome)
    ensures SealResult(t, value).Ok? ==> t.guards[value.id].outcome == Some(Absent) && Seal(t, value) == t
  {
    if t.guards[value.id].outcome == Some(outcome) {
      assert t.guards[value.id := t.guards[value.id].(outcome := Some(outcome))] == t.guards;
    }
    if t.guards[value.id].outcome == Some(Absent) {
      assert t.guards[value.id := t.guards[value.id].(outcome := Some(Absent))] == t.guards;
    }
  }

  /**
   After an authorization, a request with the same id is answered only if it is the same
   intent, up to confirmation order and nil versus empty, and then with the same
   receipt and no change; in any later state any other request with that id fails.
   */
  lemma ReplayOnly(before: seq<Step>, value: Admission, policy: Policy, after: seq<Step>, other: Admission, laterPolicy: Policy)
    requires AuthorizeResult(Run(EMPTY, before), value, policy).Ok? && other.id == value.id
    ensures var s := Run(EMPTY, before);
            var t := Run(Authorize(s, value, policy), after);
            && Authorize(t, other, laterPolicy) == t
            && (AuthorizeResult(t, other, laterPolicy).Ok? ==>
                  SameIntent(other, value) && AuthorizeResult(t, other, laterPolicy) == AuthorizeResult(s, value, policy))
  {
    var s := Run(EMPTY, before);
    var u := Authorize(s, value, policy);
    Reachable(before);
    DoKeeps(s, Authorizing(value, policy));
    RunLater(u, after);
    AuthorizedGuard(s, value, policy);
    ReplayAt(Run(u, after), value, other, laterPolicy);
  }

  lemma PassedGuard(s: State, v: Admission, policy: Policy)
    requires AuthorizeError(s, v, policy).None? && v.id in s.guards
    ensures Canonical(s.guards[v.id].intent) == v && s.guards[v.id].outcome.None?
  {
    PassedVerdict(s, v, policy);
    PassedScope(s, v);
  }

  lemma AuthorizedGuard(s: State, value: Admission, policy: Policy)
    requires AuthorizeResult(s, value, policy).Ok?
    ensures var u := Authorize(s, value, policy);
            && value.id in u.guards && Canonical(u.guards[value.id].intent) == Canonical(value)
            && AuthorizeReceipt(s, Canonical(value)) == ReceiptOf(Canonical(value), u.guards[value.id].epoch, None)
  {
    var v := Canonical(value);
    if value.id in s.guards {
      PassedGuard(s, v, policy);
    } else {
      CanonicalIdempotent(value);
      Inserted(s, v, None);
    }
  }

  lemma ReplayAt(t: State, value: Admission, other: Admission, policy: Policy)
    requires other.id == value.id && value.id in t.guards && Canonical(t.guards[value.id].intent) == Canonical(value)
    ensures Authorize(t, other, policy) == t
    ensures AuthorizeResult(t, other, policy).Ok? ==>
              SameIntent(other, value) && AuthorizeReceipt(t, Canonical(other)) == ReceiptOf(Canonical(value), t.guards[value.id].epoch, None)
  {
    CanonicalExactly(other, value);
    if AuthorizeResult(t, other, policy).Ok? { PassedGuard(t, Canonical(other), policy); }
  }

  /**
   An authorization succeeds if and only if all of this holds, in one state and for any request: it is valid; it is new past
   the barrier, or the same intent as its unresolved guard; the Environment exists in its Project; a destroy finds a
   confirmed deletion without force and no override-pending Pin; any other mode maps the Module of every active or
   override-pending Pin to its Version; every Module is permitted, and the confirmations are the Defective targets.
   */
  lemma AuthorizedExactly(s: State, value: Admission, policy: Policy)
    ensures var v, e := Canonical(value), value.environment;
            AuthorizeResult(s, value, policy).Ok? <==>
            && Valid(v)
            && (if value.id in s.guards then Unresolved(s, value.id) && SameIntent(s.guards[value.id].intent, value) else Barrier(s, e))
            && e in s.envs.rows && s.envs.rows[e].project == value.project
            && (value.mode.Destroy? ==> s.envs.rows[e].status == E.Deleting && s.envs.rows[e].force == Some(false) && s.envs.rows[e].rules.Some?)
            && (forall p :: p in s.pins && s.pins[p].environment == e ==>
                  if value.mode.Destroy? then !s.pins[p].status.OverridePending?
                  else s.pins[p].status.Active? || s.pins[p].status.OverridePending? ==> Lookup(MapOf(value.modules), s.pins[p].module_) == s.pins[p].version)
            && (forall m :: m in MapOf(v.modules) ==> ModuleError(EvidenceFor(s, e, policy), v, m).None?)
            && (forall x :: x in ListOf(v.confirmed) <==> DefectiveTarget(EvidenceFor(s, e, policy), v, x))
  {
    var v := Canonical(value);
    if value.id in s.guards { CanonicalExactly(s.guards[value.id].intent, value); }
    VerdictExactly(EvidenceFor(s, v.environment, policy), v, SortedKeys(MapOf(v.modules).Keys));
    PinsPreservedExactly(s, v);
    ScopeExactly(s, v);
  }

  lemma PinsPreservedExactly(s: State, v: Admission)
    ensures PinsPreserved(s, v) <==>
            forall p :: p in s.pins && s.pins[p].environment == v.environment ==>
              if v.mode.Destroy? then !s.pins[p].status.OverridePending?
              else s.pins[p].status.Active? || s.pins[p].status.OverridePending? ==> Lookup(MapOf(v.modules), s.pins[p].module_) == s.pins[p].version
  {
    if PinsPreserved(s, v) {
      forall p | p in s.pins && s.pins[p].environment == v.environment ensures Preserves(v, s.pins[p]) { }
    }
  }

  lemma ScopeExactly(s: State, v: Admission)
    ensures ScopeError(s, v).None? <==>
            && Valid(v)
            && (if v.id in s.guards then Unresolved(s, v.id) && Canonical(s.guards[v.id].intent) == v else Barrier(s, v.environment))
            && v.environment in s.envs.rows && s.envs.rows[v.environment].project == v.project
            && (v.mode.Destroy? ==> s.envs.rows[v.environment].status == E.Deleting && s.envs.rows[v.environment].force == Some(false) && s.envs.rows[v.environment].rules.Some?)
            && PinsPreserved(s, v)
  {
  }

  /** A receipt states the stored guard: its exact scope, digest and mode, its epoch, and whether it is settled. */
  lemma ReceiptsAreGuards(s: State, step: Step)
    requires Inv(s) && (step.Authorizing? || step.Settling? || step.Sealing?)
    ensures step.Authorizing? && AuthorizeResult(s, step.value, step.policy).Ok? ==>
              Receipted(Do(s, step), step.value.id, AuthorizeResult(s, step.value, step.policy).value)
    ensures step.Settling? && SettleResult(s, step.id, step.project, step.e, step.digest, step.outcome).Ok? ==>
              Receipted(Do(s, step), step.id, SettleResult(s, step.id, step.project, step.e, step.digest, step.outcome).value)
    ensures step.Sealing? && SealResult(s, step.value).Ok? ==>
              Receipted(Do(s, step), step.value.id, SealResult(s, step.value).value)
  {
    match step
    case Authorizing(value, policy) => if AuthorizeResult(s, value, policy).Ok? { AuthorizeReceipted(s, value, policy); }
    case Settling(id, _, _, _, _) => if id in s.guards { assert GuardInv(s.epochs, id, s.guards[id]); }
    case Sealing(value) => if SealResult(s, value).Ok? { SealReceipted(s, value); }
  }

  predicate Receipted(t: State, id: Uuid, r: Receipt) {
    && id in t.guards && r.id == id
    && var g := t.guards[id];
       && r.project == g.intent.project && r.environment == g.intent.environment && r.digest == g.intent.digest && r.mode == g.intent.mode
       && r.epoch == g.epoch && r.outcome == g.outcome
  }

  lemma AuthorizeReceipted(s: State, value: Admission, policy: Policy)
    requires Inv(s) && AuthorizeResult(s, value, policy).Ok?
    ensures Receipted(Authorize(s, value, policy), value.id, AuthorizeReceipt(s, Canonical(value)))
  {
    var v := Canonical(value);
    if value.id in s.guards {
      assert GuardInv(s.epochs, value.id, s.guards[value.id]);
      PassedGuard(s, v, policy);
    } else {
      Inserted(s, v, None);
    }
  }

  lemma SealReceipted(s: State, value: Admission)
    requires Inv(s) && SealResult(s, value).Ok?
    ensures Receipted(Seal(s, value), value.id, SealResult(s, value).value)
  {
    if value.id in s.guards { SealedAgain(s, value); } else { Inserted(s, Canonical(value), Some(Absent)); }
  }

  lemma SealedAgain(s: State, value: Admission)
    requires Inv(s) && SealResult(s, value).Ok? && value.id in s.guards
    ensures Receipted(SetOutcome(s, value.id, Absent), value.id, SealResult(s, value).value)
  {
    assert GuardInv(s.epochs, value.id, s.guards[value.id]);
  }

  /******* Epochs *******/

  lemma SubsetSizes(a: set<Uuid>, b: set<Uuid>)
    requires a <= b
    ensures |a| <= |b| && (|a| == |b| <==> a == b)
  {
    assert b == a + (b - a);
    assert |b| == |a| + |b - a|;
    if |a| == |b| { assert b - a == {}; }
  }

  /**
   The epoch of an Environment grows exactly with its admissions and dispatches: it is equal at
   two points of a run if and only if none was inserted between them, even one that
   started and finished there.
   */
  lemma EpochTells(s: State, steps: seq<Step>, e: Uuid)
    requires Inv(s)
    ensures var t := Run(s, steps);
            && Epoch(s, e) <= Epoch(t, e)
            && (Epoch(s, e) == Epoch(t, e) <==>
                  GuardsOf(t.guards, e) == GuardsOf(s.guards, e) && DispatchesOf(t.dispatches, e) == DispatchesOf(s.dispatches, e))
  {
    RunLater(s, steps);
    var t := Run(s, steps);
    assert Counted(s.guards, s.dispatches, s.epochs, e) && Counted(t.guards, t.dispatches, t.epochs, e);
    SubsetSizes(GuardsOf(s.guards, e), GuardsOf(t.guards, e));
    SubsetSizes(DispatchesOf(s.dispatches, e), DispatchesOf(t.dispatches, e));
  }

  /** A check of an epoch read earlier passes exactly if nothing was inserted since and nothing is unresolved. */
  lemma EpochWindow(before: seq<Step>, window: seq<Step>, e: Uuid)
    ensures var s := Run(EMPTY, before);
            var t := Run(s, window);
            EpochError(t, e, Epoch(s, e)).None? <==>
            && (forall id :: id in t.guards && t.guards[id].intent.environment == e ==> id in s.guards && t.guards[id].outcome.Some?)
            && (forall d :: d in t.dispatches && t.dispatches[d].environment == e ==> d in s.dispatches && t.dispatches[d].phase.Settled?)
  {
    Reachable(before);
    var s := Run(EMPTY, before);
    var t := Run(s, window);
    EpochTells(s, window, e);
    RunLater(s, window);
    WindowUnchanged(s, t, e);
    BarrierMeans(t, e);
  }

  lemma WindowUnchanged(s: State, t: State, e: Uuid)
    requires Later(s, t)
    ensures GuardsOf(t.guards, e) == GuardsOf(s.guards, e) <==>
            forall id :: id in t.guards && t.guards[id].intent.environment == e ==> id in s.guards
    ensures DispatchesOf(t.dispatches, e) == DispatchesOf(s.dispatches, e) <==>
            forall d :: d in t.dispatches && t.dispatches[d].environment == e ==> d in s.dispatches
  {
    if GuardsOf(t.guards, e) == GuardsOf(s.guards, e) {
      forall id | id in t.guards && t.guards[id].intent.environment == e ensures id in s.guards { assert id in GuardsOf(t.guards, e); }
    }
    if DispatchesOf(t.dispatches, e) == DispatchesOf(s.dispatches, e) {
      forall d | d in t.dispatches && t.dispatches[d].environment == e ensures d in s.dispatches { assert d in DispatchesOf(t.dispatches, e); }
    }
  }

  lemma BarrierMeans(t: State, e: Uuid)
    ensures Barrier(t, e) <==>
            && (forall id :: id in t.guards && t.guards[id].intent.environment == e ==> t.guards[id].outcome.Some?)
            && (forall d :: d in t.dispatches && t.dispatches[d].environment == e ==> t.dispatches[d].phase.Settled?)
  {
    if Barrier(t, e) {
      forall id | id in t.guards && t.guards[id].intent.environment == e ensures t.guards[id].outcome.Some? { assert !UnresolvedIn(t, id, e); }
      forall d | d in t.dispatches && t.dispatches[d].environment == e ensures t.dispatches[d].phase.Settled? { assert !PendingIn(t, d, e); }
    }
  }

  /******* Pins *******/

  /**
   Pin protection: in every reachable state each unresolved admission that is not a destroy
   maps the Module of every active or override-pending Pin of its Environment to that Pin's
   Version, and no Module of an Environment has two such Pins.
   */
  lemma PinProtectionHolds(steps: seq<Step>, id: Uuid, p: Uuid, q: Uuid)
    requires var s := Run(EMPTY, steps); Unresolved(s, id) && ProtectedPin(s, p, s.guards[id].intent.environment)
    ensures var s := Run(EMPTY, steps);
            var modules := MapOf(s.guards[id].intent.modules);
            !s.guards[id].intent.mode.Destroy? ==> s.pins[p].module_ in modules && modules[s.pins[p].module_] == s.pins[p].version
    ensures var s := Run(EMPTY, steps);
            ProtectedPin(s, q, s.pins[p].environment) && s.pins[q].module_ == s.pins[p].module_ ==> q == p
  {
    Reachable(steps);
    var s := Run(EMPTY, steps);
    assert Honours(s.guards[id], s.pins[p]);
    if q in s.pins && q != p { assert !Rivals(s.pins[q], s.pins[p]); }
  }

  /**
   A resource version is used up by the change it allows: once a Pin moved, no later step that expects the
   version it had can change anything, so of two handlers that read the same Pin at most one succeeds.
   */
  lemma VersionUsedUp(before: seq<Step>, first: Step, after: seq<Step>, second: Step)
    requires first.MovingPin? && second.MovingPin? && first.p == second.p && first.expected == second.expected
    requires Do(Run(EMPTY, before), first) != Run(EMPTY, before)
    ensures var t := Run(Do(Run(EMPTY, before), first), after);
            && Do(t, second) == t && second.p in t.pins && t.pins[second.p].revision > second.expected
            && TransitionError(t, second.p, second.expected, second.to, second.operation, second.target, second.evidence).Some?
  {
    var s := Run(EMPTY, before);
    Reachable(before);
    MovedVersion(s, first);
    DoKeeps(s, first);
    RunLater(Do(s, first), after);
    StaleVersion(Run(Do(s, first), after), second);
  }

  lemma MovedVersion(s: State, step: Step)
    requires step.MovingPin? && Do(s, step) != s
    ensures step.p in s.pins && s.pins[step.p].revision == step.expected
    ensures step.p in Do(s, step).pins && Do(s, step).pins[step.p].revision == step.expected + 1
  {
  }

  lemma StaleVersion(t: State, step: Step)
    requires step.MovingPin? && step.p in t.pins && t.pins[step.p].revision != step.expected
    ensures Do(t, step) == t && TransitionError(t, step.p, step.expected, step.to, step.operation, step.target, step.evidence).Some?
  {
  }

  /** A Pin created or restored on an epoch read earlier saw no admission inserted in between and none unresolved. */
  lemma PinsRestOnEvidence(before: seq<Step>, window: seq<Step>, step: Step, p: Uuid, e: Uuid)
    requires var s := Run(EMPTY, before);
             var t := Run(s, window);
             && ((step.CreatingPin? && step.epoch == Epoch(s, e)) || (step.MovingPin? && step.evidence == Some(Epoch(s, e))))
             && ProtectedPin(Do(t, step), p, e) && !ProtectedPin(t, p, e)
    ensures var s := Run(EMPTY, before);
            var t := Run(s, window);
            && (forall id :: id in t.guards && t.guards[id].intent.environment == e ==> id in s.guards && t.guards[id].outcome.Some?)
            && (forall d :: d in t.dispatches && t.dispatches[d].environment == e ==> d in s.dispatches && t.dispatches[d].phase.Settled?)
  {
    EpochWindow(before, window, e);
  }

  /** An admission or a dispatch of the Environment that was not there before. */
  ghost predicate InsertedSince(s: State, t: State, e: Uuid) {
    || (exists id :: id in t.guards && t.guards[id].intent.environment == e && id !in s.guards)
    || (exists d :: d in t.dispatches && t.dispatches[d].environment == e && d !in s.dispatches)
  }

  lemma InsertedByEpoch(s: State, steps: seq<Step>, e: Uuid)
    requires Inv(s)
    ensures InsertedSince(s, Run(s, steps), e) <==> Epoch(s, e) != Epoch(Run(s, steps), e)
  {
    EpochTells(s, steps, e);
    RunLater(s, steps);
    WindowUnchanged(s, Run(s, steps), e);
  }

  lemma {:induction false} RunConcat(s: State, a: seq<Step>, b: seq<Step>)
    ensures Run(s, a + b) == Run(Run(s, a), b)
    decreases |a|
  {
    if |a| == 0 {
      assert a + b == b;
    } else {
      assert (a + b)[0] == a[0] && (a + b)[1..] == a[1..] + b;
      RunConcat(Do(s, a[0]), a[1..], b);
    }
  }

  /**
   The restore and reconcile handlers read their Deployment at one point, the epoch at a second and the snapshot after it, and
   check the epoch at a third. Where that check passes, an admission that was inserted since the Deployment was
   read went unseen if and only if it was inserted before the epoch was read, which is exactly if the epoch
   differs between those two points. One inserted after the epoch was read is always seen.
   */
  lemma EarlyEvidenceExactly(before: seq<Step>, early: seq<Step>, window: seq<Step>, e: Uuid)
    requires var read := Run(Run(EMPTY, before), early); EpochError(Run(read, window), e, Epoch(read, e)).None?
    ensures var start := Run(EMPTY, before);
            var read := Run(start, early);
            var check := Run(read, window);
            && !InsertedSince(read, check, e)
            && (InsertedSince(start, check, e) <==> InsertedSince(start, read, e))
            && (InsertedSince(start, check, e) <==> Epoch(start, e) != Epoch(read, e))
  {
    var start := Run(EMPTY, before);
    var read := Run(start, early);
    Reachable(before);
    RunLater(start, early);
    InsertedByEpoch(start, early, e);
    InsertedByEpoch(read, window, e);
    RunConcat(start, early, window);
    InsertedByEpoch(start, early + window, e);
  }

  /******* Lifecycle and deletion *******/

  /**
   A successful authorization in any state: the confirmations are exactly the Defective
   published targets, each Defective or Deprecated one is actively pinned here or
   part of a rollback, and every retained draft test succeeded in an earlier admission here.
   */
  lemma AuthorizedLifecycle(s: State, value: Admission, policy: Policy, m: Uuid)
    requires Inv(s) && AuthorizeResult(s, value, policy).Ok? && m in MapOf(value.modules)
    ensures var v := Canonical(value);
            var found := EvidenceFor(s, v.environment, policy);
            forall x :: x in ListOf(value.confirmed) <==> DefectiveTarget(found, v, x)
    ensures !IsDraft(value, m) ==>
              var version := MapOf(value.modules)[m];
              && version in s.catalogue.versions && s.catalogue.versions[version].module_ == m
              && (s.catalogue.versions[version].lifecycle in {Deprecated, Defective} ==>
                    value.mode.Rollback? || exists p :: ActivePin(s, p, value.environment, m) && s.pins[p].version == version)
    ensures IsDraft(value, m) && (m in MapOf(value.carried) || value.mode.Rollback?) ==>
              exists id :: SucceededWith(s, id, value.environment, m, MapOf(value.modules)[m])
  {
    var v := Canonical(value);
    var found := EvidenceFor(s, v.environment, policy);
    var keys := SortedKeys(MapOf(v.modules).Keys);
    PassedVerdict(s, v, policy);
    PassedScope(s, v);
    SortedKeysAll(v);
    VerdictExactly(found, v, keys);
    VerdictMeans(found, v, keys, m);
    assert forall x :: x in ListOf(value.confirmed) <==> x in multiset(ListOf(value.confirmed));
    assert forall x :: x in ListOf(v.confirmed) <==> x in multiset(ListOf(v.confirmed));
    ActivePinsMean(s, v.environment, m);
    if (m, MapOf(v.modules)[m]) in found.executed {
      ExecutedBy(s, v.environment, m, MapOf(v.modules)[m]);
    }
  }

  lemma PassedVerdict(s: State, v: Admission, policy: Policy)
    requires AuthorizeError(s, v, policy).None?
    ensures ScopeError(s, v).None? && LifecycleError(s, v, policy).None?
  {
  }

  lemma PassedScope(s: State, v: Admission)
    requires ScopeError(s, v).None?
    ensures Valid(v) && (v.id in s.guards || Barrier(s, v.environment))
    ensures v.id in s.guards ==> Canonical(s.guards[v.id].intent) == v && s.guards[v.id].outcome.None?
  {
  }

  lemma SortedKeysAll(v: Admission)
    ensures AllKeys(v, SortedKeys(MapOf(v.modules).Keys))
  {
  }

  lemma ActivePinsMean(s: State, e: Uuid, m: Uuid)
    ensures m in ActivePins(s, e) ==> exists p :: ActivePin(s, p, e, m) && s.pins[p].version == ActivePins(s, e)[m]
  {
    if m in ActivePins(s, e) {
      var p :| ActivePin(s, p, e, m) && s.pins[p].version == PinnedVersion(s, e, m);
    }
  }

  /** An admission of this Environment that succeeded with this draft test. */
  predicate SucceededWith(s: State, id: Uuid, e: Uuid, m: Uuid, snapshot: Uuid) {
    && id in s.guards && s.guards[id].intent.environment == e && s.guards[id].outcome == Some(Succeeded)
    && m in MapOf(s.guards[id].intent.drafts) && MapOf(s.guards[id].intent.drafts)[m] == snapshot
    && m in MapOf(s.guards[id].intent.modules) && MapOf(s.guards[id].intent.modules)[m] == snapshot
  }

  lemma ExecutedBy(s: State, e: Uuid, m: Uuid, snapshot: Uuid)
    requires (m, snapshot) in Executed(s, e)
    ensures exists id :: SucceededWith(s, id, e, m, snapshot)
  {
    var id, k :| && id in s.guards && k in MapOf(s.guards[id].intent.modules)
                 && s.guards[id].intent.environment == e && s.guards[id].outcome == Some(Succeeded)
                 && k in MapOf(s.guards[id].intent.drafts)
                 && MapOf(s.guards[id].intent.drafts)[k] == MapOf(s.guards[id].intent.modules)[k]
                 && (k, MapOf(s.guards[id].intent.modules)[k]) == (m, snapshot);
    assert SucceededWith(s, id, e, m, snapshot);
  }

  /**
   Forced deletion is final for admissions: once force is recorded no destroy of that
   Environment is ever authorized again, neither a new one nor the replay of one that is still active.
   */
  lemma ForcedNeverDestroys(before: seq<Step>, after: seq<Step>, value: Admission, policy: Policy)
    requires var s := Run(EMPTY, before);
             value.environment in s.envs.rows && s.envs.rows[value.environment].force == Some(true)
    requires value.mode.Destroy?
    ensures AuthorizeResult(Run(Run(EMPTY, before), after), value, policy).Err?
  {
    Reachable(before);
    RunLater(Run(EMPTY, before), after);
  }

  /******* Exactly when a dispatch is unresolved beside an admission *******/

  ghost predicate Crossed(s: State, e: Uuid) {
    exists id, d :: UnresolvedIn(s, id, e) && PendingIn(s, d, e)
  }

  ghost predicate Admitting(s: State, e: Uuid) {
    exists id :: UnresolvedIn(s, id, e)
  }

  /** The recovery of a dispatch that was never recorded meets an unresolved admission. */
  ghost predicate RecoversAcross(s: State, step: Step, e: Uuid) {
    step.Recovering? && step.e == e && step.d !in s.dispatches && Admitting(s, e)
  }

  lemma BarrierClears(s: State, e: Uuid)
    requires Barrier(s, e)
    ensures !Admitting(s, e) && forall d :: !PendingIn(s, d, e)
  {
    forall id | id in s.guards ensures !UnresolvedIn(s, id, e) { }
    forall d | d in s.dispatches ensures !PendingIn(s, d, e) { }
  }

  /** A guard is added only past the barrier, or resolved; resolving adds nothing unresolved. */
  lemma GuardStepsDoNotCross(s: State, step: Step, e: Uuid)
    requires !Crossed(s, e) && (step.Authorizing? || step.Settling? || step.Sealing?)
    ensures !Crossed(Do(s, step), e)
  {
    var t := Do(s, step);
    assert t.dispatches == s.dispatches;
    if id, d :| UnresolvedIn(t, id, e) && PendingIn(t, d, e) {
      assert PendingIn(s, d, e);
      assert !UnresolvedIn(s, id, e);
      NewGuard(s, step, id, e);
      BarrierClears(s, e);
    }
  }

  lemma NewGuard(s: State, step: Step, id: Uuid, e: Uuid)
    requires (step.Authorizing? || step.Settling? || step.Sealing?) && UnresolvedIn(Do(s, step), id, e) && !UnresolvedIn(s, id, e)
    ensures Barrier(s, e)
  {
    if step.Authorizing? { AuthorizedNew(s, step.value, step.policy, id, e); } else { ResolvesOnly(s, step, id, e); }
  }

  lemma AuthorizedNew(s: State, value: Admission, policy: Policy, id: Uuid, e: Uuid)
    requires UnresolvedIn(Authorize(s, value, policy), id, e) && !UnresolvedIn(s, id, e)
    ensures Barrier(s, e)
  {
    if AuthorizeError(s, Canonical(value), policy).None? {
      PassedBarrier(s, Canonical(value), policy);
      Inserted(s, Canonical(value), None);
    }
  }

  lemma ResolvesOnly(s: State, step: Step, id: Uuid, e: Uuid)
    requires (step.Settling? || step.Sealing?) && UnresolvedIn(Do(s, step), id, e)
    ensures UnresolvedIn(s, id, e)
  {
    if step.Settling? { SettleResolves(s, step, id, e); } else { SealResolves(s, step.value, id, e); }
  }

  lemma SettleResolves(s: State, step: Step, id: Uuid, e: Uuid)
    requires step.Settling? && UnresolvedIn(Settle(s, step.id, step.project, step.e, step.digest, step.outcome), id, e)
    ensures UnresolvedIn(s, id, e)
  {
  }

  lemma SealResolves(s: State, value: Admission, id: Uuid, e: Uuid)
    requires UnresolvedIn(Seal(s, value), id, e)
    ensures UnresolvedIn(s, id, e)
  {
    if value.id !in s.guards { Inserted(s, Canonical(value), Some(Absent)); }
  }

  lemma PassedBarrier(s: State, v: Admission, policy: Policy)
    requires AuthorizeError(s, v, policy).None?
    ensures v.id in s.guards || Barrier(s, v.environment)
  {
    PassedVerdict(s, v, policy);
    PassedScope(s, v);
  }

  lemma DispatchStepsCrossExactly(s: State, step: Step, e: Uuid)
    requires !Crossed(s, e) && (step.Recording? || step.Recovering? || step.Withdrawing? || step.Completing?)
    ensures Crossed(Do(s, step), e) <==> RecoversAcross(s, step, e)
  {
    var t := Do(s, step);
    assert t.guards == s.guards;
    if step.Recording? && Barrier(s, step.e) { BarrierClears(s, step.e); }
    if RecoversAcross(s, step, e) {
      var id :| UnresolvedIn(s, id, e);
      assert UnresolvedIn(t, id, e) && PendingIn(t, step.d, e);
    }
    if Crossed(t, e) {
      var id, d :| UnresolvedIn(t, id, e) && PendingIn(t, d, e);
      assert UnresolvedIn(s, id, e);
      assert !PendingIn(s, d, e);
    }
  }

  lemma OtherStepsDoNotCross(s: State, step: Step, e: Uuid)
    requires !Crossed(s, e) && (step.CreatingPin? || step.MovingPin? || step.ChangingEnvironment? || step.ChangingCatalogue?)
    ensures !Crossed(Do(s, step), e)
  {
    var t := Do(s, step);
    assert t.guards == s.guards && t.dispatches == s.dispatches;
    if id, d :| UnresolvedIn(t, id, e) && PendingIn(t, d, e) {
      assert UnresolvedIn(s, id, e) && PendingIn(s, d, e);
    }
  }

  /** One step makes an Environment cross if and only if it recovers an unrecorded dispatch beside an unresolved admission. */
  lemma StepCrossesExactly(s: State, step: Step, e: Uuid)
    requires !Crossed(s, e)
    ensures Crossed(Do(s, step), e) <==> RecoversAcross(s, step, e)
  {
    if step.Authorizing? || step.Settling? || step.Sealing? {
      GuardStepsDoNotCross(s, step, e);
    } else if step.Recording? || step.Recovering? || step.Withdrawing? || step.Completing? {
      DispatchStepsCrossExactly(s, step, e);
    } else {
      OtherStepsDoNotCross(s, step, e);
    }
  }

  lemma RunSnoc(s: State, steps: seq<Step>, k: nat)
    requires k < |steps|
    ensures Run(s, steps[..k + 1]) == Do(Run(s, steps[..k]), steps[k])
  {
    var before, step := steps[..k], steps[k];
    assert steps[..k + 1] == before + [step];
    RunConcat(s, before, [step]);
    RunOne(Run(s, before), step);
  }

  lemma RunOne(s: State, step: Step)
    ensures Run(s, [step]) == Do(s, step)
  {
    assert [step][1..] == [];
  }

  /** The state after the first k steps, and the step that follows. */
  ghost predicate RecoversAcrossAt(steps: seq<Step>, k: nat, e: Uuid)
    requires k < |steps|
  {
    RecoversAcross(Run(EMPTY, steps[..k]), steps[k], e)
  }

  ghost predicate CrossedAt(steps: seq<Step>, k: nat, e: Uuid)
    requires k <= |steps|
  {
    Crossed(Run(EMPTY, steps[..k]), e)
  }

  lemma {:induction false} UncrossedUntil(steps: seq<Step>, k: nat, e: Uuid)
    requires k <= |steps| && forall j :: 0 <= j < k ==> !RecoversAcrossAt(steps, j, e)
    ensures !CrossedAt(steps, k, e)
    decreases k
  {
    if k > 0 {
      UncrossedUntil(steps, k - 1, e);
      RunSnoc(EMPTY, steps, k - 1);
      assert !RecoversAcrossAt(steps, k - 1, e);
      StepCrossesExactly(Run(EMPTY, steps[..k - 1]), steps[k - 1], e);
    } else {
      assert steps[..0] == [];
    }
  }

  lemma CrossesAfter(s: State, step: Step, e: Uuid)
    requires RecoversAcross(s, step, e)
    ensures Crossed(Do(s, step), e)
  {
    var id :| UnresolvedIn(s, id, e);
    assert UnresolvedIn(Do(s, step), id, e) && PendingIn(Do(s, step), step.d, e);
  }

  /**
   The promise that at most one admission or dispatch is unresolved in an Environment holds of a whole run, in every state it
   passes through, if and only if no step of it recovers an unrecorded dispatch while an admission is unresolved there.
   */
  lemma RunCrossesExactly(steps: seq<Step>, e: Uuid)
    ensures (exists k :: 0 <= k <= |steps| && CrossedAt(steps, k, e)) <==> (exists k :: 0 <= k < |steps| && RecoversAcrossAt(steps, k, e))
  {
    if k :| 0 <= k < |steps| && RecoversAcrossAt(steps, k, e) {
      RunSnoc(EMPTY, steps, k);
      CrossesAfter(Run(EMPTY, steps[..k]), steps[k], e);
      assert CrossedAt(steps, k + 1, e);
    } else {
      forall k | 0 <= k <= |steps| ensures !CrossedAt(steps, k, e) { UncrossedUntil(steps, k, e); }
    }
  }

  /******* Concrete runs *******/

  const SOME_POLICY := Policy(false, false)
  const SOME_ADMISSION := Admission(1, 2, 3, 4, "", true, Deploy, Some(map[]), Some(map[]), Some([]), None)
  const SOME_GUARD := Guard(SOME_ADMISSION, 1, None)
  const DEV := E.Environment(2, "dev", None, E.Active, "", None, None)
  const SOME_ENVS := E.Table(map[3 := DEV], {3})

  /** Without resolved Modules and protected Pins the admission is authorized past the barrier. */
  lemma SomeAdmissionPasses(s: State)
    requires s.envs == SOME_ENVS && s.guards == map[] && s.epochs == map[] && s.dispatches == map[]
    requires forall p :: p in s.pins ==> !Protected(s.pins[p].status)
    ensures Canonical(SOME_ADMISSION) == SOME_ADMISSION
    ensures Do(s, Authorizing(SOME_ADMISSION, SOME_POLICY)) == s.(guards := map[1 := SOME_GUARD], epochs := map[3 := 1])
  {
    SomeAdmissionValid();
    SomeScope(s);
    NoModulesPass(s, SOME_ADMISSION, SOME_POLICY);
    Inserted(s, SOME_ADMISSION, None);
  }

  lemma SomeScope(s: State)
    requires s.envs == SOME_ENVS && s.guards == map[] && s.dispatches == map[]
    requires forall p :: p in s.pins ==> !Protected(s.pins[p].status)
    ensures ScopeError(s, SOME_ADMISSION).None?
  {
    SomeAdmissionValid();
  }

  /** Without Modules and confirmations there is nothing to decide. */
  lemma NoModulesPass(s: State, v: Admission, policy: Policy)
    requires MapOf(v.modules) == map[] && ListOf(v.confirmed) == []
    ensures LifecycleError(s, v, policy).None?
  {
    assert SortedKeys(MapOf(v.modules).Keys) == [];
  }

  lemma SomeAdmissionValid()
    ensures Canonical(SOME_ADMISSION) == SOME_ADMISSION && Valid(SOME_ADMISSION)
    ensures MapOf(SOME_ADMISSION.modules) == map[] && ListOf(SOME_ADMISSION.confirmed) == []
  {
    assert Sort([]) == [];
  }

  lemma SomeEnvironment(s: State)
    requires s.envs == E.EMPTY
    ensures Do(s, ChangingEnvironment(E.Create(3, 2, "dev"))) == s.(envs := SOME_ENVS)
  {
    assert {} + {3} == {3};
  }

  lemma RunCons(s: State, step: Step, rest: seq<Step>)
    ensures Run(s, [step] + rest) == Run(Do(s, step), rest)
  {
    assert ([step] + rest)[1..] == rest;
  }

  const CROSSING: seq<Step> := [ChangingEnvironment(E.Create(3, 2, "dev")), Authorizing(SOME_ADMISSION, SOME_POLICY), Recovering(5, 3)]

  /** A run from the empty tables that crosses. */
  lemma RecoveryCrosses()
    ensures Crossed(Run(EMPTY, CROSSING), 3)
  {
    var s1 := EMPTY.(envs := SOME_ENVS);
    var s2 := s1.(guards := map[1 := SOME_GUARD], epochs := map[3 := 1]);
    SomeEnvironment(EMPTY);
    SomeAdmissionPasses(s1);
    assert CROSSING == [CROSSING[0]] + ([CROSSING[1]] + ([CROSSING[2]] + []));
    RunCons(EMPTY, CROSSING[0], [CROSSING[1]] + ([CROSSING[2]] + []));
    RunCons(s1, CROSSING[1], [CROSSING[2]] + []);
    RunCons(s2, CROSSING[2], []);
    assert UnresolvedIn(s2, 1, 3);
    CrossesAfter(s2, CROSSING[2], 3);
  }

  const SOME_CATALOGUE := Catalogue(map[7 := false], map[8 := Version(7, Default), 9 := Version(7, Default)], map[])
  const OVERRIDDEN := Pin(3, 7, 8, PinStatus.Overridden, 3, Some(10), Some(9))

  // An Environment, a Pin on Version 8, and its override to Version 9 by operation 10.
  const OVERRIDING: seq<Step> := [
    ChangingEnvironment(E.Create(3, 2, "dev")), ChangingCatalogue(SOME_CATALOGUE), CreatingPin(6, 3, 7, 8, 0, false),
    MovingPin(6, 1, OverridePending, Some(10), Some(9), None), MovingPin(6, 2, PinStatus.Overridden, Some(10), Some(9), Some(0))]
  const PASSING: seq<Step> := [Authorizing(SOME_ADMISSION, SOME_POLICY), Settling(1, 2, 3, "", Succeeded)]
  const RESTORING := MovingPin(6, 3, PinStatus.Active, Some(10), None, Some(1))

  const PINNED := Pin(3, 7, 8, PinStatus.Active, 1, None, None)
  const PENDING := Pin(3, 7, 8, OverridePending, 2, Some(10), Some(9))

  function WithPin(pins: map<Uuid, Pin>): State {
    State(SOME_ENVS, SOME_CATALOGUE, map[], map[], pins, map[])
  }

  lemma PinningSteps()
    ensures Do(WithPin(map[]), OVERRIDING[2]) == WithPin(map[6 := PINNED])
    ensures Do(WithPin(map[6 := PINNED]), OVERRIDING[3]) == WithPin(map[6 := PENDING])
  {
  }

  lemma OverridingStep()
    ensures Do(WithPin(map[6 := PENDING]), OVERRIDING[4]) == WithPin(map[6 := OVERRIDDEN])
  {
  }

  lemma PinnedRun(rest: seq<Step>)
    ensures Run(EMPTY, [OVERRIDING[0]] + ([OVERRIDING[1]] + rest)) == Run(WithPin(map[]), rest)
  {
    var s1 := EMPTY.(envs := SOME_ENVS);
    SomeEnvironment(EMPTY);
    RunCons(EMPTY, OVERRIDING[0], [OVERRIDING[1]] + rest);
    RunCons(s1, OVERRIDING[1], rest);
    PublishingStep(s1);
  }

  lemma PublishingStep(s: State)
    requires s == EMPTY.(envs := SOME_ENVS)
    ensures Do(s, ChangingCatalogue(SOME_CATALOGUE)) == WithPin(map[])
  {
  }

  lemma MovedRun()
    ensures Run(WithPin(map[]), [OVERRIDING[2]] + ([OVERRIDING[3]] + ([OVERRIDING[4]] + []))) == WithPin(map[6 := OVERRIDDEN])
  {
    PinningSteps();
    OverridingStep();
    RunCons(WithPin(map[]), OVERRIDING[2], [OVERRIDING[3]] + ([OVERRIDING[4]] + []));
    RunCons(WithPin(map[6 := PINNED]), OVERRIDING[3], [OVERRIDING[4]] + []);
    RunCons(WithPin(map[6 := PENDING]), OVERRIDING[4], []);
  }

  lemma OverriddenRun()
    ensures Run(EMPTY, OVERRIDING) == WithPin(map[6 := OVERRIDDEN])
  {
    var tail := [OVERRIDING[2]] + ([OVERRIDING[3]] + ([OVERRIDING[4]] + []));
    assert OVERRIDING == [OVERRIDING[0]] + ([OVERRIDING[1]] + tail);
    PinnedRun(tail);
    MovedRun();
  }

  /**
   A run in which an admission starts and finishes between the two reads of a restore handler, and the restore succeeds: the Pin is
   active again on evidence that is older than the admission.
   */
  lemma RestoreMissesAdmission()
    ensures var start := Run(EMPTY, OVERRIDING);
            var read := Run(start, PASSING);
            && InsertedSince(start, read, 3) && Epoch(read, 3) == 1
            && !ProtectedPin(read, 6, 3) && ProtectedPin(Do(read, RESTORING), 6, 3)
  {
    OverriddenRun();
    var start := WithPin(map[6 := OVERRIDDEN]);
    var mid := start.(guards := map[1 := SOME_GUARD], epochs := map[3 := 1]);
    var read := start.(guards := map[1 := SOME_GUARD.(outcome := Some(Succeeded))], epochs := map[3 := 1]);
    SomeAdmissionPasses(start);
    assert PASSING == [PASSING[0]] + ([PASSING[1]] + []);
    RunCons(start, PASSING[0], [PASSING[1]] + []);
    assert Do(mid, PASSING[1]) == read;
    RunCons(mid, PASSING[1], []);
    assert 1 in read.guards && read.guards[1].intent.environment == 3 && 1 !in start.guards;
    RestoredPin(read);
  }

  lemma RestoredPin(read: State)
    requires read == State(SOME_ENVS, SOME_CATALOGUE, map[1 := SOME_GUARD.(outcome := Some(Succeeded))], map[3 := 1], map[6 := OVERRIDDEN], map[])
    ensures ProtectedPin(Do(read, RESTORING), 6, 3)
  {
    assert Barrier(read, 3) && Epoch(read, 3) == 1;
    assert !Taken(read, 3, 7);
    assert TransitionError(read, 6, 3, PinStatus.Active, Some(10), None, Some(1)).None?;
  }
}
