/**
 Admission guards, epochs, Pins and external dispatches of one organization. Every
 transaction holds its Environment's lock from its first read to its commit, so each is
 one step; what a handler reads before that, the epoch above all, is a parameter of
 its step.
 */
module DeploymentAdmission {
  import opened Base
  import opened AdmissionRequests
  import opened AdmissionDecision
  import E = EnvironmentDeletion

  datatype Outcome = Succeeded | Failing | Cancelled | Terminated | Absent

  datatype Guard = Guard(intent: Admission, epoch: nat, outcome: Option<Outcome>)

  // Active without an outcome, settled with one.
  datatype Receipt = Receipt(id: Uuid, project: Uuid, environment: Uuid, digest: string, epoch: nat, mode: Mode, outcome: Option<Outcome>)

  datatype PinStatus = Active | OverridePending | Overridden | Removed

  datatype Pin = Pin(
    environment: Uuid, module_: Uuid, version: Uuid, status: PinStatus, revision: nat, operation: Option<Uuid>, target: Option<Uuid>)

  datatype Phase = Open | Withdrawn | Settled

  datatype Dispatch = Dispatch(environment: Uuid, phase: Phase)

  datatype State = State(
    envs: E.Table, catalogue: Catalogue,
    guards: map<Uuid, Guard>, epochs: map<Uuid, nat>, pins: map<Uuid, Pin>, dispatches: map<Uuid, Dispatch>)

  const EMPTY := State(E.EMPTY, Catalogue(map[], map[], map[]), map[], map[], map[], map[])

  /******* Reading *******/

  function Epoch(s: State, e: Uuid): nat {
    if e in s.epochs then s.epochs[e] else 0
  }

  predicate Unresolved(s: State, id: Uuid) {
    id in s.guards && s.guards[id].outcome.None?
  }

  predicate UnresolvedIn(s: State, id: Uuid, e: Uuid) {
    Unresolved(s, id) && s.guards[id].intent.environment == e
  }

  predicate PendingIn(s: State, d: Uuid, e: Uuid) {
    d in s.dispatches && s.dispatches[d].environment == e && !s.dispatches[d].phase.Settled?
  }

  /** checkExternalDispatchBarrier: nothing is unresolved in this Environment. */
  predicate Barrier(s: State, e: Uuid) {
    && (forall d :: d in s.dispatches ==> !PendingIn(s, d, e))
    && (forall id :: id in s.guards ==> !UnresolvedIn(s, id, e))
  }

  /** CheckEnvironmentAdmissionEpoch. */
  function EpochError(s: State, e: Uuid, expected: int): Option<Error> {
    if expected < 0 then Some(BadRequest)
    else if Epoch(s, e) != expected then Some(Conflict)
    else if !Barrier(s, e) then Some(Busy)
    else None
  }

  predicate Protected(status: PinStatus) {
    status.Active? || status.OverridePending?
  }

  predicate ProtectedPin(s: State, p: Uuid, e: Uuid) {
    p in s.pins && s.pins[p].environment == e && Protected(s.pins[p].status)
  }

  predicate ActivePin(s: State, p: Uuid, e: Uuid, m: Uuid) {
    p in s.pins && s.pins[p].environment == e && s.pins[p].module_ == m && s.pins[p].status.Active?
  }

  ghost function ActivePins(s: State, e: Uuid): map<Uuid, Uuid> {
    var modules := set p | p in s.pins && ActivePin(s, p, e, s.pins[p].module_) :: s.pins[p].module_;
    map m | m in modules :: PinnedVersion(s, e, m)
  }

  ghost function PinnedVersion(s: State, e: Uuid, m: Uuid): Uuid
    requires exists p :: ActivePin(s, p, e, m)
  {
    var p :| ActivePin(s, p, e, m);
    s.pins[p].version
  }

  /** Draft tests that an earlier admission of this Environment executed with success. */
  function Executed(s: State, e: Uuid): set<(Uuid, Uuid)> {
    set id, m | && id in s.guards && m in MapOf(s.guards[id].intent.modules)
                && s.guards[id].intent.environment == e && s.guards[id].outcome == Some(Succeeded)
                && m in MapOf(s.guards[id].intent.drafts)
                && MapOf(s.guards[id].intent.drafts)[m] == MapOf(s.guards[id].intent.modules)[m]
      :: (m, MapOf(s.guards[id].intent.modules)[m])
  }

  ghost function EvidenceFor(s: State, e: Uuid, policy: Policy): Evidence {
    Evidence(s.catalogue, ActivePins(s, e), Executed(s, e), policy)
  }

  /** The exact scope, and for a destroy a confirmed deletion without force. */
  predicate InScope(row: E.Environment, v: Admission) {
    && row.project == v.project
    && (v.mode.Destroy? ==> row.status.Deleting? && row.force == Some(false) && row.rules.Some?)
  }

  predicate Preserves(v: Admission, pin: Pin) {
    Protected(pin.status) ==>
      if v.mode.Destroy? then pin.status.Active? else Lookup(MapOf(v.modules), pin.module_) == pin.version
  }

  ghost predicate PinsPreserved(s: State, v: Admission) {
    forall p :: p in s.pins && s.pins[p].environment == v.environment ==> Preserves(v, s.pins[p])
  }

  /******* Authorize, settle, seal *******/

  function ReceiptOf(v: Admission, epoch: nat, outcome: Option<Outcome>): Receipt {
    Receipt(v.id, v.project, v.environment, v.digest, epoch, v.mode, outcome)
  }

  /** The first check that fails, in the order of the source; v is canonical. */
  ghost function AuthorizeError(s: State, v: Admission, policy: Policy): Option<Error> {
    if ScopeError(s, v).Some? then ScopeError(s, v) else LifecycleError(s, v, policy)
  }

  /** The checks before the lifecycle: form, identity, barrier, Environment and Pins. */
  ghost function ScopeError(s: State, v: Admission): Option<Error> {
    if !Valid(v) then Some(BadRequest)
    else if v.id in s.guards && (Canonical(s.guards[v.id].intent) != v || s.guards[v.id].outcome.Some?) then Some(Conflict)
    else if v.id !in s.guards && !Barrier(s, v.environment) then Some(Busy)
    else if v.environment !in s.envs.rows then Some(NotFound)
    else if !InScope(s.envs.rows[v.environment], v) then Some(Conflict)
    else if !PinsPreserved(s, v) then Some(PinProtection)
    else None
  }

  /** The lifecycle decision on what the authorization reads. */
  ghost function LifecycleError(s: State, v: Admission, policy: Policy): Option<Error> {
    Verdict(EvidenceFor(s, v.environment, policy), v, SortedKeys(MapOf(v.modules).Keys))
  }

  /** The receipt of an authorization: a replay keeps its epoch, a new admission takes the next one. */
  function AuthorizeReceipt(s: State, v: Admission): Receipt {
    ReceiptOf(v, if v.id in s.guards then s.guards[v.id].epoch else Epoch(s, v.environment) + 1, None)
  }

  ghost function AuthorizeResult(s: State, value: Admission, policy: Policy): Result<Receipt, Error> {
    var error := AuthorizeError(s, Canonical(value), policy);
    if error.Some? then Err(error.value) else Ok(AuthorizeReceipt(s, Canonical(value)))
  }

  /** Advances the epoch and inserts a guard that carries it. */
  function InsertGuard(s: State, v: Admission, outcome: Option<Outcome>): State {
    var epoch := Epoch(s, v.environment) + 1;
    s.(epochs := s.epochs[v.environment := epoch], guards := s.guards[v.id := Guard(v, epoch, outcome)])
  }

  function SetOutcome(s: State, id: Uuid, outcome: Outcome): State
    requires id in s.guards
  {
    s.(guards := s.guards[id := s.guards[id].(outcome := Some(outcome))])
  }

  ghost function Authorize(s: State, value: Admission, policy: Policy): State {
    if AuthorizeError(s, Canonical(value), policy).None? && value.id !in s.guards then InsertGuard(s, Canonical(value), None) else s
  }

  function SettleResult(s: State, id: Uuid, project: Uuid, e: Uuid, digest: string, outcome: Outcome): Result<Receipt, Error> {
    if id !in s.guards then Err(NotFound)
    else
      var g := s.guards[id];
      if g.intent.environment != e || g.intent.project != project || g.intent.digest != digest
         || (g.outcome.Some? && g.outcome.value != outcome)
      then Err(Conflict)
      else Ok(ReceiptOf(g.intent, g.epoch, Some(outcome)))
  }

  function Settle(s: State, id: Uuid, project: Uuid, e: Uuid, digest: string, outcome: Outcome): State {
    if SettleResult(s, id, project, e, digest, outcome).Ok? then SetOutcome(s, id, outcome) else s
  }

  function SealResult(s: State, value: Admission): Result<Receipt, Error> {
    var v := Canonical(value);
    if !Valid(v) then Err(BadRequest)
    else if v.id !in s.guards then Ok(ReceiptOf(v, Epoch(s, v.environment) + 1, Some(Absent)))
    else if Canonical(s.guards[v.id].intent) != v || !(s.guards[v.id].outcome in {None, Some(Absent)}) then Err(Conflict)
    else Ok(ReceiptOf(v, s.guards[v.id].epoch, Some(Absent)))
  }

  function Seal(s: State, value: Admission): State {
    if SealResult(s, value).Err? then s
    else if value.id in s.guards then SetOutcome(s, value.id, Absent)
    else InsertGuard(s, Canonical(value), Some(Absent))
  }

  /******* Pins *******/

  function SetPin(s: State, p: Uuid, pin: Pin): State {
    s.(pins := s.pins[p := pin])
  }

  /** The partial unique index on protected Pins. */
  ghost predicate Taken(s: State, e: Uuid, m: Uuid) {
    exists p :: ProtectedPin(s, p, e) && s.pins[p].module_ == m
  }

  ghost function CreatePinError(s: State, p: Uuid, e: Uuid, m: Uuid, version: Uuid, epoch: int, defectiveAllowed: bool): Option<Error> {
    if EpochError(s, e, epoch).Some? then EpochError(s, e, epoch)
    else if version == NIL || version !in s.catalogue.versions || s.catalogue.versions[version].module_ != m then Some(NotFound)
    else if s.catalogue.versions[version].lifecycle.Defective? && !defectiveAllowed then Some(BadRequest)
    else if Taken(s, e, m) || p in s.pins then Some(Conflict)
    else None
  }

  predicate ValidTransition(before: PinStatus, after: PinStatus) {
    match before
    case Active => after.Active? || after.OverridePending? || after.Removed?
    case OverridePending => after.OverridePending? || after.Active? || after.Overridden?
    case Overridden => after.Overridden? || after.Active? || after.Removed?
    case Removed => after.Removed?
  }

  function Moved(pin: Pin, to: PinStatus, operation: Option<Uuid>, target: Option<Uuid>): Pin {
    if to.Active? || to.Removed? then pin.(status := to, revision := pin.revision + 1, operation := None, target := None)
    else pin.(status := to, revision := pin.revision + 1,
              operation := if operation.Some? then operation else pin.operation,
              target := if target.Some? then target else pin.target)
  }

  /** The one function that changes a Pin's status; the epoch is checked first where the handler gathered evidence. */
  ghost function TransitionError(s: State, p: Uuid, expected: int, to: PinStatus, operation: Option<Uuid>, target: Option<Uuid>, evidence: Option<int>): Option<Error> {
    if p !in s.pins then Some(NotFound)
    else
      var pin := s.pins[p];
      if evidence.Some? && EpochError(s, pin.environment, evidence.value).Some? then EpochError(s, pin.environment, evidence.value)
      else if to.Active? && pin.status.Overridden? && !Barrier(s, pin.environment) then Some(Busy)
      else if pin.revision != expected then Some(Conflict)
      else if pin.status.OverridePending? && to.Removed? then Some(Conflict)
      else if !ValidTransition(pin.status, to) then Some(BadRequest)
      else if pin.status == to then None
      else if to.OverridePending? && (operation.None? || target.None?) then Some(BadRequest)
      else if (pin.status.OverridePending? || pin.status.Overridden?) && operation.Some? && pin.operation != operation then Some(Conflict)
      else if Protected(to) && !Protected(pin.status) && Taken(s, pin.environment, pin.module_) then Some(Failed)
      else None
  }

  /******* Steps *******/

  datatype Step =
    | Authorizing(value: Admission, policy: Policy)
    | Settling(id: Uuid, project: Uuid, e: Uuid, digest: string, outcome: Outcome)
    | Sealing(value: Admission)
    | CreatingPin(p: Uuid, e: Uuid, m: Uuid, version: Uuid, epoch: int, defectiveAllowed: bool)
    | MovingPin(p: Uuid, expected: int, to: PinStatus, operation: Option<Uuid>, target: Option<Uuid>, evidence: Option<int>)
    | Recording(d: Uuid, e: Uuid)            // an authorized dispatch whose Pins are preserved
    | Recovering(d: Uuid, e: Uuid)           // safety recovery of a dispatch that may never have been recorded
    | Withdrawing(d: Uuid)
    | Completing(d: Uuid, noEffect: bool)
    | ChangingEnvironment(step: E.Step)
    | ChangingCatalogue(catalogue: Catalogue)

  function InsertDispatch(s: State, d: Uuid, e: Uuid, phase: Phase): State {
    s.(epochs := s.epochs[e := Epoch(s, e) + 1], dispatches := s.dispatches[d := Dispatch(e, phase)])
  }

  function SetPhase(s: State, d: Uuid, phase: Phase): State
    requires d in s.dispatches
  {
    s.(dispatches := s.dispatches[d := s.dispatches[d].(phase := phase)])
  }

  /** Removing an Environment removes its Pins first. */
  function DropPins(s: State, e: Uuid): State {
    s.(pins := map p | p in s.pins :: Dropped(s.pins[p], e))
  }

  ghost predicate HasPending(s: State, e: Uuid) {
    exists p :: ProtectedPin(s, p, e) && s.pins[p].status.OverridePending?
  }

  ghost function ChangeEnvironment(s: State, step: E.Step): State {
    if (step.Delete? || step.Remove?) && step.blocked != HasPending(s, step.e) then s
    else if step.Remove? && E.Outcome(s.envs, step).Ok? then DropPins(s, step.e).(envs := E.Do(s.envs, step))
    else s.(envs := E.Do(s.envs, step))
  }

  ghost function Do(s: State, step: Step): State {
    match step
    case Authorizing(value, policy) => Authorize(s, value, policy)
    case Settling(id, project, e, digest, outcome) => Settle(s, id, project, e, digest, outcome)
    case Sealing(value) => Seal(s, value)
    case CreatingPin(p, e, m, version, epoch, allowed) =>
      if CreatePinError(s, p, e, m, version, epoch, allowed).Some? then s
      else SetPin(s, p, Pin(e, m, version, Active, 1, None, None))
    case MovingPin(p, expected, to, operation, target, evidence) =>
      if TransitionError(s, p, expected, to, operation, target, evidence).Some? || s.pins[p].status == to then s
      else SetPin(s, p, Moved(s.pins[p], to, operation, target))
    case Recording(d, e) => if d in s.dispatches || !Barrier(s, e) then s else InsertDispatch(s, d, e, Open)
    case Recovering(d, e) =>
      if d !in s.dispatches then InsertDispatch(s, d, e, Withdrawn)
      else if s.dispatches[d] == Dispatch(e, Open) then SetPhase(s, d, Withdrawn) else s
    case Withdrawing(d) => if d in s.dispatches && s.dispatches[d].phase.Open? then SetPhase(s, d, Withdrawn) else s
    case Completing(d, noEffect) =>
      if d in s.dispatches && (noEffect ==> s.dispatches[d].phase.Withdrawn?) then SetPhase(s, d, Settled) else s
    case ChangingEnvironment(change) => ChangeEnvironment(s, change)
    case ChangingCatalogue(catalogue) => s.(catalogue := catalogue)
  }

  ghost function Run(s: State, steps: seq<Step>): State
    decreases |steps|
  {
    if |steps| == 0 then s else Run(Do(s, steps[0]), steps[1..])
  }

  /******* Invariant *******/

  ghost predicate GuardInv(epochs: map<Uuid, nat>, id: Uuid, g: Guard) {
    && g.intent.id == id && Valid(g.intent) && Canonical(g.intent) == g.intent
    && g.intent.environment in epochs && 1 <= g.epoch <= epochs[g.intent.environment]
  }

  ghost predicate GuardsInv(guards: map<Uuid, Guard>, epochs: map<Uuid, nat>) {
    forall id :: id in guards ==> GuardInv(epochs, id, guards[id])
  }

  /** Guards of one Environment have different epochs, and at most one of them is unresolved. */
  predicate Compatible(g: Guard, h: Guard) {
    g.intent.environment == h.intent.environment ==> g.epoch != h.epoch && !(g.outcome.None? && h.outcome.None?)
  }

  ghost predicate OneGuard(guards: map<Uuid, Guard>) {
    forall i, j :: i in guards && j in guards && i != j ==> Compatible(guards[i], guards[j])
  }

  predicate Clear(g: Guard, d: Dispatch) {
    g.intent.environment == d.environment && d.phase.Open? ==> g.outcome.Some?
  }

  ghost predicate GuardsClear(guards: map<Uuid, Guard>, dispatches: map<Uuid, Dispatch>) {
    forall i, d :: i in guards && d in dispatches ==> Clear(guards[i], dispatches[d])
  }

  predicate Apart(c: Dispatch, d: Dispatch) {
    c.environment == d.environment ==> !(c.phase.Open? && d.phase.Open?)
  }

  ghost predicate OneDispatch(dispatches: map<Uuid, Dispatch>) {
    forall c, d :: c in dispatches && d in dispatches && c != d ==> Apart(dispatches[c], dispatches[d])
  }

  predicate Rivals(p: Pin, q: Pin) {
    Protected(p.status) && Protected(q.status) && p.environment == q.environment && p.module_ == q.module_
  }

  /** A Pin has an owning operation and its target exactly while an override is pending or done. */
  predicate Owned(pin: Pin) {
    (pin.status.OverridePending? || pin.status.Overridden? <==> pin.operation.Some?) && (pin.operation.Some? <==> pin.target.Some?)
  }

  ghost predicate PinsInv(pins: map<Uuid, Pin>) {
    && (forall p :: p in pins ==> pins[p].version != NIL && Owned(pins[p]))
    && (forall p, q :: p in pins && q in pins && p != q ==> !Rivals(pins[p], pins[q]))
  }

  /** The guard, if unresolved and not a destroy, maps a protected Pin's Module to its Version. */
  predicate Honours(g: Guard, pin: Pin) {
    g.outcome.None? && !g.intent.mode.Destroy? && pin.environment == g.intent.environment && Protected(pin.status) ==>
      Lookup(MapOf(g.intent.modules), pin.module_) == pin.version
  }

  ghost predicate ProtectionInv(guards: map<Uuid, Guard>, pins: map<Uuid, Pin>) {
    forall id, p :: id in guards && p in pins ==> Honours(guards[id], pins[p])
  }

  function GuardsOf(guards: map<Uuid, Guard>, e: Uuid): set<Uuid> {
    set id | id in guards && guards[id].intent.environment == e
  }

  function DispatchesOf(dispatches: map<Uuid, Dispatch>, e: Uuid): set<Uuid> {
    set d | d in dispatches && dispatches[d].environment == e
  }

  /** The epoch counts the admissions and dispatches ever inserted. */
  predicate Counted(guards: map<Uuid, Guard>, dispatches: map<Uuid, Dispatch>, epochs: map<Uuid, nat>, e: Uuid) {
    (if e in epochs then epochs[e] else 0) == |GuardsOf(guards, e)| + |DispatchesOf(dispatches, e)|
  }

  ghost predicate EpochInv(guards: map<Uuid, Guard>, dispatches: map<Uuid, Dispatch>, epochs: map<Uuid, nat>) {
    forall e :: Counted(guards, dispatches, epochs, e)
  }

  ghost predicate Inv(s: State) {
    && GuardsInv(s.guards, s.epochs) && OneGuard(s.guards) && GuardsClear(s.guards, s.dispatches) && OneDispatch(s.dispatches)
    && PinsInv(s.pins) && ProtectionInv(s.guards, s.pins) && EpochInv(s.guards, s.dispatches, s.epochs) && E.Inv(s.envs)
  }

  /******* What each kind of write keeps *******/

  lemma GuardAdded(guards: map<Uuid, Guard>, id: Uuid, g: Guard, e: Uuid)
    requires id !in guards
    ensures GuardsOf(guards[id := g], e) == GuardsOf(guards, e) + if e == g.intent.environment then {id} else {}
    ensures id !in GuardsOf(guards, e)
  {
  }

  lemma GuardCounted(guards: map<Uuid, Guard>, dispatches: map<Uuid, Dispatch>, epochs: map<Uuid, nat>, id: Uuid, g: Guard, next: nat)
    requires EpochInv(guards, dispatches, epochs) && id !in guards
    requires next == (if g.intent.environment in epochs then epochs[g.intent.environment] else 0) + 1
    ensures EpochInv(guards[id := g], dispatches, epochs[g.intent.environment := next])
  {
    var later, more := epochs[g.intent.environment := next], guards[id := g];
    forall x ensures Counted(more, dispatches, later, x) {
      assert Counted(guards, dispatches, epochs, x);
      GuardAdded(guards, id, g, x);
    }
  }

  lemma DispatchAdded(dispatches: map<Uuid, Dispatch>, id: Uuid, d: Dispatch, e: Uuid)
    requires id !in dispatches
    ensures DispatchesOf(dispatches[id := d], e) == DispatchesOf(dispatches, e) + if e == d.environment then {id} else {}
    ensures id !in DispatchesOf(dispatches, e)
  {
  }

  lemma DispatchCounted(guards: map<Uuid, Guard>, dispatches: map<Uuid, Dispatch>, epochs: map<Uuid, nat>, id: Uuid, d: Dispatch)
    requires EpochInv(guards, dispatches, epochs) && id !in dispatches
    ensures var e := d.environment;
            EpochInv(guards, dispatches[id := d], epochs[e := (if e in epochs then epochs[e] else 0) + 1])
  {
    var e := d.environment;
    var later, more := epochs[e := (if e in epochs then epochs[e] else 0) + 1], dispatches[id := d];
    forall x ensures Counted(guards, more, later, x) {
      assert Counted(guards, dispatches, epochs, x);
      DispatchAdded(dispatches, id, d, x);
    }
  }

  lemma Advanced(guards: map<Uuid, Guard>, epochs: map<Uuid, nat>, e: Uuid)
    requires GuardsInv(guards, epochs)
    ensures GuardsInv(guards, epochs[e := (if e in epochs then epochs[e] else 0) + 1])
  {
    var later := epochs[e := (if e in epochs then epochs[e] else 0) + 1];
    forall id | id in guards ensures GuardInv(later, id, guards[id]) { assert GuardInv(epochs, id, guards[id]); }
  }

  lemma GuardsWith(guards: map<Uuid, Guard>, epochs: map<Uuid, nat>, id: Uuid, g: Guard)
    requires GuardsInv(guards, epochs) && GuardInv(epochs, id, g)
    ensures GuardsInv(guards[id := g], epochs)
  {
    var more := guards[id := g];
    forall i | i in more ensures GuardInv(epochs, i, more[i]) {
      if i != id { assert GuardInv(epochs, i, guards[i]); }
    }
  }

  lemma OneGuardWith(guards: map<Uuid, Guard>, id: Uuid, g: Guard)
    requires OneGuard(guards)
    requires forall i :: i in guards && i != id ==> Compatible(guards[i], g)
    ensures OneGuard(guards[id := g])
  {
    var more := guards[id := g];
    forall i, j | i in more && j in more && i != j ensures Compatible(more[i], more[j]) {
      if i == id { assert Compatible(guards[j], g); } else if j == id { assert Compatible(guards[i], g); }
    }
  }

  lemma InsertedSound(s: State, v: Admission, outcome: Option<Outcome>)
    requires GuardsInv(s.guards, s.epochs) && Valid(v) && Canonical(v) == v
    ensures var t := InsertGuard(s, v, outcome); GuardsInv(t.guards, t.epochs)
  {
    var t := InsertGuard(s, v, outcome);
    Advanced(s.guards, s.epochs, v.environment);
    GuardsWith(s.guards, t.epochs, v.id, t.guards[v.id]);
  }

  lemma Inserted(s: State, v: Admission, outcome: Option<Outcome>)
    ensures var next := Epoch(s, v.environment) + 1;
            InsertGuard(s, v, outcome) ==
            State(s.envs, s.catalogue, s.guards[v.id := Guard(v, next, outcome)], s.epochs[v.environment := next], s.pins, s.dispatches)
  {
  }

  lemma KeepInsertGuard(s: State, v: Admission, outcome: Option<Outcome>)
    requires Inv(s) && v.id !in s.guards
    requires outcome.None? ==> Barrier(s, v.environment) && PinsPreserved(s, v)
    requires var t := InsertGuard(s, v, outcome); GuardsInv(t.guards, t.epochs)
    ensures Inv(InsertGuard(s, v, outcome))
  {
    var next := Epoch(s, v.environment) + 1;
    var g := Guard(v, next, outcome);
    Inserted(s, v, outcome);
    GuardCounted(s.guards, s.dispatches, s.epochs, v.id, g, next);
    InsertedCompatible(s, v, g);
    OneGuardWith(s.guards, v.id, g);
    InsertedBeside(s, v, g);
  }

  lemma InsertedCompatible(s: State, v: Admission, g: Guard)
    requires GuardsInv(s.guards, s.epochs) && g.intent == v && g.epoch == Epoch(s, v.environment) + 1
    requires g.outcome.None? ==> Barrier(s, v.environment)
    ensures forall i :: i in s.guards ==> Compatible(s.guards[i], g)
  {
    forall i | i in s.guards ensures Compatible(s.guards[i], g) {
      assert GuardInv(s.epochs, i, s.guards[i]);
      assert g.outcome.None? ==> !UnresolvedIn(s, i, v.environment);
    }
  }

  lemma InsertedBeside(s: State, v: Admission, g: Guard)
    requires Inv(s) && g.intent == v && (g.outcome.None? ==> Barrier(s, v.environment) && PinsPreserved(s, v))
    ensures GuardsClear(s.guards[v.id := g], s.dispatches) && ProtectionInv(s.guards[v.id := g], s.pins)
  {
    forall d | d in s.dispatches ensures Clear(g, s.dispatches[d]) {
      assert g.outcome.None? ==> !PendingIn(s, d, v.environment);
    }
    forall p | p in s.pins ensures Honours(g, s.pins[p]) {
      assert g.outcome.None? && s.pins[p].environment == v.environment ==> Preserves(v, s.pins[p]);
    }
  }

  lemma KeepSetOutcome(s: State, id: Uuid, outcome: Outcome)
    requires Inv(s) && id in s.guards
    ensures Inv(SetOutcome(s, id, outcome))
  {
    var t := SetOutcome(s, id, outcome);
    var g := t.guards[id];
    assert GuardInv(s.epochs, id, s.guards[id]) && GuardInv(s.epochs, id, g);
    GuardsWith(s.guards, s.epochs, id, g);
    forall i | i in s.guards && i != id ensures Compatible(s.guards[i], g) { assert Compatible(s.guards[i], s.guards[id]); }
    OneGuardWith(s.guards, id, g);
    forall e ensures Counted(t.guards, t.dispatches, t.epochs, e) {
      assert Counted(s.guards, s.dispatches, s.epochs, e);
      OutcomeCounts(s, id, outcome, e);
    }
  }

  lemma OutcomeCounts(s: State, id: Uuid, outcome: Outcome, e: Uuid)
    requires id in s.guards
    ensures GuardsOf(SetOutcome(s, id, outcome).guards, e) == GuardsOf(s.guards, e)
  {
  }

  /** A Pin that becomes protected needs the barrier and a free Module; one that already was keeps its Module and Version. */
  lemma KeepSetPin(s: State, p: Uuid, pin: Pin)
    requires Inv(s) && pin.version != NIL && Owned(pin)
    requires Protected(pin.status) ==>
               || (ProtectedPin(s, p, pin.environment) && s.pins[p].module_ == pin.module_ && s.pins[p].version == pin.version)
               || (Barrier(s, pin.environment) && !Taken(s, pin.environment, pin.module_))
    ensures Inv(SetPin(s, p, pin))
  {
    var t := SetPin(s, p, pin);
    forall q | q in s.pins && q != p ensures !Rivals(pin, s.pins[q]) && !Rivals(s.pins[q], pin) {
      if Protected(pin.status) && Protected(s.pins[q].status) && s.pins[q].environment == pin.environment {
        assert ProtectedPin(s, q, pin.environment);
        assert p in s.pins ==> !Rivals(s.pins[p], s.pins[q]);
      }
    }
    forall i | i in s.guards ensures Honours(s.guards[i], pin) {
      assert Barrier(s, pin.environment) ==> !UnresolvedIn(s, i, pin.environment);
      assert p in s.pins ==> Honours(s.guards[i], s.pins[p]);
    }
  }

  function Dropped(pin: Pin, e: Uuid): Pin {
    if pin.environment == e && !pin.status.Removed? then Moved(pin, Removed, None, None) else pin
  }

  lemma DroppedPin(pin: Pin, e: Uuid)
    requires pin.version != NIL && Owned(pin)
    ensures Dropped(pin, e).version != NIL && Owned(Dropped(pin, e))
    ensures Protected(Dropped(pin, e).status) ==> Dropped(pin, e) == pin
  {
  }

  lemma KeepDropPins(s: State, e: Uuid)
    requires Inv(s)
    ensures Inv(DropPins(s, e))
  {
    var t := DropPins(s, e);
    forall p | p in t.pins ensures t.pins[p] == Dropped(s.pins[p], e) && t.pins[p].version != NIL && Owned(t.pins[p])
      ensures Protected(t.pins[p].status) ==> t.pins[p] == s.pins[p]
    {
      DroppedPin(s.pins[p], e);
    }
    forall p, q | p in t.pins && q in t.pins && p != q ensures !Rivals(t.pins[p], t.pins[q]) { assert !Rivals(s.pins[p], s.pins[q]); }
    forall i, p | i in t.guards && p in t.pins ensures Honours(t.guards[i], t.pins[p]) { assert Honours(s.guards[i], s.pins[p]); }
  }

  lemma DispatchInserted(s: State, d: Uuid, e: Uuid, phase: Phase)
    ensures InsertDispatch(s, d, e, phase) ==
            State(s.envs, s.catalogue, s.guards, s.epochs[e := Epoch(s, e) + 1], s.pins, s.dispatches[d := Dispatch(e, phase)])
  {
  }

  lemma OneDispatchWith(s: State, d: Uuid, x: Dispatch)
    requires OneDispatch(s.dispatches) && GuardsClear(s.guards, s.dispatches) && (x.phase.Open? ==> Barrier(s, x.environment))
    ensures OneDispatch(s.dispatches[d := x]) && GuardsClear(s.guards, s.dispatches[d := x])
  {
    forall i | i in s.guards ensures Clear(s.guards[i], x) { assert x.phase.Open? ==> !UnresolvedIn(s, i, x.environment); }
    forall c | c in s.dispatches ensures Apart(s.dispatches[c], x) && Apart(x, s.dispatches[c]) {
      assert x.phase.Open? ==> !PendingIn(s, c, x.environment);
    }
  }

  lemma KeepInsertDispatch(s: State, d: Uuid, e: Uuid, phase: Phase)
    requires Inv(s) && d !in s.dispatches && (phase.Open? ==> Barrier(s, e))
    ensures Inv(InsertDispatch(s, d, e, phase))
  {
    var x := Dispatch(e, phase);
    DispatchInserted(s, d, e, phase);
    Advanced(s.guards, s.epochs, e);
    DispatchCounted(s.guards, s.dispatches, s.epochs, d, x);
    OneDispatchWith(s, d, x);
  }

  lemma KeepSetPhase(s: State, d: Uuid, phase: Phase)
    requires Inv(s) && d in s.dispatches && !phase.Open?
    ensures Inv(SetPhase(s, d, phase))
  {
    var t := SetPhase(s, d, phase);
    forall e ensures Counted(t.guards, t.dispatches, t.epochs, e) {
      assert Counted(s.guards, s.dispatches, s.epochs, e);
      assert DispatchesOf(t.dispatches, e) == DispatchesOf(s.dispatches, e);
    }
  }

  /******* Every step keeps the invariant *******/

  lemma AuthorizeKeeps(s: State, value: Admission, policy: Policy)
    requires Inv(s)
    ensures Inv(Authorize(s, value, policy))
  {
    if AuthorizeResult(s, value, policy).Ok? && value.id !in s.guards {
      CanonicalIdempotent(value);
      InsertedSound(s, Canonical(value), None);
      KeepInsertGuard(s, Canonical(value), None);
    }
  }

  lemma SealNewKeeps(s: State, value: Admission)
    requires Inv(s) && Valid(Canonical(value)) && value.id !in s.guards
    ensures Inv(InsertGuard(s, Canonical(value), Some(Absent)))
  {
    CanonicalIdempotent(value);
    InsertedSound(s, Canonical(value), Some(Absent));
    KeepInsertGuard(s, Canonical(value), Some(Absent));
  }

  lemma SealKeeps(s: State, value: Admission)
    requires Inv(s)
    ensures Inv(Seal(s, value))
  {
    if SealResult(s, value).Ok? {
      if value.id in s.guards { KeepSetOutcome(s, value.id, Absent); } else { SealNewKeeps(s, value); }
    }
  }

  lemma PinKeeps(s: State, step: Step)
    requires Inv(s) && (step.CreatingPin? || step.MovingPin?)
    ensures Inv(Do(s, step))
  {
    if Do(s, step) != s {
      KeepSetPin(s, step.p, Do(s, step).pins[step.p]);
    }
  }

  lemma EnvironmentKeeps(s: State, change: E.Step)
    requires Inv(s)
    ensures Inv(ChangeEnvironment(s, change))
  {
    E.DoKeeps(s.envs, change);
    if change.Remove? { KeepDropPins(s, change.e); }
  }

  lemma DoKeeps(s: State, step: Step)
    requires Inv(s)
    ensures Inv(Do(s, step))
  {
    match step
    case Authorizing(value, policy) => AuthorizeKeeps(s, value, policy);
    case Settling(id, project, e, digest, outcome) =>
      if id in s.guards { KeepSetOutcome(s, id, outcome); }
    case Sealing(value) => SealKeeps(s, value);
    case CreatingPin(_, _, _, _, _, _) => PinKeeps(s, step);
    case MovingPin(_, _, _, _, _, _) => PinKeeps(s, step);
    case Recording(d, e) => if d !in s.dispatches && Barrier(s, e) { KeepInsertDispatch(s, d, e, Open); }
    case Recovering(d, e) =>
      if d !in s.dispatches { KeepInsertDispatch(s, d, e, Withdrawn); } else { KeepSetPhase(s, d, Withdrawn); }
    case Withdrawing(d) => if d in s.dispatches { KeepSetPhase(s, d, Withdrawn); }
    case Completing(d, _) => if d in s.dispatches { KeepSetPhase(s, d, Settled); }
    case ChangingEnvironment(change) => EnvironmentKeeps(s, change);
    case ChangingCatalogue(_) =>
  }

  lemma {:induction false} RunKeeps(s: State, steps: seq<Step>)
    requires Inv(s)
    ensures Inv(Run(s, steps))
    decreases |steps|
  {
    if |steps| > 0 {
      DoKeeps(s, steps[0]);
      RunKeeps(Do(s, steps[0]), steps[1..]);
    }
  }

  lemma EmptyInv()
    ensures Inv(EMPTY)
  {
    forall e ensures Counted(EMPTY.guards, EMPTY.dispatches, EMPTY.epochs, e) {
      assert GuardsOf(EMPTY.guards, e) == {} && DispatchesOf(EMPTY.dispatches, e) == {};
    }
  }
}
