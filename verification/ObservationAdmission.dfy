/**
 Observation and redeployment admission of one plugin in one organization.
 Handlers are processes that interleave at every statement, may crash anywhere
 and may lose their database session, which releases its locks, without
 noticing. `log` records, in order, every committed row, every committed closure,
 every stored response and every request that was started towards the Data Plane.
 */
module ObservationAdmission {
  import opened Base
  import G = ObservationGrants

  type Uuid = nat
  type Digest = nat
  type ProcId = nat

  datatype Kind = Observation | Redeployment

  datatype Key = Key(kind: Kind, id: Uuid)

  // environment_observation_requests and environment_observation_redeployments. A redeployment
  // names the observed run and its request; an observation names the grant it was made under.
  datatype Row =
    | Request(digest: Digest, actor: Uuid, grant: Uuid, revision: nat, target: G.Target, response: Option<nat>)
    | Redeploy(digest: Digest, actor: Uuid, run: Uuid, observed: Uuid)

  datatype ClosureState = CloseRequested | Accepted | NotStarted

  datatype Closure = Closure(digest: Digest, run: Option<Uuid>, actor: Option<Uuid>, state: ClosureState, response: Option<nat>)

  datatype Stage =
    | Arrived      // nothing done yet
    | Intent       // intent transaction: lock held, admission open, authority checked
    | Recorded     // intent committed
    | Effect       // effect transaction: lock held, admission open, authority and row rechecked
    | Called       // the Data Plane call was started in the effect transaction
    | Closing      // closing transaction: lock held
    | Closed       // closure committed
    | Resolving    // resolving transaction: lock held, unresolved closure read

  // `since` is the time its authority was last checked.
  datatype Proc = Proc(key: Key, row: Row, run: Option<Uuid>, stage: Stage, lost: bool, since: int)

  datatype Note =
    | RowCommitted(key: Key, digest: Digest, actor: Uuid)
    | Sent(key: Key, digest: Digest, actor: Uuid, lost: bool)
    | ResponseStored(key: Key, response: nat)
    | ClosureCommitted(key: Key)

  datatype State = State(
    rows: map<Key, Row>,
    closures: map<Key, Closure>,
    grants: G.Store,
    procs: map<ProcId, Proc>,
    log: seq<Note>)

  datatype Move =
    | Arrive(p: ProcId, key: Key, row: Row, run: Option<Uuid>)
    | BeginIntent(p: ProcId, now: int)
    | CommitIntent(p: ProcId)
    | BeginEffect(p: ProcId, now: int)
    | Send(p: ProcId)
    | CommitEffect(p: ProcId, response: nat)
    | BeginClose(p: ProcId)
    | CommitClose(p: ProcId, response: nat)
    | BeginResolve(p: ProcId)
    | CommitResolve(p: ProcId, accepted: bool, response: nat)
    | Lookup(key: Key, response: nat)
    | ChangeGrant(step: G.Step)  // a grant command, or an Environment placed or removed
    | LoseSession(p: ProcId)
    | Stop(p: ProcId)

  predicate HoldsLock(x: Proc) {
    !x.lost && (x.stage.Intent? || x.stage.Effect? || x.stage.Called? || x.stage.Closing? || x.stage.Resolving?)
  }

  /** In a submission transaction, which also holds the grant row. */
  predicate Submitting(x: Proc) {
    !x.lost && (x.stage.Intent? || x.stage.Effect? || x.stage.Called?)
  }

  ghost predicate LockFree(s: State, key: Key) {
    forall p :: p in s.procs && s.procs[p].key == key ==> !HoldsLock(s.procs[p])
  }

  ghost predicate GrantFree(s: State, g: Uuid) {
    forall p :: p in s.procs && s.procs[p].row.Request? && s.procs[p].row.grant == g ==> !Submitting(s.procs[p])
  }

  /** The request row's own lock: read FOR UPDATE in the effect transaction. */
  ghost predicate RowFree(s: State, key: Key) {
    forall p :: p in s.procs && s.procs[p].key == key ==>
                  !(!s.procs[p].lost && (s.procs[p].stage.Effect? || s.procs[p].stage.Called?))
  }

  /**
   Current forward authority of an observation at a time: the indexed check of its exact target under the grant's
   current, active and unexpired revision, and the grant's actor. A redeployment's fresh proof is checked outside Core's state.
   */
  predicate Authorized(s: State, row: Row, now: int) {
    row.Request? ==>
      && G.IndexedCheck(s.grants, row.grant, row.revision, row.target, now)
      && s.grants.grants[row.grant].actor == row.actor
  }

  /** The stored row identifies the same exact request. */
  predicate SameRequest(stored: Row, row: Row) {
    && stored.digest == row.digest && stored.actor == row.actor
    && (match (stored, row)
        case (Request(_, _, g, r, _, _), Request(_, _, g', r', _, _)) => g == g' && r == r'
        case (Redeploy(_, _, run, o), Redeploy(_, _, run', o')) => run == run' && o == o'
        case _ => false)
  }

  predicate Fits(key: Key, row: Row) {
    key.kind.Observation? <==> row.Request?
  }

  function RunOf(row: Row): Option<Uuid> {
    if row.Redeploy? then Some(row.run) else None
  }

  ghost predicate Enabled(s: State, m: Move) {
    match m
    case Arrive(p, key, row, run) =>
      p !in s.procs && Fits(key, row) && (row.Request? ==> row.response.None?) && (key.kind.Observation? <==> run.None?)
    case BeginIntent(p, now) =>
      && p in s.procs && s.procs[p].stage.Arrived? && !s.procs[p].lost
      && LockFree(s, s.procs[p].key) && s.procs[p].key !in s.closures && Authorized(s, s.procs[p].row, now)
      && (s.procs[p].row.Request? ==> GrantFree(s, s.procs[p].row.grant))
    case CommitIntent(p) =>
      && p in s.procs && s.procs[p].stage.Intent? && !s.procs[p].lost
      && (s.procs[p].key in s.rows ==> SameRequest(s.rows[s.procs[p].key], s.procs[p].row))
    case BeginEffect(p, now) =>
      && p in s.procs && s.procs[p].stage.Recorded? && !s.procs[p].lost
      && LockFree(s, s.procs[p].key) && s.procs[p].key !in s.closures && Authorized(s, s.procs[p].row, now)
      && (s.procs[p].row.Request? ==> GrantFree(s, s.procs[p].row.grant))
      && s.procs[p].key in s.rows && SameRequest(s.rows[s.procs[p].key], s.procs[p].row)
      && (s.rows[s.procs[p].key].Request? ==> s.rows[s.procs[p].key].response.None?)
    case Send(p) => p in s.procs && s.procs[p].stage.Effect?
    case CommitEffect(p, _) => p in s.procs && s.procs[p].stage.Called? && !s.procs[p].lost
    case BeginClose(p) =>
      p in s.procs && s.procs[p].stage.Arrived? && !s.procs[p].lost && LockFree(s, s.procs[p].key)
    case CommitClose(p, _) =>
      && p in s.procs && s.procs[p].stage.Closing? && !s.procs[p].lost
      && var x := s.procs[p];
         if x.key in s.closures then s.closures[x.key].digest == x.row.digest && s.closures[x.key].run == x.run
         else x.key in s.rows ==> s.rows[x.key].digest == x.row.digest && RunOf(s.rows[x.key]) == x.run
    case BeginResolve(p) =>
      && p in s.procs && s.procs[p].stage.Closed? && !s.procs[p].lost && LockFree(s, s.procs[p].key)
      && s.procs[p].key in s.closures && s.closures[s.procs[p].key].response.None?
      && s.closures[s.procs[p].key].actor.Some?
    case CommitResolve(p, accepted, _) =>
      p in s.procs && s.procs[p].stage.Resolving? && !s.procs[p].lost && (accepted ==> s.procs[p].key in s.rows)
    case Lookup(key, _) => key.kind.Observation? && key in s.rows && RowFree(s, key)
    case ChangeGrant(step) => step.Obey? ==> GrantFree(s, step.command.grant)
    case LoseSession(p) => p in s.procs
    case Stop(p) => p in s.procs
  }

  /** UPDATE ... SET response WHERE response IS NULL, with its note. */
  function StoreResponse(s: State, key: Key, response: nat): State {
    if key in s.rows && s.rows[key].Request? && s.rows[key].response.None?
    then s.(rows := s.rows[key := s.rows[key].(response := Some(response))], log := s.log + [ResponseStored(key, response)])
    else s
  }

  function Advance(s: State, p: ProcId, stage: Stage): State
    requires p in s.procs
  {
    s.(procs := s.procs[p := s.procs[p].(stage := stage)])
  }

  ghost function Next(s: State, m: Move): State
    requires Enabled(s, m)
  {
    match m
    case Arrive(p, key, row, run) => s.(procs := s.procs[p := Proc(key, row, run, Arrived, false, 0)])
    case BeginIntent(p, now) => s.(procs := s.procs[p := s.procs[p].(stage := Intent, since := now)])
    case CommitIntent(p) =>
      var x := s.procs[p];
      var t := Advance(s, p, Recorded);
      if x.key in s.rows then t
      else t.(rows := t.rows[x.key := x.row], log := t.log + [RowCommitted(x.key, x.row.digest, x.row.actor)])
    case BeginEffect(p, now) => s.(procs := s.procs[p := s.procs[p].(stage := Effect, since := now)])
    case Send(p) =>
      var x := s.procs[p];
      Advance(s, p, Called).(log := s.log + [Sent(x.key, x.row.digest, x.row.actor, x.lost)])
    case CommitEffect(p, response) => StoreResponse(s.(procs := s.procs - {p}), s.procs[p].key, response)
    case BeginClose(p) => Advance(s, p, Closing)
    case CommitClose(p, response) =>
      var x := s.procs[p];
      var t := Advance(s, p, Closed);
      if x.key in s.closures then t
      else
        var c := if x.key in s.rows
                 then Closure(x.row.digest, x.run, Some(s.rows[x.key].actor), CloseRequested, None)
                 else Closure(x.row.digest, x.run, None, NotStarted, Some(response));
        t.(closures := t.closures[x.key := c], log := t.log + [ClosureCommitted(x.key)])
    case BeginResolve(p) => Advance(s, p, Resolving)
    case CommitResolve(p, accepted, response) =>
      var key := s.procs[p].key;
      var t := s.(procs := s.procs - {p});
      var u := if accepted && key.kind.Observation? then StoreResponse(t, key, response) else t;
      if key in u.closures && u.closures[key].state.CloseRequested?
      then u.(closures := u.closures[key := u.closures[key].(state := if accepted then Accepted else NotStarted, response := Some(response))])
      else u
    case Lookup(key, response) => StoreResponse(s, key, response)
    case ChangeGrant(step) => s.(grants := G.Do(s.grants, step))
    case LoseSession(p) => s.(procs := s.procs[p := s.procs[p].(lost := true)])
    case Stop(p) => s.(procs := s.procs - {p})
  }

  const EMPTY := State(map[], map[], G.EMPTY, map[], [])

  ghost function Run(s: State, moves: seq<Move>): State
    decreases |moves|
  {
    if |moves| == 0 then s
    else if Enabled(s, moves[0]) then Run(Next(s, moves[0]), moves[1..])
    else Run(s, moves[1..])
  }

  /******* Invariant *******/

  /** What the stage a process is in says about the store. */
  ghost predicate ProcInv(s: State, x: Proc) {
    && Fits(x.key, x.row) && (x.row.Request? ==> x.row.response.None?)
    && (x.key.kind.Observation? <==> x.run.None?)
    && (Submitting(x) ==> x.key !in s.closures && Authorized(s, x.row, x.since))
    && (x.stage.Recorded? || x.stage.Effect? || x.stage.Called? ==>
          x.key in s.rows && SameRequest(s.rows[x.key], x.row))
    && (!x.lost && (x.stage.Effect? || x.stage.Called?) && x.row.Request? ==> s.rows[x.key].response.None?)
  }

  ghost predicate RowInv(s: State, key: Key)
    requires key in s.rows
  {
    && Fits(key, s.rows[key])
    && RowCommitted(key, s.rows[key].digest, s.rows[key].actor) in s.log
    && AnswerLogged(s.log, key, s.rows[key])
  }

  /** A stored response is the one its note carries. */
  predicate AnswerLogged(log: seq<Note>, key: Key, row: Row) {
    row.Request? && row.response.Some? ==> ResponseStored(key, row.response.value) in log
  }

  predicate IsAnswer(n: Note, key: Key) {
    n.ResponseStored? && n.key == key
  }

  ghost predicate AnsweredIn(log: seq<Note>, key: Key) {
    exists j :: 0 <= j < |log| && IsAnswer(log[j], key)
  }

  ghost predicate ClosureInv(s: State, key: Key)
    requires key in s.closures
  {
    var c := s.closures[key];
    && (c.actor.None? ==> key !in s.rows && c.state.NotStarted?)
    && (c.actor.Some? ==> key in s.rows && c.actor == Some(s.rows[key].actor) && c.digest == s.rows[key].digest && c.run == RunOf(s.rows[key]))
    && (c.state.CloseRequested? <==> c.response.None?)
  }

  /** The log read in order. */
  ghost predicate NoteInv(s: State, j: nat)
    requires j < |s.log|
  {
    match s.log[j]
    case RowCommitted(k, d, a) => k in s.rows && s.rows[k].digest == d && s.rows[k].actor == a
    case ClosureCommitted(k) => k in s.closures
    case ResponseStored(k, r) => k in s.rows && s.rows[k].Request? && s.rows[k].response == Some(r)
    case Sent(k, d, a, lost) =>
      && RowCommitted(k, d, a) in s.log[..j]
      && (ClosureCommitted(k) in s.log[..j] || AnsweredIn(s.log[..j], k) ==> lost)
  }

  /** Live sessions hold different admission locks, and different grant rows. */
  ghost predicate Apart(x: Proc, y: Proc) {
    && (x.key == y.key ==> !(HoldsLock(x) && HoldsLock(y)))
    && (x.row.Request? && y.row.Request? && x.row.grant == y.row.grant ==> !(Submitting(x) && Submitting(y)))
  }

  ghost predicate Inv(s: State) {
    && (forall p :: p in s.procs ==> ProcInv(s, s.procs[p]))
    && (forall p, q :: p in s.procs && q in s.procs && p != q ==> Apart(s.procs[p], s.procs[q]))
    && (forall k :: k in s.rows ==> RowInv(s, k))
    && (forall k :: k in s.closures ==> ClosureInv(s, k))
    && (forall j :: 0 <= j < |s.log| ==> NoteInv(s, j))
    && G.Inv(s.grants)
  }

  /******* What each kind of write keeps *******/

  lemma KeepSetProc(s: State, p: ProcId, y: Proc)
    requires Inv(s) && ProcInv(s, y)
    requires forall q :: q in s.procs && q != p ==> Apart(y, s.procs[q])
    ensures Inv(s.(procs := s.procs[p := y]))
  {
    var t := s.(procs := s.procs[p := y]);
    assert forall q :: q in t.procs ==> ProcInv(s, t.procs[q]);
    SameStore(s, t);
  }

  lemma KeepDropProc(s: State, p: ProcId)
    requires Inv(s)
    ensures Inv(s.(procs := s.procs - {p}))
  {
    SameStore(s, s.(procs := s.procs - {p}));
  }

  lemma SameStore(s: State, t: State)
    requires Inv(s) && t == s.(procs := t.procs)
    requires forall p :: p in t.procs ==> ProcInv(s, t.procs[p])
    requires forall p, q :: p in t.procs && q in t.procs && p != q ==> Apart(t.procs[p], t.procs[q])
    ensures Inv(t)
  {
    forall p | p in t.procs ensures ProcInv(t, t.procs[p]) { assert ProcInv(s, t.procs[p]); }
    forall k | k in t.rows ensures RowInv(t, k) { assert RowInv(s, k); }
    forall k | k in t.closures ensures ClosureInv(t, k) { assert ClosureInv(s, k); }
    forall j | 0 <= j < |t.log| ensures NoteInv(t, j) { assert NoteInv(s, j); }
  }

  /** Notes already in the log stay true while rows and closures are only added to. */
  lemma KeepNotes(s: State, t: State)
    requires Inv(s)
    requires |s.log| <= |t.log| && t.log[..|s.log|] == s.log
    requires forall k :: k in s.rows ==> k in t.rows && SameRequest(t.rows[k], s.rows[k])
    requires forall k :: k in s.rows && s.rows[k].Request? && s.rows[k].response.Some? ==> t.rows[k] == s.rows[k]
    requires forall k :: k in s.closures ==> k in t.closures
    ensures forall j :: 0 <= j < |s.log| ==> NoteInv(t, j)
  {
    forall j | 0 <= j < |s.log| ensures NoteInv(t, j) {
      assert NoteInv(s, j) && t.log[j] == t.log[..|s.log|][j] == s.log[j];
      assert t.log[..j] == t.log[..|s.log|][..j] == s.log[..j];
    }
  }

  lemma KeepRowNotes(s: State, t: State, k: Key)
    requires k in s.rows && RowInv(s, k) && k in t.rows && SameRequest(t.rows[k], s.rows[k])
    requires |s.log| <= |t.log| && t.log[..|s.log|] == s.log
    requires t.rows[k] == s.rows[k] || AnswerLogged(t.log, k, t.rows[k])
    ensures RowInv(t, k)
  {
    assert RowCommitted(k, s.rows[k].digest, s.rows[k].actor) in t.log[..|s.log|];
    if t.rows[k] == s.rows[k] && s.rows[k].Request? && s.rows[k].response.Some? {
      assert ResponseStored(k, s.rows[k].response.value) in t.log[..|s.log|];
    }
  }

  lemma KeepInsertRow(s: State, key: Key, row: Row)
    requires Inv(s) && key !in s.rows && key !in s.closures && Fits(key, row) && (row.Request? ==> row.response.None?)
    ensures Inv(s.(rows := s.rows[key := row], log := s.log + [RowCommitted(key, row.digest, row.actor)]))
  {
    var t := s.(rows := s.rows[key := row], log := s.log + [RowCommitted(key, row.digest, row.actor)]);
    assert t.log[..|s.log|] == s.log;
    forall p | p in t.procs ensures ProcInv(t, t.procs[p]) { assert ProcInv(s, s.procs[p]); }
    forall k | k in t.rows ensures RowInv(t, k) {
      if k == key { assert t.log[|s.log|] == RowCommitted(key, row.digest, row.actor); } else { KeepRowNotes(s, t, k); }
    }
    forall k | k in t.closures ensures ClosureInv(t, k) { assert ClosureInv(s, k); }
    KeepNotes(s, t);
    forall j | 0 <= j < |t.log| ensures NoteInv(t, j) { }
  }

  lemma KeepStoreResponse(s: State, key: Key, response: nat)
    requires Inv(s) && RowFree(s, key)
    ensures Inv(StoreResponse(s, key, response))
  {
    var t := StoreResponse(s, key, response);
    if t != s {
      assert t.log[..|s.log|] == s.log && t.log[|s.log|] == ResponseStored(key, response);
      forall p | p in t.procs ensures ProcInv(t, t.procs[p]) { assert ProcInv(s, s.procs[p]); }
      forall k | k in t.rows ensures RowInv(t, k) { KeepRowNotes(s, t, k); }
      forall k | k in t.closures ensures ClosureInv(t, k) { assert ClosureInv(s, k); }
      KeepNotes(s, t);
      forall j | 0 <= j < |t.log| ensures NoteInv(t, j) { }
    }
  }

  lemma KeepInsertClosure(s: State, key: Key, c: Closure)
    requires Inv(s) && key !in s.closures
    requires forall p :: p in s.procs && s.procs[p].key == key ==> !Submitting(s.procs[p])
    requires ClosureInv(s.(closures := s.closures[key := c]), key)
    ensures Inv(s.(closures := s.closures[key := c], log := s.log + [ClosureCommitted(key)]))
  {
    var t := s.(closures := s.closures[key := c], log := s.log + [ClosureCommitted(key)]);
    assert t.log[..|s.log|] == s.log;
    forall p | p in t.procs ensures ProcInv(t, t.procs[p]) { assert ProcInv(s, s.procs[p]); }
    forall k | k in t.rows ensures RowInv(t, k) { KeepRowNotes(s, t, k); }
    forall k | k in t.closures ensures ClosureInv(t, k) {
      if k != key { assert ClosureInv(s, k); }
    }
    KeepNotes(s, t);
    forall j | 0 <= j < |t.log| ensures NoteInv(t, j) { }
  }

  lemma KeepResolveClosure(s: State, key: Key, c: Closure)
    requires Inv(s) && key in s.closures && s.closures[key].state.CloseRequested?
    requires c == s.closures[key].(state := c.state, response := c.response) && !c.state.CloseRequested? && c.response.Some?
    ensures Inv(s.(closures := s.closures[key := c]))
  {
    var t := s.(closures := s.closures[key := c]);
    assert t.log[..|s.log|] == s.log;
    forall p | p in t.procs ensures ProcInv(t, t.procs[p]) { assert ProcInv(s, s.procs[p]); }
    forall k | k in t.rows ensures RowInv(t, k) { KeepRowNotes(s, t, k); }
    forall k | k in t.closures ensures ClosureInv(t, k) { assert ClosureInv(s, k); }
    KeepNotes(s, t);
  }

  /** A command on one grant leaves every check on another as it was. */
  lemma OtherGrantsStay(s: G.Store, step: G.Step, g: Uuid, revision: int, target: G.Target, now: int)
    requires step.Obey? ==> step.command.grant != g
    ensures G.IndexedCheck(G.Do(s, step), g, revision, target, now) == G.IndexedCheck(s, g, revision, target, now)
    ensures g in s.grants ==> g in G.Do(s, step).grants && G.Do(s, step).grants[g] == s.grants[g]
  {
  }

  lemma KeepGrant(s: State, step: G.Step)
    requires Inv(s) && (step.Obey? ==> GrantFree(s, step.command.grant))
    ensures Inv(s.(grants := G.Do(s.grants, step)))
  {
    var t := s.(grants := G.Do(s.grants, step));
    G.DoKeeps(s.grants, step);
    forall p | p in t.procs ensures ProcInv(t, t.procs[p]) {
      var x := s.procs[p];
      assert ProcInv(s, x);
      if Submitting(x) && x.row.Request? {
        OtherGrantsStay(s.grants, step, x.row.grant, x.row.revision, x.row.target, x.since);
      }
    }
    forall k | k in t.rows ensures RowInv(t, k) { assert RowInv(s, k); }
    forall k | k in t.closures ensures ClosureInv(t, k) { assert ClosureInv(s, k); }
    forall j | 0 <= j < |t.log| ensures NoteInv(t, j) { assert NoteInv(s, j); }
  }

  /** What the log says of a request that is started now. */
  lemma SendLogged(s: State, p: ProcId)
    requires Inv(s) && Enabled(s, Send(p))
    ensures var x := s.procs[p];
            && x.key in s.rows && SameRequest(s.rows[x.key], x.row)
            && RowCommitted(x.key, x.row.digest, x.row.actor) in s.log
            && (!x.lost ==> ClosureCommitted(x.key) !in s.log && !AnsweredIn(s.log, x.key))
  {
    var x := s.procs[p];
    assert ProcInv(s, x) && RowInv(s, x.key);
    if !x.lost {
      forall j | 0 <= j < |s.log| ensures s.log[j] != ClosureCommitted(x.key) && !IsAnswer(s.log[j], x.key) {
        assert NoteInv(s, j);
      }
    }
  }

  /**
   A request started now is the one a committed row identifies, in every field that names it. While the session is live its process
   holds the admission lock, the admission is neither closed nor answered, and for an observation the authority is what was checked in this
   transaction: the grant's latest command is a selection that names the exact target, was issued under the request's revision
   by its own actor, and had not expired at that check.
   */
  lemma SendNow(s: State, p: ProcId)
    requires Inv(s) && Enabled(s, Send(p))
    ensures var x := s.procs[p];
            && x.key in s.rows && Identifies(s.rows[x.key], x.row) && (x.key.kind.Observation? <==> x.row.Request?)
            && RowCommitted(x.key, x.row.digest, x.row.actor) in s.log
            && (!x.lost ==> HoldsLock(x) && x.key !in s.closures && ClosureCommitted(x.key) !in s.log
                            && forall r :: ResponseStored(x.key, r) !in s.log)
            && (!x.lost && x.row.Request? ==> s.rows[x.key].response == None && Backed(s.grants, x.row, x.since))
  {
    var x := s.procs[p];
    assert ProcInv(s, x);
    SendLogged(s, p);
    if !x.lost && x.row.Request? { AuthorizedExactly(s, x.row, x.since); }
  }

  /** Field by field: the stored request is the one given. */
  predicate Identifies(stored: Row, row: Row) {
    && stored.digest == row.digest && stored.actor == row.actor
    && (row.Request? ==> stored.Request? && stored.grant == row.grant && stored.revision == row.revision)
    && (row.Redeploy? ==> stored.Redeploy? && stored.run == row.run && stored.observed == row.observed)
  }

  /** The command that gives an observation its authority at a time. */
  ghost predicate BackedBy(grants: G.Store, k: G.CommandKey, row: Row, now: int)
    requires row.Request?
  {
    G.Authority(grants, k, row.grant, row.revision, row.target, now) && grants.receipts[k].command.actor == row.actor
  }

  ghost predicate Backed(grants: G.Store, row: Row, now: int)
    requires row.Request?
  {
    exists k :: BackedBy(grants, k, row, now)
  }

  /** An observation is authorized exactly while such a command is the latest of its grant. */
  lemma AuthorizedExactly(s: State, row: Row, now: int)
    requires G.Inv(s.grants)
    ensures Authorized(s, row, now) <==> (row.Request? ==> Backed(s.grants, row, now))
  {
    if row.Request? {
      G.IndexedExactlyAt(s.grants, row.grant, row.revision, row.target, now);
      if Authorized(s, row, now) {
        var k :| G.Authority(s.grants, k, row.grant, row.revision, row.target, now);
        G.GrantOfLatest(s.grants, k, row.grant, row.revision, row.target, now);
        assert BackedBy(s.grants, k, row, now);
      }
      if k :| BackedBy(s.grants, k, row, now) {
        G.GrantOfLatest(s.grants, k, row.grant, row.revision, row.target, now);
      }
    }
  }

  lemma KeepSentNote(s: State, n: Note)
    requires Inv(s) && n.Sent? && RowCommitted(n.key, n.digest, n.actor) in s.log
    requires ClosureCommitted(n.key) in s.log || AnsweredIn(s.log, n.key) ==> n.lost
    ensures Inv(s.(log := s.log + [n]))
  {
    var t := s.(log := s.log + [n]);
    assert t.log[..|s.log|] == s.log;
    forall q | q in t.procs ensures ProcInv(t, t.procs[q]) { assert ProcInv(s, s.procs[q]); }
    forall k | k in t.rows ensures RowInv(t, k) { KeepRowNotes(s, t, k); }
    forall k | k in t.closures ensures ClosureInv(t, k) { assert ClosureInv(s, k); }
    KeepNotes(s, t);
    assert NoteInv(t, |s.log|);
  }

  lemma KeepSend(s: State, p: ProcId)
    requires Inv(s) && Enabled(s, Send(p))
    ensures var x := s.procs[p]; Inv(s.(log := s.log + [Sent(x.key, x.row.digest, x.row.actor, x.lost)]))
  {
    var x := s.procs[p];
    SendLogged(s, p);
    KeepSentNote(s, Sent(x.key, x.row.digest, x.row.actor, x.lost));
  }

  /******* Every move keeps the invariant *******/

  predicate Staging(m: Move) {
    m.BeginIntent? || m.BeginEffect? || m.BeginClose? || m.BeginResolve? || m.LoseSession?
  }

  lemma StageProc(s: State, m: Move)
    requires Inv(s) && Enabled(s, m) && Staging(m)
    ensures Next(s, m) == s.(procs := s.procs[m.p := Next(s, m).procs[m.p]]) && ProcInv(s, Next(s, m).procs[m.p])
  {
    assert ProcInv(s, s.procs[m.p]);
  }

  lemma StageApart(s: State, m: Move, q: ProcId)
    requires Enabled(s, m) && Staging(m) && q in s.procs && q != m.p && Apart(s.procs[m.p], s.procs[q])
    ensures Apart(Next(s, m).procs[m.p], s.procs[q])
  {
  }

  lemma StageKeeps(s: State, m: Move)
    requires Inv(s) && Enabled(s, m) && Staging(m)
    ensures Inv(Next(s, m))
  {
    StageProc(s, m);
    forall q | q in s.procs && q != m.p ensures Apart(Next(s, m).procs[m.p], s.procs[q]) { StageApart(s, m, q); }
    KeepSetProc(s, m.p, Next(s, m).procs[m.p]);
  }

  lemma IntentKeeps(s: State, p: ProcId)
    requires Inv(s) && Enabled(s, CommitIntent(p))
    ensures Inv(Next(s, CommitIntent(p)))
  {
    var x := s.procs[p];
    assert ProcInv(s, x);
    var t := s;
    if x.key !in s.rows {
      KeepInsertRow(s, x.key, x.row);
      t := s.(rows := s.rows[x.key := x.row], log := s.log + [RowCommitted(x.key, x.row.digest, x.row.actor)]);
    }
    assert ProcInv(t, x.(stage := Recorded));
    KeepSetProc(t, p, x.(stage := Recorded));
  }

  lemma SendKeeps(s: State, p: ProcId)
    requires Inv(s) && Enabled(s, Send(p))
    ensures Inv(Next(s, Send(p)))
  {
    var x := s.procs[p];
    var t := s.(log := s.log + [Sent(x.key, x.row.digest, x.row.actor, x.lost)]);
    KeepSend(s, p);
    assert ProcInv(t, x);
    forall q | q in t.procs && q != p ensures Apart(x.(stage := Called), t.procs[q]) {
      assert Apart(x, t.procs[q]);
    }
    KeepSetProc(t, p, x.(stage := Called));
  }

  lemma EffectKeeps(s: State, p: ProcId, response: nat)
    requires Inv(s) && Enabled(s, CommitEffect(p, response))
    ensures Inv(Next(s, CommitEffect(p, response)))
  {
    var key := s.procs[p].key;
    var t := s.(procs := s.procs - {p});
    KeepDropProc(s, p);
    assert RowFree(t, key) by {
      forall q | q in t.procs ensures Apart(s.procs[p], s.procs[q]) { }
    }
    KeepStoreResponse(t, key, response);
  }

  lemma CloseKeeps(s: State, p: ProcId, response: nat)
    requires Inv(s) && Enabled(s, CommitClose(p, response))
    ensures Inv(Next(s, CommitClose(p, response)))
  {
    var x := s.procs[p];
    assert ProcInv(s, x);
    var t := s;
    if x.key !in s.closures {
      var c := if x.key in s.rows
               then Closure(x.row.digest, x.run, Some(s.rows[x.key].actor), CloseRequested, None)
               else Closure(x.row.digest, x.run, None, NotStarted, Some(response));
      forall q | q in s.procs && s.procs[q].key == x.key ensures !Submitting(s.procs[q]) {
        if q != p { assert Apart(x, s.procs[q]); }
      }
      KeepInsertClosure(s, x.key, c);
      t := s.(closures := s.closures[x.key := c], log := s.log + [ClosureCommitted(x.key)]);
    }
    KeepSetProc(t, p, x.(stage := Closed));
  }

  lemma ResolveKeeps(s: State, p: ProcId, accepted: bool, response: nat)
    requires Inv(s) && Enabled(s, CommitResolve(p, accepted, response))
    ensures Inv(Next(s, CommitResolve(p, accepted, response)))
  {
    var key := s.procs[p].key;
    var t := s.(procs := s.procs - {p});
    KeepDropProc(s, p);
    assert RowFree(t, key) by {
      forall q | q in t.procs ensures Apart(s.procs[p], s.procs[q]) { }
    }
    var u := t;
    if accepted && key.kind.Observation? {
      KeepStoreResponse(t, key, response);
      u := StoreResponse(t, key, response);
    }
    if key in u.closures && u.closures[key].state.CloseRequested? {
      KeepResolveClosure(u, key, u.closures[key].(state := if accepted then Accepted else NotStarted, response := Some(response)));
    }
  }

  lemma MoveKeeps(s: State, m: Move)
    requires Inv(s) && Enabled(s, m)
    ensures Inv(Next(s, m))
  {
    match m
    case Arrive(p, key, row, run) => KeepSetProc(s, p, Proc(key, row, run, Arrived, false, 0));
    case CommitIntent(p) => IntentKeeps(s, p);
    case Send(p) => SendKeeps(s, p);
    case CommitEffect(p, r) => EffectKeeps(s, p, r);
    case CommitClose(p, r) => CloseKeeps(s, p, r);
    case CommitResolve(p, a, r) => ResolveKeeps(s, p, a, r);
    case Lookup(key, r) => KeepStoreResponse(s, key, r);
    case ChangeGrant(step) => KeepGrant(s, step);
    case Stop(p) => KeepDropProc(s, p);
    case _ => StageKeeps(s, m);
  }

  lemma {:induction false} RunKeeps(s: State, moves: seq<Move>)
    requires Inv(s)
    ensures Inv(Run(s, moves))
    decreases |moves|
  {
    if |moves| != 0 {
      if Enabled(s, moves[0]) {
        MoveKeeps(s, moves[0]);
        RunKeeps(Next(s, moves[0]), moves[1..]);
      } else {
        RunKeeps(s, moves[1..]);
      }
    }
  }

  /******* What lasts over every run *******/

  /** Nothing recorded is taken back: t has s's log, requests, stored responses and closures. */
  ghost predicate Extends(s: State, t: State) {
    && |s.log| <= |t.log| && t.log[..|s.log|] == s.log
    && (forall k :: k in s.rows ==> k in t.rows && SameRequest(t.rows[k], s.rows[k]) && (Answered(s, k) ==> t.rows[k] == s.rows[k]))
    && (forall k :: k in s.closures ==> k in t.closures && SameClosure(t.closures[k], s.closures[k]))
  }

  predicate SameClosure(later: Closure, c: Closure) {
    && later.digest == c.digest && later.run == c.run && later.actor == c.actor
    && (c.response.Some? ==> later == c)
  }

  predicate Answered(s: State, key: Key) {
    key in s.rows && s.rows[key].Request? && s.rows[key].response.Some?
  }

  /** Closed for good, or an observation whose response is stored. */
  predicate Finished(s: State, key: Key) {
    key in s.closures || Answered(s, key)
  }

  lemma StoreResponseExtends(s: State, key: Key, response: nat)
    ensures Extends(s, StoreResponse(s, key, response))
  {
  }

  lemma CloseExtends(s: State, p: ProcId, response: nat)
    requires Inv(s) && Enabled(s, CommitClose(p, response))
    ensures Extends(s, Next(s, CommitClose(p, response)))
  {
  }

  lemma ClosureResolvedExtends(u: State, key: Key, c: Closure)
    requires key in u.closures && SameClosure(c, u.closures[key])
    ensures Extends(u, u.(closures := u.closures[key := c]))
  {
  }

  lemma ResolveExtends(s: State, p: ProcId, accepted: bool, response: nat)
    requires Inv(s) && Enabled(s, CommitResolve(p, accepted, response))
    ensures Extends(s, Next(s, CommitResolve(p, accepted, response)))
  {
    var key := s.procs[p].key;
    var t := s.(procs := s.procs - {p});
    var u := if accepted && key.kind.Observation? then StoreResponse(t, key, response) else t;
    StoreResponseExtends(t, key, response);
    assert Extends(s, u);
    assert key in s.closures ==> ClosureInv(s, key);
    if key in u.closures && u.closures[key].state.CloseRequested? {
      var c := u.closures[key].(state := if accepted then Accepted else NotStarted, response := Some(response));
      ClosureResolvedExtends(u, key, c);
      ExtendsTransitive(s, u, u.(closures := u.closures[key := c]));
    }
  }

  lemma LogExtends(s: State, t: State)
    requires t.closures == s.closures && |s.log| <= |t.log| && t.log[..|s.log|] == s.log
    requires forall k :: k in s.rows ==> k in t.rows && t.rows[k] == s.rows[k]
    ensures Extends(s, t)
  {
  }

  lemma WriteExtends(s: State, m: Move)
    requires Enabled(s, m) && (m.CommitIntent? || m.Send? || m.CommitEffect? || m.Lookup?)
    ensures Extends(s, Next(s, m))
  {
    if m.CommitEffect? {
      StoreResponseExtends(s.(procs := s.procs - {m.p}), s.procs[m.p].key, m.response);
    } else if m.Lookup? {
      StoreResponseExtends(s, m.key, m.response);
    } else {
      LogExtends(s, Next(s, m));
    }
  }

  lemma MoveExtends(s: State, m: Move)
    requires Inv(s) && Enabled(s, m)
    ensures Extends(s, Next(s, m))
  {
    if m.CommitClose? {
      CloseExtends(s, m.p, m.response);
    } else if m.CommitResolve? {
      ResolveExtends(s, m.p, m.accepted, m.response);
    } else if m.CommitIntent? || m.Send? || m.CommitEffect? || m.Lookup? {
      WriteExtends(s, m);
    } else {
      StageExtends(s, m);
    }
  }

  lemma StageExtends(s: State, m: Move)
    requires Enabled(s, m) && !m.CommitIntent? && !m.Send? && !m.CommitEffect? && !m.CommitClose? && !m.CommitResolve? && !m.Lookup?
    ensures Extends(s, Next(s, m))
  {
    var t := Next(s, m);
    assert t.log == s.log && t.rows == s.rows && t.closures == s.closures;
    LogExtends(s, t);
  }

  lemma ExtendsTransitive(s: State, t: State, u: State)
    requires Extends(s, t) && Extends(t, u)
    ensures Extends(s, u)
  {
    assert u.log[..|s.log|] == u.log[..|t.log|][..|s.log|];
    forall k | k in s.rows ensures k in u.rows && SameRequest(u.rows[k], s.rows[k]) && (Answered(s, k) ==> u.rows[k] == s.rows[k]) {
      assert k in t.rows;
    }
  }

  lemma {:induction false} RunExtends(s: State, moves: seq<Move>)
    requires Inv(s)
    ensures Extends(s, Run(s, moves))
    decreases |moves|
  {
    if |moves| != 0 {
      if Enabled(s, moves[0]) {
        MoveKeeps(s, moves[0]);
        MoveExtends(s, moves[0]);
        RunExtends(Next(s, moves[0]), moves[1..]);
        ExtendsTransitive(s, Next(s, moves[0]), Run(s, moves));
      } else {
        RunExtends(s, moves[1..]);
      }
    }
  }

  lemma {:induction false} RunConcat(s: State, first: seq<Move>, second: seq<Move>)
    ensures Run(s, first + second) == Run(Run(s, first), second)
    decreases |first|
  {
    if |first| == 0 {
      assert first + second == second;
    } else {
      assert (first + second)[0] == first[0] && (first + second)[1..] == first[1..] + second;
      RunConcat(if Enabled(s, first[0]) then Next(s, first[0]) else s, first[1..], second);
    }
  }

  predicate IsSend(n: Note, key: Key) {
    n.Sent? && n.key == key
  }

  ghost predicate SentIn(log: seq<Note>, key: Key) {
    exists j :: 0 <= j < |log| && IsSend(log[j], key)
  }

  lemma SentHasRow(s: State, j: nat)
    requires Inv(s) && j < |s.log| && s.log[j].Sent?
    ensures s.log[j].key in s.rows
  {
    assert NoteInv(s, j);
    var i :| 0 <= i < j && s.log[..j][i] == RowCommitted(s.log[j].key, s.log[j].digest, s.log[j].actor);
    assert NoteInv(s, i);
  }

  /**
   Sound "not started". A closure settled locally, without an original actor, is true
   of the whole run: nothing was sent for its admission id before it was settled, and
   nothing is sent afterwards, whatever crashes or loses its session. No
   request is ever recorded for it and its answer never changes.
   */
  lemma NotStartedIsTrue(before: seq<Move>, after: seq<Move>, key: Key)
    requires key in Run(EMPTY, before).closures && Run(EMPTY, before).closures[key].actor.None?
    ensures var t := Run(EMPTY, before + after);
            && key in t.closures && t.closures[key] == Run(EMPTY, before).closures[key]
            && t.closures[key].state.NotStarted? && t.closures[key].response.Some?
            && key !in t.rows && !SentIn(t.log, key)
  {
    var s, t := Run(EMPTY, before), Run(EMPTY, before + after);
    RunKeeps(EMPTY, before);
    RunConcat(EMPTY, before, after);
    RunExtends(s, after);
    RunKeeps(s, after);
    assert ClosureInv(s, key) && ClosureInv(t, key);
    forall j | 0 <= j < |t.log| ensures !IsSend(t.log[j], key) {
      if IsSend(t.log[j], key) { SentHasRow(t, j); }
    }
  }

  /**
   A closure is unresolved exactly when it waits for the Data Plane, and then it names
   the actor of a recorded request: closing never ends in the state that has neither an
   answer nor an actor to ask for one.
   */
  lemma NeverStranded(moves: seq<Move>, key: Key)
    requires key in Run(EMPTY, moves).closures
    ensures var s := Run(EMPTY, moves);
            && (s.closures[key].response.None? <==> s.closures[key].state.CloseRequested?)
            && (s.closures[key].response.None? ==> key in s.rows && s.closures[key].actor == Some(s.rows[key].actor)
                                                   && s.closures[key].digest == s.rows[key].digest)
  {
    RunKeeps(EMPTY, moves);
    assert ClosureInv(Run(EMPTY, moves), key);
  }

  /**
   Send discipline over whole runs: every request started follows a committed row with its
   id, digest and actor, that row is the only one its id ever has, and unless
   the session was lost no closure and no stored response of that id comes earlier.
   */
  lemma SendDiscipline(moves: seq<Move>, j: nat)
    requires j < |Run(EMPTY, moves).log| && Run(EMPTY, moves).log[j].Sent?
    ensures var log := Run(EMPTY, moves).log;
            && RowCommitted(log[j].key, log[j].digest, log[j].actor) in log[..j]
            && (forall i :: 0 <= i < |log| && log[i].RowCommitted? && log[i].key == log[j].key ==>
                              log[i].digest == log[j].digest && log[i].actor == log[j].actor)
            && (!log[j].lost ==> ClosureCommitted(log[j].key) !in log[..j] && forall r :: ResponseStored(log[j].key, r) !in log[..j])
  {
    var s := Run(EMPTY, moves);
    RunKeeps(EMPTY, moves);
    assert NoteInv(s, j);
    var r :| 0 <= r < j && s.log[..j][r] == RowCommitted(s.log[j].key, s.log[j].digest, s.log[j].actor);
    assert NoteInv(s, r);
    forall i | 0 <= i < |s.log| && s.log[i].RowCommitted? && s.log[i].key == s.log[j].key
      ensures s.log[i].digest == s.log[j].digest && s.log[i].actor == s.log[j].actor
    {
      assert NoteInv(s, i);
    }
  }

  /******* Exactly when something is still sent for a finished admission *******/

  predicate MidEffect(x: Proc, key: Key) {
    x.key == key && x.stage.Effect?
  }

  /** Some process passed its last check for this admission and has not called yet. */
  ghost predicate EffectPending(s: State, key: Key) {
    exists p :: p in s.procs && MidEffect(s.procs[p], key)
  }

  lemma OnlyBeginEntersEffect(s: State, m: Move, p: ProcId, key: Key)
    requires Enabled(s, m) && p in Next(s, m).procs && MidEffect(Next(s, m).procs[p], key)
    ensures p in s.procs && (MidEffect(s.procs[p], key) || (m.BeginEffect? && m.p == p && s.procs[p].key == key))
  {
  }

  lemma OnlySendSends(s: State, m: Move)
    requires Enabled(s, m)
    ensures |s.log| <= |Next(s, m).log| <= |s.log| + 1
    ensures |Next(s, m).log| > |s.log| && Next(s, m).log[|s.log|].Sent? ==>
              m.Send? && MidEffect(s.procs[m.p], Next(s, m).log[|s.log|].key)
  {
  }

  /** On a finished admission no process can newly enter the effect stage. */
  lemma FinishedStays(s: State, m: Move, key: Key)
    requires Inv(s) && Enabled(s, m) && Finished(s, key) && !EffectPending(s, key)
    ensures Finished(Next(s, m), key) && !EffectPending(Next(s, m), key)
    ensures |s.log| <= |Next(s, m).log| && !SentIn(Next(s, m).log[|s.log|..], key)
  {
    MoveExtends(s, m);
    OnlySendSends(s, m);
    var t := Next(s, m);
    if p :| p in t.procs && MidEffect(t.procs[p], key) {
      OnlyBeginEntersEffect(s, m, p, key);
    }
  }

  lemma SentInSplit(log: seq<Note>, a: nat, b: nat, key: Key)
    requires a <= b <= |log| && !SentIn(log[a..b], key) && !SentIn(log[b..], key)
    ensures !SentIn(log[a..], key)
  {
    forall j | 0 <= j < |log[a..]| ensures !IsSend(log[a..][j], key) {
      if a + j < b { assert log[a..][j] == log[a..b][j]; } else { assert log[a..][j] == log[b..][a + j - b]; }
    }
  }

  lemma {:induction false} NoLateSend(s: State, moves: seq<Move>, key: Key)
    requires Inv(s) && Finished(s, key) && !EffectPending(s, key)
    ensures |s.log| <= |Run(s, moves).log|
    ensures !SentIn(Run(s, moves).log[|s.log|..], key)
    decreases |moves|
  {
    RunExtends(s, moves);
    if |moves| != 0 {
      if Enabled(s, moves[0]) {
        var t := Next(s, moves[0]);
        var u := Run(s, moves);
        MoveKeeps(s, moves[0]);
        MoveExtends(s, moves[0]);
        FinishedStays(s, moves[0], key);
        NoLateSend(t, moves[1..], key);
        RunExtends(t, moves[1..]);
        SentInSplit(u.log, |s.log|, |t.log|, key);
        assert t.log[|s.log|..] == u.log[..|t.log|][|s.log|..] == u.log[|s.log|..|t.log|];
      } else {
        NoLateSend(s, moves[1..], key);
      }
    }
  }

  ghost predicate LateSend(s: State, moves: seq<Move>, key: Key) {
    |s.log| <= |Run(s, moves).log| && SentIn(Run(s, moves).log[|s.log|..], key)
  }

  /**
   Once an admission is closed or answered, something can still be sent for it exactly when
   a process is between its last check and its call; and such a process
   has lost its session, since the admission lock would have kept the closure out.
   */
  lemma LateSendExactly(s: State, key: Key)
    requires Inv(s) && Finished(s, key)
    ensures (exists moves :: LateSend(s, moves, key)) <==> EffectPending(s, key)
    ensures forall p :: p in s.procs && MidEffect(s.procs[p], key) ==> s.procs[p].lost
  {
    forall p | p in s.procs && MidEffect(s.procs[p], key) ensures s.procs[p].lost {
      assert ProcInv(s, s.procs[p]);
    }
    if EffectPending(s, key) {
      var p :| p in s.procs && MidEffect(s.procs[p], key);
      var t := Next(s, Send(p));
      assert [Send(p)][1..] == [] && Run(s, [Send(p)]) == t;
      assert t.log[|s.log|..][0] == t.log[|s.log|];
      assert IsSend(t.log[|s.log|..][0], key);
      assert LateSend(s, [Send(p)], key);
    } else if moves :| LateSend(s, moves, key) {
      NoLateSend(s, moves, key);
    }
  }

  const LATE_SENDER := Redeploy(7, 8, 9, 10)
  const LATE_KEY := Key(Redeployment, 1)
  const LATE_RUN: seq<Move> := [
    Arrive(0, LATE_KEY, LATE_SENDER, Some(9)), BeginIntent(0, 0), CommitIntent(0), BeginEffect(0, 0), LoseSession(0)]
  const LATE_CLOSE: seq<Move> := [Arrive(1, LATE_KEY, LATE_SENDER, Some(9)), BeginClose(1), CommitClose(1, 0)]

  lemma RunStep(s: State, moves: seq<Move>)
    requires |moves| > 0 && Enabled(s, moves[0])
    ensures Run(s, moves) == Run(Next(s, moves[0]), moves[1..])
  {
  }

  /** A session lost between the last check and the call does send after its closure committed. */
  lemma LostSessionSendsLate()
    ensures var s := Run(EMPTY, LATE_RUN + LATE_CLOSE);
            LATE_KEY in s.closures && LateSend(s, [Send(0)], LATE_KEY)
  {
    var x := Proc(LATE_KEY, LATE_SENDER, Some(9), Effect, true, 0);
    var s := State(map[LATE_KEY := LATE_SENDER], map[], G.EMPTY, map[0 := x], [RowCommitted(LATE_KEY, 7, 8)]);
    LateSenderWaits(x, s);
    var y := Proc(LATE_KEY, LATE_SENDER, Some(9), Arrived, false, 0);
    var c := Closure(7, Some(9), Some(8), CloseRequested, None);
    var s1 := s.(procs := s.procs[1 := y]);
    var s2 := s.(procs := s.procs[1 := y.(stage := Closing)]);
    var s3 := s.(procs := s.procs[1 := y.(stage := Closed)], closures := map[LATE_KEY := c], log := s.log + [ClosureCommitted(LATE_KEY)]);
    RunStep(s, LATE_CLOSE);
    assert Next(s, LATE_CLOSE[0]) == s1;
    RunStep(s1, LATE_CLOSE[1..]);
    assert Next(s1, LATE_CLOSE[1]) == s2;
    RunStep(s2, LATE_CLOSE[2..]);
    assert Next(s2, LATE_CLOSE[2]) == s3;
    RunConcat(EMPTY, LATE_RUN, LATE_CLOSE);
    RunStep(s3, [Send(0)]);
    var t := Next(s3, Send(0));
    assert t.log[|s3.log|..][0] == t.log[|s3.log|] && IsSend(t.log[|s3.log|..][0], LATE_KEY);
  }

  lemma LateSenderWaits(x: Proc, s: State)
    requires x == Proc(LATE_KEY, LATE_SENDER, Some(9), Effect, true, 0)
    requires s == State(map[LATE_KEY := LATE_SENDER], map[], G.EMPTY, map[0 := x], [RowCommitted(LATE_KEY, 7, 8)])
    ensures Run(EMPTY, LATE_RUN) == s
  {
    var x0 := Proc(LATE_KEY, LATE_SENDER, Some(9), Arrived, false, 0);
    var s1 := EMPTY.(procs := map[0 := x0]);
    var s2 := EMPTY.(procs := map[0 := x0.(stage := Intent)]);
    var s3 := s.(procs := map[0 := x0.(stage := Recorded)]);
    var s4 := s.(procs := map[0 := x0.(stage := Effect)]);
    RunStep(EMPTY, LATE_RUN);
    assert Next(EMPTY, LATE_RUN[0]) == s1;
    RunStep(s1, LATE_RUN[1..]);
    assert Next(s1, LATE_RUN[1]) == s2;
    RunStep(s2, LATE_RUN[2..]);
    assert Next(s2, LATE_RUN[2]) == s3;
    RunStep(s3, LATE_RUN[3..]);
    assert Next(s3, LATE_RUN[3]) == s4;
    RunStep(s4, LATE_RUN[4..]);
    assert Next(s4, LATE_RUN[4]) == s;
  }
}
