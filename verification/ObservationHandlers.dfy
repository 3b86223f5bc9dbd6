/**
 The two handlers of an admission, statement by statement, on the stored rows: the one
 that submits a request (first observation or redeployment) and the one that closes
 it. Each has two transactions. The contract of a transaction starts from any store in
 which the locks it takes are free, whatever other processes are doing, so anything may happen
 between the two; each is shown to perform exactly a run of its process's own moves, and
 every theorem of ObservationAdmission holds of it.
 */
module ObservationHandlers {
  import opened Base
  import opened ObservationAdmission
  import G = ObservationGrants

  datatype Submitted =
    | Refused                  // closed, unauthorized or another request under this id
    | Stored(response: nat)    // answered from the stored response
    | Unanswered               // sent, but no valid receipt came back
    | Receipt(response: nat)   // sent and answered

  datatype Resolution = Conflict | Resolved(response: nat) | Unavailable

  datatype Verdict = Verdict(accepted: bool, response: nat)

  /******* The moves of each transaction *******/

  function IntentMoves(p: ProcId, now: int, ok: bool): seq<Move> {
    [BeginIntent(p, now), if ok then CommitIntent(p) else Stop(p)]
  }

  function EffectMoves(p: ProcId, now: int, out: Submitted): seq<Move> {
    match out
    case Receipt(r) => [BeginEffect(p, now), Send(p), CommitEffect(p, r)]
    case Unanswered => [BeginEffect(p, now), Send(p), Stop(p)]
    case _ => [BeginEffect(p, now), Stop(p)]
  }

  function ClosingMoves(p: ProcId, local: nat, ok: bool): seq<Move> {
    [BeginClose(p), if ok then CommitClose(p, local) else Stop(p)]
  }

  function ResolvingMoves(p: ProcId, verdict: Option<Verdict>): seq<Move> {
    [BeginResolve(p), if verdict.Some? then CommitResolve(p, verdict.value.accepted, verdict.value.response) else Stop(p)]
  }

  ghost function Take(s: State, m: Move): State {
    if Enabled(s, m) then Next(s, m) else s
  }

  lemma RunTwo(s: State, a: Move, b: Move)
    ensures Run(s, [a, b]) == Take(Take(s, a), b)
  {
    assert [a, b][1..] == [b] && [b][1..] == [];
    assert Run(Take(s, a), [b]) == Run(Take(Take(s, a), b), []);
  }

  lemma RunThree(s: State, a: Move, b: Move, c: Move)
    ensures Run(s, [a, b, c]) == Take(Take(Take(s, a), b), c)
  {
    assert [a, b, c][1..] == [b, c];
    RunTwo(Take(s, a), b, c);
  }

  /** The locks that a submission takes are free. */
  ghost predicate Free(s: State, key: Key, row: Row) {
    LockFree(s, key) && (row.Request? ==> GrantFree(s, row.grant))
  }

  predicate At(s: State, p: ProcId, key: Key, row: Row, run: Option<Uuid>, stage: Stage) {
    p in s.procs && s.procs[p] == Proc(key, row, run, stage, false, s.procs[p].since)
  }

  /** A transaction that is rolled back leaves nothing but the end of its process. */
  lemma RolledBack(s: State, m: Move)
    requires (m.BeginIntent? || m.BeginEffect? || m.BeginClose? || m.BeginResolve?) && m.p in s.procs
    ensures Run(s, [m, Stop(m.p)]) == s.(procs := s.procs - {m.p})
  {
    RunTwo(s, m, Stop(m.p));
    var t := Take(s, m);
    assert t.(procs := s.procs) == s && t.procs - {m.p} == s.procs - {m.p};
  }

  /******* Submitting *******/

  predicate MayRecord(s: State, key: Key, row: Row, now: int) {
    key !in s.closures && Authorized(s, row, now) && (key in s.rows ==> SameRequest(s.rows[key], row))
  }

  function AfterRecord(s: State, p: ProcId, key: Key, row: Row, now: int): State
    requires p in s.procs
  {
    var t := s.(procs := s.procs[p := s.procs[p].(stage := Recorded, since := now)]);
    if key in s.rows then t
    else t.(rows := t.rows[key := row], log := t.log + [RowCommitted(key, row.digest, row.actor)])
  }

  lemma IntentBegins(s: State, p: ProcId, key: Key, row: Row, run: Option<Uuid>, now: int)
    requires At(s, p, key, row, run, Arrived) && Free(s, key, row) && MayRecord(s, key, row, now)
    ensures Take(s, BeginIntent(p, now)) == s.(procs := s.procs[p := s.procs[p].(stage := Intent, since := now)])
  {
  }

  lemma IntentCommits(s: State, p: ProcId, x: Proc)
    requires p in s.procs && x == s.procs[p].(stage := Intent, since := x.since) && !x.lost
    requires x.key in s.rows ==> SameRequest(s.rows[x.key], x.row)
    ensures Take(s.(procs := s.procs[p := x]), CommitIntent(p)) == AfterRecord(s, p, x.key, x.row, x.since)
  {
    assert s.procs[p := x][p := x.(stage := Recorded)] == s.procs[p := s.procs[p].(stage := Recorded, since := x.since)];
  }

  lemma IntentRuns(s: State, p: ProcId, key: Key, row: Row, run: Option<Uuid>, now: int)
    requires At(s, p, key, row, run, Arrived) && Free(s, key, row)
    ensures Run(s, IntentMoves(p, now, MayRecord(s, key, row, now))) ==
            if MayRecord(s, key, row, now) then AfterRecord(s, p, key, row, now) else s.(procs := s.procs - {p})
  {
    if MayRecord(s, key, row, now) {
      RunTwo(s, BeginIntent(p, now), CommitIntent(p));
      IntentBegins(s, p, key, row, run, now);
      IntentCommits(s, p, s.procs[p].(stage := Intent, since := now));
    } else {
      RolledBack(s, BeginIntent(p, now));
    }
  }

  /** Whether the effect transaction goes ahead to its call. */
  predicate MayCall(s: State, key: Key, row: Row, now: int) {
    MayRecord(s, key, row, now) && key in s.rows && !Answered(s, key)
  }

  function AfterCall(s: State, p: ProcId, key: Key, row: Row, reply: Option<nat>): State {
    var t := s.(procs := s.procs - {p}, log := s.log + [Sent(key, row.digest, row.actor, false)]);
    if reply.Some? then StoreResponse(t, key, reply.value) else t
  }

  lemma CallStarts(s: State, p: ProcId, key: Key, row: Row, run: Option<Uuid>, now: int)
    requires At(s, p, key, row, run, Recorded) && Free(s, key, row) && MayCall(s, key, row, now)
    ensures Take(s, BeginEffect(p, now)) == s.(procs := s.procs[p := s.procs[p].(stage := Effect, since := now)])
  {
  }

  lemma CallSends(s: State, p: ProcId, x: Proc)
    requires x.stage.Effect? && !x.lost
    ensures Take(s.(procs := s.procs[p := x]), Send(p)) ==
            s.(procs := s.procs[p := x.(stage := Called)], log := s.log + [Sent(x.key, x.row.digest, x.row.actor, false)])
  {
    assert s.procs[p := x][p := x.(stage := Called)] == s.procs[p := x.(stage := Called)];
  }

  lemma CallEnds(s: State, p: ProcId, x: Proc, reply: Option<nat>)
    requires x.stage.Called? && !x.lost
    ensures var t := s.(procs := s.procs[p := x], log := s.log + [Sent(x.key, x.row.digest, x.row.actor, false)]);
            Take(t, if reply.Some? then CommitEffect(p, reply.value) else Stop(p)) == AfterCall(s, p, x.key, x.row, reply)
  {
    assert s.procs[p := x] - {p} == s.procs - {p};
  }

  lemma CallRuns(s: State, p: ProcId, key: Key, row: Row, run: Option<Uuid>, now: int, reply: Option<nat>)
    requires At(s, p, key, row, run, Recorded) && Free(s, key, row) && MayCall(s, key, row, now)
    ensures Run(s, EffectMoves(p, now, if reply.Some? then Receipt(reply.value) else Unanswered)) == AfterCall(s, p, key, row, reply)
  {
    var x := s.procs[p].(stage := Effect, since := now);
    RunThree(s, BeginEffect(p, now), Send(p), if reply.Some? then CommitEffect(p, reply.value) else Stop(p));
    CallStarts(s, p, key, row, run, now);
    CallSends(s, p, x);
    CallEnds(s, p, x.(stage := Called), reply);
  }

  /******* Closing *******/

  /** Whether the stored closure, or else the stored request, is the exact request that is to be closed. */
  predicate SameAdmission(s: State, key: Key, digest: Digest, run: Option<Uuid>) {
    if key in s.closures then s.closures[key].digest == digest && s.closures[key].run == run
    else key in s.rows ==> s.rows[key].digest == digest && RunOf(s.rows[key]) == run
  }

  /** Closing goes ahead on a recorded or closed admission, and otherwise only within scope. */
  predicate MayClose(s: State, key: Key, digest: Digest, run: Option<Uuid>, scoped: bool) {
    (scoped || key in s.rows || key in s.closures) && SameAdmission(s, key, digest, run)
  }

  function AfterClose(s: State, p: ProcId, key: Key, digest: Digest, run: Option<Uuid>, local: nat): State
    requires p in s.procs
  {
    var t := s.(procs := s.procs[p := s.procs[p].(stage := Closed)]);
    if key in s.closures then t
    else
      var c := if key in s.rows then Closure(digest, run, Some(s.rows[key].actor), CloseRequested, None)
               else Closure(digest, run, None, NotStarted, Some(local));
      t.(closures := t.closures[key := c], log := t.log + [ClosureCommitted(key)])
  }

  lemma CloseCommits(s: State, p: ProcId, x: Proc, local: nat)
    requires p in s.procs && x == s.procs[p].(stage := Closing) && !x.lost && SameAdmission(s, x.key, x.row.digest, x.run)
    ensures Take(s.(procs := s.procs[p := x]), CommitClose(p, local)) == AfterClose(s, p, x.key, x.row.digest, x.run, local)
  {
    assert s.procs[p := x][p := x.(stage := Closed)] == s.procs[p := s.procs[p].(stage := Closed)];
  }

  lemma ClosingRuns(s: State, p: ProcId, key: Key, row: Row, run: Option<Uuid>, scoped: bool, local: nat)
    requires At(s, p, key, row, run, Arrived) && LockFree(s, key)
    ensures var ok := MayClose(s, key, row.digest, run, scoped);
            Run(s, ClosingMoves(p, local, ok)) == if ok then AfterClose(s, p, key, row.digest, run, local) else s.(procs := s.procs - {p})
  {
    if MayClose(s, key, row.digest, run, scoped) {
      RunTwo(s, BeginClose(p), CommitClose(p, local));
      var x := s.procs[p].(stage := Closing);
      assert Take(s, BeginClose(p)) == s.(procs := s.procs[p := x]);
      CloseCommits(s, p, x, local);
    } else {
      RolledBack(s, BeginClose(p));
    }
  }

  function AfterResolve(s: State, p: ProcId, key: Key, v: Verdict): State
    requires key in s.closures
  {
    var t := s.(procs := s.procs - {p});
    var u := if v.accepted && key.kind.Observation? then StoreResponse(t, key, v.response) else t;
    u.(closures := u.closures[key := u.closures[key].(state := if v.accepted then Accepted else NotStarted, response := Some(v.response))])
  }

  lemma RulingRuns(s: State, p: ProcId, key: Key, row: Row, run: Option<Uuid>, v: Verdict)
    requires At(s, p, key, row, run, Closed) && LockFree(s, key) && Inv(s) && key in s.closures && s.closures[key].response.None?
    ensures Run(s, ResolvingMoves(p, Some(v))) == AfterResolve(s, p, key, v)
  {
    var m := CommitResolve(p, v.accepted, v.response);
    assert ClosureInv(s, key);
    RunTwo(s, BeginResolve(p), m);
    var t := s.(procs := s.procs[p := s.procs[p].(stage := Resolving)]);
    assert Take(s, BeginResolve(p)) == t;
    assert t.procs - {p} == s.procs - {p};
    assert Enabled(t, m);
    assert t.(procs := t.procs - {p}) == s.(procs := s.procs - {p});
  }

  /******* The store *******/

  class AdmissionStore {
    var rows: map<Key, Row>
    var closures: map<Key, Closure>
    var grants: G.Store
    ghost var procs: map<ProcId, Proc>
    ghost var log: seq<Note>

    constructor ()
      ensures Contents() == EMPTY && Inv(Contents())
    {
      rows, closures, grants, procs, log := map[], map[], G.EMPTY, map[], [];
    }

    ghost function Contents(): State
      reads this
    {
      State(rows, closures, grants, procs, log)
    }

    /** Intent transaction: open admission, current authority, then the row unless it exists. */
    method RecordIntent(ghost p: ProcId, key: Key, row: Row, ghost run: Option<Uuid>, now: int) returns (ok: bool)
      requires At(Contents(), p, key, row, run, Arrived) && Free(Contents(), key, row)
      modifies this
      ensures ok == MayRecord(old(Contents()), key, row, now)
      ensures Contents() == Run(old(Contents()), IntentMoves(p, now, ok))
      ensures Contents() == if ok then AfterRecord(old(Contents()), p, key, row, now) else old(Contents()).(procs := old(procs) - {p})
      ensures rows == (if ok && key !in old(rows) then old(rows)[key := row] else old(rows)) && closures == old(closures) && grants == old(grants)
    {
      IntentRuns(Contents(), p, key, row, run, now);
      if key in closures || !Authorized(State(map[], map[], grants, map[], []), row, now) {
        procs := procs - {p};
        return false;
      }
      if key in rows && !SameRequest(rows[key], row) {
        procs := procs - {p};
        return false;
      }
      procs := procs[p := procs[p].(stage := Recorded, since := now)];
      if key !in rows {
        rows := rows[key := row];
        log := log + [RowCommitted(key, row.digest, row.actor)];
      }
      return true;
    }

    /**
     Effect transaction: the lock is taken again and the admission, the authority and the stored row are checked again as
     they are now; then the stored response is returned, or the call is made and its receipt stored with it.
     */
    method CallDataPlane(ghost p: ProcId, key: Key, row: Row, ghost run: Option<Uuid>, now: int, reply: Option<nat>) returns (out: Submitted)
      requires At(Contents(), p, key, row, run, Recorded) && Free(Contents(), key, row) && Fits(key, row)
      modifies this
      ensures Contents() == Run(old(Contents()), EffectMoves(p, now, out))
      ensures out.Receipt? || out.Unanswered? <==> MayCall(old(Contents()), key, row, now)
      ensures out.Receipt? || out.Unanswered? ==>
                Contents() == AfterCall(old(Contents()), p, key, row, reply) && out == if reply.Some? then Receipt(reply.value) else Unanswered
      ensures out.Stored? || out.Refused? ==> Contents() == old(Contents()).(procs := old(procs) - {p})
      ensures out.Stored? ==> Answered(old(Contents()), key) && old(rows[key]).response == Some(out.response)
      ensures closures == old(closures) && grants == old(grants)
      ensures out.Receipt? && key.kind.Observation? ==> key in old(rows) && rows == old(rows)[key := old(rows[key]).(response := Some(out.response))]
      ensures !out.Receipt? || key.kind.Redeployment? ==> rows == old(rows)
    {
      if MayCall(Contents(), key, row, now) { CallRuns(Contents(), p, key, row, run, now, reply); }
      RolledBack(Contents(), BeginEffect(p, now));
      if key in closures || !Authorized(State(map[], map[], grants, map[], []), row, now) || key !in rows || !SameRequest(rows[key], row) {
        procs := procs - {p};
        return Refused;
      }
      if rows[key].Request? && rows[key].response.Some? {
        procs := procs - {p};
        return Stored(rows[key].response.value);
      }
      procs := procs - {p};
      log := log + [Sent(key, row.digest, row.actor, false)];
      if reply.None? { return Unanswered; }
      if row.Request? {
        rows := rows[key := rows[key].(response := reply)];
        log := log + [ResponseStored(key, reply.value)];
      }
      return Receipt(reply.value);
    }

    /** First transaction of a closing: the closure, settled at once when no request is recorded. */
    method CommitClosure(ghost p: ProcId, key: Key, row: Row, run: Option<Uuid>, scoped: bool, local: nat) returns (ok: bool)
      requires At(Contents(), p, key, row, run, Arrived) && LockFree(Contents(), key)
      modifies this
      ensures ok == MayClose(old(Contents()), key, row.digest, run, scoped)
      ensures Contents() == Run(old(Contents()), ClosingMoves(p, local, ok))
      ensures Contents() == if ok then AfterClose(old(Contents()), p, key, row.digest, run, local) else old(Contents()).(procs := old(procs) - {p})
      ensures rows == old(rows) && grants == old(grants) && (!scoped && key !in rows && key !in old(closures) ==> !ok)
      ensures !ok || key in old(closures) ==> closures == old(closures)
      ensures ok && key !in old(closures) && key in rows ==>
                closures == old(closures)[key := Closure(row.digest, run, Some(rows[key].actor), CloseRequested, None)]
      ensures ok && key !in old(closures) && key !in rows ==>
                closures == old(closures)[key := Closure(row.digest, run, None, NotStarted, Some(local))]
    {
      ClosingRuns(Contents(), p, key, row, run, scoped, local);
      if key !in closures {
        var actor := None;
        if key in rows {
          actor := Some(rows[key].actor);
          if rows[key].digest != row.digest || RunOf(rows[key]) != run {
            procs := procs - {p};
            return false;
          }
        } else if !scoped {
          procs := procs - {p};
          return false;
        }
        closures := closures[key := Closure(row.digest, run, actor, CloseRequested, None)];
        if actor.None? {
          closures := closures[key := closures[key].(state := NotStarted, response := Some(local))];
        }
        log := log + [ClosureCommitted(key)];
      } else if closures[key].digest != row.digest || closures[key].run != run {
        procs := procs - {p};
        return false;
      }
      procs := procs[p := procs[p].(stage := Closed)];
      return true;
    }

    /** Second transaction of a closing: the answer that is stored, or the Data Plane's ruling on the request and on the closure. */
    method ResolveClosure(ghost p: ProcId, key: Key, row: Row, ghost run: Option<Uuid>, verdict: Option<Verdict>) returns (out: Resolution)
      requires At(Contents(), p, key, row, run, Closed) && LockFree(Contents(), key) && Inv(Contents()) && key in closures
      modifies this
      ensures (out.Resolved? || out.Unavailable?) && key in closures
      ensures Contents() == Run(old(Contents()), ResolvingMoves(p, if old(closures[key]).response.None? then verdict else None))
      ensures out.Resolved? ==> closures[key].response == Some(out.response) && !closures[key].state.CloseRequested?
      ensures out.Unavailable? ==> verdict.None? && key in rows && closures[key].actor == Some(rows[key].actor)
      ensures old(closures[key]).response.Some? ==> out == Resolved(old(closures[key]).response.value)
      ensures var open := old(closures[key]).response.None? && verdict.Some?;
              && (!open ==> closures == old(closures) && rows == old(rows))
              && (open ==>
                    && out == Resolved(verdict.value.response) && key in old(rows)
                    && closures == old(closures)[key := old(closures[key]).(state := if verdict.value.accepted then Accepted else NotStarted,
                                                                            response := Some(verdict.value.response))]
                    && rows == if verdict.value.accepted && key.kind.Observation? && old(rows[key]).Request? && old(rows[key]).response.None?
                               then old(rows)[key := old(rows[key]).(response := Some(verdict.value.response))]
                               else old(rows))
    {
      assert ClosureInv(Contents(), key);
      if closures[key].response.None? && verdict.Some? { RulingRuns(Contents(), p, key, row, run, verdict.value); }
      RolledBack(Contents(), BeginResolve(p));
      procs := procs - {p};
      if closures[key].response.Some? { return Resolved(closures[key].response.value); }
      if verdict.None? { return Unavailable; }
      var v := verdict.value;
      assert RowInv(old(Contents()), key);
      if v.accepted && key.kind.Observation? && rows[key].response.None? {
        rows := rows[key := rows[key].(response := Some(v.response))];
        log := log + [ResponseStored(key, v.response)];
      }
      closures := closures[key := closures[key].(state := if v.accepted then Accepted else NotStarted, response := Some(v.response))];
      return Resolved(v.response);
    }
  }
}
