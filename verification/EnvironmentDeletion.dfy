/**
 The deletion life of environment rows: the one guarded UPDATE that every handler goes
 through, and the handlers that are the only steps on a row.
 */
module EnvironmentDeletion {
  import opened Base

  type Uuid = nat

  datatype Status = Active | Deleting | DeleteFailed | Unknown(text: string)

  datatype Environment = Environment(
    project: Uuid, name: string, runner: Option<string>, status: Status, message: string, force: Option<bool>, rules: Option<bool>)

  datatype Policy = Policy(force: bool, rules: bool)

  datatype Patch = Patch(
    policy: Option<Policy>, status: Option<Status>, message: Option<string>, name: Option<string>, runner: Option<string>)

  datatype Error = BadRequest | NotFound | Conflict

  // `ever` holds every identity the database has generated, so none is used twice.
  datatype Table = Table(rows: map<Uuid, Environment>, ever: set<Uuid>)

  const EMPTY := Table(map[], {})
  const ATTEMPTING := "Attempting to destroy environment"

  function Coalesce<T>(o: Option<T>, otherwise: T): T {
    if o.Some? then o.value else otherwise
  }

  /** COALESCE(column, false) OR argument, applied only where a policy is given. */
  function Raise(flag: Option<bool>, set_: Option<bool>): Option<bool> {
    if set_.None? then flag else Some(Coalesce(flag, false) || set_.value)
  }

  /** The WHERE clause leaves this row alone. */
  predicate Refuses(row: Environment, p: Patch) {
    && row.force == Some(true) && (row.status.Deleting? || row.status.DeleteFailed?)
    && p.status.Some? && p.status != Some(Deleting)
  }

  function Patched(row: Environment, p: Patch): Environment {
    row.(runner := if p.runner.Some? then p.runner else row.runner,
         status := Coalesce(p.status, row.status),
         force := Raise(row.force, if p.policy.Some? then Some(p.policy.value.force) else None),
         rules := Raise(row.rules, if p.policy.Some? then Some(p.policy.value.rules) else None),
         name := Coalesce(p.name, row.name),
         message := if p.message.Some? then p.message.value else if p.status.None? then row.message else "")
  }

  function Update(t: Table, e: Uuid, p: Patch): Result<Environment, Error> {
    if p.status.Some? && p.status.value.Unknown? then Err(BadRequest)
    else if e !in t.rows then Err(NotFound)
    else if Refuses(t.rows[e], p) then Err(Conflict)
    else Ok(Patched(t.rows[e], p))
  }

  /******* The handlers *******/

  datatype Step =
    | Create(e: Uuid, project: Uuid, name: string)
    | Delete(e: Uuid, force: bool, rules: Option<bool>, blocked: bool)  // blocked: an override-pending Pin exists
    | Report(e: Uuid, status: Option<Status>, message: Option<string>)
    | Rename(e: Uuid, name: string)
    | Rerun(e: Uuid, runner: string)
    | Remove(e: Uuid, expected: bool, blocked: bool)                    // expected: the caller named this exact row

  function DeletePatch(force: bool, rules: Option<bool>): Patch {
    Patch(Some(Policy(force, Coalesce(rules, false))), Some(Deleting), Some(ATTEMPTING), None, None)
  }

  function PatchOf(step: Step): Patch
    requires !step.Create? && !step.Remove?
  {
    match step
    case Delete(_, force, rules, _) => DeletePatch(force, rules)
    case Report(_, status, message) => Patch(None, status, message, None, None)
    case Rename(_, name) => Patch(None, None, None, Some(name), None)
    case Rerun(_, runner) => Patch(None, None, None, None, Some(runner))
  }

  function Outcome(t: Table, step: Step): Result<Environment, Error> {
    match step
    case Create(e, project, name) =>
      if e in t.ever then Err(Conflict) else Ok(Environment(project, name, None, Active, "", None, None))
    case Delete(e, force, rules, blocked) =>
      if e !in t.rows then Err(NotFound)
      else if blocked || (!force && t.rows[e].status.Unknown?) then Err(Conflict)
      else Update(t, e, PatchOf(step))
    case Remove(e, expected, blocked) =>
      if e !in t.rows then Err(NotFound)
      else if (t.rows[e].rules.None? && (expected || !t.rows[e].status.Active?)) || blocked then Err(Conflict)
      else Ok(t.rows[e])
    case _ => Update(t, step.e, PatchOf(step))
  }

  function Do(t: Table, step: Step): Table {
    if Outcome(t, step).Err? then t
    else if step.Remove? then t.(rows := t.rows - {step.e})
    else Table(t.rows[step.e := Outcome(t, step).value], t.ever + {step.e})
  }

  function Run(t: Table, steps: seq<Step>): Table
    decreases |steps|
  {
    if |steps| == 0 then t else Run(Do(t, steps[0]), steps[1..])
  }

  /******* Forced deletion is final *******/

  /** Force implies deleting, the two flags are recorded together, and the status is a known one. */
  predicate RowInv(row: Environment) {
    && (row.force == Some(true) ==> row.status.Deleting?)
    && (row.force.None? <==> row.rules.None?)
    && !row.status.Unknown?
  }

  predicate Inv(t: Table) {
    && (forall e :: e in t.rows ==> RowInv(t.rows[e]) && e in t.ever)
  }

  /**
   The guarded UPDATE alone does not keep the invariant: it does so exactly for the patches
   that leave the row deleting whenever they ask for force.
   */
  lemma UpdateKeepsExactly(t: Table, e: Uuid, p: Patch)
    requires Inv(t) && Update(t, e, p).Ok?
    ensures RowInv(Update(t, e, p).value) <==>
            (p.policy.Some? && p.policy.value.force ==> Coalesce(p.status, t.rows[e].status).Deleting?)
  {
    assert RowInv(t.rows[e]);
  }

  lemma DoKeeps(t: Table, step: Step)
    requires Inv(t)
    ensures Inv(Do(t, step))
  {
    if !step.Create? && !step.Remove? && Outcome(t, step).Ok? {
      UpdateKeepsExactly(t, step.e, PatchOf(step));
    }
  }

  predicate FlagKept(before: Option<bool>, after: Option<bool>) {
    && (before == Some(true) ==> after == Some(true))
    && (before.Some? ==> after.Some?)
  }

  /** A flag that was set stays set, row by row, and no identity comes back. */
  predicate Follows(t: Table, u: Table) {
    && t.ever <= u.ever
    && (forall e :: e in u.rows && e in t.ever ==> e in t.rows)
    && (forall e :: e in t.rows && e in u.rows ==>
          FlagKept(t.rows[e].force, u.rows[e].force) && FlagKept(t.rows[e].rules, u.rows[e].rules))
  }

  lemma DoFollows(t: Table, step: Step)
    requires Inv(t)
    ensures Follows(t, Do(t, step))
  {
  }

  lemma FollowsTransitive(t: Table, u: Table, v: Table)
    requires Follows(t, u) && Follows(u, v) && Inv(t)
    ensures Follows(t, v)
  {
    assert forall e :: e in t.rows && e in v.rows ==> e in u.rows;
  }

  lemma {:induction false} RunKeeps(t: Table, steps: seq<Step>)
    requires Inv(t)
    ensures Inv(Run(t, steps)) && Follows(t, Run(t, steps))
    decreases |steps|
  {
    if |steps| > 0 {
      DoKeeps(t, steps[0]);
      RunKeeps(Do(t, steps[0]), steps[1..]);
      DoFollows(t, steps[0]);
      FollowsTransitive(t, Do(t, steps[0]), Run(t, steps));
    }
  }

  /**
   Once force is recorded the row is deleting, for as long as it exists: no run of handlers
   takes it back, and nothing but removal ends it.
   */
  lemma ForceIsFinal(before: seq<Step>, after: seq<Step>, e: Uuid)
    requires e in Run(EMPTY, before).rows && Run(EMPTY, before).rows[e].force == Some(true)
    ensures var u := Run(Run(EMPTY, before), after);
            e in u.rows ==> u.rows[e].force == Some(true) && u.rows[e].status.Deleting? && u.rows[e].rules.Some?
  {
    RunKeeps(EMPTY, before);
    RunKeeps(Run(EMPTY, before), after);
    var u := Run(Run(EMPTY, before), after);
    if e in u.rows { assert RowInv(u.rows[e]); }
  }

  /******* What each handler does to a row *******/

  /**
   A delete is accepted exactly on an existing row without an override-pending Pin. It leaves the row deleting; a flag
   is set afterwards if and only if this delete asked for it or it was set before; nothing else of the table changes.
   */
  lemma DeleteRecords(t: Table, e: Uuid, force: bool, rules: Option<bool>, blocked: bool)
    requires Inv(t)
    ensures Outcome(t, Delete(e, force, rules, blocked)).Ok? <==> e in t.rows && !blocked
    ensures e in t.rows && !blocked ==>
              var u := Do(t, Delete(e, force, rules, blocked));
              && e in u.rows && u.rows[e].status == Deleting
              && u.rows[e].force == Some(force || t.rows[e].force == Some(true))
              && u.rows[e].rules == Some(rules == Some(true) || t.rows[e].rules == Some(true))
              && u.rows[e].message == "Attempting to destroy environment"
              && u.rows[e].project == t.rows[e].project && u.rows[e].name == t.rows[e].name && u.rows[e].runner == t.rows[e].runner
              && u.rows == t.rows[e := u.rows[e]] && u.ever == t.ever
    ensures !(e in t.rows && !blocked) ==> Do(t, Delete(e, force, rules, blocked)) == t
  {
    if e in t.rows { assert RowInv(t.rows[e]) && t.ever + {e} == t.ever; }
  }

  /** A report is refused exactly for an unknown status, a missing row, or another status than deleting on a forced row. */
  lemma ReportRecords(t: Table, e: Uuid, status: Option<Status>, message: Option<string>)
    requires Inv(t)
    ensures var r := Outcome(t, Report(e, status, message));
            var unknown := status.Some? && status.value.Unknown?;
            && (r == Err(BadRequest) <==> unknown)
            && (r == Err(NotFound) <==> !unknown && e !in t.rows)
            && (r == Err(Conflict) <==> !unknown && e in t.rows && t.rows[e].force == Some(true) && status.Some? && status != Some(Deleting))
            && (r.Ok? ==>
                  && e in t.rows && r.value.status == (if status.Some? then status.value else t.rows[e].status)
                  && r.value.message == (if message.Some? then message.value else if status.Some? then "" else t.rows[e].message)
                  && r.value == t.rows[e].(status := r.value.status, message := r.value.message))
  {
    if e in t.rows { assert RowInv(t.rows[e]); }
  }

  /** Creating takes an identity that was never used; renaming and changing the runner change that alone. */
  lemma OtherRecords(t: Table, e: Uuid, project: Uuid, text: string)
    requires Inv(t)
    ensures Outcome(t, Create(e, project, text)) ==
            if e in t.ever then Err(Conflict) else Ok(Environment(project, text, None, Active, "", None, None))
    ensures Outcome(t, Rename(e, text)) == if e in t.rows then Ok(t.rows[e].(name := text)) else Err(NotFound)
    ensures Outcome(t, Rerun(e, text)) == if e in t.rows then Ok(t.rows[e].(runner := Some(text))) else Err(NotFound)
  {
    if e in t.rows { assert RowInv(t.rows[e]); }
  }

  /** A row is removed only with a recorded policy, or while active on a call that does not name the exact row. */
  lemma RemoveRecords(t: Table, e: Uuid, expected: bool, blocked: bool)
    ensures var removed := e in t.rows && !blocked && (t.rows[e].rules.Some? || (!expected && t.rows[e].status.Active?));
            Do(t, Remove(e, expected, blocked)).rows == if removed then t.rows - {e} else t.rows
  {
  }

  /** Any other accepted step leaves both flags of an existing row as they were, and a new row has none. */
  lemma FlagsOfStep(t: Table, step: Step, e: Uuid)
    requires Inv(t) && e in Do(t, step).rows
    requires !(step.Delete? && step.e == e && Outcome(t, step).Ok?)
    ensures e in t.rows ==> Do(t, step).rows[e].force == t.rows[e].force && Do(t, step).rows[e].rules == t.rows[e].rules
    ensures e !in t.rows ==> step.Create? && e !in t.ever && Do(t, step).rows[e].force.None? && Do(t, step).rows[e].rules.None?
  {
    if e in t.rows { assert RowInv(t.rows[e]); }
  }

  lemma {:induction false} RunConcat(t: Table, a: seq<Step>, b: seq<Step>)
    ensures Run(t, a + b) == Run(Run(t, a), b)
    decreases |a|
  {
    if |a| == 0 {
      assert a + b == b;
    } else {
      assert (a + b)[0] == a[0] && (a + b)[1..] == a[1..] + b;
      RunConcat(Do(t, a[0]), a[1..], b);
    }
  }

  lemma RunSnoc(t: Table, steps: seq<Step>, k: nat)
    requires k < |steps|
    ensures Run(t, steps[..k + 1]) == Do(Run(t, steps[..k]), steps[k])
  {
    assert steps[..k + 1] == steps[..k] + [steps[k]];
    RunConcat(t, steps[..k], [steps[k]]);
    assert [steps[k]][1..] == [];
  }

  /** The k-th step is an accepted delete of the row that asks for this. */
  predicate AcceptedDelete(steps: seq<Step>, k: nat, e: Uuid, force: bool) {
    && k < |steps| && steps[k].Delete? && steps[k].e == e && steps[k].force == force
    && Outcome(Run(EMPTY, steps[..k]), steps[k]).Ok?
  }

  ghost predicate DeletedBy(steps: seq<Step>, n: nat, e: Uuid, force: bool) {
    exists k :: 0 <= k < n && AcceptedDelete(steps, k, e, force)
  }

  lemma DeletedBySnoc(steps: seq<Step>, n: nat, e: Uuid, force: bool)
    requires n < |steps|
    ensures DeletedBy(steps, n + 1, e, force) <==> DeletedBy(steps, n, e, force) || AcceptedDelete(steps, n, e, force)
  {
  }

  ghost predicate FlagsFit(steps: seq<Step>, n: nat, e: Uuid)
    requires n <= |steps|
  {
    var t := Run(EMPTY, steps[..n]);
    && (DeletedBy(steps, n, e, true) || DeletedBy(steps, n, e, false) ==> e in t.ever)
    && (e in t.rows ==>
          && (t.rows[e].force == Some(true) <==> DeletedBy(steps, n, e, true))
          && (t.rows[e].force.Some? <==> DeletedBy(steps, n, e, true) || DeletedBy(steps, n, e, false)))
  }

  lemma FlagsFitStep(steps: seq<Step>, n: nat, e: Uuid)
    requires n < |steps| && FlagsFit(steps, n, e) && Inv(Run(EMPTY, steps[..n]))
    ensures FlagsFit(steps, n + 1, e)
  {
    var t, step := Run(EMPTY, steps[..n]), steps[n];
    RunSnoc(EMPTY, steps, n);
    DeletedBySnoc(steps, n, e, true);
    DeletedBySnoc(steps, n, e, false);
    DoFollows(t, step);
    if step.Delete? && step.e == e && Outcome(t, step).Ok? {
      DeleteRecords(t, e, step.force, step.rules, step.blocked);
    } else if e in Do(t, step).rows {
      FlagsOfStep(t, step, e);
    }
  }

  lemma {:induction false} FlagsFitRun(steps: seq<Step>, n: nat, e: Uuid)
    requires n <= |steps|
    ensures FlagsFit(steps, n, e) && Inv(Run(EMPTY, steps[..n]))
    decreases n
  {
    RunKeeps(EMPTY, steps[..n]);
    if n == 0 {
      assert steps[..0] == [];
    } else {
      FlagsFitRun(steps, n - 1, e);
      FlagsFitStep(steps, n - 1, e);
    }
  }

  /**
   Over every run a row's force is true if and only if some accepted delete of it asked for force, and a policy is
   recorded if and only if some delete of it was accepted.
   */
  lemma ForceRecordedExactly(steps: seq<Step>, e: Uuid)
    requires e in Run(EMPTY, steps).rows
    ensures Run(EMPTY, steps).rows[e].force == Some(true) <==> exists k :: AcceptedDelete(steps, k, e, true)
    ensures Run(EMPTY, steps).rows[e].force.Some? <==> exists k, force :: AcceptedDelete(steps, k, e, force)
  {
    assert steps[..|steps|] == steps;
    FlagsFitRun(steps, |steps|, e);
    forall k, force | AcceptedDelete(steps, k, e, force) ensures DeletedBy(steps, |steps|, e, force) { }
  }

  /** A patch that asks for force without the deleting status would break it. */
  lemma BarePolicyBreaksForce()
    ensures var t := Do(EMPTY, Create(1, 2, "dev"));
            var p := Patch(Some(Policy(true, false)), None, None, None, None);
            Inv(t) && Update(t, 1, p).Ok? && !RowInv(Update(t, 1, p).value)
  {
    var t := Do(EMPTY, Create(1, 2, "dev"));
    assert t.rows[1].status.Active?;
  }

  /******* The table as the handlers change it *******/

  class EnvironmentTable {
    var rows: map<Uuid, Environment>
    ghost var ever: set<Uuid>

    constructor ()
      ensures Contents() == EMPTY
    {
      rows, ever := map[], {};
    }

    ghost function Contents(): Table
      reads this
    {
      Table(rows, ever)
    }

    method UpdateEnvironment(e: Uuid, p: Patch) returns (r: Result<Environment, Error>)
      modifies this`rows
      ensures r == Update(old(Contents()), e, p)
      ensures rows == if r.Ok? then old(rows)[e := r.value] else old(rows)
    {
      if p.status.Some? && p.status.value.Unknown? { return Err(BadRequest); }
      if e !in rows { return Err(NotFound); }
      var row := rows[e];
      if row.force == Some(true) && (row.status.Deleting? || row.status.DeleteFailed?)
         && p.status.Some? && p.status != Some(Deleting) {
        return Err(Conflict);
      }
      var force, rules := row.force, row.rules;
      if p.policy.Some? {
        force := Some(row.force == Some(true) || p.policy.value.force);
        rules := Some(row.rules == Some(true) || p.policy.value.rules);
      }
      var message := if p.message.Some? then p.message.value else if p.status.None? then row.message else "";
      row := Environment(row.project, Coalesce(p.name, row.name), if p.runner.Some? then p.runner else row.runner,
                         Coalesce(p.status, row.status), message, force, rules);
      rows := rows[e := row];
      return Ok(row);
    }

    /** DeleteEnvironmentAndCreateMessage; the row is locked throughout. */
    method DeleteEnvironment(e: Uuid, force: bool, rules: Option<bool>, pendingPins: bool) returns (r: Result<Environment, Error>)
      requires Inv(Contents())
      modifies this
      ensures Inv(Contents()) && Contents() == Do(old(Contents()), Delete(e, force, rules, pendingPins))
      ensures r == Outcome(old(Contents()), Delete(e, force, rules, pendingPins))
    {
      DoKeeps(Contents(), Delete(e, force, rules, pendingPins));
      if e !in rows { return Err(NotFound); }
      if pendingPins { return Err(Conflict); }
      if !force && rows[e].status.Unknown? { return Err(Conflict); }
      r := UpdateEnvironment(e, DeletePatch(force, rules));
      if r.Ok? { ever := ever + {e}; }
    }

    /** InternalUpdateEnvironment: the Data Plane reports a status. */
    method ReportStatus(e: Uuid, status: Option<Status>, message: Option<string>) returns (r: Result<Environment, Error>)
      requires Inv(Contents())
      modifies this
      ensures Inv(Contents()) && Contents() == Do(old(Contents()), Report(e, status, message))
      ensures r == Outcome(old(Contents()), Report(e, status, message))
    {
      DoKeeps(Contents(), Report(e, status, message));
      r := UpdateEnvironment(e, Patch(None, status, message, None, None));
      if r.Ok? { ever := ever + {e}; }
    }
  }
}
