/**
 Journal transactions as they interleave. A transaction works through its
 organizations one by one: it takes the advisory lock (shared to write, exclusive
 to change the subscription), reads the journal state and, when it needs a cursor,
 takes the head row. It keeps every lock until it commits, and nothing it wrote
 is visible before that. Crashes and rollbacks are `Abort`.
 */
module JournalLocks {
  import opened Base
  import opened ExtensionJournal
  import opened JournalGroups

  type TxId = nat

  datatype Message = Plain(id: nat) | Recorded(tagged: Tagged)

  datatype Work = Write(org: OrgId, events: seq<Stamped>) | Change(org: OrgId, subscribers: set<PluginId>)

  // What the transaction wrote for one organization, with the cursor it allocated.
  datatype Delta = Skip | Append(first: nat) | PauseRow | Keep | StartRow | GapRow(gap: nat)

  // `deltas` covers the finished organizations; `advisory` says that the next one's lock is held.
  datatype Tx = Tx(work: seq<Work>, messages: seq<Message>, deltas: seq<Delta>, advisory: bool)

  datatype World = World(orgs: map<OrgId, Org>, txs: map<TxId, Tx>, outbox: seq<Message>)

  datatype Move =
    | Begin(t: TxId, work: seq<Work>, messages: seq<Message>)
    | TakeAdvisory(t: TxId)
    | Perform(t: TxId)
    | CommitTx(t: TxId)
    | Abort(t: TxId)
    | Local(org: OrgId, action: Action)

  const UNTOUCHED := Org(None, None, 0, [], map[], {}, map[], true, None, [])

  function OrgIn(orgs: map<OrgId, Org>, o: OrgId): Org {
    if o in orgs then orgs[o] else UNTOUCHED
  }

  predicate NeedsHead(d: Delta) {
    d.Append? || d.GapRow?
  }

  /** What a transaction decides for an organization from the rows it reads under its locks. */
  function Decide(w: Work, o: Org): Delta {
    match w
    case Write(_, events) =>
      if Journaling(o) && |events| > 0 then Append(OrZero(o.head) + 1) else Skip
    case Change(_, subs) =>
      if subs == {} then PauseRow
      else if Journaling(o) then Keep
      else if o.row.None? && o.head.None? then StartRow
      else GapRow(OrZero(o.head) + 1)
  }

  function Numbered(events: seq<Stamped>, first: nat): seq<Entry> {
    seq(|events|, i requires 0 <= i < |events| => Entry(first + i, events[i].event, events[i].recordedAt))
  }

  function Items(es: seq<Entry>): seq<Item> {
    seq(|es|, i requires 0 <= i < |es| => Journaled(es[i]))
  }

  /** The rows as they become visible at commit. */
  function Install(o: Org, w: Work, d: Delta): Org {
    match w
    case Write(_, events) =>
      if d.Append? && |events| > 0 then
        var es := Numbered(events, d.first);
        o.(head := Some(d.first + |events| - 1), entries := o.entries + es, history := o.history + Items(es))
      else o.(history := o.history + Skipped(events))
    case Change(_, subs) =>
      var p := o.(subscribers := subs);
      match d
      case PauseRow => Pause(p)
      case StartRow => p.(row := Some(Row(true, 0)), history := p.history + [Mark(0)])
      case GapRow(gap) => p.(head := Some(gap), row := Some(Row(true, gap)), history := p.history + [Mark(gap)])
      case _ => p
  }

  function InstallAll(orgs: map<OrgId, Org>, work: seq<Work>, deltas: seq<Delta>): map<OrgId, Org>
    requires |work| == |deltas|
  {
    if |work| == 0 then orgs
    else
      var n := |work| - 1;
      var before := InstallAll(orgs, work[..n], deltas[..n]);
      before[work[n].org := Install(OrgIn(before, work[n].org), work[n], deltas[n])]
  }

  ghost predicate Distinct(work: seq<Work>) {
    forall i, j :: 0 <= i < j < |work| ==> work[i].org != work[j].org
  }

  function JournalOf(ms: seq<Message>): seq<Tagged> {
    if |ms| == 0 then []
    else
      var rest := JournalOf(ms[..|ms| - 1]);
      if ms[|ms| - 1].Recorded? then rest + [ms[|ms| - 1].tagged] else rest
  }

  ghost predicate WorksOn(work: seq<Work>, org: OrgId) {
    exists i :: 0 <= i < |work| && work[i].org == org
  }

  /** The transaction writes exactly the journal events among its outbox messages. */
  ghost predicate Matches(work: seq<Work>, ms: seq<Message>) {
    && (forall i :: 0 <= i < |work| ==>
          Of(JournalOf(ms), work[i].org) == if work[i].Write? then work[i].events else [])
    && (forall org :: |Of(JournalOf(ms), org)| > 0 ==> WorksOn(work, org))
  }

  /******* Locks *******/

  function Held(tx: Tx): nat {
    |tx.deltas| + if tx.advisory then 1 else 0
  }

  ghost predicate AdvisoryFree(w: World, t: TxId, next: Work) {
    forall u, j :: u in w.txs && u != t && 0 <= j < Held(w.txs[u]) && j < |w.txs[u].work| && w.txs[u].work[j].org == next.org ==>
                     w.txs[u].work[j].Write? && next.Write?
  }

  ghost predicate HeadFree(w: World, t: TxId, org: OrgId) {
    forall u, j :: u in w.txs && u != t && 0 <= j < |w.txs[u].deltas| && j < |w.txs[u].work| && w.txs[u].work[j].org == org ==>
                     !NeedsHead(w.txs[u].deltas[j])
  }

  ghost predicate Enabled(w: World, m: Move) {
    match m
    case Begin(t, work, messages) => t !in w.txs && Distinct(work) && Matches(work, messages)
    case TakeAdvisory(t) =>
      && t in w.txs && !w.txs[t].advisory && |w.txs[t].deltas| < |w.txs[t].work|
      && AdvisoryFree(w, t, w.txs[t].work[|w.txs[t].deltas|])
    case Perform(t) =>
      && t in w.txs && w.txs[t].advisory && |w.txs[t].deltas| < |w.txs[t].work|
      && var next := w.txs[t].work[|w.txs[t].deltas|];
         NeedsHead(Decide(next, OrgIn(w.orgs, next.org))) ==> HeadFree(w, t, next.org)
    case CommitTx(t) => t in w.txs && |w.txs[t].deltas| == |w.txs[t].work|
    case Abort(t) => t in w.txs
    case Local(_, a) =>
      a.Acknowledge? || a.SetOperation? || a.BeginPrune? || a.FinishPrune? || a.AbortPrune?
  }

  ghost function Next(w: World, m: Move): World
    requires Enabled(w, m)
  {
    match m
    case Begin(t, work, messages) => w.(txs := w.txs[t := Tx(work, messages, [], false)])
    case TakeAdvisory(t) => w.(txs := w.txs[t := w.txs[t].(advisory := true)])
    case Perform(t) =>
      var tx := w.txs[t];
      var next := tx.work[|tx.deltas|];
      var d := Decide(next, OrgIn(w.orgs, next.org));
      w.(txs := w.txs[t := tx.(deltas := tx.deltas + [d], advisory := false)])
    case CommitTx(t) =>
      var tx := w.txs[t];
      World(InstallAll(w.orgs, tx.work, tx.deltas), w.txs - {t}, w.outbox + tx.messages)
    case Abort(t) => w.(txs := w.txs - {t})
    case Local(o, a) => w.(orgs := w.orgs[o := Step(OrgIn(w.orgs, o), a)])
  }

  /******* Invariant *******/

  ghost predicate WellFormed(tx: Tx) {
    && Distinct(tx.work) && Matches(tx.work, tx.messages)
    && Held(tx) <= |tx.work|
  }

  /** Two transactions never hold conflicting locks. */
  ghost predicate Compatible(a: Tx, b: Tx)
    requires Held(a) <= |a.work| && Held(b) <= |b.work|
  {
    forall i, j :: 0 <= i < Held(a) && 0 <= j < Held(b) && a.work[i].org == b.work[j].org ==>
                     && a.work[i].Write? && b.work[j].Write?
                     && !(i < |a.deltas| && j < |b.deltas| && NeedsHead(a.deltas[i]) && NeedsHead(b.deltas[j]))
  }

  /** What a transaction wrote still follows from the committed rows. */
  ghost predicate Current(tx: Tx, orgs: map<OrgId, Org>)
    requires Held(tx) <= |tx.work|
  {
    forall i :: 0 <= i < |tx.deltas| ==> tx.deltas[i] == Decide(tx.work[i], OrgIn(orgs, tx.work[i].org))
  }

  ghost predicate LockInv(w: World) {
    && (forall o :: o in w.orgs ==> Inv(w.orgs[o]) && w.orgs[o].serving)
    && (forall t :: t in w.txs ==> WellFormed(w.txs[t]))
    && (forall t :: t in w.txs ==> Current(w.txs[t], w.orgs))
    && (forall t, u :: t in w.txs && u in w.txs && t != u ==> Compatible(w.txs[t], w.txs[u]))
  }

  /******* Committing is the atomic step *******/

  ghost function ActionOf(w: Work): Action {
    match w
    case Write(_, events) => Commit(events)
    case Change(_, subs) => Subscribe(subs)
  }

  lemma {:induction false} NumberedIsJournalAll(o: Org, events: seq<Stamped>)
    requires |events| > 0
    ensures var es := Numbered(events, OrZero(o.head) + 1);
            JournalAll(o, events) == o.(head := Some(OrZero(o.head) + |events|),
                                        entries := o.entries + es, history := o.history + Items(es))
    decreases |events|
  {
    var one := JournalOne(o, events[0]);
    var es := Numbered(events, OrZero(o.head) + 1);
    if |events| == 1 {
      assert events[1..] == [] && es == [one.entries[|o.entries|]];
      assert Items(es) == [Journaled(es[0])];
    } else {
      NumberedIsJournalAll(one, events[1..]);
      var rest := Numbered(events[1..], OrZero(one.head) + 1);
      assert es == [es[0]] + rest;
      assert Items(es) == [Journaled(es[0])] + Items(rest);
      assert one.entries + rest == o.entries + es;
      assert one.history + Items(rest) == o.history + Items(es);
    }
  }

  /** Installing what was decided from the current rows is one atomic step of the organization. */
  lemma InstallIsStep(o: Org, w: Work)
    requires o.serving
    ensures Install(o, w, Decide(w, o)) == Step(o, ActionOf(w))
  {
    if w.Write? && Journaling(o) {
      if |w.events| > 0 {
        NumberedIsJournalAll(o, w.events);
      } else {
        assert o.history + Skipped(w.events) == o.history;
      }
    }
  }

  lemma {:induction false} InstallAllSkips(orgs: map<OrgId, Org>, work: seq<Work>, deltas: seq<Delta>, o: OrgId)
    requires |work| == |deltas| && !WorksOn(work, o)
    ensures OrgIn(InstallAll(orgs, work, deltas), o) == OrgIn(orgs, o)
  {
    if |work| != 0 {
      var n := |work| - 1;
      assert work[n].org != o;
      assert !WorksOn(work[..n], o) by {
        forall i | 0 <= i < n ensures work[..n][i].org != o { assert work[..n][i] == work[i]; }
      }
      InstallAllSkips(orgs, work[..n], deltas[..n], o);
    }
  }

  lemma {:induction false} InstallAllAt(orgs: map<OrgId, Org>, work: seq<Work>, deltas: seq<Delta>, o: OrgId, i: nat)
    requires |work| == |deltas| && Distinct(work) && i < |work| && work[i].org == o
    ensures OrgIn(InstallAll(orgs, work, deltas), o) == Install(OrgIn(orgs, o), work[i], deltas[i])
    decreases |work|
  {
    var n := |work| - 1;
    if i == n {
      assert !WorksOn(work[..n], o) by {
        forall k | 0 <= k < n ensures work[..n][k].org != o { assert work[..n][k] == work[k]; }
      }
      InstallAllSkips(orgs, work[..n], deltas[..n], o);
    } else {
      InstallAllAt(orgs, work[..n], deltas[..n], o, i);
    }
  }

  lemma CommitAt(w: World, t: TxId, o: OrgId)
    requires LockInv(w) && Enabled(w, CommitTx(t))
    ensures var q := Next(w, CommitTx(t));
            && (!WorksOn(w.txs[t].work, o) ==> OrgIn(q.orgs, o) == OrgIn(w.orgs, o))
            && (forall i :: 0 <= i < |w.txs[t].work| && w.txs[t].work[i].org == o ==>
                              OrgIn(q.orgs, o) == Step(OrgIn(w.orgs, o), ActionOf(w.txs[t].work[i])))
  {
    var tx := w.txs[t];
    assert WellFormed(tx) && Current(tx, w.orgs);
    assert OrgIn(w.orgs, o).serving;
    if !WorksOn(tx.work, o) { InstallAllSkips(w.orgs, tx.work, tx.deltas, o); }
    forall i | 0 <= i < |tx.work| && tx.work[i].org == o
      ensures OrgIn(InstallAll(w.orgs, tx.work, tx.deltas), o) == Step(OrgIn(w.orgs, o), ActionOf(tx.work[i]))
    {
      CommitWorkAt(w.orgs, tx.work, tx.deltas, o, i);
    }
  }

  lemma CommitWorkAt(orgs: map<OrgId, Org>, work: seq<Work>, deltas: seq<Delta>, o: OrgId, i: nat)
    requires |work| == |deltas| && Distinct(work) && i < |work| && work[i].org == o
    requires OrgIn(orgs, o).serving && deltas[i] == Decide(work[i], OrgIn(orgs, o))
    ensures OrgIn(InstallAll(orgs, work, deltas), o) == Step(OrgIn(orgs, o), ActionOf(work[i]))
  {
    InstallAllAt(orgs, work, deltas, o, i);
    InstallIsStep(OrgIn(orgs, o), work[i]);
  }

  /** The atomic steps one move makes on one organization: none or one. */
  lemma MoveIsStep(w: World, m: Move, o: OrgId) returns (steps: seq<Action>)
    requires LockInv(w) && Enabled(w, m)
    ensures OrgIn(Next(w, m).orgs, o) == Run(OrgIn(w.orgs, o), steps)
  {
    steps := [];
    if m.Local? && m.org == o {
      steps := [m.action];
    } else if m.CommitTx? {
      CommitAt(w, m.t, o);
      if i :| 0 <= i < |w.txs[m.t].work| && w.txs[m.t].work[i].org == o {
        steps := [ActionOf(w.txs[m.t].work[i])];
      }
    }
    if |steps| == 1 {
      assert steps[1..] == [];
      assert Run(OrgIn(w.orgs, o), steps) == Run(Step(OrgIn(w.orgs, o), steps[0]), []);
    }
  }

  /******* Preservation *******/

  lemma StepServes(o: Org, a: Action)
    requires o.serving && !a.Startup?
    ensures Step(o, a).serving
  {
    if a.Commit? { JournalAllRows(o, a.events); }
  }

  lemma OrgsKept(w: World, m: Move)
    requires LockInv(w) && Enabled(w, m)
    ensures forall o :: o in Next(w, m).orgs ==> Inv(Next(w, m).orgs[o]) && Next(w, m).orgs[o].serving
  {
    forall o | o in Next(w, m).orgs ensures Inv(Next(w, m).orgs[o]) && Next(w, m).orgs[o].serving {
      assert Inv(OrgIn(w.orgs, o)) && OrgIn(w.orgs, o).serving;
      if m.Local? && m.org == o {
        StepInv(OrgIn(w.orgs, o), m.action);
        StepServes(OrgIn(w.orgs, o), m.action);
      } else if m.CommitTx? {
        CommitAt(w, m.t, o);
        if i :| 0 <= i < |w.txs[m.t].work| && w.txs[m.t].work[i].org == o {
          StepInv(OrgIn(w.orgs, o), ActionOf(w.txs[m.t].work[i]));
          StepServes(OrgIn(w.orgs, o), ActionOf(w.txs[m.t].work[i]));
        }
      }
      assert Next(w, m).orgs[o] == OrgIn(Next(w, m).orgs, o);
    }
  }

  /** Committing `done` cannot change what `kept` decided: their locks would conflict. */
  lemma CommitKeepsCurrent(w: World, t: TxId, u: TxId)
    requires LockInv(w) && Enabled(w, CommitTx(t)) && u in w.txs && u != t
    ensures Current(w.txs[u], Next(w, CommitTx(t)).orgs)
  {
    var kept, tx := w.txs[u], w.txs[t];
    var orgs := Next(w, CommitTx(t)).orgs;
    forall j | 0 <= j < |kept.deltas| ensures kept.deltas[j] == Decide(kept.work[j], OrgIn(orgs, kept.work[j].org)) {
      var o := kept.work[j].org;
      CommitAt(w, t, o);
      if i :| 0 <= i < |tx.work| && tx.work[i].org == o {
        assert Compatible(tx, kept);
        assert tx.work[i].Write? && kept.work[j].Write?;
        assert !(NeedsHead(tx.deltas[i]) && NeedsHead(kept.deltas[j]));
        WriteKeepsDecision(OrgIn(w.orgs, o), tx.work[i], kept.work[j]);
      }
    }
  }

  lemma WriteKeepsDecision(o: Org, done: Work, kept: Work)
    requires done.Write? && kept.Write? && !(NeedsHead(Decide(done, o)) && NeedsHead(Decide(kept, o)))
    ensures Decide(kept, Step(o, ActionOf(done))) == Decide(kept, o)
  {
    JournalAllRows(o, done.events);
    if |done.events| == 0 {
      assert Step(o, ActionOf(done)).row == o.row && OrZero(Step(o, ActionOf(done)).head) == OrZero(o.head);
    }
  }

  lemma LocalKeepsDecision(o: Org, a: Action, w: Work)
    requires a.Acknowledge? || a.SetOperation? || a.BeginPrune? || a.FinishPrune? || a.AbortPrune?
    ensures Decide(w, Step(o, a)) == Decide(w, o)
  {
  }

  lemma CurrentKept(w: World, m: Move)
    requires LockInv(w) && Enabled(w, m)
    ensures forall t :: t in Next(w, m).txs ==> WellFormed(Next(w, m).txs[t]) && Current(Next(w, m).txs[t], Next(w, m).orgs)
  {
    var q := Next(w, m);
    forall t | t in q.txs ensures WellFormed(q.txs[t]) && Current(q.txs[t], q.orgs) {
      if m.CommitTx? {
        CommitKeepsCurrent(w, m.t, t);
      } else if m.Local? {
        LocalKeepsCurrent(w, m, t);
      } else {
        OwnKeepsCurrent(w, m, t);
      }
    }
  }

  lemma OwnKeepsCurrent(w: World, m: Move, t: TxId)
    requires LockInv(w) && Enabled(w, m) && !m.CommitTx? && !m.Local? && t in Next(w, m).txs
    ensures WellFormed(Next(w, m).txs[t]) && Current(Next(w, m).txs[t], w.orgs)
  {
    if t in w.txs { assert WellFormed(w.txs[t]) && Current(w.txs[t], w.orgs); }
  }

  lemma LocalKeepsCurrent(w: World, m: Move, t: TxId)
    requires LockInv(w) && Enabled(w, m) && m.Local? && t in w.txs
    ensures Current(w.txs[t], Next(w, m).orgs)
  {
    var tx, orgs := w.txs[t], Next(w, m).orgs;
    assert Current(tx, w.orgs);
    forall i | 0 <= i < |tx.deltas| ensures tx.deltas[i] == Decide(tx.work[i], OrgIn(orgs, tx.work[i].org)) {
      LocalKeepsDecision(OrgIn(w.orgs, tx.work[i].org), m.action, tx.work[i]);
    }
  }

  lemma CompatibleSymmetric(a: Tx, b: Tx)
    requires Held(a) <= |a.work| && Held(b) <= |b.work| && Compatible(a, b)
    ensures Compatible(b, a)
  {
  }

  /** Taking a free lock keeps a transaction compatible with every other one. */
  lemma AdvisoryCompatible(w: World, t: TxId, u: TxId)
    requires LockInv(w) && Enabled(w, TakeAdvisory(t)) && u in w.txs && u != t
    ensures Compatible(w.txs[t].(advisory := true), w.txs[u])
  {
    assert Compatible(w.txs[t], w.txs[u]);
  }

  /** A decided delta keeps a transaction compatible with one that holds no head row in its way. */
  lemma AppendCompatible(a: Tx, b: Tx, d: Delta)
    requires a.advisory && Held(a) <= |a.work| && Held(b) <= |b.work| && Compatible(a, b)
    requires NeedsHead(d) ==>
               forall j :: 0 <= j < |b.deltas| && b.work[j].org == a.work[|a.deltas|].org ==> !NeedsHead(b.deltas[j])
    ensures Compatible(a.(deltas := a.deltas + [d], advisory := false), b)
  {
    var a' := a.(deltas := a.deltas + [d], advisory := false);
    forall i, j | 0 <= i < Held(a') && 0 <= j < Held(b) && a'.work[i].org == b.work[j].org
      ensures a'.work[i].Write? && b.work[j].Write?
      ensures !(j < |b.deltas| && NeedsHead(a'.deltas[i]) && NeedsHead(b.deltas[j]))
    {
      assert a.work[i].org == b.work[j].org;
    }
  }

  lemma HeadCompatible(w: World, t: TxId, u: TxId)
    requires LockInv(w) && Enabled(w, Perform(t)) && u in w.txs && u != t
    ensures Held(Next(w, Perform(t)).txs[t]) <= |w.txs[t].work|
    ensures Compatible(Next(w, Perform(t)).txs[t], w.txs[u])
  {
    var a, b := w.txs[t], w.txs[u];
    assert Compatible(a, b) && WellFormed(b);
    AppendCompatible(a, b, Decide(a.work[|a.deltas|], OrgIn(w.orgs, a.work[|a.deltas|].org)));
  }

  lemma TakeCompatible(w: World, m: Move, u: TxId)
    requires LockInv(w) && Enabled(w, m) && (m.TakeAdvisory? || m.Perform?) && u in w.txs && u != m.t
    ensures Held(Next(w, m).txs[m.t]) <= |w.txs[m.t].work|
    ensures Compatible(Next(w, m).txs[m.t], w.txs[u]) && Compatible(w.txs[u], Next(w, m).txs[m.t])
  {
    if m.TakeAdvisory? {
      AdvisoryCompatible(w, m.t, u);
    } else {
      HeadCompatible(w, m.t, u);
    }
    CompatibleSymmetric(Next(w, m).txs[m.t], w.txs[u]);
  }

  lemma CompatibleKept(w: World, m: Move)
    requires LockInv(w) && Enabled(w, m)
    requires forall t :: t in Next(w, m).txs ==> WellFormed(Next(w, m).txs[t])
    ensures forall t, u :: t in Next(w, m).txs && u in Next(w, m).txs && t != u ==> Compatible(Next(w, m).txs[t], Next(w, m).txs[u])
  {
    var q := Next(w, m);
    forall t, u | t in q.txs && u in q.txs && t != u ensures Compatible(q.txs[t], q.txs[u]) {
      if (m.TakeAdvisory? || m.Perform?) && m.t == t {
        TakeCompatible(w, m, u);
      } else if (m.TakeAdvisory? || m.Perform?) && m.t == u {
        TakeCompatible(w, m, t);
      }
    }
  }

  lemma MoveKeepsLocks(w: World, m: Move)
    requires LockInv(w) && Enabled(w, m)
    ensures LockInv(Next(w, m))
  {
    OrgsKept(w, m);
    CurrentKept(w, m);
    CompatibleKept(w, m);
  }

  /******* Interleaved runs *******/

  ghost function After(w: World, moves: seq<Move>): World
    decreases |moves|
  {
    if |moves| == 0 then w
    else if Enabled(w, moves[0]) then After(Next(w, moves[0]), moves[1..])
    else After(w, moves[1..])
  }

  lemma {:induction false} RunConcat(o: Org, a: seq<Action>, b: seq<Action>)
    ensures Run(Run(o, a), b) == Run(o, a + b)
    decreases |a|
  {
    if |a| == 0 {
      assert a + b == b;
    } else {
      RunConcat(Step(o, a[0]), a[1..], b);
      assert (a + b)[1..] == a[1..] + b;
    }
  }

  /**
   Refinement. However transactions interleave, block, crash and commit, what a
   reader's snapshot shows of an organization is the outcome of a run of atomic
   steps, so cursor order is commit order and every theorem about runs applies.
   */
  lemma {:induction false} InterleavingsAreRuns(w: World, moves: seq<Move>, o: OrgId) returns (steps: seq<Action>)
    requires LockInv(w)
    ensures LockInv(After(w, moves))
    ensures OrgIn(After(w, moves).orgs, o) == Run(OrgIn(w.orgs, o), steps)
    decreases |moves|
  {
    if |moves| == 0 {
      steps := [];
    } else if Enabled(w, moves[0]) {
      MoveKeepsLocks(w, moves[0]);
      var first := MoveIsStep(w, moves[0], o);
      var rest := InterleavingsAreRuns(Next(w, moves[0]), moves[1..], o);
      RunConcat(OrgIn(w.orgs, o), first, rest);
      steps := first + rest;
    } else {
      steps := InterleavingsAreRuns(w, moves[1..], o);
    }
  }

  /** A snapshot with head H holds, for every cursor up to H not yet pruned, its entry or the gap it marks. */
  lemma SnapshotContiguous(o: Org, c: nat)
    requires Inv(o) && o.prunedThrough < c <= OrZero(o.head)
    ensures (exists e :: e in o.entries && e.cursor == c) || Mark(c) in o.history
  {
    CursorTaken(o.history, c);
    if i :| 0 <= i < |o.history| && o.history[i].Journaled? && o.history[i].entry.cursor == c {
      LogHas(o.history, i);
      LogSorted(o.history);
      AboveSuffix(Log(o.history), o.prunedThrough);
      var k :| 0 <= k < |Log(o.history)| && Log(o.history)[k] == o.history[i].entry;
      assert o.history[i].entry in o.entries;
    }
  }

  lemma {:induction false} CursorTaken(h: seq<Item>, c: nat)
    requires Ordered(h) && 0 < c <= OrZero(Top(h))
    ensures (exists i :: 0 <= i < |h| && h[i].Journaled? && h[i].entry.cursor == c) || Mark(c) in h
  {
    var init, last := h[..|h| - 1], h[|h| - 1];
    if last != Mark(c) && !(last.Journaled? && last.entry.cursor == c) {
      CursorTaken(init, c);
      if i :| 0 <= i < |init| && init[i].Journaled? && init[i].entry.cursor == c {
        assert h[i].Journaled? && h[i].entry.cursor == c;
      }
    }
  }

  lemma {:induction false} LogHas(h: seq<Item>, i: nat)
    requires i < |h| && h[i].Journaled?
    ensures h[i].entry in Log(h)
  {
    if i < |h| - 1 {
      LogHas(h[..|h| - 1], i);
    }
  }

  /******* The outbox and the journal commit together *******/

  /** Every change of a history, journaled or not. */
  function Changes(h: seq<Item>): seq<Event> {
    if |h| == 0 then []
    else
      var rest := Changes(h[..|h| - 1]);
      match h[|h| - 1]
      case Journaled(e) => rest + [e.event]
      case Unjournaled(ev) => rest + [ev]
      case Mark(_) => rest
  }

  function EventsOf(es: seq<Stamped>): seq<Event> {
    seq(|es|, i requires 0 <= i < |es| => es[i].event)
  }

  lemma ChangesSnoc(h: seq<Item>, x: Item)
    ensures Changes(h + [x]) == Changes(h) + (match x case Journaled(e) => [e.event] case Unjournaled(ev) => [ev] case Mark(_) => [])
  {
    assert (h + [x])[..|h|] == h;
  }

  lemma {:induction false} SkippedChanges(h: seq<Item>, events: seq<Stamped>)
    ensures Changes(h + Skipped(events)) == Changes(h) + EventsOf(events)
    decreases |events|
  {
    if |events| == 0 {
      assert h + Skipped(events) == h;
    } else {
      var last := |events| - 1;
      SkippedChanges(h, events[..last]);
      assert h + Skipped(events) == h + Skipped(events[..last]) + [Unjournaled(events[last].event)];
      ChangesSnoc(h + Skipped(events[..last]), Unjournaled(events[last].event));
      assert EventsOf(events) == EventsOf(events[..last]) + [events[last].event];
    }
  }

  lemma {:induction false} JournalChanges(o: Org, events: seq<Stamped>)
    ensures Changes(JournalAll(o, events).history) == Changes(o.history) + EventsOf(events)
    decreases |events|
  {
    if |events| > 0 {
      var one := JournalOne(o, events[0]);
      JournalChanges(one, events[1..]);
      ChangesSnoc(o.history, one.history[|o.history|]);
      assert EventsOf(events) == [events[0].event] + EventsOf(events[1..]);
    }
  }

  lemma FlushChanges(o: Org, events: seq<Stamped>)
    ensures Changes(Flush(o, events).history) == Changes(o.history) + EventsOf(events)
  {
    if Journaling(o) { JournalChanges(o, events); } else { SkippedChanges(o.history, events); }
  }

  lemma SyncChanges(o: Org)
    ensures Changes(Sync(o).history) == Changes(o.history)
  {
    if !Journaling(o) && o.subscribers != {} {
      ChangesSnoc(o.history, Sync(o).history[|o.history|]);
    }
  }

  lemma ActionChanges(o: Org, work: Work)
    ensures Changes(Step(o, ActionOf(work)).history) == Changes(o.history) + EventsOf(if work.Write? then work.events else [])
  {
    if work.Write? {
      FlushChanges(o, work.events);
    } else {
      SyncChanges(o.(subscribers := work.subscribers));
    }
  }

  lemma CommitChanges(w: World, t: TxId, o: OrgId)
    requires LockInv(w) && Enabled(w, CommitTx(t))
    ensures Changes(OrgIn(Next(w, CommitTx(t)).orgs, o).history) ==
            Changes(OrgIn(w.orgs, o).history) + EventsOf(Of(JournalOf(w.txs[t].messages), o))
  {
    var before, tx := OrgIn(w.orgs, o), w.txs[t];
    assert WellFormed(tx);
    CommitAt(w, t, o);
    if WorksOn(tx.work, o) {
      var i :| 0 <= i < |tx.work| && tx.work[i].org == o;
      ActionChanges(before, tx.work[i]);
      assert Of(JournalOf(tx.messages), o) == if tx.work[i].Write? then tx.work[i].events else [];
    } else {
      assert Of(JournalOf(tx.messages), o) == [];
    }
  }

  /**
   Together or not at all: a move that adds messages to the outbox adds to every
   organization's history exactly the journal events among them, in their order;
   any other move adds to neither.
   */
  lemma OutboxWithJournal(w: World, m: Move, o: OrgId)
    requires LockInv(w) && Enabled(w, m)
    ensures var added := if m.CommitTx? then w.txs[m.t].messages else [];
            var q := Next(w, m);
            && q.outbox == w.outbox + added
            && Changes(OrgIn(q.orgs, o).history) ==
               Changes(OrgIn(w.orgs, o).history) + EventsOf(Of(JournalOf(added), o))
  {
    if m.CommitTx? {
      CommitChanges(w, m.t, o);
    } else {
      assert w.outbox + [] == w.outbox;
      HistoryKept(w, m, o);
      assert EventsOf(Of(JournalOf([]), o)) == [];
    }
  }

  lemma HistoryKept(w: World, m: Move, o: OrgId)
    requires Enabled(w, m) && !m.CommitTx?
    ensures Next(w, m).outbox == w.outbox && OrgIn(Next(w, m).orgs, o).history == OrgIn(w.orgs, o).history
  {
  }

  /******* Deadlock freedom *******/

  // The lock a transaction asks for next: an organization's advisory lock or its head row.
  datatype Wait = Wait(org: OrgId, head: bool)

  ghost function WaitOf(w: World, t: TxId): Option<Wait>
    requires t in w.txs
  {
    var tx := w.txs[t];
    if |tx.deltas| >= |tx.work| then None
    else
      var next := tx.work[|tx.deltas|];
      if !tx.advisory then Some(Wait(next.org, false))
      else if NeedsHead(Decide(next, OrgIn(w.orgs, next.org))) then Some(Wait(next.org, true))
      else None
  }

  /** t asks for a lock that u holds in a conflicting mode. */
  ghost predicate BlockedBy(w: World, t: TxId, u: TxId) {
    && t in w.txs && u in w.txs && t != u && WellFormed(w.txs[t]) && WellFormed(w.txs[u])
    && WaitOf(w, t).Some?
    && var wait, next, b := WaitOf(w, t).value, w.txs[t].work[|w.txs[t].deltas|], w.txs[u];
       if wait.head
       then exists j :: 0 <= j < |b.deltas| && b.work[j].org == wait.org && NeedsHead(b.deltas[j])
       else exists j :: 0 <= j < Held(b) && b.work[j].org == wait.org && !(b.work[j].Write? && next.Write?)
  }

  ghost predicate AllWellFormed(w: World) {
    forall t :: t in w.txs ==> WellFormed(w.txs[t])
  }

  lemma AdvisoryBlocked(w: World, t: TxId)
    requires AllWellFormed(w) && t in w.txs && |w.txs[t].deltas| < |w.txs[t].work| && !w.txs[t].advisory
    ensures (forall u :: !BlockedBy(w, t, u)) <==> AdvisoryFree(w, t, w.txs[t].work[|w.txs[t].deltas|])
  {
    var next := w.txs[t].work[|w.txs[t].deltas|];
    if !AdvisoryFree(w, t, next) {
      var u, j :| u in w.txs && u != t && 0 <= j < Held(w.txs[u]) && j < |w.txs[u].work| && w.txs[u].work[j].org == next.org
                  && !(w.txs[u].work[j].Write? && next.Write?);
      assert BlockedBy(w, t, u);
    }
  }

  lemma HeadBlocked(w: World, t: TxId)
    requires AllWellFormed(w) && t in w.txs && |w.txs[t].deltas| < |w.txs[t].work| && w.txs[t].advisory
    ensures var next := w.txs[t].work[|w.txs[t].deltas|];
            (forall u :: !BlockedBy(w, t, u)) <==> (NeedsHead(Decide(next, OrgIn(w.orgs, next.org))) ==> HeadFree(w, t, next.org))
  {
    var next := w.txs[t].work[|w.txs[t].deltas|];
    if NeedsHead(Decide(next, OrgIn(w.orgs, next.org))) && !HeadFree(w, t, next.org) {
      var u, j :| u in w.txs && u != t && 0 <= j < |w.txs[u].deltas| && j < |w.txs[u].work| && w.txs[u].work[j].org == next.org
                  && NeedsHead(w.txs[u].deltas[j]);
      assert BlockedBy(w, t, u);
    }
  }

  /** A transaction is blocked by nobody exactly when its next move is enabled. */
  lemma BlockedOrEnabled(w: World, t: TxId)
    requires AllWellFormed(w) && t in w.txs
    ensures (forall u :: !BlockedBy(w, t, u)) <==>
            Enabled(w, TakeAdvisory(t)) || Enabled(w, Perform(t)) || Enabled(w, CommitTx(t))
  {
    var tx := w.txs[t];
    assert WellFormed(tx);
    if |tx.deltas| < |tx.work| {
      if tx.advisory { HeadBlocked(w, t); } else { AdvisoryBlocked(w, t); }
    }
  }

  ghost predicate WaitLess(a: Wait, b: Wait) {
    Less(a.org, b.org) || (a.org == b.org && !a.head && b.head)
  }

  lemma WaitOrder(a: Wait, b: Wait, c: Wait)
    ensures WaitLess(a, b) && WaitLess(b, c) ==> WaitLess(a, c)
    ensures !WaitLess(a, a)
    ensures a == b || WaitLess(a, b) || WaitLess(b, a)
  {
    if Less(a.org, b.org) && Less(b.org, c.org) { LessTransitive(a.org, b.org, c.org); }
    LessTotal(a.org, b.org);
    LessTotal(a.org, a.org);
  }

  /** journalOrganizations' order: every transaction works through increasing organizations. */
  ghost predicate InOrder(tx: Tx) {
    forall i, j :: 0 <= i < j < |tx.work| ==> Less(tx.work[i].org, tx.work[j].org)
  }

  lemma BlockerWaitsHigher(w: World, t: TxId, u: TxId)
    requires BlockedBy(w, t, u) && InOrder(w.txs[u]) && WaitOf(w, u).Some?
    ensures WaitLess(WaitOf(w, t).value, WaitOf(w, u).value)
  {
  }

  ghost predicate WaitChain(w: World, ts: seq<TxId>) {
    forall i :: 0 <= i < |ts| - 1 ==> BlockedBy(w, ts[i], ts[i + 1])
  }

  lemma {:induction false} ChainClimbs(w: World, ts: seq<TxId>)
    requires |ts| >= 2 && WaitChain(w, ts) && BlockedBy(w, ts[0], ts[1])
    requires forall t :: t in w.txs ==> InOrder(w.txs[t])
    requires ts[|ts| - 1] in w.txs && WaitOf(w, ts[|ts| - 1]).Some?
    ensures WaitLess(WaitOf(w, ts[0]).value, WaitOf(w, ts[|ts| - 1]).value)
    decreases |ts|
  {
    var n := |ts| - 1;
    assert BlockedBy(w, ts[n - 1], ts[n]);
    BlockerWaitsHigher(w, ts[n - 1], ts[n]);
    if n > 1 {
      ChainClimbs(w, ts[..n]);
      WaitOrder(WaitOf(w, ts[0]).value, WaitOf(w, ts[n - 1]).value, WaitOf(w, ts[n]).value);
    }
  }

  /** The wait graph has no cycle. */
  lemma NoDeadlock(w: World, ts: seq<TxId>)
    requires |ts| >= 2 && WaitChain(w, ts) && forall t :: t in w.txs ==> InOrder(w.txs[t])
    ensures ts[0] != ts[|ts| - 1]
  {
    assert BlockedBy(w, ts[0], ts[1]);
    if ts[0] == ts[|ts| - 1] {
      ChainClimbs(w, ts);
      WaitOrder(WaitOf(w, ts[0]).value, WaitOf(w, ts[0]).value, WaitOf(w, ts[0]).value);
    }
  }

  lemma {:induction false} HighestWait(w: World, ts: set<TxId>) returns (top: TxId)
    requires ts != {} && forall t :: t in ts ==> t in w.txs && WaitOf(w, t).Some?
    ensures top in ts && forall t :: t in ts ==> !WaitLess(WaitOf(w, top).value, WaitOf(w, t).value)
    decreases |ts|
  {
    var one :| one in ts;
    var rest := ts - {one};
    top := one;
    if rest != {} {
      var other := HighestWait(w, rest);
      if WaitLess(WaitOf(w, one).value, WaitOf(w, other).value) { top := other; }
      WaitOrder(WaitOf(w, one).value, WaitOf(w, other).value, WaitOf(w, one).value);
      forall t | t in ts ensures !WaitLess(WaitOf(w, top).value, WaitOf(w, t).value) {
        WaitOrder(WaitOf(w, other).value, WaitOf(w, one).value, WaitOf(w, t).value);
        WaitOrder(WaitOf(w, one).value, WaitOf(w, one).value, WaitOf(w, one).value);
        assert t in rest || t == one;
      }
    } else {
      WaitOrder(WaitOf(w, one).value, WaitOf(w, one).value, WaitOf(w, one).value);
      assert forall t :: t in ts ==> t == one by {
        forall t | t in ts ensures t == one { assert t !in rest; }
      }
    }
  }

  lemma SomeoneUnblocked(w: World) returns (t: TxId)
    requires w.txs.Keys != {} && forall t :: t in w.txs ==> InOrder(w.txs[t])
    ensures t in w.txs && forall u :: !BlockedBy(w, t, u)
  {
    var waiting := set t | t in w.txs.Keys && WaitOf(w, t).Some?;
    if waiting == {} {
      t :| t in w.txs.Keys;
      assert t !in waiting;
    } else {
      t := HighestWait(w, waiting);
      if u :| BlockedBy(w, t, u) {
        if u in waiting {
          BlockerWaitsHigher(w, t, u);
        }
        t := u;
      }
    }
  }

  /** Progress: while any transaction is open, some transaction can move. */
  lemma SomeoneMoves(w: World) returns (t: TxId)
    requires LockInv(w) && w.txs.Keys != {} && forall t :: t in w.txs ==> InOrder(w.txs[t])
    ensures t in w.txs && (Enabled(w, TakeAdvisory(t)) || Enabled(w, Perform(t)) || Enabled(w, CommitTx(t)))
  {
    t := SomeoneUnblocked(w);
    BlockedOrEnabled(w, t);
  }

  /** A flushing writer, which works through journalOrganizations' groups, is in order. */
  lemma GroupsInOrder(groups: seq<Group>, es: seq<Tagged>, messages: seq<Message>)
    requires Partition(groups, es) && es == JournalOf(messages)
    ensures var work := seq(|groups|, i requires 0 <= i < |groups| => Write(groups[i].org, groups[i].entries));
            InOrder(Tx(work, messages, [], false)) && Distinct(work) && Matches(work, messages)
  {
    var work := seq(|groups|, i requires 0 <= i < |groups| => Write(groups[i].org, groups[i].entries));
    forall i, j | 0 <= i < j < |work| ensures work[i].org != work[j].org {
      LessTotal(groups[i].org, groups[j].org);
    }
    forall org | |Of(es, org)| > 0 ensures WorksOn(work, org) {
      var i :| 0 <= i < |groups| && groups[i].org == org;
      assert work[i].org == org;
    }
  }

  /******* Exactly when a subscription change over two organizations deadlocks with a writer *******/

  /** A transaction with the first work and one with the second block each other. */
  ghost predicate Deadlocked(q: World, first: seq<Work>, second: seq<Work>) {
    exists t, u :: Facing(q, t, u, first, second)
  }

  ghost predicate Facing(q: World, t: TxId, u: TxId, first: seq<Work>, second: seq<Work>) {
    && t in q.txs && u in q.txs && q.txs[t].work == first && q.txs[u].work == second
    && BlockedBy(q, t, u) && BlockedBy(q, u, t)
  }

  ghost predicate DeadlockedAfter(w: World, moves: seq<Move>, first: seq<Work>, second: seq<Work>) {
    Deadlocked(After(w, moves), first, second)
  }

  /** Some interleaving ends in such a state. */
  ghost predicate CanDeadlock(w: World, first: seq<Work>, second: seq<Work>) {
    exists moves :: DeadlockedAfter(w, moves, first, second)
  }

  function WriteTwo(a: OrgId, b: OrgId, ea: seq<Stamped>, eb: seq<Stamped>): seq<Work> {
    [Write(a, ea), Write(b, eb)]
  }

  function ChangeTwo(a: OrgId, b: OrgId, sa: set<PluginId>, sb: set<PluginId>): seq<Work> {
    [Change(a, sa), Change(b, sb)]
  }

  /** Each transaction takes its first organization. */
  function FirstLocks(write: seq<Work>, ms: seq<Message>, change: seq<Work>): seq<Move> {
    [Begin(0, write, ms), Begin(1, change, []), TakeAdvisory(0), Perform(0), TakeAdvisory(1), Perform(1)]
  }

  lemma AfterStep(w: World, m: Move, rest: seq<Move>)
    requires Enabled(w, m)
    ensures After(w, [m] + rest) == After(Next(w, m), rest)
  {
    assert ([m] + rest)[1..] == rest;
  }

  lemma BothBegin(w: World, write: seq<Work>, ms: seq<Message>, change: seq<Work>, rest: seq<Move>)
    requires w.txs == map[] && Distinct(write) && Distinct(change) && Matches(write, ms) && Matches(change, [])
    ensures After(w, [Begin(0, write, ms)] + ([Begin(1, change, [])] + rest)) ==
            After(w.(txs := map[0 := Tx(write, ms, [], false), 1 := Tx(change, [], [], false)]), rest)
  {
    var one := w.(txs := map[0 := Tx(write, ms, [], false)]);
    AfterStep(w, Begin(0, write, ms), [Begin(1, change, [])] + rest);
    assert Next(w, Begin(0, write, ms)) == one;
    AfterStep(one, Begin(1, change, []), rest);
    assert Next(one, Begin(1, change, [])) == w.(txs := map[0 := Tx(write, ms, [], false), 1 := Tx(change, [], [], false)]);
  }

  /** A transaction whose first organization no other one holds takes it. */
  lemma TakesFirst(w: World, t: TxId, rest: seq<Move>)
    requires t in w.txs && w.txs[t].deltas == [] && !w.txs[t].advisory && |w.txs[t].work| > 0
    requires forall u, j :: u in w.txs && u != t && 0 <= j < |w.txs[u].work| && j < Held(w.txs[u]) ==> w.txs[u].work[j].org != w.txs[t].work[0].org
    ensures var first := w.txs[t].work[0];
            After(w, [TakeAdvisory(t)] + ([Perform(t)] + rest)) ==
            After(w.(txs := w.txs[t := w.txs[t].(deltas := [Decide(first, OrgIn(w.orgs, first.org))])]), rest)
  {
    var first := w.txs[t].work[0];
    var held := w.(txs := w.txs[t := w.txs[t].(advisory := true)]);
    AfterStep(w, TakeAdvisory(t), [Perform(t)] + rest);
    assert Next(w, TakeAdvisory(t)) == held;
    assert HeadFree(held, t, first.org);
    AfterStep(held, Perform(t), rest);
    var d := Decide(first, OrgIn(w.orgs, first.org));
    assert held.txs[t].deltas + [d] == [d];
    assert Next(held, Perform(t)) == w.(txs := w.txs[t := w.txs[t].(deltas := [d])]);
  }

  /** Both transactions hold their first organization. */
  function HalfWay(w: World, write: seq<Work>, ms: seq<Message>, change: seq<Work>): World
    requires |write| > 0 && |change| > 0
  {
    var d, c := Decide(write[0], OrgIn(w.orgs, write[0].org)), Decide(change[0], OrgIn(w.orgs, change[0].org));
    w.(txs := map[0 := Tx(write, ms, [d], false), 1 := Tx(change, [], [c], false)])
  }

  lemma ReachesHalfWay(w: World, write: seq<Work>, ms: seq<Message>, change: seq<Work>)
    requires w.txs == map[] && Distinct(write) && Distinct(change) && Matches(write, ms) && Matches(change, [])
    requires |write| > 0 && |change| > 0 && write[0].org != change[0].org
    ensures After(w, FirstLocks(write, ms, change)) == HalfWay(w, write, ms, change)
  {
    var rest := [TakeAdvisory(1)] + ([Perform(1)] + []);
    assert FirstLocks(write, ms, change) ==
           [Begin(0, write, ms)] + ([Begin(1, change, [])] + ([TakeAdvisory(0)] + ([Perform(0)] + rest)));
    BothBegin(w, write, ms, change, [TakeAdvisory(0)] + ([Perform(0)] + rest));
    FirstTakes(w, write, ms, change, rest);
    SecondTakes(w, write, ms, change);
  }

  lemma FirstTakes(w: World, write: seq<Work>, ms: seq<Message>, change: seq<Work>, rest: seq<Move>)
    requires |write| > 0 && |change| > 0
    ensures var d := Decide(write[0], OrgIn(w.orgs, write[0].org));
            After(w.(txs := map[0 := Tx(write, ms, [], false), 1 := Tx(change, [], [], false)]), [TakeAdvisory(0)] + ([Perform(0)] + rest)) ==
            After(w.(txs := map[0 := Tx(write, ms, [d], false), 1 := Tx(change, [], [], false)]), rest)
  {
    var tx, cx := Tx(write, ms, [], false), Tx(change, [], [], false);
    var d := Decide(write[0], OrgIn(w.orgs, write[0].org));
    var w1 := w.(txs := map[0 := tx, 1 := cx]);
    TakesFirst(w1, 0, rest);
    assert w1.txs[0 := tx.(deltas := [d])] == map[0 := Tx(write, ms, [d], false), 1 := cx];
  }

  lemma SecondTakes(w: World, write: seq<Work>, ms: seq<Message>, change: seq<Work>)
    requires |write| > 0 && |change| > 0 && write[0].org != change[0].org
    ensures var d := Decide(write[0], OrgIn(w.orgs, write[0].org));
            After(w.(txs := map[0 := Tx(write, ms, [d], false), 1 := Tx(change, [], [], false)]), [TakeAdvisory(1)] + ([Perform(1)] + [])) ==
            HalfWay(w, write, ms, change)
  {
    var d, c := Decide(write[0], OrgIn(w.orgs, write[0].org)), Decide(change[0], OrgIn(w.orgs, change[0].org));
    var tx, cx := Tx(write, ms, [d], false), Tx(change, [], [], false);
    var w2 := w.(txs := map[0 := tx, 1 := cx]);
    TakesFirst(w2, 1, []);
    assert w2.txs[1 := cx.(deltas := [c])] == map[0 := tx, 1 := Tx(change, [], [c], false)];
  }

  lemma HalfWayFaces(q: World, a: OrgId, b: OrgId)
    requires 0 in q.txs && 1 in q.txs && WellFormed(q.txs[0]) && WellFormed(q.txs[1])
    requires var tx, cx := q.txs[0], q.txs[1];
             && |tx.work| == |cx.work| == 2 && |tx.deltas| == |cx.deltas| == 1 && !tx.advisory && !cx.advisory
             && tx.work[0].org == a && tx.work[1].org == b && cx.work[0].org == b && cx.work[1].org == a
             && cx.work[0].Change? && cx.work[1].Change?
    ensures BlockedBy(q, 0, 1) && BlockedBy(q, 1, 0)
  {
    assert WaitOf(q, 0) == Some(Wait(b, false)) && WaitOf(q, 1) == Some(Wait(a, false));
  }

  /**
   Whatever the organizations hold, a writer over a and then b and a subscription change over b and then a reach a
   state in which each waits for the other.
   */
  lemma OppositeOrdersDeadlock(w: World, a: OrgId, b: OrgId, ea: seq<Stamped>, eb: seq<Stamped>, ms: seq<Message>, sa: set<PluginId>, sb: set<PluginId>)
    requires w.txs == map[] && a != b && Matches(WriteTwo(a, b, ea, eb), ms)
    ensures var write, change := WriteTwo(a, b, ea, eb), ChangeTwo(b, a, sb, sa);
            Facing(After(w, FirstLocks(write, ms, change)), 0, 1, write, change)
  {
    var write, change := WriteTwo(a, b, ea, eb), ChangeTwo(b, a, sb, sa);
    assert Matches(change, []) by { assert JournalOf([]) == []; }
    ReachesHalfWay(w, write, ms, change);
    HalfWayFaces(HalfWay(w, write, ms, change), a, b);
  }

  /** Transactions in increasing order never face each other. */
  lemma OrderedNeverFace(q: World, t: TxId, u: TxId)
    requires BlockedBy(q, t, u) && BlockedBy(q, u, t)
    ensures !(InOrder(q.txs[t]) && InOrder(q.txs[u]))
  {
    if InOrder(q.txs[t]) && InOrder(q.txs[u]) {
      BlockerWaitsHigher(q, t, u);
      BlockerWaitsHigher(q, u, t);
      WaitOrder(WaitOf(q, t).value, WaitOf(q, u).value, WaitOf(q, t).value);
    }
  }

  /**
   A writer works in increasing organization order. A subscription change over the same two organizations can deadlock
   with it, in some run from any committed rows, if and only if it takes them in the other order.
   */
  lemma DeadlockExactly(w: World, low: OrgId, high: OrgId, el: seq<Stamped>, eh: seq<Stamped>, ms: seq<Message>,
                        x: OrgId, y: OrgId, sx: set<PluginId>, sy: set<PluginId>)
    requires w.txs == map[] && Less(low, high) && Matches(WriteTwo(low, high, el, eh), ms)
    requires (x == low && y == high) || (x == high && y == low)
    ensures CanDeadlock(w, WriteTwo(low, high, el, eh), ChangeTwo(x, y, sx, sy)) <==> Less(y, x)
  {
    var write, change := WriteTwo(low, high, el, eh), ChangeTwo(x, y, sx, sy);
    LessTotal(low, high);
    if Less(y, x) {
      OppositeOrdersDeadlock(w, low, high, el, eh, ms, sy, sx);
      assert DeadlockedAfter(w, FirstLocks(write, ms, change), write, change);
    } else {
      forall moves: seq<Move> ensures !DeadlockedAfter(w, moves, write, change) {
        SameOrderNeverDeadlocks(After(w, moves), low, high, el, eh, sx, sy);
      }
    }
  }

  lemma SameOrderNeverDeadlocks(q: World, low: OrgId, high: OrgId, el: seq<Stamped>, eh: seq<Stamped>, sl: set<PluginId>, sh: set<PluginId>)
    requires Less(low, high)
    ensures !Deadlocked(q, WriteTwo(low, high, el, eh), ChangeTwo(low, high, sl, sh))
  {
    if t, u :| Facing(q, t, u, WriteTwo(low, high, el, eh), ChangeTwo(low, high, sl, sh)) {
      OrderedNeverFace(q, t, u);
    }
  }
}
