/**
 Observation grants of one plugin in one organization: commands that rotate a grant's
 revision, the receipts that make them replayable, and the table that indexes the
 targets of every issued revision.
 */
module ObservationGrants {
  import opened Base

  type Uuid = nat
  const NIL: Uuid := 0
  const MAX_TARGETS := 10000

  datatype Target = Target(project: Uuid, environment: Uuid)

  datatype Action = Replace | Revoke

  // `formatted` is the outcome of the checks on identities, lengths and the reason's text.
  datatype Command = Command(
    grant: Uuid, actor: Uuid, operation: string, request: string, formatted: bool,
    expected: int, action: Action, targets: seq<Target>, expires: Option<int>)

  datatype Grant = Grant(
    lastRequest: string, actor: Uuid, operation: string, revision: nat, active: bool, targets: seq<Target>, expires: Option<int>)

  datatype Error = BadRequest | Conflict | NotFound

  datatype Entry = Entry(grant: Uuid, revision: nat, target: Target)

  datatype CommandKey = CommandKey(grant: Uuid, request: string)

  // A receipt keeps the digest of its command; the digest identifies the command.
  datatype Receipt = Receipt(command: Command, response: Grant)

  datatype Store = Store(
    grants: map<Uuid, Grant>,
    index: set<Entry>,
    receipts: map<CommandKey, Receipt>,
    projects: map<Uuid, Uuid>)  // the Project of each existing Environment

  const EMPTY := Store(map[], {}, map[], map[])

  /******* Applying a command *******/

  predicate Acceptable(c: Command, now: int) {
    && c.formatted && |c.targets| <= MAX_TARGETS
    && (c.action.Replace? <==> c.targets != [])
    && (c.expires.Some? ==> c.expires.value > now)
  }

  predicate UniqueTargets(targets: seq<Target>) {
    && (forall t :: t in targets ==> t.project != NIL && t.environment != NIL)
    && (forall i, j :: 0 <= i < j < |targets| ==> targets[i].environment != targets[j].environment)
  }

  /** Another grant's command already carried this actor's request identity. */
  ghost predicate RequestUsed(s: Store, c: Command) {
    exists k :: k in s.receipts && s.receipts[k].command.actor == c.actor && s.receipts[k].command.request == c.request
  }

  function KeyOf(c: Command): CommandKey {
    CommandKey(c.grant, c.request)
  }

  function RevisionOf(s: Store, grant: Uuid): nat {
    if grant in s.grants then s.grants[grant].revision else 0
  }

  function Issue(c: Command, revision: nat): Grant {
    Grant(c.request, c.actor, c.operation, revision, c.action.Replace?,
          if c.action.Replace? then c.targets else [],
          if c.action.Replace? then c.expires else None)
  }

  function Entries(c: Command, revision: nat): set<Entry> {
    set t | t in c.targets :: Entry(c.grant, revision, t)
  }

  /** The three writes of an accepted command. */
  function Record(s: Store, c: Command): Store {
    var revision := RevisionOf(s, c.grant) + 1;
    s.(grants := s.grants[c.grant := Issue(c, revision)],
       index := s.index + Entries(c, revision),
       receipts := s.receipts[KeyOf(c) := Receipt(c, Issue(c, revision))])
  }

  ghost function TargetError(s: Store, targets: seq<Target>): Option<Error> {
    if !UniqueTargets(targets) then Some(BadRequest)
    else if exists t :: t in targets && t.environment !in s.projects then Some(NotFound)
    else if exists t :: t in targets && t.environment in s.projects && s.projects[t.environment] != t.project then Some(Conflict)
    else None
  }

  ghost function Decide(s: Store, c: Command, now: int): Result<Grant, Error> {
    if !Acceptable(c, now) then Err(BadRequest)
    else if KeyOf(c) in s.receipts then
      if s.receipts[KeyOf(c)].command == c then Ok(s.receipts[KeyOf(c)].response) else Err(Conflict)
    else if c.expected != RevisionOf(s, c.grant) then Err(Conflict)
    else if TargetError(s, c.targets).Some? then Err(TargetError(s, c.targets).value)
    else if RequestUsed(s, c) then Err(Conflict)
    else Ok(Issue(c, RevisionOf(s, c.grant) + 1))
  }

  ghost function Apply(s: Store, c: Command, now: int): Store {
    if Decide(s, c, now).Ok? && KeyOf(c) !in s.receipts then Record(s, c) else s
  }

  /******* The two forms of the target check *******/

  predicate Current(g: Grant, revision: int, now: int) {
    g.active && g.revision == revision && (g.expires.Some? ==> g.expires.value > now)
  }

  /** CheckObservationGrant on the full list; the nil pair asks for no target. */
  predicate ListCheck(g: Grant, revision: int, target: Target, now: int) {
    Current(g, revision, now) && (target == Target(NIL, NIL) || target in g.targets)
  }

  predicate IndexedCheck(s: Store, grant: Uuid, revision: int, target: Target, now: int) {
    grant in s.grants && Current(s.grants[grant], revision, now) && IssuedCheck(s, grant, revision, target)
  }

  predicate IssuedCheck(s: Store, grant: Uuid, revision: int, target: Target) {
    revision >= 0 && Entry(grant, revision, target) in s.index
  }

  /******* Invariant *******/

  predicate IssuedBy(s: Store, k: CommandKey, grant: Uuid, revision: int) {
    k in s.receipts && k.grant == grant && s.receipts[k].response.revision == revision
  }

  ghost predicate ReceiptInv(s: Store, k: CommandKey)
    requires k in s.receipts
  {
    var r := s.receipts[k];
    && k == KeyOf(r.command) && r.response == Issue(r.command, r.response.revision)
    && k.grant in s.grants && 1 <= r.response.revision <= s.grants[k.grant].revision
    && UniqueTargets(r.command.targets) && (r.command.action.Replace? <==> r.command.targets != [])
    && Entries(r.command, r.response.revision) <= s.index
  }

  ghost predicate GrantInv(s: Store, g: Uuid)
    requires g in s.grants
  {
    && CommandKey(g, s.grants[g].lastRequest) in s.receipts
    && s.receipts[CommandKey(g, s.grants[g].lastRequest)].response == s.grants[g]
    && (forall r :: 1 <= r <= s.grants[g].revision ==> Numbered(s, g, r))
  }

  ghost predicate Numbered(s: Store, g: Uuid, revision: int) {
    exists k :: IssuedBy(s, k, g, revision)
  }

  ghost predicate EntryInv(s: Store, e: Entry) {
    exists k :: IssuedBy(s, k, e.grant, e.revision) && s.receipts[k].response.active && e.target in s.receipts[k].response.targets
  }

  ghost predicate Inv(s: Store) {
    && (forall k :: k in s.receipts ==> ReceiptInv(s, k))
    && (forall g :: g in s.grants ==> GrantInv(s, g))
    && (forall e :: e in s.index ==> EntryInv(s, e))
    && OneEach(s)
  }

  /** No revision is issued twice and no actor's request identity is used twice. */
  ghost predicate OneEach(s: Store) {
    forall k, l :: k in s.receipts && l in s.receipts ==>
      && (k.grant == l.grant && s.receipts[k].response.revision == s.receipts[l].response.revision ==> k == l)
      && (k.request == l.request && s.receipts[k].command.actor == s.receipts[l].command.actor ==> k == l)
  }

  lemma RecordKeepsGrants(s: Store, c: Command, g: Uuid)
    requires Inv(s) && KeyOf(c) !in s.receipts && g in Record(s, c).grants
    ensures GrantInv(Record(s, c), g)
  {
    var t := Record(s, c);
    if g in s.grants { assert GrantInv(s, g); }
    forall r | 1 <= r <= t.grants[g].revision ensures Numbered(t, g, r) {
      if g == c.grant && r == t.grants[g].revision {
        assert IssuedBy(t, KeyOf(c), g, r);
      } else {
        assert Numbered(s, g, r);
        var k :| IssuedBy(s, k, g, r);
        assert IssuedBy(t, k, g, r);
      }
    }
  }

  predicate Recordable(s: Store, c: Command) {
    && KeyOf(c) !in s.receipts && UniqueTargets(c.targets) && (c.action.Replace? <==> c.targets != [])
  }

  lemma RecordKeepsReceipts(s: Store, c: Command, k: CommandKey)
    requires Inv(s) && Recordable(s, c) && k in Record(s, c).receipts
    ensures ReceiptInv(Record(s, c), k)
  {
    if k != KeyOf(c) { assert ReceiptInv(s, k); }
  }

  lemma RecordKeepsEntries(s: Store, c: Command, e: Entry)
    requires Inv(s) && Recordable(s, c) && e in Record(s, c).index
    ensures EntryInv(Record(s, c), e)
  {
    var t := Record(s, c);
    if e in s.index {
      assert EntryInv(s, e);
      var k :| IssuedBy(s, k, e.grant, e.revision) && s.receipts[k].response.active && e.target in s.receipts[k].response.targets;
      assert IssuedBy(t, k, e.grant, e.revision) && t.receipts[k] == s.receipts[k];
    } else {
      assert IssuedBy(t, KeyOf(c), e.grant, e.revision) && t.receipts[KeyOf(c)].response.active;
    }
  }

  /** Two receipts of different commands differ in revision or grant, and in actor or request. */
  predicate Different(k: CommandKey, r: Receipt, l: CommandKey, q: Receipt) {
    && !(k.grant == l.grant && r.response.revision == q.response.revision)
    && !(k.request == l.request && r.command.actor == q.command.actor)
  }

  lemma RecordKeepsOneEach(s: Store, c: Command)
    requires Inv(s) && Recordable(s, c) && !RequestUsed(s, c)
    ensures OneEach(Record(s, c))
  {
    var t := Record(s, c);
    var r := t.receipts[KeyOf(c)];
    forall k | k in s.receipts ensures Different(k, s.receipts[k], KeyOf(c), r) {
      assert ReceiptInv(s, k);
      assert s.receipts[k].command.actor == c.actor ==> s.receipts[k].command.request != c.request;
    }
    OneEachWith(s, t, KeyOf(c), r);
  }

  lemma OneEachWith(s: Store, t: Store, key: CommandKey, r: Receipt)
    requires OneEach(s) && key !in s.receipts && t.receipts == s.receipts[key := r]
    requires forall k :: k in s.receipts ==> Different(k, s.receipts[k], key, r)
    ensures OneEach(t)
  {
  }

  lemma RecordKeeps(s: Store, c: Command)
    requires Inv(s) && Recordable(s, c) && !RequestUsed(s, c)
    ensures Inv(Record(s, c))
  {
    var t := Record(s, c);
    forall k | k in t.receipts ensures ReceiptInv(t, k) { RecordKeepsReceipts(s, c, k); }
    forall g | g in t.grants ensures GrantInv(t, g) { RecordKeepsGrants(s, c, g); }
    forall e | e in t.index ensures EntryInv(t, e) { RecordKeepsEntries(s, c, e); }
    RecordKeepsOneEach(s, c);
  }

  /******* Runs *******/

  datatype Step = Obey(command: Command, now: int) | Place(environment: Uuid, project: Uuid) | Remove(environment: Uuid)

  ghost function Do(s: Store, step: Step): Store {
    match step
    case Obey(c, now) => Apply(s, c, now)
    case Place(e, p) => s.(projects := s.projects[e := p])
    case Remove(e) => s.(projects := s.projects - {e})
  }

  ghost function Run(s: Store, steps: seq<Step>): Store
    decreases |steps|
  {
    if |steps| == 0 then s else Run(Do(s, steps[0]), steps[1..])
  }

  lemma DoKeeps(s: Store, step: Step)
    requires Inv(s)
    ensures Inv(Do(s, step))
  {
    if step.Obey? {
      if Apply(s, step.command, step.now) != s { RecordKeeps(s, step.command); }
    } else {
      PlacingKeeps(s, Do(s, step).projects);
    }
  }

  lemma PlacingKeeps(s: Store, projects: map<Uuid, Uuid>)
    requires Inv(s)
    ensures Inv(s.(projects := projects))
  {
    var t := s.(projects := projects);
    forall k | k in t.receipts ensures ReceiptInv(t, k) { assert ReceiptInv(s, k); }
    forall g | g in t.grants ensures GrantInv(t, g) {
      assert GrantInv(s, g);
      forall r | 1 <= r <= t.grants[g].revision ensures Numbered(t, g, r) {
        assert Numbered(s, g, r);
        var k :| IssuedBy(s, k, g, r);
        assert IssuedBy(t, k, g, r);
      }
    }
    forall e | e in t.index ensures EntryInv(t, e) {
      assert EntryInv(s, e);
      var k :| IssuedBy(s, k, e.grant, e.revision) && s.receipts[k].response.active && e.target in s.receipts[k].response.targets;
      assert IssuedBy(t, k, e.grant, e.revision);
    }
  }

  /** What later commands cannot take back. */
  ghost predicate Extends(s: Store, t: Store) {
    && (forall k :: k in s.receipts ==> k in t.receipts && t.receipts[k] == s.receipts[k])
    && (forall g :: RevisionOf(s, g) <= RevisionOf(t, g))
    && (forall g :: g in s.grants && RevisionOf(s, g) == RevisionOf(t, g) ==> g in t.grants && t.grants[g] == s.grants[g])
  }

  lemma DoExtends(s: Store, step: Step)
    ensures Extends(s, Do(s, step))
  {
  }

  lemma ExtendsTransitive(s: Store, t: Store, u: Store)
    requires Extends(s, t) && Extends(t, u)
    ensures Extends(s, u)
  {
    forall g ensures RevisionOf(s, g) <= RevisionOf(u, g) { assert RevisionOf(s, g) <= RevisionOf(t, g); }
    forall g | g in s.grants && RevisionOf(s, g) == RevisionOf(u, g) ensures g in u.grants && u.grants[g] == s.grants[g] {
      assert RevisionOf(s, g) <= RevisionOf(t, g) <= RevisionOf(u, g);
    }
  }

  lemma {:induction false} RunKeeps(s: Store, steps: seq<Step>)
    requires Inv(s)
    ensures Inv(Run(s, steps)) && Extends(s, Run(s, steps))
    decreases |steps|
  {
    if |steps| > 0 {
      var t := Do(s, steps[0]);
      DoKeeps(s, steps[0]);
      RunKeeps(t, steps[1..]);
      DoExtends(s, steps[0]);
      ExtendsTransitive(s, t, Run(s, steps));
    }
  }

  /******* Main results *******/

  /**
   In every reachable store the indexed check and the check on the full list agree for every
   grant, revision, target and time, except for the nil pair under a current revision, which the list check lets
   through and the index never holds.
   */
  lemma IndexAgrees(steps: seq<Step>, g: Uuid, revision: int, target: Target, now: int)
    requires g in Run(EMPTY, steps).grants
    ensures var s := Run(EMPTY, steps);
            IndexedCheck(s, g, revision, target, now) == ListCheck(s.grants[g], revision, target, now)
            <==> target != Target(NIL, NIL) || !Current(s.grants[g], revision, now)
  {
    RunKeeps(EMPTY, steps);
    IndexAgreesAt(Run(EMPTY, steps), g, revision, target, now);
  }

  lemma IndexAgreesAt(s: Store, g: Uuid, revision: int, target: Target, now: int)
    requires Inv(s) && g in s.grants
    ensures IndexedCheck(s, g, revision, target, now) == ListCheck(s.grants[g], revision, target, now)
            <==> target != Target(NIL, NIL) || !Current(s.grants[g], revision, now)
  {
    var grant := s.grants[g];
    var k := CommandKey(g, grant.lastRequest);
    assert GrantInv(s, g) && ReceiptInv(s, k);
    if Current(grant, revision, now) {
      if Entry(g, revision, target) in s.index {
        assert EntryInv(s, Entry(g, revision, target));
        var l :| IssuedBy(s, l, g, revision) && s.receipts[l].response.active && target in s.receipts[l].response.targets;
        assert l == k;
      }
    }
  }

  /**
   The command that gives authority: it issued this revision, no receipt of the grant has a greater one, and it is a selection
   that names the target and has not expired.
   */
  ghost predicate Authority(s: Store, k: CommandKey, g: Uuid, revision: int, target: Target, now: int) {
    && k in s.receipts && k.grant == g && s.receipts[k].response.revision == revision
    && (forall l :: l in s.receipts && l.grant == g ==> s.receipts[l].response.revision <= revision)
    && var c := s.receipts[k].command;
       c.action.Replace? && target in c.targets && (c.expires.None? || c.expires.value > now)
  }

  /**
   What the indexed check means: in every reachable store it passes if and only if the latest command of the grant issued this revision,
   is a selection naming the target, and is not expired.
   */
  lemma IndexedExactly(steps: seq<Step>, g: Uuid, revision: int, target: Target, now: int)
    ensures IndexedCheck(Run(EMPTY, steps), g, revision, target, now) <==>
            exists k :: Authority(Run(EMPTY, steps), k, g, revision, target, now)
  {
    RunKeeps(EMPTY, steps);
    IndexedExactlyAt(Run(EMPTY, steps), g, revision, target, now);
  }

  lemma IndexedExactlyAt(s: Store, g: Uuid, revision: int, target: Target, now: int)
    requires Inv(s)
    ensures IndexedCheck(s, g, revision, target, now) <==> exists k :: Authority(s, k, g, revision, target, now)
  {
    if IndexedCheck(s, g, revision, target, now) {
      assert EntryInv(s, Entry(g, revision, target));
      var k :| IssuedBy(s, k, g, revision) && s.receipts[k].response.active && target in s.receipts[k].response.targets;
      IndexedHasAuthority(s, k, g, target, now);
    }
    if k :| Authority(s, k, g, revision, target, now) {
      GrantOfLatest(s, k, g, revision, target, now);
      assert ReceiptInv(s, k);
      assert Entry(g, revision, target) in Entries(s.receipts[k].command, revision);
    }
  }

  lemma IndexedHasAuthority(s: Store, k: CommandKey, g: Uuid, target: Target, now: int)
    requires Inv(s) && g in s.grants && Current(s.grants[g], s.grants[g].revision, now)
    requires IssuedBy(s, k, g, s.grants[g].revision) && target in s.receipts[k].response.targets
    ensures Authority(s, k, g, s.grants[g].revision, target, now)
  {
    LatestCommandAt(s, g);
    assert k == CommandKey(g, s.grants[g].lastRequest);
  }

  /** The stored grant is what its latest command says. */
  lemma GrantOfLatest(s: Store, k: CommandKey, g: Uuid, revision: int, target: Target, now: int)
    requires Inv(s) && Authority(s, k, g, revision, target, now)
    ensures g in s.grants && s.grants[g].revision == revision && s.grants[g].active
    ensures s.grants[g].actor == s.receipts[k].command.actor && s.grants[g].expires == s.receipts[k].command.expires
  {
    assert ReceiptInv(s, k);
    LatestCommandAt(s, g);
    assert k == CommandKey(g, s.grants[g].lastRequest);
  }

  lemma LatestCommandAt(s: Store, g: Uuid)
    requires Inv(s) && g in s.grants
    ensures LatestCommand(s, g)
  {
    var grant := s.grants[g];
    var k := CommandKey(g, grant.lastRequest);
    assert GrantInv(s, g) && ReceiptInv(s, k);
    forall l | l in s.receipts && l.grant == g ensures s.receipts[l].response.revision <= grant.revision { assert ReceiptInv(s, l); }
  }

  /** The grant is what the command with the greatest revision asked for. */
  ghost predicate LatestCommand(s: Store, g: Uuid)
    requires g in s.grants
  {
    var grant := s.grants[g];
    var k := CommandKey(g, grant.lastRequest);
    && k in s.receipts && s.receipts[k].response == grant
    && (forall l :: l in s.receipts && l.grant == g ==> s.receipts[l].response.revision <= grant.revision)
    && KeyOf(s.receipts[k].command) == k && Asked(grant, s.receipts[k].command)
  }

  /** Field by field; a revocation leaves nothing. */
  predicate Asked(g: Grant, c: Command) {
    && g.lastRequest == c.request && g.actor == c.actor && g.operation == c.operation && (g.active <==> c.action.Replace?)
    && g.targets == c.targets && g.expires == (if c.action.Replace? then c.expires else None)
  }

  lemma GrantIsLatestCommand(steps: seq<Step>, g: Uuid)
    requires g in Run(EMPTY, steps).grants
    ensures LatestCommand(Run(EMPTY, steps), g)
  {
    RunKeeps(EMPTY, steps);
    LatestCommandAt(Run(EMPTY, steps), g);
  }

  /**
   When a command is accepted, and the two errors that are not a conflict. A command already answered is accepted as itself only; a new one needs the
   current revision, targets of distinct existing Environments in their own Projects, and a request its actor has not used.
   */
  lemma DecideExactly(s: Store, c: Command, now: int)
    ensures var formed := c.formatted && |c.targets| <= 10000 && (c.action.Replace? <==> |c.targets| > 0) && (c.expires.None? || c.expires.value > now);
            var key := CommandKey(c.grant, c.request);
            var due := key !in s.receipts && c.expected == (if c.grant in s.grants then s.grants[c.grant].revision else 0);
            && (Decide(s, c, now).Ok? <==>
                  && formed
                  && (key in s.receipts ==> s.receipts[key].command == c)
                  && (key !in s.receipts ==> due && Distinct(c.targets) && (forall t :: t in c.targets ==> Placed(s, t))
                                             && (forall k :: k in s.receipts && s.receipts[k].command.actor == c.actor ==> s.receipts[k].command.request != c.request)))
            && (Decide(s, c, now) == Err(BadRequest) <==> !formed || (due && !Distinct(c.targets)))
            && (Decide(s, c, now) == Err(NotFound) <==>
                  formed && due && Distinct(c.targets) && exists t :: t in c.targets && t.environment !in s.projects)
  {
  }

  /** Non-nil targets, no two of them of one Environment. */
  ghost predicate Distinct(targets: seq<Target>) {
    && (forall i :: 0 <= i < |targets| ==> targets[i].project != 0 && targets[i].environment != 0)
    && (forall i, j :: 0 <= i < |targets| && 0 <= j < |targets| && targets[i].environment == targets[j].environment ==> i == j)
  }

  predicate Placed(s: Store, t: Target) {
    t.environment in s.projects && s.projects[t.environment] == t.project
  }

  /** What an accepted new command leaves behind; every other grant, receipt and index entry stays. */
  lemma CommandApplied(s: Store, c: Command, now: int, e: Entry)
    requires Decide(s, c, now).Ok? && CommandKey(c.grant, c.request) !in s.receipts
    ensures var t := Apply(s, c, now);
            && c.grant in t.grants && t.grants == s.grants[c.grant := t.grants[c.grant]] && t.projects == s.projects
            && t.grants[c.grant].revision == c.expected + 1 && Asked(t.grants[c.grant], c)
            && t.receipts == s.receipts[CommandKey(c.grant, c.request) := Receipt(c, t.grants[c.grant])]
            && (e in t.index <==> e in s.index || (e.grant == c.grant && e.revision == c.expected + 1 && e.target in c.targets))
  {
  }

  /**
   The index is the exact history: a target is indexed under a revision if and only if the one
   command that issued that revision was an active selection naming it, whatever
   happened to the grant since.
   */
  lemma IndexIsHistory(steps: seq<Step>, g: Uuid, revision: int, target: Target)
    ensures var s := Run(EMPTY, steps);
            IssuedCheck(s, g, revision, target) <==>
            exists k :: IssuedBy(s, k, g, revision) && target in s.receipts[k].response.targets
  {
    RunKeeps(EMPTY, steps);
    var s := Run(EMPTY, steps);
    if IssuedCheck(s, g, revision, target) { assert EntryInv(s, Entry(g, revision, target)); }
    if k :| IssuedBy(s, k, g, revision) && target in s.receipts[k].response.targets {
      assert ReceiptInv(s, k);
      assert Entry(g, revision, target) in Entries(s.receipts[k].command, revision);
    }
  }

  /** The revisions of a grant are 1, 2, ... up to the current one, each issued by exactly one command. */
  lemma RevisionsIssuedOnce(steps: seq<Step>, g: Uuid, revision: int)
    ensures var s := Run(EMPTY, steps);
            && (Numbered(s, g, revision) <==> 1 <= revision <= RevisionOf(s, g))
            && (forall k, l :: IssuedBy(s, k, g, revision) && IssuedBy(s, l, g, revision) ==> k == l)
  {
    RunKeeps(EMPTY, steps);
    var s := Run(EMPTY, steps);
    if k :| IssuedBy(s, k, g, revision) { assert ReceiptInv(s, k); }
    if g in s.grants { assert GrantInv(s, g); }
  }

  /**
   Replay: once a command was answered it is answered the same in every later store where it is
   still acceptable, it changes nothing, and it does not revive a superseded revision.
   */
  lemma ReplayChangesNothing(before: seq<Step>, c: Command, now: int, after: seq<Step>, later: int)
    requires Decide(Run(EMPTY, before), c, now).Ok?
    ensures var answer := Decide(Run(EMPTY, before), c, now);
            var t := Run(Apply(Run(EMPTY, before), c, now), after);
            && (Decide(t, c, later) == if Acceptable(c, later) then answer else Err(BadRequest))
            && Apply(t, c, later) == t
            && (forall when :: RevisionOf(t, c.grant) > answer.value.revision ==>
                  !Current(t.grants[c.grant], answer.value.revision, when))
  {
    var s := Run(EMPTY, before);
    RunKeeps(EMPTY, before);
    DoKeeps(s, Obey(c, now));
    RunKeeps(Apply(s, c, now), after);
    Answered(s, c, now);
    ReplayAt(Run(Apply(s, c, now), after), c, later);
  }

  lemma Answered(s: Store, c: Command, now: int)
    requires Decide(s, c, now).Ok?
    ensures KeyOf(c) in Apply(s, c, now).receipts
    ensures Apply(s, c, now).receipts[KeyOf(c)] == Receipt(c, Decide(s, c, now).value)
  {
  }

  lemma ReplayAt(t: Store, c: Command, later: int)
    requires KeyOf(c) in t.receipts && t.receipts[KeyOf(c)].command == c
    ensures Decide(t, c, later) == if Acceptable(c, later) then Ok(t.receipts[KeyOf(c)].response) else Err(BadRequest)
    ensures Apply(t, c, later) == t
  {
  }

  /** A revision that is not current stays so: rotation and revocation are final. */
  lemma SupersededForever(before: seq<Step>, after: seq<Step>, g: Uuid, revision: int, now: int, later: int)
    requires g in Run(EMPTY, before).grants && revision <= RevisionOf(Run(EMPTY, before), g)
    requires !Current(Run(EMPTY, before).grants[g], revision, now) && now <= later
    ensures var t := Run(Run(EMPTY, before), after); g in t.grants && !Current(t.grants[g], revision, later)
  {
    RunKeeps(EMPTY, before);
    RunKeeps(Run(EMPTY, before), after);
    SupersededLater(Run(EMPTY, before), Run(Run(EMPTY, before), after), g, revision, now, later);
  }

  lemma SupersededLater(s: Store, t: Store, g: Uuid, revision: int, now: int, later: int)
    requires Inv(s) && Extends(s, t) && g in s.grants && revision <= RevisionOf(s, g) && !Current(s.grants[g], revision, now) && now <= later
    ensures g in t.grants && !Current(t.grants[g], revision, later)
  {
    assert GrantInv(s, g) && ReceiptInv(s, CommandKey(g, s.grants[g].lastRequest));
    assert 1 <= RevisionOf(s, g) <= RevisionOf(t, g);
  }

  /******* The store as the handler updates it *******/

  class GrantStore {
    var grants: map<Uuid, Grant>
    var index: set<Entry>
    var receipts: map<CommandKey, Receipt>
    var projects: map<Uuid, Uuid>

    constructor ()
      ensures Contents() == EMPTY
    {
      grants, index, receipts, projects := map[], {}, map[], map[];
    }

    ghost function Contents(): Store
      reads this
    {
      Store(grants, index, receipts, projects)
    }

    /** Scans the targets with the set of Environments seen so far. */
    static method CheckTargets(targets: seq<Target>) returns (ok: bool)
      ensures ok == UniqueTargets(targets)
    {
      var seen: set<Uuid> := {};
      for i := 0 to |targets|
        invariant seen == set j | 0 <= j < i :: targets[j].environment
        invariant UniqueTargets(targets[..i])
      {
        var t := targets[i];
        assert targets[..i + 1] == targets[..i] + [t];
        if t.project == NIL || t.environment == NIL || t.environment in seen {
          assert t in targets;
          return false;
        }
        seen := seen + {t.environment};
      }
      assert targets[..|targets|] == targets;
      return true;
    }

    /** The Environments that do not exist, and those of another Project. */
    method CountTargets(targets: seq<Target>) returns (missing: nat, changed: nat)
      ensures missing > 0 <==> exists t :: t in targets && t.environment !in projects
      ensures changed > 0 <==> exists t :: t in targets && t.environment in projects && projects[t.environment] != t.project
    {
      missing, changed := 0, 0;
      for i := 0 to |targets|
        invariant missing > 0 <==> exists t :: t in targets[..i] && t.environment !in projects
        invariant changed > 0 <==> exists t :: t in targets[..i] && t.environment in projects && projects[t.environment] != t.project
      {
        assert targets[..i + 1] == targets[..i] + [targets[i]];
        if targets[i].environment !in projects {
          missing := missing + 1;
        } else if projects[targets[i].environment] != targets[i].project {
          changed := changed + 1;
        }
      }
      assert targets[..|targets|] == targets;
    }

    /** The three writes, unless the unique index on actor and request rejects the transaction. */
    method RecordCommand(c: Command, revision: nat) returns (r: Result<Grant, Error>)
      requires revision == RevisionOf(Contents(), c.grant) && (c.action.Replace? <==> c.targets != [])
      modifies this
      ensures r == if RequestUsed(old(Contents()), c) then Err(Conflict) else Ok(Issue(c, revision + 1))
      ensures Contents() == if r.Ok? then Record(old(Contents()), c) else old(Contents())
    {
      var grant := Grant(c.request, c.actor, c.operation, revision + 1, true, c.targets, c.expires);
      if c.action.Revoke? {
        grant := grant.(active := false, targets := [], expires := None);
      }
      if k :| k in receipts && receipts[k].command.actor == c.actor && receipts[k].command.request == c.request {
        return Err(Conflict);
      }
      grants := grants[c.grant := grant];
      if grant.active {
        index := index + set t | t in c.targets :: Entry(c.grant, grant.revision, t);
      }
      receipts := receipts[KeyOf(c) := Receipt(c, grant)];
      return Ok(grant);
    }

    /** The checks on the targets, in the order in which they fail. */
    method ResolveTargets(targets: seq<Target>) returns (failed: Option<Error>)
      ensures failed == TargetError(Contents(), targets)
    {
      var unique := CheckTargets(targets);
      if !unique { return Some(BadRequest); }
      var missing, changed := CountTargets(targets);
      if missing > 0 { return Some(NotFound); }
      if changed > 0 { return Some(Conflict); }
      return None;
    }

    method ApplyCommand(c: Command, now: int) returns (r: Result<Grant, Error>)
      modifies this
      ensures r == Decide(old(Contents()), c, now)
      ensures Contents() == Apply(old(Contents()), c, now)
      ensures Inv(old(Contents())) ==> Inv(Contents())
    {
      if Inv(Contents()) { DoKeeps(Contents(), Obey(c, now)); }
      if !Acceptable(c, now) { return Err(BadRequest); }
      if KeyOf(c) in receipts {
        if receipts[KeyOf(c)].command != c { return Err(Conflict); }
        return Ok(receipts[KeyOf(c)].response);
      }
      var revision := 0;
      if c.grant in grants { revision := grants[c.grant].revision; }
      if c.expected != revision { return Err(Conflict); }
      var failed := ResolveTargets(c.targets);
      if failed.Some? { return Err(failed.value); }
      r := RecordCommand(c, revision);
    }
  }
}
