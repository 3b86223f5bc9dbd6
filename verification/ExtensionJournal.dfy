/**
 One organization's extension resource journal: the rows Core stores for it and
 the steps that change them. `history` has no row; it records every committed
 change in commit order, also the ones no journal entry was written for, so that
 what a consumer receives can be compared with what happened.
 */
module ExtensionJournal {
  import opened Base

  type Uuid = nat
  type PluginId = string

  datatype Event = Event(id: Uuid, environment: Option<Uuid>, mod: Option<Uuid>)

  // An event with the clock reading its row would get.
  datatype Stamped = Stamped(event: Event, recordedAt: int)

  datatype Entry = Entry(cursor: nat, event: Event, recordedAt: int)

  // `Mark` is the moment journaling began at that cursor.
  datatype Item = Journaled(entry: Entry) | Unjournaled(event: Event) | Mark(cursor: nat)

  datatype Row = Row(journaling: bool, gap: nat)

  datatype Consumer = Consumer(plugin: PluginId, operation: Uuid)

  datatype OperationState = Prepared | Active | Suspended | Released

  datatype Operation = Operation(state: OperationState, updatedAt: int, readsEvents: bool)

  // A retention transaction that has read its inputs and not yet deleted.
  datatype Pruning = Pruning(olderThan: int, below: Option<nat>, batch: nat)

  datatype Org = Org(
    head: Option<nat>,                     // extension_resource_event_heads
    row: Option<Row>,                      // extension_resource_event_journal_state
    prunedThrough: nat,                    // extension_resource_event_retention, 0 without a row
    entries: seq<Entry>,                   // extension_resource_events by cursor
    acks: map<Consumer, nat>,              // extension_resource_event_consumers
    subscribers: set<PluginId>,            // enabled plugins with the read grant
    operations: map<Consumer, Operation>,  // external_operation_grants
    serving: bool,                         // the server hosts plugins
    pruning: Option<Pruning>,
    history: seq<Item>)

  datatype Action =
    | Commit(events: seq<Stamped>)
    | Subscribe(subscribers: set<PluginId>)
    | Startup(host: bool)
    | Acknowledge(consumer: Consumer, cursor: nat)
    | SetOperation(consumer: Consumer, operation: Operation)
    | BeginPrune(now: int, window: int, batch: nat, below: Option<nat>)
    | FinishPrune
    | AbortPrune

  predicate Journaling(o: Org) {
    o.row.Some? && o.row.value.journaling
  }

  /******* Writers and subscription changes *******/

  /** Allocates the next cursor under the head row and inserts the entry. */
  function JournalOne(o: Org, e: Stamped): Org {
    var entry := Entry(OrZero(o.head) + 1, e.event, e.recordedAt);
    o.(head := Some(entry.cursor), entries := o.entries + [entry], history := o.history + [Journaled(entry)])
  }

  function JournalAll(o: Org, events: seq<Stamped>): Org
    decreases |events|
  {
    if |events| == 0 then o else JournalAll(JournalOne(o, events[0]), events[1..])
  }

  function Skipped(events: seq<Stamped>): seq<Item> {
    seq(|events|, i requires 0 <= i < |events| => Unjournaled(events[i].event))
  }

  function Flush(o: Org, events: seq<Stamped>): Org {
    if Journaling(o) then JournalAll(o, events)
    else o.(history := o.history + Skipped(events))
  }

  function Pause(o: Org): Org {
    match o.row
    case Some(r) => o.(row := Some(r.(journaling := false)))
    case None => if o.head.Some? then o.(row := Some(Row(false, 0))) else o
  }

  function Start(o: Org): Org {
    if Journaling(o) then o
    else if o.row.None? && o.head.None? then
      o.(row := Some(Row(true, 0)), history := o.history + [Mark(0)])
    else
      var gap := OrZero(o.head) + 1;
      o.(head := Some(gap), row := Some(Row(true, gap)), history := o.history + [Mark(gap)])
  }

  function Sync(o: Org): Org {
    if o.subscribers == {} then Pause(o) else Start(o)
  }

  /******* Consumers and retention *******/

  function AcknowledgeCursor(o: Org, c: Consumer, cursor: nat): Org {
    if !o.serving || c.plugin !in o.subscribers || cursor > OrZero(o.head) then o
    else if c in o.acks && o.acks[c] >= cursor then o
    else o.(acks := o.acks[c := cursor])
  }

  function AckOf(o: Org, c: Consumer): nat {
    if c in o.acks then o.acks[c] else 0
  }

  /** externalOperationReconcilesAt. */
  predicate ReconcilesAt(op: Operation, now: int, window: int) {
    match op.state
    case Released => op.updatedAt > now - window
    case _ => true
  }

  predicate Subscribed(o: Org, c: Consumer) {
    c in o.operations && c.plugin in o.subscribers && o.operations[c].readsEvents
  }

  /** The consumers the retention query takes the minimum over. */
  predicate Counted(o: Org, c: Consumer, now: int, window: int) {
    && Subscribed(o, c)
    && (o.operations[c].state != Released || o.operations[c].updatedAt > now - window)
  }

  ghost predicate IsLowest(o: Org, now: int, window: int, below: Option<nat>) {
    match below
    case None => forall c :: c in o.operations ==> !Counted(o, c, now, window)
    case Some(b) =>
      && (forall c :: c in o.operations && Counted(o, c, now, window) ==> b <= AckOf(o, c))
      && (exists c :: c in o.operations && Counted(o, c, now, window) && b == AckOf(o, c))
  }

  predicate Prunable(e: Entry, p: Pruning) {
    e.recordedAt < p.olderThan && (p.below.None? || e.cursor < p.below.value)
  }

  /** How many leading entries, at most `room`, are all prunable. */
  function PrunablePrefix(es: seq<Entry>, p: Pruning, room: nat): (k: nat)
    ensures k <= |es| && k <= room
    ensures forall i :: 0 <= i < k ==> Prunable(es[i], p)
    ensures k == |es| || k == room || !Prunable(es[k], p)
  {
    if room == 0 || |es| == 0 || !Prunable(es[0], p) then 0
    else 1 + PrunablePrefix(es[1..], p, room - 1)
  }

  function PruneEntries(o: Org, p: Pruning): Org {
    var k := PrunablePrefix(o.entries, p, p.batch);
    if k == 0 then o
    else o.(entries := o.entries[k..], prunedThrough := o.entries[k - 1].cursor)
  }

  /******* Runs *******/

  ghost function Step(o: Org, a: Action): Org {
    match a
    case Commit(events) => Flush(o, events)
    case Subscribe(subs) => if o.serving then Sync(o.(subscribers := subs)) else o
    case Startup(host) => if host then Sync(o.(serving := true)) else Pause(o.(serving := false))
    case Acknowledge(c, cursor) => AcknowledgeCursor(o, c, cursor)
    case SetOperation(c, op) => o.(operations := o.operations[c := op])
    case BeginPrune(now, window, batch, below) =>
      if o.pruning.None? && IsLowest(o, now, window, below)
      then o.(pruning := Some(Pruning(now - window, below, batch))) else o
    case FinishPrune =>
      if o.pruning.Some? then PruneEntries(o, o.pruning.value).(pruning := None) else o
    case AbortPrune => o.(pruning := None)
  }

  ghost function Run(o: Org, actions: seq<Action>): Org
    decreases |actions|
  {
    if |actions| == 0 then o else Run(Step(o, actions[0]), actions[1..])
  }

  /******* Reading *******/

  datatype Scope = Scope(environments: set<Uuid>, modules: set<Uuid>)

  datatype ReadError = BadPage | NotSubscribed | Ahead | Expired

  datatype Page = Page(items: seq<Entry>, next: nat)

  predicate InScope(e: Event, sc: Scope) {
    && (e.environment.None? || e.environment.value in sc.environments)
    && (e.mod.None? || e.mod.value in sc.modules)
    && (e.environment.Some? || e.mod.Some?)
  }

  function Above(es: seq<Entry>, c: int): seq<Entry> {
    if |es| == 0 then []
    else if es[|es| - 1].cursor > c then Above(es[..|es| - 1], c) + [es[|es| - 1]]
    else Above(es[..|es| - 1], c)
  }

  function Upto(es: seq<Entry>, c: int): seq<Entry> {
    if |es| == 0 then []
    else if es[|es| - 1].cursor <= c then Upto(es[..|es| - 1], c) + [es[|es| - 1]]
    else Upto(es[..|es| - 1], c)
  }

  function Scoped(es: seq<Entry>, sc: Scope): seq<Entry> {
    if |es| == 0 then []
    else if InScope(es[|es| - 1].event, sc) then Scoped(es[..|es| - 1], sc) + [es[|es| - 1]]
    else Scoped(es[..|es| - 1], sc)
  }

  function Horizon(o: Org): nat {
    var gap := if o.row.Some? then o.row.value.gap else 0;
    if o.prunedThrough > gap then o.prunedThrough else gap
  }

  /** extensionResourceStart. */
  function StartCursor(after: Option<int>, head: nat, horizon: nat): Result<int, ReadError> {
    match after
    case None => Ok(horizon)
    case Some(a) => if a > head then Err(Ahead) else if a < horizon then Err(Expired) else Ok(a)
  }

  function Read(o: Org, plugin: PluginId, sc: Scope, after: Option<int>, limit: int): Result<Page, ReadError> {
    if (after.Some? && after.value < 0) || limit < 1 || limit > 200 then Err(BadPage)
    else if !o.serving || plugin !in o.subscribers then Err(NotSubscribed)
    else
      var head := OrZero(o.head);
      var start := StartCursor(after, head, Horizon(o));
      if start.Err? then Err(start.error)
      else
        var rows := Scoped(Upto(Above(o.entries, start.value), head), sc);
        if |rows| < limit then Ok(Page(rows, head))
        else Ok(Page(rows[..limit], rows[limit - 1].cursor))
  }

  /******* What happened *******/

  function Top(h: seq<Item>): Option<nat> {
    if |h| == 0 then None
    else match h[|h| - 1]
      case Journaled(e) => Some(e.cursor)
      case Mark(c) => Some(c)
      case Unjournaled(_) => Top(h[..|h| - 1])
  }

  /** Cursors start at a mark 0 and go up by one with each entry and each later mark. */
  predicate Follows(top: Option<nat>, item: Item) {
    match item
    case Unjournaled(_) => true
    case Journaled(e) => top.Some? && e.cursor == top.value + 1
    case Mark(c) => if top.None? then c == 0 else c == top.value + 1
  }

  predicate Ordered(h: seq<Item>) {
    |h| == 0 || (Ordered(h[..|h| - 1]) && Follows(Top(h[..|h| - 1]), h[|h| - 1]))
  }

  /** The last mark is g and every change since it is journaled. */
  predicate Continuous(h: seq<Item>, g: nat) {
    |h| != 0 && (h[|h| - 1] == Mark(g) || (h[|h| - 1].Journaled? && Continuous(h[..|h| - 1], g)))
  }

  function Log(h: seq<Item>): seq<Entry> {
    if |h| == 0 then []
    else if h[|h| - 1].Journaled? then Log(h[..|h| - 1]) + [h[|h| - 1].entry]
    else Log(h[..|h| - 1])
  }

  /** The position in the history a cursor stands for: just after the last item at or below it. */
  function Pos(h: seq<Item>, c: int): (p: nat)
    ensures p <= |h|
  {
    if |h| == 0 then 0
    else if (h[|h| - 1].Journaled? && h[|h| - 1].entry.cursor <= c) || (h[|h| - 1].Mark? && h[|h| - 1].cursor <= c)
    then |h|
    else Pos(h[..|h| - 1], c)
  }

  /** The in-scope changes of a stretch of history, journaled or not, in commit order. */
  function Deliver(h: seq<Item>, sc: Scope): seq<Event> {
    if |h| == 0 then []
    else
      var rest := Deliver(h[..|h| - 1], sc);
      match h[|h| - 1]
      case Journaled(e) => if InScope(e.event, sc) then rest + [e.event] else rest
      case Unjournaled(ev) => if InScope(ev, sc) then rest + [ev] else rest
      case Mark(_) => rest
  }

  function Events(es: seq<Entry>): seq<Event> {
    seq(|es|, i requires 0 <= i < |es| => es[i].event)
  }

  /******* The invariant *******/

  ghost predicate Rows(o: Org) {
    && Ordered(o.history)
    && (o.head.Some? ==> o.head.value > 0)
    && OrZero(o.head) == OrZero(Top(o.history))
    && (o.row.Some? || o.head.Some? <==> Top(o.history).Some?)
    && o.entries == Above(Log(o.history), o.prunedThrough)
    && o.prunedThrough <= OrZero(o.head)
    && (o.row.Some? ==> o.row.value.gap <= OrZero(o.head))
    && (Journaling(o) ==> Continuous(o.history, o.row.value.gap))
  }

  /** While plugins are served, exactly the subscribed organizations journal; otherwise none does. */
  ghost predicate Follow(o: Org) {
    Journaling(o) <==> o.serving && o.subscribers != {}
  }

  ghost predicate Inv(o: Org) {
    Rows(o) && Follow(o)
  }

  lemma Snoc(h: seq<Item>, x: Item)
    ensures var t := h + [x];
            && t[..|t| - 1] == h && t[|t| - 1] == x
            && Log(t) == (if x.Journaled? then Log(h) + [x.entry] else Log(h))
            && (Ordered(t) <==> Ordered(h) && Follows(Top(h), x))
  {
    var t := h + [x];
    assert t[..|t| - 1] == h;
  }

  lemma SnocEntry(es: seq<Entry>, e: Entry, c: int, sc: Scope)
    ensures Above(es + [e], c) == if e.cursor > c then Above(es, c) + [e] else Above(es, c)
    ensures Upto(es + [e], c) == if e.cursor <= c then Upto(es, c) + [e] else Upto(es, c)
    ensures Scoped(es + [e], sc) == if InScope(e.event, sc) then Scoped(es, sc) + [e] else Scoped(es, sc)
  {
    assert (es + [e])[..|es + [e]| - 1] == es;
  }

  lemma {:induction false} JournalOneInv(o: Org, e: Stamped)
    requires Inv(o) && Journaling(o)
    ensures Inv(JournalOne(o, e)) && Journaling(JournalOne(o, e))
  {
    var entry := Entry(OrZero(o.head) + 1, e.event, e.recordedAt);
    Snoc(o.history, Journaled(entry));
    SnocEntry(Log(o.history), entry, o.prunedThrough, Scope({}, {}));
    var t := JournalOne(o, e);
    assert Top(t.history) == t.head;
    assert t.entries == Above(Log(t.history), t.prunedThrough) && Continuous(t.history, t.row.value.gap);
  }

  lemma {:induction false} JournalAllInv(o: Org, events: seq<Stamped>)
    requires Inv(o) && Journaling(o)
    ensures Inv(JournalAll(o, events))
    decreases |events|
  {
    if |events| != 0 {
      JournalOneInv(o, events[0]);
      JournalAllInv(JournalOne(o, events[0]), events[1..]);
    }
  }

  lemma {:induction false} SkippedInv(h: seq<Item>, events: seq<Stamped>)
    requires Ordered(h)
    ensures var t := h + Skipped(events); Ordered(t) && Top(t) == Top(h) && Log(t) == Log(h)
    decreases |events|
  {
    if |events| == 0 {
      assert h + Skipped(events) == h;
    } else {
      var last := |events| - 1;
      SkippedInv(h, events[..last]);
      assert h + Skipped(events) == h + Skipped(events[..last]) + [Unjournaled(events[last].event)];
      UnjournaledSnoc(h + Skipped(events[..last]), events[last].event);
    }
  }

  lemma UnjournaledSnoc(t: seq<Item>, e: Event)
    requires Ordered(t)
    ensures var u := t + [Unjournaled(e)]; Ordered(u) && Top(u) == Top(t) && Log(u) == Log(t)
  {
    Snoc(t, Unjournaled(e));
  }

  lemma FlushInv(o: Org, events: seq<Stamped>)
    requires Inv(o)
    ensures Inv(Flush(o, events))
  {
    if Journaling(o) {
      JournalAllInv(o, events);
      JournalAllRows(o, events);
    } else {
      SkippedInv(o.history, events);
    }
  }

  lemma {:induction false} JournalAllRows(o: Org, events: seq<Stamped>)
    ensures var r := JournalAll(o, events);
            r == o.(head := r.head, entries := r.entries, history := r.history)
    decreases |events|
  {
    if |events| != 0 {
      JournalAllRows(JournalOne(o, events[0]), events[1..]);
    }
  }

  lemma MarkSnoc(h: seq<Item>, gap: nat)
    requires Ordered(h) && Follows(Top(h), Mark(gap))
    ensures var t := h + [Mark(gap)]; Ordered(t) && Top(t) == Some(gap) && Log(t) == Log(h) && Continuous(t, gap)
  {
    Snoc(h, Mark(gap));
  }

  lemma StartRows(o: Org)
    requires Rows(o)
    ensures Rows(Start(o)) && Journaling(Start(o))
  {
    if !Journaling(o) {
      MarkSnoc(o.history, if o.row.None? && o.head.None? then 0 else OrZero(o.head) + 1);
    }
  }

  lemma SyncInv(o: Org)
    requires Rows(o) && o.serving
    ensures Inv(Sync(o))
  {
    if o.subscribers != {} {
      StartRows(o);
    }
  }

  lemma StepInv(o: Org, a: Action)
    requires Inv(o)
    ensures Inv(Step(o, a))
  {
    match a
    case Commit(events) => FlushInv(o, events);
    case Subscribe(subs) => if o.serving { SyncInv(o.(subscribers := subs)); }
    case Startup(host) => if host { SyncInv(o.(serving := true)); }
    case FinishPrune => if o.pruning.Some? { PruneInv(o, o.pruning.value); }
    case _ => SameRows(o, Step(o, a));
  }

  lemma SameRows(o: Org, p: Org)
    requires Inv(o)
    requires p == o.(acks := p.acks, operations := p.operations, pruning := p.pruning)
    ensures Inv(p)
  {
  }

  lemma {:induction false} RunInv(o: Org, actions: seq<Action>)
    requires Inv(o)
    ensures Inv(Run(o, actions))
    decreases |actions|
  {
    if |actions| != 0 {
      StepInv(o, actions[0]);
      RunInv(Step(o, actions[0]), actions[1..]);
    }
  }

  /******* Sorted entries *******/

  ghost predicate Sorted(es: seq<Entry>) {
    forall i, j :: 0 <= i < j < |es| ==> es[i].cursor < es[j].cursor
  }

  lemma {:induction false} LogSorted(h: seq<Item>)
    requires Ordered(h)
    ensures Sorted(Log(h))
    ensures forall i :: 0 <= i < |Log(h)| ==> 1 <= Log(h)[i].cursor <= OrZero(Top(h))
  {
    if |h| != 0 {
      LogSorted(h[..|h| - 1]);
    }
  }

  /** What lies above c is a suffix, and exactly the entries above c. */
  predicate SuffixAbove(es: seq<Entry>, c: int) {
    && |Above(es, c)| <= |es| && Above(es, c) == es[|es| - |Above(es, c)|..]
    && (forall i :: 0 <= i < |es| ==> (es[i].cursor > c <==> i >= |es| - |Above(es, c)|))
  }

  lemma SuffixTakes(init: seq<Entry>, e: Entry, c: int)
    requires SuffixAbove(init, c) && e.cursor > c
    ensures SuffixAbove(init + [e], c)
  {
    var es, from := init + [e], |init| - |Above(init, c)|;
    SnocAbove(init, e, c);
    assert es[from..] == init[from..] + [e];
    forall i | 0 <= i < |es| ensures es[i].cursor > c <==> i >= from {
      if i < |init| { assert es[i] == init[i]; }
    }
  }

  lemma SnocAbove(es: seq<Entry>, e: Entry, c: int)
    ensures Above(es + [e], c) == if e.cursor > c then Above(es, c) + [e] else Above(es, c)
  {
    assert (es + [e])[..|es|] == es;
  }

  lemma SuffixEmpty(init: seq<Entry>, e: Entry, c: int)
    requires SuffixAbove(init, c) && e.cursor <= c && forall i :: 0 <= i < |init| ==> init[i].cursor < e.cursor
    ensures SuffixAbove(init + [e], c)
  {
    SnocAbove(init, e, c);
    assert |Above(init, c)| == 0 by {
      if |init| > 0 { assert init[|init| - 1].cursor <= c; }
    }
  }

  lemma {:induction false} AboveSuffix(es: seq<Entry>, c: int)
    requires Sorted(es)
    ensures SuffixAbove(es, c)
  {
    if |es| != 0 {
      var init, e := es[..|es| - 1], es[|es| - 1];
      assert es == init + [e];
      AboveSuffix(init, c);
      if e.cursor > c { SuffixTakes(init, e, c); } else { SuffixEmpty(init, e, c); }
    }
  }

  lemma AboveFrom(log: seq<Entry>, bound: int, n: nat)
    requires Sorted(log) && 0 < n <= |log| && log[n - 1].cursor == bound
    ensures Above(log, bound) == log[n..]
  {
    AboveSuffix(log, bound);
    var m := |log| - |Above(log, bound)|;
    assert n - 1 < m;
    assert n < |log| ==> log[n].cursor > bound;
  }

  /** Dropping the first k entries and moving the boundary to the last dropped one. */
  lemma DropAbove(log: seq<Entry>, from: nat, k: nat)
    requires Sorted(log) && 0 < k <= |Above(log, from)|
    ensures Above(log, Above(log, from)[k - 1].cursor) == Above(log, from)[k..]
  {
    AboveSuffix(log, from);
    var d := |log| - |Above(log, from)|;
    assert log[d..][k - 1] == log[d + k - 1] && log[d..][k..] == log[d + k..];
    AboveFrom(log, log[d + k - 1].cursor, d + k);
  }

  lemma {:induction false} PruneInv(o: Org, p: Pruning)
    requires Inv(o)
    ensures Inv(PruneEntries(o, p))
  {
    var k := PrunablePrefix(o.entries, p, p.batch);
    if k > 0 {
      LogSorted(o.history);
      DropAbove(Log(o.history), o.prunedThrough, k);
      AboveSuffix(Log(o.history), o.prunedThrough);
    }
  }

  /******* Reading delivers history *******/

  lemma {:induction false} AboveAbove(es: seq<Entry>, a: int, b: int)
    requires a <= b
    ensures Above(Above(es, a), b) == Above(es, b)
  {
    if |es| != 0 {
      AboveAbove(es[..|es| - 1], a, b);
      if es[|es| - 1].cursor > a {
        SnocEntry(Above(es[..|es| - 1], a), es[|es| - 1], b, Scope({}, {}));
      }
    }
  }

  lemma {:induction false} UptoAll(es: seq<Entry>, d: int)
    requires forall i :: 0 <= i < |es| ==> es[i].cursor <= d
    ensures Upto(es, d) == es
  {
    if |es| != 0 {
      UptoAll(es[..|es| - 1], d);
    }
  }

  lemma {:induction false} UptoScoped(es: seq<Entry>, d: int, sc: Scope)
    ensures Scoped(Upto(es, d), sc) == Upto(Scoped(es, sc), d)
  {
    if |es| != 0 {
      var init, last := es[..|es| - 1], es[|es| - 1];
      UptoScoped(init, d, sc);
      SnocEntry(Upto(init, d), last, d, sc);
      SnocEntry(Scoped(init, sc), last, d, sc);
    }
  }

  lemma {:induction false} UptoPrefix(es: seq<Entry>, k: nat)
    requires Sorted(es) && 0 < k <= |es|
    ensures Upto(es, es[k - 1].cursor) == es[..k]
  {
    if k == |es| {
      UptoAll(es, es[k - 1].cursor);
    } else {
      var init := es[..|es| - 1];
      UptoPrefix(init, k);
      assert init[..k] == es[..k];
    }
  }

  lemma {:induction false} ScopedSorted(es: seq<Entry>, sc: Scope)
    requires Sorted(es)
    ensures Sorted(Scoped(es, sc))
    ensures forall e :: e in Scoped(es, sc) ==> e in es
  {
    if |es| != 0 {
      var init := es[..|es| - 1];
      ScopedSorted(init, sc);
      assert forall i :: 0 <= i < |Scoped(init, sc)| ==> Scoped(init, sc)[i] in init;
    }
  }

  lemma {:induction false} PosTop(h: seq<Item>, c: int)
    requires Top(h).Some? && Top(h).value <= c
    ensures forall i :: Pos(h, c) <= i < |h| ==> h[i].Unjournaled?
  {
    if |h| != 0 && h[|h| - 1].Unjournaled? {
      PosTop(h[..|h| - 1], c);
    }
  }

  /** One step back from a head above c, in the stretch that began at mark g. */
  lemma StepBack(h: seq<Item>, g: nat, c: int)
    requires Ordered(h) && Continuous(h, g) && g <= c <= OrZero(Top(h))
    ensures c == OrZero(Top(h)) ==> Pos(h, c) == |h|
    ensures c < OrZero(Top(h)) ==>
              && h[|h| - 1].Journaled? && h[|h| - 1].entry.cursor == OrZero(Top(h))
              && Continuous(h[..|h| - 1], g) && Ordered(h[..|h| - 1])
              && OrZero(Top(h[..|h| - 1])) == OrZero(Top(h)) - 1
              && Pos(h, c) == Pos(h[..|h| - 1], c)
  {
  }

  lemma LogAfterTop(h: seq<Item>, c: int)
    requires Ordered(h) && OrZero(Top(h)) <= c
    ensures Above(Log(h), c) == []
  {
    LogSorted(h);
    AboveSuffix(Log(h), c);
  }

  lemma LogAfterSnoc(init: seq<Item>, last: Item, p: nat, c: int)
    requires last.Journaled? && last.entry.cursor > c && p <= |init| && Above(Log(init), c) == Log(init[p..])
    ensures Above(Log(init + [last]), c) == Log((init + [last])[p..])
  {
    Snoc(init, last);
    SnocEntry(Log(init), last.entry, c, Scope({}, {}));
    assert (init + [last])[p..] == init[p..] + [last];
    Snoc(init[p..], last);
  }

  lemma {:induction false} LogAfter(h: seq<Item>, g: nat, c: int)
    requires Ordered(h) && Continuous(h, g) && g <= c <= OrZero(Top(h))
    ensures Above(Log(h), c) == Log(h[Pos(h, c)..])
    ensures forall i :: Pos(h, c) <= i < |h| ==> h[i].Journaled?
  {
    StepBack(h, g, c);
    if c == OrZero(Top(h)) {
      LogAfterTop(h, c);
    } else {
      var init, last := h[..|h| - 1], h[|h| - 1];
      LogAfter(init, g, c);
      assert h == init + [last];
      LogAfterSnoc(init, last, Pos(init, c), c);
    }
  }

  lemma LogUptoHead(h: seq<Item>, g: nat, c: int)
    requires Ordered(h) && Continuous(h, g) && g <= c <= OrZero(Top(h))
    ensures Upto(Above(Log(h), c), OrZero(Top(h))) == Log(h[Pos(h, c)..])
  {
    LogAfter(h, g, c);
    LogSorted(h);
    AboveSuffix(Log(h), c);
    UptoAll(Above(Log(h), c), OrZero(Top(h)));
  }

  /** The entries between two cursors are the log between their positions. */
  lemma {:induction false} LogBetween(h: seq<Item>, g: nat, c: int, d: int)
    requires Ordered(h) && Continuous(h, g) && g <= c <= d <= OrZero(Top(h))
    ensures Pos(h, c) <= Pos(h, d)
    ensures Upto(Above(Log(h), c), d) == Log(h[Pos(h, c)..Pos(h, d)])
  {
    StepBack(h, g, d);
    if d == OrZero(Top(h)) {
      LogToTop(h, g, c, d);
    } else {
      StepBack(h, g, c);
      var init, last := h[..|h| - 1], h[|h| - 1];
      LogBetween(init, g, c, d);
      assert h == init + [last];
      BetweenSnoc(init, last, Pos(init, c), Pos(init, d), c, d);
    }
  }

  lemma LogToTop(h: seq<Item>, g: nat, c: int, d: int)
    requires Ordered(h) && Continuous(h, g) && g <= c <= d && d == OrZero(Top(h)) && Pos(h, d) == |h|
    ensures Pos(h, c) <= Pos(h, d) && Upto(Above(Log(h), c), d) == Log(h[Pos(h, c)..Pos(h, d)])
  {
    LogUptoHead(h, g, c);
    assert h[Pos(h, c)..|h|] == h[Pos(h, c)..];
  }

  lemma BetweenSnoc(init: seq<Item>, last: Item, p: nat, q: nat, c: int, d: int)
    requires last.Journaled? && c <= d < last.entry.cursor && p <= q <= |init| && Upto(Above(Log(init), c), d) == Log(init[p..q])
    ensures Upto(Above(Log(init + [last]), c), d) == Log((init + [last])[p..q])
  {
    BeyondUpto(init, last, c, d);
    assert (init + [last])[p..q] == init[p..q];
  }

  /** An entry above d adds nothing to what lies between c and d. */
  lemma BeyondUpto(init: seq<Item>, last: Item, c: int, d: int)
    requires last.Journaled? && c <= d < last.entry.cursor
    ensures Upto(Above(Log(init + [last]), c), d) == Upto(Above(Log(init), c), d)
  {
    Snoc(init, last);
    SnocEntry(Log(init), last.entry, c, Scope({}, {}));
    SnocEntry(Above(Log(init), c), last.entry, d, Scope({}, {}));
  }

  lemma {:induction false} DeliverLog(h: seq<Item>, sc: Scope)
    requires forall i :: 0 <= i < |h| ==> h[i].Journaled?
    ensures Deliver(h, sc) == Events(Scoped(Log(h), sc))
  {
    if |h| != 0 {
      var init, e := h[..|h| - 1], h[|h| - 1].entry;
      DeliverLog(init, sc);
      SnocEntry(Log(init), e, 0, sc);
    }
  }

  /** Gap soundness: no change after a cursor a reader may still use went unjournaled. */
  lemma GapSound(o: Org, c: nat)
    requires Inv(o) && Journaling(o) && Horizon(o) <= c <= OrZero(o.head)
    ensures forall i :: Pos(o.history, c) <= i < |o.history| ==> o.history[i].Journaled?
  {
    LogAfter(o.history, o.row.value.gap, c);
  }

  lemma LogRange(h: seq<Item>, start: int)
    requires Ordered(h)
    ensures Sorted(Above(Log(h), start))
    ensures forall e :: e in Above(Log(h), start) ==> start < e.cursor <= OrZero(Top(h))
    ensures Upto(Above(Log(h), start), OrZero(Top(h))) == Above(Log(h), start)
  {
    LogSorted(h);
    AboveSuffix(Log(h), start);
    UptoAll(Above(Log(h), start), OrZero(Top(h)));
  }

  /** The rows of a page, without LIMIT, are the in-scope log after its start. */
  lemma PageRows(o: Org, sc: Scope, start: int)
    requires Inv(o) && Journaling(o) && Horizon(o) <= start <= OrZero(o.head)
    ensures Upto(Above(o.entries, start), OrZero(o.head)) == Above(Log(o.history), start)
    ensures Sorted(Above(Log(o.history), start))
    ensures forall e :: e in Above(Log(o.history), start) ==> start < e.cursor <= OrZero(o.head)
  {
    LogRange(o.history, start);
    AboveAbove(Log(o.history), o.prunedThrough, start);
  }

  /** The first `limit` in-scope rows are the ones up to the cursor of the last of them. */
  lemma FirstRows(es: seq<Entry>, sc: Scope, limit: nat)
    requires Sorted(es) && 0 < limit <= |Scoped(es, sc)|
    ensures Scoped(Upto(es, Scoped(es, sc)[limit - 1].cursor), sc) == Scoped(es, sc)[..limit]
    ensures Scoped(es, sc)[limit - 1] in es
  {
    var rows := Scoped(es, sc);
    ScopedSorted(es, sc);
    UptoScoped(es, rows[limit - 1].cursor, sc);
    UptoPrefix(rows, limit);
  }

  lemma ReadShape(o: Org, plugin: PluginId, sc: Scope, after: Option<int>, limit: int)
    requires Inv(o) && Read(o, plugin, sc, after, limit).Ok?
    ensures limit >= 1 && Journaling(o)
    ensures var start := StartCursor(after, OrZero(o.head), Horizon(o));
            var rows := Scoped(Above(Log(o.history), start.value), sc);
            && start.Ok? && Horizon(o) <= start.value <= OrZero(o.head)
            && Read(o, plugin, sc, after, limit).value ==
               if |rows| < limit then Page(rows, OrZero(o.head)) else Page(rows[..limit], rows[limit - 1].cursor)
  {
    assert Horizon(o) <= OrZero(o.head);
    PageRows(o, sc, StartCursor(after, OrZero(o.head), Horizon(o)).value);
  }

  /** The in-scope log up to d is what happened between c and d. */
  lemma Between(h: seq<Item>, g: nat, c: int, d: int, sc: Scope)
    requires Ordered(h) && Continuous(h, g) && g <= c <= d <= OrZero(Top(h))
    ensures Pos(h, c) <= Pos(h, d)
    ensures Events(Scoped(Upto(Above(Log(h), c), d), sc)) == Deliver(h[Pos(h, c)..Pos(h, d)], sc)
  {
    LogBetween(h, g, c, d);
    LogAfter(h, g, c);
    var part := h[Pos(h, c)..Pos(h, d)];
    assert forall i :: 0 <= i < |part| ==> part[i] == h[Pos(h, c) + i];
    DeliverLog(part, sc);
  }

  /** One page holds exactly the in-scope changes, journaled or not, between its two cursors. */
  lemma PageExact(o: Org, plugin: PluginId, sc: Scope, after: Option<int>, limit: int)
    requires Inv(o) && Read(o, plugin, sc, after, limit).Ok?
    ensures var page := Read(o, plugin, sc, after, limit).value;
            var start := StartCursor(after, OrZero(o.head), Horizon(o)).value;
            && o.row.Some?
            && start == (if after.Some? then after.value else if o.prunedThrough > o.row.value.gap then o.prunedThrough else o.row.value.gap)
            && start <= page.next <= OrZero(o.head)
            && Pos(o.history, start) <= Pos(o.history, page.next)
            && Events(page.items) == Deliver(o.history[Pos(o.history, start)..Pos(o.history, page.next)], sc)
            && (|page.items| < limit ==> Pos(o.history, page.next) == |o.history|)
  {
    ReadShape(o, plugin, sc, after, limit);
    var page := Read(o, plugin, sc, after, limit).value;
    var start := StartCursor(after, OrZero(o.head), Horizon(o)).value;
    var h, g := o.history, o.row.value.gap;
    PageRows(o, sc, start);
    var later := Above(Log(h), start);
    if |Scoped(later, sc)| < limit {
      StepBack(h, g, page.next);
      UptoAll(later, page.next);
    } else {
      FirstRows(later, sc, limit);
    }
    Between(h, g, start, page.next, sc);
  }

  /******* A chain of reads *******/

  lemma {:induction false} PosStable(h: seq<Item>, x: Item, c: int)
    requires Follows(Top(h), x) && Top(h).Some? && c <= Top(h).value
    ensures Pos(h + [x], c) == Pos(h, c)
  {
    assert (h + [x])[..|h + [x]| - 1] == h;
  }

  /** q's history continues p's, and no cursor p has issued changes its position. */
  ghost predicate Continues(p: Org, q: Org) {
    && |p.history| <= |q.history| && q.history[..|p.history|] == p.history
    && OrZero(p.head) <= OrZero(q.head)
    && (Top(p.history).Some? ==> Top(q.history).Some?)
    && (Top(p.history).Some? ==> forall c :: c <= OrZero(p.head) ==> Pos(q.history, c) == Pos(p.history, c))
  }

  lemma {:induction false} ItemsContinue(h: seq<Item>, t: seq<Item>)
    requires Ordered(t) && |h| <= |t| && t[..|h|] == h
    ensures OrZero(Top(h)) <= OrZero(Top(t)) && (Top(h).Some? ==> Top(t).Some?)
    ensures Top(h).Some? ==> forall c :: c <= OrZero(Top(h)) ==> Pos(t, c) == Pos(h, c)
    decreases |t|
  {
    if |h| < |t| {
      var init := t[..|t| - 1];
      assert init[..|h|] == h;
      ItemsContinue(h, init);
      if Top(h).Some? {
        forall c | c <= OrZero(Top(h)) ensures Pos(t, c) == Pos(h, c) {
          assert t == init + [t[|t| - 1]];
          PosStable(init, t[|t| - 1], c);
        }
      }
    } else {
      assert h == t;
    }
  }

  lemma {:induction false} JournalAllPrefix(o: Org, events: seq<Stamped>)
    ensures |o.history| <= |JournalAll(o, events).history|
    ensures JournalAll(o, events).history[..|o.history|] == o.history
    decreases |events|
  {
    if |events| != 0 {
      var one := JournalOne(o, events[0]);
      JournalAllPrefix(one, events[1..]);
      assert one.history[..|o.history|] == o.history;
    }
  }

  lemma StepPrefix(o: Org, a: Action)
    ensures |o.history| <= |Step(o, a).history| && Step(o, a).history[..|o.history|] == o.history
  {
    if a.Commit? && Journaling(o) { JournalAllPrefix(o, a.events); }
  }

  lemma StepContinues(o: Org, a: Action)
    requires Inv(o)
    ensures Continues(o, Step(o, a))
  {
    StepInv(o, a);
    StepPrefix(o, a);
    ItemsContinue(o.history, Step(o, a).history);
  }

  lemma {:induction false} RunContinues(o: Org, actions: seq<Action>)
    requires Inv(o)
    ensures Inv(Run(o, actions)) && Continues(o, Run(o, actions))
    decreases |actions|
  {
    if |actions| != 0 {
      var p := Step(o, actions[0]);
      StepInv(o, actions[0]);
      StepContinues(o, actions[0]);
      RunContinues(p, actions[1..]);
      var q := Run(p, actions[1..]);
      assert q.history[..|p.history|][..|o.history|] == q.history[..|o.history|];
    }
  }

  lemma {:induction false} DeliverConcat(a: seq<Item>, b: seq<Item>, sc: Scope)
    ensures Deliver(a + b, sc) == Deliver(a, sc) + Deliver(b, sc)
  {
    if |b| == 0 {
      assert a + b == a;
    } else {
      DeliverConcat(a, b[..|b| - 1], sc);
      assert (a + b)[..|a + b| - 1] == a + b[..|b| - 1];
    }
  }

  /** Reads of one consumer, each continuing at the cursor the one before returned, with any steps between them. */
  ghost predicate Chain(states: seq<Org>, between: seq<seq<Action>>, plugin: PluginId, sc: Scope,
                        afters: seq<Option<int>>, limits: seq<int>, pages: seq<Page>)
  {
    && |states| == |afters| == |limits| == |pages| == |between| + 1
    && Inv(states[0])
    && (forall i :: 0 <= i < |pages| ==> Read(states[i], plugin, sc, afters[i], limits[i]) == Ok(pages[i]))
    && (forall i :: 0 <= i < |between| ==> afters[i + 1] == Some(pages[i].next))
    && (forall i :: 0 <= i < |between| ==> states[i + 1] == Run(states[i], between[i]))
  }

  lemma DeliverExtend(h: seq<Item>, k: seq<Item>, from: nat, mid: nat, to: nat, sc: Scope)
    requires |h| <= |k| && k[..|h|] == h && from <= mid <= |h| && mid <= to <= |k|
    ensures Deliver(k[from..to], sc) == Deliver(h[from..mid], sc) + Deliver(k[mid..to], sc)
  {
    assert h[from..mid] == k[..|h|][from..mid] == k[from..mid];
    DeliverConcat(k[from..mid], k[mid..to], sc);
    assert k[from..mid] + k[mid..to] == k[from..to];
  }

  /** One more read after any steps extends what was received up to cursor c. */
  lemma NextRead(p: Org, actions: seq<Action>, plugin: PluginId, sc: Scope, start: int, c: nat, limit: int)
    requires Inv(p) && Top(p.history).Some? && start <= c <= OrZero(p.head)
    requires Pos(p.history, start) <= Pos(p.history, c)
    requires Read(Run(p, actions), plugin, sc, Some(c), limit).Ok?
    ensures var q := Run(p, actions);
            var page := Read(q, plugin, sc, Some(c), limit).value;
            var from, to := Pos(p.history, start), Pos(q.history, page.next);
            && Inv(q) && Top(q.history).Some? && start <= page.next <= OrZero(q.head) && from <= to
            && Pos(q.history, start) == from
            && Deliver(q.history[from..to], sc) ==
               Deliver(p.history[from..Pos(p.history, c)], sc) + Events(page.items)
            && (|page.items| < limit ==> to == |q.history|)
  {
    RunContinues(p, actions);
    var q := Run(p, actions);
    PageExact(q, plugin, sc, Some(c), limit);
    var page := Read(q, plugin, sc, Some(c), limit).value;
    assert Pos(q.history, c) == Pos(p.history, c);
    DeliverExtend(p.history, q.history, Pos(p.history, start), Pos(p.history, c), Pos(q.history, page.next), sc);
  }

  function Received(pages: seq<Page>): seq<Event> {
    if |pages| == 0 then [] else Received(pages[..|pages| - 1]) + Events(pages[|pages| - 1].items)
  }

  /** What was received is the in-scope history from the first start to the last page's cursor. */
  ghost predicate Delivered(first: Org, last: Org, start: int, page: Page, limit: int, sc: Scope, received: seq<Event>) {
    var from, to := Pos(first.history, start), Pos(last.history, page.next);
    && Inv(last) && Top(last.history).Some? && from <= to
    && Pos(last.history, start) == from
    && start <= page.next <= OrZero(last.head)
    && received == Deliver(last.history[from..to], sc)
    && (|page.items| < limit ==> to == |last.history|)
  }

  lemma FirstDelivered(o: Org, plugin: PluginId, sc: Scope, after: Option<int>, limit: int)
    requires Inv(o) && Read(o, plugin, sc, after, limit).Ok?
    ensures var page := Read(o, plugin, sc, after, limit).value;
            Delivered(o, o, StartCursor(after, OrZero(o.head), Horizon(o)).value, page, limit, sc, Events(page.items))
  {
    PageExact(o, plugin, sc, after, limit);
  }

  lemma MoreDelivered(first: Org, last: Org, start: int, page: Page, limit: int, sc: Scope, received: seq<Event>,
                      actions: seq<Action>, plugin: PluginId, nextLimit: int)
    requires Delivered(first, last, start, page, limit, sc, received)
    requires Read(Run(last, actions), plugin, sc, Some(page.next), nextLimit).Ok?
    ensures var more := Read(Run(last, actions), plugin, sc, Some(page.next), nextLimit).value;
            Delivered(first, Run(last, actions), start, more, nextLimit, sc, received + Events(more.items))
  {
    NextRead(last, actions, plugin, sc, start, page.next, nextLimit);
  }

  lemma {:induction false} ChainDelivers(states: seq<Org>, between: seq<seq<Action>>, plugin: PluginId, sc: Scope,
                                         afters: seq<Option<int>>, limits: seq<int>, pages: seq<Page>)
    requires Chain(states, between, plugin, sc, afters, limits, pages)
    ensures var n := |pages| - 1;
            var start := StartCursor(afters[0], OrZero(states[0].head), Horizon(states[0])).value;
            Delivered(states[0], states[n], start, pages[n], limits[n], sc, Received(pages))
    decreases |pages|
  {
    var n := |pages| - 1;
    if n == 0 {
      FirstDelivered(states[0], plugin, sc, afters[0], limits[0]);
      assert Received(pages[..0]) == [];
    } else {
      var m := n - 1;
      ChainPrefix(states, between, plugin, sc, afters, limits, pages);
      ChainDelivers(states[..n], between[..m], plugin, sc, afters[..n], limits[..n], pages[..n]);
      assert states[..n][0] == states[0] && states[..n][m] == states[m] && pages[..n][m] == pages[m] && limits[..n][m] == limits[m];
      ChainStep(states, between, plugin, sc, afters, limits, pages, Received(pages[..n]));
    }
  }

  /**
   Journal completeness. What a chain of successful reads received is exactly the
   in-scope changes committed between the first start and the last cursor, in
   commit order, whatever writers, pauses, restarts, acknowledgements and prunes
   ran between the reads. The first start is the cursor that was given; without one it is the later of
   the prune boundary and the gap. A last page that is not full reaches the end of history.
   */
  lemma JournalComplete(states: seq<Org>, between: seq<seq<Action>>, plugin: PluginId, sc: Scope,
                        afters: seq<Option<int>>, limits: seq<int>, pages: seq<Page>)
    requires Chain(states, between, plugin, sc, afters, limits, pages)
    ensures Journaling(states[0])
    ensures var n, o := |pages| - 1, states[0];
            var start := if afters[0].Some? then afters[0].value
                         else if o.prunedThrough > o.row.value.gap then o.prunedThrough else o.row.value.gap;
            Delivered(o, states[n], start, pages[n], limits[n], sc, Received(pages))
  {
    assert Read(states[0], plugin, sc, afters[0], limits[0]) == Ok(pages[0]);
    StartIs(states[0], plugin, sc, afters[0], limits[0]);
    ChainDelivers(states, between, plugin, sc, afters, limits, pages);
  }

  lemma StartIs(o: Org, plugin: PluginId, sc: Scope, after: Option<int>, limit: int)
    requires Inv(o) && Read(o, plugin, sc, after, limit).Ok?
    ensures Journaling(o)
    ensures StartCursor(after, OrZero(o.head), Horizon(o)).value ==
            if after.Some? then after.value else if o.prunedThrough > o.row.value.gap then o.prunedThrough else o.row.value.gap
  {
  }

  lemma ChainStep(states: seq<Org>, between: seq<seq<Action>>, plugin: PluginId, sc: Scope,
                  afters: seq<Option<int>>, limits: seq<int>, pages: seq<Page>, received: seq<Event>)
    requires Chain(states, between, plugin, sc, afters, limits, pages) && |pages| >= 2
    requires var m := |pages| - 2;
             Delivered(states[0], states[m], StartCursor(afters[0], OrZero(states[0].head), Horizon(states[0])).value, pages[m], limits[m], sc, received)
    ensures var n := |pages| - 1;
            Delivered(states[0], states[n], StartCursor(afters[0], OrZero(states[0].head), Horizon(states[0])).value, pages[n], limits[n], sc,
                      received + Events(pages[n].items))
  {
    var n, m := |pages| - 1, |pages| - 2;
    assert states[m + 1] == Run(states[m], between[m]) && afters[m + 1] == Some(pages[m].next);
    assert Read(states[n], plugin, sc, afters[n], limits[n]) == Ok(pages[n]);
    MoreDelivered(states[0], states[m], StartCursor(afters[0], OrZero(states[0].head), Horizon(states[0])).value,
                  pages[m], limits[m], sc, received, between[m], plugin, limits[n]);
  }

  lemma ChainPrefix(states: seq<Org>, between: seq<seq<Action>>, plugin: PluginId, sc: Scope,
                    afters: seq<Option<int>>, limits: seq<int>, pages: seq<Page>)
    requires Chain(states, between, plugin, sc, afters, limits, pages) && |pages| >= 2
    ensures var n := |pages| - 1; Chain(states[..n], between[..n - 1], plugin, sc, afters[..n], limits[..n], pages[..n])
  {
  }

  /** Starting without a gap is sound: before it, no read of this organization ever succeeded. */
  lemma FreshStartHasNoReaders(o: Org, actions: seq<Action>, plugin: PluginId, sc: Scope, after: Option<int>, limit: int)
    requires Inv(o) && Run(o, actions).row.None?
    ensures Read(o, plugin, sc, after, limit).Err?
  {
    if o.row.Some? {
      RowsStay(o, actions);
    }
  }

  lemma {:induction false} RowsStay(o: Org, actions: seq<Action>)
    requires o.row.Some?
    ensures Run(o, actions).row.Some?
    decreases |actions|
  {
    if |actions| != 0 {
      if actions[0].Commit? { JournalAllRows(o, actions[0].events); }
      RowsStay(Step(o, actions[0]), actions[1..]);
    }
  }

  /******* Retention *******/

  /** A prune removes the longest prunable prefix that fits the batch and moves the boundary to its end. */
  lemma PruneExact(o: Org, p: Pruning)
    requires Inv(o)
    ensures var q := PruneEntries(o, p);
            var k := |o.entries| - |q.entries|;
            && 0 <= k <= p.batch && q.entries == o.entries[k..]
            && (forall i :: 0 <= i < k ==> Prunable(o.entries[i], p))
            && (k == |o.entries| || k == p.batch || !Prunable(o.entries[k], p))
            && q.prunedThrough == (if k == 0 then o.prunedThrough else o.entries[k - 1].cursor)
            && o.prunedThrough <= q.prunedThrough
            && q.entries == Above(Log(q.history), q.prunedThrough)
  {
    PruneInv(o, p);
    EntriesAbove(o);
  }

  lemma EntriesAbove(o: Org)
    requires Inv(o)
    ensures forall i :: 0 <= i < |o.entries| ==> o.entries[i].cursor > o.prunedThrough
  {
    LogSorted(o.history);
    AboveSuffix(Log(o.history), o.prunedThrough);
  }

  lemma {:induction false} AcksGrow(o: Org, actions: seq<Action>, c: Consumer)
    ensures AckOf(o, c) <= AckOf(Run(o, actions), c)
    decreases |actions|
  {
    if |actions| != 0 {
      if actions[0].Commit? { JournalAllRows(o, actions[0].events); }
      AcksGrow(Step(o, actions[0]), actions[1..], c);
    }
  }

  /** Every acknowledgement names a cursor that was issued. */
  ghost predicate AcksIssued(o: Org) {
    forall c :: c in o.acks ==> o.acks[c] <= OrZero(o.head)
  }

  lemma StepAcks(o: Org, a: Action)
    requires OrZero(o.head) <= OrZero(Step(o, a).head) && AcksIssued(o)
    ensures AcksIssued(Step(o, a))
  {
    if a.Commit? { JournalAllRows(o, a.events); }
  }

  /** No run of steps acknowledges a cursor that no reader can have been given. */
  lemma {:induction false} AcksWithinHead(o: Org, actions: seq<Action>)
    requires Inv(o) && AcksIssued(o)
    ensures AcksIssued(Run(o, actions))
    decreases |actions|
  {
    if |actions| != 0 {
      StepInv(o, actions[0]);
      StepContinues(o, actions[0]);
      StepAcks(o, actions[0]);
      AcksWithinHead(Step(o, actions[0]), actions[1..]);
    }
  }

  lemma {:induction false} PruningStays(o: Org, actions: seq<Action>)
    requires o.pruning.Some?
    requires forall a :: a in actions ==> a != FinishPrune && a != AbortPrune
    ensures Run(o, actions).pruning == o.pruning
    decreases |actions|
  {
    if |actions| != 0 {
      if actions[0].Commit? { JournalAllRows(o, actions[0].events); }
      assert actions[0] in actions && forall a :: a in actions[1..] ==> a in actions;
      PruningStays(Step(o, actions[0]), actions[1..]);
    }
  }

  lemma CountedBound(o: Org, now: int, window: int, batch: nat, below: Option<nat>, actions: seq<Action>, c: Consumer)
    requires Inv(o) && o.pruning.None? && IsLowest(o, now, window, below) && Counted(o, c, now, window)
    requires forall a :: a in actions ==> a != FinishPrune && a != AbortPrune
    ensures var p := Run(Step(o, BeginPrune(now, window, batch, below)), actions);
            && Inv(p) && p.pruning == Some(Pruning(now - window, below, batch))
            && below.Some? && below.value <= AckOf(p, c)
  {
    var b := Step(o, BeginPrune(now, window, batch, below));
    StepInv(o, BeginPrune(now, window, batch, below));
    RunInv(b, actions);
    PruningStays(b, actions);
    AcksGrow(b, actions, c);
    assert below.Some? && below.value <= AckOf(o, c) == AckOf(b, c);
  }

  /**
   Retention safety. Whatever runs between the moment a prune read the
   acknowledgements of `o` and the moment it deletes, every entry it deletes is older
   than the window and strictly below the acknowledgement of every consumer whose plugin is subscribed and whose
   operation may read events and is not released, or was released within the window.
   */
  lemma RetentionSafe(o: Org, now: int, window: int, batch: nat, below: Option<nat>, actions: seq<Action>, c: Consumer)
    requires Inv(o) && o.pruning.None? && IsLowest(o, now, window, below)
    requires c in o.operations && c.plugin in o.subscribers && o.operations[c].readsEvents
    requires o.operations[c].state != Released || o.operations[c].updatedAt > now - window
    requires forall a :: a in actions ==> a != FinishPrune && a != AbortPrune
    ensures var p := Run(Step(o, BeginPrune(now, window, batch, below)), actions);
            var q := Step(p, FinishPrune);
            var k := |p.entries| - |q.entries|;
            && 0 <= k <= batch && q.entries == p.entries[k..]
            && (forall i :: 0 <= i < k ==> p.entries[i].recordedAt < now - window && p.entries[i].cursor < AckOf(p, c))
  {
    assert Counted(o, c, now, window);
    CountedBound(o, now, window, batch, below, actions, c);
    var p := Run(Step(o, BeginPrune(now, window, batch, below)), actions);
    PruneExact(p, p.pruning.value);
  }

  /** The acknowledgement is not behind the boundary, nor can a prune in flight pass it. */
  ghost predicate Retained(o: Org, c: Consumer) {
    && o.prunedThrough <= AckOf(o, c)
    && (o.pruning.Some? && o.pruning.value.below.Some? ==> o.pruning.value.below.value <= AckOf(o, c))
    && (o.pruning.Some? ==> o.pruning.value.below.Some?)
  }

  /** Each prune of the run started while c's plugin was subscribed and its operation still reconciled. */
  ghost predicate ReconcilesThroughout(o: Org, actions: seq<Action>, c: Consumer)
    decreases |actions|
  {
    |actions| == 0 ||
    (&& (actions[0].BeginPrune? ==>
           && c in o.operations && c.plugin in o.subscribers && o.operations[c].readsEvents
           && (o.operations[c].state != Released || o.operations[c].updatedAt > actions[0].now - actions[0].window))
     && ReconcilesThroughout(Step(o, actions[0]), actions[1..], c))
  }

  lemma RetainedSame(o: Org, p: Org, c: Consumer)
    requires Retained(o, c) && p.prunedThrough == o.prunedThrough && AckOf(o, c) <= AckOf(p, c)
    requires p.pruning == o.pruning || p.pruning.None?
    ensures Retained(p, c)
  {
  }

  lemma RetainedBegin(o: Org, a: Action, c: Consumer)
    requires Retained(o, c) && a.BeginPrune? && Subscribed(o, c) && ReconcilesAt(o.operations[c], a.now, a.window)
    ensures Retained(Step(o, a), c)
  {
  }

  lemma RetainedFinish(o: Org, c: Consumer)
    requires Inv(o) && Retained(o, c)
    ensures Retained(Step(o, FinishPrune), c)
  {
    if o.pruning.Some? { PruneExact(o, o.pruning.value); }
  }

  lemma RetainedStep(o: Org, a: Action, c: Consumer)
    requires Inv(o) && Retained(o, c)
    requires a.BeginPrune? ==> Subscribed(o, c) && ReconcilesAt(o.operations[c], a.now, a.window)
    ensures Retained(Step(o, a), c)
  {
    if a.BeginPrune? {
      RetainedBegin(o, a, c);
    } else if a.FinishPrune? {
      RetainedFinish(o, c);
    } else {
      if a.Commit? { JournalAllRows(o, a.events); }
      RetainedSame(o, Step(o, a), c);
    }
  }

  /** An acknowledgement at or above the boundary stays there, so retention never expires that cursor. */
  lemma {:induction false} AcknowledgementKept(o: Org, actions: seq<Action>, c: Consumer)
    requires Inv(o) && Retained(o, c) && ReconcilesThroughout(o, actions, c)
    ensures Run(o, actions).prunedThrough <= AckOf(Run(o, actions), c)
    decreases |actions|
  {
    if |actions| != 0 {
      StepInv(o, actions[0]);
      RetainedStep(o, actions[0], c);
      AcknowledgementKept(Step(o, actions[0]), actions[1..], c);
    }
  }
}
