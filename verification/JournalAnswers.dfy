/**
 What the journal's operations answer and write, said of the stored rows alone: a page by
 the entries it must hold, each error by its condition, acknowledgements and
 subscription changes by their effect.
 */
module JournalAnswers {
  import opened Base
  import opened ExtensionJournal
  import L = JournalLocks

  lemma {:induction false} AboveHas(es: seq<Entry>, c: int, e: Entry)
    ensures e in Above(es, c) <==> e in es && e.cursor > c
  {
    if |es| != 0 {
      assert es == es[..|es| - 1] + [es[|es| - 1]];
      AboveHas(es[..|es| - 1], c, e);
    }
  }

  lemma {:induction false} UptoHas(es: seq<Entry>, c: int, e: Entry)
    ensures e in Upto(es, c) <==> e in es && e.cursor <= c
  {
    if |es| != 0 {
      assert es == es[..|es| - 1] + [es[|es| - 1]];
      UptoHas(es[..|es| - 1], c, e);
    }
  }

  lemma {:induction false} ScopedHas(es: seq<Entry>, sc: Scope, e: Entry)
    ensures e in Scoped(es, sc) <==> e in es && InScope(e.event, sc)
  {
    if |es| != 0 {
      assert es == es[..|es| - 1] + [es[|es| - 1]];
      ScopedHas(es[..|es| - 1], sc, e);
    }
  }

  /** An event concerns the scope: it names an Environment or a Module, and only ones of the scope. */
  lemma ScopeExactly(e: Event, sc: Scope)
    ensures InScope(e, sc) <==>
            && (e.environment.Some? ==> e.environment.value in sc.environments)
            && (e.mod.Some? ==> e.mod.value in sc.modules)
            && !(e.environment.None? && e.mod.None?)
  {
  }

  /** Cutting a sorted list at its limit keeps exactly the entries up to the last one kept. */
  lemma CutHas(rows: seq<Entry>, limit: nat, e: Entry)
    requires Sorted(rows) && 0 < limit <= |rows|
    ensures e in rows[..limit] <==> e in rows && e.cursor <= rows[limit - 1].cursor
  {
    if e in rows {
      var i :| 0 <= i < |rows| && rows[i] == e;
      if i < limit { assert rows[..limit][i] == e; }
    }
  }

  lemma PageRowsHave(o: Org, sc: Scope, start: int, e: Entry)
    requires Inv(o) && Journaling(o) && Horizon(o) <= start <= OrZero(o.head)
    ensures var rows := Scoped(Upto(Above(o.entries, start), OrZero(o.head)), sc);
            && Sorted(rows)
            && (e in rows <==> e in o.entries && e.cursor > start && InScope(e.event, sc))
            && (e in rows ==> e.cursor <= OrZero(o.head))
  {
    PageRows(o, sc, start);
    var mid := Upto(Above(o.entries, start), OrZero(o.head));
    ScopedSorted(mid, sc);
    ScopedHas(mid, sc, e);
    UptoHas(Above(o.entries, start), OrZero(o.head), e);
    AboveHas(o.entries, start, e);
    assert Upto(Above(o.entries, start), OrZero(o.head)) == Above(Log(o.history), start);
    LogSorted(o.history);
    if e in o.entries { AboveHas(Log(o.history), o.prunedThrough, e); }
  }

  /**
   A page, said of the stored rows: after the given cursor, or without one after the gap where journaling last began, it
   holds exactly the stored entries up to its next cursor that concern the scope, in cursor order; it is full and ends at its
   last entry, or it ends at the head and nothing is left out.
   */
  lemma PageContents(o: Org, plugin: PluginId, sc: Scope, after: Option<int>, limit: int, e: Entry)
    requires Inv(o) && Read(o, plugin, sc, after, limit).Ok?
    ensures o.row.Some? && o.row.value.journaling
    ensures var page := Read(o, plugin, sc, after, limit).value;
            var start := if after.Some? then after.value else o.row.value.gap;
            && (e in page.items <==>
                  && e in o.entries && start < e.cursor <= page.next
                  && (e.event.environment.Some? ==> e.event.environment.value in sc.environments)
                  && (e.event.mod.Some? ==> e.event.mod.value in sc.modules)
                  && !(e.event.environment.None? && e.event.mod.None?))
            && (forall i, j :: 0 <= i < j < |page.items| ==> page.items[i].cursor < page.items[j].cursor)
            && |page.items| <= limit
            && page.next == if |page.items| < limit then OrZero(o.head) else page.items[limit - 1].cursor
  {
    ScopeExactly(e.event, sc);
    ReadShape(o, plugin, sc, after, limit);
    var start := StartCursor(after, OrZero(o.head), Horizon(o)).value;
    PageRows(o, sc, start);
    PageRowsHave(o, sc, start, e);
    var rows := Scoped(Upto(Above(o.entries, start), OrZero(o.head)), sc);
    if |rows| >= limit { CutHas(rows, limit, e); }
    EntriesAbove(o);
  }

  /** A fresh read that is not full holds every stored entry of its scope if and only if none lies at or below the gap. */
  lemma FreshReadComplete(o: Org, plugin: PluginId, sc: Scope, limit: int)
    requires Inv(o) && Read(o, plugin, sc, None, limit).Ok? && |Read(o, plugin, sc, None, limit).value.items| < limit
    ensures (forall e :: e in o.entries && InScope(e.event, sc) ==> e in Read(o, plugin, sc, None, limit).value.items) <==>
            (forall e :: e in o.entries && InScope(e.event, sc) ==> e.cursor > o.row.value.gap)
  {
    var page := Read(o, plugin, sc, None, limit).value;
    forall e ensures e in o.entries && InScope(e.event, sc) ==> (e in page.items <==> e.cursor > o.row.value.gap) {
      PageContents(o, plugin, sc, None, limit, e);
      ScopeExactly(e.event, sc);
      EntriesUpToHead(o);
    }
  }

  lemma EntriesUpToHead(o: Org)
    requires Inv(o)
    ensures forall e :: e in o.entries ==> o.prunedThrough < e.cursor <= OrZero(o.head)
  {
    LogSorted(o.history);
    forall e | e in o.entries ensures o.prunedThrough < e.cursor <= OrZero(o.head) { AboveHas(Log(o.history), o.prunedThrough, e); }
  }

  /** Each error of a read, by its condition; where none holds the read succeeds. */
  lemma ReadErrors(o: Org, plugin: PluginId, sc: Scope, after: Option<int>, limit: int)
    ensures var r := Read(o, plugin, sc, after, limit);
            var bad := (after.Some? && after.value < 0) || limit < 1 || limit > 200;
            var refused := !o.serving || plugin !in o.subscribers;
            var behind := after.Some? && (after.value < o.prunedThrough || (o.row.Some? && after.value < o.row.value.gap));
            && (r == Err(BadPage) <==> bad)
            && (r == Err(NotSubscribed) <==> !bad && refused)
            && (r == Err(Ahead) <==> !bad && !refused && after.Some? && after.value > OrZero(o.head))
            && (r == Err(Expired) <==> !bad && !refused && behind && after.value <= OrZero(o.head))
            && (r.Ok? <==> !bad && !refused && (after.Some? ==> !behind && after.value <= OrZero(o.head)))
  {
  }

  /** An accepted acknowledgement is recorded unless a later one is, a cursor beyond the head is not, and nothing else changes. */
  lemma AcknowledgedExactly(o: Org, c: Consumer, cursor: nat, other: Consumer)
    ensures var p := AcknowledgeCursor(o, c, cursor);
            && p == o.(acks := p.acks)
            && (other != c ==> AckOf(p, other) == AckOf(o, other))
            && AckOf(p, c) == (if o.serving && c.plugin in o.subscribers && AckOf(o, c) < cursor <= OrZero(o.head) then cursor else AckOf(o, c))
            && (o.serving && c.plugin in o.subscribers && cursor <= OrZero(o.head) ==> c in p.acks)
  {
  }

  /** A subscription change takes effect at once: journaling is on exactly if somebody is subscribed, with the history kept. */
  lemma SubscriptionDecides(o: Org, subs: set<PluginId>)
    requires Inv(o) && o.serving
    ensures var p := Step(o, Subscribe(subs));
            && p.subscribers == subs && p.serving && (Journaling(p) <==> subs != {})
            && p.acks == o.acks && p.operations == o.operations && p.entries == o.entries && p.prunedThrough == o.prunedThrough
            && (Journaling(o) && subs != {} ==> p == o.(subscribers := subs))
            && (!Journaling(o) && subs != {} && (o.row.Some? || o.head.Some?) ==> p.head == Some(OrZero(o.head) + 1) && p.row.value.gap == OrZero(o.head) + 1)
            && (!Journaling(o) && subs != {} && o.row.None? && o.head.None? ==> p.head == None && p.row == Some(Row(true, 0)))
            && (subs == {} ==> p.head == o.head && Paused(o, p))
  {
  }

  /** Pausing keeps the gap; an organization with a head and no row gets a paused one. */
  predicate Paused(o: Org, p: Org) {
    p.row == if o.row.Some? then Some(Row(false, o.row.value.gap)) else if o.head.Some? then Some(Row(false, 0)) else None
  }

  /** So does start-up, with and without a plugin host. */
  lemma StartupDecides(o: Org, host: bool)
    requires Inv(o)
    ensures var p := Step(o, Startup(host));
            && p.serving == host && p.subscribers == o.subscribers && (Journaling(p) <==> host && o.subscribers != {}) && p.acks == o.acks && p.entries == o.entries
            && (!host || o.subscribers == {} ==> p.head == o.head && Paused(o, p))
            && (Journaling(o) && host ==> p == o.(serving := true))
            && (!Journaling(o) && host && o.subscribers != {} && (o.row.Some? || o.head.Some?) ==> p.head == Some(OrZero(o.head) + 1) && p.row.value.gap == OrZero(o.head) + 1)
  {
  }

  /**
   The retention bound: a prune takes the acknowledgements of exactly the consumers whose plugin is subscribed, whose operation
   may read events and is not released, or was released within the window.
   */
  lemma BoundExactly(o: Org, now: int, window: int, below: Option<nat>, c: Consumer)
    requires IsLowest(o, now, window, below) && c in o.operations && c.plugin in o.subscribers && o.operations[c].readsEvents
    requires o.operations[c].state != Released || o.operations[c].updatedAt > now - window
    ensures below.Some? && below.value <= if c in o.acks then o.acks[c] else 0
  {
    assert Counted(o, c, now, window);
  }

  /** And of no other: the bound is the acknowledgement of such a consumer, and without one there is no bound. */
  lemma BoundWitness(o: Org, now: int, window: int, below: Option<nat>)
    requires IsLowest(o, now, window, below)
    ensures below.Some? <==> exists c :: c in o.operations && c.plugin in o.subscribers && o.operations[c].readsEvents
                                         && (o.operations[c].state != Released || o.operations[c].updatedAt > now - window)
    ensures below.Some? ==> exists c :: c in o.operations && c.plugin in o.subscribers && o.operations[c].readsEvents
                                        && (o.operations[c].state != Released || o.operations[c].updatedAt > now - window)
                                        && below.value == AckOf(o, c)
  {
    if below.Some? {
      var c :| c in o.operations && Counted(o, c, now, window) && below.value == AckOf(o, c);
    } else {
      forall c | c in o.operations ensures !Counted(o, c, now, window) { }
    }
  }

  /** What an unhurried prune does: it takes the bound and the age it was given, and removes nothing else. */
  lemma PruneTakesInputs(o: Org, now: int, window: int, batch: nat, below: Option<nat>)
    requires o.pruning.None? && IsLowest(o, now, window, below)
    ensures Step(o, BeginPrune(now, window, batch, below)) == o.(pruning := Some(Pruning(now - window, below, batch)))
    ensures forall e: Entry :: Prunable(e, Pruning(now - window, below, batch)) <==> e.recordedAt < now - window && (below.Some? ==> e.cursor < below.value)
  {
  }

  /******* What a commit writes *******/

  /** The rows from this place on: the events in order, each with the next cursor, its own content and its own time. */
  ghost predicate Written(before: Org, events: seq<Stamped>, after: Org) {
    && |after.entries| == |before.entries| + |events| && |after.history| == |before.history| + |events|
    && after.entries[..|before.entries|] == before.entries && after.history[..|before.history|] == before.history
    && (forall i :: 0 <= i < |events| ==>
          var entry := Entry(OrZero(before.head) + 1 + i, events[i].event, events[i].recordedAt);
          after.entries[|before.entries| + i] == entry && after.history[|before.history| + i] == Journaled(entry))
    && OrZero(after.head) == OrZero(before.head) + |events|
    && after == before.(head := after.head, entries := after.entries, history := after.history)
  }

  lemma AppendedRows(o: Org, events: seq<Stamped>, es: seq<Entry>, items: seq<Item>)
    requires |es| == |events| == |items|
    requires forall i :: 0 <= i < |events| ==> es[i] == Entry(OrZero(o.head) + 1 + i, events[i].event, events[i].recordedAt) && items[i] == Journaled(es[i])
    ensures Written(o, events, o.(head := Some(OrZero(o.head) + |events|), entries := o.entries + es, history := o.history + items))
  {
  }

  lemma JournalAllWrites(o: Org, events: seq<Stamped>)
    ensures Written(o, events, JournalAll(o, events))
  {
    if |events| > 0 {
      L.NumberedIsJournalAll(o, events);
      var es := L.Numbered(events, OrZero(o.head) + 1);
      AppendedRows(o, events, es, L.Items(es));
    }
  }

  /** A commit while journaling writes one row per event, in order; otherwise none, and only what happened is longer. */
  lemma CommitWrites(o: Org, events: seq<Stamped>)
    ensures var t := Step(o, Commit(events));
            if o.row.Some? && o.row.value.journaling then Written(o, events, t)
            else t == o.(history := t.history) && |t.history| == |o.history| + |events| && t.history[..|o.history|] == o.history
                 && forall i :: 0 <= i < |events| ==> t.history[|o.history| + i] == Unjournaled(events[i].event)
  {
    JournalAllWrites(o, events);
  }
}
