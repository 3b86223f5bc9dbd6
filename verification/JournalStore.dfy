/**
 The journal of one organization as Core changes it: one statement after the
 other on the stored rows. Every method is proved against the transition
 function of ExtensionJournal it carries out.
 */
module JournalStore {
  import opened Base
  import opened ExtensionJournal

  class OrganizationJournal {
    var head: Option<nat>
    var row: Option<Row>
    var prunedThrough: nat
    var entries: seq<Entry>
    var acks: map<Consumer, nat>
    var subscribers: set<PluginId>
    var operations: map<Consumer, Operation>
    var serving: bool
    ghost var pruning: Option<Pruning>
    ghost var history: seq<Item>

    ghost function Value(): Org
      reads this
    {
      Org(head, row, prunedThrough, entries, acks, subscribers, operations, serving, pruning, history)
    }

    constructor ()
      ensures Inv(Value()) && Value() == Org(None, None, 0, [], map[], {}, map[], true, None, [])
    {
      head, row, prunedThrough, entries := None, None, 0, [];
      acks, subscribers, operations, serving := map[], {}, map[], true;
      pruning, history := None, [];
    }

    // INSERT ... ON CONFLICT DO UPDATE SET cursor = cursor + 1 RETURNING cursor
    method AdvanceHead() returns (cursor: nat)
      modifies this`head
      ensures cursor == OrZero(old(head)) + 1 && head == Some(cursor)
    {
      if head.None? { cursor := 1; } else { cursor := head.value + 1; }
      head := Some(cursor);
    }

    method JournalEvent(e: Stamped)
      modifies this
      ensures Value() == JournalOne(old(Value()), e)
    {
      var cursor := AdvanceHead();
      var entry := Entry(cursor, e.event, e.recordedAt);
      entries := entries + [entry];
      history := history + [Journaled(entry)];
    }

    method FlushEntries(events: seq<Stamped>)
      modifies this
      ensures Value() == Flush(old(Value()), events)
    {
      var journaling := false;
      if row.Some? { journaling := row.value.journaling; }
      if !journaling {
        history := history + Skipped(events);
        return;
      }
      var i := 0;
      assert events[0..] == events;
      while i < |events|
        invariant 0 <= i <= |events|
        invariant JournalAll(old(Value()), events) == JournalAll(Value(), events[i..])
      {
        assert events[i..][1..] == events[i + 1..];
        JournalEvent(events[i]);
        i := i + 1;
      }
    }

    method PauseJournal()
      modifies this
      ensures Value() == Pause(old(Value()))
    {
      if row.Some? && row.value.journaling {
        row := Some(row.value.(journaling := false));
      }
      if row.None? && head.Some? {
        row := Some(Row(false, 0));
      }
    }

    method StartJournal()
      modifies this
      ensures Value() == Start(old(Value()))
    {
      if row.None? {
        if head.None? {
          row := Some(Row(true, 0));
          history := history + [Mark(0)];
          return;
        }
        row := Some(Row(false, 0));
      } else if row.value.journaling {
        return;
      }
      var gap := AdvanceHead();
      row := Some(Row(true, gap));
      history := history + [Mark(gap)];
    }

    method SyncJournal()
      modifies this
      ensures Value() == Sync(old(Value()))
    {
      if |subscribers| == 0 { PauseJournal(); } else { StartJournal(); }
    }

    method ChangeSubscription(subs: set<PluginId>)
      requires serving
      modifies this
      ensures Value() == Step(old(Value()), Subscribe(subs))
    {
      subscribers := subs;
      SyncJournal();
    }

    method Reconcile(host: bool)
      modifies this
      ensures Value() == Step(old(Value()), Startup(host))
    {
      serving := host;
      if host { SyncJournal(); } else { PauseJournal(); }
    }

    method Acknowledge(c: Consumer, cursor: nat) returns (r: Result<(), ReadError>)
      modifies this
      ensures Value() == AcknowledgeCursor(old(Value()), c, cursor)
      ensures r == if serving && c.plugin in subscribers then Ok(()) else Err(NotSubscribed)
    {
      if !serving || c.plugin !in subscribers { return Err(NotSubscribed); }
      if cursor <= OrZero(head) {
        if c !in acks || acks[c] < cursor {
          acks := acks[c := cursor];
        }
      }
      return Ok(());
    }

    /** Scans the rows of the page query in cursor order. */
    method ReadPage(plugin: PluginId, sc: Scope, after: Option<int>, limit: int) returns (r: Result<Page, ReadError>)
      ensures r == Read(Value(), plugin, sc, after, limit)
    {
      if (after.Some? && after.value < 0) || limit < 1 || limit > 200 { return Err(BadPage); }
      if !serving || plugin !in subscribers { return Err(NotSubscribed); }
      var top, horizon := OrZero(head), prunedThrough;
      if row.Some? && row.value.gap > horizon { horizon := row.value.gap; }
      var start := StartCursor(after, top, horizon);
      if start.Err? { return Err(start.error); }
      var page := ScanPage(entries, start.value, top, sc, limit);
      MatchingIsPageRows(entries, start.value, top, sc);
      return Ok(page);
    }

    /** MIN(COALESCE(acknowledged_cursor, 0)) over the counted consumers. */
    method LowestAck(now: int, window: int) returns (below: Option<nat>)
      ensures IsLowest(Value(), now, window, below)
    {
      below := None;
      var todo := operations.Keys;
      ghost var seen := {};
      while todo != {}
        invariant todo + seen == operations.Keys && todo !! seen && LowestOf(Value(), seen, now, window, below)
        decreases |todo|
      {
        var c :| c in todo;
        todo := todo - {c};
        ghost var was := below;
        var op := operations[c];
        if c.plugin in subscribers && op.readsEvents && (op.state != Released || op.updatedAt > now - window) {
          var ack := if c in acks then acks[c] else 0;
          if below.None? || ack < below.value { below := Some(ack); }
        }
        LowestWith(Value(), seen, c, now, window, was, below);
        seen := seen + {c};
      }
    }

    /** One retention transaction that nothing interleaves with. */
    method PruneOrganization(now: int, window: int, batch: nat) returns (removed: nat, below: Option<nat>)
      requires pruning.None?
      modifies this
      ensures IsLowest(old(Value()), now, window, below)
      ensures Value() == Run(old(Value()), [BeginPrune(now, window, batch, below), FinishPrune])
      ensures removed == |old(entries)| - |entries|
    {
      below := LowestAck(now, window);
      var k := ScanPrunable(entries, Pruning(now - window, below, batch));
      ghost var before := Value();
      removed := k;
      if k > 0 {
        prunedThrough := entries[k - 1].cursor;
        entries := entries[k..];
      }
      PruneAlone(before, now, window, batch, below);
    }
  }

  /** The least acknowledgement of the counted consumers among these, if there is one. */
  ghost predicate LowestOf(o: Org, seen: set<Consumer>, now: int, window: int, below: Option<nat>) {
    && (below.None? ==> forall c :: c in seen ==> !Counted(o, c, now, window))
    && (below.Some? ==>
          && (forall c :: c in seen && Counted(o, c, now, window) ==> below.value <= AckOf(o, c))
          && (exists c :: c in seen && Counted(o, c, now, window) && below.value == AckOf(o, c)))
  }

  lemma LowestWith(o: Org, seen: set<Consumer>, c: Consumer, now: int, window: int, was: Option<nat>, below: Option<nat>)
    requires LowestOf(o, seen, now, window, was)
    requires below == if Counted(o, c, now, window) && (was.None? || AckOf(o, c) < was.value) then Some(AckOf(o, c)) else was
    ensures LowestOf(o, seen + {c}, now, window, below)
  {
    if Counted(o, c, now, window) && (was.None? || AckOf(o, c) < was.value) {
      assert c in seen + {c};
    } else if was.Some? {
      var k :| k in seen && Counted(o, k, now, window) && was.value == AckOf(o, k);
      assert k in seen + {c};
    }
  }

  /** Scans the rows of the page query in cursor order until the limit. */
  method ScanPage(es: seq<Entry>, start: int, top: nat, sc: Scope, limit: nat) returns (page: Page)
    requires limit >= 1
    ensures var rows := Matching(es, start, top, sc);
            page == if |rows| < limit then Page(rows, top) else Page(rows[..limit], rows[limit - 1].cursor)
  {
    var items: seq<Entry>, next, i := [], top, 0;
    while i < |es| && |items| < limit
      invariant 0 <= i <= |es| && |items| <= limit
      invariant items == Matching(es[..i], start, top, sc)
      invariant next == if |items| == limit then items[limit - 1].cursor else top
    {
      assert es[..i + 1][..i] == es[..i];
      if start < es[i].cursor <= top && InScope(es[i].event, sc) {
        items := items + [es[i]];
        if |items| == limit { next := es[i].cursor; }
      }
      i := i + 1;
    }
    MatchingPrefix(es, i, start, top, sc);
    assert es[..|es|] == es;
    page := Page(items, next);
  }

  /** The window function bool_and(...) OVER (ORDER BY cursor) over the first `batch` candidates. */
  method ScanPrunable(es: seq<Entry>, p: Pruning) returns (k: nat)
    ensures k == PrunablePrefix(es, p, p.batch)
  {
    k := 0;
    assert es[0..] == es;
    while k < |es| && k < p.batch && Prunable(es[k], p)
      invariant 0 <= k <= |es| && k <= p.batch
      invariant PrunablePrefix(es, p, p.batch) == k + PrunablePrefix(es[k..], p, p.batch - k)
    {
      assert es[k..][1..] == es[k + 1..];
      k := k + 1;
    }
  }

  /** The rows the page query matches, before LIMIT. */
  function Matching(es: seq<Entry>, start: int, top: int, sc: Scope): seq<Entry> {
    if |es| == 0 then []
    else
      var last, rest := es[|es| - 1], Matching(es[..|es| - 1], start, top, sc);
      if start < last.cursor <= top && InScope(last.event, sc) then rest + [last] else rest
  }

  lemma {:induction false} MatchingIsPageRows(es: seq<Entry>, start: int, top: int, sc: Scope)
    ensures Matching(es, start, top, sc) == Scoped(Upto(Above(es, start), top), sc)
  {
    if |es| != 0 {
      var init, e := es[..|es| - 1], es[|es| - 1];
      MatchingIsPageRows(init, start, top, sc);
      SnocEntry(Above(init, start), e, top, sc);
      SnocEntry(Upto(Above(init, start), top), e, top, sc);
    }
  }

  lemma {:induction false} MatchingPrefix(es: seq<Entry>, i: nat, start: int, top: int, sc: Scope)
    requires i <= |es|
    ensures |Matching(es[..i], start, top, sc)| <= |Matching(es, start, top, sc)|
    ensures Matching(es, start, top, sc)[..|Matching(es[..i], start, top, sc)|] == Matching(es[..i], start, top, sc)
    decreases |es| - i
  {
    if i == |es| {
      assert es[..i] == es;
    } else {
      assert es[..i + 1][..i] == es[..i];
      MatchingPrefix(es, i + 1, start, top, sc);
    }
  }

  lemma PruneAlone(o: Org, now: int, window: int, batch: nat, below: Option<nat>)
    requires o.pruning.None? && IsLowest(o, now, window, below)
    ensures Run(o, [BeginPrune(now, window, batch, below), FinishPrune]) == PruneEntries(o, Pruning(now - window, below, batch))
  {
    var pruning := Pruning(now - window, below, batch);
    RunTwo(o, BeginPrune(now, window, batch, below), FinishPrune);
    assert Step(o, BeginPrune(now, window, batch, below)) == o.(pruning := Some(pruning));
    PruneMarked(o, pruning);
  }

  lemma PruneMarked(o: Org, p: Pruning)
    requires o.pruning.None?
    ensures Step(o.(pruning := Some(p)), FinishPrune) == PruneEntries(o, p)
  {
    var k := PrunablePrefix(o.entries, p, p.batch);
    assert PruneEntries(o, p) == if k == 0 then o else o.(entries := o.entries[k..], prunedThrough := o.entries[k - 1].cursor);
  }

  lemma RunTwo(o: Org, a: Action, b: Action)
    ensures Run(o, [a, b]) == Step(Step(o, a), b)
  {
    assert [a, b][1..] == [b] && [b][1..] == [];
    assert Run(Step(o, a), [b]) == Run(Step(Step(o, a), b), []);
  }
}
