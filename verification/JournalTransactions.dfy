/**
 The transaction wrapper that keeps journal entries back until commit, and the
 flush over every organization it touched. A database error at any statement is
 a parameter; each call runs under the transaction's mutex.
 */
module JournalTransactions {
  import opened Base
  import opened ExtensionJournal
  import opened JournalGroups
  import opened JournalLocks

  datatype TxError = TxDone | Failed

  /** flushExtensionJournal: each organization's entries, in event order, under its own decision. */
  method FlushJournal(orgs: map<OrgId, Org>, entries: seq<Tagged>) returns (flushed: map<OrgId, Org>)
    ensures forall o :: OrgIn(flushed, o) == Flush(OrgIn(orgs, o), Of(entries, o))
  {
    var groups := JournalOrganizations(entries);
    flushed := orgs;
    assert groups[..0] == [];
    for i := 0 to |groups|
      invariant FlushedTo(orgs, flushed, groups[..i], entries)
    {
      var org := groups[i].org;
      GroupIsNew(groups, entries, i);
      FlushOne(orgs, flushed, groups, entries, i);
      flushed := flushed[org := Flush(OrgIn(flushed, org), groups[i].entries)];
    }
    assert groups[..|groups|] == groups;
    forall o ensures OrgIn(flushed, o) == Flush(OrgIn(orgs, o), Of(entries, o)) {
      if !Has(groups, o) {
        assert Of(entries, o) == [];
        assert OrgIn(orgs, o).history + Skipped([]) == OrgIn(orgs, o).history;
      }
    }
  }

  /** The organizations of these groups have their events, the others are as before. */
  ghost predicate FlushedTo(orgs: map<OrgId, Org>, flushed: map<OrgId, Org>, done: seq<Group>, entries: seq<Tagged>) {
    forall o :: OrgIn(flushed, o) == if Has(done, o) then Flush(OrgIn(orgs, o), Of(entries, o)) else OrgIn(orgs, o)
  }

  lemma GroupIsNew(groups: seq<Group>, entries: seq<Tagged>, i: nat)
    requires Partition(groups, entries) && i < |groups|
    ensures !Has(groups[..i], groups[i].org)
    ensures forall o :: Has(groups[..i + 1], o) <==> Has(groups[..i], o) || o == groups[i].org
  {
    forall k | 0 <= k < i ensures groups[k].org != groups[i].org { LessTotal(groups[k].org, groups[i].org); }
    forall o ensures Has(groups[..i + 1], o) <==> Has(groups[..i], o) || o == groups[i].org {
      if Has(groups[..i], o) {
        var k :| 0 <= k < i && groups[..i][k].org == o;
        assert groups[..i + 1][k].org == o;
      }
      assert groups[..i + 1][i].org == groups[i].org;
    }
  }

  lemma FlushOne(orgs: map<OrgId, Org>, flushed: map<OrgId, Org>, groups: seq<Group>, entries: seq<Tagged>, i: nat)
    requires Partition(groups, entries) && i < |groups| && FlushedTo(orgs, flushed, groups[..i], entries)
    requires !Has(groups[..i], groups[i].org)
    requires forall o :: Has(groups[..i + 1], o) <==> Has(groups[..i], o) || o == groups[i].org
    ensures var org := groups[i].org;
            FlushedTo(orgs, flushed[org := Flush(OrgIn(flushed, org), groups[i].entries)], groups[..i + 1], entries)
  {
    var org := groups[i].org;
    assert OrgIn(flushed, org) == OrgIn(orgs, org) && groups[i].entries == Of(entries, org);
    var more := flushed[org := Flush(OrgIn(flushed, org), groups[i].entries)];
    forall o ensures OrgIn(more, o) == if Has(groups[..i + 1], o) then Flush(OrgIn(orgs, o), Of(entries, o)) else OrgIn(orgs, o) {
      assert o != org ==> OrgIn(more, o) == OrgIn(flushed, o);
    }
  }

  lemma {:induction false} JournalOfConcat(a: seq<Message>, b: seq<Message>)
    ensures JournalOf(a + b) == JournalOf(a) + JournalOf(b)
  {
    if |b| == 0 {
      assert a + b == a;
    } else {
      JournalOfConcat(a, b[..|b| - 1]);
      assert (a + b)[..|a + b| - 1] == a + b[..|b| - 1];
    }
  }

  class Database {
    var orgs: map<OrgId, Org>
    var outbox: seq<Message>

    constructor ()
      ensures orgs == map[] && outbox == []
    {
      orgs, outbox := map[], [];
    }
  }

  class JournalTransaction {
    const db: Database
    var finalized: bool
    var journal: seq<Tagged>
    var staged: seq<Message>  // outbox rows the open transaction inserted

    /** The journal kept back is exactly the journal events of the staged messages. */
    ghost predicate Valid()
      reads this
    {
      !finalized ==> journal == JournalOf(staged)
    }

    constructor (db: Database)
      ensures Valid() && this.db == db && !finalized && staged == []
    {
      this.db := db;
      finalized, journal, staged := false, [], [];
    }

    method InsertPendingEventMessages(messages: seq<Message>, fails: bool) returns (r: Result<(), TxError>)
      requires Valid()
      modifies this
      ensures Valid() && finalized == old(finalized)
      ensures r == if old(finalized) then Err(TxDone) else if fails then Err(Failed) else Ok(())
      ensures staged == if r.Ok? then old(staged) + messages else old(staged)
    {
      if finalized { return Err(TxDone); }
      if fails { return Err(Failed); }
      JournalOfConcat(staged, messages);
      staged := staged + messages;
      journal := journal + JournalOf(messages);
      return Ok(());
    }

    /** Outbox rows and journal entries become visible together, or neither does. */
    method Commit(flushFails: bool, commitFails: bool) returns (r: Result<(), TxError>)
      requires Valid()
      modifies this, db
      ensures Valid() && finalized
      ensures r == if old(finalized) then Err(TxDone) else if flushFails || commitFails then Err(Failed) else Ok(())
      ensures r.Ok? ==> db.outbox == old(db.outbox) + old(staged)
      ensures r.Ok? ==> forall o :: OrgIn(db.orgs, o) == Flush(OrgIn(old(db.orgs), o), Of(JournalOf(old(staged)), o))
      ensures r.Err? ==> db.outbox == old(db.outbox) && db.orgs == old(db.orgs)
    {
      if finalized { return Err(TxDone); }
      finalized := true;
      var entries := journal;
      journal := [];
      if flushFails { return Err(Failed); }
      var flushed := FlushJournal(db.orgs, entries);
      if commitFails { return Err(Failed); }
      db.orgs, db.outbox := flushed, db.outbox + staged;
      return Ok(());
    }

    method Rollback() returns (r: Result<(), TxError>)
      requires Valid()
      modifies this
      ensures Valid() && finalized && r == if old(finalized) then Err(TxDone) else Ok(())
      ensures staged == old(staged)
    {
      if finalized { return Err(TxDone); }
      finalized := true;
      journal := [];
      return Ok(());
    }
  }
}
