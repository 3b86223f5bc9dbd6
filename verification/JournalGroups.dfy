/** Grouping a transaction's journal entries per organization before they are flushed. */
module JournalGroups {
  import opened Base
  import opened ExtensionJournal

  type OrgId = Octets

  datatype Tagged = Tagged(org: OrgId, entry: Stamped)

  datatype Group = Group(org: OrgId, entries: seq<Stamped>)

  /** The entries of one organization, in event order. */
  function Of(es: seq<Tagged>, org: OrgId): seq<Stamped> {
    if |es| == 0 then []
    else
      var rest := Of(es[..|es| - 1], org);
      if es[|es| - 1].org == org then rest + [es[|es| - 1].entry] else rest
  }

  lemma SnocOf(es: seq<Tagged>, e: Tagged, org: OrgId)
    ensures Of(es + [e], org) == if e.org == org then Of(es, org) + [e.entry] else Of(es, org)
  {
    assert (es + [e])[..|es + [e]| - 1] == es;
  }

  lemma {:induction false} OfConcat(a: seq<Tagged>, b: seq<Tagged>, org: OrgId)
    ensures Of(a + b, org) == Of(a, org) + Of(b, org)
  {
    if |b| == 0 {
      assert a + b == a;
    } else {
      OfConcat(a, b[..|b| - 1], org);
      assert (a + b)[..|a + b| - 1] == a + b[..|b| - 1];
    }
  }

  ghost predicate SortedByOrg(es: seq<Tagged>) {
    forall i, j :: 0 <= i < j < |es| ==> es[i].org == es[j].org || Less(es[i].org, es[j].org)
  }

  /** slices.SortStableFunc by organization: each element goes after its equals. */
  function SortStable(es: seq<Tagged>): seq<Tagged> {
    if |es| == 0 then [] else Insert(SortStable(es[..|es| - 1]), es[|es| - 1])
  }

  function Insert(es: seq<Tagged>, e: Tagged): seq<Tagged> {
    if |es| == 0 || !Less(e.org, es[|es| - 1].org) then es + [e]
    else Insert(es[..|es| - 1], e) + [es[|es| - 1]]
  }

  lemma {:induction false} InsertSorted(es: seq<Tagged>, e: Tagged)
    requires SortedByOrg(es)
    ensures SortedByOrg(Insert(es, e))
    ensures forall x :: x in Insert(es, e) <==> x in es || x == e
  {
    if |es| != 0 {
      var init, last := es[..|es| - 1], es[|es| - 1];
      if Less(e.org, last.org) {
        InsertSorted(init, e);
        var r := Insert(init, e);
        forall i | 0 <= i < |r| ensures r[i].org == last.org || Less(r[i].org, last.org) {
          assert r[i] in r;
        }
      } else {
        forall i | 0 <= i < |es| ensures es[i].org == e.org || Less(es[i].org, e.org) {
          LessTotal(last.org, e.org);
          if Less(es[i].org, last.org) && Less(last.org, e.org) {
            LessTransitive(es[i].org, last.org, e.org);
          }
        }
      }
    }
  }

  lemma {:induction false} InsertOf(es: seq<Tagged>, e: Tagged, org: OrgId)
    ensures Of(Insert(es, e), org) == if e.org == org then Of(es, org) + [e.entry] else Of(es, org)
  {
    SnocOf(es, e, org);
    if |es| != 0 && Less(e.org, es[|es| - 1].org) {
      InsertOf(es[..|es| - 1], e, org);
      SnocOf(Insert(es[..|es| - 1], e), es[|es| - 1], org);
      LessTotal(e.org, es[|es| - 1].org);
    }
  }

  lemma {:induction false} SortStableIsStable(es: seq<Tagged>)
    ensures SortedByOrg(SortStable(es))
    ensures forall org :: Of(SortStable(es), org) == Of(es, org)
    ensures forall x :: x in SortStable(es) <==> x in es
  {
    if |es| != 0 {
      var init, last := es[..|es| - 1], es[|es| - 1];
      SortStableIsStable(init);
      InsertSorted(SortStable(init), last);
      forall org { InsertOf(SortStable(init), last, org); }
    }
  }

  ghost predicate Ascending(gs: seq<Group>) {
    forall i, j :: 0 <= i < j < |gs| ==> Less(gs[i].org, gs[j].org)
  }

  ghost predicate Has(gs: seq<Group>, org: OrgId) {
    exists i :: 0 <= i < |gs| && gs[i].org == org
  }

  /** A stable partition: one non-empty group per organization, in increasing organization order. */
  ghost predicate Partition(gs: seq<Group>, es: seq<Tagged>) {
    && Ascending(gs)
    && (forall i :: 0 <= i < |gs| ==> |gs[i].entries| > 0 && gs[i].entries == Of(es, gs[i].org))
    && (forall org :: |Of(es, org)| > 0 ==> Has(gs, org))
  }

  lemma {:induction false} NonEmptyOf(es: seq<Tagged>, org: OrgId)
    requires |Of(es, org)| > 0
    ensures exists k :: 0 <= k < |es| && es[k].org == org
  {
    var init := es[..|es| - 1];
    if es[|es| - 1].org != org {
      NonEmptyOf(init, org);
      var k :| 0 <= k < |init| && init[k].org == org;
      assert es[k].org == org;
    }
  }

  /** The next sorted entry belongs to the last group or to a later organization than every group. */
  lemma NextOrg(gs: seq<Group>, es: seq<Tagged>, e: Tagged)
    requires Partition(gs, es) && SortedByOrg(es + [e])
    ensures forall i :: 0 <= i < |gs| - 1 ==> Less(gs[i].org, e.org)
    ensures |gs| > 0 ==> gs[|gs| - 1].org == e.org || Less(gs[|gs| - 1].org, e.org)
  {
    if |gs| > 0 {
      var last := gs[|gs| - 1].org;
      NonEmptyOf(es, last);
      var k :| 0 <= k < |es| && es[k].org == last;
      assert (es + [e])[k].org == last && (es + [e])[|es|] == e;
      forall i | 0 <= i < |gs| - 1 ensures Less(gs[i].org, e.org) {
        if last != e.org {
          LessTransitive(gs[i].org, last, e.org);
        }
      }
    }
  }

  lemma JoinGroup(gs: seq<Group>, es: seq<Tagged>, e: Tagged)
    requires Partition(gs, es) && SortedByOrg(es + [e]) && |gs| > 0 && gs[|gs| - 1].org == e.org
    ensures Partition(gs[..|gs| - 1] + [Group(e.org, gs[|gs| - 1].entries + [e.entry])], es + [e])
  {
    NextOrg(gs, es, e);
    var next := gs[..|gs| - 1] + [Group(e.org, gs[|gs| - 1].entries + [e.entry])];
    forall org ensures |Of(es + [e], org)| > 0 ==> Has(next, org) {
      SnocOf(es, e, org);
      if |Of(es + [e], org)| > 0 {
        var i :| 0 <= i < |gs| && gs[i].org == org;
        assert next[i].org == org;
      }
    }
    forall i | 0 <= i < |next| ensures |next[i].entries| > 0 && next[i].entries == Of(es + [e], next[i].org) {
      SnocOf(es, e, next[i].org);
      LessTotal(next[i].org, e.org);
    }
  }

  lemma OpenGroup(gs: seq<Group>, es: seq<Tagged>, e: Tagged)
    requires Partition(gs, es) && SortedByOrg(es + [e]) && (|gs| == 0 || gs[|gs| - 1].org != e.org)
    ensures Partition(gs + [Group(e.org, [e.entry])], es + [e])
  {
    NextOrg(gs, es, e);
    var next := gs + [Group(e.org, [e.entry])];
    forall org ensures |Of(es + [e], org)| > 0 ==> Has(next, org) {
      SnocOf(es, e, org);
      if org == e.org {
        assert next[|gs|].org == org;
      } else if |Of(es + [e], org)| > 0 {
        var i :| 0 <= i < |gs| && gs[i].org == org;
        assert next[i].org == org;
      }
    }
    LessTotal(e.org, e.org);
    assert !Has(gs, e.org);
    forall i | 0 <= i < |next| ensures |next[i].entries| > 0 && next[i].entries == Of(es + [e], next[i].org) {
      SnocOf(es, e, next[i].org);
    }
  }

  /** journalOrganizations: a stable sort, then one scan that opens or extends a group. */
  method JournalOrganizations(es: seq<Tagged>) returns (groups: seq<Group>)
    ensures Partition(groups, es)
  {
    var sorted := SortStable(es);
    SortStableIsStable(es);
    groups := GroupSorted(sorted);
  }

  method GroupSorted(sorted: seq<Tagged>) returns (groups: seq<Group>)
    requires SortedByOrg(sorted)
    ensures Partition(groups, sorted)
  {
    groups := [];
    for i := 0 to |sorted|
      invariant Partition(groups, sorted[..i])
    {
      var e := sorted[i];
      assert sorted[..i + 1] == sorted[..i] + [e];
      if |groups| == 0 || groups[|groups| - 1].org != e.org {
        OpenGroup(groups, sorted[..i], e);
        groups := groups + [Group(e.org, [e.entry])];
      } else {
        JoinGroup(groups, sorted[..i], e);
        groups := groups[..|groups| - 1] + [Group(e.org, groups[|groups| - 1].entries + [e.entry])];
      }
    }
    assert sorted[..|sorted|] == sorted;
  }
}
