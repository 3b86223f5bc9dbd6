/**
 What the handlers of an observation admission decide and where every stored answer comes from, stated on the stored rows, the commands
 of the grant and the moves of a run.
 */
module ObservationAnswers {
  import opened Base
  import opened ObservationAdmission
  import opened ObservationHandlers

  /******* What each transaction decides *******/

  /** An intent is recorded exactly for an open admission, under current authority, and unless its id already names another request. */
  lemma IntentDecides(s: State, key: Key, row: Row, now: int)
    requires Inv(s)
    ensures MayRecord(s, key, row, now) <==>
            && key !in s.closures && (row.Request? ==> Backed(s.grants, row, now))
            && (key in s.rows ==> Identifies(s.rows[key], row))
  {
    AuthorizedExactly(s, row, now);
  }

  /** The call is made exactly for a recorded, open and unanswered admission, under authority that is current again. */
  lemma CallDecides(s: State, key: Key, row: Row, now: int)
    requires Inv(s)
    ensures MayCall(s, key, row, now) <==>
            && key !in s.closures && (row.Request? ==> Backed(s.grants, row, now))
            && key in s.rows && Identifies(s.rows[key], row) && (row.Request? ==> s.rows[key].response == None)
  {
    AuthorizedExactly(s, row, now);
  }

  /** A closing goes ahead exactly for the stored closure or else the stored request of the same digest and run; with neither, only within scope. */
  lemma CloseDecides(s: State, key: Key, digest: Digest, run: Option<Uuid>, scoped: bool)
    ensures MayClose(s, key, digest, run, scoped) <==>
            if key in s.closures then s.closures[key].digest == digest && s.closures[key].run == run
            else if key in s.rows then s.rows[key].digest == digest && run == (if s.rows[key].Redeploy? then Some(s.rows[key].run) else None)
            else scoped
  {
  }

  /******* Where a stored response comes from *******/

  /** The move brings the Data Plane's answer r to this admission: on a call, an accepted ruling or a later look-up. */
  ghost predicate Gives(s: State, m: Move, key: Key, r: nat) {
    && Enabled(s, m)
    && match m
       case CommitEffect(p, given) => s.procs[p].key == key && given == r
       case CommitResolve(p, accepted, given) => s.procs[p].key == key && accepted && given == r
       case Lookup(k, given) => k == key && given == r
       case _ => false
  }

  ghost predicate GivenAt(moves: seq<Move>, n: nat, key: Key, r: nat) {
    n < |moves| && Gives(Run(EMPTY, moves[..n]), moves[n], key, r)
  }

  ghost predicate GivenBefore(moves: seq<Move>, n: nat, key: Key, r: nat) {
    exists k :: 0 <= k < n && GivenAt(moves, k, key, r)
  }

  predicate AnswerIs(s: State, key: Key, r: nat) {
    key in s.rows && s.rows[key].Request? && s.rows[key].response == Some(r)
  }

  lemma RunSnoc(s: State, moves: seq<Move>, n: nat)
    requires n < |moves|
    ensures Run(s, moves[..n + 1]) == Take(Run(s, moves[..n]), moves[n])
  {
    assert moves[..n + 1] == moves[..n] + [moves[n]];
    RunConcat(s, moves[..n], [moves[n]]);
    assert [moves[n]][1..] == [];
    assert Run(Take(Run(s, moves[..n]), moves[n]), []) == Take(Run(s, moves[..n]), moves[n]);
  }

  lemma AnswerOfMove(s: State, m: Move, key: Key, r: nat)
    requires Inv(s) && AnswerIs(Take(s, m), key, r) && !AnswerIs(s, key, r)
    ensures Gives(s, m, key, r)
  {
  }

  ghost predicate AnswerExplained(moves: seq<Move>, n: nat, key: Key, r: nat)
    requires n <= |moves|
  {
    AnswerIs(Run(EMPTY, moves[..n]), key, r) ==> GivenBefore(moves, n, key, r)
  }

  lemma AnswerStep(moves: seq<Move>, n: nat, key: Key, r: nat)
    requires n < |moves| && AnswerExplained(moves, n, key, r)
    ensures AnswerExplained(moves, n + 1, key, r)
  {
    var s := Run(EMPTY, moves[..n]);
    RunSnoc(EMPTY, moves, n);
    RunKeeps(EMPTY, moves[..n]);
    if AnswerIs(Take(s, moves[n]), key, r) && !AnswerIs(s, key, r) {
      AnswerOfMove(s, moves[n], key, r);
      assert GivenAt(moves, n, key, r);
    }
  }

  lemma {:induction false} AnswerRun(moves: seq<Move>, n: nat, key: Key, r: nat)
    requires n <= |moves|
    ensures AnswerExplained(moves, n, key, r)
    decreases n
  {
    if n == 0 {
      assert moves[..0] == [];
    } else {
      AnswerRun(moves, n - 1, key, r);
      AnswerStep(moves, n - 1, key, r);
    }
  }

  lemma OneAnswerLogged(s: State, key: Key, r: nat, other: nat)
    requires Inv(s) && AnswerIs(s, key, r)
    ensures ResponseStored(key, other) in s.log <==> other == r
  {
    assert RowInv(s, key);
    if j :| 0 <= j < |s.log| && s.log[j] == ResponseStored(key, other) { assert NoteInv(s, j); }
  }

  /**
   Every stored response was given by the Data Plane: in any run, an observation that is answered r has a move behind it that brought r to its
   own id, and the log carries that response and no other.
   */
  lemma AnswersAreGiven(moves: seq<Move>, key: Key, r: nat, other: nat)
    requires AnswerIs(Run(EMPTY, moves), key, r)
    ensures GivenBefore(moves, |moves|, key, r)
    ensures ResponseStored(key, other) in Run(EMPTY, moves).log <==> other == r
  {
    assert moves[..|moves|] == moves;
    AnswerRun(moves, |moves|, key, r);
    RunKeeps(EMPTY, moves);
    OneAnswerLogged(Run(EMPTY, moves), key, r, other);
  }

  lemma ConcatExtends(before: seq<Move>, after: seq<Move>)
    ensures Extends(Run(EMPTY, before), Run(EMPTY, before + after))
  {
    RunKeeps(EMPTY, before);
    RunConcat(EMPTY, before, after);
    RunExtends(Run(EMPTY, before), after);
  }

  /** What a run has recorded after n moves is there at its end. */
  lemma PrefixExtends(moves: seq<Move>, n: nat)
    requires n <= |moves|
    ensures Extends(Run(EMPTY, moves[..n]), Run(EMPTY, moves))
  {
    ConcatExtends(moves[..n], moves[n..]);
    assert moves[..n] + moves[n..] == moves;
  }

  lemma GivesAnswer(s: State, m: Move, key: Key, r: nat)
    requires Inv(s) && Gives(s, m, key, r) && key in s.rows && s.rows[key].Request? && s.rows[key].response == None
    ensures AnswerIs(Take(s, m), key, r)
  {
    assert RowInv(s, key);
  }

  /** The first answer stays: what is given to an unanswered observation is what it answers at the end of every run. */
  lemma FirstAnswerStays(moves: seq<Move>, n: nat, key: Key, r: nat)
    requires GivenAt(moves, n, key, r)
    requires var s := Run(EMPTY, moves[..n]); key in s.rows && s.rows[key].Request? && s.rows[key].response == None
    ensures AnswerIs(Run(EMPTY, moves), key, r)
  {
    RunKeeps(EMPTY, moves[..n]);
    GivesAnswer(Run(EMPTY, moves[..n]), moves[n], key, r);
    RunSnoc(EMPTY, moves, n);
    PrefixExtends(moves, n + 1);
  }

  /**
   Replay: once a call was answered r, whatever happens afterwards, the stored response is r, so a later call of the same request is
   answered r from the store.
   */
  lemma ReplayAnswersSame(s: State, p: ProcId, key: Key, row: Row, now: int, r: nat, after: seq<Move>)
    requires Inv(s) && row.Request? && At(s, p, key, row, None, Recorded) && Free(s, key, row) && MayCall(s, key, row, now)
    ensures AnswerIs(Run(s, EffectMoves(p, now, Receipt(r)) + after), key, r)
    ensures !MayCall(Run(s, EffectMoves(p, now, Receipt(r)) + after), key, row, now)
  {
    var t := Run(s, EffectMoves(p, now, Receipt(r)));
    CallRuns(s, p, key, row, None, now, Some(r));
    RunKeeps(s, EffectMoves(p, now, Receipt(r)));
    RunConcat(s, EffectMoves(p, now, Receipt(r)), after);
    RunExtends(t, after);
  }

  /******* Where a closure's answer comes from *******/

  /** The move settles the closure with this state and answer: locally when nothing is recorded, or by the Data Plane's ruling on an open one. */
  ghost predicate Settles(s: State, m: Move, key: Key, state: ClosureState, r: nat) {
    && Enabled(s, m)
    && match m
       case CommitClose(p, local) => s.procs[p].key == key && key !in s.rows && key !in s.closures && state == NotStarted && local == r
       case CommitResolve(p, accepted, given) =>
         && s.procs[p].key == key && key in s.closures && s.closures[key].state == CloseRequested
         && state == (if accepted then Accepted else NotStarted) && given == r
       case _ => false
  }

  ghost predicate SettledAt(moves: seq<Move>, n: nat, key: Key, state: ClosureState, r: nat) {
    n < |moves| && Settles(Run(EMPTY, moves[..n]), moves[n], key, state, r)
  }

  ghost predicate SettledBefore(moves: seq<Move>, n: nat, key: Key, state: ClosureState, r: nat) {
    exists k :: 0 <= k < n && SettledAt(moves, k, key, state, r)
  }

  predicate ClosedWith(s: State, key: Key, state: ClosureState, r: nat) {
    key in s.closures && s.closures[key].state == state && s.closures[key].response == Some(r)
  }

  lemma SettledByMove(s: State, m: Move, key: Key, state: ClosureState, r: nat)
    requires ClosedWith(Take(s, m), key, state, r) && !ClosedWith(s, key, state, r)
    ensures Settles(s, m, key, state, r)
  {
  }

  ghost predicate SettlementExplained(moves: seq<Move>, n: nat, key: Key, state: ClosureState, r: nat)
    requires n <= |moves|
  {
    ClosedWith(Run(EMPTY, moves[..n]), key, state, r) ==> SettledBefore(moves, n, key, state, r)
  }

  lemma SettlementStep(moves: seq<Move>, n: nat, key: Key, state: ClosureState, r: nat)
    requires n < |moves| && SettlementExplained(moves, n, key, state, r)
    ensures SettlementExplained(moves, n + 1, key, state, r)
  {
    var s := Run(EMPTY, moves[..n]);
    RunSnoc(EMPTY, moves, n);
    if ClosedWith(Take(s, moves[n]), key, state, r) && !ClosedWith(s, key, state, r) {
      SettledByMove(s, moves[n], key, state, r);
      assert SettledAt(moves, n, key, state, r);
    }
  }

  lemma {:induction false} SettlementRun(moves: seq<Move>, n: nat, key: Key, state: ClosureState, r: nat)
    requires n <= |moves|
    ensures SettlementExplained(moves, n, key, state, r)
    decreases n
  {
    if n == 0 {
      assert moves[..0] == [];
    } else {
      SettlementRun(moves, n - 1, key, state, r);
      SettlementStep(moves, n - 1, key, state, r);
    }
  }

  /**
   Every closure that is answered was settled so by one move: locally as not started while nothing was recorded, or by a ruling of the Data Plane, whose
   acceptance is its state.
   */
  lemma SettlementsAreGiven(moves: seq<Move>, key: Key, state: ClosureState, r: nat)
    requires ClosedWith(Run(EMPTY, moves), key, state, r)
    ensures SettledBefore(moves, |moves|, key, state, r)
  {
    assert moves[..|moves|] == moves;
    SettlementRun(moves, |moves|, key, state, r);
  }

  lemma SettlesClosure(s: State, m: Move, key: Key, state: ClosureState, r: nat)
    requires Settles(s, m, key, state, r)
    ensures ClosedWith(Take(s, m), key, state, r)
  {
  }

  /** And a settlement stays. */
  lemma SettlementStays(moves: seq<Move>, n: nat, key: Key, state: ClosureState, r: nat)
    requires SettledAt(moves, n, key, state, r)
    ensures ClosedWith(Run(EMPTY, moves), key, state, r)
  {
    SettlesClosure(Run(EMPTY, moves[..n]), moves[n], key, state, r);
    RunSnoc(EMPTY, moves, n);
    PrefixExtends(moves, n + 1);
  }
}
