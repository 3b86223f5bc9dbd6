/**
 Selecting the Module rules of an Environment: a streaming pass over pages that keeps the
 highest specificity per resource kind, and a filter that keeps the rules of that specificity.
 */
module RuleSelection {
  import opened Base

  datatype Kind = Kind(type_: string, class_: string, id: Option<string>)

  datatype Rule = Rule(kind: Kind, definition: string, env: Option<string>, project: Option<string>, envType: Option<string>)

  datatype Error = NotFound | Conflict

  /******* Specificity *******/

  function Bit(o: Option<string>): nat {
    if o.Some? then 1 else 0
  }

  /** The bits as a binary number, first bit most significant. */
  function Value(bits: seq<Option<string>>): nat {
    if |bits| == 0 then 0 else 2 * Value(bits[..|bits| - 1]) + Bit(bits[|bits| - 1])
  }

  method CalculateSpecificity(bits: seq<Option<string>>) returns (n: nat)
    ensures n == Value(bits)
  {
    n := 0;
    for i := 0 to |bits|
      invariant n == Value(bits[..i])
    {
      assert bits[..i + 1][..i] == bits[..i];
      n := 2 * n;
      if bits[i].Some? { n := n + 1; }
    }
    assert bits[..|bits|] == bits;
  }

  function Specificity(r: Rule): nat {
    4 * Bit(r.env) + 2 * Bit(r.project) + Bit(r.envType)
  }

  /** The call the selector makes: Environment, Project, Environment type. */
  lemma SpecificityIs(r: Rule)
    ensures Value([r.env, r.project, r.envType]) == Specificity(r)
  {
    var bits := [r.env, r.project, r.envType];
    assert bits[..2] == [r.env, r.project] && bits[..2][..1] == [r.env] && [r.env][..0] == [];
    assert Value([r.env]) == Bit(r.env);
    assert Value([r.env, r.project]) == 2 * Bit(r.env) + Bit(r.project);
  }

  /** Environment decides, then Project, then Environment type. */
  predicate MoreSpecific(a: Rule, b: Rule) {
    if a.env.Some? != b.env.Some? then a.env.Some?
    else if a.project.Some? != b.project.Some? then a.project.Some?
    else a.envType.Some? && b.envType.None?
  }

  lemma SpecificityIsLexicographic(a: Rule, b: Rule)
    ensures Value([a.env, a.project, a.envType]) > Value([b.env, b.project, b.envType]) <==> MoreSpecific(a, b)
    ensures Specificity(a) > Specificity(b) <==> MoreSpecific(a, b)
  {
    SpecificityIs(a);
    SpecificityIs(b);
  }

  /******* Archived Modules *******/

  /** strings.Cut at the first "@": None where there is none. */
  function Cut(s: string): Option<(string, string)> {
    if |s| == 0 then None
    else if s[0] == '@' then Some(("", s[1..]))
    else
      var rest := Cut(s[1..]);
      if rest.None? then None else Some(([s[0]] + rest.value.0, rest.value.1))
  }

  /** The version that a coordinate carries for a Module, if it does. */
  predicate Carries(coordinate: string, id: string, version: string) {
    Cut(coordinate) == Some((id, version)) && version != ""
  }

  ghost predicate Effective(active: set<string>, id: string, version: string) {
    exists c :: c in active && Carries(c, id, version)
  }

  /** The outcome, whatever the order in which the coordinates are visited. */
  ghost predicate CarryForward(active: set<string>, id: string, r: Result<string, Error>) {
    match r
    case Err(e) => e == Conflict && exists v, w :: v != w && Effective(active, id, v) && Effective(active, id, w)
    case Ok(version) => forall v :: v != "" ==> (Effective(active, id, v) <==> v == version)
  }

  /** Exactly one outcome fits. */
  lemma CarryForwardUnique(active: set<string>, id: string, a: Result<string, Error>, b: Result<string, Error>)
    requires CarryForward(active, id, a) && CarryForward(active, id, b)
    ensures a == b
  {
    forall v | Effective(active, id, v) ensures v != "" { }
    if a.Ok? && b.Ok? {
      assert a.value != "" ==> Effective(active, id, a.value);
      assert b.value != "" ==> Effective(active, id, b.value);
    }
  }

  method ArchivedCarryForward(id: string, active: set<string>) returns (r: Result<string, Error>)
    ensures CarryForward(active, id, r)
  {
    var version := "";
    var rest := active;
    while rest != {}
      invariant rest <= active
      invariant forall v :: v != "" ==> (Effective(active - rest, id, v) <==> v == version)
      decreases |rest|
    {
      var coordinate :| coordinate in rest;
      ghost var before := active - rest;
      rest := rest - {coordinate};
      assert active - rest == before + {coordinate};
      var cut := Cut(coordinate);
      ghost var was := version;
      if cut.Some? && cut.value.0 == id && cut.value.1 != "" {
        var candidate := cut.value.1;
        assert Carries(coordinate, id, candidate) && Effective(active, id, candidate);
        if version != "" && version != candidate {
          Widen(before, active, id, version);
          return Err(Conflict);
        }
        version := candidate;
      }
      forall v | v != "" ensures Effective(active - rest, id, v) <==> v == version {
        EffectiveStep(before, coordinate, id, v);
      }
    }
    assert active - rest == active;
    return Ok(version);
  }

  lemma Widen(some_: set<string>, all: set<string>, id: string, v: string)
    requires some_ <= all && Effective(some_, id, v)
    ensures Effective(all, id, v)
  {
    var c :| c in some_ && Carries(c, id, v);
    assert c in all;
  }

  lemma EffectiveStep(before: set<string>, coordinate: string, id: string, v: string)
    ensures Effective(before + {coordinate}, id, v) <==> Effective(before, id, v) || Carries(coordinate, id, v)
  {
    if Carries(coordinate, id, v) { assert coordinate in before + {coordinate}; }
    if Effective(before, id, v) { Widen(before, before + {coordinate}, id, v); }
  }

  /** What carry-forward gives, as a function. */
  ghost function CarriedVersion(active: set<string>, id: string): (r: Result<string, Error>)
    ensures CarryForward(active, id, r)
  {
    if v, w :| v != w && Effective(active, id, v) && Effective(active, id, w) then Err(Conflict)
    else if v :| Effective(active, id, v) then Ok(v)
    else Ok("")
  }

  /******* Which rules count *******/

  // What the pass reads: whether each existing Module is archived, and the effective coordinates.
  datatype Context = Context(archived: map<string, bool>, active: set<string>)

  ghost predicate Failing(c: Context, r: Rule) {
    r.definition !in c.archived || (c.archived[r.definition] && CarriedVersion(c.active, r.definition).Err?)
  }

  /** An archived Module takes part only with the one version it carries forward. */
  ghost predicate Eligible(c: Context, r: Rule) {
    !Failing(c, r) && (c.archived[r.definition] ==> CarriedVersion(c.active, r.definition).value != "")
  }

  ghost function EligibleOf(c: Context, rules: seq<Rule>): seq<Rule> {
    if |rules| == 0 then []
    else
      var before := EligibleOf(c, rules[..|rules| - 1]);
      if Eligible(c, rules[|rules| - 1]) then before + [rules[|rules| - 1]] else before
  }

  function Concat(pages: seq<seq<Rule>>): seq<Rule> {
    if |pages| == 0 then [] else Concat(pages[..|pages| - 1]) + pages[|pages| - 1]
  }

  /******* The choice, without streaming *******/

  /** Rule i is the earliest of the greatest specificity of its kind. */
  predicate Best(rules: seq<Rule>, i: nat)
    requires i < |rules|
  {
    forall j :: 0 <= j < |rules| && rules[j].kind == rules[i].kind ==>
      Specificity(rules[j]) < Specificity(rules[i]) || (Specificity(rules[j]) == Specificity(rules[i]) && i <= j)
  }

  /** The best rules among the first n, in order. */
  function Winners(rules: seq<Rule>, n: nat): seq<Rule>
    requires n <= |rules|
  {
    if n == 0 then []
    else if Best(rules, n - 1) then Winners(rules, n - 1) + [rules[n - 1]] else Winners(rules, n - 1)
  }

  function Definitions(rules: seq<Rule>): set<string> {
    set r | r in rules :: r.definition
  }

  lemma {:induction false} WinnersAre(rules: seq<Rule>, n: nat)
    requires n <= |rules|
    ensures forall r :: r in Winners(rules, n) <==> exists i :: 0 <= i < n && Best(rules, i) && rules[i] == r
    ensures forall a, b :: 0 <= a < b < |Winners(rules, n)| ==> Winners(rules, n)[a].kind != Winners(rules, n)[b].kind
  {
    if n > 0 {
      WinnersAre(rules, n - 1);
      var w := Winners(rules, n - 1);
      if Best(rules, n - 1) {
        forall a | 0 <= a < |w| ensures w[a].kind != rules[n - 1].kind {
          assert w[a] in w;
          var i :| 0 <= i < n - 1 && Best(rules, i) && rules[i] == w[a];
        }
        assert forall r :: r in w + [rules[n - 1]] <==> r in w || r == rules[n - 1];
      }
    }
  }

  lemma {:induction false} SomeBest(rules: seq<Rule>, kind: Kind, n: nat)
    requires n <= |rules| && exists i :: 0 <= i < n && rules[i].kind == kind
    ensures exists i :: 0 <= i < n && rules[i].kind == kind && Best(rules[..n], i)
  {
    var before := rules[..n - 1];
    if k :| 0 <= k < n - 1 && rules[k].kind == kind {
      SomeBest(rules, kind, n - 1);
      var i :| 0 <= i < n - 1 && rules[i].kind == kind && Best(before, i);
      var better := rules[n - 1].kind == kind && Specificity(rules[n - 1]) > Specificity(rules[i]);
      var winner := if better then n - 1 else i;
      forall j | 0 <= j < n && rules[j].kind == kind
        ensures Specificity(rules[j]) < Specificity(rules[winner]) || (Specificity(rules[j]) == Specificity(rules[winner]) && winner <= j)
      {
        if j < n - 1 { assert before[j] == rules[j]; }
      }
      assert Best(rules[..n], winner);
    } else {
      assert Best(rules[..n], n - 1);
    }
  }

  /**
   Exactly one rule is chosen for each resource kind that has an eligible rule, and no other: it is
   the earliest of those that no rule of its kind exceeds in Environment, Project and Environment type.
   */
  lemma OnePerKind(rules: seq<Rule>, kind: Kind)
    ensures (exists r :: r in rules && r.kind == kind) <==> (exists r :: r in Winners(rules, |rules|) && r.kind == kind)
    ensures forall r, other :: r in Winners(rules, |rules|) && other in rules && other.kind == r.kind ==> !MoreSpecific(other, r)
    ensures forall a, b :: 0 <= a < b < |Winners(rules, |rules|)| ==> Winners(rules, |rules|)[a].kind != Winners(rules, |rules|)[b].kind
  {
    WinnersAre(rules, |rules|);
    if x :| x in rules && x.kind == kind {
      var k :| 0 <= k < |rules| && rules[k] == x;
      SomeBest(rules, kind, |rules|);
      assert rules[..|rules|] == rules;
      var i :| 0 <= i < |rules| && rules[i].kind == kind && Best(rules, i);
      assert rules[i] in Winners(rules, |rules|);
    }
    forall r, other | r in Winners(rules, |rules|) && other in rules && other.kind == r.kind ensures !MoreSpecific(other, r) {
      SpecificityIsLexicographic(other, r);
      var i :| 0 <= i < |rules| && Best(rules, i) && rules[i] == r;
      var j :| 0 <= j < |rules| && rules[j] == other;
    }
  }

  /******* The streaming pass *******/

  /** No earlier rule of its kind is as specific. */
  predicate Record(rules: seq<Rule>, i: nat)
    requires i < |rules|
  {
    forall j :: 0 <= j < i && rules[j].kind == rules[i].kind ==> Specificity(rules[j]) < Specificity(rules[i])
  }

  function Records(rules: seq<Rule>): seq<Rule> {
    if |rules| == 0 then []
    else
      var before := Records(rules[..|rules| - 1]);
      if Record(rules, |rules| - 1) then before + [rules[|rules| - 1]] else before
  }

  /** The map holds the greatest specificity of every kind seen. */
  ghost predicate MaxIs(max: map<Kind, nat>, rules: seq<Rule>) {
    && (forall i :: 0 <= i < |rules| ==> rules[i].kind in max && Specificity(rules[i]) <= max[rules[i].kind])
    && (forall k :: k in max ==> Reached(rules, k, max[k]))
  }

  ghost predicate Reached(rules: seq<Rule>, k: Kind, specificity: nat) {
    exists i :: 0 <= i < |rules| && rules[i].kind == k && Specificity(rules[i]) == specificity
  }

  function Filter(rules: seq<Rule>, max: map<Kind, nat>): seq<Rule> {
    if |rules| == 0 then []
    else
      var last := rules[|rules| - 1];
      var before := Filter(rules[..|rules| - 1], max);
      if last.kind in max && Specificity(last) == max[last.kind] then before + [last] else before
  }

  lemma BestIsRecordAtMax(rules: seq<Rule>, max: map<Kind, nat>, i: nat)
    requires MaxIs(max, rules) && i < |rules|
    ensures Best(rules, i) <==> Record(rules, i) && Specificity(rules[i]) == max[rules[i].kind]
  {
    assert Reached(rules, rules[i].kind, max[rules[i].kind]);
    var k :| 0 <= k < |rules| && rules[k].kind == rules[i].kind && Specificity(rules[k]) == max[rules[i].kind];
  }

  lemma FilterSnoc(rules: seq<Rule>, r: Rule, max: map<Kind, nat>)
    ensures Filter(rules + [r], max) == Filter(rules, max) + if r.kind in max && Specificity(r) == max[r.kind] then [r] else []
  {
    assert (rules + [r])[..|rules|] == rules;
  }

  lemma RecordsSnoc(rules: seq<Rule>, n: nat)
    requires n < |rules|
    ensures Records(rules[..n + 1]) == Records(rules[..n]) + if Record(rules, n) then [rules[n]] else []
  {
    var more := rules[..n + 1];
    assert more[..n] == rules[..n] && more[n] == rules[n];
    assert Record(more, n) <==> Record(rules, n) by {
      assert forall j :: 0 <= j < n ==> more[j] == rules[j];
    }
  }

  /** What the filter keeps of the records among the first n rules. */
  function KeptOf(rules: seq<Rule>, max: map<Kind, nat>, n: nat): seq<Rule>
    requires n <= |rules|
  {
    Filter(Records(rules[..n]), max)
  }

  lemma KeptStep(rules: seq<Rule>, max: map<Kind, nat>, n: nat)
    requires MaxIs(max, rules) && n < |rules|
    ensures KeptOf(rules, max, n + 1) == KeptOf(rules, max, n) + if Best(rules, n) then [rules[n]] else []
  {
    RecordsSnoc(rules, n);
    BestIsRecordAtMax(rules, max, n);
    FilterSnoc(Records(rules[..n]), rules[n], max);
    assert Records(rules[..n]) + [] == Records(rules[..n]);
  }

  /** Filtering the records of the stream by the final maximum leaves the best rules. */
  lemma FilteredRecordsWin(rules: seq<Rule>, max: map<Kind, nat>, n: nat)
    requires MaxIs(max, rules) && n <= |rules|
    ensures KeptOf(rules, max, n) == Winners(rules, n)
  {
    forall k | 0 <= k < n ensures KeepsBest(rules, max, k) { KeptStep(rules, max, k); }
    KeepsAll(rules, max, n);
  }

  predicate KeepsBest(rules: seq<Rule>, max: map<Kind, nat>, k: nat)
    requires k < |rules|
  {
    KeptOf(rules, max, k + 1) == KeptOf(rules, max, k) + if Best(rules, k) then [rules[k]] else []
  }

  lemma {:induction false} KeepsAll(rules: seq<Rule>, max: map<Kind, nat>, n: nat)
    requires n <= |rules| && forall k :: 0 <= k < n ==> KeepsBest(rules, max, k)
    ensures KeptOf(rules, max, n) == Winners(rules, n)
  {
    if n > 0 {
      KeepsAll(rules, max, n - 1);
      assert KeepsBest(rules, max, n - 1);
      WinnersStep(rules, n - 1);
    } else {
      assert rules[..0] == [];
    }
  }

  lemma WinnersStep(rules: seq<Rule>, n: nat)
    requires n < |rules|
    ensures Winners(rules, n + 1) == Winners(rules, n) + if Best(rules, n) then [rules[n]] else []
  {
  }

  function Raised(max: map<Kind, nat>, r: Rule): map<Kind, nat> {
    if r.kind !in max || Specificity(r) > max[r.kind] then max[r.kind := Specificity(r)] else max
  }

  lemma RecordByMax(rules: seq<Rule>, r: Rule, max: map<Kind, nat>)
    requires MaxIs(max, rules)
    ensures Record(rules + [r], |rules|) <==> r.kind !in max || Specificity(r) > max[r.kind]
  {
    var more := rules + [r];
    assert forall j :: 0 <= j < |rules| ==> more[j] == rules[j];
    if r.kind in max {
      assert Reached(rules, r.kind, max[r.kind]);
      var i :| 0 <= i < |rules| && rules[i].kind == r.kind && Specificity(rules[i]) == max[r.kind];
      assert more[i].kind == r.kind;
    }
  }

  lemma MaxStep(rules: seq<Rule>, r: Rule, max: map<Kind, nat>)
    requires MaxIs(max, rules)
    ensures MaxIs(Raised(max, r), rules + [r])
  {
    var more, later := rules + [r], Raised(max, r);
    forall k | k in later ensures Reached(more, k, later[k]) {
      if k == r.kind && (k !in max || Specificity(r) > max[k]) {
        assert more[|rules|].kind == k;
      } else {
        assert Reached(rules, k, max[k]);
        var i :| 0 <= i < |rules| && rules[i].kind == k && Specificity(rules[i]) == max[k];
        assert more[i] == rules[i];
      }
    }
  }

  lemma RecordsStep(rules: seq<Rule>, r: Rule, max: map<Kind, nat>)
    requires MaxIs(max, rules)
    ensures Records(rules + [r]) == Records(rules) + if r.kind !in max || Specificity(r) > max[r.kind] then [r] else []
  {
    var more := rules + [r];
    RecordByMax(rules, r, max);
    RecordsSnoc(more, |rules|);
    assert more[..|rules|] == rules && more[..|rules| + 1] == more;
  }

  method SelectMaximal(rules: seq<Rule>, max: map<Kind, nat>) returns (chosen: seq<Rule>, definitions: set<string>)
    ensures chosen == Filter(rules, max) && definitions == Definitions(chosen)
  {
    chosen, definitions := [], {};
    for i := 0 to |rules|
      invariant chosen == Filter(rules[..i], max) && definitions == Definitions(chosen)
    {
      assert rules[..i + 1][..i] == rules[..i];
      var rule := rules[i];
      if rule.kind in max && Specificity(rule) == max[rule.kind] {
        definitions := definitions + {rule.definition};
        chosen := chosen + [rule];
      }
    }
    assert rules[..|rules|] == rules;
  }

  datatype Selection = Selection(rules: seq<Rule>, definitions: set<string>, carried: map<string, string>)

  /** The archived Modules of these rules with the version they carry forward. */
  ghost predicate CarriedIs(carried: map<string, string>, c: Context, eligible: seq<Rule>) {
    forall d :: d in carried <==> ArchivedIn(c, eligible, d)
  }

  ghost predicate ArchivedIn(c: Context, eligible: seq<Rule>, d: string) {
    d in c.archived && c.archived[d] && exists r :: r in eligible && r.definition == d
  }

  ghost predicate CarriedRight(carried: map<string, string>, c: Context) {
    forall d :: d in carried ==> CarriedVersion(c.active, d) == Ok(carried[d])
  }

  lemma EligibleSnoc(c: Context, rules: seq<Rule>, r: Rule)
    ensures EligibleOf(c, rules + [r]) == EligibleOf(c, rules) + if Eligible(c, r) then [r] else []
  {
    assert (rules + [r])[..|rules|] == rules;
  }

  lemma ArchivedStep(c: Context, eligible: seq<Rule>, r: Rule, d: string)
    requires r.definition in c.archived
    ensures ArchivedIn(c, eligible + [r], d) <==> ArchivedIn(c, eligible, d) || (d == r.definition && c.archived[d])
  {
    assert r in eligible + [r];
    if ArchivedIn(c, eligible, d) {
      var x :| x in eligible && x.definition == d;
      assert x in eligible + [r];
    }
    if ArchivedIn(c, eligible + [r], d) {
      var x :| x in eligible + [r] && x.definition == d;
    }
  }

  // What one rule of the stream does.
  datatype Verdict = Fail(error: Error) | Skip | Take(version: Option<string>)

  method Judge(c: Context, r: Rule) returns (v: Verdict)
    ensures v.Fail? <==> Failing(c, r)
    ensures v.Fail? ==> v.error == if r.definition !in c.archived then NotFound else Conflict
    ensures v.Take? <==> Eligible(c, r)
    ensures v.Take? ==> v.version.Some? == c.archived[r.definition] && (v.version.Some? ==> CarriedVersion(c.active, r.definition) == Ok(v.version.value))
  {
    if r.definition !in c.archived { return Fail(NotFound); }
    if !c.archived[r.definition] { return Take(None); }
    var version := ArchivedCarryForward(r.definition, c.active);
    CarryForwardUnique(c.active, r.definition, version, CarriedVersion(c.active, r.definition));
    if version.Err? { return Fail(version.error); }
    if version.value == "" { return Skip; }
    return Take(Some(version.value));
  }

  // What the pass holds: the rules appended, the greatest specificities, the archived versions.
  datatype Pass = Pass(all: seq<Rule>, max: map<Kind, nat>, carried: map<string, string>)

  /** What the pass has gathered from the rules read so far. */
  ghost predicate Gathered(c: Context, stream: seq<Rule>, p: Pass) {
    (forall r :: r in stream ==> !Failing(c, r)) && GatheredFrom(c, EligibleOf(c, stream), p)
  }

  ghost predicate GatheredFrom(c: Context, eligible: seq<Rule>, p: Pass) {
    p.all == Records(eligible) && MaxIs(p.max, eligible) && CarriedIs(p.carried, c, eligible) && CarriedRight(p.carried, c)
  }

  function Taken(p: Pass, r: Rule, version: Option<string>): Pass {
    Pass(p.all + (if r.kind !in p.max || Specificity(r) > p.max[r.kind] then [r] else []), Raised(p.max, r),
         if version.Some? then p.carried[r.definition := version.value] else p.carried)
  }

  lemma CarriedStep(c: Context, eligible: seq<Rule>, p: Pass, r: Rule, version: Option<string>)
    requires CarriedIs(p.carried, c, eligible) && CarriedRight(p.carried, c) && r.definition in c.archived
    requires version.Some? == c.archived[r.definition] && (version.Some? ==> CarriedVersion(c.active, r.definition) == Ok(version.value))
    ensures CarriedIs(Taken(p, r, version).carried, c, eligible + [r]) && CarriedRight(Taken(p, r, version).carried, c)
  {
    var more := Taken(p, r, version).carried;
    forall d ensures d in more <==> ArchivedIn(c, eligible + [r], d) { ArchivedStep(c, eligible, r, d); }
  }

  lemma TakenGathers(c: Context, eligible: seq<Rule>, p: Pass, r: Rule, version: Option<string>)
    requires GatheredFrom(c, eligible, p) && r.definition in c.archived
    requires version.Some? == c.archived[r.definition] && (version.Some? ==> CarriedVersion(c.active, r.definition) == Ok(version.value))
    ensures GatheredFrom(c, eligible + [r], Taken(p, r, version))
  {
    RecordsStep(eligible, r, p.max);
    MaxStep(eligible, r, p.max);
    CarriedStep(c, eligible, p, r, version);
  }

  lemma TakenRule(c: Context, stream: seq<Rule>, p: Pass, r: Rule, version: Option<string>)
    requires Gathered(c, stream, p) && Eligible(c, r)
    requires version.Some? == c.archived[r.definition] && (version.Some? ==> CarriedVersion(c.active, r.definition) == Ok(version.value))
    ensures Gathered(c, stream + [r], Taken(p, r, version))
  {
    EligibleSnoc(c, stream, r);
    TakenGathers(c, EligibleOf(c, stream), p, r, version);
  }

  lemma SkippedRule(c: Context, stream: seq<Rule>, p: Pass, r: Rule)
    requires Gathered(c, stream, p) && !Eligible(c, r) && !Failing(c, r)
    ensures Gathered(c, stream + [r], p)
  {
    EligibleSnoc(c, stream, r);
    assert EligibleOf(c, stream) + [] == EligibleOf(c, stream);
  }

  method TakeRule(p: Pass, r: Rule, version: Option<string>) returns (q: Pass)
    ensures q == Taken(p, r, version)
  {
    q := p;
    if version.Some? { q := q.(carried := q.carried[r.definition := version.value]); }
    var specificity := CalculateSpecificity([r.env, r.project, r.envType]);
    SpecificityIs(r);
    if r.kind !in q.max || specificity > q.max[r.kind] {
      q := q.(max := q.max[r.kind := specificity], all := q.all + [r]);
    }
  }

  /** The n-th rule is the first that fails, with this error: its Module is missing, or archived with several effective versions. */
  ghost predicate FailsFirst(c: Context, stream: seq<Rule>, n: int, error: Error) {
    && 0 <= n < |stream| && Failing(c, stream[n]) && (forall m :: 0 <= m < n ==> !Failing(c, stream[m]))
    && error == if stream[n].definition !in c.archived then NotFound else Conflict
  }

  lemma FailsNext(c: Context, before: seq<Rule>, rest: seq<Rule>, error: Error)
    requires (forall r :: r in before ==> !Failing(c, r)) && |rest| > 0 && Failing(c, rest[0])
    requires error == if rest[0].definition !in c.archived then NotFound else Conflict
    ensures FailsFirst(c, before + rest, |before|, error)
  {
  }

  method ScanPage(c: Context, page: seq<Rule>, start: Pass, ghost stream: seq<Rule>) returns (r: Result<Pass, Error>)
    requires Gathered(c, stream, start)
    ensures r.Ok? ==> Gathered(c, stream + page, r.value)
    ensures r.Err? ==> exists n :: FailsFirst(c, stream + page, n, r.error)
  {
    var p := start;
    assert stream + page[..0] == stream;
    for i := 0 to |page|
      invariant Gathered(c, stream + page[..i], p)
    {
      var rule := page[i];
      ghost var before := stream + page[..i];
      assert stream + page[..i + 1] == before + [rule];
      var verdict := Judge(c, rule);
      match verdict
      case Fail(error) =>
        FailsNext(c, before, page[i..], error);
        assert before + page[i..] == stream + page;
        return Err(error);
      case Skip => SkippedRule(c, before, p, rule);
      case Take(version) =>
        TakenRule(c, before, p, rule, version);
        p := TakeRule(p, rule, version);
    }
    assert page[..|page|] == page;
    return Ok(p);
  }

  /**
   For any page boundaries the result is exactly the best eligible rules in stream order with the set of
   their definitions, and the pass fails exactly if a rule names a missing Module or an
   archived one with several effective versions.
   */
  method SelectRules(c: Context, pages: seq<seq<Rule>>) returns (r: Result<Selection, Error>)
    ensures r.Err? <==> exists x :: x in Concat(pages) && Failing(c, x)
    ensures r.Err? ==> exists n :: FailsFirst(c, Concat(pages), n, r.error)
    ensures r.Ok? ==> var eligible := EligibleOf(c, Concat(pages));
                      && r.value.rules == Winners(eligible, |eligible|)
                      && r.value.definitions == Definitions(r.value.rules)
                      && CarriedIs(r.value.carried, c, eligible) && CarriedRight(r.value.carried, c)
  {
    var pass := Pass([], map[], map[]);
    for page := 0 to |pages|
      invariant Gathered(c, Concat(pages[..page]), pass)
    {
      assert pages[..page + 1][..page] == pages[..page];
      var scanned := ScanPage(c, pages[page], pass, Concat(pages[..page]));
      if scanned.Err? {
        ghost var n :| FailsFirst(c, Concat(pages[..page]) + pages[page], n, scanned.error);
        assert pages == pages[..page] + [pages[page]] + pages[page + 1..];
        FailsInStream(c, pages, pages[..page], pages[page], pages[page + 1..], n, scanned.error);
        return Err(scanned.error);
      }
      pass := scanned.value;
    }
    assert pages[..|pages|] == pages;
    var chosen, definitions := SelectMaximal(pass.all, pass.max);
    ghost var eligible := EligibleOf(c, Concat(pages));
    FilteredRecordsWin(eligible, pass.max, |eligible|);
    assert eligible[..|eligible|] == eligible;
    return Ok(Selection(chosen, definitions, pass.carried));
  }

  lemma PagesSplit(pages: seq<seq<Rule>>, before: seq<seq<Rule>>, page: seq<Rule>, after: seq<seq<Rule>>)
    requires pages == before + [page] + after
    ensures Concat(pages) == Concat(before) + page + Concat(after)
  {
    PagesAreStream(before, page, after);
  }

  lemma FailsInStream(c: Context, pages: seq<seq<Rule>>, before: seq<seq<Rule>>, page: seq<Rule>, after: seq<seq<Rule>>, n: int, error: Error)
    requires pages == before + [page] + after && FailsFirst(c, Concat(before) + page, n, error)
    ensures FailsFirst(c, Concat(pages), n, error)
  {
    PagesSplit(pages, before, page, after);
    FailsInLonger(c, Concat(before) + page, Concat(after), n, error);
  }

  lemma FailsInLonger(c: Context, stream: seq<Rule>, more: seq<Rule>, n: int, error: Error)
    requires FailsFirst(c, stream, n, error)
    ensures FailsFirst(c, stream + more, n, error)
  {
  }

  /******* The same on the stream itself *******/

  /** A coordinate is cut at its first "@". */
  lemma {:induction false} CutExactly(s: string, id: string, version: string)
    ensures Cut(s) == Some((id, version)) <==> '@' !in id && s == id + "@" + version
  {
    if |s| == 0 || s[0] == '@' {
      if s == id + "@" + version && |id| > 0 { assert s[0] == id[0]; }
      if |s| > 0 { assert s == "" + "@" + s[1..]; }
    } else {
      if |id| > 0 { CutExactly(s[1..], id[1..], version); }
      assert |id| == 0 ==> Cut(s) != Some((id, version)) && s != id + "@" + version;
      if |id| > 0 { CutStep(s, id, version); }
    }
  }

  lemma CutStep(s: string, id: string, version: string)
    requires |s| > 0 && s[0] != '@' && |id| > 0
    ensures Cut(s) == Some((id, version)) <==> s[0] == id[0] && Cut(s[1..]) == Some((id[1..], version))
    ensures s == id + "@" + version <==> s[0] == id[0] && s[1..] == id[1..] + "@" + version
  {
    assert id == [id[0]] + id[1..];
    assert (id + "@" + version)[1..] == id[1..] + "@" + version;
    assert s == [s[0]] + s[1..];
  }

  /** A version is effective exactly if the coordinate that joins it to the Module is active. */
  lemma EffectiveExactly(active: set<string>, id: string, version: string)
    ensures Effective(active, id, version) <==> version != "" && '@' !in id && id + "@" + version in active
  {
    CutExactly(id + "@" + version, id, version);
    forall c | c in active ensures Carries(c, id, version) <==> version != "" && '@' !in id && c == id + "@" + version {
      CutExactly(c, id, version);
    }
  }

  /** Two different versions of the Module are active. */
  ghost predicate Ambiguous(active: set<string>, id: string) {
    exists v, w :: v != w && EffectiveIn(active, id, v) && EffectiveIn(active, id, w)
  }

  predicate EffectiveIn(active: set<string>, id: string, version: string) {
    version != "" && '@' !in id && id + "@" + version in active
  }

  lemma CarriedExactly(active: set<string>, id: string)
    ensures CarriedVersion(active, id).Err? <==> Ambiguous(active, id)
    ensures CarriedVersion(active, id).Ok? ==>
              forall v :: EffectiveIn(active, id, v) <==> v != "" && v == CarriedVersion(active, id).value
  {
    forall v ensures Effective(active, id, v) <==> EffectiveIn(active, id, v) { EffectiveExactly(active, id, v); }
  }

  /** A rule takes part exactly if its Module exists and is not archived, or is archived with one effective version. */
  lemma EligibleExactly(c: Context, r: Rule)
    ensures Failing(c, r) <==> r.definition !in c.archived || (c.archived[r.definition] && Ambiguous(c.active, r.definition))
    ensures Eligible(c, r) <==>
            && r.definition in c.archived
            && (c.archived[r.definition] ==> !Ambiguous(c.active, r.definition) && exists v :: EffectiveIn(c.active, r.definition, v))
  {
    CarriedExactly(c.active, r.definition);
    var carried := CarriedVersion(c.active, r.definition);
    if carried.Ok? { assert EffectiveIn(c.active, r.definition, carried.value) <==> carried.value != ""; }
  }

  lemma {:induction false} ConcatAppend(a: seq<seq<Rule>>, b: seq<seq<Rule>>)
    ensures Concat(a + b) == Concat(a) + Concat(b)
    decreases |b|
  {
    if |b| == 0 {
      assert a + b == a;
    } else {
      var n := |b| - 1;
      assert (a + b)[..|a + b| - 1] == a + b[..n];
      ConcatAppend(a, b[..n]);
    }
  }

  /** Pages only cut the stream: one page is itself, and pages follow one another. */
  lemma PagesAreStream(a: seq<seq<Rule>>, page: seq<Rule>, b: seq<seq<Rule>>)
    ensures Concat([page]) == page && Concat(a + [page] + b) == Concat(a) + page + Concat(b)
  {
    assert [page][..0] == [];
    ConcatAppend(a, [page]);
    ConcatAppend(a + [page], b);
  }

  /** Where the n-th rule of the stream stands among the eligible ones. */
  ghost function Rank(c: Context, rules: seq<Rule>, n: nat): nat
    requires n <= |rules|
  {
    |EligibleOf(c, rules[..n])|
  }

  lemma {:induction false} RankAt(c: Context, rules: seq<Rule>, n: nat, m: nat)
    requires n < m <= |rules| && Eligible(c, rules[n])
    ensures Rank(c, rules, n) < Rank(c, rules, m) && EligibleOf(c, rules[..m])[Rank(c, rules, n)] == rules[n]
    decreases m
  {
    var before := rules[..m - 1];
    assert rules[..m] == before + [rules[m - 1]];
    EligibleSnoc(c, before, rules[m - 1]);
    if n < m - 1 { RankAt(c, rules, n, m - 1); }
  }

  lemma {:induction false} RankOf(c: Context, rules: seq<Rule>, m: nat, k: nat) returns (n: nat)
    requires m <= |rules| && k < Rank(c, rules, m)
    ensures n < m && Eligible(c, rules[n]) && Rank(c, rules, n) == k
    decreases m
  {
    var before := rules[..m - 1];
    assert rules[..m] == before + [rules[m - 1]];
    EligibleSnoc(c, before, rules[m - 1]);
    if k < Rank(c, rules, m - 1) { n := RankOf(c, rules, m - 1, k); } else { n := m - 1; }
  }

  /** The n-th rule of the stream is eligible, no eligible rule of its kind is more specific, and none before it is as specific. */
  ghost predicate Selected(c: Context, stream: seq<Rule>, n: nat) {
    && n < |stream| && Eligible(c, stream[n])
    && forall m :: 0 <= m < |stream| && Eligible(c, stream[m]) && stream[m].kind == stream[n].kind ==>
                     !MoreSpecific(stream[m], stream[n]) && (m < n ==> MoreSpecific(stream[n], stream[m]))
  }

  lemma SelectedIsBest(c: Context, stream: seq<Rule>, n: nat)
    requires n < |stream| && Eligible(c, stream[n])
    ensures var eligible := EligibleOf(c, stream);
            && Rank(c, stream, n) < |eligible| && eligible[Rank(c, stream, n)] == stream[n]
            && (Best(eligible, Rank(c, stream, n)) <==> Selected(c, stream, n))
  {
    var eligible := EligibleOf(c, stream);
    assert stream[..|stream|] == stream;
    RankAt(c, stream, n, |stream|);
    if Best(eligible, Rank(c, stream, n)) {
      forall m | 0 <= m < |stream| && Eligible(c, stream[m]) && stream[m].kind == stream[n].kind
        ensures !MoreSpecific(stream[m], stream[n]) && (m < n ==> MoreSpecific(stream[n], stream[m]))
      {
        RankAt(c, stream, m, |stream|);
        if m < n { RankAt(c, stream, m, n); }
        SpecificityIsLexicographic(stream[m], stream[n]);
        SpecificityIsLexicographic(stream[n], stream[m]);
      }
    }
    if Selected(c, stream, n) {
      forall k | 0 <= k < |eligible| && eligible[k].kind == stream[n].kind
        ensures Specificity(eligible[k]) < Specificity(stream[n]) || (Specificity(eligible[k]) == Specificity(stream[n]) && Rank(c, stream, n) <= k)
      {
        var m := RankOf(c, stream, |stream|, k);
        RankAt(c, stream, m, |stream|);
        if n < m { RankAt(c, stream, n, m); }
        SpecificityIsLexicographic(stream[m], stream[n]);
        SpecificityIsLexicographic(stream[n], stream[m]);
      }
    }
  }

  /** The rules that SelectRules returns are exactly the selected rules of the stream. */
  lemma SelectedExactly(c: Context, stream: seq<Rule>, r: Rule)
    ensures r in Winners(EligibleOf(c, stream), |EligibleOf(c, stream)|) <==>
            exists n :: 0 <= n < |stream| && Selected(c, stream, n) && stream[n] == r
  {
    var eligible := EligibleOf(c, stream);
    WinnersAre(eligible, |eligible|);
    if r in Winners(eligible, |eligible|) {
      var k :| 0 <= k < |eligible| && Best(eligible, k) && eligible[k] == r;
      var n := SelectedAt(c, stream, k);
    }
    if n :| 0 <= n < |stream| && Selected(c, stream, n) && stream[n] == r { SelectedIsBest(c, stream, n); }
  }

  lemma SelectedAt(c: Context, stream: seq<Rule>, k: nat) returns (n: nat)
    requires k < |EligibleOf(c, stream)| && Best(EligibleOf(c, stream), k)
    ensures n < |stream| && Selected(c, stream, n) && stream[n] == EligibleOf(c, stream)[k]
  {
    assert stream[..|stream|] == stream;
    n := RankOf(c, stream, |stream|, k);
    SelectedIsBest(c, stream, n);
  }
}
