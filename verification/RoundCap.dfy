/** How many facts the cap on the passes through a stratum is enough for. */
module RoundCap {
  import opened SExprs
  import opened Solver
  import opened Semantics
  import opened Basics
  import opened Stratification
  import opened Derivation
  import opened StrataRuns
  import opened Evaluation
  import StrataCap

  // ---------------------------------------------------------------------------------------
  // What is always enough
  // ---------------------------------------------------------------------------------------

  /** The facts that the rules could add. */
  function Missing(rules: seq<Rule>, a: Index): set<Fact> {
    PossibleFacts(rules, ActiveDomain(rules, FactsOf(a))) - FactsOf(a)
  }

  lemma {:induction false} PassReaches(rs: seq<Rule>, states: seq<Index>, i: nat)
    requires IsPass(rs, states) && i <= |rs|
    ensures Reaches(rs, states[0], states[i])
  {
    if i == 0 {
      ReachesSelf(rs, states[0]);
    } else {
      PassReaches(rs, states, i - 1);
      assert StepTo(rs[i - 1], states[i - 1], states[i]);
      ReachesCompose([rs[i - 1]], rs, states[0], states[i - 1], states[i]);
    }
  }

  lemma {:induction false} TraceReaches(rs: seq<Rule>, trace: seq<Index>, a: Index, i: nat)
    requires ValidIndex(a) && PassesFrom(rs, trace, a) && i < |trace|
    ensures Reaches(rs, a, trace[i]) && ValidIndex(trace[i])
    ensures |FactsOf(trace[i])| >= |FactsOf(a)| + i
  {
    if i == 0 {
      ReachesSelf(rs, a);
    } else {
      TraceReaches(rs, trace, a, i - 1);
      assert PassAt(rs, trace, i);
      PassGrows(rs, trace[i - 1], trace[i]);
      ReachesCompose(rs, rs, a, trace[i - 1], trace[i]);
    }
  }

  lemma PassGrows(rs: seq<Rule>, a: Index, b: Index)
    requires ValidIndex(a) && GrowingPass(rs, a, b)
    ensures Reaches(rs, a, b) && ValidIndex(b) && |FactsOf(a)| < |FactsOf(b)|
  {
    var states :| IsPass(rs, states) && states[0] == a && states[|rs|] == b;
    PassReaches(rs, states, |rs|);
    ReachesGrows(rs, a, b);
    SubsetSmaller(FactsOf(a), FactsOf(b));
  }

  /** One stratum from `m` to `b`: at the cap with as many new facts, or else closed. */
  ghost predicate Stage(rs: seq<Rule>, m: Index, b: Index, hit: bool) {
    Reaches(rs, m, b) && ValidIndex(b) && if hit then |FactsOf(b)| >= |FactsOf(m)| + ROUND_CAP else AllClosed(rs, b)
  }

  lemma StageOf(rs: seq<Rule>, trace: seq<Index>, m: Index, b: Index)
    requires ValidIndex(m) && PassesTo(rs, trace, m, b)
    ensures Stage(rs, m, b, |trace| - 1 == ROUND_CAP) && |FactsOf(b)| >= |FactsOf(m)|
  {
    TraceReaches(rs, trace, m, |trace| - 1);
  }

  /** The last of the strata. */
  lemma LastStage(rules: seq<Rule>, s: Strata, ks: seq<nat>, a: Index, b: Index, capped: bool)
      returns (front: seq<nat>, rs: seq<Rule>, m: Index, before: bool, hit: bool)
    requires ks != [] && StagesTo(rules, s, ks, a, b, capped)
    ensures front == ks[..|ks| - 1] && rs == RulesAt(rules, s, ks[|ks| - 1])
    ensures StagesTo(rules, s, front, a, m, before) && capped == (before || hit)
    ensures ValidIndex(m) ==> Stage(rs, m, b, hit) && |FactsOf(b)| >= |FactsOf(m)|
  {
    front, rs := ks[..|ks| - 1], RulesAt(rules, s, ks[|ks| - 1]);
    assert StageBehind(rules, s, front, rs, a, b, capped);
    var trace;
    m, trace, before :| StagesTo(rules, s, front, a, m, before) && PassesTo(rs, trace, m, b)
      && capped == (before || |trace| - 1 == ROUND_CAP);
    hit := |trace| - 1 == ROUND_CAP;
    if ValidIndex(m) { StageOf(rs, trace, m, b); }
  }

  /** Each pass adds a fact, so that a stratum at the cap has added as many as the cap. */
  lemma {:induction false} StagesReach(rules: seq<Rule>, s: Strata, ks: seq<nat>, a: Index, b: Index, capped: bool)
    requires ValidIndex(a) && StagesTo(rules, s, ks, a, b, capped)
    ensures Reaches(rules, a, b) && ValidIndex(b)
    ensures |FactsOf(b)| >= |FactsOf(a)| + if capped then ROUND_CAP else 0
    decreases |ks|
  {
    if ks == [] {
      ReachesSelf(rules, a);
    } else {
      var front, rs, m, before, hit := LastStage(rules, s, ks, a, b, capped);
      StagesReach(rules, s, front, a, m, before);
      ReachesCompose(rs, rules, a, m, b);
    }
  }

  /** Fewer than 1024 missing facts never come to the cap. */
  lemma FewMissing(rules: seq<Rule>, a: Index, b: Index, capped: bool)
    requires ValidIndex(a) && Evaluates(rules, a, b, capped)
    ensures capped ==> ROUND_CAP <= |Missing(rules, a)|
  {
    var s := StratifySpec(rules).strata;
    var ks :| IsSchedule(ks, rules, s) && StagesTo(rules, s, ks, a, b, capped);
    StagesReach(rules, s, ks, a, b, capped);
    var run :| IsRun(rules, run, a) && EndOf(run, a) == b;
    NewFactsPossible(rules, run, a);
  }

  // ---------------------------------------------------------------------------------------
  // Ladders
  // ---------------------------------------------------------------------------------------

  function Mark(name: string): Fact {
    Fact(name, [])
  }

  /** The marks up to position `k`. */
  function Marks(names: seq<string>, k: nat): set<Fact> {
    set i | 0 <= i <= k && i < |names| :: Mark(names[i])
  }

  /** The rule reads one mark, before any answer is used, and yields another. */
  ghost predicate Rung(r: Rule, from: string, to: string) {
    && r.headPred == to && r.headTerms == [] && !OpOf(r.body).Call?
    && (forall d :: d in Deps(r.body) ==> !d.neg)
    && forall a, f :: ValidIndex(a) ==> (Derivable(r, a, f) <==> f == Mark(to) && Mark(from) in FactsOf(a))
  }

  ghost predicate RungAt(rules: seq<Rule>, names: seq<string>, i: nat)
    requires |names| == |rules| + 1 && i < |rules|
  {
    Rung(rules[|rules| - 1 - i], names[i], names[i + 1])
  }

  /** Each mark yields the next one, and the rule of the last comes first: the least favourable order. */
  ghost predicate IsLadder(rules: seq<Rule>, names: seq<string>) {
    && |names| == |rules| + 1 && StrataCap.Distinct(names)
    && forall i :: 0 <= i < |rules| ==> RungAt(rules, names, i)
  }

  lemma MarksMore(names: seq<string>, k: nat)
    requires k + 1 < |names|
    ensures Marks(names, k + 1) == Marks(names, k) + {Mark(names[k + 1])}
  {
  }

  lemma MarkIn(names: seq<string>, k: nat, i: nat)
    requires StrataCap.Distinct(names) && i < |names|
    ensures Mark(names[i]) in Marks(names, k) <==> i <= k
  {
    if Mark(names[i]) in Marks(names, k) {
      var j :| 0 <= j <= k && j < |names| && Mark(names[i]) == Mark(names[j]);
      assert !(i < j) && !(j < i);
    }
  }

  /** What firing a rung comes to. */
  function Climbing(facts: set<Fact>, from: string, to: string): set<Fact> {
    if Mark(from) in facts then facts + {Mark(to)} else facts
  }

  lemma RungSteps(r: Rule, from: string, to: string, a: Index, b: Index)
    requires Rung(r, from, to) && ValidIndex(a) && Reaches([r], a, b)
    ensures StepTo(r, a, b) <==> FactsOf(b) == Climbing(FactsOf(a), from, to)
  {
    assert forall f :: Derivable(r, a, f) <==> f == Mark(to) && Mark(from) in FactsOf(a);
    if FactsOf(b) == Climbing(FactsOf(a), from, to) { assert FiredOnce(r, a, b); }
    if FiredOnce(r, a, b) {
      forall f ensures f in FactsOf(b) <==> f in Climbing(FactsOf(a), from, to) {
        assert f in FactsOf(b) <==> f in FactsOf(a) || Derivable(r, a, f);
      }
    }
  }

  lemma ClimbingMarks(names: seq<string>, i: nat, k: nat)
    requires StrataCap.Distinct(names) && i + 1 < |names|
    ensures Climbing(Marks(names, k), names[i], names[i + 1]) == Marks(names, if i == k then k + 1 else k)
  {
    MarkIn(names, k, i);
    if i < k { MarkIn(names, k, i + 1); }
    if i == k { MarksMore(names, k); }
  }

  /** Firing the rule at position `j` of a pass, with the marks up to `k` there. */
  lemma RungFires(rules: seq<Rule>, names: seq<string>, a: Index, b: Index, j: nat, k: nat)
    requires IsLadder(rules, names) && j < |rules| && StepTo(rules[j], a, b)
    requires ValidIndex(a) && FactsOf(a) == Marks(names, k)
    ensures ValidIndex(b)
    ensures FactsOf(b) == Marks(names, if j + 1 + k == |rules| then k + 1 else k)
  {
    var i := |rules| - 1 - j;
    assert RungAt(rules, names, i);
    ReachesGrows([rules[j]], a, b);
    RungSteps(rules[j], names[i], names[i + 1], a, b);
    ClimbingMarks(names, i, k);
  }

  /** A pass adds one mark only, since every rule is fired before the one whose mark it reads. */
  lemma {:induction false} PassClimbs(rules: seq<Rule>, names: seq<string>, states: seq<Index>, k: nat, j: nat)
    requires IsLadder(rules, names) && IsPass(rules, states) && j <= |rules|
    requires ValidIndex(states[0]) && FactsOf(states[0]) == Marks(names, k)
    ensures ValidIndex(states[j])
    ensures FactsOf(states[j]) == Marks(names, if k < |rules| <= j + k then k + 1 else k)
  {
    if j > 0 {
      PassClimbs(rules, names, states, k, j - 1);
      assert StepTo(rules[j - 1], states[j - 1], states[j]);
      RungFires(rules, names, states[j - 1], states[j], j - 1, if k < |rules| <= j - 1 + k then k + 1 else k);
    }
  }

  lemma {:induction false} TraceClimbs(rules: seq<Rule>, names: seq<string>, trace: seq<Index>, a: Index, i: nat)
    requires IsLadder(rules, names) && PassesFrom(rules, trace, a) && i < |trace|
    requires ValidIndex(a) && FactsOf(a) == Marks(names, 0)
    ensures i <= |rules| && ValidIndex(trace[i]) && FactsOf(trace[i]) == Marks(names, i)
  {
    if i > 0 {
      TraceClimbs(rules, names, trace, a, i - 1);
      assert PassAt(rules, trace, i);
      var states :| IsPass(rules, states) && states[0] == trace[i - 1] && states[|rules|] == trace[i];
      PassClimbs(rules, names, states, i - 1, |rules|);
    }
  }

  /** A ladder is closed only at its end. */
  lemma LadderClosedIff(rules: seq<Rule>, names: seq<string>, a: Index, k: nat)
    requires IsLadder(rules, names) && ValidIndex(a) && FactsOf(a) == Marks(names, k) && k <= |rules|
    ensures AllClosed(rules, a) <==> k == |rules|
  {
    if k < |rules| {
      assert RungAt(rules, names, k);
      MarkIn(names, k, k);
      MarkIn(names, k, k + 1);
      var r := rules[|rules| - 1 - k];
      assert Derivable(r, a, Mark(names[k + 1])) && r in rules;
    } else {
      forall r, f | r in rules && Derivable(r, a, f) ensures f in FactsOf(a) {
        var j :| 0 <= j < |rules| && rules[j] == r;
        assert RungAt(rules, names, |rules| - 1 - j);
        MarkIn(names, k, |rules| - j);
      }
    }
  }

  // ---------------------------------------------------------------------------------------
  // One stratum
  // ---------------------------------------------------------------------------------------

  lemma PositiveStrata(rules: seq<Rule>, cap: nat)
    requires cap > 0 && forall r, d :: r in rules && d in Deps(r.body) ==> !d.neg
    ensures StratifyUpTo(rules, cap) == Outcome(Bottom(rules), true)
  {
    forall r, d | r in rules && d in Deps(r.body)
      ensures assert r.headPred in Heads(rules); RespectsDep(Bottom(rules), r.headPred, d)
    {
      assert r.headPred in Heads(rules);
    }
    assert IsStratification(Bottom(rules), rules);
    PassFixedIffRespects(Bottom(rules), rules);
    FixedPasses(rules, Bottom(rules), cap);
  }

  lemma PositiveSpec(rules: seq<Rule>)
    requires forall r, d :: r in rules && d in Deps(r.body) ==> !d.neg
    ensures StratifySpec(rules) == Outcome(Bottom(rules), true)
  {
    PositiveStrata(rules, PASS_CAP);
  }

  lemma {:induction false} RulesAtAll(rules: seq<Rule>, s: Strata)
    requires forall r :: r in rules ==> r.headPred in s && s[r.headPred] == 0
    ensures RulesAt(rules, s, 0) == rules
  {
    if rules != [] {
      assert forall r :: r in rules[1..] ==> r in rules;
      RulesAtAll(rules[1..], s);
    }
  }

  lemma OneStratum(rules: seq<Rule>, ks: seq<nat>)
    requires rules != []
    ensures RulesAt(rules, Bottom(rules), 0) == rules
    ensures IsSchedule(ks, rules, Bottom(rules)) <==> ks == [0]
  {
    var s := Bottom(rules);
    forall r | r in rules ensures r.headPred in s && s[r.headPred] == 0 { assert r.headPred in Heads(rules); }
    RulesAtAll(rules, s);
    assert rules[0] in rules;
    if IsSchedule(ks, rules, s) {
      assert 0 in ks;
      assert |ks| > 1 ==> ks[0] < ks[1];
      forall j | 0 <= j < |ks| ensures ks[j] == 0 { assert ks[j] in ks; }
      assert ks == [0];
    }
  }

  lemma LadderPositive(rules: seq<Rule>, names: seq<string>)
    requires IsLadder(rules, names)
    ensures forall r, d :: r in rules && d in Deps(r.body) ==> !d.neg
  {
    forall r, d | r in rules && d in Deps(r.body) ensures !d.neg {
      var j :| 0 <= j < |rules| && rules[j] == r;
      assert RungAt(rules, names, |rules| - 1 - j);
    }
  }

  /** What evaluating a ladder comes to: at the cap after so many passes, one mark each. */
  lemma LadderEvaluates(rules: seq<Rule>, names: seq<string>, trace: seq<Index>, a: Index, b: Index)
    requires IsLadder(rules, names) && ValidIndex(a) && FactsOf(a) == Marks(names, 0)
    requires PassesTo(rules, trace, a, b)
    ensures |trace| - 1 <= |rules| && ValidIndex(b) && FactsOf(b) == Marks(names, |trace| - 1)
    ensures AllClosed(rules, b) <==> |trace| - 1 == |rules|
  {
    TraceClimbs(rules, names, trace, a, |trace| - 1);
    LadderClosedIff(rules, names, b, |trace| - 1);
  }

  // ---------------------------------------------------------------------------------------
  // A ladder of any length
  // ---------------------------------------------------------------------------------------

  /** Predicate `i + 1` is a conjunction of one literal, which is predicate `i`. */
  function RungRule(i: nat): Rule {
    Rule(StrataCap.Name(i + 1), [], List([Sym("and"), List([Sym(StrataCap.Name(i))])]))
  }

  function Ladder(n: nat): seq<Rule> {
    seq(n, j requires 0 <= j < n => RungRule(n - 1 - j))
  }

  lemma {:induction false} CallsMark(facts: seq<Fact>, from: string)
    requires forall f :: f in facts ==> f.pred == from
    ensures forall env :: env in SolveCall([], facts, map[]) <==> env == map[] && Mark(from) in facts
  {
    if facts != [] { CallsMark(facts[1..], from); }
  }

  lemma RungRuleIs(i: nat)
    ensures Rung(RungRule(i), StrataCap.Name(i), StrataCap.Name(i + 1))
  {
    var from, body := StrataCap.Name(i), RungRule(i).body;
    var call := body.items[1];
    assert from[0] == 'z';
    assert OpOf(call) == Call(from) && OpOf(body) == And;
    assert body.items[1..] == [call] && [call][1..] == [] && call.items[1..] == [];
    assert DepsAll([call], false) == Deps(call, false) + DepsAll([], false) == [Dep(from, false)];
    var r, to := RungRule(i), StrataCap.Name(i + 1);
    forall a, f | ValidIndex(a) ensures Derivable(r, a, f) <==> f == Mark(to) && Mark(from) in FactsOf(a) {
      RungSolves(call, from, a);
      CallsMark(Lookup(a, from), from);
      assert Mark(from) in Lookup(a, from) <==> Mark(from) in FactsOf(a);
      assert map[] in Solve(body, map[], a) <==> Mark(from) in FactsOf(a);
    }
  }

  lemma RungSolves(call: SExpr, from: string, a: Index)
    requires OpOf(call) == Call(from) && call.items[1..] == []
    ensures SolveAll([call], [map[]], a) == SolveCall([], Lookup(a, from), map[])
  {
    assert [call][1..] == [];
    assert SolveEach(call, [map[]], a) == Solve(call, map[], a) + SolveEach(call, [], a) == Solve(call, map[], a);
  }

  lemma LadderIs(n: nat)
    ensures IsLadder(Ladder(n), StrataCap.Names(n + 1))
  {
    StrataCap.ChainIsChain(n + 1);
    var rules, names := Ladder(n), StrataCap.Names(n + 1);
    forall i | 0 <= i < n ensures RungAt(rules, names, i) { RungRuleIs(i); }
  }

  lemma {:induction false} MarksSize(names: seq<string>, k: nat)
    requires StrataCap.Distinct(names) && k < |names|
    ensures |Marks(names, k)| == k + 1
  {
    if k == 0 {
      assert Marks(names, 0) == {Mark(names[0])};
    } else {
      MarksSize(names, k - 1);
      MarksMore(names, k - 1);
      MarkIn(names, k - 1, k);
    }
  }

  lemma PossibleMark(rules: seq<Rule>, names: seq<string>, domain: set<SExpr>, f: Fact) returns (i: nat)
    requires IsLadder(rules, names) && f in PossibleFacts(rules, domain)
    ensures 0 < i <= |rules| && f == Mark(names[i])
  {
    var r, t :| r in rules && t in Tuples(domain, |r.headTerms|) && f == Fact(r.headPred, t);
    var j :| 0 <= j < |rules| && rules[j] == r;
    assert RungAt(rules, names, |rules| - 1 - j);
    i := |rules| - j;
  }

  lemma MarkPossible(rules: seq<Rule>, names: seq<string>, domain: set<SExpr>, i: nat)
    requires IsLadder(rules, names) && 0 < i <= |rules|
    ensures Mark(names[i]) in PossibleFacts(rules, domain)
  {
    assert RungAt(rules, names, i - 1);
    var r := rules[|rules| - i];
    assert r in rules && r.headTerms == [] && [] in Tuples(domain, 0);
    assert Mark(names[i]) == Fact(r.headPred, []);
  }

  /** As many facts are missing at the bottom of a ladder as it has rungs. */
  lemma LadderMissing(rules: seq<Rule>, names: seq<string>, a: Index)
    requires IsLadder(rules, names) && FactsOf(a) == Marks(names, 0)
    ensures |Missing(rules, a)| == |rules|
  {
    var n, domain, bottom := |rules|, ActiveDomain(rules, FactsOf(a)), Mark(names[0]);
    assert FactsOf(a) == {bottom};
    forall f | f in PossibleFacts(rules, domain) ensures f in Marks(names, n) {
      var i := PossibleMark(rules, names, domain, f);
    }
    forall f | f in Marks(names, n) && f != bottom ensures f in PossibleFacts(rules, domain) {
      var i :| 0 <= i <= n && f == Mark(names[i]);
      MarkPossible(rules, names, domain, i);
    }
    assert Missing(rules, a) == Marks(names, n) - {bottom};
    MarksSize(names, n);
    MarkIn(names, n, 0);
  }

  /** The facts with the marks up to `k`. */
  function Climbed(names: seq<string>, k: nat): Index
    requires k < |names|
  {
    if k == 0 then Insert(map[], Mark(names[0])) else Insert(Climbed(names, k - 1), Mark(names[k]))
  }

  lemma {:induction false} ClimbedMarks(names: seq<string>, k: nat)
    requires k < |names|
    ensures ValidIndex(Climbed(names, k)) && FactsOf(Climbed(names, k)) == Marks(names, k)
  {
    if k == 0 {
      FactsOfInsert(map[], Mark(names[0]));
      assert FactsOf(map[]) == {} && Marks(names, 0) == {Mark(names[0])};
    } else {
      ClimbedMarks(names, k - 1);
      FactsOfInsert(Climbed(names, k - 1), Mark(names[k]));
      MarksMore(names, k - 1);
    }
  }

  lemma ClimbedOrNot(r: Rule, names: seq<string>, i: nat, k: nat)
    requires StrataCap.Distinct(names) && i + 1 < |names| && k < |names| && Rung(r, names[i], names[i + 1])
    ensures var more := if i == k then k + 1 else k; StepTo(r, Climbed(names, k), Climbed(names, more))
  {
    var more := if i == k then k + 1 else k;
    ClimbedMarks(names, k);
    ClimbedMarks(names, more);
    ClimbingMarks(names, i, k);
    if i == k { ReachesNext(r, names, k); } else { ReachesSelf([r], Climbed(names, k)); }
    RungSteps(r, names[i], names[i + 1], Climbed(names, k), Climbed(names, more));
  }

  lemma ReachesNext(r: Rule, names: seq<string>, k: nat)
    requires StrataCap.Distinct(names) && k + 1 < |names| && Rung(r, names[k], names[k + 1])
    ensures Reaches([r], Climbed(names, k), Climbed(names, k + 1))
  {
    var a, next := Climbed(names, k), Mark(names[k + 1]);
    ClimbedMarks(names, k);
    MarkIn(names, k, k);
    MarkIn(names, k, k + 1);
    ReachesSelf([r], a);
    assert Derivable(r, a, next);
    ReachesStep([r], a, a, r, next);
  }

  /** How far the marks go while the rule at position `j` of a pass is fired, from `k` on. */
  function Height(n: nat, k: nat, j: nat): nat {
    if j + k < n then k else k + 1
  }

  lemma ClimbStep(rules: seq<Rule>, names: seq<string>, k: nat, j: nat)
    requires IsLadder(rules, names) && k < |rules| && j < |rules|
    ensures StepTo(rules[j], Climbed(names, Height(|rules|, k, j)), Climbed(names, Height(|rules|, k, j + 1)))
  {
    assert RungAt(rules, names, |rules| - 1 - j);
    ClimbedOrNot(rules[j], names, |rules| - 1 - j, Height(|rules|, k, j));
  }

  lemma ClimbPass(rules: seq<Rule>, names: seq<string>, k: nat)
    requires IsLadder(rules, names) && k < |rules|
    ensures GrowingPass(rules, Climbed(names, k), Climbed(names, k + 1))
  {
    var states := seq(|rules| + 1, j requires 0 <= j <= |rules| => Climbed(names, Height(|rules|, k, j)));
    forall j | 0 <= j < |rules| ensures StepTo(rules[j], states[j], states[j + 1]) { ClimbStep(rules, names, k, j); }
    assert IsPass(rules, states) && states[0] == Climbed(names, k) && states[|rules|] == Climbed(names, k + 1);
    ClimbedMarks(names, k);
    ClimbedMarks(names, k + 1);
    MarkIn(names, k, k + 1);
    MarkIn(names, k + 1, k + 1);
  }

  /** So many passes up a ladder. */
  lemma {:induction false} Climb(rules: seq<Rule>, names: seq<string>, k: nat) returns (trace: seq<Index>)
    requires IsLadder(rules, names) && k <= |rules|
    ensures |trace| == k + 1 && PassesFrom(rules, trace, trace[0])
    ensures ValidIndex(trace[0]) && FactsOf(trace[0]) == Marks(names, 0)
    ensures trace[k] == Climbed(names, k)
  {
    if k == 0 {
      ClimbedMarks(names, 0);
      trace := [Climbed(names, 0)];
    } else {
      var before := Climb(rules, names, k - 1);
      ClimbPass(rules, names, k - 1);
      TraceMore(rules, before, before[0], Climbed(names, k));
      trace := before + [Climbed(names, k)];
    }
  }

  /** On a ladder with as many rungs as the cap, or more, evaluation stops at the cap, and on a longer one too early. */
  lemma LadderCaps(rules: seq<Rule>, names: seq<string>) returns (a: Index, b: Index)
    requires IsLadder(rules, names) && |rules| >= ROUND_CAP
    ensures ValidIndex(a) && FactsOf(a) == Marks(names, 0) && Evaluates(rules, a, b, true)
    ensures |rules| > ROUND_CAP ==> !AllClosed(rules, b)
  {
    var trace := ClimbToCap(rules, names);
    a, b := trace[0], trace[|trace| - 1];
    LadderPositive(rules, names);
    OneStageEvaluates(rules, trace, a, b, true);
    LadderEvaluates(rules, names, trace, a, b);
  }

  lemma OneStageEvaluates(rules: seq<Rule>, trace: seq<Index>, a: Index, b: Index, capped: bool)
    requires rules != [] && forall r, d :: r in rules && d in Deps(r.body) ==> !d.neg
    requires PassesTo(rules, trace, a, b) && capped == (|trace| - 1 == ROUND_CAP)
    ensures Evaluates(rules, a, b, capped)
  {
    PositiveSpec(rules);
    OneStratum(rules, [0]);
    StageAlone(rules, Bottom(rules), 0, trace, a, b, capped);
    assert IsSchedule([0], rules, StratifySpec(rules).strata);
  }

  lemma StageAlone(rules: seq<Rule>, s: Strata, k: nat, trace: seq<Index>, a: Index, b: Index, capped: bool)
    requires PassesTo(RulesAt(rules, s, k), trace, a, b) && capped == (|trace| - 1 == ROUND_CAP)
    ensures StagesTo(rules, s, [k], a, b, capped)
  {
    var ks := [k];
    assert ks[..0] == [] && StagesTo(rules, s, [], a, a, false);
    assert StageBehind(rules, s, [], RulesAt(rules, s, k), a, b, capped);
    assert ks[..|ks| - 1] == [] && ks[|ks| - 1] == k;
  }

  lemma ClimbToCap(rules: seq<Rule>, names: seq<string>) returns (trace: seq<Index>)
    requires IsLadder(rules, names) && |rules| >= ROUND_CAP
    ensures |trace| == ROUND_CAP + 1 && PassesFrom(rules, trace, trace[0])
    ensures ValidIndex(trace[0]) && FactsOf(trace[0]) == Marks(names, 0)
  {
    trace := Climb(rules, names, ROUND_CAP);
  }

  // ---------------------------------------------------------------------------------------
  // What the cap is enough for
  // ---------------------------------------------------------------------------------------

  /** With so many facts missing the cap is never hit. */
  ghost predicate NeverCapped(n: nat) {
    forall rules, a, b, capped :: Lacks(rules, a, n) && Evaluates(rules, a, b, capped) ==> !capped
  }

  /** With so many facts missing, and strata that converged, the final facts are closed under all rules. */
  ghost predicate AlwaysCloses(n: nat) {
    forall rules, a, b, capped ::
      Lacks(rules, a, n) && StratifySpec(rules).converged && Evaluates(rules, a, b, capped) ==> AllClosed(rules, b)
  }

  lemma {:induction false} StagesCompute(rules: seq<Rule>, s: Strata, ks: seq<nat>, a: Index, b: Index)
    requires ValidIndex(a) && StagesTo(rules, s, ks, a, b, false)
    ensures Computes(rules, s, ks, a, b)
    decreases |ks|
  {
    if ks != [] {
      var front, rs, m, before, hit := LastStage(rules, s, ks, a, b, false);
      StagesReach(rules, s, front, a, m, false);
      StagesCompute(rules, s, front, a, m);
      ComputesAppend(rules, s, front, ks[|ks| - 1], a, m, b);
      assert front + [ks[|ks| - 1]] == ks;
    }
  }

  /** Everything possible is there: nothing more can be derived. */
  lemma FullIsClosed(rules: seq<Rule>, a: Index, b: Index)
    requires ValidIndex(a) && Reaches(rules, a, b) && Missing(rules, a) <= FactsOf(b) && FactsOf(a) <= FactsOf(b)
    ensures AllClosed(rules, b)
  {
    var domain := ActiveDomain(rules, FactsOf(a));
    var run :| IsRun(rules, run, a) && EndOf(run, a) == b;
    ActiveDomainCovers(rules, FactsOf(a));
    RunWithin(rules, run, a, b, domain);
    forall r, f | r in rules && Derivable(r, b, f) ensures f in FactsOf(b) {
      DerivableIsPossible(rules, r, b, f, domain);
    }
  }

  lemma AtMostCapCloses(rules: seq<Rule>, a: Index, b: Index, capped: bool)
    requires ValidIndex(a) && |Missing(rules, a)| <= ROUND_CAP && StratifySpec(rules).converged
    requires Evaluates(rules, a, b, capped)
    ensures AllClosed(rules, b)
  {
    var s := StratifySpec(rules).strata;
    var ks :| IsSchedule(ks, rules, s) && StagesTo(rules, s, ks, a, b, capped);
    StagesReach(rules, s, ks, a, b, capped);
    if capped {
      ReachesGrows(rules, a, b);
      AddedAll(rules, a, b);
      FullIsClosed(rules, a, b);
    } else {
      StagesCompute(rules, s, ks, a, b);
      FinalFactsClosed(rules, a, b);
    }
  }

  lemma AddedAll(rules: seq<Rule>, a: Index, b: Index)
    requires ValidIndex(a) && Reaches(rules, a, b) && FactsOf(a) <= FactsOf(b)
    requires |FactsOf(b)| >= |FactsOf(a)| + |Missing(rules, a)|
    ensures Missing(rules, a) <= FactsOf(b)
  {
    var domain := ActiveDomain(rules, FactsOf(a));
    var run :| IsRun(rules, run, a) && EndOf(run, a) == b;
    ActiveDomainCovers(rules, FactsOf(a));
    RunWithin(rules, run, a, b, domain);
    NoneLeft(FactsOf(a), FactsOf(b), Missing(rules, a));
  }

  lemma NoneLeft<T>(a: set<T>, b: set<T>, missing: set<T>)
    requires a <= b && b - a <= missing && |b| >= |a| + |missing|
    ensures missing <= b
  {
    assert b == a + (b - a);
    if b - a != missing { SubsetSmaller(b - a, missing); }
  }

  /** Valid facts that lack so many of those that the rules could add. */
  ghost predicate Lacks(rules: seq<Rule>, a: Index, n: nat) {
    ValidIndex(a) && |Missing(rules, a)| == n
  }

  /**
   * Fewer than 1024 missing facts are what the cap is never hit with, and 1024 are the most with
   * which everything is derived all the same.
   */
  lemma MissingSufficesIff(n: nat)
    ensures NeverCapped(n) <==> n < ROUND_CAP
    ensures AlwaysCloses(n) <==> n <= ROUND_CAP
  {
    forall rules, a, b, capped | n < ROUND_CAP && Lacks(rules, a, n) && Evaluates(rules, a, b, capped) ensures !capped {
      FewMissing(rules, a, b, capped);
    }
    forall rules, a, b, capped
      | n <= ROUND_CAP && Lacks(rules, a, n) && StratifySpec(rules).converged && Evaluates(rules, a, b, capped)
      ensures AllClosed(rules, b)
    {
      AtMostCapCloses(rules, a, b, capped);
    }
    if n >= ROUND_CAP {
      LadderIs(n);
      var rules, names := Ladder(n), StrataCap.Names(n + 1);
      var a, b := LadderCaps(rules, names);
      LadderMissing(rules, names, a);
      LadderPositive(rules, names);
      PositiveSpec(rules);
      assert Lacks(rules, a, n);
    }
  }
}
