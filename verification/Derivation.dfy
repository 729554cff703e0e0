/** Runs of the bottom-up evaluator as series of single derivations, and what such runs compute. */
module Derivation {
  import opened Wrappers
  import opened SExprs
  import opened Solver
  import opened Semantics

  /** Facts are kept in a set, and a list among the arguments cannot be hashed. */
  predicate Hashable(f: Fact) {
    forall a :: a in f.args ==> !a.List?
  }

  /** The head instance of an answer: each argument is the value of its term. */
  ghost predicate DerivesFrom(r: Rule, env: Env, f: Fact) {
    f.pred == r.headPred && TermsAre(r.headTerms, f.args, env)
  }

  /** The rule yields `f` when its body is solved against `idx`. */
  ghost predicate Derivable(r: Rule, idx: Index, f: Fact) {
    exists env :: env in Solve(r.body, map[], idx) && DerivesFrom(r, env, f)
  }

  /** Everything the rule yields is there already. */
  ghost predicate Closed(r: Rule, idx: Index) {
    forall f :: Derivable(r, idx, f) ==> f in FactsOf(idx)
  }

  ghost predicate AllClosed(rs: seq<Rule>, idx: Index) {
    forall r :: r in rs ==> Closed(r, idx)
  }

  function Insert(idx: Index, f: Fact): Index {
    idx[f.pred := Lookup(idx, f.pred) + [f]]
  }

  /**
   * A run: each step adds a fact that a rule derived when the facts were `seen`.  Solving a body
   * may finish before its first answer is used, so `seen` can be older than the facts added to.
   */
  datatype Run = Start | Then(before: Run, seen: Index, rule: Rule, fact: Fact)

  /** Where a run that starts at `a` ends. */
  function EndOf(run: Run, a: Index): Index {
    match run
    case Start => a
    case Then(before, _, _, f) => Insert(EndOf(before, a), f)
  }

  ghost predicate Visits(run: Run, a: Index, idx: Index) {
    idx == EndOf(run, a) || (run.Then? && Visits(run.before, a, idx))
  }

  ghost predicate IsRun(rs: seq<Rule>, run: Run, a: Index) {
    match run
    case Start => true
    case Then(before, seen, r, f) =>
      && IsRun(rs, before, a)
      && Visits(before, a, seen)
      && r in rs && Derivable(r, seen, f) && Hashable(f)
      && f !in FactsOf(EndOf(before, a))
  }

  function Length(run: Run): nat {
    match run
    case Start => 0
    case Then(before, _, _, _) => 1 + Length(before)
  }

  /** Some run of the rules leads from `a` to `b`. */
  ghost predicate Reaches(rs: seq<Rule>, a: Index, b: Index) {
    exists run :: IsRun(rs, run, a) && EndOf(run, a) == b
  }

  lemma ReachesSelf(rs: seq<Rule>, a: Index)
    ensures Reaches(rs, a, a)
  {
    assert IsRun(rs, Start, a) && EndOf(Start, a) == a;
  }

  lemma {:induction false} VisitsStart(run: Run, a: Index)
    ensures Visits(run, a, a)
  {
    if run.Then? { VisitsStart(run.before, a); }
  }

  lemma ReachesStep(rs: seq<Rule>, a: Index, b: Index, r: Rule, f: Fact)
    requires Reaches(rs, a, b)
    requires r in rs && Derivable(r, a, f) && Hashable(f) && f !in FactsOf(b)
    ensures Reaches(rs, a, Insert(b, f))
  {
    var run :| IsRun(rs, run, a) && EndOf(run, a) == b;
    VisitsStart(run, a);
    var more := Then(run, a, r, f);
    assert IsRun(rs, more, a) && EndOf(more, a) == Insert(b, f);
  }

  function Append(first: Run, second: Run): Run {
    match second
    case Start => first
    case Then(before, seen, r, f) => Then(Append(first, before), seen, r, f)
  }

  lemma {:induction false} AppendVisits(first: Run, second: Run, a: Index, idx: Index)
    requires Visits(second, EndOf(first, a), idx)
    ensures Visits(Append(first, second), a, idx)
    ensures EndOf(Append(first, second), a) == EndOf(second, EndOf(first, a))
  {
    AppendEnd(first, second, a);
    if second.Then? && idx != EndOf(second, EndOf(first, a)) { AppendVisits(first, second.before, a, idx); }
  }

  lemma {:induction false} AppendEnd(first: Run, second: Run, a: Index)
    ensures EndOf(Append(first, second), a) == EndOf(second, EndOf(first, a))
  {
    if second.Then? { AppendEnd(first, second.before, a); }
  }

  lemma {:induction false} AppendIsRun(rs: seq<Rule>, rs': seq<Rule>, first: Run, second: Run, a: Index)
    requires IsRun(rs', first, a) && IsRun(rs, second, EndOf(first, a))
    requires forall r :: r in rs ==> r in rs'
    ensures IsRun(rs', Append(first, second), a)
  {
    if second.Then? {
      AppendIsRun(rs, rs', first, second.before, a);
      AppendVisits(first, second.before, a, second.seen);
    }
  }

  /** Runs compose, and stay runs when there are more rules. */
  lemma ReachesCompose(rs: seq<Rule>, rs': seq<Rule>, a: Index, b: Index, c: Index)
    requires Reaches(rs', a, b) && Reaches(rs, b, c)
    requires forall r :: r in rs ==> r in rs'
    ensures Reaches(rs', a, c)
  {
    var first :| IsRun(rs', first, a) && EndOf(first, a) == b;
    var second :| IsRun(rs, second, b) && EndOf(second, b) == c;
    AppendIsRun(rs, rs', first, second, a);
    AppendEnd(first, second, a);
    assert EndOf(Append(first, second), a) == c;
  }

  lemma FactsOfInsert(idx: Index, f: Fact)
    ensures FactsOf(Insert(idx, f)) == FactsOf(idx) + {f}
    ensures ValidIndex(idx) ==> ValidIndex(Insert(idx, f))
  {
    var idx' := Insert(idx, f);
    forall g ensures g in FactsOf(idx') <==> g in FactsOf(idx) + {f} {
      if g in FactsOf(idx) {
        var p :| p in idx && g in idx[p];
        assert g in idx'[p];
      }
      if g in FactsOf(idx') {
        var p :| p in idx' && g in idx'[p];
      }
      assert f in idx'[f.pred];
    }
  }

  // ---------------------------------------------------------------------------------------
  // What every run keeps
  // ---------------------------------------------------------------------------------------

  function RuleHeads(rs: seq<Rule>): set<string> {
    set r | r in rs :: r.headPred
  }

  /** `b` extends `a`, and only the lists of the given predicates differ. */
  ghost predicate GrowsOn(heads: set<string>, a: Index, b: Index) {
    && FactsOf(a) <= FactsOf(b)
    && ValidIndex(b)
    && (forall p :: p !in heads ==> Lookup(a, p) == Lookup(b, p))
    && (forall f :: f in FactsOf(b) && f.pred !in heads ==> f in FactsOf(a))
  }

  /** Facts are never lost, and no list but those of the rules' heads changes. */
  lemma {:induction false} RunGrows(rs: seq<Rule>, run: Run, a: Index, idx: Index)
    requires ValidIndex(a) && IsRun(rs, run, a) && Visits(run, a, idx)
    ensures GrowsOn(RuleHeads(rs), a, idx)
  {
    if run.Then? {
      if idx != EndOf(run, a) {
        RunGrows(rs, run.before, a, idx);
      } else {
        RunGrows(rs, run.before, a, EndOf(run.before, a));
        assert run.fact.pred == run.rule.headPred && run.rule.headPred in RuleHeads(rs);
        FactsOfInsert(EndOf(run.before, a), run.fact);
      }
    }
  }

  lemma ReachesGrows(rs: seq<Rule>, a: Index, b: Index)
    requires ValidIndex(a) && Reaches(rs, a, b)
    ensures GrowsOn(RuleHeads(rs), a, b)
  {
    var run :| IsRun(rs, run, a) && EndOf(run, a) == b;
    RunGrows(rs, run, a, b);
  }

  // ---------------------------------------------------------------------------------------
  // The active domain
  // ---------------------------------------------------------------------------------------

  function TermConsts(t: Term): set<SExpr> {
    match t
    case Var(_) => {}
    case Const(c) => {c}
  }

  /** The constants a body can bind a variable to by itself: those of its equations. */
  function BodyConsts(e: SExpr): set<SExpr> {
    match OpOf(e)
    case And => set i, c | 1 <= i < |e.items| && c in BodyConsts(e.items[i]) :: c
    case Eq => if |e.items| == 3 then TermConsts(ToTerm(e.items[1])) + TermConsts(ToTerm(e.items[2])) else {}
    case Exists => if |e.items| == 3 then BodyConsts(e.items[2]) else {}
    case _ => {}
  }

  function RuleConsts(r: Rule): set<SExpr> {
    (set t, c | t in r.headTerms && c in TermConsts(t) :: c) + BodyConsts(r.body)
  }

  /** The constants of the facts and of the rules' heads and equations. */
  function ActiveDomain(rs: seq<Rule>, facts: set<Fact>): set<SExpr> {
    (set f, a | f in facts && a in f.args :: a) + (set r, c | r in rs && c in RuleConsts(r) :: c)
  }

  ghost predicate FactsWithin(facts: set<Fact>, domain: set<SExpr>) {
    forall f, a :: f in facts && a in f.args ==> a in domain
  }

  ghost predicate EnvWithin(env: Env, domain: set<SExpr>) {
    forall x :: x in env ==> env[x] in domain
  }

  lemma {:induction false} UnifyWithin(pattern: seq<Term>, datum: seq<SExpr>, env: Env, domain: set<SExpr>)
    requires EnvWithin(env, domain) && forall a :: a in datum ==> a in domain
    requires UnifyTerms(pattern, datum, env).Some?
    ensures EnvWithin(UnifyTerms(pattern, datum, env).value, domain)
    decreases |pattern|
  {
    if pattern != [] { UnifyWithin(pattern[1..], datum[1..], BindTerm(pattern[0], datum[0], env).value, domain); }
  }

  /** Solving any body binds variables to values of the active domain only. */
  lemma {:induction false} SolveWithin(e: SExpr, env: Env, idx: Index, domain: set<SExpr>, env': Env)
    requires FactsWithin(FactsOf(idx), domain) && BodyConsts(e) <= domain && EnvWithin(env, domain)
    requires env' in Solve(e, env, idx)
    ensures EnvWithin(env', domain)
    decreases e, 0
  {
    match OpOf(e)
    case And =>
      forall i | 0 <= i < |e.items[1..]| ensures BodyConsts(e.items[1..][i]) <= domain {
        assert BodyConsts(e.items[i + 1]) <= BodyConsts(e);
      }
      SolveAllWithin(e.items[1..], [env], idx, domain, env');
    case Exists =>
      SolveWithin(e.items[2], env, idx, domain, Solve(e.items[2], env, idx)[0]);
    case Call(pred) =>
      var terms := ToTerms(e.items[1..]);
      SolveCallMember(terms, Lookup(idx, pred), env, env');
      var f :| f in Lookup(idx, pred) && UnifyTerms(terms, f.args, env) == Some(env');
      assert f in FactsOf(idx);
      UnifyWithin(terms, f.args, env, domain);
    case _ =>
  }

  lemma {:induction false} SolveAllWithin(
      subs: seq<SExpr>, envs: seq<Env>, idx: Index, domain: set<SExpr>, env': Env)
    requires FactsWithin(FactsOf(idx), domain)
    requires forall i :: 0 <= i < |subs| ==> BodyConsts(subs[i]) <= domain
    requires forall env :: env in envs ==> EnvWithin(env, domain)
    requires env' in SolveAll(subs, envs, idx)
    ensures EnvWithin(env', domain)
    decreases subs, 1
  {
    if subs != [] && envs != [] {
      var next := SolveEach(subs[0], envs, idx);
      forall e2 | e2 in next ensures EnvWithin(e2, domain) {
        SolveEachMember(subs[0], envs, idx, e2);
        var e1 :| e1 in envs && e2 in Solve(subs[0], e1, idx);
        SolveWithin(subs[0], e1, idx, domain, e2);
      }
      SolveAllWithin(subs[1..], next, idx, domain, env');
    }
  }

  lemma TermsWithin(terms: seq<Term>, args: seq<SExpr>, env: Env, domain: set<SExpr>)
    requires EnvWithin(env, domain) && forall t, c :: t in terms && c in TermConsts(t) ==> c in domain
    requires TermsAre(terms, args, env)
    ensures forall a :: a in args ==> a in domain
  {
    forall a | a in args ensures a in domain {
      var i :| 0 <= i < |args| && args[i] == a;
      assert TermIs(terms[i], args[i], env) && terms[i] in terms;
    }
  }

  lemma DerivableWithin(r: Rule, idx: Index, f: Fact, domain: set<SExpr>)
    requires FactsWithin(FactsOf(idx), domain) && RuleConsts(r) <= domain && Derivable(r, idx, f)
    ensures |f.args| == |r.headTerms| && forall a :: a in f.args ==> a in domain
  {
    var env :| env in Solve(r.body, map[], idx) && DerivesFrom(r, env, f);
    SolveWithin(r.body, map[], idx, domain, env);
    forall t, c | t in r.headTerms && c in TermConsts(t) ensures c in domain { assert c in RuleConsts(r); }
    TermsWithin(r.headTerms, f.args, env, domain);
  }

  function Tuples(domain: set<SExpr>, n: nat): set<seq<SExpr>> {
    if n == 0 then {[]} else set a, t | a in domain && t in Tuples(domain, n - 1) :: [a] + t
  }

  lemma {:induction false} TuplesComplete(domain: set<SExpr>, t: seq<SExpr>)
    requires forall a :: a in t ==> a in domain
    ensures t in Tuples(domain, |t|)
  {
    if t != [] {
      TuplesComplete(domain, t[1..]);
      assert t == [t[0]] + t[1..];
    }
  }

  /** The finitely many facts the rules could ever derive over a domain. */
  function PossibleFacts(rs: seq<Rule>, domain: set<SExpr>): set<Fact> {
    set r, t | r in rs && t in Tuples(domain, |r.headTerms|) :: Fact(r.headPred, t)
  }

  lemma DerivableIsPossible(rs: seq<Rule>, r: Rule, idx: Index, f: Fact, domain: set<SExpr>)
    requires r in rs && FactsWithin(FactsOf(idx), domain) && RuleConsts(r) <= domain && Derivable(r, idx, f)
    ensures f in PossibleFacts(rs, domain) && forall a :: a in f.args ==> a in domain
  {
    DerivableWithin(r, idx, f, domain);
    TuplesComplete(domain, f.args);
    assert f == Fact(r.headPred, f.args);
  }

  ghost predicate CoversRules(domain: set<SExpr>, rs: seq<Rule>) {
    forall r :: r in rs ==> RuleConsts(r) <= domain
  }

  /** No index on a run leaves a domain that holds the constants of the first facts and of the rules. */
  lemma {:induction false} RunWithin(rs: seq<Rule>, run: Run, a: Index, idx: Index, domain: set<SExpr>)
    requires FactsWithin(FactsOf(a), domain) && CoversRules(domain, rs)
    requires IsRun(rs, run, a) && Visits(run, a, idx)
    ensures FactsWithin(FactsOf(idx), domain)
    ensures forall f :: f in FactsOf(idx) && f !in FactsOf(a) ==> f in PossibleFacts(rs, domain)
  {
    if run.Then? {
      if idx != EndOf(run, a) {
        RunWithin(rs, run.before, a, idx, domain);
      } else {
        RunWithin(rs, run.before, a, EndOf(run.before, a), domain);
        RunWithin(rs, run.before, a, run.seen, domain);
        DerivableIsPossible(rs, run.rule, run.seen, run.fact, domain);
        FactsOfInsert(EndOf(run.before, a), run.fact);
      }
    }
  }

  /** A run is at most as long as there are possible facts it starts without. */
  lemma {:induction false} RunLength(rs: seq<Rule>, run: Run, a: Index, domain: set<SExpr>)
    requires FactsWithin(FactsOf(a), domain) && CoversRules(domain, rs) && IsRun(rs, run, a)
    ensures Length(run) + |PossibleFacts(rs, domain) - FactsOf(EndOf(run, a))| == |PossibleFacts(rs, domain) - FactsOf(a)|
  {
    if run.Then? {
      var end := EndOf(run.before, a);
      RunLength(rs, run.before, a, domain);
      RunWithin(rs, run.before, a, run.seen, domain);
      DerivableIsPossible(rs, run.rule, run.seen, run.fact, domain);
      FactsOfInsert(end, run.fact);
      MissingOneLess(PossibleFacts(rs, domain), FactsOf(end), run.fact);
    }
  }

  lemma MissingOneLess(possible: set<Fact>, have: set<Fact>, f: Fact)
    requires f in possible && f !in have
    ensures |possible - (have + {f})| + 1 == |possible - have|
  {
    assert possible - (have + {f}) == (possible - have) - {f};
  }

  lemma ActiveDomainCovers(rs: seq<Rule>, facts: set<Fact>)
    ensures FactsWithin(facts, ActiveDomain(rs, facts)) && CoversRules(ActiveDomain(rs, facts), rs)
  {
  }

  /** Evaluation invents no values and ends: the possible facts not yet derived count down. */
  lemma ActiveDomainBounds(rs: seq<Rule>, run: Run, a: Index)
    requires IsRun(rs, run, a)
    ensures var domain := ActiveDomain(rs, FactsOf(a));
      && FactsWithin(FactsOf(EndOf(run, a)), domain)
      && Length(run) <= |PossibleFacts(rs, domain) - FactsOf(a)|
  {
    var domain := ActiveDomain(rs, FactsOf(a));
    ActiveDomainCovers(rs, FactsOf(a));
    RunWithin(rs, run, a, EndOf(run, a), domain);
    RunLength(rs, run, a, domain);
  }

  // ---------------------------------------------------------------------------------------
  // Least models
  // ---------------------------------------------------------------------------------------

  /** Under `v` the rule's body holds, negation being read off `below`, and the head becomes `f`. */
  ghost predicate Instance(r: Rule, v: Env, f: Fact, facts: set<Fact>, below: set<Fact>) {
    v.Keys == Vars(r.body) && Sat(r.body, v, facts, below) && DerivesFrom(r, v, f)
  }

  /** The facts contain every consequence of the rules, negation being read off `below`. */
  ghost predicate IsModel(rs: seq<Rule>, facts: set<Fact>, below: set<Fact>) {
    forall r, v, f :: r in rs && Instance(r, v, f, facts, below) ==> f in facts
  }

  /** The least extension of `below` that is closed under the rules of one stratum. */
  ghost predicate IsLeastModel(rs: seq<Rule>, below: set<Fact>, facts: set<Fact>) {
    && below <= facts
    && IsModel(rs, facts, below)
    && forall g :: below <= g && IsModel(rs, g, below) ==> facts <= g
  }

  ghost predicate AllWellModed(rs: seq<Rule>) {
    forall r :: r in rs ==> WellModed(r.body, {})
  }

  /** No rule reads negatively what one of the rules defines. */
  ghost predicate NegationBelow(rs: seq<Rule>) {
    forall r, p :: r in rs && p in NegPreds(Deps(r.body)) ==> p !in RuleHeads(rs)
  }

  lemma DerivableIsInstance(rs: seq<Rule>, r: Rule, idx: Index, f: Fact, below: set<Fact>) returns (v: Env)
    requires r in rs && AllWellModed(rs) && NegationBelow(rs) && ValidIndex(idx)
    requires SameFactsOn(NegPreds(Deps(r.body)), FactsOf(idx), below)
    requires Derivable(r, idx, f)
    ensures Instance(r, v, f, FactsOf(idx), below)
  {
    v :| v in Solve(r.body, map[], idx) && DerivesFrom(r, v, f);
    var start: Env := map[];
    assert start.Keys == {};
    SolveSound(r.body, start, idx, v);
    SatSameNegatives(r.body, v, FactsOf(idx), FactsOf(idx), below);
  }

  lemma InstanceIsDerivable(r: Rule, v: Env, f: Fact, idx: Index, below: set<Fact>)
    requires WellModed(r.body, {}) && ValidIndex(idx)
    requires SameFactsOn(NegPreds(Deps(r.body)), below, FactsOf(idx))
    requires Instance(r, v, f, FactsOf(idx), below)
    ensures Derivable(r, idx, f)
  {
    SatSameNegatives(r.body, v, FactsOf(idx), below, FactsOf(idx));
    var start: Env := map[];
    assert start.Keys == {};
    SolveComplete(r.body, start, idx, v);
    var env :| env in Solve(r.body, start, idx) && Extends(v, env);
    SolveSound(r.body, start, idx, env);
    assert env == v;
  }

  /** Negatively read predicates keep their facts while the rules of the stratum run. */
  lemma NegativesUntouched(rs: seq<Rule>, r: Rule, a: Index, b: Index)
    requires r in rs && NegationBelow(rs) && GrowsOn(RuleHeads(rs), a, b)
    ensures SameFactsOn(NegPreds(Deps(r.body)), FactsOf(b), FactsOf(a))
    ensures SameFactsOn(NegPreds(Deps(r.body)), FactsOf(a), FactsOf(b))
  {
  }

  /** Nothing is derived that is not in every model. */
  lemma {:induction false} RunBelowModels(rs: seq<Rule>, run: Run, a: Index, idx: Index, g: set<Fact>)
    requires AllWellModed(rs) && NegationBelow(rs) && ValidIndex(a)
    requires IsRun(rs, run, a) && Visits(run, a, idx)
    requires FactsOf(a) <= g && IsModel(rs, g, FactsOf(a))
    ensures FactsOf(idx) <= g
  {
    if run.Then? {
      if idx != EndOf(run, a) {
        RunBelowModels(rs, run.before, a, idx, g);
      } else {
        var r, seen := run.rule, run.seen;
        RunBelowModels(rs, run.before, a, EndOf(run.before, a), g);
        RunBelowModels(rs, run.before, a, seen, g);
        RunGrows(rs, run.before, a, seen);
        NegativesUntouched(rs, r, a, seen);
        var v := DerivableIsInstance(rs, r, seen, run.fact, FactsOf(a));
        SatMonotone(r.body, v, FactsOf(seen), g, FactsOf(a));
        assert Instance(r, v, run.fact, g, FactsOf(a));
        FactsOfInsert(EndOf(run.before, a), run.fact);
      }
    }
  }

  /** A run that has reached closure has computed the least model of its stratum. */
  lemma ClosureIsLeastModel(rs: seq<Rule>, a: Index, b: Index)
    requires AllWellModed(rs) && NegationBelow(rs) && ValidIndex(a)
    requires Reaches(rs, a, b) && AllClosed(rs, b)
    ensures IsLeastModel(rs, FactsOf(a), FactsOf(b))
  {
    ReachesGrows(rs, a, b);
    forall r, v, f | r in rs && Instance(r, v, f, FactsOf(b), FactsOf(a)) ensures f in FactsOf(b) {
      NegativesUntouched(rs, r, a, b);
      InstanceIsDerivable(r, v, f, b, FactsOf(a));
    }
    forall g | FactsOf(a) <= g && IsModel(rs, g, FactsOf(a)) ensures FactsOf(b) <= g {
      var run :| IsRun(rs, run, a) && EndOf(run, a) == b;
      RunBelowModels(rs, run, a, b, g);
    }
  }

  /** Only the set of rules matters for the least model. */
  lemma LeastModelUnique(rs: seq<Rule>, rs': seq<Rule>, below: set<Fact>, m: set<Fact>, m': set<Fact>)
    requires forall r :: r in rs <==> r in rs'
    requires IsLeastModel(rs, below, m) && IsLeastModel(rs', below, m')
    ensures m == m'
  {
  }

  /** Nothing is in a least model without a reason: each new fact is some rule's consequence. */
  lemma LeastModelSupported(rs: seq<Rule>, below: set<Fact>, m: set<Fact>, f: Fact)
    requires IsLeastModel(rs, below, m) && f in m && f !in below
    ensures exists r, v :: r in rs && Instance(r, v, f, m, below)
  {
    if !exists r, v :: r in rs && Instance(r, v, f, m, below) {
      var g := m - {f};
      forall r, v, h | r in rs && Instance(r, v, h, g, below) ensures h in g {
        SatMonotone(r.body, v, g, m, below);
        assert Instance(r, v, h, m, below);
      }
      assert IsModel(rs, g, below);
      assert false;
    }
  }
}
