/** What a rule body means, and the agreement of the solver with that meaning. */
module Semantics {
  import opened Wrappers
  import opened SExprs
  import opened Solver

  // ---------------------------------------------------------------------------------------
  // Declarative meaning of a body
  // ---------------------------------------------------------------------------------------

  function TermVars(t: Term): set<string> {
    match t
    case Var(x) => {x}
    case Const(_) => {}
  }

  function TermsVars(ts: seq<Term>): set<string> {
    set t, x | t in ts && x in TermVars(t) :: x
  }

  /** The free variables of a body. */
  ghost function Vars(e: SExpr): set<string> {
    match OpOf(e)
    case And => set i, x | 1 <= i < |e.items| && x in Vars(e.items[i]) :: x
    case Not => if |e.items| > 1 then Vars(e.items[1]) else {}
    case Eq => if |e.items| == 3 then TermVars(ToTerm(e.items[1])) + TermVars(ToTerm(e.items[2])) else {}
    case Exists => if IsExistsForm(e) then Vars(e.items[2]) - Quantified(e.items[1]) else {}
    case Call(_) => TermsVars(ToTerms(e.items[1..]))
    case Reserved(_) => {}
    case NoOp => {}
  }

  predicate TermIs(t: Term, value: SExpr, v: Env) {
    TermValue(t, v) == Some(value)
  }

  predicate TermsAre(ts: seq<Term>, values: seq<SExpr>, v: Env) {
    |ts| == |values| && forall i :: 0 <= i < |ts| ==> TermIs(ts[i], values[i], v)
  }

  /** Terms have their values under one valuation only in one way. */
  lemma TermsAreUnique(ts: seq<Term>, values: seq<SExpr>, values': seq<SExpr>, v: Env)
    requires TermsAre(ts, values, v) && TermsAre(ts, values', v)
    ensures values == values'
  {
    forall i | 0 <= i < |ts| ensures values[i] == values'[i] { assert TermIs(ts[i], values[i], v) && TermIs(ts[i], values'[i], v); }
  }

  /** Body `e` holds under the valuation `v` when the facts are `pos` and, below a `not`, `neg`. */
  ghost predicate Sat(e: SExpr, v: Env, pos: set<Fact>, neg: set<Fact>) {
    match OpOf(e)
    case And => forall i :: 1 <= i < |e.items| ==> Sat(e.items[i], v, pos, neg)
    case Not => |e.items| > 1 && Vars(e.items[1]) <= v.Keys && !Sat(e.items[1], v, neg, neg)
    case Eq =>
      && |e.items| == 3
      && TermValue(ToTerm(e.items[1]), v).Some?
      && TermValue(ToTerm(e.items[1]), v) == TermValue(ToTerm(e.items[2]), v)
    case Exists =>
      && IsExistsForm(e)
      && var qs := Quantified(e.items[1]);
         exists w: Env :: w.Keys <= qs && Sat(e.items[2], (v - qs) + w, pos, neg)
    case Call(pred) => exists f :: f in pos && f.pred == pred && TermsAre(ToTerms(e.items[1..]), f.args, v)
    case Reserved(_) => false
    case NoOp => false
  }

  /**
   * A left-to-right discipline on bodies entered with the names in `bound` bound: `not` meets only
   * bound variables, `=` has a bound side, and `exists` quantifies fresh names that cover whatever
   * its operand leaves unbound.
   */
  ghost predicate WellModed(e: SExpr, bound: set<string>)
    decreases e, 0
  {
    match OpOf(e)
    case And => WellModedAll(e.items[1..], bound)
    case Not => |e.items| > 1 ==> WellModed(e.items[1], bound) && Vars(e.items[1]) <= bound
    case Eq =>
      |e.items| == 3 ==>
        TermVars(ToTerm(e.items[1])) <= bound || TermVars(ToTerm(e.items[2])) <= bound
    case Exists =>
      IsExistsForm(e) ==>
        && WellModed(e.items[2], bound)
        && Quantified(e.items[1]) !! bound
        && Vars(e.items[2]) <= bound + Quantified(e.items[1])
    case _ => true
  }

  ghost predicate WellModedAll(subs: seq<SExpr>, bound: set<string>)
    decreases subs, 1
  {
    subs == [] || (WellModed(subs[0], bound) && WellModedAll(subs[1..], bound + Vars(subs[0])))
  }

  ghost predicate Extends(v: Env, env: Env) {
    env.Keys <= v.Keys && forall x :: x in env ==> v[x] == env[x]
  }

  /** `v` and `v'` agree on the names in `xs`, whether bound or not. */
  ghost predicate AgreeOn(xs: set<string>, v: Env, v': Env) {
    forall x :: x in xs ==> (x in v <==> x in v') && (x in v && x in v' ==> v[x] == v'[x])
  }

  /** The facts an index holds. */
  function FactsOf(idx: Index): set<Fact> {
    set p, f | p in idx && f in idx[p] :: f
  }

  ghost predicate ValidIndex(idx: Index) {
    forall p, f :: p in idx && f in idx[p] ==> f.pred == p
  }

  // ---------------------------------------------------------------------------------------
  // The meaning depends on little
  // ---------------------------------------------------------------------------------------

  lemma TermsAreAgree(ts: seq<Term>, values: seq<SExpr>, v: Env, v': Env)
    requires AgreeOn(TermsVars(ts), v, v')
    requires TermsAre(ts, values, v)
    ensures TermsAre(ts, values, v')
  {
    forall i | 0 <= i < |ts| ensures TermIs(ts[i], values[i], v') {
      assert TermIs(ts[i], values[i], v);
      if ts[i].Var? { assert ts[i].name in TermVars(ts[i]); }
    }
  }

  /** Only the free variables matter. */
  lemma {:induction false} SatAgree(e: SExpr, v: Env, v': Env, pos: set<Fact>, neg: set<Fact>)
    requires AgreeOn(Vars(e), v, v')
    requires Sat(e, v, pos, neg)
    ensures Sat(e, v', pos, neg)
    decreases e
  {
    match OpOf(e)
    case And =>
      forall i | 1 <= i < |e.items| ensures Sat(e.items[i], v', pos, neg) {
        SatAgree(e.items[i], v, v', pos, neg);
      }
    case Not =>
      if Sat(e.items[1], v', neg, neg) { SatAgree(e.items[1], v', v, neg, neg); }
    case Exists =>
      var qs := Quantified(e.items[1]);
      var w: Env :| w.Keys <= qs && Sat(e.items[2], (v - qs) + w, pos, neg);
      SatAgree(e.items[2], (v - qs) + w, (v' - qs) + w, pos, neg);
    case Call(pred) =>
      var f :| f in pos && f.pred == pred && TermsAre(ToTerms(e.items[1..]), f.args, v);
      TermsAreAgree(ToTerms(e.items[1..]), f.args, v, v');
    case _ =>
  }

  /** Growing the facts keeps a body true as long as the facts below `not` stay. */
  lemma {:induction false} SatMonotone(e: SExpr, v: Env, pos: set<Fact>, pos': set<Fact>, neg: set<Fact>)
    requires pos <= pos'
    requires Sat(e, v, pos, neg)
    ensures Sat(e, v, pos', neg)
    decreases e
  {
    match OpOf(e)
    case And =>
      forall i | 1 <= i < |e.items| ensures Sat(e.items[i], v, pos', neg) {
        SatMonotone(e.items[i], v, pos, pos', neg);
      }
    case Exists =>
      var qs := Quantified(e.items[1]);
      var w: Env :| w.Keys <= qs && Sat(e.items[2], (v - qs) + w, pos, neg);
      SatMonotone(e.items[2], (v - qs) + w, pos, pos', neg);
    case Call(pred) =>
      var f :| f in pos && f.pred == pred && TermsAre(ToTerms(e.items[1..]), f.args, v);
      assert f in pos';
    case _ =>
  }

  /** The two fact sets have the same facts of each of these predicates. */
  ghost predicate SameFactsOn(ps: set<string>, a: set<Fact>, b: set<Fact>) {
    forall f: Fact :: f.pred in ps ==> (f in a <==> f in b)
  }

  /** The predicates that occur below a `not`. */
  function NegPreds(deps: seq<Dep>): set<string> {
    set d | d in deps && d.neg :: d.pred
  }

  /** Below a `not` only the facts of negatively read predicates matter. */
  lemma {:induction false} SatSameNegatives(e: SExpr, v: Env, pos: set<Fact>, neg: set<Fact>, neg': set<Fact>)
    requires SameFactsOn(NegPreds(Deps(e, false)), neg, neg')
    requires Sat(e, v, pos, neg)
    ensures Sat(e, v, pos, neg')
    decreases e
  {
    match OpOf(e)
    case And =>
      forall i | 1 <= i < |e.items| ensures Sat(e.items[i], v, pos, neg') {
        DepsAllMember(e.items[1..], false, i - 1);
        SatSameNegatives(e.items[i], v, pos, neg, neg');
      }
    case Not =>
      if Sat(e.items[1], v, neg', neg') { SatSamePredicates(e.items[1], v, neg', neg); }
    case Exists =>
      var qs := Quantified(e.items[1]);
      var w: Env :| w.Keys <= qs && Sat(e.items[2], (v - qs) + w, pos, neg);
      SatSameNegatives(e.items[2], (v - qs) + w, pos, neg, neg');
    case _ =>
  }

  lemma {:induction false} SatSamePredicates(e: SExpr, v: Env, a: set<Fact>, b: set<Fact>)
    requires SameFactsOn(NegPreds(Deps(e, true)), a, b)
    requires Sat(e, v, a, a)
    ensures Sat(e, v, b, b)
    decreases e
  {
    match OpOf(e)
    case And =>
      forall i | 1 <= i < |e.items| ensures Sat(e.items[i], v, b, b) {
        DepsAllMember(e.items[1..], true, i - 1);
        SatSamePredicates(e.items[i], v, a, b);
      }
    case Not =>
      if Sat(e.items[1], v, b, b) { SatSamePredicates(e.items[1], v, b, a); }
    case Exists =>
      var qs := Quantified(e.items[1]);
      var w: Env :| w.Keys <= qs && Sat(e.items[2], (v - qs) + w, a, a);
      SatSamePredicates(e.items[2], (v - qs) + w, a, b);
    case Call(pred) =>
      assert Dep(pred, true) in Deps(e, true);
      var f :| f in a && f.pred == pred && TermsAre(ToTerms(e.items[1..]), f.args, v);
      assert f in b;
    case _ =>
  }

  // ---------------------------------------------------------------------------------------
  // Unification
  // ---------------------------------------------------------------------------------------

  /** A unifier binds exactly the pattern's variables, keeps `env`, and makes pattern and datum equal. */
  lemma {:induction false} UnifySound(pattern: seq<Term>, datum: seq<SExpr>, env: Env)
    requires UnifyTerms(pattern, datum, env).Some?
    ensures var env' := UnifyTerms(pattern, datum, env).value;
      && Extends(env', env)
      && env'.Keys == env.Keys + TermsVars(pattern)
      && TermsAre(pattern, datum, env')
    decreases |pattern|
  {
    if pattern != [] {
      var env1 := BindTerm(pattern[0], datum[0], env).value;
      var env2 := UnifyTerms(pattern, datum, env).value;
      UnifySound(pattern[1..], datum[1..], env1);
      assert TermsVars(pattern) == TermVars(pattern[0]) + TermsVars(pattern[1..]) by {
        assert pattern == [pattern[0]] + pattern[1..];
      }
      assert TermIs(pattern[0], datum[0], env1);
      forall i | 0 <= i < |pattern| ensures TermIs(pattern[i], datum[i], env2) {
        if i > 0 { assert TermIs(pattern[1..][i - 1], datum[1..][i - 1], env2); }
      }
    }
  }

  /** Whatever makes pattern and datum equal extends the unifier. */
  lemma {:induction false} UnifyComplete(pattern: seq<Term>, datum: seq<SExpr>, env: Env, v: Env)
    requires Extends(v, env) && TermsAre(pattern, datum, v)
    ensures UnifyTerms(pattern, datum, env).Some?
    ensures Extends(v, UnifyTerms(pattern, datum, env).value)
    decreases |pattern|
  {
    if pattern != [] {
      assert TermIs(pattern[0], datum[0], v);
      var env1 := BindTerm(pattern[0], datum[0], env).value;
      forall i | 0 <= i < |pattern[1..]| ensures TermIs(pattern[1..][i], datum[1..][i], v) {
        assert TermIs(pattern[i + 1], datum[i + 1], v);
      }
      UnifyComplete(pattern[1..], datum[1..], env1, v);
    }
  }

  lemma {:induction false} SolveCallMember(terms: seq<Term>, facts: seq<Fact>, env: Env, env': Env)
    ensures env' in SolveCall(terms, facts, env) <==>
      exists f :: f in facts && UnifyTerms(terms, f.args, env) == Some(env')
  {
    if facts != [] {
      SolveCallMember(terms, facts[1..], env, env');
      assert facts == [facts[0]] + facts[1..];
      assert env' in Yield(UnifyTerms(terms, facts[0].args, env)) <==> UnifyTerms(terms, facts[0].args, env) == Some(env');
    }
  }

  lemma {:induction false} SolveEachMember(e: SExpr, envs: seq<Env>, idx: Index, env': Env)
    ensures env' in SolveEach(e, envs, idx) <==> exists env :: env in envs && env' in Solve(e, env, idx)
    decreases |envs|
  {
    if envs != [] {
      SolveEachMember(e, envs[1..], idx, env');
      if env' in Solve(e, envs[0], idx) { assert envs[0] in envs; }
    }
  }

  // ---------------------------------------------------------------------------------------
  // Soundness and completeness of the solver
  // ---------------------------------------------------------------------------------------

  /** `env'` is a correct answer to body `e` entered with `env`. */
  ghost predicate Answers(e: SExpr, env: Env, env': Env, facts: set<Fact>) {
    Extends(env', env) && env'.Keys == env.Keys + Vars(e) && Sat(e, env', facts, facts)
  }

  /** Every environment yielded for a well-moded body extends the input and satisfies the body. */
  lemma {:induction false} SolveSound(e: SExpr, env: Env, idx: Index, env': Env)
    requires WellModed(e, env.Keys) && ValidIndex(idx)
    requires env' in Solve(e, env, idx)
    ensures Answers(e, env, env', FactsOf(idx))
    decreases e, 0, 1
  {
    match OpOf(e)
    case And =>
      var _ := SolveAllSound(e.items[1..], [env], env, env.Keys, idx, env');
      forall i | 1 <= i < |e.items| ensures Sat(e.items[i], env', FactsOf(idx), FactsOf(idx)) {
        assert e.items[1..][i - 1] == e.items[i];
      }
      VarsAllIsVars(e);
    case Not =>
      if Sat(e.items[1], env, FactsOf(idx), FactsOf(idx)) { SolveComplete(e.items[1], env, idx, env); }
    case Exists => SolveExists(e, env, idx);
    case Call(pred) => SolveCallSound(e, env, idx, env');
    case _ =>
  }

  lemma ScopedExtension(env: Env, found: Env, qs: set<string>)
    requires Extends(found, env) && env.Keys !! qs && found.Keys <= env.Keys + qs
    ensures found - qs == env
    ensures exists w: Env :: w.Keys <= qs && (env - qs) + w == found
  {
    var w: Env := map x | x in found && x in qs :: found[x];
    assert (env - qs) + w == found;
  }

  /** A well-moded `exists` yields its input unchanged if anything, and then it holds. */
  lemma {:induction false} SolveExists(e: SExpr, env: Env, idx: Index)
    requires OpOf(e) == Exists && IsExistsForm(e)
    requires WellModed(e, env.Keys) && ValidIndex(idx)
    ensures Solve(e, env, idx) == [env] || Solve(e, env, idx) == []
    ensures Solve(e, env, idx) == [env] ==> Answers(e, env, env, FactsOf(idx))
    decreases e, 0, 0
  {
    if Solve(e.items[2], env, idx) != [] {
      var found := Solve(e.items[2], env, idx)[0];
      var qs := Quantified(e.items[1]);
      SolveSound(e.items[2], env, idx, found);
      ScopedExtension(env, found, qs);
    }
  }

  lemma SolveCallSound(e: SExpr, env: Env, idx: Index, env': Env)
    requires OpOf(e).Call? && ValidIndex(idx)
    requires env' in Solve(e, env, idx)
    ensures Answers(e, env, env', FactsOf(idx))
  {
    var pred, terms := OpOf(e).pred, ToTerms(e.items[1..]);
    SolveCallMember(terms, Lookup(idx, pred), env, env');
    var f :| f in Lookup(idx, pred) && UnifyTerms(terms, f.args, env) == Some(env');
    UnifySound(terms, f.args, env);
    assert f in FactsOf(idx);
  }

  ghost function VarsAll(subs: seq<SExpr>): set<string> {
    if subs == [] then {} else Vars(subs[0]) + VarsAll(subs[1..])
  }

  lemma {:induction false} VarsAllMember(subs: seq<SExpr>, x: string)
    ensures x in VarsAll(subs) <==> exists i :: 0 <= i < |subs| && x in Vars(subs[i])
  {
    if subs != [] {
      VarsAllMember(subs[1..], x);
      if i :| 0 <= i < |subs| && x in Vars(subs[i]) {
        if i > 0 { assert x in Vars(subs[1..][i - 1]); }
      }
      if i :| 0 <= i < |subs[1..]| && x in Vars(subs[1..][i]) {
        assert x in Vars(subs[i + 1]);
      }
    }
  }

  lemma VarsAllIsVars(e: SExpr)
    requires OpOf(e) == And
    ensures VarsAll(e.items[1..]) == Vars(e)
  {
    forall x ensures x in VarsAll(e.items[1..]) <==> x in Vars(e) {
      VarsAllMember(e.items[1..], x);
      if i :| 0 <= i < |e.items[1..]| && x in Vars(e.items[1..][i]) {
        assert x in Vars(e.items[i + 1]);
      }
      if i :| 1 <= i < |e.items| && x in Vars(e.items[i]) {
        assert x in Vars(e.items[1..][i - 1]);
      }
    }
  }

  lemma {:induction false} SolveAllSound(
      subs: seq<SExpr>, envs: seq<Env>, env: Env, bound: set<string>, idx: Index, env': Env)
      returns (start: Env)
    requires WellModedAll(subs, bound) && ValidIndex(idx)
    requires forall e1 :: e1 in envs ==> Extends(e1, env) && e1.Keys == bound
    requires env' in SolveAll(subs, envs, idx)
    ensures start in envs && Extends(env', start)
    ensures env'.Keys == bound + VarsAll(subs)
    ensures forall i :: 0 <= i < |subs| ==> Sat(subs[i], env', FactsOf(idx), FactsOf(idx))
    decreases subs, 2, 0
  {
    start := env';
    if subs != [] {
      var facts := FactsOf(idx);
      var next := SolveEach(subs[0], envs, idx);
      forall e2 | e2 in next ensures Extends(e2, env) && e2.Keys == bound + Vars(subs[0]) {
        var _ := SolveEachSound(subs[0], envs, bound, idx, e2);
      }
      var e2 := SolveAllSound(subs[1..], next, env, bound + Vars(subs[0]), idx, env');
      start := SolveEachSound(subs[0], envs, bound, idx, e2);
      SatAgree(subs[0], e2, env', facts, facts);
      forall i | 0 <= i < |subs| ensures Sat(subs[i], env', facts, facts) {
        if i > 0 { assert Sat(subs[1..][i - 1], env', facts, facts); }
      }
    }
  }

  lemma {:induction false} SolveEachSound(e: SExpr, envs: seq<Env>, bound: set<string>, idx: Index, env': Env)
      returns (start: Env)
    requires WellModed(e, bound) && ValidIndex(idx)
    requires forall e1 :: e1 in envs ==> e1.Keys == bound
    requires env' in SolveEach(e, envs, idx)
    ensures start in envs && Answers(e, start, env', FactsOf(idx))
    decreases e, 1, 0
  {
    SolveEachMember(e, envs, idx, env');
    start :| start in envs && env' in Solve(e, start, idx);
    SolveSound(e, start, idx, env');
  }

  /** Every valuation that satisfies a well-moded body extends some yielded environment. */
  lemma {:induction false} SolveComplete(e: SExpr, env: Env, idx: Index, v: Env)
    requires WellModed(e, env.Keys) && ValidIndex(idx)
    requires Extends(v, env) && Sat(e, v, FactsOf(idx), FactsOf(idx))
    ensures exists env' :: env' in Solve(e, env, idx) && Extends(v, env')
    decreases e, 0, 2
  {
    var facts := FactsOf(idx);
    match OpOf(e)
    case And =>
      forall i | 0 <= i < |e.items[1..]| ensures Sat(e.items[1..][i], v, facts, facts) {
        assert Sat(e.items[i + 1], v, facts, facts);
      }
      SolveAllComplete(e.items[1..], [env], env, idx, v);
    case Not =>
      if Solve(e.items[1], env, idx) != [] {
        var found := Solve(e.items[1], env, idx)[0];
        SolveSound(e.items[1], env, idx, found);
        SatAgree(e.items[1], found, v, facts, facts);
      }
      assert env in Solve(e, env, idx);
    case Eq =>
      assert Solve(e, env, idx) != [] && Extends(v, Solve(e, env, idx)[0]);
    case Exists =>
      SolveExistsComplete(e, env, idx, v);
    case Call(pred) =>
      var terms := ToTerms(e.items[1..]);
      var f :| f in facts && f.pred == pred && TermsAre(terms, f.args, v);
      UnifyComplete(terms, f.args, env, v);
      SolveCallMember(terms, Lookup(idx, pred), env, UnifyTerms(terms, f.args, env).value);
    case _ =>
  }

  lemma {:induction false} SolveExistsComplete(e: SExpr, env: Env, idx: Index, v: Env)
    requires OpOf(e) == Exists && WellModed(e, env.Keys) && ValidIndex(idx)
    requires Extends(v, env) && Sat(e, v, FactsOf(idx), FactsOf(idx))
    ensures Solve(e, env, idx) == [env]
    decreases e, 0, 1
  {
    var facts, qs := FactsOf(idx), Quantified(e.items[1]);
    var w: Env :| w.Keys <= qs && Sat(e.items[2], (v - qs) + w, facts, facts);
    SolveComplete(e.items[2], env, idx, (v - qs) + w);
    SolveExists(e, env, idx);
  }

  /** A well-moded `exists` is a test: it yields its input unchanged exactly when it holds. */
  lemma SolveExistsIff(e: SExpr, env: Env, idx: Index)
    requires OpOf(e) == Exists && WellModed(e, env.Keys) && ValidIndex(idx)
    ensures Solve(e, env, idx) == if Sat(e, env, FactsOf(idx), FactsOf(idx)) then [env] else []
  {
    if IsExistsForm(e) { SolveExists(e, env, idx); }
    if Sat(e, env, FactsOf(idx), FactsOf(idx)) { SolveExistsComplete(e, env, idx, env); }
  }

  lemma {:induction false} SolveAllComplete(subs: seq<SExpr>, envs: seq<Env>, env: Env, idx: Index, v: Env)
    requires WellModedAll(subs, env.Keys) && ValidIndex(idx)
    requires env in envs && Extends(v, env)
    requires forall i :: 0 <= i < |subs| ==> Sat(subs[i], v, FactsOf(idx), FactsOf(idx))
    ensures exists env' :: env' in SolveAll(subs, envs, idx) && Extends(v, env')
    decreases subs, 2, 0
  {
    if subs != [] {
      SolveComplete(subs[0], env, idx, v);
      var env1 :| env1 in Solve(subs[0], env, idx) && Extends(v, env1);
      SolveSound(subs[0], env, idx, env1);
      SolveEachMember(subs[0], envs, idx, env1);
      forall i | 0 <= i < |subs[1..]| ensures Sat(subs[1..][i], v, FactsOf(idx), FactsOf(idx)) {
        assert Sat(subs[i + 1], v, FactsOf(idx), FactsOf(idx));
      }
      SolveAllComplete(subs[1..], SolveEach(subs[0], envs, idx), env1, idx, v);
    }
  }

  // ---------------------------------------------------------------------------------------
  // Why the discipline is needed
  // ---------------------------------------------------------------------------------------

  /**
   * An equation between two unbound variables succeeds without linking them, so that its answer
   * can be extended by valuations under which the equation is false.
   */
  lemma UnboundEquationUnlinked(e: SExpr, env: Env, idx: Index)
    requires OpOf(e) == Eq && |e.items| == 3 && ToTerm(e.items[1]).Var? && ToTerm(e.items[2]).Var?
    requires ToTerm(e.items[1]) != ToTerm(e.items[2])
    requires ToTerm(e.items[1]).name !in env && ToTerm(e.items[2]).name !in env
    ensures Solve(e, env, idx) == [env]
    ensures exists v :: Extends(v, env) && Vars(e) <= v.Keys && !Sat(e, v, FactsOf(idx), FactsOf(idx))
  {
    var v := env[ToTerm(e.items[1]).name := Int(0)][ToTerm(e.items[2]).name := Int(1)];
    assert Extends(v, env) && !Sat(e, v, FactsOf(idx), FactsOf(idx));
  }

  /** A body ends up unsound for its input exactly when `exists` quantifies over a bound name. */
  lemma ExistsKeepsInput(e: SExpr, env: Env, idx: Index)
    requires OpOf(e) == Exists && Solve(e, env, idx) != [] && ValidIndex(idx)
    requires WellModed(e.items[2], env.Keys)
    ensures Extends(Solve(e, env, idx)[0], env) <==> Quantified(e.items[1]) !! env.Keys
  {
    SolveSound(e.items[2], env, idx, Solve(e.items[2], env, idx)[0]);
    if x :| x in Quantified(e.items[1]) && x in env.Keys {
      assert x !in Solve(e, env, idx)[0];
    }
  }
}
