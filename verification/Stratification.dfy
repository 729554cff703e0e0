/** Assigning strata to predicates by repeated relaxation. */
module Stratification {
  import opened Solver
  import opened Basics

  type Strata = map<string, nat>

  const PASS_CAP: nat := 256

  function Heads(rules: seq<Rule>): set<string> {
    set r | r in rules :: r.headPred
  }

  function Weight(neg: bool): nat {
    if neg then 1 else 0
  }

  /** Raise the head's stratum to what one dependency needs; other predicates than heads need nothing. */
  function RelaxDep(s: Strata, h: string, d: Dep): (s': Strata)
    requires h in s
    ensures s'.Keys == s.Keys
  {
    if d.pred in s && s[h] < s[d.pred] + Weight(d.neg) then s[h := s[d.pred] + Weight(d.neg)] else s
  }

  function RelaxDeps(s: Strata, h: string, deps: seq<Dep>): (s': Strata)
    requires h in s
    ensures s'.Keys == s.Keys
    decreases |deps|
  {
    if deps == [] then s else RelaxDeps(RelaxDep(s, h, deps[0]), h, deps[1..])
  }

  /** One pass over the rules. */
  function Pass(s: Strata, rules: seq<Rule>): (s': Strata)
    requires Heads(rules) <= s.Keys
    ensures s'.Keys == s.Keys
    decreases |rules|
  {
    if rules == [] then s
    else
      assert rules[0].headPred in Heads(rules) && Heads(rules[1..]) <= Heads(rules);
      Pass(RelaxDeps(s, rules[0].headPred, Deps(rules[0].body)), rules[1..])
  }

  datatype Outcome = Outcome(strata: Strata, converged: bool)

  /** At most `n` passes, stopping after one that changes nothing. */
  function Passes(rules: seq<Rule>, s: Strata, n: nat): (o: Outcome)
    requires s.Keys == Heads(rules)
    ensures o.strata.Keys == Heads(rules)
    decreases n
  {
    if n == 0 then Outcome(s, false)
    else
      var s' := Pass(s, rules);
      if s' == s then Outcome(s, true) else Passes(rules, s', n - 1)
  }

  function Bottom(rules: seq<Rule>): Strata {
    map p | p in Heads(rules) :: 0
  }

  function StratifySpec(rules: seq<Rule>): Outcome {
    StratifyUpTo(rules, PASS_CAP)
  }

  function StratifyUpTo(rules: seq<Rule>, cap: nat): (o: Outcome)
    ensures o.strata.Keys == Heads(rules)
  {
    Passes(rules, Bottom(rules), cap)
  }

  // ---------------------------------------------------------------------------------------
  // Stratifications
  // ---------------------------------------------------------------------------------------

  ghost predicate RespectsDep(s: Strata, h: string, d: Dep)
    requires h in s
  {
    d.pred in s ==> s[d.pred] + Weight(d.neg) <= s[h]
  }

  ghost predicate Respects(s: Strata, rules: seq<Rule>)
    requires Heads(rules) <= s.Keys
  {
    forall r, d :: r in rules && d in Deps(r.body) ==>
      assert r.headPred in Heads(rules); RespectsDep(s, r.headPred, d)
  }

  /** Every rule's head lies no lower than what it reads, and above what it reads negatively. */
  ghost predicate IsStratification(s: Strata, rules: seq<Rule>) {
    s.Keys == Heads(rules) && Respects(s, rules)
  }

  ghost predicate Leq(a: Strata, b: Strata) {
    a.Keys == b.Keys && forall p :: p in a ==> a[p] <= b[p]
  }

  /** Below every stratification. */
  ghost predicate BelowAll(s: Strata, rules: seq<Rule>) {
    forall t :: IsStratification(t, rules) ==> Leq(s, t)
  }

  ghost predicate IsLeastStratification(s: Strata, rules: seq<Rule>) {
    IsStratification(s, rules) && BelowAll(s, rules)
  }

  ghost predicate Stratifiable(rules: seq<Rule>) {
    exists s :: IsStratification(s, rules)
  }

  // ---------------------------------------------------------------------------------------
  // One pass
  // ---------------------------------------------------------------------------------------

  lemma {:induction false} RelaxDepsGrows(s: Strata, h: string, deps: seq<Dep>)
    requires h in s
    ensures Leq(s, RelaxDeps(s, h, deps))
    decreases |deps|
  {
    if deps != [] { RelaxDepsGrows(RelaxDep(s, h, deps[0]), h, deps[1..]); }
  }

  /** A pass never lowers a stratum, and lifts each head to what its rule's dependencies needed before. */
  lemma {:induction false} PassLifts(s: Strata, rules: seq<Rule>)
    requires Heads(rules) <= s.Keys
    ensures Leq(s, Pass(s, rules))
    ensures forall r, d :: r in rules && d in Deps(r.body) && d.pred in s ==>
      assert r.headPred in Heads(rules); s[d.pred] + Weight(d.neg) <= Pass(s, rules)[r.headPred]
    decreases |rules|
  {
    if rules != [] {
      assert rules[0].headPred in Heads(rules) && Heads(rules[1..]) <= Heads(rules);
      var s1 := RelaxDeps(s, rules[0].headPred, Deps(rules[0].body));
      RelaxDepsGrows(s, rules[0].headPred, Deps(rules[0].body));
      RelaxDepsLifts(s, s, rules[0].headPred, Deps(rules[0].body));
      PassLifts(s1, rules[1..]);
    }
  }

  lemma {:induction false} RelaxDepsLifts(s0: Strata, s: Strata, h: string, deps: seq<Dep>)
    requires Leq(s0, s) && h in s
    ensures forall d :: d in deps && d.pred in s0 ==> s0[d.pred] + Weight(d.neg) <= RelaxDeps(s, h, deps)[h]
    decreases |deps|
  {
    if deps != [] {
      var s1 := RelaxDep(s, h, deps[0]);
      RelaxDepsLifts(s0, s1, h, deps[1..]);
      RelaxDepsGrows(s1, h, deps[1..]);
    }
  }

  lemma {:induction false} RelaxDepsBelow(s: Strata, t: Strata, h: string, deps: seq<Dep>)
    requires h in s && Leq(s, t)
    requires forall d :: d in deps ==> RespectsDep(t, h, d)
    ensures Leq(RelaxDeps(s, h, deps), t)
    decreases |deps|
  {
    if deps != [] {
      assert RespectsDep(t, h, deps[0]);
      RelaxDepsBelow(RelaxDep(s, h, deps[0]), t, h, deps[1..]);
    }
  }

  /** A pass stays below every stratification. */
  lemma {:induction false} PassBelow(s: Strata, t: Strata, rules: seq<Rule>)
    requires Heads(rules) <= s.Keys && Leq(s, t) && Respects(t, rules)
    ensures Leq(Pass(s, rules), t)
    decreases |rules|
  {
    if rules != [] {
      assert rules[0].headPred in Heads(rules) && Heads(rules[1..]) <= Heads(rules);
      RelaxDepsBelow(s, t, rules[0].headPred, Deps(rules[0].body));
      assert Respects(t, rules[1..]);
      PassBelow(RelaxDeps(s, rules[0].headPred, Deps(rules[0].body)), t, rules[1..]);
    }
  }

  /** The strata a pass leaves alone are exactly the stratifications. */
  lemma PassFixedIffRespects(s: Strata, rules: seq<Rule>)
    requires s.Keys == Heads(rules)
    ensures Pass(s, rules) == s <==> IsStratification(s, rules)
  {
    PassLifts(s, rules);
    if IsStratification(s, rules) { PassBelow(s, s, rules); }
  }

  // ---------------------------------------------------------------------------------------
  // Convergence
  // ---------------------------------------------------------------------------------------

  lemma PassBelowAll(s: Strata, rules: seq<Rule>)
    requires s.Keys == Heads(rules) && BelowAll(s, rules)
    ensures BelowAll(Pass(s, rules), rules)
  {
    forall t | IsStratification(t, rules) ensures Leq(Pass(s, rules), t) { PassBelow(s, t, rules); }
  }

  lemma {:induction false} PassesBelowAll(rules: seq<Rule>, s: Strata, n: nat)
    requires s.Keys == Heads(rules) && BelowAll(s, rules)
    ensures BelowAll(Passes(rules, s, n).strata, rules)
    decreases n
  {
    if n > 0 && Pass(s, rules) != s {
      PassBelowAll(s, rules);
      PassesStep(rules, s, n);
      PassesBelowAll(rules, Pass(s, rules), n - 1);
    }
  }

  lemma {:induction false} PassesFixed(rules: seq<Rule>, s: Strata, n: nat)
    requires s.Keys == Heads(rules)
    ensures var o := Passes(rules, s, n); o.converged ==> Pass(o.strata, rules) == o.strata
    decreases n
  {
    if n > 0 && Pass(s, rules) != s { PassesFixed(rules, Pass(s, rules), n - 1); }
  }

  /** What a converged run returns is the least stratification. */
  lemma PassesLeast(rules: seq<Rule>, s: Strata, n: nat)
    requires s.Keys == Heads(rules) && BelowAll(s, rules)
    ensures Passes(rules, s, n).converged ==> IsLeastStratification(Passes(rules, s, n).strata, rules)
  {
    PassesBelowAll(rules, s, n);
    PassesFixed(rules, s, n);
    PassFixedIffRespects(Passes(rules, s, n).strata, rules);
  }

  lemma PassesStep(rules: seq<Rule>, s: Strata, n: nat)
    requires s.Keys == Heads(rules) && n > 0 && Pass(s, rules) != s
    ensures Passes(rules, s, n) == Passes(rules, Pass(s, rules), n - 1)
  {
  }

  ghost function Sum(s: Strata, ps: seq<string>): nat
    requires forall p :: p in ps ==> p in s
  {
    if ps == [] then 0 else s[ps[0]] + Sum(s, ps[1..])
  }

  lemma {:induction false} SumStrict(a: Strata, b: Strata, ps: seq<string>, p: string)
    requires Leq(a, b) && forall q :: q in ps ==> q in a
    ensures Sum(a, ps) <= Sum(b, ps)
    ensures p in ps && a[p] < b[p] ==> Sum(a, ps) < Sum(b, ps)
  {
    if ps != [] { SumStrict(a, b, ps[1..], p); }
  }

  ghost predicate IsMinimal(s: Strata, rules: seq<Rule>) {
    IsStratification(s, rules) && forall t :: IsStratification(t, rules) && Leq(t, s) ==> t == s
  }

  lemma {:induction false} MinimalBelow(s: Strata, rules: seq<Rule>, order: seq<string>) returns (m: Strata)
    requires IsStratification(s, rules) && forall p :: p in Heads(rules) <==> p in order
    ensures IsMinimal(m, rules)
    decreases Sum(s, order)
  {
    if IsMinimal(s, rules) {
      m := s;
    } else {
      var t :| IsStratification(t, rules) && Leq(t, s) && t != s;
      var p :| p in t && t[p] < s[p];
      SumStrict(t, s, order, p);
      m := MinimalBelow(t, rules, order);
    }
  }

  ghost function Unsettled(s: Strata, m: Strata): set<string> {
    set p | p in s && p in m && s[p] < m[p]
  }

  /** Lowering every predicate in a set of heads by one, if that is possible. */
  ghost function Lower(m: Strata, ps: set<string>): Strata
    requires ps <= m.Keys && forall p :: p in ps ==> 0 < m[p]
  {
    map p | p in m :: if p in ps then m[p] - 1 else m[p]
  }

  /** Nothing settled in a pass: then what is unsettled could be lower. */
  lemma LowerRespects(s: Strata, m: Strata, rules: seq<Rule>)
    requires s.Keys == Heads(rules) && IsStratification(m, rules) && Leq(s, m)
    requires Unsettled(Pass(s, rules), m) == Unsettled(s, m)
    ensures IsStratification(Lower(m, Unsettled(s, m)), rules)
  {
    var t := Lower(m, Unsettled(s, m));
    PassLifts(s, rules);
    forall r, d | r in rules && d in Deps(r.body)
      ensures assert r.headPred in Heads(rules); RespectsDep(t, r.headPred, d)
    {
      assert r.headPred in Heads(rules);
      assert RespectsDep(m, r.headPred, d);
      if d.pred in s && r.headPred in Unsettled(s, m) && d.pred !in Unsettled(s, m) {
        assert s[d.pred] + Weight(d.neg) <= Pass(s, rules)[r.headPred];
        assert r.headPred in Unsettled(Pass(s, rules), m);
      }
    }
  }

  lemma LowerDiffers(m: Strata, ps: set<string>)
    requires ps != {} && ps <= m.Keys && forall p :: p in ps ==> 0 < m[p]
    ensures Leq(Lower(m, ps), m) && Lower(m, ps) != m
  {
    var p :| p in ps;
    assert Lower(m, ps)[p] != m[p];
  }

  /** While some predicate is below its final stratum, each pass settles another one. */
  lemma PassSettles(s: Strata, m: Strata, rules: seq<Rule>)
    requires s.Keys == Heads(rules) && IsMinimal(m, rules) && Leq(s, m)
    requires Unsettled(s, m) != {}
    ensures Leq(Pass(s, rules), m)
    ensures Unsettled(Pass(s, rules), m) < Unsettled(s, m)
  {
    PassBelow(s, m, rules);
    PassLifts(s, rules);
    assert Unsettled(Pass(s, rules), m) <= Unsettled(s, m);
    if Unsettled(Pass(s, rules), m) == Unsettled(s, m) {
      LowerRespects(s, m, rules);
      LowerDiffers(m, Unsettled(s, m));
    }
  }

  lemma AllSettled(s: Strata, m: Strata)
    requires Leq(s, m) && Unsettled(s, m) == {}
    ensures s == m
  {
    forall p | p in s ensures s[p] == m[p] { assert p !in Unsettled(s, m); }
  }

  lemma LeqChain(a: Strata, b: Strata, c: Strata)
    requires Leq(a, b) && Leq(b, c)
    ensures Leq(a, c)
    ensures a == c ==> a == b == c
  {
  }

  lemma FixedPasses(rules: seq<Rule>, s: Strata, n: nat)
    requires s.Keys == Heads(rules) && Pass(s, rules) == s
    ensures Passes(rules, s, n) == Outcome(s, n > 0)
  {
  }

  /** So many passes from `s` end with `m`, and with more the last one changes nothing. */
  ghost predicate Arrives(rules: seq<Rule>, s: Strata, m: Strata, n: nat)
    requires s.Keys == Heads(rules)
  {
    Passes(rules, s, n).strata == m && (|Unsettled(s, m)| < n ==> Passes(rules, s, n).converged)
  }

  /** A pass over strata below `m` changes nothing if they are `m`, and otherwise settles a predicate. */
  ghost predicate Approaches(s: Strata, m: Strata, rules: seq<Rule>) {
    s.Keys == Heads(rules) && Leq(s, m) ==>
      var s1 := Pass(s, rules);
      if Unsettled(s, m) == {} then s == m == s1 else Leq(s1, m) && |Unsettled(s1, m)| < |Unsettled(s, m)|
  }

  ghost predicate Attracts(m: Strata, rules: seq<Rule>) {
    forall s: Strata :: Approaches(s, m, rules)
  }

  lemma MinimalAttracts(m: Strata, rules: seq<Rule>)
    requires IsMinimal(m, rules)
    ensures Attracts(m, rules)
  {
    forall s: Strata ensures Approaches(s, m, rules) {
      if s.Keys == Heads(rules) && Leq(s, m) {
        if Unsettled(s, m) == {} {
          AllSettled(s, m);
          PassFixedIffRespects(s, rules);
        } else {
          PassSettles(s, m, rules);
          SubsetSmaller(Unsettled(Pass(s, rules), m), Unsettled(s, m));
        }
      }
    }
  }

  lemma {:induction false} PassesConverge(rules: seq<Rule>, s: Strata, m: Strata, n: nat)
    requires s.Keys == Heads(rules) && Attracts(m, rules) && Leq(s, m) && |Unsettled(s, m)| <= n
    ensures Arrives(rules, s, m, n)
    decreases n
  {
    assert Approaches(s, m, rules);
    if Unsettled(s, m) == {} {
      FixedPasses(rules, s, n);
    } else {
      PassesConverge(rules, Pass(s, rules), m, n - 1);
      PassesStep(rules, s, n);
    }
  }

  /** Some head of a minimal stratification has stratum zero. */
  lemma FewerUnsettledThanHeads(rules: seq<Rule>, m: Strata)
    requires IsMinimal(m, rules) && rules != []
    ensures |Unsettled(Bottom(rules), m)| < |Heads(rules)|
  {
    assert rules[0].headPred in Heads(rules);
    if Unsettled(Bottom(rules), m) == Heads(rules) {
      var t := Lower(m, m.Keys);
      forall r, d | r in rules && d in Deps(r.body)
        ensures assert r.headPred in Heads(rules); RespectsDep(t, r.headPred, d)
      {
        assert r.headPred in Heads(rules);
        assert RespectsDep(m, r.headPred, d);
      }
      assert IsStratification(t, rules) && Leq(t, m);
    }
    SubsetSmaller(Unsettled(Bottom(rules), m), Heads(rules));
  }

  lemma UpToLeast(rules: seq<Rule>, cap: nat)
    ensures StratifyUpTo(rules, cap).converged ==> IsLeastStratification(StratifyUpTo(rules, cap).strata, rules)
  {
    PassesLeast(rules, Bottom(rules), cap);
  }

  lemma UpToConverges(rules: seq<Rule>, cap: nat)
    requires Stratifiable(rules) && |Heads(rules)| <= cap + 1
    ensures |Heads(rules)| <= cap && 0 < cap ==> StratifyUpTo(rules, cap).converged
    ensures IsLeastStratification(StratifyUpTo(rules, cap).strata, rules)
  {
    var s :| IsStratification(s, rules);
    var order := Enumerate(Heads(rules));
    var m := MinimalBelow(s, rules, order);
    if rules != [] {
      FewerUnsettledThanHeads(rules, m);
    } else {
      assert Unsettled(Bottom(rules), m) == {} && Bottom(rules) == m;
    }
    MinimalAttracts(m, rules);
    PassesConverge(rules, Bottom(rules), m, cap);
    PassesBelowAll(rules, Bottom(rules), cap);
  }

  /** A converged run returns the least stratification, whatever the number of predicates. */
  lemma StratifyLeast(rules: seq<Rule>)
    requires StratifySpec(rules).converged
    ensures IsLeastStratification(StratifySpec(rules).strata, rules)
  {
    UpToLeast(rules, PASS_CAP);
  }

  /**
   * With a stratification to be found, 256 head predicates are few enough for the run to end with
   * a pass that changes nothing, and 257 are few enough for it to end with the right strata.
   */
  lemma StratifyConverges(rules: seq<Rule>)
    requires Stratifiable(rules)
    ensures |Heads(rules)| <= PASS_CAP ==> StratifySpec(rules).converged
    ensures |Heads(rules)| <= PASS_CAP + 1 ==> IsLeastStratification(StratifySpec(rules).strata, rules)
  {
    if |Heads(rules)| <= PASS_CAP + 1 { UpToConverges(rules, PASS_CAP); }
  }

  /** The least stratification depends on the set of rules only. */
  lemma LeastStratificationUnique(rules: seq<Rule>, rules': seq<Rule>, s: Strata, s': Strata)
    requires forall r :: r in rules <==> r in rules'
    requires IsLeastStratification(s, rules) && IsLeastStratification(s', rules')
    ensures s == s'
  {
    assert IsStratification(s, rules') && IsStratification(s', rules) by {
      assert forall p :: p in Heads(rules) <==> p in Heads(rules');
    }
    assert Leq(s, s') && Leq(s', s);
  }

  // ---------------------------------------------------------------------------------------
  // Cycles through negation
  // ---------------------------------------------------------------------------------------

  /** Predicate `head` has a rule that reads the head predicate `pred`. */
  datatype Edge = Edge(head: string, pred: string, neg: bool)

  ghost predicate IsEdge(e: Edge, rules: seq<Rule>) {
    e.pred in Heads(rules) &&
    exists r :: r in rules && r.headPred == e.head && Dep(e.pred, e.neg) in Deps(r.body)
  }

  ghost predicate IsPath(path: seq<Edge>, rules: seq<Rule>) {
    && path != []
    && (forall i :: 0 <= i < |path| ==> IsEdge(path[i], rules))
    && (forall i :: 0 < i < |path| ==> Meets(path, i))
  }

  ghost predicate Meets(path: seq<Edge>, i: nat)
    requires 0 < i < |path|
  {
    path[i - 1].pred == path[i].head
  }

  /** A path between the two predicates with a negative edge on it. */
  ghost predicate NegPath(path: seq<Edge>, from: string, to: string, rules: seq<Rule>) {
    && IsPath(path, rules)
    && path[0].head == from
    && path[|path| - 1].pred == to
    && exists i :: 0 <= i < |path| && path[i].neg
  }

  ghost predicate CycleThroughNegation(rules: seq<Rule>) {
    exists path, p :: NegPath(path, p, p, rules)
  }

  lemma EdgeDescends(e: Edge, rules: seq<Rule>, s: Strata)
    requires IsEdge(e, rules) && IsStratification(s, rules)
    ensures e.head in s && e.pred in s && s[e.pred] + Weight(e.neg) <= s[e.head]
  {
    var r :| r in rules && r.headPred == e.head && Dep(e.pred, e.neg) in Deps(r.body);
    assert r.headPred in Heads(rules);
    assert RespectsDep(s, r.headPred, Dep(e.pred, e.neg));
  }

  /** Strata never rise along a path. */
  lemma {:induction false} PathDescends(path: seq<Edge>, rules: seq<Rule>, s: Strata, i: nat, j: nat)
    requires IsPath(path, rules) && IsStratification(s, rules) && i <= j < |path|
    ensures path[i].head in s && path[j].head in s && s[path[j].head] <= s[path[i].head]
    decreases j
  {
    EdgeDescends(path[j], rules, s);
    if i < j {
      PathDescends(path, rules, s, i, j - 1);
      EdgeDescends(path[j - 1], rules, s);
      assert Meets(path, j);
    }
  }

  /** They fall where there is a negation. */
  lemma PathFalls(path: seq<Edge>, rules: seq<Rule>, s: Strata, i: nat)
    requires IsPath(path, rules) && IsStratification(s, rules) && i < |path| && path[i].neg
    ensures path[0].head in s && path[|path| - 1].pred in s
    ensures s[path[|path| - 1].pred] < s[path[0].head]
  {
    var n := |path| - 1;
    PathDescends(path, rules, s, 0, i);
    EdgeDescends(path[i], rules, s);
    EdgeDescends(path[n], rules, s);
    if i < n {
      assert Meets(path, i + 1);
      PathDescends(path, rules, s, i + 1, n);
    }
  }

  /** The predicates that a head depends on through some negation. */
  ghost function NegBelow(h: string, rules: seq<Rule>): set<string> {
    set q | q in Heads(rules) && exists path :: NegPath(path, h, q, rules)
  }

  lemma NegPathExtends(e: Edge, path: seq<Edge>, to: string, rules: seq<Rule>)
    requires IsEdge(e, rules) && NegPath(path, e.pred, to, rules)
    ensures NegPath([e] + path, e.head, to, rules)
  {
    var longer := [e] + path;
    PathExtends(e, path, rules);
    assert longer[|longer| - 1] == path[|path| - 1];
    var i :| 0 <= i < |path| && path[i].neg;
    assert longer[i + 1] == path[i];
  }

  lemma PathExtends(e: Edge, path: seq<Edge>, rules: seq<Rule>)
    requires IsEdge(e, rules) && IsPath(path, rules) && path[0].head == e.pred
    ensures IsPath([e] + path, rules)
  {
    var longer := [e] + path;
    forall i | 0 < i < |longer| ensures Meets(longer, i) { if i > 1 { assert Meets(path, i - 1); } }
  }

  lemma NegBelowGrows(e: Edge, rules: seq<Rule>)
    requires IsEdge(e, rules)
    ensures NegBelow(e.pred, rules) <= NegBelow(e.head, rules)
    ensures e.neg ==> e.pred in NegBelow(e.head, rules)
  {
    forall q | q in NegBelow(e.pred, rules) ensures q in NegBelow(e.head, rules) {
      var path: seq<Edge> :| NegPath(path, e.pred, q, rules);
      NegPathExtends(e, path, q, rules);
    }
    if e.neg {
      assert [e][0].neg;
      assert NegPath([e], e.head, e.pred, rules);
    }
  }

  /** A stratification exists exactly when no cycle passes through negation. */
  lemma StratifiableIffNoCycle(rules: seq<Rule>)
    ensures Stratifiable(rules) <==> !CycleThroughNegation(rules)
  {
    if Stratifiable(rules) {
      var s :| IsStratification(s, rules);
      forall path: seq<Edge>, p | NegPath(path, p, p, rules) ensures false {
        var i :| 0 <= i < |path| && path[i].neg;
        PathFalls(path, rules, s, i);
      }
    }
    if !CycleThroughNegation(rules) {
      var s: Strata := map h | h in Heads(rules) :: |NegBelow(h, rules)|;
      forall r, d | r in rules && d in Deps(r.body)
        ensures assert r.headPred in Heads(rules); RespectsDep(s, r.headPred, d)
      {
        assert r.headPred in Heads(rules);
        if d.pred in Heads(rules) {
          var e := Edge(r.headPred, d.pred, d.neg);
          assert IsEdge(e, rules);
          NegBelowGrows(e, rules);
          if d.neg {
            assert d.pred !in NegBelow(d.pred, rules);
            SubsetSmaller(NegBelow(d.pred, rules), NegBelow(r.headPred, rules));
          } else {
            SubsetAtMost(NegBelow(d.pred, rules), NegBelow(r.headPred, rules));
          }
        }
      }
      assert IsStratification(s, rules);
    }
  }

  /** With at most 256 head predicates the no-change exit is reached exactly without such a cycle. */
  lemma StratifyExact(rules: seq<Rule>)
    ensures StratifySpec(rules).converged ==> !CycleThroughNegation(rules)
    ensures |Heads(rules)| <= PASS_CAP && !CycleThroughNegation(rules) ==> StratifySpec(rules).converged
  {
    StratifiableIffNoCycle(rules);
    if StratifySpec(rules).converged {
      StratifyLeast(rules);
    } else if Stratifiable(rules) {
      StratifyConverges(rules);
    }
  }

  // ---------------------------------------------------------------------------------------
  // The loops
  // ---------------------------------------------------------------------------------------

  method Stratify(rules: seq<Rule>) returns (s: Strata, ghost converged: bool)
    ensures s == StratifySpec(rules).strata && converged == StratifySpec(rules).converged
  {
    s, converged := StratifyWithin(rules, PASS_CAP);
  }

  method StratifyWithin(rules: seq<Rule>, cap: nat) returns (s: Strata, ghost converged: bool)
    ensures Outcome(s, converged) == StratifyUpTo(rules, cap)
  {
    s, converged := Bottom(rules), false;
    ghost var outcome := Passes(rules, s, cap);
    for pass := 0 to cap
      invariant s.Keys == Heads(rules) && !converged
      invariant outcome == Passes(rules, s, cap - pass)
    {
      var s', changed := StratifyPass(rules, s);
      s := s';
      if !changed {
        return s, true;
      }
    }
  }

  lemma PassUnfolds(s: Strata, rules: seq<Rule>, i: nat)
    requires i < |rules| && Heads(rules[i..]) <= s.Keys
    ensures rules[i].headPred in s && Heads(rules[i + 1..]) <= s.Keys
    ensures Pass(s, rules[i..]) == Pass(RelaxDeps(s, rules[i].headPred, Deps(rules[i].body)), rules[i + 1..])
  {
  }

  method StratifyPass(rules: seq<Rule>, s0: Strata) returns (s: Strata, changed: bool)
    requires s0.Keys == Heads(rules)
    ensures s == Pass(s0, rules) && changed == (s != s0)
  {
    s, changed := s0, false;
    assert rules[0..] == rules;
    for i := 0 to |rules|
      invariant Leq(s0, s) && Heads(rules[i..]) <= s.Keys
      invariant Pass(s0, rules) == Pass(s, rules[i..])
      invariant changed <==> s != s0
    {
      PassUnfolds(s, rules, i);
      RelaxDepsGrows(s, rules[i].headPred, Deps(rules[i].body));
      var s', lifted := RelaxRule(rules[i].headPred, Deps(rules[i].body), s);
      LeqChain(s0, s, s');
      s, changed := s', changed || lifted;
    }
  }

  /** The head's stratum is as it was, or raised. */
  ghost predicate Relaxed(s0: Strata, s: Strata, h: string, changed: bool) {
    s.Keys == s0.Keys && h in s && if changed then s0[h] < s[h] else s == s0
  }

  lemma RelaxedThen(s0: Strata, s1: Strata, s2: Strata, h: string, first: bool, second: bool)
    requires Relaxed(s0, s1, h, first) && Relaxed(s1, s2, h, second)
    ensures Relaxed(s0, s2, h, first || second)
  {
  }

  lemma RelaxDepsFirst(s: Strata, h: string, deps: seq<Dep>, j: nat)
    requires h in s && j < |deps|
    ensures RelaxDeps(s, h, deps[j..]) == RelaxDeps(RelaxDep(s, h, deps[j]), h, deps[j + 1..])
  {
    assert deps[j..][1..] == deps[j + 1..] && deps[j..][0] == deps[j];
  }

  method RelaxRule(h: string, deps: seq<Dep>, s0: Strata) returns (s: Strata, changed: bool)
    requires h in s0
    ensures s == RelaxDeps(s0, h, deps) && changed == (s != s0)
  {
    s, changed := s0, false;
    assert deps[0..] == deps;
    for j := 0 to |deps|
      invariant Relaxed(s0, s, h, changed) && RelaxDeps(s0, h, deps) == RelaxDeps(s, h, deps[j..])
    {
      RelaxDepsFirst(s, h, deps, j);
      var s', lifted := RelaxOne(h, deps[j], s);
      RelaxedThen(s0, s, s', h, changed, lifted);
      s, changed := s', changed || lifted;
    }
  }

  method RelaxOne(h: string, d: Dep, s0: Strata) returns (s: Strata, changed: bool)
    requires h in s0
    ensures s == RelaxDep(s0, h, d) && Relaxed(s0, s, h, changed)
  {
    s, changed := s0, false;
    if d.pred in s {
      var need := s[d.pred] + if d.neg then 1 else 0;
      if s[h] < need {
        s, changed := s[h := need], true;
      }
    }
  }
}
