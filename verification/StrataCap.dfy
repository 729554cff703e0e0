/** The pass cap of the stratifier is tight: past 257 head predicates it can stop too early. */
module StrataCap {
  import opened SExprs
  import opened Solver
  import opened Stratification

  // ---------------------------------------------------------------------------------------
  // Chains of negations
  // ---------------------------------------------------------------------------------------

  ghost predicate Distinct(names: seq<string>) {
    forall i, j :: 0 <= i < j < |names| ==> names[i] != names[j]
  }

  function DepsAt(names: seq<string>, i: nat): seq<Dep>
    requires i < |names|
  {
    if i == 0 then [] else [Dep(names[i - 1], true)]
  }

  ghost predicate LinkAt(rules: seq<Rule>, names: seq<string>, i: nat)
    requires |rules| == |names| && i < |names|
  {
    var r := rules[|names| - 1 - i];
    r.headPred == names[i] && Deps(r.body) == DepsAt(names, i)
  }

  /** Each name is the negation of the one before; the rule of the last comes first, the least favourable order. */
  ghost predicate IsChain(rules: seq<Rule>, names: seq<string>) {
    |rules| == |names| && forall i :: 0 <= i < |names| ==> LinkAt(rules, names, i)
  }

  function Min(a: nat, b: nat): nat {
    if a < b then a else b
  }

  /** All names have their final strata, cut off at `k`. */
  ghost predicate CutOff(s: Strata, names: seq<string>, k: nat) {
    forall i :: 0 <= i < |names| ==> names[i] in s && s[names[i]] == Min(i, k)
  }

  lemma ChainHeads(rules: seq<Rule>, names: seq<string>)
    requires IsChain(rules, names)
    ensures forall p :: p in Heads(rules) <==> p in names
  {
    forall p ensures p in Heads(rules) <==> p in names {
      if p in Heads(rules) {
        var i :| 0 <= i < |rules| && rules[i].headPred == p;
        assert LinkAt(rules, names, |names| - 1 - i);
      }
      if p in names {
        var i :| 0 <= i < |names| && names[i] == p;
        assert LinkAt(rules, names, i) && rules[|names| - 1 - i] in rules;
      }
    }
  }

  lemma ChainTail(rules: seq<Rule>, names: seq<string>)
    requires IsChain(rules, names) && Distinct(names) && names != []
    ensures var n := |names| - 1; IsChain(rules[1..], names[..n]) && names[n] !in Heads(rules[1..])
  {
    var n := |names| - 1;
    forall i | 0 <= i < n ensures LinkAt(rules[1..], names[..n], i) { assert LinkAt(rules, names, i); }
    ChainHeads(rules[1..], names[..n]);
  }

  lemma {:induction false} RelaxDepsOnly(s: Strata, h: string, deps: seq<Dep>, p: string)
    requires h in s && p in s && p != h
    ensures RelaxDeps(s, h, deps)[p] == s[p]
    decreases |deps|
  {
    if deps != [] { RelaxDepsOnly(RelaxDep(s, h, deps[0]), h, deps[1..], p); }
  }

  /** A pass leaves alone what no rule is about. */
  lemma {:induction false} PassOnly(s: Strata, rules: seq<Rule>, p: string)
    requires Heads(rules) <= s.Keys && p in s && p !in Heads(rules)
    ensures Pass(s, rules)[p] == s[p]
    decreases |rules|
  {
    if rules != [] {
      var h := rules[0].headPred;
      assert h in Heads(rules) && Heads(rules[1..]) <= Heads(rules);
      RelaxDepsOnly(s, h, Deps(rules[0].body), p);
      PassOnly(RelaxDeps(s, h, Deps(rules[0].body)), rules[1..], p);
    }
  }

  /** The first rule of a chain moves its own name up to the cut behind the next pass. */
  lemma RelaxLast(s: Strata, names: seq<string>, k: nat)
    requires names != [] && Distinct(names) && CutOff(s, names, k)
    ensures var n := |names| - 1; names[n] in s && RelaxDeps(s, names[n], DepsAt(names, n)) == s[names[n] := Min(n, k + 1)]
  {
    var n := |names| - 1;
    assert s[names[n]] == Min(n, k);
    if n > 0 {
      var d := Dep(names[n - 1], true);
      assert s[names[n - 1]] == Min(n - 1, k);
      assert RelaxDeps(s, names[n], [d]) == RelaxDeps(RelaxDep(s, names[n], d), names[n], []);
    }
  }

  lemma PassFirst(s: Strata, rules: seq<Rule>)
    requires rules != [] && Heads(rules) <= s.Keys
    ensures rules[0].headPred in s && Heads(rules[1..]) <= s.Keys
    ensures Pass(s, rules) == Pass(RelaxDeps(s, rules[0].headPred, Deps(rules[0].body)), rules[1..])
  {
    assert rules[0].headPred in Heads(rules) && Heads(rules[1..]) <= Heads(rules);
  }

  /** A pass moves the cut up by one only, since every rule is relaxed before the one it reads. */
  lemma {:induction false} PassOnChain(s: Strata, rules: seq<Rule>, names: seq<string>, k: nat)
    requires IsChain(rules, names) && Distinct(names)
    requires CutOff(s, names, k) && Heads(rules) <= s.Keys
    ensures CutOff(Pass(s, rules), names, k + 1)
    decreases |rules|
  {
    if names != [] {
      var n := |names| - 1;
      assert LinkAt(rules, names, n);
      RelaxLast(s, names, k);
      PassFirst(s, rules);
      ChainTail(rules, names);
      var s1 := s[names[n] := Min(n, k + 1)];
      BelowLast(s, names, k, Min(n, k + 1));
      PassOnChain(s1, rules[1..], names[..n], k);
      PassOnly(s1, rules[1..], names[n]);
      WithLast(Pass(s1, rules[1..]), names, k + 1);
    }
  }

  lemma BelowLast(s: Strata, names: seq<string>, k: nat, x: nat)
    requires names != [] && Distinct(names) && CutOff(s, names, k)
    ensures CutOff(s[names[|names| - 1] := x], names[..|names| - 1], k)
  {
  }

  lemma WithLast(s: Strata, names: seq<string>, k: nat)
    requires names != [] && CutOff(s, names[..|names| - 1], k)
    requires names[|names| - 1] in s && s[names[|names| - 1]] == Min(|names| - 1, k)
    ensures CutOff(s, names, k)
  {
    forall i | 0 <= i < |names| ensures names[i] in s && s[names[i]] == Min(i, k) {
      if i < |names| - 1 { assert names[..|names| - 1][i] == names[i]; }
    }
  }

  lemma CutsDiffer(s: Strata, s': Strata, names: seq<string>, k: nat)
    requires CutOff(s, names, k) && CutOff(s', names, k + 1) && k + 1 < |names|
    ensures s != s'
  {
    assert s'[names[k + 1]] == Min(k + 1, k + 1) && s[names[k + 1]] == Min(k + 1, k);
  }

  lemma {:induction false} PassesOnChain(s: Strata, rules: seq<Rule>, names: seq<string>, k: nat, n: nat)
    requires IsChain(rules, names) && Distinct(names)
    requires s.Keys == Heads(rules) && CutOff(s, names, k) && k + n < |names|
    ensures CutOff(Passes(rules, s, n).strata, names, k + n) && !Passes(rules, s, n).converged
    decreases n
  {
    if n > 0 {
      var s1 := Pass(s, rules);
      PassOnChain(s, rules, names, k);
      CutsDiffer(s, s1, names, k);
      PassesStep(rules, s, n);
      PassesOnChain(s1, rules, names, k + 1, n - 1);
    }
  }

  /** Cut strata are a stratification exactly if nothing is cut off. */
  lemma CutIsStratification(s: Strata, rules: seq<Rule>, names: seq<string>, k: nat)
    requires IsChain(rules, names) && names != [] && s.Keys == Heads(rules) && CutOff(s, names, k)
    ensures IsStratification(s, rules) <==> |names| - 1 <= k
  {
    var n := |names| - 1;
    if k < n {
      assert LinkAt(rules, names, k + 1);
      var r := rules[n - (k + 1)];
      assert r in rules && Dep(names[k], true) in Deps(r.body) && s[names[k]] == Min(k, k);
      assert !RespectsDep(s, r.headPred, Dep(names[k], true));
    } else {
      forall r, d | r in rules && d in Deps(r.body)
        ensures assert r.headPred in Heads(rules); RespectsDep(s, r.headPred, d)
      {
        assert r.headPred in Heads(rules);
        var j :| 0 <= j < |rules| && rules[j] == r;
        var i := n - j;
        assert LinkAt(rules, names, i) && s[names[i]] == Min(i, k);
        if i > 0 { assert d == Dep(names[i - 1], true) && s[names[i - 1]] == Min(i - 1, k); }
      }
    }
  }

  // ---------------------------------------------------------------------------------------
  // A chain of any length
  // ---------------------------------------------------------------------------------------

  function Name(i: nat): string {
    seq(i + 1, _ => 'z')
  }

  function Names(n: nat): seq<string> {
    seq(n, i requires 0 <= i < n => Name(i))
  }

  /** Predicate `i` is the negation of predicate `i - 1`. */
  function ChainRule(i: nat): Rule {
    Rule(Name(i), [],
         if i == 0 then List([]) else List([Sym("not"), List([Sym(Name(i - 1))])]))
  }

  function Chain(n: nat): seq<Rule> {
    seq(n, i requires 0 <= i < n => ChainRule(n - 1 - i))
  }

  lemma NameDistinct(i: nat, j: nat)
    requires i != j
    ensures Name(i) != Name(j)
  {
    assert |Name(i)| == i + 1 && |Name(j)| == j + 1;
  }

  lemma ChainRuleDeps(i: nat)
    ensures Deps(ChainRule(i).body) == if i == 0 then [] else [Dep(Name(i - 1), true)]
  {
    if i > 0 {
      var inner := ChainRule(i).body.items[1];
      assert Name(i - 1)[0] == 'z';
      assert OpOf(inner) == Call(Name(i - 1));
      assert Deps(inner, true) == [Dep(Name(i - 1), true)];
    }
  }

  lemma ChainIsChain(n: nat)
    ensures IsChain(Chain(n), Names(n)) && Distinct(Names(n))
  {
    forall i | 0 <= i < n ensures LinkAt(Chain(n), Names(n), i) { ChainRuleDeps(i); }
    forall i, j | 0 <= i < j < n ensures Names(n)[i] != Names(n)[j] { NameDistinct(i, j); }
  }

  lemma {:induction false} DistinctSize(names: seq<string>)
    requires Distinct(names)
    ensures |set x | x in names| == |names|
  {
    if names != [] {
      var n := |names| - 1;
      DistinctSize(names[..n]);
      assert names[n] !in names[..n];
      assert names == names[..n] + [names[n]];
      assert (set x | x in names) == (set x | x in names[..n]) + {names[n]};
    }
  }

  /** The strata that the names have in the end. */
  function Levels(names: seq<string>): Strata {
    if names == [] then map[] else Levels(names[..|names| - 1])[names[|names| - 1] := |names| - 1]
  }

  lemma {:induction false} LevelsAre(names: seq<string>)
    requires Distinct(names)
    ensures CutOff(Levels(names), names, |names|)
    ensures forall p :: p in Levels(names) <==> p in names
  {
    if names != [] {
      var n := |names| - 1;
      LevelsAre(names[..n]);
      assert names == names[..n] + [names[n]];
      forall i | 0 <= i < |names| ensures names[i] in Levels(names) && Levels(names)[names[i]] == Min(i, |names|) {
        if i < n { assert names[..n][i] == names[i]; }
      }
    }
  }

  /** A chain longer than the cap: the passes end before one changes nothing, and, if longer still, too early. */
  lemma ChainOutruns(n: nat, cap: nat)
    requires n > cap
    ensures |Heads(Chain(n))| == n && Stratifiable(Chain(n))
    ensures !StratifyUpTo(Chain(n), cap).converged
    ensures n > cap + 1 ==> !IsStratification(StratifyUpTo(Chain(n), cap).strata, Chain(n))
  {
    var rules, names := Chain(n), Names(n);
    ChainIsChain(n);
    ChainStratifiable(rules, names);
    assert CutOff(Bottom(rules), names, 0);
    PassesOnChain(Bottom(rules), rules, names, 0, cap);
    CutIsStratification(StratifyUpTo(rules, cap).strata, rules, names, cap);
  }

  lemma ChainStratifiable(rules: seq<Rule>, names: seq<string>)
    requires IsChain(rules, names) && Distinct(names) && names != []
    ensures |Heads(rules)| == |names| && Stratifiable(rules)
    ensures CutOff(Bottom(rules), names, 0)
  {
    ChainHeads(rules, names);
    DistinctSize(names);
    assert Heads(rules) == set x | x in names;
    LevelsAre(names);
    assert Levels(names).Keys == Heads(rules);
    CutIsStratification(Levels(names), rules, names, |names|);
  }

  // ---------------------------------------------------------------------------------------
  // What a cap is enough for
  // ---------------------------------------------------------------------------------------

  /** The stratifier gets all stratifiable rules with this many head predicates right. */
  ghost predicate CapSuffices(cap: nat, n: nat) {
    forall rules :: |Heads(rules)| == n && Stratifiable(rules) ==> IsLeastStratification(StratifyUpTo(rules, cap).strata, rules)
  }

  /** It also ends with a pass that changes nothing. */
  ghost predicate CapConverges(cap: nat, n: nat) {
    forall rules :: |Heads(rules)| == n && Stratifiable(rules) ==> StratifyUpTo(rules, cap).converged
  }

  /**
   * A cap is enough for as many head predicates and one more, and no others; it lets a pass change
   * nothing for as many.  With the stratifier's own cap these are 257 and 256.
   */
  lemma CapSufficesIff(cap: nat, n: nat)
    ensures CapSuffices(cap, n) <==> n <= cap + 1
    ensures cap > 0 ==> (CapConverges(cap, n) <==> n <= cap)
  {
    forall rules | |Heads(rules)| == n <= cap + 1 && Stratifiable(rules)
      ensures IsLeastStratification(StratifyUpTo(rules, cap).strata, rules)
      ensures n <= cap && cap > 0 ==> StratifyUpTo(rules, cap).converged
    {
      UpToConverges(rules, cap);
    }
    if n > cap { ChainOutruns(n, cap); }
  }
}
