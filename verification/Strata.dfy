/** What a completed evaluation, stratum after stratum, has computed. */
module StrataRuns {
  import opened Solver
  import opened Semantics
  import opened Stratification
  import opened Derivation

  /** The rules whose head lies in stratum `k`, in program order. */
  function RulesAt(rules: seq<Rule>, s: Strata, k: nat): (rs: seq<Rule>)
    ensures forall r :: r in rs <==> r in rules && r.headPred in s && s[r.headPred] == k
  {
    if rules == [] then []
    else
      (if rules[0].headPred in s && s[rules[0].headPred] == k then [rules[0]] else []) +
      RulesAt(rules[1..], s, k)
  }

  ghost predicate Ascending(ks: seq<nat>) {
    forall i, j :: 0 <= i < j < |ks| ==> ks[i] < ks[j]
  }

  /** The strata that have rules, lowest first. */
  ghost predicate IsSchedule(ks: seq<nat>, rules: seq<Rule>, s: Strata) {
    Ascending(ks) && forall k :: k in ks <==> exists r :: r in rules && r.headPred in s && s[r.headPred] == k
  }

  /** Stratum by stratum the rules run until none yields anything new; this leads from `a` to `b`. */
  ghost predicate Computes(rules: seq<Rule>, s: Strata, ks: seq<nat>, a: Index, b: Index) {
    if ks == [] then a == b
    else exists m ::
      && Reaches(RulesAt(rules, s, ks[0]), a, m)
      && AllClosed(RulesAt(rules, s, ks[0]), m)
      && Computes(rules, s, ks[1..], m, b)
  }

  /** A run through all strata, each left only when none of its rules yielded anything new. */
  ghost predicate FullRun(rules: seq<Rule>, a: Index, b: Index) {
    exists ks ::
      IsSchedule(ks, rules, StratifySpec(rules).strata) && Computes(rules, StratifySpec(rules).strata, ks, a, b)
  }

  /** The heads whose strata are scheduled. */
  ghost function HeadsIn(rules: seq<Rule>, s: Strata, ks: seq<nat>): set<string> {
    set r | r in rules && r.headPred in s && s[r.headPred] in ks :: r.headPred
  }

  /** Only the scheduled strata change. */
  lemma {:induction false} ComputesGrows(rules: seq<Rule>, s: Strata, ks: seq<nat>, a: Index, b: Index)
    requires ValidIndex(a) && Computes(rules, s, ks, a, b)
    ensures GrowsOn(HeadsIn(rules, s, ks), a, b)
  {
    if ks != [] {
      var rs := RulesAt(rules, s, ks[0]);
      var m :| Reaches(rs, a, m) && Computes(rules, s, ks[1..], m, b);
      ReachesGrows(rs, a, m);
      ComputesGrows(rules, s, ks[1..], m, b);
      forall p | p in RuleHeads(rs) + HeadsIn(rules, s, ks[1..]) ensures p in HeadsIn(rules, s, ks) {
        if p in RuleHeads(rs) {
          var r :| r in rs && r.headPred == p;
          assert s[r.headPred] in ks;
        } else {
          var r :| r in rules && r.headPred == p && r.headPred in s && s[r.headPred] in ks[1..];
          assert s[r.headPred] in ks;
        }
      }
    }
  }

  lemma {:induction false} ComputesReaches(rules: seq<Rule>, s: Strata, ks: seq<nat>, a: Index, b: Index)
    requires Computes(rules, s, ks, a, b)
    ensures Reaches(rules, a, b)
  {
    ReachesSelf(rules, a);
    if ks != [] {
      var rs := RulesAt(rules, s, ks[0]);
      var m :| Reaches(rs, a, m) && Computes(rules, s, ks[1..], m, b);
      ReachesCompose(rs, rules, a, a, m);
      ComputesReaches(rules, s, ks[1..], m, b);
      ReachesCompose(rules, rules, a, m, b);
    }
  }

  // ---------------------------------------------------------------------------------------
  // Closure under every rule
  // ---------------------------------------------------------------------------------------

  /** A rule that was closed stays closed while the predicates its body reads keep their lists. */
  lemma ClosedPersists(r: Rule, a: Index, b: Index)
    requires Closed(r, a) && FactsOf(a) <= FactsOf(b) && SameOn(Deps(r.body), a, b)
    ensures Closed(r, b)
  {
    forall f | Derivable(r, b, f) ensures f in FactsOf(b) {
      SolveReadsOnlyDeps(r.body, false, map[], a, b);
      assert Derivable(r, a, f);
    }
  }

  /** Strata above a rule's own define nothing that the rule reads. */
  lemma LaterStrataUnread(rules: seq<Rule>, s: Strata, r: Rule, ks: seq<nat>)
    requires IsStratification(s, rules) && r in rules
    requires forall k :: k in ks ==> r.headPred in s && s[r.headPred] < k
    ensures forall d :: d in Deps(r.body) ==> d.pred !in HeadsIn(rules, s, ks)
  {
  }

  lemma StaysClosed(rules: seq<Rule>, s: Strata, ks: seq<nat>, a: Index, b: Index, r: Rule)
    requires IsStratification(s, rules) && r in rules && Closed(r, a)
    requires forall k :: k in ks ==> r.headPred in s && s[r.headPred] < k
    requires GrowsOn(HeadsIn(rules, s, ks), a, b)
    ensures Closed(r, b)
  {
    LaterStrataUnread(rules, s, r, ks);
    ClosedPersists(r, a, b);
  }

  /**
   * Every rule of a scheduled stratum is closed at the end, whatever its body: also those with
   * `not` and `exists` that were last evaluated before the later strata ran.
   */
  lemma {:induction false} ComputesCloses(rules: seq<Rule>, s: Strata, ks: seq<nat>, a: Index, b: Index, r: Rule)
    requires ValidIndex(a) && IsStratification(s, rules)
    requires Ascending(ks) && Computes(rules, s, ks, a, b)
    requires r in rules && r.headPred in s && s[r.headPred] in ks
    ensures Closed(r, b)
  {
    var m := FirstStratum(rules, s, ks, a, b);
    if s[r.headPred] == ks[0] {
      assert r in RulesAt(rules, s, ks[0]);
      ComputesGrows(rules, s, ks[1..], m, b);
      StaysClosed(rules, s, ks[1..], m, b, r);
    } else {
      ComputesCloses(rules, s, ks[1..], m, b, r);
    }
  }

  /** The facts behind the first of the scheduled strata. */
  lemma FirstStratum(rules: seq<Rule>, s: Strata, ks: seq<nat>, a: Index, b: Index) returns (m: Index)
    requires ValidIndex(a) && ks != [] && Computes(rules, s, ks, a, b)
    ensures ValidIndex(m) && Computes(rules, s, ks[1..], m, b)
    ensures AllClosed(RulesAt(rules, s, ks[0]), m)
  {
    var rs := RulesAt(rules, s, ks[0]);
    m :| Reaches(rs, a, m) && AllClosed(rs, m) && Computes(rules, s, ks[1..], m, b);
    ReachesGrows(rs, a, m);
  }

  /** With converged strata and no cap hit, the final facts are closed under every rule. */
  lemma FinalFactsClosed(rules: seq<Rule>, a: Index, b: Index)
    requires ValidIndex(a) && StratifySpec(rules).converged && FullRun(rules, a, b)
    ensures AllClosed(rules, b)
  {
    var s := StratifySpec(rules).strata;
    StratifyLeast(rules);
    var ks :| IsSchedule(ks, rules, s) && Computes(rules, s, ks, a, b);
    forall r | r in rules ensures Closed(r, b) {
      assert r.headPred in Heads(rules);
      ComputesCloses(rules, s, ks, a, b, r);
    }
  }

  // ---------------------------------------------------------------------------------------
  // The perfect model
  // ---------------------------------------------------------------------------------------

  /** The model built stratum by stratum, each the least one over the strata below. */
  ghost predicate IsPerfectModel(rules: seq<Rule>, s: Strata, ks: seq<nat>, below: set<Fact>, facts: set<Fact>) {
    if ks == [] then below == facts
    else exists m :: IsLeastModel(RulesAt(rules, s, ks[0]), below, m) && IsPerfectModel(rules, s, ks[1..], m, facts)
  }

  lemma StratumNegationBelow(rules: seq<Rule>, s: Strata, k: nat)
    requires IsStratification(s, rules)
    ensures NegationBelow(RulesAt(rules, s, k))
  {
  }

  lemma {:induction false} ComputesPerfectModel(rules: seq<Rule>, s: Strata, ks: seq<nat>, a: Index, b: Index)
    requires AllWellModed(rules) && IsStratification(s, rules) && ValidIndex(a)
    requires Computes(rules, s, ks, a, b)
    ensures IsPerfectModel(rules, s, ks, FactsOf(a), FactsOf(b))
  {
    if ks != [] {
      var rs := RulesAt(rules, s, ks[0]);
      var m :| Reaches(rs, a, m) && AllClosed(rs, m) && Computes(rules, s, ks[1..], m, b);
      StratumNegationBelow(rules, s, ks[0]);
      ReachesGrows(rs, a, m);
      ClosureIsLeastModel(rs, a, m);
      ComputesPerfectModel(rules, s, ks[1..], m, b);
    }
  }

  lemma {:induction false} PerfectModelUnique(
      rules: seq<Rule>, rules': seq<Rule>, s: Strata, ks: seq<nat>, below: set<Fact>, m: set<Fact>, m': set<Fact>)
    requires forall r :: r in rules <==> r in rules'
    requires IsPerfectModel(rules, s, ks, below, m) && IsPerfectModel(rules', s, ks, below, m')
    ensures m == m'
  {
    if ks != [] {
      var rs, rs' := RulesAt(rules, s, ks[0]), RulesAt(rules', s, ks[0]);
      var n :| IsLeastModel(rs, below, n) && IsPerfectModel(rules, s, ks[1..], n, m);
      var n' :| IsLeastModel(rs', below, n') && IsPerfectModel(rules', s, ks[1..], n', m');
      LeastModelUnique(rs, rs', below, n, n');
      PerfectModelUnique(rules, rules', s, ks[1..], n, m, m');
    }
  }

  lemma HasMember(ks: seq<nat>)
    ensures ks != [] ==> exists k :: k in ks
  {
    if ks != [] { assert ks[0] in ks; }
  }

  lemma {:induction false} ScheduleUnique(ks: seq<nat>, ks': seq<nat>)
    requires Ascending(ks) && Ascending(ks') && forall k :: k in ks <==> k in ks'
    ensures ks == ks'
  {
    HasMember(ks');
    if ks != [] {
      assert ks[0] in ks' && ks'[0] in ks;
      var i :| 0 <= i < |ks'| && ks'[i] == ks[0];
      var j :| 0 <= j < |ks| && ks[j] == ks'[0];
      assert ks[0] == ks'[0];
      forall k ensures k in ks[1..] <==> k in ks'[1..] {
        assert k in ks[1..] <==> k in ks && k != ks[0] by { MemberAfterFirst(ks, k); }
        assert k in ks'[1..] <==> k in ks' && k != ks'[0] by { MemberAfterFirst(ks', k); }
      }
      ScheduleUnique(ks[1..], ks'[1..]);
    }
  }

  lemma MemberAfterFirst(ks: seq<nat>, k: nat)
    requires ks != [] && Ascending(ks)
    ensures k in ks[1..] <==> k in ks && k != ks[0]
  {
  }

  /**
   * The final facts depend on neither the order of the rules nor that of the facts: two completed
   * evaluations of the same rules over the same facts end with the same facts.
   */
  lemma OrderIrrelevant(rules: seq<Rule>, a: Index, b: Index, rules': seq<Rule>, a': Index, b': Index)
    requires forall r :: r in rules <==> r in rules'
    requires ValidIndex(a) && ValidIndex(a') && FactsOf(a) == FactsOf(a')
    requires AllWellModed(rules)
    requires StratifySpec(rules).converged && StratifySpec(rules').converged
    requires FullRun(rules, a, b) && FullRun(rules', a', b')
    ensures FactsOf(b) == FactsOf(b')
  {
    var s := StratifySpec(rules).strata;
    StratifyLeast(rules);
    StratifyLeast(rules');
    LeastStratificationUnique(rules, rules', s, StratifySpec(rules').strata);
    var ks :| IsSchedule(ks, rules, s) && Computes(rules, s, ks, a, b);
    var ks' :| IsSchedule(ks', rules', s) && Computes(rules', s, ks', a', b');
    forall k ensures k in ks <==> k in ks' {}
    ScheduleUnique(ks, ks');
    ComputesPerfectModel(rules, s, ks, a, b);
    ComputesPerfectModel(rules', s, ks, a', b');
    PerfectModelUnique(rules, rules', s, ks, FactsOf(a), FactsOf(b), FactsOf(b'));
  }

  /**
   * Read as logic, with `not` as negation in the final facts, these are a model of all the rules at
   * once, and every derived fact in it has a rule instance that holds.
   */
  lemma FinalFactsAreSupportedModel(rules: seq<Rule>, a: Index, b: Index)
    requires ValidIndex(a) && AllWellModed(rules) && StratifySpec(rules).converged && FullRun(rules, a, b)
    ensures IsModel(rules, FactsOf(b), FactsOf(b))
    ensures forall f :: f in FactsOf(b) && f !in FactsOf(a) ==>
      exists r, v :: r in rules && Instance(r, v, f, FactsOf(b), FactsOf(b))
  {
    var s := StratifySpec(rules).strata;
    FinalFactsClosed(rules, a, b);
    StratifyLeast(rules);
    var ks :| IsSchedule(ks, rules, s) && Computes(rules, s, ks, a, b);
    ComputesGrows(rules, s, ks, a, b);
    forall r, v, f | r in rules && Instance(r, v, f, FactsOf(b), FactsOf(b)) ensures f in FactsOf(b) {
      InstanceIsDerivable(r, v, f, b, FactsOf(b));
    }
    forall f | f in FactsOf(b) && f !in FactsOf(a)
      ensures exists r, v :: r in rules && Instance(r, v, f, FactsOf(b), FactsOf(b))
    {
      var r, v := DerivedIsSupported(rules, s, ks, a, b, f);
    }
  }

  lemma {:induction false} DerivedIsSupported(
      rules: seq<Rule>, s: Strata, ks: seq<nat>, a: Index, b: Index, f: Fact) returns (r: Rule, v: Env)
    requires ValidIndex(a) && AllWellModed(rules) && IsStratification(s, rules)
    requires Ascending(ks) && Computes(rules, s, ks, a, b)
    requires f in FactsOf(b) && f !in FactsOf(a)
    ensures r in rules && Instance(r, v, f, FactsOf(b), FactsOf(b))
  {
    var rs := RulesAt(rules, s, ks[0]);
    var m :| Reaches(rs, a, m) && AllClosed(rs, m) && Computes(rules, s, ks[1..], m, b);
    ReachesGrows(rs, a, m);
    if f !in FactsOf(m) {
      r, v := DerivedIsSupported(rules, s, ks[1..], m, b, f);
    } else {
      StratumNegationBelow(rules, s, ks[0]);
      ClosureIsLeastModel(rs, a, m);
      LeastModelSupported(rs, FactsOf(a), FactsOf(m), f);
      r, v :| r in rs && Instance(r, v, f, FactsOf(m), FactsOf(a));
      ComputesGrows(rules, s, ks[1..], m, b);
      NegativesSettled(rules, s, ks, r, a, m, b);
      SupportLasts(r, v, f, FactsOf(m), FactsOf(a), FactsOf(b));
    }
  }

  /** The facts a rule reads below `not` are the same before its stratum as in the end. */
  lemma NegativesSettled(rules: seq<Rule>, s: Strata, ks: seq<nat>, r: Rule, a: Index, m: Index, b: Index)
    requires IsStratification(s, rules) && Ascending(ks) && ks != [] && r in RulesAt(rules, s, ks[0])
    requires GrowsOn(RuleHeads(RulesAt(rules, s, ks[0])), a, m) && GrowsOn(HeadsIn(rules, s, ks[1..]), m, b)
    ensures SameFactsOn(NegPreds(Deps(r.body)), FactsOf(a), FactsOf(b))
  {
  }

  /** What supports a fact within its stratum supports it ever after. */
  lemma SupportLasts(r: Rule, v: Env, f: Fact, m: set<Fact>, below: set<Fact>, facts: set<Fact>)
    requires m <= facts && SameFactsOn(NegPreds(Deps(r.body)), below, facts)
    requires Instance(r, v, f, m, below)
    ensures Instance(r, v, f, facts, facts)
  {
    SatMonotone(r.body, v, m, facts, below);
    SatSameNegatives(r.body, v, facts, below, facts);
  }
}
