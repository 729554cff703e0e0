/** The bottom-up evaluator: the fact store, the rule list and the run over the strata. */
module Evaluation {
  import opened Wrappers
  import opened SExprs
  import opened Solver
  import opened Semantics
  import opened Basics
  import opened Stratification
  import opened Derivation
  import opened StrataRuns

  const ROUND_CAP: nat := 1024

  ghost predicate Distinct<T>(s: seq<T>) {
    forall i, j :: 0 <= i < j < |s| ==> s[i] != s[j]
  }

  /** What `Program.run` did about its pass cap: it says nothing when it stops at the cap. */
  datatype Status = Completed | Capped | TypeError

  /** Some rule came to derive a fact that cannot be hashed. */
  ghost predicate Unhashable(rs: seq<Rule>, a: Index) {
    exists r, seen, f :: r in rs && Reaches(rs, a, seen) && Derivable(r, seen, f) && !Hashable(f)
  }

  /** Firing the rule led from `a` to `b`, adding facts if and only if `changed`. */
  ghost predicate FiresTo(r: Rule, a: Index, b: Index, changed: bool) {
    && Reaches([r], a, b)
    && FactsOf(a) <= FactsOf(b)
    && (if changed then FactsOf(a) != FactsOf(b) else a == b)
  }

  /** The head instance that an answer gives rise to is there. */
  ghost predicate Answered(r: Rule, env: Env, facts: set<Fact>) {
    forall f :: DerivesFrom(r, env, f) ==> f in facts
  }

  /** Every head instance that this datum of the rule's only literal gives rise to is there. */
  ghost predicate Fired(r: Rule, terms: seq<Term>, datum: Fact, facts: set<Fact>) {
    forall env, f :: UnifyTerms(terms, datum.args, map[]) == Some(env) && DerivesFrom(r, env, f) ==> f in facts
  }

  /** Only what the rule yields at the outset has been added. */
  ghost predicate YieldedAtOnce(r: Rule, a: Index, b: Index) {
    forall f :: f in FactsOf(b) ==> f in FactsOf(a) || Derivable(r, a, f)
  }

  /** Exactly what the rule yields at the outset has been added. */
  ghost predicate FiredOnce(r: Rule, a: Index, b: Index) {
    forall f :: f in FactsOf(b) <==> f in FactsOf(a) || Derivable(r, a, f)
  }

  /** One rule has been fired; if its body is not a single literal, then on the facts there were. */
  ghost predicate StepTo(r: Rule, a: Index, b: Index) {
    Reaches([r], a, b) && (!OpOf(r.body).Call? ==> FiredOnce(r, a, b))
  }

  /** The facts before, between and after firing every rule, one after the other. */
  ghost predicate IsPass(rs: seq<Rule>, states: seq<Index>) {
    |states| == |rs| + 1 && forall i :: 0 <= i < |rs| ==> StepTo(rs[i], states[i], states[i + 1])
  }

  ghost predicate PassTo(rs: seq<Rule>, a: Index, b: Index) {
    exists states :: IsPass(rs, states) && states[0] == a && states[|rs|] == b
  }

  /** A pass that adds facts. */
  ghost predicate GrowingPass(rs: seq<Rule>, a: Index, b: Index) {
    PassTo(rs, a, b) && FactsOf(a) != FactsOf(b)
  }

  ghost predicate PassAt(rs: seq<Rule>, trace: seq<Index>, i: nat)
    requires 0 < i < |trace|
  {
    GrowingPass(rs, trace[i - 1], trace[i])
  }

  /** The facts before, between and after passes that add facts. */
  ghost predicate PassesFrom(rs: seq<Rule>, trace: seq<Index>, a: Index) {
    trace != [] && trace[0] == a && forall i :: 0 < i < |trace| ==> PassAt(rs, trace, i)
  }

  /** Passes that lead from `a` to `b`, as many as the cap lets there be, or fewer if nothing more is to be had. */
  ghost predicate PassesTo(rs: seq<Rule>, trace: seq<Index>, a: Index, b: Index) {
    && PassesFrom(rs, trace, a) && trace[|trace| - 1] == b
    && (|trace| - 1 == ROUND_CAP || (|trace| - 1 < ROUND_CAP && AllClosed(rs, b)))
  }

  /** The strata one after the other; the cap is hit in one that has so many passes. */
  ghost predicate StagesTo(rules: seq<Rule>, s: Strata, ks: seq<nat>, a: Index, b: Index, capped: bool)
    decreases |ks|, 0
  {
    if ks == [] then a == b && !capped
    else StageBehind(rules, s, ks[..|ks| - 1], RulesAt(rules, s, ks[|ks| - 1]), a, b, capped)
  }

  ghost predicate StageBehind(rules: seq<Rule>, s: Strata, ks: seq<nat>, rs: seq<Rule>, a: Index, b: Index, capped: bool)
    decreases |ks|, 1
  {
    exists m, trace, before ::
      StagesTo(rules, s, ks, a, m, before) && PassesTo(rs, trace, m, b) && capped == (before || |trace| - 1 == ROUND_CAP)
  }

  /** What a run that ends without an exception may lead to, whether it hit the cap or not. */
  ghost predicate Evaluates(rules: seq<Rule>, a: Index, b: Index, capped: bool) {
    exists ks ::
      IsSchedule(ks, rules, StratifySpec(rules).strata) && StagesTo(rules, StratifySpec(rules).strata, ks, a, b, capped)
  }

  class Program {
    var facts: Index
    var factSet: set<Fact>
    var rules: seq<Rule>

    /** The set mirrors the lists, which are free of duplicates and filed under their predicate. */
    ghost predicate Valid()
      reads this
    {
      && ValidIndex(facts)
      && FactsOf(facts) == factSet
      && forall p :: p in facts ==> Distinct(facts[p])
    }

    constructor ()
      ensures Valid() && factSet == {} && rules == []
    {
      facts, factSet, rules := map[], {}, [];
    }

    /** Raises, changing nothing, for a fact that cannot be hashed. */
    method AddFact(f: Fact) returns (raised: bool)
      requires Valid()
      modifies this`facts, this`factSet
      ensures Valid()
      ensures raised <==> !Hashable(f)
      ensures facts == if raised || f in old(factSet) then old(facts) else Insert(old(facts), f)
      ensures factSet == if raised then old(factSet) else old(factSet) + {f}
    {
      if exists a :: a in f.args && a.List? {
        return true;
      }
      raised := false;
      if f in factSet {
        return;
      }
      factSet := factSet + {f};
      facts := facts[f.pred := Lookup(facts, f.pred) + [f]];
      FactsOfInsert(old(facts), f);
      assert forall g :: g in Lookup(old(facts), f.pred) ==> g in old(factSet);
    }

    method AddRule(r: Rule)
      requires Valid()
      modifies this`rules
      ensures Valid() && rules == old(rules) + [r]
    {
      rules := rules + [r];
    }

    /** The facts of a predicate, in the order they were added. */
    method Query(pred: string) returns (found: seq<Fact>)
      requires Valid()
      ensures Distinct(found) && forall f :: f in found <==> f in factSet && f.pred == pred
    {
      found := Lookup(facts, pred);
      forall f | f in factSet && f.pred == pred ensures f in found {
        var p :| p in facts && f in facts[p];
      }
      assert forall f :: f in found ==> f in factSet;
    }

    /** The values of the head's terms in order, unless one of them is an unbound variable. */
    method HeadArgs(terms: seq<Term>, env: Env) returns (args: Option<seq<SExpr>>)
      ensures match args
        case Some(values) => TermsAre(terms, values, env)
        case None => exists i :: 0 <= i < |terms| && TermValue(terms[i], env) == None
    {
      var values: seq<SExpr> := [];
      for i := 0 to |terms|
        invariant TermsAre(terms[..i], values, env)
      {
        match terms[i]
        case Var(x) =>
          if x !in env {
            return None;
          }
          values := values + [env[x]];
        case Const(c) => values := values + [c];
      }
      assert terms[..|terms|] == terms;
      args := Some(values);
    }

    /** Add the head instance of one answer, unless a head variable is unbound. */
    method Derive(r: Rule, env: Env) returns (changed: bool, raised: bool)
      requires Valid()
      modifies this`facts, this`factSet
      ensures Valid()
      ensures raised <==> exists f :: DerivesFrom(r, env, f) && !Hashable(f)
      ensures raised ==> !changed
      ensures old(factSet) <= factSet
      ensures changed ==> exists f ::
        DerivesFrom(r, env, f) && Hashable(f) && f !in old(factSet) && facts == Insert(old(facts), f)
      ensures !changed ==> facts == old(facts) && factSet == old(factSet)
      ensures !raised ==> Answered(r, env, factSet)
    {
      changed, raised := false, false;
      var head := HeadArgs(r.headTerms, env);
      match head
      case None =>
      case Some(args) =>
        var f := Fact(r.headPred, args);
        assert DerivesFrom(r, env, f);
        forall g | DerivesFrom(r, env, g) ensures g == f { TermsAreUnique(r.headTerms, g.args, args, env); }
        if exists a :: a in args && a.List? {
          raised := true;  // the membership test hashes the fact
        } else if f !in factSet {
          var _ := AddFact(f);
          changed := true;
        }
    }

    /**
     * Fire one rule.  A body of several literals is solved before its first answer is used; a
     * body that is a single literal walks the very list its own head may be appended to, and
     * ends because only finitely many facts are possible.
     */
    method Fire(r: Rule) returns (changed: bool, raised: bool)
      requires Valid()
      modifies this`facts, this`factSet
      ensures Valid()
      ensures FiresTo(r, old(facts), facts, changed)
      ensures !raised ==> StepTo(r, old(facts), facts)
      ensures !raised && (!changed || OpOf(r.body).Call?) ==> Closed(r, facts)
      ensures raised ==> Unhashable([r], old(facts))
    {
      if OpOf(r.body).Call? {
        changed, raised := FireLiteral(r, OpOf(r.body).pred);
      } else {
        changed, raised := FireSolved(r);
      }
    }

    method FireSolved(r: Rule) returns (changed: bool, raised: bool)
      requires Valid()
      modifies this`facts, this`factSet
      ensures Valid()
      ensures FiresTo(r, old(facts), facts, changed)
      ensures !raised ==> FiredOnce(r, old(facts), facts)
      ensures !raised && !changed ==> Closed(r, facts)
      ensures raised ==> Unhashable([r], old(facts))
    {
      var envs := Solve(r.body, map[], facts);
      changed, raised := false, false;
      ReachesSelf([r], facts);
      for i := 0 to |envs|
        invariant Valid() && !raised
        invariant FiresTo(r, old(facts), facts, changed)
        invariant YieldedAtOnce(r, old(facts), facts)
        invariant forall j :: 0 <= j < i ==> Answered(r, envs[j], factSet)
      {
        ghost var before := facts;
        var added;
        added, raised := Derive(r, envs[i]);
        assert envs[i] in Solve(r.body, map[], old(facts));
        if raised {
          AnswerUnhashable(r, envs[i], old(facts));
          return;
        }
        if added {
          GrowSolved(r, envs[i], old(facts), before, facts);
          changed := true;
        }
      }
      AllAnswered(r, old(facts), facts);
    }

    method FireLiteral(r: Rule, pred: string) returns (changed: bool, raised: bool)
      requires Valid() && OpOf(r.body) == Call(pred)
      modifies this`facts, this`factSet
      ensures Valid()
      ensures FiresTo(r, old(facts), facts, changed)
      ensures !raised ==> Closed(r, facts)
      ensures raised ==> Unhashable([r], old(facts))
    {
      var terms := ToTerms(r.body.items[1..]);
      changed, raised := false, false;
      ghost var domain := ActiveDomain([r], factSet);
      ActiveDomainCovers([r], factSet);
      ReachesSelf([r], facts);
      var i := 0;
      while i < |Lookup(facts, pred)|
        invariant Valid() && !raised
        invariant FiresTo(r, old(facts), facts, changed) && FactsWithin(factSet, domain)
        invariant 0 <= i <= |Lookup(facts, pred)|
        invariant AllFired(r, terms, Lookup(facts, pred), i, factSet)
        decreases PossibleFacts([r], domain) - factSet, |Lookup(facts, pred)| - i
      {
        ghost var before, held := facts, factSet;
        var added;
        added, raised := FireDatum(r, pred, terms, i);
        if raised {
          UnhashableCompose([r], [r], old(facts), before);
          return;
        }
        if added {
          ghost var f :| Derivable(r, before, f) && Hashable(f) && f !in FactsOf(before) && facts == Insert(before, f);
          GrowRun(r, old(facts), before, f, domain);
          changed := true;
        }
        FiredStill(r, terms, Lookup(before, pred), Lookup(facts, pred), i, held, factSet);
        i := i + 1;
      }
      LiteralClosed(r, pred, facts);
    }

    /** Unify the literal with the datum at position `i` of the current list and add the head. */
    method FireDatum(r: Rule, pred: string, terms: seq<Term>, i: nat) returns (added: bool, raised: bool)
      requires Valid() && OpOf(r.body) == Call(pred) && terms == ToTerms(r.body.items[1..])
      requires i < |Lookup(facts, pred)|
      modifies this`facts, this`factSet
      ensures Valid()
      ensures raised ==> !added && Unhashable([r], old(facts))
      ensures old(factSet) <= factSet
      ensures !raised ==> Fired(r, terms, old(Lookup(facts, pred)[i]), factSet)
      ensures old(Lookup(facts, pred)) <= Lookup(facts, pred)
      ensures !added ==> facts == old(facts)
      ensures added ==> exists f ::
        Derivable(r, old(facts), f) && Hashable(f) && f !in FactsOf(old(facts)) && facts == Insert(old(facts), f)
    {
      added, raised := false, false;
      var datum := Lookup(facts, pred)[i];
      match UnifyTerms(terms, datum.args, map[])
      case None =>
      case Some(env) =>
        SolveCallMember(terms, Lookup(facts, pred), map[], env);
        assert env in Solve(r.body, map[], facts);
        added, raised := Derive(r, env);
        if raised {
          ghost var f :| DerivesFrom(r, env, f) && !Hashable(f);
          ReachesSelf([r], facts);
          assert Derivable(r, facts, f);
        }
        if added {
          ghost var f :| DerivesFrom(r, env, f) && Hashable(f) && f !in old(factSet) && facts == Insert(old(facts), f);
          assert Derivable(r, old(facts), f);
        }
    }

    /** Run the rules of one stratum until a pass adds nothing, for at most 1024 passes. */
    method RunStratum(rs: seq<Rule>) returns (status: Status, ghost trace: seq<Index>)
      requires Valid()
      modifies this`facts, this`factSet
      ensures Valid()
      ensures Reaches(rs, old(facts), facts)
      ensures status == Completed ==> AllClosed(rs, facts)
      ensures old(factSet) <= factSet && (status == Capped ==> |old(factSet)| + ROUND_CAP <= |factSet|)
      ensures status == TypeError ==> Unhashable(rs, old(facts))
      ensures status != TypeError ==>
        PassesTo(rs, trace, old(facts), facts) && (status == Capped <==> |trace| - 1 == ROUND_CAP)
    {
      ReachesSelf(rs, facts);
      trace := [facts];
      for pass := 0 to ROUND_CAP
        invariant Valid() && Reaches(rs, old(facts), facts)
        invariant old(factSet) <= factSet && |old(factSet)| + pass <= |factSet|
        invariant |trace| == pass + 1 && trace[pass] == facts && PassesFrom(rs, trace, old(facts))
      {
        ghost var start := facts;
        var changed, raised := RunPass(rs);
        if raised { UnhashableCompose(rs, rs, old(facts), start); }
        ReachesCompose(rs, rs, old(facts), start, facts);
        if raised {
          return TypeError, trace;
        }
        if !changed {
          return Completed, trace;
        }
        TraceMore(rs, trace, old(facts), facts);
        trace := trace + [facts];
      }
      status := Capped;
    }

    /** Fire every rule once. */
    method RunPass(rs: seq<Rule>) returns (changed: bool, raised: bool)
      requires Valid()
      modifies this`facts, this`factSet
      ensures Valid()
      ensures Reaches(rs, old(facts), facts)
      ensures old(factSet) <= factSet && (changed ==> |old(factSet)| < |factSet|)
      ensures !changed && !raised ==> AllClosed(rs, facts) && facts == old(facts)
      ensures !raised ==> PassTo(rs, old(facts), facts)
      ensures raised ==> Unhashable(rs, old(facts))
    {
      changed, raised := false, false;
      ghost var states := [facts];
      ReachesSelf(rs, facts);
      for i := 0 to |rs|
        invariant Valid() && Reaches(rs, old(facts), facts) && !raised
        invariant old(factSet) <= factSet && (changed ==> |old(factSet)| < |factSet|)
        invariant !changed ==> facts == old(facts) && forall j :: 0 <= j < i ==> Closed(rs[j], facts)
        invariant PassUpTo(rs, i, states) && states[0] == old(facts) && states[i] == facts
      {
        ghost var before, held := facts, factSet;
        var added;
        added, raised := Fire(rs[i]);
        SubsetAtMost(old(factSet), held);
        if added { SubsetSmaller(held, factSet); } else { SubsetAtMost(held, factSet); }
        if raised { UnhashableCompose([rs[i]], rs, old(facts), before); }
        ReachesCompose([rs[i]], rs, old(facts), before, facts);
        changed := changed || added;
        if raised {
          return;
        }
        PassMore(rs, i, states, facts);
        states := states + [facts];
      }
      assert IsPass(rs, states);
    }

    method GroupByStratum(s: Strata) returns (groups: map<nat, seq<Rule>>)
      requires s.Keys == Heads(rules)
      ensures GroupedAs(groups, rules, s)
    {
      groups := map[];
      for i := 0 to |rules|
        invariant GroupedAs(groups, rules[..i], s)
      {
        GroupNext(groups, rules, i, s);
        groups := AddToGroup(groups, s[rules[i].headPred], rules[i]);
      }
      assert rules[..|rules|] == rules;
    }

    /**
     * Evaluate.  Stopping at a cap is silent, and the next stratum runs all the same; a derived
     * fact that cannot be hashed ends the run with an exception.
     */
    method Run() returns (status: Status)
      requires Valid()
      modifies this`facts, this`factSet
      ensures Valid()
      ensures Reaches(rules, old(facts), facts)
      ensures status == Completed ==> FullRun(rules, old(facts), facts)
      ensures status != TypeError ==> Evaluates(rules, old(facts), facts, status == Capped)
      ensures status == Completed && StratifySpec(rules).converged ==> AllClosed(rules, facts)
      ensures FactsWithin(factSet, ActiveDomain(rules, old(factSet)))
      ensures status == Capped ==>
        ROUND_CAP <= |PossibleFacts(rules, ActiveDomain(rules, old(factSet))) - old(factSet)|
      ensures status == TypeError ==> Unhashable(rules, old(facts))
    {
      var s, _ := Stratify(rules);
      var groups := GroupByStratum(s);
      var ks := SortedKeys(groups.Keys);
      ScheduleOfGroups(rules, s, ks);
      status := RunStrata(s, groups, ks);
      ghost var run :| IsRun(rules, run, old(facts)) && EndOf(run, old(facts)) == facts;
      ActiveDomainBounds(rules, run, old(facts));
      if status == Capped { NewFactsPossible(rules, run, old(facts)); }
      if status == Completed && StratifySpec(rules).converged {
        FinalFactsClosed(rules, old(facts), facts);
      }
    }

    method RunStrata(s: Strata, groups: map<nat, seq<Rule>>, ks: seq<nat>) returns (status: Status)
      requires Valid()
      requires forall k :: k in ks ==> k in groups && groups[k] == RulesAt(rules, s, k)
      modifies this`facts, this`factSet
      ensures Valid()
      ensures Reaches(rules, old(facts), facts)
      ensures status == Completed ==> Computes(rules, s, ks, old(facts), facts)
      ensures status != TypeError ==> StagesTo(rules, s, ks, old(facts), facts, status == Capped)
      ensures status == TypeError ==> Unhashable(rules, old(facts))
      ensures old(factSet) <= factSet && (status == Capped ==> |old(factSet)| + ROUND_CAP <= |factSet|)
    {
      status := Completed;
      ReachesSelf(rules, facts);
      assert ks[..0] == [] && ks[..|ks|] == ks;
      for i := 0 to |ks|
        invariant Valid() && Reaches(rules, old(facts), facts) && status != TypeError
        invariant old(factSet) <= factSet && (status == Capped ==> |old(factSet)| + ROUND_CAP <= |factSet|)
        invariant status == Completed ==> Computes(rules, s, ks[..i], old(facts), facts)
        invariant StagesTo(rules, s, ks[..i], old(facts), facts, status == Capped)
      {
        ghost var before, rs, held := facts, RulesAt(rules, s, ks[i]), factSet;
        ghost var capped := status == Capped;
        var outcome, trace := RunStratum(groups[ks[i]]);
        SubsetAtMost(old(factSet), held);
        SubsetAtMost(held, factSet);
        ReachesCompose(rs, rules, old(facts), before, facts);
        if outcome == TypeError {
          UnhashableCompose(rs, rules, old(facts), before);
          return TypeError;
        }
        if outcome == Capped { status := Capped; }
        StagesMore(rules, s, ks, i, old(facts), before, facts, capped, trace);
        if status == Completed {
          ComputesNext(rules, s, ks, i, old(facts), before, facts);
        }
      }
    }
  }

  /** What a run adds is among the possible facts it starts without. */
  lemma NewFactsPossible(rules: seq<Rule>, run: Derivation.Run, a: Index)
    requires IsRun(rules, run, a)
    ensures FactsOf(a) <= FactsOf(EndOf(run, a))
    ensures |FactsOf(EndOf(run, a))| <= |FactsOf(a)| + |PossibleFacts(rules, ActiveDomain(rules, FactsOf(a))) - FactsOf(a)|
  {
    var domain, b := ActiveDomain(rules, FactsOf(a)), EndOf(run, a);
    ActiveDomainCovers(rules, FactsOf(a));
    RunWithin(rules, run, a, b, domain);
    RunGrowsPlain(run, a);
    GrownWithin(FactsOf(a), FactsOf(b), PossibleFacts(rules, domain));
  }

  lemma GrownWithin<T>(a: set<T>, b: set<T>, possible: set<T>)
    requires a <= b && b - a <= possible
    ensures |b| <= |a| + |possible - a|
  {
    assert b == a + (b - a);
    SubsetAtMost(b - a, possible - a);
  }

  lemma {:induction false} RunGrowsPlain(run: Derivation.Run, a: Index)
    ensures FactsOf(a) <= FactsOf(EndOf(run, a))
  {
    if run.Then? {
      RunGrowsPlain(run.before, a);
      FactsOfInsert(EndOf(run.before, a), run.fact);
    }
  }

  lemma TraceMore(rs: seq<Rule>, trace: seq<Index>, a: Index, b: Index)
    requires PassesFrom(rs, trace, a) && GrowingPass(rs, trace[|trace| - 1], b)
    ensures PassesFrom(rs, trace + [b], a)
  {
    forall i | 0 < i < |trace| + 1 ensures PassAt(rs, trace + [b], i) {
      if i < |trace| { assert PassAt(rs, trace, i); }
    }
  }

  /** The first `i` rules of a pass. */
  ghost predicate PassUpTo(rs: seq<Rule>, i: nat, states: seq<Index>) {
    |states| == i + 1 && i <= |rs| && forall j :: 0 <= j < i ==> StepTo(rs[j], states[j], states[j + 1])
  }

  lemma PassMore(rs: seq<Rule>, i: nat, states: seq<Index>, b: Index)
    requires PassUpTo(rs, i, states) && i < |rs| && StepTo(rs[i], states[i], b)
    ensures PassUpTo(rs, i + 1, states + [b])
  {
  }

  lemma StagesMore(
      rules: seq<Rule>, s: Strata, ks: seq<nat>, i: nat, a: Index, b: Index, c: Index, capped: bool, trace: seq<Index>)
    requires i < |ks| && StagesTo(rules, s, ks[..i], a, b, capped)
    requires PassesTo(RulesAt(rules, s, ks[i]), trace, b, c)
    ensures StagesTo(rules, s, ks[..i + 1], a, c, capped || |trace| - 1 == ROUND_CAP)
  {
    assert ks[..i + 1][..i] == ks[..i] && ks[..i + 1][i] == ks[i];
  }

  lemma ComputesNext(rules: seq<Rule>, s: Strata, ks: seq<nat>, i: nat, a: Index, b: Index, c: Index)
    requires i < |ks| && Computes(rules, s, ks[..i], a, b)
    requires Reaches(RulesAt(rules, s, ks[i]), b, c) && AllClosed(RulesAt(rules, s, ks[i]), c)
    ensures Computes(rules, s, ks[..i + 1], a, c)
  {
    ComputesAppend(rules, s, ks[..i], ks[i], a, b, c);
    assert ks[..i + 1] == ks[..i] + [ks[i]];
  }

  lemma AnswerUnhashable(r: Rule, env: Env, a: Index)
    requires env in Solve(r.body, map[], a)
    requires exists f :: DerivesFrom(r, env, f) && !Hashable(f)
    ensures Unhashable([r], a)
  {
    var f :| DerivesFrom(r, env, f) && !Hashable(f);
    ReachesSelf([r], a);
    assert Derivable(r, a, f);
  }

  /** Adding the head instance of an answer found at the outset continues the run. */
  lemma GrowSolved(r: Rule, env: Env, a: Index, b: Index, c: Index)
    requires Reaches([r], a, b) && FactsOf(a) <= FactsOf(b) && env in Solve(r.body, map[], a)
    requires exists f :: DerivesFrom(r, env, f) && Hashable(f) && f !in FactsOf(b) && c == Insert(b, f)
    requires YieldedAtOnce(r, a, b)
    ensures FiresTo(r, a, c, true) && YieldedAtOnce(r, a, c)
  {
    var f :| DerivesFrom(r, env, f) && Hashable(f) && f !in FactsOf(b) && c == Insert(b, f);
    assert Derivable(r, a, f);
    ReachesStep([r], a, b, r, f);
    FactsOfInsert(b, f);
  }

  lemma AllAnswered(r: Rule, a: Index, b: Index)
    requires forall j :: 0 <= j < |Solve(r.body, map[], a)| ==> Answered(r, Solve(r.body, map[], a)[j], FactsOf(b))
    requires FactsOf(a) <= FactsOf(b) && YieldedAtOnce(r, a, b)
    ensures FiredOnce(r, a, b)
    ensures a == b ==> Closed(r, a)
  {
    forall f | Derivable(r, a, f) ensures f in FactsOf(b) {
      var env :| env in Solve(r.body, map[], a) && DerivesFrom(r, env, f);
    }
  }

  /** One more derivation continues the run and keeps to the domain. */
  lemma GrowRun(r: Rule, a: Index, b: Index, f: Fact, domain: set<SExpr>)
    requires Reaches([r], a, b) && FactsOf(a) <= FactsOf(b)
    requires FactsWithin(FactsOf(b), domain) && CoversRules(domain, [r])
    requires Derivable(r, b, f) && Hashable(f) && f !in FactsOf(b)
    ensures FiresTo(r, a, Insert(b, f), true)
    ensures FactsOf(Insert(b, f)) == FactsOf(b) + {f}
    ensures FactsWithin(FactsOf(b) + {f}, domain)
    ensures f in PossibleFacts([r], domain)
  {
    DerivableIsPossible([r], r, b, f, domain);
    ReachesSelf([r], b);
    ReachesStep([r], b, b, r, f);
    ReachesCompose([r], [r], a, b, Insert(b, f));
    FactsOfInsert(b, f);
  }

  /** A single literal whose whole list has been walked yields nothing more. */
  lemma LiteralClosed(r: Rule, pred: string, idx: Index)
    requires OpOf(r.body) == Call(pred)
    requires AllFired(r, ToTerms(r.body.items[1..]), Lookup(idx, pred), |Lookup(idx, pred)|, FactsOf(idx))
    ensures Closed(r, idx)
  {
    var terms := ToTerms(r.body.items[1..]);
    forall f | Derivable(r, idx, f) ensures f in FactsOf(idx) {
      var env :| env in Solve(r.body, map[], idx) && DerivesFrom(r, env, f);
      SolveCallMember(terms, Lookup(idx, pred), map[], env);
      var i :| 0 <= i < |Lookup(idx, pred)| && UnifyTerms(terms, Lookup(idx, pred)[i].args, map[]) == Some(env);
      assert Fired(r, terms, Lookup(idx, pred)[i], FactsOf(idx));
    }
  }

  ghost predicate AllFired(r: Rule, terms: seq<Term>, data: seq<Fact>, n: nat, facts: set<Fact>) {
    n <= |data| && forall j :: 0 <= j < n ==> Fired(r, terms, data[j], facts)
  }

  lemma FiredStill(
      r: Rule, terms: seq<Term>, data: seq<Fact>, data': seq<Fact>, i: nat, facts: set<Fact>, facts': set<Fact>)
    requires AllFired(r, terms, data, i, facts) && i < |data|
    requires data <= data' && facts <= facts' && Fired(r, terms, data[i], facts')
    ensures AllFired(r, terms, data', i + 1, facts')
  {
  }

  lemma UnhashableCompose(rs: seq<Rule>, rs': seq<Rule>, a: Index, b: Index)
    requires Reaches(rs', a, b) && Unhashable(rs, b)
    requires forall r :: r in rs ==> r in rs'
    ensures Unhashable(rs', a)
  {
    var r, seen, f :| r in rs && Reaches(rs, b, seen) && Derivable(r, seen, f) && !Hashable(f);
    ReachesCompose(rs, rs', a, b, seen);
  }

  lemma ScheduleOfGroups(rules: seq<Rule>, s: Strata, ks: seq<nat>)
    requires Ascending(ks) && forall k :: k in ks <==> RulesAt(rules, s, k) != []
    ensures IsSchedule(ks, rules, s)
  {
    forall k ensures k in ks <==> exists r :: r in rules && r.headPred in s && s[r.headPred] == k {
      if k in ks {
        assert RulesAt(rules, s, k)[0] in RulesAt(rules, s, k);
      }
      if r :| r in rules && r.headPred in s && s[r.headPred] == k {
        assert r in RulesAt(rules, s, k);
      }
    }
  }

  /** The groups hold exactly the non-empty strata, each in program order. */
  ghost predicate GroupedAs(groups: map<nat, seq<Rule>>, rules: seq<Rule>, s: Strata) {
    && (forall k :: k in groups <==> RulesAt(rules, s, k) != [])
    && (forall k :: k in groups ==> groups[k] == RulesAt(rules, s, k))
  }

  function AddToGroup(groups: map<nat, seq<Rule>>, k: nat, r: Rule): map<nat, seq<Rule>> {
    groups[k := (if k in groups then groups[k] else []) + [r]]
  }

  lemma GroupNext(groups: map<nat, seq<Rule>>, rules: seq<Rule>, i: nat, s: Strata)
    requires i < |rules| && s.Keys == Heads(rules) && GroupedAs(groups, rules[..i], s)
    ensures rules[i].headPred in s
    ensures GroupedAs(AddToGroup(groups, s[rules[i].headPred], rules[i]), rules[..i + 1], s)
  {
    assert rules[i].headPred in Heads(rules);
    GroupMore(groups, rules[..i], rules[i], s);
    assert rules[..i + 1] == rules[..i] + [rules[i]];
  }

  lemma GroupMore(groups: map<nat, seq<Rule>>, rules: seq<Rule>, r: Rule, s: Strata)
    requires GroupedAs(groups, rules, s) && r.headPred in s
    ensures GroupedAs(AddToGroup(groups, s[r.headPred], r), rules + [r], s)
  {
    forall k { RulesAtAppend(rules, r, s, k); }
  }

  lemma {:induction false} RulesAtAppend(rules: seq<Rule>, r: Rule, s: Strata, k: nat)
    ensures RulesAt(rules + [r], s, k) ==
      RulesAt(rules, s, k) + if r.headPred in s && s[r.headPred] == k then [r] else []
  {
    if rules != [] {
      assert (rules + [r])[1..] == rules[1..] + [r];
      RulesAtAppend(rules[1..], r, s, k);
    }
  }

  lemma {:induction false} ComputesAppend(
      rules: seq<Rule>, s: Strata, ks: seq<nat>, k: nat, a: Index, b: Index, c: Index)
    requires Computes(rules, s, ks, a, b)
    requires Reaches(RulesAt(rules, s, k), b, c) && AllClosed(RulesAt(rules, s, k), c)
    ensures Computes(rules, s, ks + [k], a, c)
  {
    if ks == [] {
      assert ([k])[1..] == [];
      assert Computes(rules, s, [], c, c);
    } else {
      var rs := RulesAt(rules, s, ks[0]);
      var m :| Reaches(rs, a, m) && AllClosed(rs, m) && Computes(rules, s, ks[1..], m, b);
      ComputesAppend(rules, s, ks[1..], k, m, b, c);
      assert (ks + [k])[1..] == ks[1..] + [k];
    }
  }

  method SortedKeys(keys: set<nat>) returns (ks: seq<nat>)
    ensures Ascending(ks) && forall k :: k in ks <==> k in keys
  {
    ks := [];
    var rest := keys;
    while rest != {}
      invariant rest <= keys && Ascending(ks)
      invariant forall k :: k in ks <==> k in keys && k !in rest
      invariant forall i, l :: 0 <= i < |ks| && l in rest ==> ks[i] < l
    {
      var least := Least(rest);
      ks, rest := ks + [least], rest - {least};
    }
  }

  method Least(keys: set<nat>) returns (least: nat)
    requires keys != {}
    ensures least in keys && forall l :: l in keys ==> least <= l
  {
    least :| least in keys;
    var others := keys;
    while others != {}
      invariant others <= keys && least in keys
      invariant forall l :: l in keys && l !in others ==> least <= l
    {
      var l: nat :| l in others;
      if l < least { least := l; }
      others := others - {l};
    }
  }
}
