/** Weighted benchmark scores over several criteria, and the leaderboard. */
module Scoring {
  import opened Wrappers
  import opened Sorting

  datatype Goal = Min | Max | Target
  datatype Metric = Named(name: string) | Expression(text: string)

  /** An empty `runners` list applies to every runner. */
  datatype Criterion = Criterion(id: string, goal: Goal, weight: real, metric: Metric, target: Option<real>, runners: seq<string>)

  /**
   * The outcome of one case: its finite metrics, and the finite value of each expression that has
   * one over them.  `runner` is in lower case.
   */
  datatype CaseResult = CaseResult(caseId: string, runner: string, ok: bool, metrics: map<string, real>, evaluated: map<string, real>)

  const SPAN_EPS: real := 0.000000000001
  const NO_LATENCY: real := 1000000000000000000.0

  predicate Applies(c: Criterion, runner: string) {
    c.runners == [] || runner in c.runners
  }

  function CriterionValue(c: Criterion, r: CaseResult): Option<real> {
    if !Applies(c, r.runner) || !r.ok then None
    else match c.metric
      case Named(name) => if name in r.metrics then Some(r.metrics[name]) else None
      case Expression(text) => if text in r.evaluated then Some(r.evaluated[text]) else None
  }

  function Least(vs: seq<real>): (v: real)
    requires vs != []
    ensures v in vs && forall w :: w in vs ==> v <= w
  {
    if |vs| == 1 then vs[0]
    else
      assert forall w :: w in vs ==> w == vs[0] || w in vs[1..];
      var rest := Least(vs[1..]);
      if vs[0] <= rest then vs[0] else rest
  }

  function Greatest(vs: seq<real>): (v: real)
    requires vs != []
    ensures v in vs && forall w :: w in vs ==> w <= v
  {
    if |vs| == 1 then vs[0]
    else
      assert forall w :: w in vs ==> w == vs[0] || w in vs[1..];
      var rest := Greatest(vs[1..]);
      if vs[0] >= rest then vs[0] else rest
  }

  function Abs(x: real): real {
    if x < 0.0 then -x else x
  }

  function Clamp(x: real): real {
    if x < 0.0 then 0.0 else if x > 1.0 then 1.0 else x
  }

  function Distances(vs: seq<real>, target: real): seq<real> {
    seq(|vs|, i requires 0 <= i < |vs| => Abs(vs[i] - target))
  }

  /** The value's place between the extremes of all cases' values, one being best. */
  function Normalize(c: Criterion, value: real, values: seq<real>): real {
    if values == [] then 0.0
    else
      var low, high := Least(values), Greatest(values);
      var span := high - low;
      match c.goal
      case Max => if span <= SPAN_EPS then 1.0 else Clamp((value - low) / span)
      case Target =>
        if c.target.None? then 0.0
        else
          var reach := Greatest(Distances(values, c.target.value));
          if reach <= SPAN_EPS then 1.0 else Clamp(1.0 - Abs(value - c.target.value) / reach)
      case Min => if span <= SPAN_EPS then 1.0 else Clamp((high - value) / span)
  }

  // ---------------------------------------------------------------------------------------
  // The dictionaries of values
  // ---------------------------------------------------------------------------------------

  /** The value filed under a criterion id for one result: that of the last criterion that has one. */
  function Filed(criteria: seq<Criterion>, r: CaseResult, id: string): Option<real> {
    if criteria == [] then None
    else
      var c := criteria[|criteria| - 1];
      if c.id == id && CriterionValue(c, r).Some? then CriterionValue(c, r)
      else Filed(criteria[..|criteria| - 1], r, id)
  }

  /** The values that one result contributes to a criterion id, in order. */
  function Contributed(criteria: seq<Criterion>, r: CaseResult, id: string): seq<real> {
    if criteria == [] then []
    else
      var c := criteria[|criteria| - 1];
      Contributed(criteria[..|criteria| - 1], r, id) +
      if c.id == id && CriterionValue(c, r).Some? then [CriterionValue(c, r).value] else []
  }

  function AllValues(criteria: seq<Criterion>, results: seq<CaseResult>, id: string): seq<real> {
    if results == [] then []
    else AllValues(criteria, results[..|results| - 1], id) + Contributed(criteria, results[|results| - 1], id)
  }

  datatype Sums = Sums(weighted: real, weight: real)

  function Score(criteria: seq<Criterion>, results: seq<CaseResult>, c: Criterion, r: CaseResult): Option<real> {
    match Filed(criteria, r, c.id)
    case None => None
    case Some(v) => Some(Normalize(c, v, AllValues(criteria, results, c.id)))
  }

  /** The weighted scores and the weights over the first `n` criteria. */
  function SumsOf(criteria: seq<Criterion>, results: seq<CaseResult>, r: CaseResult, n: nat): Sums
    requires n <= |criteria|
  {
    if n == 0 then Sums(0.0, 0.0)
    else
      AddScore(SumsOf(criteria, results, r, n - 1), Score(criteria, results, criteria[n - 1], r), criteria[n - 1].weight)
  }

  /** The weighted mean of the scores; none without an applicable criterion. */
  function Total(criteria: seq<Criterion>, results: seq<CaseResult>, r: CaseResult): Option<real> {
    var s := SumsOf(criteria, results, r, |criteria|);
    if s.weight > 0.0 then Some(s.weighted / s.weight) else None
  }

  // ---------------------------------------------------------------------------------------
  // Range and dominance
  // ---------------------------------------------------------------------------------------

  /** What parsing a suite admits: every weight is positive. */
  ghost predicate PositiveWeights(criteria: seq<Criterion>) {
    forall c :: c in criteria ==> c.weight > 0.0
  }

  ghost predicate DistinctIds(criteria: seq<Criterion>) {
    forall i, j :: 0 <= i < j < |criteria| ==> criteria[i].id != criteria[j].id
  }

  lemma NormalizeRange(c: Criterion, value: real, values: seq<real>)
    ensures 0.0 <= Normalize(c, value, values) <= 1.0
  {
  }

  function AddScore(s: Sums, score: Option<real>, weight: real): Sums {
    match score
    case None => s
    case Some(x) => Sums(s.weighted + Scaled(x, weight), s.weight + weight)
  }

  function Scaled(x: real, weight: real): (r: real)
    ensures 0.0 <= x && weight > 0.0 ==> 0.0 <= r
    ensures x <= 1.0 && weight > 0.0 ==> r <= weight
  {
    x * weight
  }

  lemma ScoreRange(criteria: seq<Criterion>, results: seq<CaseResult>, c: Criterion, r: CaseResult)
    ensures var x := Score(criteria, results, c, r); x.Some? ==> 0.0 <= x.value <= 1.0
  {
  }

  lemma AddScoreRange(s: Sums, score: Option<real>, weight: real)
    requires InRange(s) && weight > 0.0
    requires score.Some? ==> 0.0 <= score.value <= 1.0
    ensures InRange(AddScore(s, score, weight))
  {
  }

  /** The weighted sum is no more than the sum of the weights. */
  predicate InRange(s: Sums) {
    0.0 <= s.weighted <= s.weight
  }

  lemma AddScoreMonotone(a: Sums, b: Sums, x: Option<real>, y: Option<real>, weight: real)
    requires a.weight == b.weight && a.weighted >= b.weighted && weight > 0.0
    requires (x.Some? <==> y.Some?) && (x.Some? ==> x.value >= y.value)
    ensures AddScore(a, x, weight).weight == AddScore(b, y, weight).weight
    ensures AddScore(a, x, weight).weighted >= AddScore(b, y, weight).weighted
  {
    if x.Some? { ScaledMonotone(y.value, x.value, weight); }
  }

  lemma ScaledMonotone(x: real, y: real, weight: real)
    requires x <= y && weight > 0.0
    ensures Scaled(x, weight) <= Scaled(y, weight)
  {
    assert Scaled(y, weight) - Scaled(x, weight) == Scaled(y - x, weight);
  }

  lemma {:induction false} SumsRange(criteria: seq<Criterion>, results: seq<CaseResult>, r: CaseResult, n: nat)
    requires n <= |criteria| && PositiveWeights(criteria)
    ensures InRange(SumsOf(criteria, results, r, n))
  {
    if n > 0 {
      var c := criteria[n - 1];
      assert c in criteria;
      var before, score := SumsOf(criteria, results, r, n - 1), Score(criteria, results, c, r);
      SumsRange(criteria, results, r, n - 1);
      ScoreRange(criteria, results, c, r);
      AddScoreRange(before, score, c.weight);
      assert SumsOf(criteria, results, r, n) == AddScore(before, score, c.weight);
    }
  }

  /** Every total score lies between zero and one. */
  lemma TotalInUnitInterval(criteria: seq<Criterion>, results: seq<CaseResult>, r: CaseResult)
    requires PositiveWeights(criteria)
    ensures match Total(criteria, results, r) case None => true case Some(t) => 0.0 <= t <= 1.0
  {
    SumsRange(criteria, results, r, |criteria|);
    var s := SumsOf(criteria, results, r, |criteria|);
    if s.weight > 0.0 { QuotientWithin(s.weighted, s.weight); }
  }

  lemma QuotientWithin(a: real, w: real)
    requires 0.0 <= a <= w && w > 0.0
    ensures 0.0 <= a / w <= 1.0
  {
    assert 0.0 / w == 0.0 && w / w == 1.0;
    QuotientMonotone(0.0, a, w);
    QuotientMonotone(a, w, w);
  }

  lemma QuotientMonotone(a: real, b: real, w: real)
    requires a <= b && w > 0.0
    ensures a / w <= b / w
  {
  }

  /** On this criterion the value `a` is at least as good as `b`. */
  predicate AtLeastAsGood(c: Criterion, a: real, b: real) {
    match c.goal
    case Max => a >= b
    case Min => a <= b
    case Target => c.target.Some? ==> Abs(a - c.target.value) <= Abs(b - c.target.value)
  }

  /** The same criteria apply to both results, and the first is at least as good on each of them. */
  ghost predicate Dominates(criteria: seq<Criterion>, a: CaseResult, b: CaseResult) {
    forall c :: c in criteria ==>
      && (CriterionValue(c, a).Some? <==> CriterionValue(c, b).Some?)
      && (CriterionValue(c, a).Some? ==> AtLeastAsGood(c, CriterionValue(c, a).value, CriterionValue(c, b).value))
  }

  lemma NormalizeMonotone(c: Criterion, a: real, b: real, values: seq<real>)
    requires AtLeastAsGood(c, a, b)
    ensures Normalize(c, a, values) >= Normalize(c, b, values)
  {
    if values != [] {
      var low, high := Least(values), Greatest(values);
      match c.goal
      case Max => if high - low > SPAN_EPS { QuotientMonotone(b - low, a - low, high - low); }
      case Min => if high - low > SPAN_EPS { QuotientMonotone(high - b, high - a, high - low); }
      case Target =>
        if c.target.Some? {
          var reach := Greatest(Distances(values, c.target.value));
          if reach > SPAN_EPS { QuotientMonotone(Abs(a - c.target.value), Abs(b - c.target.value), reach); }
        }
    }
  }

  /** With distinct ids the value filed under a criterion's id is its own. */
  lemma {:induction false} FiledIsOwn(criteria: seq<Criterion>, r: CaseResult, i: nat)
    requires DistinctIds(criteria) && i < |criteria|
    ensures Filed(criteria, r, criteria[i].id) == CriterionValue(criteria[i], r)
  {
    var n := |criteria| - 1;
    if i < n {
      FiledIsOwn(criteria[..n], r, i);
    } else {
      FiledElsewhere(criteria[..n], r, criteria[i].id);
    }
  }

  lemma {:induction false} FiledElsewhere(criteria: seq<Criterion>, r: CaseResult, id: string)
    requires forall i :: 0 <= i < |criteria| ==> criteria[i].id != id
    ensures Filed(criteria, r, id) == None
  {
    if criteria != [] { FiledElsewhere(criteria[..|criteria| - 1], r, id); }
  }

  lemma ScoreDominates(criteria: seq<Criterion>, results: seq<CaseResult>, a: CaseResult, b: CaseResult, i: nat)
    requires i < |criteria| && DistinctIds(criteria) && Dominates(criteria, a, b)
    ensures var sa, sb := Score(criteria, results, criteria[i], a), Score(criteria, results, criteria[i], b);
      (sa.Some? <==> sb.Some?) && (sa.Some? ==> sa.value >= sb.value)
  {
    var c := criteria[i];
    assert c in criteria;
    FiledIsOwn(criteria, a, i);
    FiledIsOwn(criteria, b, i);
    if CriterionValue(c, a).Some? {
      NormalizeMonotone(c, CriterionValue(c, a).value, CriterionValue(c, b).value, AllValues(criteria, results, c.id));
    }
  }

  lemma {:induction false} SumsDominate(
      criteria: seq<Criterion>, results: seq<CaseResult>, a: CaseResult, b: CaseResult, n: nat)
    requires n <= |criteria| && PositiveWeights(criteria) && DistinctIds(criteria) && Dominates(criteria, a, b)
    ensures SumsOf(criteria, results, a, n).weight == SumsOf(criteria, results, b, n).weight
    ensures SumsOf(criteria, results, a, n).weighted >= SumsOf(criteria, results, b, n).weighted
  {
    if n > 0 {
      var c := criteria[n - 1];
      assert c in criteria;
      SumsDominate(criteria, results, a, b, n - 1);
      ScoreDominates(criteria, results, a, b, n - 1);
      AddScoreMonotone(SumsOf(criteria, results, a, n - 1), SumsOf(criteria, results, b, n - 1),
                       Score(criteria, results, c, a), Score(criteria, results, c, b), c.weight);
    }
  }

  /** A result that dominates another has at least its total score. */
  lemma TotalRespectsDominance(criteria: seq<Criterion>, results: seq<CaseResult>, a: CaseResult, b: CaseResult)
    requires PositiveWeights(criteria) && DistinctIds(criteria) && Dominates(criteria, a, b)
    ensures Total(criteria, results, a).Some? <==> Total(criteria, results, b).Some?
    ensures Total(criteria, results, a).Some? ==>
      Total(criteria, results, a).value >= Total(criteria, results, b).value
  {
    SumsDominate(criteria, results, a, b, |criteria|);
    var sa, sb := SumsOf(criteria, results, a, |criteria|), SumsOf(criteria, results, b, |criteria|);
    if sa.weight > 0.0 { QuotientMonotone(sb.weighted, sa.weighted, sa.weight); }
  }

  // ---------------------------------------------------------------------------------------
  // The weighted mean
  // ---------------------------------------------------------------------------------------

  /** The share is that much of the whole. */
  predicate IsShare(share: real, part: real, whole: real) {
    share * whole == part
  }

  /** The case has this number for the metric, or for the value of the expression. */
  predicate Measures(r: CaseResult, metric: Metric, v: real) {
    var numbers := if metric.Named? then r.metrics else r.evaluated;
    var id := match metric case Named(name) => name case Expression(text) => text;
    id in numbers.Keys && numbers[id] == v
  }

  /** Only successful cases have values, for the criteria that list their runner or list none. */
  lemma CriterionValueIff(c: Criterion, r: CaseResult, v: real)
    ensures CriterionValue(c, r) == Some(v) <==>
      r.ok && Measures(r, c.metric, v) && (|c.runners| > 0 ==> exists i :: 0 <= i < |c.runners| && c.runners[i] == r.runner)
  {
  }

  function Successful(results: seq<CaseResult>): seq<CaseResult> {
    if results == [] then []
    else Successful(results[..|results| - 1]) + if results[|results| - 1].ok then [results[|results| - 1]] else []
  }

  lemma {:induction false} ContributesNothing(criteria: seq<Criterion>, r: CaseResult, id: string)
    requires !r.ok
    ensures Contributed(criteria, r, id) == [] && Filed(criteria, r, id) == None
  {
    if criteria != [] { ContributesNothing(criteria[..|criteria| - 1], r, id); }
  }

  lemma {:induction false} FailuresContributeNothing(criteria: seq<Criterion>, results: seq<CaseResult>, id: string)
    ensures AllValues(criteria, results, id) == AllValues(criteria, Successful(results), id)
  {
    if results != [] {
      var n := |results| - 1;
      FailuresContributeNothing(criteria, results[..n], id);
      if results[n].ok {
        assert Successful(results)[..|Successful(results)| - 1] == Successful(results[..n]);
      } else {
        ContributesNothing(criteria, results[n], id);
        assert Successful(results) == Successful(results[..n]);
      }
    }
  }

  lemma {:induction false} SumsWithoutFailures(criteria: seq<Criterion>, results: seq<CaseResult>, r: CaseResult, n: nat)
    requires n <= |criteria|
    ensures SumsOf(criteria, results, r, n) == SumsOf(criteria, Successful(results), r, n)
    ensures !r.ok ==> SumsOf(criteria, results, r, n) == Sums(0.0, 0.0)
  {
    if n > 0 {
      SumsWithoutFailures(criteria, results, r, n - 1);
      FailuresContributeNothing(criteria, results, criteria[n - 1].id);
      if !r.ok { ContributesNothing(criteria, r, criteria[n - 1].id); }
    }
  }

  /** Failed cases get no score, and do not change those of the others, whichever ids are the same. */
  lemma FailuresDontCount(criteria: seq<Criterion>, results: seq<CaseResult>, r: CaseResult)
    ensures RowOf(criteria, results, r) == RowOf(criteria, Successful(results), r)
    ensures !r.ok ==> RowOf(criteria, results, r) == Row(r, None, 0.0)
  {
    SumsWithoutFailures(criteria, results, r, |criteria|);
  }

  /** The values of a criterion's own, in the order of the results that have one. */
  function ValuesOf(c: Criterion, results: seq<CaseResult>): seq<real> {
    if results == [] then []
    else
      var n := |results| - 1;
      ValuesOf(c, results[..n]) + if CriterionValue(c, results[n]).Some? then [CriterionValue(c, results[n]).value] else []
  }

  lemma {:induction false} ContributedElsewhere(criteria: seq<Criterion>, r: CaseResult, id: string)
    requires forall i :: 0 <= i < |criteria| ==> criteria[i].id != id
    ensures Contributed(criteria, r, id) == []
  {
    if criteria != [] { ContributedElsewhere(criteria[..|criteria| - 1], r, id); }
  }

  lemma {:induction false} ContributedIsOwn(criteria: seq<Criterion>, r: CaseResult, i: nat)
    requires DistinctIds(criteria) && i < |criteria|
    ensures Contributed(criteria, r, criteria[i].id) == ValuesOf(criteria[i], [r])
  {
    var n := |criteria| - 1;
    if i < n { ContributedIsOwn(criteria[..n], r, i); } else { ContributedElsewhere(criteria[..n], r, criteria[i].id); }
  }

  /** With distinct ids a criterion is held against its own values only. */
  lemma {:induction false} AllValuesOwn(criteria: seq<Criterion>, results: seq<CaseResult>, i: nat)
    requires DistinctIds(criteria) && i < |criteria|
    ensures AllValues(criteria, results, criteria[i].id) == ValuesOf(criteria[i], results)
  {
    if results != [] {
      AllValuesOwn(criteria, results[..|results| - 1], i);
      ContributedIsOwn(criteria, results[|results| - 1], i);
    }
  }

  lemma {:induction false} ValuesOfMember(c: Criterion, results: seq<CaseResult>, v: real)
    ensures v in ValuesOf(c, results) <==> exists r :: r in results && CriterionValue(c, r) == Some(v)
  {
    if results != [] {
      var n := |results| - 1;
      ValuesOfMember(c, results[..n], v);
      assert results == results[..n] + [results[n]];
    }
  }

  function Sum(xs: seq<real>): real {
    if xs == [] then 0.0 else Sum(xs[..|xs| - 1]) + xs[|xs| - 1]
  }

  /** The weight of a criterion that has a value for the result. */
  function WeightTerm(c: Criterion, r: CaseResult): real {
    if CriterionValue(c, r).Some? then c.weight else 0.0
  }

  /** The normalised value. */
  function OwnScore(c: Criterion, results: seq<CaseResult>, r: CaseResult): Option<real> {
    match CriterionValue(c, r)
    case None => None
    case Some(v) => Some(Normalize(c, v, ValuesOf(c, results)))
  }

  /** The normalised value times the weight. */
  function ScoreTerm(c: Criterion, results: seq<CaseResult>, r: CaseResult): real {
    Weighted(OwnScore(c, results, r), c.weight)
  }

  function Weighted(score: Option<real>, weight: real): real {
    match score
    case None => 0.0
    case Some(x) => x * weight
  }

  lemma AddScoreIs(s: Sums, score: Option<real>, weight: real)
    ensures AddScore(s, score, weight) == Sums(s.weighted + Weighted(score, weight), s.weight + if score.Some? then weight else 0.0)
  {
  }

  function WeightTerms(criteria: seq<Criterion>, r: CaseResult): seq<real> {
    seq(|criteria|, i requires 0 <= i < |criteria| => WeightTerm(criteria[i], r))
  }

  function ScoreTerms(criteria: seq<Criterion>, results: seq<CaseResult>, r: CaseResult): seq<real> {
    seq(|criteria|, i requires 0 <= i < |criteria| => ScoreTerm(criteria[i], results, r))
  }

  lemma SumStep(xs: seq<real>, n: nat)
    requires n < |xs|
    ensures Sum(xs[..n + 1]) == Sum(xs[..n]) + xs[n]
  {
    assert xs[..n + 1][..n] == xs[..n];
  }

  lemma ScoreIsOwn(criteria: seq<Criterion>, results: seq<CaseResult>, r: CaseResult, i: nat)
    requires DistinctIds(criteria) && i < |criteria|
    ensures Score(criteria, results, criteria[i], r) == OwnScore(criteria[i], results, r)
  {
    FiledIsOwn(criteria, r, i);
    AllValuesOwn(criteria, results, i);
  }

  lemma AddScoreTerms(c: Criterion, results: seq<CaseResult>, r: CaseResult, s: Sums)
    ensures AddScore(s, OwnScore(c, results, r), c.weight) == Sums(s.weighted + ScoreTerm(c, results, r), s.weight + WeightTerm(c, r))
  {
    AddScoreIs(s, OwnScore(c, results, r), c.weight);
  }

  lemma {:induction false} SumsAreSums(criteria: seq<Criterion>, results: seq<CaseResult>, r: CaseResult, n: nat)
    requires DistinctIds(criteria) && n <= |criteria|
    ensures SumsOf(criteria, results, r, n) ==
      Sums(Sum(ScoreTerms(criteria, results, r)[..n]), Sum(WeightTerms(criteria, r)[..n]))
  {
    if n > 0 {
      SumsAreSums(criteria, results, r, n - 1);
      ScoreIsOwn(criteria, results, r, n - 1);
      AddScoreTerms(criteria[n - 1], results, r, SumsOf(criteria, results, r, n - 1));
      SumStep(ScoreTerms(criteria, results, r), n - 1);
      SumStep(WeightTerms(criteria, r), n - 1);
    }
  }

  lemma {:induction false} PositiveSum(xs: seq<real>)
    requires forall i :: 0 <= i < |xs| ==> xs[i] >= 0.0
    ensures Sum(xs) >= 0.0 && (Sum(xs) > 0.0 <==> exists i :: 0 <= i < |xs| && xs[i] > 0.0)
  {
    if xs != [] {
      var n := |xs| - 1;
      PositiveSum(xs[..n]);
      if i :| 0 <= i < |xs| && xs[i] > 0.0 && i < n { assert xs[..n][i] > 0.0; }
    }
  }

  /**
   * The total is the mean of the normalised values, weighted by the criteria that have a value for
   * the result.  There is one if some criterion has a value.
   */
  lemma TotalIsWeightedMean(criteria: seq<Criterion>, results: seq<CaseResult>, r: CaseResult)
    requires DistinctIds(criteria)
    ensures var row := RowOf(criteria, results, r);
      && row.result == r && row.weightTotal == Sum(WeightTerms(criteria, r))
      && (row.total.Some? ==> IsShare(row.total.value, Sum(ScoreTerms(criteria, results, r)), row.weightTotal))
      && (row.total.Some? <==> row.weightTotal > 0.0)
      && (PositiveWeights(criteria) ==> (row.total.Some? <==> exists c :: c in criteria && CriterionValue(c, r).Some?))
  {
    SumsAreSums(criteria, results, r, |criteria|);
    var weights, scores := WeightTerms(criteria, r), ScoreTerms(criteria, results, r);
    assert weights[..|criteria|] == weights && scores[..|criteria|] == scores;
    if PositiveWeights(criteria) { SomeWeight(criteria, r); }
    if Sum(weights) > 0.0 { Share(Sum(scores), Sum(weights)); }
  }

  lemma SomeWeight(criteria: seq<Criterion>, r: CaseResult)
    requires PositiveWeights(criteria)
    ensures Sum(WeightTerms(criteria, r)) > 0.0 <==> exists c :: c in criteria && CriterionValue(c, r).Some?
  {
    var weights := WeightTerms(criteria, r);
    forall i | 0 <= i < |weights| ensures weights[i] >= 0.0 && (weights[i] > 0.0 <==> CriterionValue(criteria[i], r).Some?) {
      assert criteria[i] in criteria;
    }
    PositiveSum(weights);
    if i :| 0 <= i < |weights| && weights[i] > 0.0 {
      assert criteria[i] in criteria && CriterionValue(criteria[i], r).Some?;
    }
    if c :| c in criteria && CriterionValue(c, r).Some? {
      var i :| 0 <= i < |criteria| && criteria[i] == c;
      assert weights[i] > 0.0;
    }
  }

  ghost predicate Extremes(vs: seq<real>, low: real, high: real) {
    low in vs && high in vs && forall v :: v in vs ==> low <= v <= high
  }

  /**
   * A value among others scores its share of the way from the worst of them to the best, or to the
   * target; without a way to go it scores one.  Nothing is cut off.
   */
  lemma NormalizeIsAffine(c: Criterion, value: real, values: seq<real>, low: real, high: real)
    requires value in values && Extremes(values, low, high)
    ensures var score, span := Normalize(c, value, values), high - low;
      match c.goal
      case Max => if span <= SPAN_EPS then score == 1.0 else IsShare(score, value - low, span)
      case Min => if span <= SPAN_EPS then score == 1.0 else IsShare(score, high - value, span)
      case Target =>
        if c.target.None? then score == 0.0
        else
          var t := c.target.value;
          var reach := if Abs(low - t) < Abs(high - t) then Abs(high - t) else Abs(low - t);
          if reach <= SPAN_EPS then score == 1.0 else IsShare(score, reach - Abs(value - t), reach)
  {
    assert low == Least(values) && high == Greatest(values);
    match c.goal
    case Max => NormalizeMax(c, value, values);
    case Min => NormalizeMin(c, value, values);
    case Target => if c.target.Some? { NormalizeTarget(c, value, values); ReachIs(values, c.target.value, low, high); }
  }

  lemma NormalizeMax(c: Criterion, value: real, values: seq<real>)
    requires value in values && c.goal.Max?
    ensures var score, low, high := Normalize(c, value, values), Least(values), Greatest(values);
      if high - low <= SPAN_EPS then score == 1.0 else IsShare(score, value - low, high - low)
  {
    var low, high := Least(values), Greatest(values);
    if high - low > SPAN_EPS { Share(value - low, high - low); ShareWithin(value - low, high - low); }
  }

  lemma NormalizeMin(c: Criterion, value: real, values: seq<real>)
    requires value in values && c.goal.Min?
    ensures var score, low, high := Normalize(c, value, values), Least(values), Greatest(values);
      if high - low <= SPAN_EPS then score == 1.0 else IsShare(score, high - value, high - low)
  {
    var low, high := Least(values), Greatest(values);
    if high - low > SPAN_EPS { Share(high - value, high - low); ShareWithin(high - value, high - low); }
  }

  lemma NormalizeTarget(c: Criterion, value: real, values: seq<real>)
    requires value in values && c.goal.Target? && c.target.Some?
    ensures var score, t := Normalize(c, value, values), c.target.value;
      var reach := Greatest(Distances(values, t));
      if reach <= SPAN_EPS then score == 1.0 else IsShare(score, reach - Abs(value - t), reach)
  {
    var t := c.target.value;
    var ds := Distances(values, t);
    var i :| 0 <= i < |values| && values[i] == value;
    assert ds[i] == Abs(value - t) && ds[i] in ds;
    if Greatest(ds) > SPAN_EPS { Share(ds[i], Greatest(ds)); ShareWithin(ds[i], Greatest(ds)); }
  }

  lemma Share(part: real, all: real)
    requires all != 0.0
    ensures IsShare(part / all, part, all) && IsShare(1.0 - part / all, all - part, all)
  {
    assert part / all * all == part;
  }

  lemma ShareWithin(part: real, all: real)
    requires 0.0 <= part <= all && all > 0.0
    ensures Clamp(part / all) == part / all && Clamp(1.0 - part / all) == 1.0 - part / all
  {
    QuotientWithin(part, all);
  }

  lemma ReachIs(values: seq<real>, t: real, low: real, high: real)
    requires Extremes(values, low, high)
    ensures Greatest(Distances(values, t)) == if Abs(low - t) < Abs(high - t) then Abs(high - t) else Abs(low - t)
  {
    var ds := Distances(values, t);
    var i :| 0 <= i < |values| && values[i] == low;
    var j :| 0 <= j < |values| && values[j] == high;
    assert ds[i] == Abs(low - t) && ds[j] == Abs(high - t);
    assert ds[i] in ds && ds[j] in ds;
    forall d | d in ds ensures d <= Abs(low - t) || d <= Abs(high - t) {
      var k :| 0 <= k < |ds| && ds[k] == d;
      assert values[k] in values;
    }
  }

  /** What the values of a criterion are spread over. */
  function Spread(c: Criterion, values: seq<real>): real
    requires values != []
  {
    if c.goal.Target? && c.target.Some? then Greatest(Distances(values, c.target.value))
    else Greatest(values) - Least(values)
  }

  /** Of two values the better one scores higher, unless they are all about the same. */
  lemma NormalizeOrders(c: Criterion, a: real, b: real, values: seq<real>)
    requires a in values && b in values && Spread(c, values) > SPAN_EPS && (c.goal.Target? ==> c.target.Some?)
    ensures Normalize(c, a, values) >= Normalize(c, b, values) <==> AtLeastAsGood(c, a, b)
  {
    if AtLeastAsGood(c, a, b) { NormalizeMonotone(c, a, b, values); } else { BetterScoresMore(c, b, a, values); }
  }

  lemma BetterScoresMore(c: Criterion, a: real, b: real, values: seq<real>)
    requires a in values && b in values && Spread(c, values) > SPAN_EPS && (c.goal.Target? ==> c.target.Some?)
    requires !AtLeastAsGood(c, b, a)
    ensures Normalize(c, a, values) > Normalize(c, b, values)
  {
    var spread, sa, sb := Spread(c, values), Normalize(c, a, values), Normalize(c, b, values);
    match c.goal
    case Max =>
      NormalizeMax(c, a, values);
      NormalizeMax(c, b, values);
      ShareOrders(sa, a - Least(values), sb, b - Least(values), spread);
    case Min =>
      NormalizeMin(c, a, values);
      NormalizeMin(c, b, values);
      ShareOrders(sa, Greatest(values) - a, sb, Greatest(values) - b, spread);
    case Target =>
      NormalizeTarget(c, a, values);
      NormalizeTarget(c, b, values);
      ShareOrders(sa, spread - Abs(a - c.target.value), sb, spread - Abs(b - c.target.value), spread);
  }

  lemma ShareOrders(share: real, part: real, share': real, part': real, whole: real)
    requires IsShare(share, part, whole) && IsShare(share', part', whole) && whole > 0.0 && part > part'
    ensures share > share'
  {
  }

  // ---------------------------------------------------------------------------------------
  // The leaderboard
  // ---------------------------------------------------------------------------------------

  /** A scored result; `total` is none for results that no criterion applies to. */
  datatype Row = Row(result: CaseResult, total: Option<real>, weightTotal: real)

  function Latency(r: CaseResult): real {
    if "mean_latency_ms" in r.metrics then r.metrics["mean_latency_ms"] else NO_LATENCY
  }

  /** Higher totals first; equal totals by mean latency. */
  function RowKey(row: Row): Key {
    (match row.total case Some(t) => -t case None => 0.0, Latency(row.result))
  }

  function RowOf(criteria: seq<Criterion>, results: seq<CaseResult>, r: CaseResult): Row {
    Row(r, Total(criteria, results, r), SumsOf(criteria, results, r, |criteria|).weight)
  }

  function RowsOf(criteria: seq<Criterion>, results: seq<CaseResult>): seq<Row> {
    seq(|results|, i requires 0 <= i < |results| => RowOf(criteria, results, results[i]))
  }

  predicate Ranked(row: Row) {
    row.result.ok && row.total.Some?
  }

  function RankedRows(rows: seq<Row>): seq<Row> {
    if rows == [] then []
    else RankedRows(rows[..|rows| - 1]) + if Ranked(rows[|rows| - 1]) then [rows[|rows| - 1]] else []
  }

  function Leaderboard(criteria: seq<Criterion>, results: seq<CaseResult>): seq<Row> {
    Sort(RankedRows(RowsOf(criteria, results)), RowKey)
  }

  /** A successful case with a total is ranked as often as it occurs, and nothing else is. */
  lemma {:induction false} RankedRowsCount(rows: seq<Row>, row: Row)
    ensures multiset(RankedRows(rows))[row] == if row.result.ok && row.total.Some? then multiset(rows)[row] else 0
  {
    if rows != [] {
      var n := |rows| - 1;
      RankedRowsCount(rows[..n], row);
      assert rows == rows[..n] + [rows[n]];
    }
  }

  /** `a` may come before `b`: its total is higher, or the same and its latency no greater. */
  predicate MayPrecede(a: Row, b: Row) {
    && a.total.Some? && b.total.Some?
    && (a.total.value > b.total.value || (a.total.value == b.total.value && Latency(a.result) <= Latency(b.result)))
  }

  /** Exactly the rows of successful results with a total are on the board, best total first. */
  lemma LeaderboardContents(criteria: seq<Criterion>, results: seq<CaseResult>)
    ensures var rows, board := RowsOf(criteria, results), Leaderboard(criteria, results);
      && (forall row: Row :: multiset(board)[row] == if row.result.ok && row.total.Some? then multiset(rows)[row] else 0)
      && (forall i, j :: 0 <= i < j < |board| ==> MayPrecede(board[i], board[j]))
  {
    var rows, board := RowsOf(criteria, results), Leaderboard(criteria, results);
    SortSorted(RankedRows(rows), RowKey);
    SortMultiset(RankedRows(rows), RowKey);
    forall row: Row ensures multiset(board)[row] == if row.result.ok && row.total.Some? then multiset(rows)[row] else 0 {
      RankedRowsCount(rows, row);
    }
    forall i, j | 0 <= i < j < |board| ensures MayPrecede(board[i], board[j]) {
      assert board[i] in multiset(board) && board[j] in multiset(board);
      assert !KeyLess(RowKey(board[j]), RowKey(board[i]));
    }
  }

  /**
   * The board respects dominance: a result listed before one that dominates it has the same total
   * and no greater latency.
   */
  lemma LeaderboardRespectsDominance(criteria: seq<Criterion>, results: seq<CaseResult>, i: nat, j: nat)
    requires PositiveWeights(criteria) && DistinctIds(criteria)
    requires i < j < |Leaderboard(criteria, results)|
    requires Dominates(criteria, Leaderboard(criteria, results)[j].result, Leaderboard(criteria, results)[i].result)
    ensures var board := Leaderboard(criteria, results);
      board[i].total == board[j].total && Latency(board[i].result) <= Latency(board[j].result)
  {
    var board := Leaderboard(criteria, results);
    LeaderboardContents(criteria, results);
    assert MayPrecede(board[i], board[j]);
    TotalRespectsDominance(criteria, results, board[j].result, board[i].result);
  }

  // ---------------------------------------------------------------------------------------
  // The loops
  // ---------------------------------------------------------------------------------------

  type Lookup = map<(nat, string), real>

  method ScoreResults(criteria: seq<Criterion>, results: seq<CaseResult>) returns (rows: seq<Row>, board: seq<Row>)
    ensures rows == RowsOf(criteria, results)
    ensures board == Leaderboard(criteria, results)
  {
    var values, lookup := CollectValues(criteria, results);
    rows := [];
    for k := 0 to |results|
      invariant rows == RowsOf(criteria, results)[..k]
    {
      var s := WeighCase(criteria, results, k, values, lookup);
      rows := rows + [Row(results[k], if s.weight > 0.0 then Some(s.weighted / s.weight) else None, s.weight)];
    }
    var ranked: seq<Row> := [];
    assert rows[..0] == [];
    for k := 0 to |rows|
      invariant ranked == RankedRows(rows[..k])
    {
      assert rows[..k + 1][..k] == rows[..k];
      if Ranked(rows[k]) { ranked := ranked + [rows[k]]; }
    }
    assert rows[..|rows|] == rows;
    board := Sort(ranked, RowKey);
  }

  ghost predicate IsLookup(lookup: Lookup, criteria: seq<Criterion>, results: seq<CaseResult>, k: nat)
    requires k <= |results|
  {
    && (forall j, id :: (j, id) in lookup ==> j < k)
    && (forall j: nat, id :: j < k ==> LookupAt(lookup, j, id) == Filed(criteria, results[j], id))
  }

  function LookupAt(lookup: Lookup, j: nat, id: string): Option<real> {
    if (j, id) in lookup then Some(lookup[(j, id)]) else None
  }

  ghost predicate IsValues(values: map<string, seq<real>>, criteria: seq<Criterion>, results: seq<CaseResult>) {
    && (forall c :: c in criteria ==> c.id in values)
    && (forall id :: id in values ==> values[id] == AllValues(criteria, results, id))
  }

  method CollectValues(criteria: seq<Criterion>, results: seq<CaseResult>)
      returns (values: map<string, seq<real>>, lookup: Lookup)
    ensures IsValues(values, criteria, results)
    ensures IsLookup(lookup, criteria, results, |results|)
  {
    values := map c | c in criteria :: c.id := [];
    lookup := map[];
    assert results[..0] == [] && results[..|results|] == results;
    for k := 0 to |results|
      invariant IsValues(values, criteria, results[..k])
      invariant IsLookup(lookup, criteria, results, k)
    {
      assert results[..k + 1][..k] == results[..k];
      values, lookup := FileCase(criteria, results, k, values, lookup);
    }
  }

  method FileCase(criteria: seq<Criterion>, results: seq<CaseResult>, k: nat, values0: map<string, seq<real>>, lookup0: Lookup)
      returns (values: map<string, seq<real>>, lookup: Lookup)
    requires k < |results| && (forall c :: c in criteria ==> c.id in values0)
    requires IsLookup(lookup0, criteria, results, k)
    ensures ValuesUpTo(criteria, results[k], values0, values)
    ensures IsLookup(lookup, criteria, results, k + 1)
  {
    values, lookup := values0, lookup0;
    LookupStart(criteria, results, k, lookup0);
    ValuesStart(results[k], values0);
    assert criteria[..0] == [] && criteria[..|criteria|] == criteria;
    for n := 0 to |criteria|
      invariant ValuesUpTo(criteria[..n], results[k], values0, values)
      invariant LookupUpTo(criteria[..n], results, k, lookup0, lookup)
    {
      assert criteria[n] in criteria;
      values, lookup := FileValue(criteria[..n], criteria[n], results, k, values0, values, lookup0, lookup);
      assert criteria[..n + 1] == criteria[..n] + [criteria[n]];
    }
    LookupEnd(criteria, results, k, lookup0, lookup);
  }

  method FileValue(ghost criteria: seq<Criterion>, c: Criterion, results: seq<CaseResult>, k: nat,
                   ghost values0: map<string, seq<real>>, values1: map<string, seq<real>>,
                   ghost lookup0: Lookup, lookup1: Lookup)
      returns (values: map<string, seq<real>>, lookup: Lookup)
    requires k < |results| && c.id in values1
    requires ValuesUpTo(criteria, results[k], values0, values1) && LookupUpTo(criteria, results, k, lookup0, lookup1)
    ensures ValuesUpTo(criteria + [c], results[k], values0, values)
    ensures LookupUpTo(criteria + [c], results, k, lookup0, lookup)
  {
    values, lookup := values1, lookup1;
    ValuesStep(criteria, c, results[k], values0, values1);
    LookupStep(criteria, c, results, k, lookup0, lookup1);
    var value := CriterionValue(c, results[k]);
    if value.Some? {
      lookup := lookup[(k, c.id) := value.value];
      values := values[c.id := values[c.id] + [value.value]];
    }
  }

  ghost predicate ValuesUpTo(
      criteria: seq<Criterion>, r: CaseResult, values0: map<string, seq<real>>, values: map<string, seq<real>>)
  {
    && values.Keys == values0.Keys
    && forall id :: id in values ==> values[id] == values0[id] + Contributed(criteria, r, id)
  }

  ghost predicate LookupUpTo(criteria: seq<Criterion>, results: seq<CaseResult>, k: nat, lookup0: Lookup, lookup: Lookup)
    requires k < |results|
  {
    && (forall j, id :: (j, id) in lookup ==> j <= k)
    && (forall j: nat, id :: j < k ==> LookupAt(lookup, j, id) == LookupAt(lookup0, j, id))
    && (forall id :: LookupAt(lookup, k, id) == Filed(criteria, results[k], id))
  }

  lemma ValuesStep(
      criteria: seq<Criterion>, c: Criterion, r: CaseResult, values0: map<string, seq<real>>, values: map<string, seq<real>>)
    requires ValuesUpTo(criteria, r, values0, values) && c.id in values
    ensures ValuesUpTo(criteria + [c], r, values0,
                       match CriterionValue(c, r) case None => values case Some(v) => values[c.id := values[c.id] + [v]])
  {
  }

  lemma ValuesStart(r: CaseResult, values: map<string, seq<real>>)
    ensures ValuesUpTo([], r, values, values)
  {
  }

  lemma LookupStart(criteria: seq<Criterion>, results: seq<CaseResult>, k: nat, lookup: Lookup)
    requires k < |results| && IsLookup(lookup, criteria, results, k)
    ensures LookupUpTo([], results, k, lookup, lookup)
  {
  }

  lemma LookupStep(
      criteria: seq<Criterion>, c: Criterion, results: seq<CaseResult>, k: nat, lookup0: Lookup, lookup: Lookup)
    requires k < |results| && LookupUpTo(criteria, results, k, lookup0, lookup)
    ensures LookupUpTo(criteria + [c], results, k, lookup0,
                       match CriterionValue(c, results[k]) case None => lookup case Some(v) => lookup[(k, c.id) := v])
  {
    var more := criteria + [c];
    assert more[..|more| - 1] == criteria && more[|more| - 1] == c;
    if CriterionValue(c, results[k]).Some? {
      var lookup' := lookup[(k, c.id) := CriterionValue(c, results[k]).value];
      forall j: nat, id | j < k ensures LookupAt(lookup', j, id) == LookupAt(lookup0, j, id) {
        assert (j, id) != (k, c.id) && LookupAt(lookup, j, id) == LookupAt(lookup0, j, id);
      }
      forall id ensures LookupAt(lookup', k, id) == Filed(more, results[k], id) {
        assert LookupAt(lookup, k, id) == Filed(criteria, results[k], id);
        assert id != c.id ==> (k, id) != (k, c.id);
      }
    }
  }

  lemma LookupEnd(criteria: seq<Criterion>, results: seq<CaseResult>, k: nat, lookup0: Lookup, lookup: Lookup)
    requires k < |results| && IsLookup(lookup0, criteria, results, k)
    requires LookupUpTo(criteria, results, k, lookup0, lookup)
    ensures IsLookup(lookup, criteria, results, k + 1)
  {
  }

  method WeighCase(criteria: seq<Criterion>, results: seq<CaseResult>, k: nat, values: map<string, seq<real>>, lookup: Lookup)
      returns (s: Sums)
    requires k < |results| && IsValues(values, criteria, results) && IsLookup(lookup, criteria, results, |results|)
    ensures s == SumsOf(criteria, results, results[k], |criteria|)
  {
    s := Sums(0.0, 0.0);
    for n := 0 to |criteria|
      invariant s == SumsOf(criteria, results, results[k], n)
    {
      var c := criteria[n];
      assert LookupAt(lookup, k, c.id) == Filed(criteria, results[k], c.id);
      if (k, c.id) in lookup {
        var normalized := Normalize(c, lookup[(k, c.id)], values[c.id]);
        assert Score(criteria, results, c, results[k]) == Some(normalized);
        s := AddScore(s, Some(normalized), c.weight);
      }
    }
  }
}
