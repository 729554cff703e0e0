/** The model filter: mutable rule lists, and a status cache with per-rule counts. */
module Filtering {
  import opened Wrappers
  import opened Glob
  import opened FilterRules

  datatype Kind = Ignore | Whitelist
  datatype Status = Normal | Ignored | Whitelisted

  const NORMAL_COLOR := "#2ecc71"
  const IGNORE_COLORS := ["#e74c3c", "#c0392b", "#e67e22", "#d35400", "#f39c12",
                          "#e91e63", "#ff5722", "#f44336", "#ff6b6b", "#ff8a65"]
  const WHITELIST_COLORS := ["#3498db", "#2980b9", "#1abc9c", "#16a085", "#9b59b6",
                             "#8e44ad", "#00bcd4", "#2196f3", "#64b5f6", "#4dd0e1"]

  class FilterRule {
    const pattern: Pattern
    const color: string
    const kind: Kind
    var affectedCount: nat
    var affectedModels: seq<string>

    constructor (pattern: Pattern, color: string, kind: Kind)
      ensures this.pattern == pattern && this.color == color && this.kind == kind
      ensures affectedCount == 0 && affectedModels == []
    {
      this.pattern, this.color, this.kind := pattern, color, kind;
      affectedCount, affectedModels := 0, [];
    }
  }

  datatype ModelStatus = ModelStatus(modelId: string, status: Status, color: string, rule: FilterRule?)

  // ---------------------------------------------------------------------------------------
  // Statuses and charges as functions of the rule lists
  // ---------------------------------------------------------------------------------------

  function FirstMatch(rules: seq<FilterRule>, modelId: string): FilterRule? {
    if rules == [] then null
    else if PatternMatches(modelId, rules[0].pattern) then rules[0]
    else FirstMatch(rules[1..], modelId)
  }

  /** Whitelist rules take priority over ignore rules. */
  function StatusOf(ignore: seq<FilterRule>, whitelist: seq<FilterRule>, modelId: string): ModelStatus {
    var w := FirstMatch(whitelist, modelId);
    if w != null then ModelStatus(modelId, Whitelisted, w.color, w)
    else
      var g := FirstMatch(ignore, modelId);
      if g != null then ModelStatus(modelId, Ignored, g.color, g)
      else ModelStatus(modelId, Normal, NORMAL_COLOR, null)
  }

  /** The models that are charged to a rule, in order. */
  function Charged(ignore: seq<FilterRule>, whitelist: seq<FilterRule>, rule: FilterRule, models: seq<string>): seq<string>
  {
    if models == [] then []
    else
      var rest := models[..|models| - 1];
      var last := models[|models| - 1];
      Charged(ignore, whitelist, rule, rest) + if StatusOf(ignore, whitelist, last).rule == rule then [last] else []
  }

  /** How many models are not ignored. */
  function AvailableCount(ignore: seq<FilterRule>, whitelist: seq<FilterRule>, models: seq<string>): nat {
    if models == [] then 0
    else
      AvailableCount(ignore, whitelist, models[..|models| - 1]) +
      if StatusOf(ignore, whitelist, models[|models| - 1]).status != Ignored then 1 else 0
  }

  function ChargedTotal(
      ignore: seq<FilterRule>, whitelist: seq<FilterRule>, rules: seq<FilterRule>, models: seq<string>): nat
    decreases |rules|
  {
    if rules == [] then 0
    else |Charged(ignore, whitelist, rules[0], models)| + ChargedTotal(ignore, whitelist, rules[1..], models)
  }

  ghost predicate HasCharges(r: FilterRule, models: seq<string>)
    reads r
  {
    r.affectedModels == models && r.affectedCount == |models|
  }

  lemma CountsNext(ignore: seq<FilterRule>, whitelist: seq<FilterRule>, models: seq<string>, i: nat)
    requires i < |models|
    ensures AvailableCount(ignore, whitelist, models[..i + 1]) ==
      AvailableCount(ignore, whitelist, models[..i]) + if StatusOf(ignore, whitelist, models[i]).status != Ignored then 1 else 0
    ensures forall r ::
      Charged(ignore, whitelist, r, models[..i + 1]) ==
      Charged(ignore, whitelist, r, models[..i]) + if StatusOf(ignore, whitelist, models[i]).rule == r then [models[i]] else []
  {
    assert models[..i + 1][..i] == models[..i] && models[..i + 1][i] == models[i];
  }

  ghost predicate Different(rules: seq<FilterRule>) {
    forall i, j :: 0 <= i < j < |rules| ==> rules[i] != rules[j]
  }

  lemma {:induction false} FirstMatchIsFirst(rules: seq<FilterRule>, modelId: string)
    ensures FirstMatch(rules, modelId) == null <==>
      forall i :: 0 <= i < |rules| ==> !PatternMatches(modelId, rules[i].pattern)
    ensures FirstMatch(rules, modelId) != null ==> exists i ::
      && 0 <= i < |rules| && FirstMatch(rules, modelId) == rules[i] && PatternMatches(modelId, rules[i].pattern)
      && forall j :: 0 <= j < i ==> !PatternMatches(modelId, rules[j].pattern)
  {
    if rules != [] {
      if PatternMatches(modelId, rules[0].pattern) {
        assert FirstMatch(rules, modelId) == rules[0];
      } else {
        FirstMatchIsFirst(rules[1..], modelId);
        forall i | 0 <= i < |rules| && FirstMatch(rules[1..], modelId) == null
          ensures !PatternMatches(modelId, rules[i].pattern)
        {
          if i > 0 { assert rules[1..][i - 1] == rules[i]; }
        }
        if FirstMatch(rules[1..], modelId) != null {
          var i :| 0 <= i < |rules[1..]| && FirstMatch(rules[1..], modelId) == rules[1..][i]
                   && PatternMatches(modelId, rules[1..][i].pattern)
                   && forall j :: 0 <= j < i ==> !PatternMatches(modelId, rules[1..][j].pattern);
          assert rules[i + 1] == rules[1..][i];
          forall j | 0 <= j < i + 1 ensures !PatternMatches(modelId, rules[j].pattern) {
            if j > 0 { assert rules[1..][j - 1] == rules[j]; }
          }
        }
      }
    }
  }

  /** Each model is charged to its first matching whitelist rule, else to its first matching ignore rule. */
  lemma ChargedToFirstMatch(ignore: seq<FilterRule>, whitelist: seq<FilterRule>, modelId: string)
    ensures var s := StatusOf(ignore, whitelist, modelId);
      && (s.status == Whitelisted <==> AnyMatches(Patterns(whitelist), modelId))
      && (s.status == Ignored <==> !AnyMatches(Patterns(whitelist), modelId) && AnyMatches(Patterns(ignore), modelId))
      && (s.status == Whitelisted ==> s.rule == FirstMatch(whitelist, modelId) && s.rule in whitelist)
      && (s.status == Ignored ==> s.rule == FirstMatch(ignore, modelId) && s.rule in ignore)
      && (s.rule == null <==> s.status == Normal)
  {
    FirstMatchIsFirst(whitelist, modelId);
    FirstMatchIsFirst(ignore, modelId);
    if i :| 0 <= i < |whitelist| && PatternMatches(modelId, whitelist[i].pattern) {
      assert Patterns(whitelist)[i] == whitelist[i].pattern;
    }
    if i :| 0 <= i < |ignore| && PatternMatches(modelId, ignore[i].pattern) {
      assert Patterns(ignore)[i] == ignore[i].pattern;
    }
  }

  function Patterns(rules: seq<FilterRule>): seq<Pattern> {
    seq(|rules|, i requires 0 <= i < |rules| => rules[i].pattern)
  }

  /** One more model adds to exactly one of the available ones and the charges of the given rules. */
  lemma {:induction false} ChargedTotalGrows(
      ignore: seq<FilterRule>, whitelist: seq<FilterRule>, rules: seq<FilterRule>, models: seq<string>, m: string)
    requires Different(rules)
    ensures ChargedTotal(ignore, whitelist, rules, models + [m]) ==
      ChargedTotal(ignore, whitelist, rules, models) + if StatusOf(ignore, whitelist, m).rule in rules then 1 else 0
    decreases |rules|
  {
    if rules != [] {
      ChargedTotalGrows(ignore, whitelist, rules[1..], models, m);
      assert (models + [m])[..|models|] == models;
      assert forall r :: r in rules <==> r == rules[0] || r in rules[1..];
    }
  }

  /** The available models and the ignore rules' charges add up to all models. */
  lemma {:induction false} CountsAddUp(ignore: seq<FilterRule>, whitelist: seq<FilterRule>, models: seq<string>)
    requires Different(ignore) && forall r :: r in ignore ==> r !in whitelist
    ensures AvailableCount(ignore, whitelist, models) + ChargedTotal(ignore, whitelist, ignore, models) == |models|
    decreases |models|
  {
    if models == [] {
      NothingCharged(ignore, whitelist, ignore);
    } else {
      var rest, last := models[..|models| - 1], models[|models| - 1];
      assert models == rest + [last];
      CountsAddUp(ignore, whitelist, rest);
      ChargedTotalGrows(ignore, whitelist, ignore, rest, last);
      ChargedToFirstMatch(ignore, whitelist, last);
    }
  }

  lemma {:induction false} NothingCharged(ignore: seq<FilterRule>, whitelist: seq<FilterRule>, rules: seq<FilterRule>)
    ensures ChargedTotal(ignore, whitelist, rules, []) == 0
  {
    if rules != [] { NothingCharged(ignore, whitelist, rules[1..]); }
  }

  // ---------------------------------------------------------------------------------------
  // The engine
  // ---------------------------------------------------------------------------------------

  /** The color whose turn it is. */
  function ColorAt(kind: Kind, index: nat): string {
    if kind == Ignore then IGNORE_COLORS[index % 10] else WHITELIST_COLORS[index % 10]
  }

  class FilterEngine {
    var ignoreRules: seq<FilterRule>
    var whitelistRules: seq<FilterRule>
    var ignoreColorIndex: nat
    var whitelistColorIndex: nat
    var statusCache: map<string, ModelStatus>
    var availableCount: Option<(nat, nat)>
    var cacheValid: bool

    /** Rules are distinct, and every cached status is the one the current rules give. */
    ghost predicate Valid()
      reads this
    {
      && Different(ignoreRules) && Different(whitelistRules)
      && (forall r :: r in ignoreRules ==> r.kind == Ignore)
      && (forall r :: r in whitelistRules ==> r.kind == Whitelist)
      && (forall m :: m in statusCache ==> statusCache[m] == ComputeStatus(m))
      && (cacheValid ==> availableCount.Some?)
    }

    function ComputeStatus(modelId: string): ModelStatus
      reads this
    {
      StatusOf(ignoreRules, whitelistRules, modelId)
    }

    function Rules(kind: Kind): seq<FilterRule>
      reads this
    {
      if kind == Ignore then ignoreRules else whitelistRules
    }

    constructor ()
      ensures Valid() && ignoreRules == [] && whitelistRules == [] && !cacheValid
      ensures ignoreColorIndex == 0 && whitelistColorIndex == 0
    {
      ignoreRules, whitelistRules, ignoreColorIndex, whitelistColorIndex := [], [], 0, 0;
      statusCache, availableCount, cacheValid := map[], None, false;
    }

    method InvalidateCache()
      modifies this`statusCache, this`availableCount, this`cacheValid
      ensures statusCache == map[] && availableCount == None && !cacheValid
    {
      statusCache, availableCount, cacheValid := map[], None, false;
    }

    method Reset()
      modifies this
      ensures Valid() && ignoreRules == [] && whitelistRules == [] && !cacheValid
      ensures ignoreColorIndex == 0 && whitelistColorIndex == 0
    {
      ignoreRules, whitelistRules := [], [];
      ignoreColorIndex, whitelistColorIndex := 0, 0;
      InvalidateCache();
    }

    /** Colors come round in turn, for each kind of rule by itself. */
    method NextColor(kind: Kind) returns (color: string)
      modifies this`ignoreColorIndex, this`whitelistColorIndex
      ensures color == ColorAt(kind, old(if kind == Ignore then ignoreColorIndex else whitelistColorIndex))
      ensures ignoreColorIndex == old(ignoreColorIndex) + if kind == Ignore then 1 else 0
      ensures whitelistColorIndex == old(whitelistColorIndex) + if kind == Whitelist then 1 else 0
    {
      if kind == Ignore {
        color := IGNORE_COLORS[ignoreColorIndex % |IGNORE_COLORS|];
        ignoreColorIndex := ignoreColorIndex + 1;
      } else {
        color := WHITELIST_COLORS[whitelistColorIndex % |WHITELIST_COLORS|];
        whitelistColorIndex := whitelistColorIndex + 1;
      }
    }

    /** Add a rule for the stripped pattern; nothing happens for an empty or duplicate one. */
    method AddRule(kind: Kind, pattern: Pattern) returns (rule: FilterRule?)
      requires Valid()
      modifies this
      ensures Valid()
      ensures Patterns(Rules(kind)) == AddPlain(old(Patterns(Rules(kind))), pattern)
      ensures rule == null <==> Rules(kind) == old(Rules(kind))
      ensures rule != null ==> fresh(rule) && Rules(kind) == old(Rules(kind)) + [rule] && !cacheValid
      ensures rule != null ==>
        && rule.color == ColorAt(kind, old(if kind == Ignore then ignoreColorIndex else whitelistColorIndex))
        && rule.affectedModels == []
      ensures rule == null ==> cacheValid == old(cacheValid)
      ensures kind == Ignore ==> whitelistRules == old(whitelistRules)
      ensures kind == Whitelist ==> ignoreRules == old(ignoreRules)
    {
      rule := null;
      var bare := StripPattern(pattern);
      if bare == "" { return; }
      var rules := Rules(kind);
      for i := 0 to |rules|
        invariant bare !in Patterns(rules)[..i]
      {
        if rules[i].pattern == bare {
          assert Patterns(rules)[i] == bare;
          return;
        }
      }
      var color := NextColor(kind);
      rule := new FilterRule(bare, color, kind);
      if kind == Ignore { ignoreRules := ignoreRules + [rule]; } else { whitelistRules := whitelistRules + [rule]; }
      InvalidateCache();
      assert Patterns(rules + [rule]) == Patterns(rules) + [bare];
    }

    /** Remove the first rule with this pattern. */
    method RemoveRule(kind: Kind, pattern: Pattern) returns (removed: bool)
      requires Valid()
      modifies this
      ensures Valid()
      ensures removed <==> pattern in old(Patterns(Rules(kind)))
      ensures Patterns(Rules(kind)) == DropFirst(old(Patterns(Rules(kind))), pattern)
      ensures removed ==> exists i ::
        && 0 <= i < |old(Rules(kind))| && old(Rules(kind))[i].pattern == pattern
        && (forall j :: 0 <= j < i ==> old(Rules(kind))[j].pattern != pattern)
        && Rules(kind) == old(Rules(kind))[..i] + old(Rules(kind))[i + 1..] && !cacheValid
      ensures !removed ==> Rules(kind) == old(Rules(kind)) && cacheValid == old(cacheValid)
      ensures kind == Ignore ==> whitelistRules == old(whitelistRules)
      ensures kind == Whitelist ==> ignoreRules == old(ignoreRules)
    {
      var rules := Rules(kind);
      for i := 0 to |rules|
        invariant forall j :: 0 <= j < i ==> rules[j].pattern != pattern
      {
        if rules[i].pattern == pattern {
          var rest := rules[..i] + rules[i + 1..];
          if kind == Ignore { ignoreRules := rest; } else { whitelistRules := rest; }
          InvalidateCache();
          RemovedIsDropped(rules, pattern, i);
          assert Patterns(rules)[i] == pattern;
          return true;
        }
      }
      AbsentIsDropped(rules, pattern);
      removed := false;
    }

    method IsPatternCovered(kind: Kind, pattern: Pattern) returns (covered: bool)
      ensures covered <==> CoveredByAny(pattern, Patterns(Rules(kind)))
    {
      var rules := Rules(kind);
      for i := 0 to |rules|
        invariant forall j :: 0 <= j < i ==> !IsCoveredBy(pattern, rules[j].pattern)
      {
        if IsCoveredBy(pattern, rules[i].pattern) {
          assert Patterns(rules)[i] == rules[i].pattern;
          return true;
        }
      }
      covered := false;
    }

    method GetCoveredPatterns(kind: Kind, pattern: Pattern) returns (covered: seq<Pattern>)
      ensures forall q :: q in covered <==> q in Patterns(Rules(kind)) && IsCoveredBy(q, pattern)
    {
      var rules := Rules(kind);
      covered := [];
      for i := 0 to |rules|
        invariant forall q :: q in covered <==> q in Patterns(rules)[..i] && IsCoveredBy(q, pattern)
      {
        assert Patterns(rules)[..i + 1] == Patterns(rules)[..i] + [rules[i].pattern];
        if IsCoveredBy(rules[i].pattern, pattern) {
          covered := covered + [rules[i].pattern];
        }
      }
      assert Patterns(rules)[..|rules|] == Patterns(rules);
    }

    /** The smart merge behind the input fields; `skipCoverage` is for imports that replace a list. */
    method AddPattern(kind: Kind, pattern: Pattern, skipCoverage: bool) returns (added: bool)
      requires Valid() && DistinctPatterns(Patterns(Rules(kind)))
      modifies this
      ensures Valid() && DistinctPatterns(Patterns(Rules(kind)))
      ensures Patterns(Rules(kind)) ==
        if skipCoverage then AddPlain(old(Patterns(Rules(kind))), pattern)
        else SmartAdd(old(Patterns(Rules(kind))), pattern)
      ensures kind == Ignore ==> whitelistRules == old(whitelistRules)
      ensures kind == Whitelist ==> ignoreRules == old(ignoreRules)
    {
      ghost var before := Patterns(Rules(kind));
      if !skipCoverage {
        var skip := IsPatternCovered(kind, pattern);
        if skip { return false; }
        RemoveCovered(kind, pattern);
        UncoveredDistinct(before, pattern);
      }
      ghost var kept := Patterns(Rules(kind));
      var rule := AddRule(kind, pattern);
      AddPlainDistinct(kept, pattern);
      added := rule != null;
    }

    method RemoveCovered(kind: Kind, pattern: Pattern)
      requires Valid() && DistinctPatterns(Patterns(Rules(kind)))
      modifies this
      ensures Valid()
      ensures Patterns(Rules(kind)) == Uncovered(old(Patterns(Rules(kind))), pattern)
      ensures kind == Ignore ==> whitelistRules == old(whitelistRules)
      ensures kind == Whitelist ==> ignoreRules == old(ignoreRules)
    {
      ghost var before := Patterns(Rules(kind));
      var covered := GetCoveredPatterns(kind, pattern);
      WithoutNothing(before);
      assert covered[..0] == [];
      for i := 0 to |covered|
        invariant Valid() && Patterns(Rules(kind)) == Without(before, covered[..i])
        invariant kind == Ignore ==> whitelistRules == old(whitelistRules)
        invariant kind == Whitelist ==> ignoreRules == old(ignoreRules)
      {
        ghost var rules := Rules(kind);
        var removed := RemoveRule(kind, covered[i]);
        WithoutMore(before, covered[..i], covered[i]);
        assert covered[..i + 1] == covered[..i] + [covered[i]];
      }
      assert covered[..|covered|] == covered;
      WithoutCovered(before, covered, pattern);
    }

    /** Recompute all statuses and charges for a list of models. */
    method RebuildCache(models: seq<string>)
      requires Valid()
      modifies this`statusCache, this`availableCount, this`cacheValid, ignoreRules, whitelistRules
      ensures Valid() && cacheValid
      ensures CachesExactly(models) && AllCharged(models)
      ensures availableCount == Some((AvailableCount(ignoreRules, whitelistRules, models), |models|))
      ensures AvailableCount(ignoreRules, whitelistRules, models)
        + ChargedTotal(ignoreRules, whitelistRules, ignoreRules, models) == |models|
    {
      statusCache := map[];
      var rules := ignoreRules + whitelistRules;
      ClearCounts(rules);
      var available := 0;
      assert models[..0] == [] && models[..|models|] == models;
      for i := 0 to |models|
        invariant CachesExactly(models[..i])
        invariant available == AvailableCount(ignoreRules, whitelistRules, models[..i])
        invariant AllCharged(models[..i])
      {
        var counted := ChargeModel(models, i);
        CountsNext(ignoreRules, whitelistRules, models, i);
        available := available + if counted then 1 else 0;
      }
      availableCount := Some((available, |models|));
      cacheValid := true;
      CountsAddUp(ignoreRules, whitelistRules, models);
    }

    /** The cache holds the statuses of these models and no others. */
    ghost predicate CachesExactly(models: seq<string>)
      reads this
    {
      && (forall m :: m in statusCache <==> m in models)
      && (forall m :: m in statusCache ==> statusCache[m] == ComputeStatus(m))
    }

    /** Every rule lists and counts the models charged to it. */
    ghost predicate AllCharged(models: seq<string>)
      reads this, ignoreRules, whitelistRules
    {
      forall r :: r in ignoreRules + whitelistRules ==>
        HasCharges(r, Charged(ignoreRules, whitelistRules, r, models))
    }

    method ChargeModel(models: seq<string>, i: nat) returns (counted: bool)
      requires i < |models| && CachesExactly(models[..i]) && AllCharged(models[..i])
      modifies this`statusCache, ignoreRules, whitelistRules
      ensures CachesExactly(models[..i + 1]) && AllCharged(models[..i + 1])
      ensures counted <==> ComputeStatus(models[i]).status != Ignored
    {
      var status := ComputeStatus(models[i]);
      StoreStatus(models, i, status);
      ChargedToFirstMatch(ignoreRules, whitelistRules, models[i]);
      CountsNext(ignoreRules, whitelistRules, models, i);
      if status.rule != null {
        assert status.rule in ignoreRules + whitelistRules;
        assert HasCharges(status.rule, Charged(ignoreRules, whitelistRules, status.rule, models[..i]));
        status.rule.affectedCount := status.rule.affectedCount + 1;
        status.rule.affectedModels := status.rule.affectedModels + [models[i]];
      }
      forall r | r in ignoreRules + whitelistRules
        ensures HasCharges(r, Charged(ignoreRules, whitelistRules, r, models[..i + 1]))
      {
        assert old(HasCharges(r, Charged(ignoreRules, whitelistRules, r, models[..i])));
      }
      counted := status.status != Ignored;
    }

    method StoreStatus(models: seq<string>, i: nat, status: ModelStatus)
      requires i < |models| && CachesExactly(models[..i]) && status == ComputeStatus(models[i])
      modifies this`statusCache
      ensures CachesExactly(models[..i + 1])
    {
      assert forall m :: m in models[..i + 1] <==> m in models[..i] || m == models[i];
      statusCache := statusCache[models[i] := status];
    }

    method ClearCounts(rules: seq<FilterRule>)
      modifies rules
      ensures forall r :: r in rules ==> HasCharges(r, [])
    {
      for i := 0 to |rules|
        invariant forall j :: 0 <= j < i ==> HasCharges(rules[j], [])
      {
        rules[i].affectedCount, rules[i].affectedModels := 0, [];
      }
    }

    /** Cached or not, the answers are the recomputed ones, for whatever models are asked about. */
    method GetAllStatuses(models: seq<string>) returns (statuses: seq<ModelStatus>)
      requires Valid()
      modifies this`statusCache, this`availableCount, this`cacheValid, ignoreRules, whitelistRules
      ensures Valid() && cacheValid
      ensures |statuses| == |models| && forall i :: 0 <= i < |models| ==> statuses[i] == old(ComputeStatus(models[i]))
    {
      if !cacheValid { RebuildCache(models); }
      statuses := [];
      for i := 0 to |models|
        invariant |statuses| == i && forall j :: 0 <= j < i ==> statuses[j] == old(ComputeStatus(models[j]))
      {
        var m := models[i];
        statuses := statuses + [if m in statusCache then statusCache[m] else ComputeStatus(m)];
      }
    }

    method GetModelStatus(modelId: string) returns (status: ModelStatus)
      requires Valid()
      ensures status == ComputeStatus(modelId)
    {
      status := if modelId in statusCache then statusCache[modelId] else ComputeStatus(modelId);
    }

    /** The counts of the list the cache was last rebuilt with. */
    method GetAvailableCount(models: seq<string>) returns (counts: (nat, nat))
      requires Valid()
      modifies this`statusCache, this`availableCount, this`cacheValid, ignoreRules, whitelistRules
      ensures Valid() && cacheValid && Some(counts) == availableCount
      ensures !old(cacheValid) ==> counts == (old(AvailableCount(ignoreRules, whitelistRules, models)), |models|)
      ensures old(cacheValid) ==> Some(counts) == old(availableCount)
    {
      if !cacheValid { RebuildCache(models); }
      counts := availableCount.value;  // never missing while the cache is valid
    }
  }

  // ---------------------------------------------------------------------------------------
  // Removing several patterns
  // ---------------------------------------------------------------------------------------

  ghost predicate DistinctPatterns(ps: seq<Pattern>) {
    forall i, j :: 0 <= i < j < |ps| ==> ps[i] != ps[j]
  }

  ghost function Without(ps: seq<Pattern>, gone: seq<Pattern>): seq<Pattern> {
    if ps == [] then [] else if ps[0] in gone then Without(ps[1..], gone) else [ps[0]] + Without(ps[1..], gone)
  }

  lemma {:induction false} WithoutNothing(ps: seq<Pattern>)
    ensures Without(ps, []) == ps
  {
    if ps != [] { WithoutNothing(ps[1..]); }
  }

  lemma {:induction false} WithoutMember(ps: seq<Pattern>, gone: seq<Pattern>, q: Pattern)
    ensures q in Without(ps, gone) <==> q in ps && q !in gone
  {
    if ps != [] {
      WithoutMember(ps[1..], gone, q);
      assert q in ps <==> q == ps[0] || q in ps[1..];
    }
  }

  lemma {:induction false} WithoutCovered(ps: seq<Pattern>, gone: seq<Pattern>, p: Pattern)
    requires forall q :: q in ps ==> (q in gone <==> IsCoveredBy(q, p))
    ensures Without(ps, gone) == Uncovered(ps, p)
  {
    if ps != [] { WithoutCovered(ps[1..], gone, p); }
  }

  lemma {:induction false} WithoutMore(ps: seq<Pattern>, gone: seq<Pattern>, q: Pattern)
    requires DistinctPatterns(ps)
    ensures Without(ps, gone + [q]) == DropFirst(Without(ps, gone), q)
  {
    if ps != [] {
      var rest := Without(ps[1..], gone);
      assert DistinctPatterns(ps[1..]) && ps[0] !in ps[1..];
      assert forall p :: p in gone + [q] <==> p in gone || p == q;
      WithoutMore(ps[1..], gone, q);
      if ps[0] !in gone {
        assert Without(ps, gone) == [ps[0]] + rest && ([ps[0]] + rest)[1..] == rest;
        if ps[0] == q {
          SameWithout(ps[1..], gone, gone + [q]);
          assert Without(ps, gone + [q]) == Without(ps[1..], gone + [q]);
        }
      }
    }
  }

  lemma {:induction false} SameWithout(ps: seq<Pattern>, a: seq<Pattern>, b: seq<Pattern>)
    requires forall q :: q in ps ==> (q in a <==> q in b)
    ensures Without(ps, a) == Without(ps, b)
  {
    if ps != [] { SameWithout(ps[1..], a, b); }
  }

  ghost function DropFirst(ps: seq<Pattern>, q: Pattern): seq<Pattern> {
    if ps == [] then [] else if ps[0] == q then ps[1..] else [ps[0]] + DropFirst(ps[1..], q)
  }

  lemma {:induction false} DropFirstAt(ps: seq<Pattern>, q: Pattern, i: nat)
    requires i <= |ps| && forall j :: 0 <= j < i ==> ps[j] != q
    requires i < |ps| ==> ps[i] == q
    ensures DropFirst(ps, q) == if i < |ps| then ps[..i] + ps[i + 1..] else ps
  {
    if i > 0 {
      DropFirstAt(ps[1..], q, i - 1);
      assert i < |ps| ==> [ps[0]] + (ps[1..][..i - 1] + ps[1..][i..]) == ps[..i] + ps[i + 1..];
    }
  }

  lemma RemovedIsDropped(rules: seq<FilterRule>, q: Pattern, i: nat)
    requires i < |rules| && rules[i].pattern == q && forall j :: 0 <= j < i ==> rules[j].pattern != q
    ensures Patterns(rules[..i] + rules[i + 1..]) == DropFirst(Patterns(rules), q)
  {
    DropFirstAt(Patterns(rules), q, i);
    assert Patterns(rules[..i] + rules[i + 1..]) == Patterns(rules)[..i] + Patterns(rules)[i + 1..];
  }

  lemma AbsentIsDropped(rules: seq<FilterRule>, q: Pattern)
    requires q !in Patterns(rules)
    ensures Patterns(rules) == DropFirst(Patterns(rules), q)
  {
    DropFirstAt(Patterns(rules), q, |rules|);
  }

  lemma {:induction false} UncoveredDistinct(ps: seq<Pattern>, p: Pattern)
    requires DistinctPatterns(ps)
    ensures DistinctPatterns(Uncovered(ps, p))
  {
    if ps != [] {
      UncoveredDistinct(ps[1..], p);
      assert ps[0] !in ps[1..];
      UncoveredMember(ps[1..], p, ps[0]);
    }
  }

  lemma AddPlainDistinct(ps: seq<Pattern>, p: Pattern)
    requires DistinctPatterns(ps)
    ensures DistinctPatterns(AddPlain(ps, p))
  {
  }
}
