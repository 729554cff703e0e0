/** Rule lists of the model filter: smart merging, first matches and counts. */
module FilterRules {
  import opened Glob

  // ---------------------------------------------------------------------------------------
  // Smart merging of pattern lists
  // ---------------------------------------------------------------------------------------

  function StripPattern(p: Pattern): Pattern {
    assert '[' !in Strip(p) by { StripStrips(p); }
    Strip(p)
  }

  /** Append a stripped pattern unless it is empty or a duplicate. */
  function AddPlain(ps: seq<Pattern>, p: Pattern): seq<Pattern> {
    if StripPattern(p) == "" || StripPattern(p) in ps then ps else ps + [StripPattern(p)]
  }

  predicate CoveredByAny(p: Pattern, ps: seq<Pattern>) {
    exists i :: 0 <= i < |ps| && IsCoveredBy(p, ps[i])
  }

  /** The patterns that `p` does not cover, in order. */
  function Uncovered(ps: seq<Pattern>, p: Pattern): seq<Pattern> {
    if ps == [] then []
    else (if IsCoveredBy(ps[0], p) then [] else [ps[0]]) + Uncovered(ps[1..], p)
  }

  /** Skip a covered pattern; otherwise drop the patterns it covers and add it. */
  function SmartAdd(ps: seq<Pattern>, p: Pattern): seq<Pattern> {
    if CoveredByAny(p, ps) then ps else AddPlain(Uncovered(ps, p), p)
  }

  function SmartAddAll(ps: seq<Pattern>, run: seq<Pattern>): seq<Pattern>
    decreases |run|
  {
    if run == [] then ps else SmartAddAll(SmartAdd(ps, run[0]), run[1..])
  }

  predicate AnyMatches(ps: seq<Pattern>, modelId: string) {
    exists i :: 0 <= i < |ps| && PatternMatches(modelId, ps[i])
  }

  /** No pattern is covered by another. */
  predicate Antichain(ps: seq<Pattern>) {
    forall i, j :: 0 <= i < |ps| && 0 <= j < |ps| && i != j ==> !IsCoveredBy(ps[i], ps[j])
  }

  predicate AllStripped(ps: seq<Pattern>) {
    forall i :: 0 <= i < |ps| ==> IsStripped(ps[i]) && ps[i] != ""
  }

  lemma {:induction false} UncoveredMember(ps: seq<Pattern>, p: Pattern, q: Pattern)
    ensures q in Uncovered(ps, p) <==> q in ps && !IsCoveredBy(q, p)
  {
    if ps != [] {
      UncoveredMember(ps[1..], p, q);
      assert q in ps <==> q == ps[0] || q in ps[1..];
    }
  }

  lemma {:induction false} UncoveredAntichain(ps: seq<Pattern>, p: Pattern)
    requires Antichain(ps)
    ensures Antichain(Uncovered(ps, p))
  {
    if ps != [] {
      var rest := Uncovered(ps[1..], p);
      assert Antichain(ps[1..]);
      UncoveredAntichain(ps[1..], p);
      forall q | q in rest ensures !IsCoveredBy(q, ps[0]) && !IsCoveredBy(ps[0], q) {
        UncoveredMember(ps[1..], p, q);
        var i :| 0 <= i < |ps[1..]| && ps[1..][i] == q;
        assert ps[i + 1] == q;
      }
    }
  }

  // -- Which models a merge keeps --

  /** The list that keeps every pattern, as it is after stripping. */
  function KeepToo(ps: seq<Pattern>, p: Pattern): seq<Pattern> {
    if StripPattern(p) == "" then ps else ps + [StripPattern(p)]
  }

  function KeepAll(ps: seq<Pattern>, run: seq<Pattern>): seq<Pattern>
    decreases |run|
  {
    if run == [] then ps else KeepAll(KeepToo(ps, run[0]), run[1..])
  }

  ghost predicate SameModels(ps: seq<Pattern>, qs: seq<Pattern>) {
    forall m :: AnyMatches(ps, m) <==> AnyMatches(qs, m)
  }

  /** Whatever the pattern matches is matched already. */
  ghost predicate Included(p: Pattern, ps: seq<Pattern>) {
    forall m :: PatternMatches(m, p) ==> AnyMatches(ps, m)
  }

  lemma KeepsStripped(ps: seq<Pattern>, p: Pattern)
    requires AllStripped(ps)
    ensures AllStripped(SmartAdd(ps, p))
  {
    StripStrips(p);
    forall q | q in Uncovered(ps, p) ensures IsStripped(q) && q != "" { UncoveredMember(ps, p, q); }
  }

  /** A pattern with blanks around it covers none of the stripped ones. */
  lemma {:induction false} PaddedCoversNone(ps: seq<Pattern>, p: Pattern)
    requires AllStripped(ps) && !IsStripped(p)
    ensures Uncovered(ps, p) == ps
  {
    if ps != [] {
      assert forall i :: 0 <= i < |ps[1..]| ==> ps[1..][i] == ps[i + 1];
      PaddedCoversNone(ps[1..], p);
      assert !IsCoveredBy(ps[0], p);
    }
  }

  lemma AppendMatches(ps: seq<Pattern>, p: Pattern, m: string)
    ensures AnyMatches(ps + [p], m) <==> AnyMatches(ps, m) || PatternMatches(m, p)
  {
    AnyMatchesConcat(ps, [p], m);
    if PatternMatches(m, p) { assert PatternMatches(m, [p][0]); }
  }

  lemma CoveredIncluded(p: Pattern, ps: seq<Pattern>)
    requires CoveredByAny(p, ps)
    ensures Included(p, ps)
  {
    var i :| 0 <= i < |ps| && IsCoveredBy(p, ps[i]);
    forall m | PatternMatches(m, p) ensures AnyMatches(ps, m) { CoverageSoundForModels(p, ps[i], m); }
  }

  /** Some pattern that survives matches whatever a dropped one or the new one matches. */
  lemma KeptFor(ps: seq<Pattern>, p: Pattern, m: string)
    requires !CoveredByAny(p, ps) && IsStripped(p) && p != ""
    ensures AnyMatches(SmartAdd(ps, p), m) <==> AnyMatches(ps, m) || PatternMatches(m, p)
  {
    StripStrips(p);
    var kept := SmartAdd(ps, p);
    UncoveredMember(ps, p, p);
    if i :| 0 <= i < |kept| && PatternMatches(m, kept[i]) {
      UncoveredMember(ps, p, kept[i]);
      if kept[i] != p { assert kept[i] in ps; }
    }
    if i :| 0 <= i < |ps| && PatternMatches(m, ps[i]) {
      UncoveredMember(ps, p, ps[i]);
      if IsCoveredBy(ps[i], p) { CoverageSoundForModels(ps[i], p, m); } else { assert ps[i] in kept; }
    }
    assert p in kept;
  }

  /** A smart add that is not skipped loses no model. */
  lemma AddedKeeps(ps: seq<Pattern>, p: Pattern)
    requires AllStripped(ps) && !CoveredByAny(p, ps)
    ensures SameModels(SmartAdd(ps, p), KeepToo(ps, p))
  {
    var bare := StripPattern(p);
    StripStrips(p);
    forall m ensures AnyMatches(SmartAdd(ps, p), m) <==> AnyMatches(KeepToo(ps, p), m) {
      AppendMatches(ps, bare, m);
      if IsStripped(p) {
        if p != "" { KeptFor(ps, p, m); } else { EmptyCoversNone(ps); }
      } else {
        PaddedCoversNone(ps, p);
        if bare in ps && PatternMatches(m, bare) { SameMatch(ps, bare, m); }
      }
    }
  }

  lemma {:induction false} EmptyCoversNone(ps: seq<Pattern>)
    requires AllStripped(ps)
    ensures Uncovered(ps, "") == ps
  {
    if ps != [] {
      assert forall i :: 0 <= i < |ps[1..]| ==> ps[1..][i] == ps[i + 1];
      EmptyCoversNone(ps[1..]);
    }
  }

  lemma SameMatch(ps: seq<Pattern>, p: Pattern, m: string)
    requires p in ps && PatternMatches(m, p)
    ensures AnyMatches(ps, m)
  {
    var i :| 0 <= i < |ps| && ps[i] == p;
  }

  /** The pattern is not skipped, or what is left of it after stripping is no loss. */
  ghost predicate FaithfulStep(ps: seq<Pattern>, p: Pattern) {
    !CoveredByAny(p, ps) || StripPattern(p) == "" || Included(StripPattern(p), ps)
  }

  /** A smart add keeps the models that keeping every pattern would match exactly if it is such a step. */
  lemma SmartAddFaithfulIff(ps: seq<Pattern>, p: Pattern)
    requires AllStripped(ps)
    ensures SameModels(SmartAdd(ps, p), KeepToo(ps, p)) <==> FaithfulStep(ps, p)
  {
    var bare := StripPattern(p);
    if !CoveredByAny(p, ps) {
      AddedKeeps(ps, p);
    } else if bare != "" {
      forall m ensures AnyMatches(KeepToo(ps, p), m) <==> AnyMatches(ps, m) || PatternMatches(m, bare) {
        AppendMatches(ps, bare, m);
      }
      if SameModels(ps, KeepToo(ps, p)) {
        forall m | PatternMatches(m, bare) ensures AnyMatches(ps, m) { assert AnyMatches(KeepToo(ps, p), m); }
      }
    }
  }

  ghost predicate FaithfulRun(ps: seq<Pattern>, run: seq<Pattern>)
    decreases |run|
  {
    run == [] || (FaithfulStep(ps, run[0]) && FaithfulRun(SmartAdd(ps, run[0]), run[1..]))
  }

  /** At the start and after every step both lists match the same models. */
  ghost predicate SameThroughout(ps: seq<Pattern>, keep: seq<Pattern>, run: seq<Pattern>)
    decreases |run|
  {
    SameModels(ps, keep) && (run == [] || SameThroughout(SmartAdd(ps, run[0]), KeepToo(keep, run[0]), run[1..]))
  }

  /**
   * Over any run of smart adds, padded patterns and all, the models matched stay those of a list
   * that keeps every pattern exactly if no step skips a loss.
   */
  lemma {:induction false} SmartMergeFaithfulIff(ps: seq<Pattern>, keep: seq<Pattern>, run: seq<Pattern>)
    requires AllStripped(ps) && SameModels(ps, keep)
    ensures SameThroughout(ps, keep, run) <==> FaithfulRun(ps, run)
    decreases |run|
  {
    if run != [] {
      var p := run[0];
      SmartAddFaithfulIff(ps, p);
      KeepTooSame(ps, keep, p);
      KeepsStripped(ps, p);
      if FaithfulStep(ps, p) {
        SmartMergeFaithfulIff(SmartAdd(ps, p), KeepToo(keep, p), run[1..]);
      }
    }
  }

  lemma KeepTooSame(ps: seq<Pattern>, qs: seq<Pattern>, p: Pattern)
    requires SameModels(ps, qs)
    ensures SameModels(KeepToo(ps, p), KeepToo(qs, p))
  {
    forall m ensures AnyMatches(KeepToo(ps, p), m) <==> AnyMatches(KeepToo(qs, p), m) {
      AppendMatches(ps, StripPattern(p), m);
      AppendMatches(qs, StripPattern(p), m);
    }
  }

  /**
   * For the name of a model it is enough to try that name by itself and under every provider, and
   * if there is no slash in it, by itself.
   */
  lemma NameIncludedIff(name: Pattern, ps: seq<Pattern>)
    requires IsLiteral(name)
    ensures Included(name, ps) <==>
      AnyMatches(ps, name) && forall provider :: '/' !in provider ==> AnyMatches(ps, provider + "/" + name)
    ensures '/' !in name ==> (Included(name, ps) <==> exists i :: 0 <= i < |ps| && GlobMatch(name, ps[i]))
  {
    LiteralMatch(name, name);
    forall provider | '/' !in provider ensures PatternMatches(provider + "/" + name, name) {
      BehindSlash(provider, name);
    }
    forall m | PatternMatches(m, name)
      ensures m == name || exists provider :: '/' !in provider && m == provider + "/" + name
    {
      LiteralMatch(m, name);
      LiteralMatch(ModelName(m), name);
      if m != name { var provider := Provider(m); }
    }
    if '/' !in name {
      if Included(name, ps) {
        assert PatternMatches(name, name);
        var i :| 0 <= i < |ps| && PatternMatches(name, ps[i]);
        assert GlobMatch(name, ps[i]);
      }
      if i :| 0 <= i < |ps| && GlobMatch(name, ps[i]) { NameMatched(name, ps, i); }
    }
  }

  lemma NameMatched(name: Pattern, ps: seq<Pattern>, i: nat)
    requires IsLiteral(name) && i < |ps| && GlobMatch(name, ps[i])
    ensures Included(name, ps)
  {
    forall m | PatternMatches(m, name) ensures AnyMatches(ps, m) {
      LiteralMatch(m, name);
      LiteralMatch(ModelName(m), name);
      assert PatternMatches(m, ps[i]);
    }
  }

  lemma {:induction false} BehindSlash(provider: string, name: string)
    requires '/' !in provider
    ensures ModelName(provider + "/" + name) == name
  {
    var m := provider + "/" + name;
    assert m[|provider|] == '/';
    if provider == "" {
      assert m[1..] == name;
    } else {
      assert provider[0] in provider && m[1..] == provider[1..] + "/" + name;
      BehindSlash(provider[1..], name);
      assert (provider[1..] + "/" + name)[|provider| - 1] == '/';
    }
  }

  lemma {:induction false} Provider(m: string) returns (provider: string)
    requires '/' in m
    ensures '/' !in provider && m == provider + "/" + ModelName(m)
  {
    if m[0] == '/' {
      provider := "";
    } else {
      assert '/' in m[1..];
      var rest := Provider(m[1..]);
      provider := [m[0]] + rest;
    }
  }

  // -- The names that the context menu passes on --

  predicate Fresh(c: char, ps: seq<Pattern>) {
    c != '/' && forall i :: 0 <= i < |ps| ==> c !in ps[i]
  }

  function Longest(ps: seq<Pattern>): (n: nat)
    ensures forall i :: 0 <= i < |ps| ==> |ps[i]| <= n
  {
    if ps == [] then 0
    else
      var n := Longest(ps[1..]);
      if n < |ps[0]| then |ps[0]| else n
  }

  /**
   * The name is matched by itself, or, if it has a slash, as a model and under providers that are
   * spelt with a character `c` of no pattern, up to a length that no pattern has.
   */
  predicate NameKnown(ps: seq<Pattern>, name: Pattern, c: char) {
    || (exists i :: 0 <= i < |ps| && GlobMatch(name, ps[i]))
    || ('/' in name && AnyMatches(ps, name)
        && forall n :: 0 <= n <= Longest(ps) + 1 ==> AnyMatches(ps, Repeat(c, n) + "/" + name))
  }

  /** These few tests tell whether all models of the name are matched already. */
  lemma NameKnownIff(name: Pattern, ps: seq<Pattern>, c: char)
    requires IsLiteral(name) && ('/' in name ==> Fresh(c, ps))
    ensures Included(name, ps) <==> NameKnown(ps, name, c)
  {
    NameIncludedIff(name, ps);
    if i :| 0 <= i < |ps| && GlobMatch(name, ps[i]) {
      NameMatched(name, ps, i);
    } else if NameKnown(ps, name, c) {
      forall provider | '/' !in provider ensures AnyMatches(ps, provider + "/" + name) {
        KnownUnder(name, ps, c, provider);
      }
    }
    if Included(name, ps) && '/' in name {
      forall n | 0 <= n <= Longest(ps) + 1 ensures AnyMatches(ps, Repeat(c, n) + "/" + name) { NoSlash(c, n); }
    }
  }

  lemma {:induction false} NoSlash(c: char, n: nat)
    requires c != '/'
    ensures '/' !in Repeat(c, n) && |Repeat(c, n)| == n
  {
    if n > 0 { NoSlash(c, n - 1); }
  }

  lemma KnownUnder(name: Pattern, ps: seq<Pattern>, c: char, provider: string)
    requires Fresh(c, ps) && '/' !in provider && IsLiteral(name)
    requires forall n :: 0 <= n <= Longest(ps) + 1 ==> AnyMatches(ps, Repeat(c, n) + "/" + name)
    ensures AnyMatches(ps, provider + "/" + name)
  {
    var most := Longest(ps) + 1;
    var n := if |provider| <= most then |provider| else most;
    var i :| 0 <= i < |ps| && PatternMatches(Repeat(c, n) + "/" + name, ps[i]);
    NoSlash(c, n);
    BehindSlash(Repeat(c, n), name);
    BehindSlash(provider, name);
    var rest := "/" + name;
    assert Repeat(c, n) + "/" + name == Repeat(c, n) + rest && provider + "/" + name == provider + rest;
    if GlobMatch(Repeat(c, n) + rest, ps[i]) {
      FreshGrows(c, n, |provider|, rest, ps[i]);
      FreshStands(c, provider, rest, ps[i]);
    }
    assert PatternMatches(provider + "/" + name, ps[i]);
  }

  lemma {:induction false} FreshGrows(c: char, n: nat, m: nat, s: string, p: Pattern)
    requires c !in p && n <= m && (n == m || |p| < n) && GlobMatch(Repeat(c, n) + s, p)
    ensures GlobMatch(Repeat(c, m) + s, p)
    decreases m - n
  {
    if n < m {
      FreshMore(c, n, s, p);
      FreshGrows(c, n + 1, m, s, p);
    }
  }

  /** The name is not skipped, or nothing is left of it, or what is left is known. */
  predicate NameStep(ps: seq<Pattern>, name: Pattern, c: char) {
    !CoveredByAny(name, ps) || StripPattern(name) == "" || NameKnown(ps, StripPattern(name), c)
  }

  /** For a name without wildcards a smart add keeps all models exactly if it is such a step. */
  lemma NameAddFaithfulIff(ps: seq<Pattern>, name: Pattern, c: char)
    requires AllStripped(ps) && IsLiteral(name) && ('/' in name ==> Fresh(c, ps))
    ensures FaithfulStep(ps, name) <==> NameStep(ps, name, c)
    ensures SameModels(SmartAdd(ps, name), KeepToo(ps, name)) <==> NameStep(ps, name, c)
  {
    SmartAddFaithfulIff(ps, name);
    var bare := StripPattern(name);
    StripFrom(name);
    forall i | 0 <= i < |bare| ensures bare[i] != '*' && bare[i] != '?' && bare[i] != '[' {
      var j :| 0 <= j < |name| && name[j] == bare[i];
    }
    NameKnownIff(bare, ps, c);
  }

  /** A run of patterns without blanks around them, which never lose a model, and of such steps. */
  predicate CallerRun(ps: seq<Pattern>, run: seq<Pattern>, c: char)
    decreases |run|
  {
    run == [] || ((IsStripped(run[0]) || NameStep(ps, run[0], c)) && CallerRun(SmartAdd(ps, run[0]), run[1..], c))
  }

  lemma StrippedStep(ps: seq<Pattern>, p: Pattern)
    requires IsStripped(p)
    ensures FaithfulStep(ps, p)
  {
    StripStrips(p);
    if CoveredByAny(p, ps) { CoveredIncluded(p, ps); }
  }

  lemma StaysFresh(c: char, ps: seq<Pattern>, p: Pattern)
    requires Fresh(c, ps) && c !in p
    ensures Fresh(c, SmartAdd(ps, p))
  {
    StripFrom(p);
    assert c !in StripPattern(p);
    forall q | q in Uncovered(ps, p) ensures c !in q { UncoveredMember(ps, p, q); }
  }

  /**
   * Over any run of what the callers pass, patterns without blanks around them and names without
   * wildcards, the models matched stay those of a list that keeps every pattern exactly if each
   * name that is skipped is known.
   */
  lemma {:induction false} CallerMergeFaithfulIff(ps: seq<Pattern>, keep: seq<Pattern>, run: seq<Pattern>, c: char)
    requires AllStripped(ps) && SameModels(ps, keep) && Fresh(c, ps)
    requires forall i :: 0 <= i < |run| ==> (IsStripped(run[i]) || IsLiteral(run[i])) && c !in run[i]
    ensures SameThroughout(ps, keep, run) <==> CallerRun(ps, run, c)
    decreases |run|
  {
    if run != [] {
      var p := run[0];
      SmartAddFaithfulIff(ps, p);
      KeepTooSame(ps, keep, p);
      KeepsStripped(ps, p);
      StaysFresh(c, ps, p);
      if IsStripped(p) { StrippedStep(ps, p); } else { NameAddFaithfulIff(ps, p, c); }
      if FaithfulStep(ps, p) {
        CallerMergeFaithfulIff(SmartAdd(ps, p), KeepToo(keep, p), run[1..], c);
      }
    }
  }

  /** Patterns without blanks around them, which is what the input fields give, are never a loss. */
  lemma {:induction false} StrippedRunFaithful(ps: seq<Pattern>, run: seq<Pattern>)
    requires forall i :: 0 <= i < |run| ==> IsStripped(run[i])
    ensures FaithfulRun(ps, run)
    decreases |run|
  {
    if run != [] {
      StrippedStep(ps, run[0]);
      StrippedRunFaithful(SmartAdd(ps, run[0]), run[1..]);
    }
  }

  /** So after any run of them the models matched are those of a list that kept every pattern. */
  lemma {:induction false} SmartMergeFaithful(ps: seq<Pattern>, keep: seq<Pattern>, run: seq<Pattern>)
    requires SameThroughout(ps, keep, run)
    ensures SameModels(SmartAddAll(ps, run), KeepAll(keep, run))
    decreases |run|
  {
    if run != [] { SmartMergeFaithful(SmartAdd(ps, run[0]), KeepToo(keep, run[0]), run[1..]); }
  }

  // -- When no pattern covers another --

  lemma StrippedAntichain(ps: seq<Pattern>, p: Pattern)
    requires Antichain(ps) && IsStripped(p)
    ensures Antichain(SmartAdd(ps, p))
  {
    StripStrips(p);
    if !CoveredByAny(p, ps) {
      UncoveredAntichain(ps, p);
      forall q | q in Uncovered(ps, p) ensures !IsCoveredBy(p, q) && !IsCoveredBy(q, p) {
        UncoveredMember(ps, p, q);
        var i :| 0 <= i < |ps| && ps[i] == q;
      }
    }
  }

  /** The pattern neither covers one of the list nor is covered by one. */
  predicate Apart(p: Pattern, ps: seq<Pattern>) {
    forall i :: 0 <= i < |ps| ==> !IsCoveredBy(p, ps[i]) && !IsCoveredBy(ps[i], p)
  }

  lemma AppendAntichain(ps: seq<Pattern>, p: Pattern)
    requires Antichain(ps)
    ensures Antichain(ps + [p]) <==> Apart(p, ps)
  {
    var more := ps + [p];
    if Antichain(more) {
      forall i | 0 <= i < |ps| ensures !IsCoveredBy(p, ps[i]) && !IsCoveredBy(ps[i], p) {
        assert more[i] == ps[i] && more[|ps|] == p;
      }
    }
  }

  /** The pattern has no blanks around it, is skipped, or what is left of it adds nothing or stands apart. */
  predicate TidyStep(ps: seq<Pattern>, p: Pattern) {
    || IsStripped(p) || CoveredByAny(p, ps)
    || StripPattern(p) == "" || StripPattern(p) in ps || Apart(StripPattern(p), ps)
  }

  /** A smart add leaves no pattern covered by another exactly if it is such a step. */
  lemma SmartAddAntichainIff(ps: seq<Pattern>, p: Pattern)
    requires AllStripped(ps) && Antichain(ps)
    ensures Antichain(SmartAdd(ps, p)) <==> TidyStep(ps, p)
  {
    if IsStripped(p) {
      StrippedAntichain(ps, p);
    } else {
      PaddedCoversNone(ps, p);
      AppendAntichain(ps, StripPattern(p));
    }
  }

  predicate TidyRun(ps: seq<Pattern>, run: seq<Pattern>)
    decreases |run|
  {
    run == [] || (TidyStep(ps, run[0]) && TidyRun(SmartAdd(ps, run[0]), run[1..]))
  }

  predicate AntichainThroughout(ps: seq<Pattern>, run: seq<Pattern>)
    decreases |run|
  {
    Antichain(ps) && (run == [] || AntichainThroughout(SmartAdd(ps, run[0]), run[1..]))
  }

  /**
   * Over any run of smart adds, padded patterns and all, no pattern ever covers another exactly if
   * every step is tidy, as all steps without blanks are.
   */
  lemma {:induction false} SmartMergeAntichainIff(ps: seq<Pattern>, run: seq<Pattern>)
    requires AllStripped(ps) && Antichain(ps)
    ensures AntichainThroughout(ps, run) <==> TidyRun(ps, run)
    ensures (forall i :: 0 <= i < |run| ==> IsStripped(run[i])) ==> TidyRun(ps, run)
    decreases |run|
  {
    if run != [] {
      SmartAddAntichainIff(ps, run[0]);
      KeepsStripped(ps, run[0]);
      if TidyStep(ps, run[0]) { SmartMergeAntichainIff(SmartAdd(ps, run[0]), run[1..]); }
    }
  }

  lemma AnyMatchesConcat(a: seq<Pattern>, b: seq<Pattern>, modelId: string)
    ensures AnyMatches(a + b, modelId) <==> AnyMatches(a, modelId) || AnyMatches(b, modelId)
  {
    if i :| 0 <= i < |a| && PatternMatches(modelId, a[i]) { assert (a + b)[i] == a[i]; }
    if i :| 0 <= i < |b| && PatternMatches(modelId, b[i]) { assert (a + b)[|a| + i] == b[i]; }
    if i :| 0 <= i < |a + b| && PatternMatches(modelId, (a + b)[i]) {
      if i >= |a| { assert (a + b)[i] == b[i - |a|]; }
    }
  }

  // -- Patterns from model names --

  /** What the context menu of a model adds: its name as it is, blanks and all. */
  function NamePattern(modelId: string): string {
    ModelName(modelId)
  }

  /** The model "p/a " loses "p/a" to "a *": its name is skipped, though the stripped name is new. */
  lemma PaddedNameLost()
    ensures var ps: seq<Pattern> := ["a *"];
      && NamePattern("p/a ") == "a "
      && SmartAdd(ps, "a ") == ps && !SameModels(SmartAdd(ps, "a "), KeepToo(ps, "a "))
  {
    var ps: seq<Pattern> := ["a *"];
    assert IsCoveredBy("a ", ps[0]);
    assert TrimRight("a ") == TrimRight("a") == "a";
    assert AfterSlash("p/a ") == AfterSlash("/a ") == "a ";
    assert PatternMatches("a", KeepToo(ps, "a ")[1]);
    assert !AnyMatches(ps, "a");
  }

  /** The model "p/a* " puts "a*" beside "ab". */
  lemma PaddedNameCovers()
    ensures var ps: seq<Pattern> := ["ab"];
      && NamePattern("p/a* ") == "a* "
      && SmartAdd(ps, "a* ") == ["ab", "a*"] && !Antichain(SmartAdd(ps, "a* "))
  {
    var ps: seq<Pattern> := ["ab"];
    assert AfterSlash("p/a* ") == AfterSlash("/a* ") == "a* ";
    assert TrimLeft("a* ") == "a* " && TrimRight("a* ") == TrimRight("a*") == "a*";
    assert !IsCoveredBy("a* ", ps[0]);
    assert Uncovered(ps, "a* ") == ps;
    var kept := SmartAdd(ps, "a* ");
    assert kept == ["ab", "a*"] && IsCoveredBy(kept[0], kept[1]);
  }
}
