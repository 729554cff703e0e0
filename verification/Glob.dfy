/** Glob patterns without bracket sets, and the syntactic test that one covers another. */
module Glob {
  import opened Lexer

  /** A pattern of literals, `?` and `*`. */
  type Pattern = p: string | '[' !in p

  /** Whether the pattern matches the whole of `s`, as `fnmatch` has it. */
  predicate GlobMatch(s: string, p: Pattern)
    decreases |s| + |p|
  {
    if p == "" then s == ""
    else if p[0] == '*' then GlobMatch(s, p[1..]) || (s != "" && GlobMatch(s[1..], p))
    else s != "" && (p[0] == '?' || p[0] == s[0]) && GlobMatch(s[1..], p[1..])
  }

  // ---------------------------------------------------------------------------------------
  // What matching means
  // ---------------------------------------------------------------------------------------

  function Concat(pieces: seq<string>): string {
    if pieces == [] then "" else pieces[0] + Concat(pieces[1..])
  }

  /** A star takes any piece, a question mark one of any character, and a literal itself. */
  predicate Takes(c: char, piece: string) {
    match c
    case '*' => true
    case '?' => |piece| == 1
    case _ => piece == [c]
  }

  /** The string falls into pieces, one for each character of the pattern. */
  ghost predicate FallsInto(s: string, p: Pattern, pieces: seq<string>) {
    |pieces| == |p| && Concat(pieces) == s && forall i :: 0 <= i < |p| ==> Takes(p[i], pieces[i])
  }

  /** Matching is falling into such pieces. */
  lemma GlobMatchIff(s: string, p: Pattern)
    ensures GlobMatch(s, p) <==> exists pieces :: FallsInto(s, p, pieces)
  {
    if GlobMatch(s, p) { var pieces := MatchFalls(s, p); }
    if pieces :| FallsInto(s, p, pieces) { FallsMatch(s, p, pieces); }
  }

  lemma {:induction false} MatchFalls(s: string, p: Pattern) returns (pieces: seq<string>)
    requires GlobMatch(s, p)
    ensures FallsInto(s, p, pieces)
    decreases |s| + |p|
  {
    if p == "" {
      pieces := [];
    } else if p[0] == '*' && GlobMatch(s, p[1..]) {
      var rest := MatchFalls(s, p[1..]);
      pieces := [""] + rest;
    } else if p[0] == '*' {
      var rest := MatchFalls(s[1..], p);
      pieces := [[s[0]] + rest[0]] + rest[1..];
      assert Concat(pieces) == [s[0]] + rest[0] + Concat(rest[1..]) == [s[0]] + (rest[0] + Concat(rest[1..]));
    } else {
      var rest := MatchFalls(s[1..], p[1..]);
      pieces := [[s[0]]] + rest;
      assert Concat(pieces) == [s[0]] + Concat(rest);
    }
  }

  lemma {:induction false} FallsMatch(s: string, p: Pattern, pieces: seq<string>)
    requires FallsInto(s, p, pieces)
    ensures GlobMatch(s, p)
    decreases |p|, |s|
  {
    if p != "" {
      var first, rest := pieces[0], Concat(pieces[1..]);
      assert Takes(p[0], first) && s == first + rest;
      if p[0] == '*' && first != "" {
        var shorter := [first[1..]] + pieces[1..];
        assert s[1..] == first[1..] + rest && shorter[1..] == pieces[1..];
        FallsMatch(s[1..], p, shorter);
      } else {
        assert rest == if first == "" then s else s[1..];
        FallsMatch(rest, p[1..], pieces[1..]);
      }
    }
  }

  /** The part of a model id behind its provider. */
  function AfterSlash(s: string): string {
    if s == "" then "" else if s[0] == '/' then s[1..] else AfterSlash(s[1..])
  }

  function ModelName(modelId: string): string {
    if '/' in modelId then AfterSlash(modelId) else modelId
  }

  predicate PatternMatches(modelId: string, p: Pattern) {
    GlobMatch(ModelName(modelId), p) || GlobMatch(modelId, p)
  }

  predicate EndsWithStar(p: string) {
    p != "" && p[|p| - 1] == '*'
  }

  /** Coverage as decided on the spelling of the two patterns. */
  predicate IsCoveredBy(newer: Pattern, existing: Pattern) {
    || newer == existing
    || existing == "*"
    || (EndsWithStar(existing) &&
        existing[..|existing| - 1] <= if EndsWithStar(newer) then newer[..|newer| - 1] else newer)
  }

  // ---------------------------------------------------------------------------------------
  // Coverage is sound
  // ---------------------------------------------------------------------------------------

  lemma {:induction false} MatchSplits(s: string, p: Pattern, q: Pattern) returns (i: nat)
    requires GlobMatch(s, p + q)
    ensures i <= |s| && GlobMatch(s[..i], p) && GlobMatch(s[i..], q)
    decreases |s| + |p|
  {
    var pq: Pattern := p + q;
    if p == "" {
      i := 0;
      assert pq == q && s[0..] == s;
    } else if p[0] == '*' {
      assert pq[1..] == p[1..] + q;
      if GlobMatch(s, pq[1..]) {
        i := MatchSplits(s, p[1..], q);
      } else {
        var j := MatchSplits(s[1..], p, q);
        i := j + 1;
        assert s[..i][1..] == s[1..][..j] && s[i..] == s[1..][j..];
      }
    } else {
      assert pq[1..] == p[1..] + q;
      var j := MatchSplits(s[1..], p[1..], q);
      i := j + 1;
      assert s[..i][1..] == s[1..][..j] && s[i..] == s[1..][j..];
    }
  }

  lemma {:induction false} StarMatches(s: string)
    ensures GlobMatch(s, "*")
  {
    if s == "" { assert GlobMatch("", "*"[1..]); } else { StarMatches(s[1..]); }
  }

  lemma {:induction false} MatchThenStar(s: string, rest: string, p: Pattern)
    requires GlobMatch(s, p)
    ensures GlobMatch(s + rest, p + "*")
    decreases |s| + |p|
  {
    var ps: Pattern := p + "*";
    if p == "" {
      assert s + rest == rest && ps == "*";
      StarMatches(rest);
    } else {
      assert ps[1..] == p[1..] + "*";
      if p[0] == '*' && GlobMatch(s, p[1..]) {
        MatchThenStar(s, rest, p[1..]);
      } else {
        assert (s + rest)[1..] == s[1..] + rest;
        MatchThenStar(s[1..], rest, if p[0] == '*' then p else p[1..]);
      }
    }
  }

  lemma PrefixSound(p: Pattern, prefix: Pattern, s: string)
    requires prefix <= p && GlobMatch(s, p)
    ensures GlobMatch(s, prefix + "*")
  {
    assert p == prefix + p[|prefix|..];
    var i := MatchSplits(s, prefix, p[|prefix|..]);
    MatchThenStar(s[..i], s[i..], prefix);
    assert s[..i] + s[i..] == s;
  }

  /** Every string that matches a pattern matches the patterns that cover it. */
  lemma CoverageSound(newer: Pattern, existing: Pattern, s: string)
    requires IsCoveredBy(newer, existing) && GlobMatch(s, newer)
    ensures GlobMatch(s, existing)
  {
    if existing == "*" {
      StarMatches(s);
    } else if newer != existing {
      PrefixSound(newer, existing[..|existing| - 1], s);
      assert existing[..|existing| - 1] + "*" == existing;
    }
  }

  lemma CoverageSoundForModels(newer: Pattern, existing: Pattern, modelId: string)
    requires IsCoveredBy(newer, existing) && PatternMatches(modelId, newer)
    ensures PatternMatches(modelId, existing)
  {
    if GlobMatch(modelId, newer) { CoverageSound(newer, existing, modelId); }
    else { CoverageSound(newer, existing, ModelName(modelId)); }
  }

  lemma CoverageTransitive(a: Pattern, b: Pattern, c: Pattern)
    requires IsCoveredBy(a, b) && IsCoveredBy(b, c)
    ensures IsCoveredBy(a, c)
  {
  }

  // ---------------------------------------------------------------------------------------
  // Where coverage is exact
  // ---------------------------------------------------------------------------------------

  /** No wildcards. */
  predicate IsLiteral(p: string) {
    forall i :: 0 <= i < |p| ==> p[i] != '*' && p[i] != '?' && p[i] != '['
  }

  /** A literal, or a literal prefix with a star behind it. */
  predicate IsPrefixPattern(p: string) {
    IsLiteral(p) || (EndsWithStar(p) && IsLiteral(p[..|p| - 1]))
  }

  ghost predicate StarBehind(p: string, l: string) {
    p == l + "*" && IsLiteral(l)
  }

  lemma PrefixPatternIff(p: string)
    ensures IsPrefixPattern(p) <==> IsLiteral(p) || exists l :: StarBehind(p, l)
  {
    if EndsWithStar(p) && IsLiteral(p[..|p| - 1]) { assert StarBehind(p, p[..|p| - 1]); }
    if l :| StarBehind(p, l) { assert p[..|p| - 1] == l; }
  }

  lemma {:induction false} LiteralMatch(s: string, w: Pattern)
    requires IsLiteral(w)
    ensures GlobMatch(s, w) <==> s == w
  {
    if w != "" && s != "" { LiteralMatch(s[1..], w[1..]); }
  }

  lemma {:induction false} PrefixMatch(s: string, w: Pattern)
    requires IsLiteral(w)
    ensures GlobMatch(s, w + "*") <==> w <= s
  {
    if w <= s {
      LiteralMatch(w, w);
      MatchThenStar(w, s[|w|..], w);
      assert w + s[|w|..] == s;
    }
    if GlobMatch(s, w + "*") {
      var i := MatchSplits(s, w, "*");
      LiteralMatch(s[..i], w);
    }
  }

  /** Between literals and literal prefixes the test decides inclusion exactly. */
  lemma CoverageExact(newer: Pattern, existing: Pattern)
    requires IsPrefixPattern(newer) && IsPrefixPattern(existing)
    ensures IsCoveredBy(newer, existing) <==> forall s :: GlobMatch(s, newer) ==> GlobMatch(s, existing)
  {
    if IsCoveredBy(newer, existing) {
      forall s | GlobMatch(s, newer) ensures GlobMatch(s, existing) { CoverageSound(newer, existing, s); }
    } else {
      var s, longer := Shortest(newer), Shortest(newer) + "a";
      if IsLiteral(existing) {
        LiteralMatch(s, existing);
        LiteralMatch(longer, existing);
      } else {
        assert existing == Shortest(existing) + "*";
        PrefixMatch(s, Shortest(existing));
      }
      if IsLiteral(newer) {
        LiteralMatch(s, newer);
      } else {
        assert newer == Shortest(newer) + "*";
        PrefixMatch(s, Shortest(newer));
        PrefixMatch(longer, Shortest(newer));
      }
    }
  }

  function Shortest(p: string): string {
    if EndsWithStar(p) then p[..|p| - 1] else p
  }

  // ---------------------------------------------------------------------------------------
  // A character that occurs in no pattern
  // ---------------------------------------------------------------------------------------

  function Repeat(c: char, n: nat): string {
    if n == 0 then "" else [c] + Repeat(c, n - 1)
  }

  /** It stands for any other: only wildcards match it. */
  lemma {:induction false} FreshStands(c: char, t: string, s: string, p: Pattern)
    requires c !in p && GlobMatch(Repeat(c, |t|) + s, p)
    ensures GlobMatch(t + s, p)
    decreases |t| + |s| + |p|
  {
    if t == "" {
      assert t + s == s == Repeat(c, 0) + s;
    } else {
      var before := Repeat(c, |t|) + s;
      assert before[1..] == Repeat(c, |t[1..]|) + s && (t + s)[1..] == t[1..] + s;
      if p[0] == '*' && GlobMatch(before, p[1..]) {
        FreshStands(c, t, s, p[1..]);
      } else if p[0] == '*' {
        FreshStands(c, t[1..], s, p);
      } else {
        assert before[0] == c && p[0] in p;
        FreshStands(c, t[1..], s, p[1..]);
      }
    }
  }

  /** If more of them match than the pattern is long, a star matches some of them, and one more as well. */
  lemma {:induction false} FreshMore(c: char, n: nat, s: string, p: Pattern)
    requires c !in p && n > |p| && GlobMatch(Repeat(c, n) + s, p)
    ensures GlobMatch(Repeat(c, n + 1) + s, p)
    decreases |p|
  {
    var before, more := Repeat(c, n) + s, Repeat(c, n + 1) + s;
    assert more[1..] == before && before[1..] == Repeat(c, n - 1) + s;
    if p[0] != '*' {
      assert before[0] == c && p[0] in p;
      FreshMore(c, n - 1, s, p[1..]);
    }
  }

  // ---------------------------------------------------------------------------------------
  // Blanks around a pattern
  // ---------------------------------------------------------------------------------------

  function TrimLeft(s: string): string {
    if s != "" && IsSpace(s[0]) then TrimLeft(s[1..]) else s
  }

  function TrimRight(s: string): string {
    if s != "" && IsSpace(s[|s| - 1]) then TrimRight(s[..|s| - 1]) else s
  }

  /** Python's `str.strip`. */
  function Strip(s: string): string {
    TrimRight(TrimLeft(s))
  }

  predicate IsStripped(s: string) {
    s == "" || (!IsSpace(s[0]) && !IsSpace(s[|s| - 1]))
  }

  lemma {:induction false} TrimLeftDrops(s: string)
    ensures TrimLeft(s) == "" || !IsSpace(TrimLeft(s)[0])
    ensures |TrimLeft(s)| <= |s| && TrimLeft(s) == s[|s| - |TrimLeft(s)|..]
    ensures s == "" || !IsSpace(s[0]) ==> TrimLeft(s) == s
  {
    if s != "" && IsSpace(s[0]) { TrimLeftDrops(s[1..]); }
  }

  lemma {:induction false} TrimRightDrops(s: string)
    ensures |TrimRight(s)| <= |s| && TrimRight(s) == s[..|TrimRight(s)|]
    ensures TrimRight(s) == "" || !IsSpace(TrimRight(s)[|TrimRight(s)| - 1])
    ensures forall i :: |TrimRight(s)| <= i < |s| ==> IsSpace(s[i])
  {
    if s != "" && IsSpace(s[|s| - 1]) { TrimRightDrops(s[..|s| - 1]); }
  }

  /** Stripping yields a stripped string, and leaves exactly the stripped ones alone. */
  lemma StripStrips(s: string)
    ensures IsStripped(Strip(s))
    ensures Strip(s) == s <==> IsStripped(s)
    ensures '[' !in s ==> '[' !in Strip(s)
  {
    TrimLeftDrops(s);
    TrimRightDrops(TrimLeft(s));
  }

  /** Stripping adds nothing. */
  lemma StripFrom(s: string)
    ensures forall i :: 0 <= i < |Strip(s)| ==> Strip(s)[i] in s
  {
    TrimLeftDrops(s);
    TrimRightDrops(TrimLeft(s));
    var left := TrimLeft(s);
    forall i | 0 <= i < |Strip(s)| ensures Strip(s)[i] in s {
      assert Strip(s)[i] == left[i] == s[|s| - |left| + i];
    }
  }

  /** The least length of a string that matches. */
  function MinLength(p: string): nat {
    if p == "" then 0 else (if p[0] == '*' then 0 else 1) + MinLength(p[1..])
  }

  lemma {:induction false} MatchLength(s: string, p: Pattern)
    requires GlobMatch(s, p)
    ensures MinLength(p) <= |s|
    decreases |s| + |p|
  {
    if p != "" {
      if p[0] == '*' && GlobMatch(s, p[1..]) { MatchLength(s, p[1..]); }
      else if p[0] == '*' { MatchLength(s[1..], p); }
      else { MatchLength(s[1..], p[1..]); }
    }
  }

  /** A string of least length: stars match nothing. */
  function Least(p: string): string {
    if p == "" then "" else (if p[0] == '*' then "" else [p[0]]) + Least(p[1..])
  }

  lemma {:induction false} LeastMatches(p: Pattern)
    ensures GlobMatch(Least(p), p) && |Least(p)| == MinLength(p)
  {
    if p != "" {
      LeastMatches(p[1..]);
      assert p[0] == '*' ==> Least(p) == Least(p[1..]);
      assert p[0] != '*' ==> Least(p)[1..] == Least(p[1..]);
    }
  }

  lemma {:induction false} MinLengthConcat(p: string, q: string)
    ensures MinLength(p + q) == MinLength(p) + MinLength(q)
  {
    if p == "" {
      assert p + q == q;
    } else {
      assert (p + q)[1..] == p[1..] + q;
      MinLengthConcat(p[1..], q);
    }
  }

  /** Losing a literal character off the end of the prefix loses the coverage. */
  lemma ShorterNotIncluded(bare: Pattern, existing: Pattern)
    requires |bare| < |existing| - 1 && bare <= existing && existing[|bare|] != '*'
    ensures GlobMatch(Least(bare), bare) && !GlobMatch(Least(bare), existing)
  {
    var rest: Pattern := existing[|bare|..];
    assert existing == bare + rest;
    MinLengthConcat(bare, rest);
    assert MinLength(rest) > 0;
    LeastMatches(bare);
    if GlobMatch(Least(bare), existing) { MatchLength(Least(bare), existing); }
  }

  /** Without blanks in front, stripping only cuts blanks off the end. */
  lemma StripCuts(s: string)
    requires s != "" && !IsSpace(s[0])
    ensures Strip(s) <= s && forall i :: |Strip(s)| <= i < |s| ==> IsSpace(s[i])
  {
    TrimLeftDrops(s);
    TrimRightDrops(s);
  }

  /**
   * A pattern with blanks behind it may be found covered by a prefix pattern that contains some of
   * these blanks.  After stripping it is still covered exactly when no character of the prefix
   * was stripped away.
   */
  lemma PaddedCoverage(newer: Pattern, existing: Pattern)
    requires IsStripped(existing) && existing != "*" && EndsWithStar(existing)
    requires !EndsWithStar(newer) && IsCoveredBy(newer, existing)
    ensures '[' !in Strip(newer)
    ensures (forall s :: GlobMatch(s, Strip(newer)) ==> GlobMatch(s, existing)) <==> |existing| - 1 <= |Strip(newer)|
  {
    StripStrips(newer);
    var prefix: Pattern := existing[..|existing| - 1];
    var bare: Pattern := Strip(newer);
    assert newer[0] == prefix[0] == existing[0];
    StripCuts(newer);
    if |prefix| <= |bare| {
      assert prefix <= bare;
      assert prefix + "*" == existing;
      forall s | GlobMatch(s, bare) ensures GlobMatch(s, existing) { PrefixSound(bare, prefix, s); }
    } else {
      assert bare <= existing && existing[|bare|] == newer[|bare|];
      ShorterNotIncluded(bare, existing);
    }
  }
}
