/**
 * Normalising URLs, as far as it is done by hand: the path, the query parameters, and the parts
 * that are dropped.  Strings are compared by a given function, as the locale has it.
 */
module UrlNormal {

  // ---------------------------------------------------------------------------------------
  // Paths
  // ---------------------------------------------------------------------------------------

  /** Every run of slashes becomes a single one. */
  function Collapse(p: string): string {
    if |p| < 2 then p
    else if p[0] == '/' && p[1] == '/' then Collapse(p[1..])
    else [p[0]] + Collapse(p[1..])
  }

  function TrimSlashes(p: string): string {
    if p != "" && p[|p| - 1] == '/' then TrimSlashes(p[..|p| - 1]) else p
  }

  function NormalPath(p: string): string {
    var clean := Collapse(p);
    if |clean| > 1 then TrimSlashes(clean) else "/"
  }

  /** The names between slashes, leaving out empty ones; `name` is what has been read of the first. */
  function SegmentsFrom(p: string, name: string): seq<string> {
    if p == "" then Finished(name)
    else if p[0] == '/' then Finished(name) + SegmentsFrom(p[1..], "")
    else SegmentsFrom(p[1..], name + [p[0]])
  }

  function Finished(name: string): seq<string> {
    if name == "" then [] else [name]
  }

  function Segments(p: string): seq<string> {
    SegmentsFrom(p, "")
  }

  function Join(names: seq<string>): string {
    if names == [] then "" else "/" + names[0] + Join(names[1..])
  }

  predicate IsAbsolute(p: string) {
    p != "" && p[0] == '/'
  }

  predicate NoDoubleSlash(p: string) {
    forall i :: 0 < i < |p| ==> !(p[i - 1] == '/' && p[i] == '/')
  }

  lemma {:induction false} CollapseMeets(p: string)
    ensures NoDoubleSlash(Collapse(p))
    ensures p != "" ==> Collapse(p) != "" && Collapse(p)[0] == p[0]
    ensures p != "" && p[|p| - 1] != '/' ==> Collapse(p)[|Collapse(p)| - 1] != '/'
  {
    if |p| >= 2 {
      CollapseMeets(p[1..]);
    }
  }

  lemma {:induction false} CollapseKeepsSegments(p: string, name: string)
    ensures SegmentsFrom(Collapse(p), name) == SegmentsFrom(p, name)
    decreases |p|
  {
    if |p| >= 2 {
      CollapseMeets(p[1..]);
      if p[0] == '/' && p[1] == '/' {
        CollapseKeepsSegments(p[1..], name);
        CollapseKeepsSegments(p[1..], "");
        assert p[1..][1..] == p[2..];
      } else {
        assert Collapse(p)[1..] == Collapse(p[1..]);
        CollapseKeepsSegments(p[1..], if p[0] == '/' then "" else name + [p[0]]);
      }
    }
  }

  lemma {:induction false} DropSlash(p: string, name: string)
    ensures SegmentsFrom(p + "/", name) == SegmentsFrom(p, name)
    decreases |p|
  {
    if p == "" {
      assert p + "/" == "/" && "/"[1..] == "";
    } else {
      assert (p + "/")[1..] == p[1..] + "/";
      DropSlash(p[1..], if p[0] == '/' then "" else name + [p[0]]);
    }
  }

  lemma {:induction false} TrimMeets(p: string)
    ensures TrimSlashes(p) == "" || TrimSlashes(p)[|TrimSlashes(p)| - 1] != '/'
    ensures TrimSlashes(p) <= p
    ensures Segments(TrimSlashes(p)) == Segments(p)
  {
    if p != "" && p[|p| - 1] == '/' {
      TrimMeets(p[..|p| - 1]);
      DropSlash(p[..|p| - 1], "");
      assert p[..|p| - 1] + "/" == p;
    }
  }

  /** A text without empty names is spelt out by its names. */
  lemma {:induction false} JoinSegments(p: string, name: string)
    requires NoDoubleSlash(p) && (p == "" || p[|p| - 1] != '/')
    requires name == "" ==> p != "" && p[0] != '/'
    ensures Join(SegmentsFrom(p, name)) == "/" + name + p
    decreases |p|
  {
    if p == "" {
      assert Join([name]) == "/" + name + "";
    } else {
      var rest := p[1..];
      assert forall i :: 0 < i < |rest| ==> rest[i] == p[i + 1] && rest[i - 1] == p[i];
      if p[0] == '/' {
        assert rest != "" && rest[0] == p[1];
        JoinSegments(rest, "");
        assert ([name] + SegmentsFrom(rest, ""))[1..] == SegmentsFrom(rest, "");
        assert "/" + name + ("/" + "" + rest) == "/" + name + p;
      } else {
        JoinSegments(rest, name + [p[0]]);
        assert "/" + (name + [p[0]]) + rest == "/" + name + p;
      }
    }
  }

  lemma NormalPathShape(p: string)
    requires IsAbsolute(p)
    ensures IsAbsolute(NormalPath(p)) && NoDoubleSlash(NormalPath(p))
    ensures NormalPath(p) == "/" || NormalPath(p)[|NormalPath(p)| - 1] != '/'
    ensures Segments(NormalPath(p)) == Segments(p)
  {
    var clean := Collapse(p);
    CollapseMeets(p);
    CollapseKeepsSegments(p, "");
    if |clean| > 1 {
      TrimMeets(clean);
      if TrimSlashes(clean) == "" {
        TrimTwo(clean);
      }
    } else {
      assert clean == "/";
    }
  }

  lemma TrimTwo(p: string)
    requires |p| > 1 && NoDoubleSlash(p)
    ensures TrimSlashes(p) != ""
  {
  }

  /** The normal form of a path is spelt by the names in it, and by nothing else. */
  lemma NormalPathSpelling(p: string)
    requires IsAbsolute(p)
    ensures NormalPath(p) == if Segments(p) == [] then "/" else Join(Segments(p))
  {
    NormalPathShape(p);
    AbsoluteSpelling(NormalPath(p));
  }

  lemma AbsoluteSpelling(n: string)
    requires IsAbsolute(n) && NoDoubleSlash(n) && (n == "/" || n[|n| - 1] != '/')
    ensures n == if Segments(n) == [] then "/" else Join(Segments(n))
  {
    var q := n[1..];
    assert Segments(n) == SegmentsFrom(q, "");
    if q != "" {
      assert n[0] == '/' && q[0] == n[1] && q[|q| - 1] == n[|n| - 1];
      assert forall i :: 0 < i < |q| ==> q[i] == n[i + 1] && q[i - 1] == n[i];
      JoinSegments(q, "");
      assert "/" + "" + q == n;
    }
  }

  /** Two paths have the same normal form exactly when they have the same names in the same order. */
  lemma SameNormalPath(p: string, q: string)
    requires IsAbsolute(p) && IsAbsolute(q)
    ensures NormalPath(p) == NormalPath(q) <==> Segments(p) == Segments(q)
  {
    NormalPathShape(p);
    NormalPathShape(q);
    NormalPathSpelling(p);
    NormalPathSpelling(q);
  }

  lemma NormalPathIdempotent(p: string)
    requires IsAbsolute(p)
    ensures IsAbsolute(NormalPath(p)) && NormalPath(NormalPath(p)) == NormalPath(p)
  {
    NormalPathShape(p);
    SameNormalPath(NormalPath(p), p);
  }

  // ---------------------------------------------------------------------------------------
  // Query parameters
  // ---------------------------------------------------------------------------------------

  type Param = (string, string)

  /** Negative, zero or positive, as `localeCompare` answers. */
  type Compare = (string, string) -> int

  predicate Before(a: Param, b: Param, cmp: Compare) {
    if a.0 == b.0 then cmp(a.1, b.1) < 0 else cmp(a.0, b.0) < 0
  }

  ghost predicate Antisymmetric(cmp: Compare) {
    forall a, b :: cmp(a, b) < 0 <==> cmp(b, a) > 0
  }

  ghost predicate Transitive(cmp: Compare) {
    forall a, b, c :: cmp(a, b) <= 0 && cmp(b, c) <= 0 ==> cmp(a, c) <= 0
  }

  /** No two different strings compare as equal. */
  ghost predicate TieFree(cmp: Compare) {
    forall a, b :: cmp(a, b) == 0 ==> a == b
  }

  /** Put `x` behind everything that it is not before. */
  function InsertParam(xs: seq<Param>, x: Param, cmp: Compare): seq<Param> {
    if xs == [] || !Before(x, xs[|xs| - 1], cmp) then xs + [x]
    else InsertParam(xs[..|xs| - 1], x, cmp) + [xs[|xs| - 1]]
  }

  /** The stable sort. */
  function SortParams(xs: seq<Param>, cmp: Compare): seq<Param> {
    if xs == [] then [] else InsertParam(SortParams(xs[..|xs| - 1], cmp), xs[|xs| - 1], cmp)
  }

  ghost predicate InOrder(xs: seq<Param>, cmp: Compare) {
    forall i :: 0 < i < |xs| ==> !Before(xs[i], xs[i - 1], cmp)
  }

  lemma {:induction false} InsertInOrder(xs: seq<Param>, x: Param, cmp: Compare)
    requires Antisymmetric(cmp) && InOrder(xs, cmp)
    ensures InOrder(InsertParam(xs, x, cmp), cmp)
    ensures InsertParam(xs, x, cmp) != []
    ensures var last := InsertParam(xs, x, cmp)[|InsertParam(xs, x, cmp)| - 1];
      last == x || (xs != [] && last == xs[|xs| - 1])
  {
    if xs != [] && Before(x, xs[|xs| - 1], cmp) {
      var n := |xs| - 1;
      InsertInOrder(xs[..n], x, cmp);
      assert n > 0 ==> !Before(xs[n], xs[n - 1], cmp);
    }
  }

  lemma {:induction false} SortInOrder(xs: seq<Param>, cmp: Compare)
    requires Antisymmetric(cmp)
    ensures InOrder(SortParams(xs, cmp), cmp)
  {
    if xs != [] {
      SortInOrder(xs[..|xs| - 1], cmp);
      InsertInOrder(SortParams(xs[..|xs| - 1], cmp), xs[|xs| - 1], cmp);
    }
  }

  lemma {:induction false} SortFixed(xs: seq<Param>, cmp: Compare)
    requires InOrder(xs, cmp)
    ensures SortParams(xs, cmp) == xs
  {
    if xs != [] {
      var n := |xs| - 1;
      SortFixed(xs[..n], cmp);
      assert n > 0 ==> !Before(xs[n], xs[n - 1], cmp);
      assert xs[..n] + [xs[n]] == xs;
    }
  }

  /** Sorting again changes nothing, whether or not the comparison is transitive or free of ties. */
  lemma SortParamsIdempotent(xs: seq<Param>, cmp: Compare)
    requires Antisymmetric(cmp)
    ensures SortParams(SortParams(xs, cmp), cmp) == SortParams(xs, cmp)
  {
    SortInOrder(xs, cmp);
    SortFixed(SortParams(xs, cmp), cmp);
  }

  lemma {:induction false} InsertMultiset(xs: seq<Param>, x: Param, cmp: Compare)
    ensures multiset(InsertParam(xs, x, cmp)) == multiset(xs) + multiset{x}
  {
    if xs != [] && Before(x, xs[|xs| - 1], cmp) {
      InsertMultiset(xs[..|xs| - 1], x, cmp);
      assert xs == xs[..|xs| - 1] + [xs[|xs| - 1]];
    }
  }

  /** No parameter gets lost or doubled. */
  lemma {:induction false} SortMultiset(xs: seq<Param>, cmp: Compare)
    ensures multiset(SortParams(xs, cmp)) == multiset(xs)
  {
    if xs != [] {
      SortMultiset(xs[..|xs| - 1], cmp);
      InsertMultiset(SortParams(xs[..|xs| - 1], cmp), xs[|xs| - 1], cmp);
      assert xs == xs[..|xs| - 1] + [xs[|xs| - 1]];
    }
  }

  lemma BeforeTotal(a: Param, b: Param, cmp: Compare)
    requires Antisymmetric(cmp) && TieFree(cmp)
    ensures Before(a, b, cmp) || Before(b, a, cmp) || a == b
    ensures !(Before(a, b, cmp) && Before(b, a, cmp))
  {
  }

  lemma NotBeforeTransitive(a: Param, b: Param, c: Param, cmp: Compare)
    requires Antisymmetric(cmp) && Transitive(cmp) && TieFree(cmp)
    requires !Before(b, a, cmp) && !Before(c, b, cmp)
    ensures !Before(c, a, cmp)
  {
  }

  lemma {:induction false} FirstIsLeast(xs: seq<Param>, cmp: Compare, i: nat)
    requires Antisymmetric(cmp) && Transitive(cmp) && TieFree(cmp)
    requires InOrder(xs, cmp) && i < |xs|
    ensures !Before(xs[i], xs[0], cmp)
  {
    if i > 0 {
      FirstIsLeast(xs, cmp, i - 1);
      NotBeforeTransitive(xs[0], xs[i - 1], xs[i], cmp);
    }
  }

  /** Sorted parameters go up, by name and then by value. */
  lemma {:induction false} SortAscends(xs: seq<Param>, cmp: Compare, i: nat, j: nat)
    requires Antisymmetric(cmp) && Transitive(cmp) && TieFree(cmp) && i < j < |SortParams(xs, cmp)|
    ensures var a, b := SortParams(xs, cmp)[i], SortParams(xs, cmp)[j];
      cmp(a.0, b.0) < 0 || (a.0 == b.0 && cmp(a.1, b.1) <= 0)
  {
    SortInOrder(xs, cmp);
    var rest := SortParams(xs, cmp)[i..];
    assert forall k :: 0 < k < |rest| ==> rest[k] == SortParams(xs, cmp)[i + k];
    FirstIsLeast(rest, cmp, j - i);
  }

  lemma SameRest(xs: seq<Param>, ys: seq<Param>)
    requires xs != [] && ys != [] && xs[0] == ys[0] && multiset(xs) == multiset(ys)
    ensures multiset(xs[1..]) == multiset(ys[1..])
  {
    assert xs == [xs[0]] + xs[1..] && ys == [ys[0]] + ys[1..];
    assert multiset(xs[1..]) == multiset(xs) - multiset{xs[0]};
  }

  lemma {:induction false} OrderUnique(xs: seq<Param>, ys: seq<Param>, cmp: Compare)
    requires Antisymmetric(cmp) && Transitive(cmp) && TieFree(cmp)
    requires InOrder(xs, cmp) && InOrder(ys, cmp) && multiset(xs) == multiset(ys)
    ensures xs == ys
    decreases |xs|
  {
    assert |xs| == |multiset(xs)| == |multiset(ys)| == |ys|;
    if xs != [] {
      assert xs[0] in multiset(ys) && ys[0] in multiset(xs);
      var i :| 0 <= i < |ys| && ys[i] == xs[0];
      var j :| 0 <= j < |xs| && xs[j] == ys[0];
      FirstIsLeast(ys, cmp, i);
      FirstIsLeast(xs, cmp, j);
      BeforeTotal(xs[0], ys[0], cmp);
      SameRest(xs, ys);
      OrderUnique(xs[1..], ys[1..], cmp);
    }
  }

  /** Without ties there is one way only to sort the parameters, whatever the algorithm. */
  lemma AnySortAgrees(xs: seq<Param>, sorted: seq<Param>, cmp: Compare)
    requires Antisymmetric(cmp) && Transitive(cmp) && TieFree(cmp)
    ensures multiset(sorted) == multiset(xs) && InOrder(sorted, cmp) <==> sorted == SortParams(xs, cmp)
  {
    SortInOrder(xs, cmp);
    SortMultiset(xs, cmp);
    if multiset(sorted) == multiset(xs) && InOrder(sorted, cmp) { OrderUnique(sorted, SortParams(xs, cmp), cmp); }
  }

  /** What JavaScript asks of the comparison in a sort; otherwise it leaves the order open. */
  ghost predicate Consistent(cmp: Compare) {
    && (forall a, b :: Before(a, b, cmp) ==> !Before(b, a, cmp))
    && forall a, b, c :: !Before(b, a, cmp) && !Before(c, b, cmp) ==> !Before(c, a, cmp)
  }

  ghost predicate AllTie(cmp: Compare) {
    forall a, b :: cmp(a, b) == 0
  }

  /** The comparison of parameters is consistent exactly if no two different strings compare as equal, or all do. */
  lemma ConsistentIff(cmp: Compare)
    requires Antisymmetric(cmp) && Transitive(cmp)
    ensures Consistent(cmp) <==> TieFree(cmp) || AllTie(cmp)
  {
    if TieFree(cmp) {
      forall a, b, c | !Before(b, a, cmp) && !Before(c, b, cmp) ensures !Before(c, a, cmp) {
        NotBeforeTransitive(a, b, c, cmp);
      }
    }
    if Consistent(cmp) && !TieFree(cmp) {
      var a, b :| cmp(a, b) == 0 && a != b;
      assert cmp(b, a) == 0;
      forall v, w ensures cmp(v, w) == 0 {
        if cmp(v, w) < 0 { TieBetween(a, b, v, w, cmp); }
        if cmp(w, v) < 0 { TieBetween(a, b, w, v, cmp); }
      }
    }
  }

  lemma TieBetween(a: string, b: string, v: string, w: string, cmp: Compare)
    requires a != b && cmp(a, b) == 0 == cmp(b, a) && cmp(v, w) < 0
    ensures !Consistent(cmp)
  {
    var x: Param, y: Param, z: Param := (a, w), (b, ""), (a, v);
    assert !Before(y, x, cmp) && !Before(z, y, cmp) && Before(z, x, cmp);
  }

  /** The parameters that are neither before nor behind `x`, in order. */
  function TiedWith(xs: seq<Param>, x: Param, cmp: Compare): seq<Param> {
    if xs == [] then []
    else (if Before(xs[0], x, cmp) || Before(x, xs[0], cmp) then [] else [xs[0]]) + TiedWith(xs[1..], x, cmp)
  }

  /** What JavaScript promises of its sort, if the comparison is consistent. */
  ghost predicate IsStableSort(xs: seq<Param>, sorted: seq<Param>, cmp: Compare) {
    && multiset(sorted) == multiset(xs) && InOrder(sorted, cmp)
    && forall x :: TiedWith(sorted, x, cmp) == TiedWith(xs, x, cmp)
  }

  function Copies(x: Param, n: nat): seq<Param> {
    if n == 0 then [] else [x] + Copies(x, n - 1)
  }

  lemma {:induction false} TiedCopies(xs: seq<Param>, x: Param, cmp: Compare)
    requires Antisymmetric(cmp) && TieFree(cmp)
    ensures TiedWith(xs, x, cmp) == Copies(x, multiset(xs)[x])
  {
    if xs != [] {
      TiedCopies(xs[1..], x, cmp);
      BeforeTotal(xs[0], x, cmp);
      assert xs == [xs[0]] + xs[1..];
    }
  }

  lemma {:induction false} AllTied(xs: seq<Param>, x: Param, cmp: Compare)
    requires AllTie(cmp)
    ensures TiedWith(xs, x, cmp) == xs
  {
    if xs != [] { AllTied(xs[1..], x, cmp); }
  }

  /** For a consistent comparison the sort computed here is the only stable one. */
  lemma StableSortAgrees(xs: seq<Param>, sorted: seq<Param>, cmp: Compare)
    requires Antisymmetric(cmp) && Transitive(cmp) && Consistent(cmp)
    ensures IsStableSort(xs, sorted, cmp) <==> sorted == SortParams(xs, cmp)
  {
    ConsistentIff(cmp);
    if TieFree(cmp) {
      AnySortAgrees(xs, sorted, cmp);
      forall x ensures multiset(sorted) == multiset(xs) ==> TiedWith(sorted, x, cmp) == TiedWith(xs, x, cmp) {
        TiedCopies(xs, x, cmp);
        TiedCopies(sorted, x, cmp);
      }
    } else {
      SortFixed(xs, cmp);
      forall x ensures TiedWith(sorted, x, cmp) == sorted && TiedWith(xs, x, cmp) == xs {
        AllTied(xs, x, cmp);
        AllTied(sorted, x, cmp);
      }
      assert IsStableSort(xs, sorted, cmp) ==> TiedWith(sorted, ("", ""), cmp) == TiedWith(xs, ("", ""), cmp);
    }
  }

  /** Then sorting a sorted list again, by whatever stable algorithm, changes nothing. */
  lemma SortedAgain(xs: seq<Param>, sorted: seq<Param>, again: seq<Param>, cmp: Compare)
    requires Antisymmetric(cmp) && Transitive(cmp) && Consistent(cmp)
    requires IsStableSort(xs, sorted, cmp) && IsStableSort(sorted, again, cmp)
    ensures again == sorted
  {
    StableSortAgrees(xs, sorted, cmp);
    StableSortAgrees(sorted, again, cmp);
    SortParamsIdempotent(xs, cmp);
  }

  /** Two parameters whose names tie stay in either order. */
  lemma TiedEitherWay(a: string, b: string, v: string, w: string, cmp: Compare)
    requires a != b && cmp(a, b) == 0 == cmp(b, a)
    ensures SortParams([(a, v), (b, w)], cmp) == [(a, v), (b, w)]
    ensures SortParams([(b, w), (a, v)], cmp) == [(b, w), (a, v)]
    ensures [(a, v), (b, w)] != [(b, w), (a, v)]
  {
    SortFixed([(a, v), (b, w)], cmp);
    SortFixed([(b, w), (a, v)], cmp);
    assert [(a, v), (b, w)][0] != [(b, w), (a, v)][0];
  }

  /** The order in which a page spells the parameters never matters. */
  ghost predicate OrderInsensitive(cmp: Compare) {
    forall xs, ys: seq<Param> :: multiset(xs) == multiset(ys) ==> SortParams(xs, cmp) == SortParams(ys, cmp)
  }

  /**
   * Sorting makes the parameters' order irrelevant exactly when different strings never compare as
   * equal, which a locale's comparison does not promise.
   */
  lemma OrderInsensitiveIffTieFree(cmp: Compare)
    requires Antisymmetric(cmp) && Transitive(cmp)
    ensures OrderInsensitive(cmp) <==> TieFree(cmp)
  {
    if TieFree(cmp) {
      forall xs, ys: seq<Param> | multiset(xs) == multiset(ys) ensures SortParams(xs, cmp) == SortParams(ys, cmp) {
        SortInOrder(xs, cmp);
        SortInOrder(ys, cmp);
        SortMultiset(xs, cmp);
        SortMultiset(ys, cmp);
        OrderUnique(SortParams(xs, cmp), SortParams(ys, cmp), cmp);
      }
    }
    if OrderInsensitive(cmp) {
      forall a, b | cmp(a, b) == 0 ensures a == b {
        var x: Param, y: Param := (a, ""), (b, "");
        assert multiset([x, y]) == multiset([y, x]);
        assert cmp(b, a) == 0;
        if a != b { TiedEitherWay(a, b, "", "", cmp); }
      }
    }
  }

  // ---------------------------------------------------------------------------------------
  // The URL object
  // ---------------------------------------------------------------------------------------

  /** The parts of a URL that normalising touches or looks at. */
  datatype Parts = Parts(
    protocol: string, username: string, password: string, port: string,
    pathname: string, params: seq<Param>, hash: string)

  predicate IsWeb(protocol: string) {
    protocol == "http:" || protocol == "https:"
  }

  function NormalPort(protocol: string, port: string): string {
    if (protocol == "http:" && port == "80") || (protocol == "https:" && port == "443") then "" else port
  }

  function NormalParts(u: Parts, cmp: Compare): Parts {
    Parts(u.protocol, "", "", NormalPort(u.protocol, u.port), NormalPath(u.pathname), SortParams(u.params, cmp), "")
  }

  class Url {
    var protocol: string
    var username: string
    var password: string
    var port: string
    var pathname: string
    var params: seq<Param>
    var hash: string

    function Current(): Parts
      reads this
    {
      Parts(protocol, username, password, port, pathname, params, hash)
    }

    constructor (u: Parts)
      ensures Current() == u
    {
      protocol, username, password, port := u.protocol, u.username, u.password, u.port;
      pathname, params, hash := u.pathname, u.params, u.hash;
    }

    /** Anything but http and https is refused. */
    method Normalize(cmp: Compare) returns (ok: bool)
      modifies this
      ensures ok <==> IsWeb(old(protocol))
      ensures Current() == if ok then NormalParts(old(Current()), cmp) else old(Current())
    {
      if protocol != "http:" && protocol != "https:" {
        return false;
      }
      hash := "";
      username := "";
      password := "";
      if protocol == "http:" && port == "80" {
        port := "";
      }
      if protocol == "https:" && port == "443" {
        port := "";
      }
      var cleanPath := Collapse(pathname);
      if |cleanPath| > 1 {
        pathname := TrimSlashes(cleanPath);
      } else {
        pathname := "/";
      }
      SortQuery(cmp);
      ok := true;
    }

    method SortQuery(cmp: Compare)
      modifies this`params
      ensures params == SortParams(old(params), cmp)
    {
      var sortedParams := SortParams(params, cmp);
      params := [];
      for i := 0 to |sortedParams|
        invariant params == sortedParams[..i]
      {
        params := params + [sortedParams[i]];
      }
    }
  }

  /** Normalising what is normalised changes nothing. */
  lemma NormalPartsIdempotent(u: Parts, cmp: Compare)
    requires IsAbsolute(u.pathname) && Antisymmetric(cmp)
    ensures NormalParts(NormalParts(u, cmp), cmp) == NormalParts(u, cmp)
  {
    NormalPathIdempotent(u.pathname);
    SortParamsIdempotent(u.params, cmp);
  }

  /**
   * Two addresses normalise alike exactly when they agree up to the default port, empty names in
   * the path and the order of the parameters.
   */
  lemma SameNormalParts(u: Parts, v: Parts, cmp: Compare)
    requires IsAbsolute(u.pathname) && IsAbsolute(v.pathname)
    requires Antisymmetric(cmp) && Transitive(cmp) && TieFree(cmp)
    ensures NormalParts(u, cmp) == NormalParts(v, cmp) <==>
      && u.protocol == v.protocol && NormalPort(u.protocol, u.port) == NormalPort(v.protocol, v.port)
      && Segments(u.pathname) == Segments(v.pathname)
      && multiset(u.params) == multiset(v.params)
  {
    SameNormalPath(u.pathname, v.pathname);
    OrderInsensitiveIffTieFree(cmp);
    SortMultiset(u.params, cmp);
    SortMultiset(v.params, cmp);
  }
}
