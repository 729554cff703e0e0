/** Terms, unification and the body solver of the stratified Datalog engine. */
module Solver {
  import opened Wrappers
  import opened SExprs

  /** A binding of variable names to values.  Values are trees whose root is not a symbol. */
  type Env = map<string, SExpr>

  datatype Term = Var(name: string) | Const(value: SExpr)
  datatype Fact = Fact(pred: string, args: seq<SExpr>)
  datatype Rule = Rule(headPred: string, headTerms: seq<Term>, body: SExpr)

  /** The fact lists by predicate, in insertion order. */
  type Index = map<string, seq<Fact>>

  /** What a body's leading symbol makes of it. */
  datatype Op = And | Not | Eq | Exists | Reserved(word: string) | Call(pred: string) | NoOp

  function OpOf(e: SExpr): Op {
    if !e.List? || e.items == [] || !e.items[0].Sym? then NoOp else
    var op := e.items[0].name;
    if op == "and" then And
    else if op == "not" then Not
    else if op == "=" then Eq
    else if op == "exists" then Exists
    else if op in ["rule", "fact", "pred", "sort", "sig", "module"] then Reserved(op)
    else Call(op)
  }

  /** An upper-case first letter or a leading question mark makes a symbol a variable. */
  predicate IsVarSymbol(name: string) {
    name != "" && ('A' <= name[0] <= 'Z' || name[0] == '?')
  }

  /** A constant symbol and the string with the same text are one and the same value. */
  function ToTerm(x: SExpr): Term {
    if x.Sym? then
      if IsVarSymbol(x.name) then Var(x.name) else Const(Str(x.name))
    else
      Const(x)
  }

  function ToTerms(xs: seq<SExpr>): seq<Term> {
    seq(|xs|, i requires 0 <= i < |xs| => ToTerm(xs[i]))
  }

  function BindTerm(t: Term, value: SExpr, env: Env): Option<Env> {
    match t
    case Var(x) =>
      if x !in env then Some(env[x := value])
      else if env[x] == value then Some(env) else None
    case Const(c) =>
      if c == value then Some(env) else None
  }

  function UnifyTerms(pattern: seq<Term>, datum: seq<SExpr>, env: Env): Option<Env>
  {
    if |pattern| != |datum| then None
    else if pattern == [] then Some(env)
    else match BindTerm(pattern[0], datum[0], env)
      case None => None
      case Some(env') => UnifyTerms(pattern[1..], datum[1..], env')
  }

  /** The value of a term, `None` while a variable is unbound. */
  function TermValue(t: Term, env: Env): Option<SExpr> {
    match t
    case Var(x) => if x in env then Some(env[x]) else None
    case Const(c) => Some(c)
  }

  function Lookup(idx: Index, pred: string): seq<Fact> {
    if pred in idx then idx[pred] else []
  }

  /** The names quantified by an `exists` form. */
  function Quantified(binder: SExpr): set<string> {
    if binder.List? then set s | s in binder.items && s.Sym? :: s.name else {}
  }

  predicate IsExistsForm(e: SExpr) {
    e.List? && |e.items| == 3 && e.items[1].List?
  }

  /** All environments the solver yields for body `e`, in order, reading `idx` as it is now. */
  function Solve(e: SExpr, env: Env, idx: Index): seq<Env>
    decreases e, 0, 0
  {
    match OpOf(e)
    case And => SolveAll(e.items[1..], [env], idx)
    case Not =>
      // without an operand the body under `not` is no expression, which always succeeds
      if |e.items| > 1 && Solve(e.items[1], env, idx) == [] then [env] else []
    case Eq => if |e.items| == 3 then SolveEq(ToTerm(e.items[1]), ToTerm(e.items[2]), env) else []
    case Exists =>
      if !IsExistsForm(e) then [] else
      var found := Solve(e.items[2], env, idx);
      if found == [] then [] else [found[0] - Quantified(e.items[1])]
    case Call(pred) => SolveCall(ToTerms(e.items[1..]), Lookup(idx, pred), env)
    case Reserved(_) => []
    case NoOp => []
  }

  function SolveAll(subs: seq<SExpr>, envs: seq<Env>, idx: Index): seq<Env>
    decreases subs, 2, 0
  {
    if subs == [] || envs == [] then envs
    else SolveAll(subs[1..], SolveEach(subs[0], envs, idx), idx)
  }

  function SolveEach(e: SExpr, envs: seq<Env>, idx: Index): seq<Env>
    decreases e, 1, |envs|
  {
    if envs == [] then [] else Solve(e, envs[0], idx) + SolveEach(e, envs[1..], idx)
  }

  /** Two unbound sides succeed without being linked. */
  function SolveEq(a: Term, b: Term, env: Env): seq<Env> {
    match (TermValue(a, env), TermValue(b, env))
    case (Some(av), Some(bv)) => if av == bv then [env] else []
    case (None, Some(bv)) => Yield(BindTerm(a, bv, env))
    case (Some(av), None) => Yield(BindTerm(b, av, env))
    case (None, None) => [env]
  }

  function Yield(env: Option<Env>): seq<Env> {
    if env.Some? then [env.value] else []
  }

  function SolveCall(terms: seq<Term>, facts: seq<Fact>, env: Env): seq<Env> {
    if facts == [] then []
    else Yield(UnifyTerms(terms, facts[0].args, env)) + SolveCall(terms, facts[1..], env)
  }

  /** The predicates a body reads, each flagged when it occurs under a `not`. */
  datatype Dep = Dep(pred: string, neg: bool)

  function Deps(e: SExpr, neg: bool := false): seq<Dep>
    decreases e, 0
  {
    match OpOf(e)
    case And => DepsAll(e.items[1..], neg)
    case Not => if |e.items| > 1 then Deps(e.items[1], true) else []
    case Eq => []
    case Exists => if |e.items| == 3 then Deps(e.items[2], neg) else []
    case Reserved(word) => [Dep(word, neg)]
    case Call(pred) => [Dep(pred, neg)]
    case NoOp => []
  }

  function DepsAll(subs: seq<SExpr>, neg: bool): seq<Dep>
    decreases subs, 1
  {
    if subs == [] then [] else Deps(subs[0], neg) + DepsAll(subs[1..], neg)
  }

  /** The solver may come to solve the item at this position. */
  predicate IsOperand(e: SExpr, i: nat) {
    match OpOf(e)
    case And => 1 <= i < |e.items|
    case Not => i == 1 < |e.items|
    case Exists => i == 2 && |e.items| == 3
    case _ => false
  }

  /** At the end of the path, which leads from operand to operand, the predicate is read. */
  predicate ReadAt(e: SExpr, path: seq<nat>, pred: string) {
    if path == [] then OpOf(e) == Call(pred) || OpOf(e) == Reserved(pred)
    else IsOperand(e, path[0]) && ReadAt(e.items[path[0]], path[1..], pred)
  }

  /** The path leads through a `not`. */
  predicate UnderNot(e: SExpr, path: seq<nat>) {
    path != [] && IsOperand(e, path[0]) && (OpOf(e).Not? || UnderNot(e.items[path[0]], path[1..]))
  }

  /** A predicate is flagged negative, or positive, exactly if it is read below a `not`, or below none. */
  lemma DepsIff(e: SExpr, pred: string, neg: bool)
    ensures Dep(pred, neg) in Deps(e, false) <==> exists path :: ReadAt(e, path, pred) && UnderNot(e, path) == neg
  {
    DepsByPath(e, pred, neg, false);
  }

  lemma {:induction false} DepsByPath(e: SExpr, pred: string, neg: bool, flag: bool)
    ensures Dep(pred, neg) in Deps(e, flag) <==> exists path :: ReadAt(e, path, pred) && (flag || UnderNot(e, path)) == neg
    decreases e, 0
  {
    if Dep(pred, neg) in Deps(e, flag) {
      var path := PathOf(e, pred, neg, flag);
    }
    if path :| ReadAt(e, path, pred) && (flag || UnderNot(e, path)) == neg {
      PathIsDep(e, path, pred, flag);
    }
  }

  lemma {:induction false} PathIsDep(e: SExpr, path: seq<nat>, pred: string, flag: bool)
    requires ReadAt(e, path, pred)
    ensures Dep(pred, flag || UnderNot(e, path)) in Deps(e, flag)
    decreases |path|
  {
    if path != [] {
      var below := flag || OpOf(e).Not?;
      PathIsDep(e.items[path[0]], path[1..], pred, below);
      if OpOf(e).And? { DepsAllMember(e.items[1..], flag, path[0] - 1); }
    }
  }

  lemma {:induction false} DepsAllMember(subs: seq<SExpr>, flag: bool, i: nat)
    requires i < |subs|
    ensures forall d :: d in Deps(subs[i], flag) ==> d in DepsAll(subs, flag)
  {
    if i > 0 { DepsAllMember(subs[1..], flag, i - 1); }
  }

  lemma {:induction false} PathOf(e: SExpr, pred: string, neg: bool, flag: bool) returns (path: seq<nat>)
    requires Dep(pred, neg) in Deps(e, flag)
    ensures ReadAt(e, path, pred) && (flag || UnderNot(e, path)) == neg
    decreases e, 0
  {
    match OpOf(e)
    case And =>
      var i, rest := PathInAll(e.items[1..], pred, neg, flag);
      path := [1 + i] + rest;
      assert e.items[1..][i] == e.items[1 + i];
    case Not =>
      var rest := PathOf(e.items[1], pred, neg, true);
      path := [1] + rest;
    case Exists =>
      var rest := PathOf(e.items[2], pred, neg, flag);
      path := [2] + rest;
    case _ => path := [];
  }

  lemma {:induction false} PathInAll(subs: seq<SExpr>, pred: string, neg: bool, flag: bool) returns (i: nat, path: seq<nat>)
    requires Dep(pred, neg) in DepsAll(subs, flag)
    ensures i < |subs| && ReadAt(subs[i], path, pred) && (flag || UnderNot(subs[i], path)) == neg
    decreases subs, 1
  {
    if Dep(pred, neg) in Deps(subs[0], flag) {
      path := PathOf(subs[0], pred, neg, flag);
      i := 0;
    } else {
      i, path := PathInAll(subs[1..], pred, neg, flag);
      i := i + 1;
    }
  }

  // ---------------------------------------------------------------------------------------
  // Which facts a body reads
  // ---------------------------------------------------------------------------------------

  /** `idx` and `idx'` hold the same fact lists for every predicate in `deps`. */
  ghost predicate SameOn(deps: seq<Dep>, idx: Index, idx': Index) {
    forall d <- deps :: Lookup(idx, d.pred) == Lookup(idx', d.pred)
  }

  /** The solver reads no fact list other than those of the predicates in `Deps`. */
  lemma {:induction false} SolveReadsOnlyDeps(e: SExpr, neg: bool, env: Env, idx: Index, idx': Index)
    requires SameOn(Deps(e, neg), idx, idx')
    ensures Solve(e, env, idx) == Solve(e, env, idx')
    decreases e, 0, 0
  {
    match OpOf(e)
    case And => SolveAllReadsOnlyDeps(e.items[1..], neg, [env], idx, idx');
    case Not => if |e.items| > 1 { SolveReadsOnlyDeps(e.items[1], true, env, idx, idx'); }
    case Exists => if |e.items| == 3 { SolveReadsOnlyDeps(e.items[2], neg, env, idx, idx'); }
    case Call(pred) => assert Dep(pred, neg) in Deps(e, neg);
    case _ =>
  }

  lemma {:induction false} SolveAllReadsOnlyDeps(subs: seq<SExpr>, neg: bool, envs: seq<Env>, idx: Index, idx': Index)
    requires SameOn(DepsAll(subs, neg), idx, idx')
    ensures SolveAll(subs, envs, idx) == SolveAll(subs, envs, idx')
    decreases subs, 2, 0
  {
    if subs != [] && envs != [] {
      assert SameOn(Deps(subs[0], neg), idx, idx') && SameOn(DepsAll(subs[1..], neg), idx, idx');
      SolveEachReadsOnlyDeps(subs[0], neg, envs, idx, idx');
      SolveAllReadsOnlyDeps(subs[1..], neg, SolveEach(subs[0], envs, idx), idx, idx');
    }
  }

  lemma {:induction false} SolveEachReadsOnlyDeps(e: SExpr, neg: bool, envs: seq<Env>, idx: Index, idx': Index)
    requires SameOn(Deps(e, neg), idx, idx')
    ensures SolveEach(e, envs, idx) == SolveEach(e, envs, idx')
    decreases e, 1, |envs|
  {
    if envs != [] {
      SolveReadsOnlyDeps(e, neg, envs[0], idx, idx');
      SolveEachReadsOnlyDeps(e, neg, envs[1..], idx, idx');
    }
  }
}
