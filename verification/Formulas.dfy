/** Rule bodies as formulas, with a meaning that does not look at how they are spelt. */
module Formulas {
  import opened Wrappers
  import opened SExprs
  import opened Solver
  import opened Semantics
  import opened Loader

  /** `Nothing` is never true. */
  datatype Formula =
    | Conjunction(parts: seq<Formula>)
    | Negation(part: Formula)
    | Equation(left: Term, right: Term)
    | Existential(names: set<string>, part: Formula)
    | Atom(pred: string, args: seq<Term>)
    | Nothing

  /** The names in it that an enclosing formula may bind. */
  ghost function Free(f: Formula): set<string> {
    match f
    case Conjunction(parts) => set i, x | 0 <= i < |parts| && x in Free(parts[i]) :: x
    case Negation(part) => Free(part)
    case Equation(left, right) => NamesIn([left, right])
    case Existential(names, part) => Free(part) - names
    case Atom(_, args) => NamesIn(args)
    case Nothing => {}
  }

  function NamesIn(ts: seq<Term>): set<string> {
    set t | t in ts && t.Var? :: t.name
  }

  predicate HasValue(t: Term, value: SExpr, v: Env) {
    match t
    case Var(x) => x in v && v[x] == value
    case Const(c) => c == value
  }

  predicate HaveValues(ts: seq<Term>, values: seq<SExpr>, v: Env) {
    |ts| == |values| && forall i :: 0 <= i < |ts| ==> HasValue(ts[i], values[i], v)
  }

  /** Truth under a valuation; below a negation, which takes closed formulas only, the facts are `neg`. */
  ghost predicate Holds(f: Formula, v: Env, pos: set<Fact>, neg: set<Fact>) {
    match f
    case Conjunction(parts) => forall i :: 0 <= i < |parts| ==> Holds(parts[i], v, pos, neg)
    case Negation(part) => Free(part) <= v.Keys && !Holds(part, v, neg, neg)
    case Equation(left, right) => exists value :: HasValue(left, value, v) && HasValue(right, value, v)
    case Existential(names, part) => exists w: Env :: w.Keys <= names && Holds(part, (v - names) + w, pos, neg)
    case Atom(pred, args) =>
      exists values :: Fact(pred, values) in pos && HaveValues(args, values, v)
    case Nothing => false
  }

  predicate Leads(e: SExpr, word: string) {
    e.List? && e.items != [] && e.items[0] == Sym(word)
  }

  predicate SpellTerms(xs: seq<SExpr>, ts: seq<Term>) {
    |xs| == |ts| && forall i :: 0 <= i < |ts| ==> SpellsTerm(xs[i], ts[i])
  }

  /** Is the tree the spelling of this formula?  Anything without a sense of its own is never true. */
  ghost predicate Spells(e: SExpr, f: Formula) {
    match f
    case Conjunction(parts) =>
      Leads(e, "and") && |e.items| == |parts| + 1 && forall i :: 0 <= i < |parts| ==> Spells(e.items[i + 1], parts[i])
    case Negation(part) => Leads(e, "not") && |e.items| > 1 && Spells(e.items[1], part)
    case Equation(left, right) => Leads(e, "=") && |e.items| == 3 && SpellsTerm(e.items[1], left) && SpellsTerm(e.items[2], right)
    case Existential(names, part) =>
      && Leads(e, "exists") && |e.items| == 3 && e.items[1].List?
      && (forall x :: x in names <==> Sym(x) in e.items[1].items) && Spells(e.items[2], part)
    case Atom(pred, args) => Leads(e, pred) && !IsKeyword(pred) && SpellTerms(e.items[1..], args)
    case Nothing => IsSenseless(e)
  }

  predicate IsKeyword(word: string) {
    word in {"and", "not", "=", "exists", "rule", "fact", "pred", "sort", "sig", "module"}
  }

  /** No word in front, a word of the program level, or a form whose parts are not there. */
  predicate IsSenseless(e: SExpr) {
    || !e.List? || e.items == [] || !e.items[0].Sym?
    || e.items[0].name in {"rule", "fact", "pred", "sort", "sig", "module"}
    || (Leads(e, "not") && |e.items| == 1)
    || (Leads(e, "=") && |e.items| != 3)
    || (Leads(e, "exists") && !(|e.items| == 3 && e.items[1].List?))
  }

  /** Every tree spells a formula. */
  lemma {:induction false} FormulaOf(e: SExpr) returns (f: Formula)
    ensures Spells(e, f)
    decreases e, 0
  {
    if IsSenseless(e) {
      f := Nothing;
    } else if Leads(e, "and") {
      var parts := FormulasOf(e.items[1..]);
      f := Conjunction(parts);
    } else if Leads(e, "not") {
      var part := FormulaOf(e.items[1]);
      f := Negation(part);
    } else if Leads(e, "=") {
      var ts := TermsOf(e.items[1..]);
      f := Equation(ts[0], ts[1]);
    } else if Leads(e, "exists") {
      var part := FormulaOf(e.items[2]);
      f := Existential(Quantified(e.items[1]), part);
    } else {
      var ts := TermsOf(e.items[1..]);
      f := Atom(e.items[0].name, ts);
    }
  }

  lemma {:induction false} FormulasOf(es: seq<SExpr>) returns (fs: seq<Formula>)
    ensures |fs| == |es| && forall i :: 0 <= i < |es| ==> Spells(es[i], fs[i])
    decreases es, 1
  {
    fs := [];
    if es != [] {
      var f := FormulaOf(es[0]);
      var rest := FormulasOf(es[1..]);
      fs := [f] + rest;
    }
  }

  lemma TermsOf(xs: seq<SExpr>) returns (ts: seq<Term>)
    ensures SpellTerms(xs, ts)
  {
    ts := ToTerms(xs);
    SpellTermsIff(xs, ts);
  }

  lemma SpellTermsIff(xs: seq<SExpr>, ts: seq<Term>)
    ensures SpellTerms(xs, ts) <==> ts == ToTerms(xs)
  {
    if |xs| == |ts| {
      forall i | 0 <= i < |ts| ensures SpellsTerm(xs[i], ts[i]) <==> ts[i] == ToTerm(xs[i]) { SpellsTermIff(xs[i], ts[i]); }
    }
  }

  lemma HasValueIff(t: Term, value: SExpr, v: Env)
    ensures HasValue(t, value, v) <==> TermValue(t, v) == Some(value)
  {
  }

  lemma NamesInTerms(ts: seq<Term>)
    ensures TermsVars(ts) == NamesIn(ts)
  {
    forall x ensures x in TermsVars(ts) <==> x in NamesIn(ts) {
      if x in TermsVars(ts) {
        var t :| t in ts && x in TermVars(t);
        assert t.Var?;
      }
      if x in NamesIn(ts) {
        var t :| t in ts && t.Var? && t.name == x;
        assert x in TermVars(t);
      }
    }
  }

  lemma {:induction false} FormulaVars(e: SExpr, f: Formula)
    requires Spells(e, f)
    ensures Vars(e) == Free(f)
    decreases f
  {
    match f
    case Conjunction(parts) =>
      forall i | 0 <= i < |parts| ensures Vars(e.items[i + 1]) == Free(parts[i]) { FormulaVars(e.items[i + 1], parts[i]); }
      assert forall i :: 1 <= i < |e.items| ==> Vars(e.items[i]) == Free(parts[i - 1]);
    case Negation(part) => FormulaVars(e.items[1], part);
    case Equation(left, right) =>
      SpellsTermIff(e.items[1], left);
      SpellsTermIff(e.items[2], right);
      NamesInTerms([left, right]);
      assert TermsVars([left, right]) == TermVars(left) + TermVars(right);
    case Existential(names, part) => FormulaVars(e.items[2], part);
    case Atom(_, args) =>
      SpellTermsIff(e.items[1..], args);
      NamesInTerms(args);
    case Nothing =>
  }

  /** A body holds exactly when the formula that it spells does. */
  lemma {:induction false} FormulaMeans(e: SExpr, f: Formula, v: Env, pos: set<Fact>, neg: set<Fact>)
    requires Spells(e, f)
    ensures Sat(e, v, pos, neg) <==> Holds(f, v, pos, neg)
    decreases f
  {
    match f
    case Conjunction(parts) =>
      forall i | 0 <= i < |parts| ensures Sat(e.items[i + 1], v, pos, neg) <==> Holds(parts[i], v, pos, neg) {
        FormulaMeans(e.items[i + 1], parts[i], v, pos, neg);
      }
      assert forall i :: 1 <= i < |e.items| ==> (Sat(e.items[i], v, pos, neg) <==> Holds(parts[i - 1], v, pos, neg));
    case Negation(part) =>
      FormulaVars(e.items[1], part);
      FormulaMeans(e.items[1], part, v, neg, neg);
    case Equation(left, right) => EquationMeans(e, left, right, v, pos, neg);
    case Existential(names, part) =>
      forall w: Env | w.Keys <= names ensures Sat(e.items[2], (v - names) + w, pos, neg) <==> Holds(part, (v - names) + w, pos, neg) {
        FormulaMeans(e.items[2], part, (v - names) + w, pos, neg);
      }
      assert Quantified(e.items[1]) == names;
    case Atom(pred, args) => AtomMeans(e, pred, args, v, pos, neg);
    case Nothing =>
  }

  lemma EquationMeans(e: SExpr, left: Term, right: Term, v: Env, pos: set<Fact>, neg: set<Fact>)
    requires Spells(e, Equation(left, right))
    ensures Sat(e, v, pos, neg) <==> Holds(Equation(left, right), v, pos, neg)
  {
    SpellsTermIff(e.items[1], left);
    SpellsTermIff(e.items[2], right);
    forall value ensures HasValue(left, value, v) && HasValue(right, value, v) <==>
        TermValue(left, v) == Some(value) && TermValue(right, v) == Some(value)
    {
      HasValueIff(left, value, v);
      HasValueIff(right, value, v);
    }
  }

  lemma AtomMeans(e: SExpr, pred: string, args: seq<Term>, v: Env, pos: set<Fact>, neg: set<Fact>)
    requires Spells(e, Atom(pred, args))
    ensures Sat(e, v, pos, neg) <==> Holds(Atom(pred, args), v, pos, neg)
  {
    SpellTermsIff(e.items[1..], args);
    assert OpOf(e) == Call(pred);
    forall values ensures TermsAre(args, values, v) <==> HaveValues(args, values, v) { HaveValuesIff(args, values, v); }
    if f :| f in pos && f.pred == pred && TermsAre(args, f.args, v) {
      assert Fact(pred, f.args) == f && HaveValues(args, f.args, v);
    }
    if values :| Fact(pred, values) in pos && HaveValues(args, values, v) {
      assert TermsAre(args, Fact(pred, values).args, v);
    }
  }

  lemma HaveValuesIff(ts: seq<Term>, values: seq<SExpr>, v: Env)
    ensures TermsAre(ts, values, v) <==> HaveValues(ts, values, v)
  {
    if |ts| == |values| {
      forall i | 0 <= i < |ts| ensures TermIs(ts[i], values[i], v) <==> HasValue(ts[i], values[i], v) {
        HasValueIff(ts[i], values[i], v);
      }
    }
  }
}
