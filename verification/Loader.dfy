/** From source text to a program. */
module Loader {
  import opened Wrappers
  import opened SExprs
  import opened Lexer
  import opened Reader
  import opened Solver
  import opened Semantics
  import opened Stratification
  import opened Derivation
  import opened StrataRuns
  import opened Evaluation

  predicate IsForm(form: SExpr, keyword: string, size: nat) {
    form.List? && |form.items| == size && size > 0 && form.items[0] == Sym(keyword)
  }

  predicate IsAtomForm(e: SExpr) {
    e.List? && e.items != [] && e.items[0].Sym?
  }

  function Constant(x: SExpr): SExpr {
    if x.Sym? then Str(x.name) else x
  }

  /** A fact's arguments are constants even where they look like variables. */
  function CompileFact(form: SExpr): Option<Fact> {
    if !IsForm(form, "fact", 2) || !IsAtomForm(form.items[1]) then None
    else
      var inner := form.items[1].items;
      Some(Fact(inner[0].name, seq(|inner| - 1, i requires 0 <= i < |inner| - 1 => Constant(inner[i + 1]))))
  }

  function CompileRule(form: SExpr): Option<Rule> {
    if !IsForm(form, "rule", 3) || !IsAtomForm(form.items[1]) then None
    else
      var head := form.items[1].items;
      Some(Rule(head[0].name, ToTerms(head[1..]), form.items[2]))
  }

  // ---------------------------------------------------------------------------------------
  // What a form says
  // ---------------------------------------------------------------------------------------

  /** A word with an upper-case first letter or a leading question mark. */
  predicate NamesVariable(name: string) {
    name != "" && (name[0] == '?' || name[0] in "ABCDEFGHIJKLMNOPQRSTUVWXYZ")
  }

  /** A symbol stands for the string with its text, also where it looks like a variable. */
  predicate SpellsArgument(x: SExpr, a: SExpr) {
    if x.Sym? then a == Str(x.name) else a == x
  }

  /** In a rule's head symbols that look like variables are variables. */
  predicate SpellsTerm(x: SExpr, t: Term) {
    match t
    case Var(name) => x == Sym(name) && NamesVariable(name)
    case Const(c) => if x.Sym? then c == Str(x.name) && !NamesVariable(x.name) else c == x
  }

  /** A list of the keyword and the given number of items besides, the first of them an atom of the predicate. */
  predicate IsStatement(form: SExpr, keyword: string, size: nat, pred: string) {
    && form.List? && |form.items| == 1 + size && size > 0 && form.items[0] == Sym(keyword)
    && form.items[1].List? && form.items[1].items != [] && form.items[1].items[0] == Sym(pred)
  }

  /** The form reads `(fact (pred args...))`. */
  predicate StatesFact(form: SExpr, f: Fact) {
    && IsStatement(form, "fact", 1, f.pred) && |form.items[1].items| == 1 + |f.args|
    && forall i :: 0 <= i < |f.args| ==> SpellsArgument(form.items[1].items[i + 1], f.args[i])
  }

  /** The form reads `(rule (pred terms...) body)`. */
  predicate StatesRule(form: SExpr, r: Rule) {
    && IsStatement(form, "rule", 2, r.headPred) && |form.items[1].items| == 1 + |r.headTerms|
    && (forall i :: 0 <= i < |r.headTerms| ==> SpellsTerm(form.items[1].items[i + 1], r.headTerms[i]))
    && form.items[2] == r.body
  }

  ghost predicate StatesNoRule(form: SExpr) {
    forall r :: !StatesRule(form, r)
  }

  /** The rules are those that the forms state, in their order. */
  ghost predicate StateRules(forms: seq<SExpr>, rules: seq<Rule>) {
    if forms == [] then rules == []
    else if StatesNoRule(forms[0]) then StateRules(forms[1..], rules)
    else rules != [] && StatesRule(forms[0], rules[0]) && StateRules(forms[1..], rules[1..])
  }

  ghost predicate Stated(forms: seq<SExpr>, f: Fact) {
    exists form :: form in forms && StatesFact(form, f)
  }

  /** Compiling finds the fact that a form states, if it states one. */
  lemma CompileFactIff(form: SExpr, f: Fact)
    ensures CompileFact(form) == Some(f) <==> StatesFact(form, f)
  {
    if StatesFact(form, f) {
      var inner, compiled := form.items[1].items, CompileFact(form).value;
      assert |compiled.args| == |f.args|;
      forall i | 0 <= i < |f.args| ensures compiled.args[i] == f.args[i] {
        assert SpellsArgument(inner[i + 1], f.args[i]) && compiled.args[i] == Constant(inner[i + 1]);
      }
      assert compiled.args == f.args && compiled.pred == f.pred;
    }
    if CompileFact(form) == Some(f) {
      var inner := form.items[1].items;
      forall i | 0 <= i < |f.args| ensures SpellsArgument(inner[i + 1], f.args[i]) {
        assert f.args[i] == Constant(inner[i + 1]);
      }
    }
  }

  lemma CompileRuleIff(form: SExpr, r: Rule)
    ensures CompileRule(form) == Some(r) <==> StatesRule(form, r)
  {
    if StatesRule(form, r) {
      var compiled := CompileRule(form).value;
      forall i | 0 <= i < |r.headTerms| ensures compiled.headTerms[i] == r.headTerms[i] {
        SpellsTermIff(form.items[1].items[i + 1], r.headTerms[i]);
      }
      assert compiled.headTerms == r.headTerms;
    }
    if CompileRule(form) == Some(r) {
      forall i | 0 <= i < |r.headTerms| ensures SpellsTerm(form.items[1].items[i + 1], r.headTerms[i]) {
        SpellsTermIff(form.items[1].items[i + 1], r.headTerms[i]);
      }
    }
  }

  lemma SpellsTermIff(x: SExpr, t: Term)
    ensures SpellsTerm(x, t) <==> ToTerm(x) == t
  {
    if x.Sym? && x.name != "" { UpperCase(x.name[0]); }
  }

  lemma UpperCase(c: char)
    ensures 'A' <= c <= 'Z' <==> c in "ABCDEFGHIJKLMNOPQRSTUVWXYZ"
  {
    var letters := "ABCDEFGHIJKLMNOPQRSTUVWXYZ";
    if 'A' <= c <= 'Z' { assert letters[c as int - 'A' as int] == c; }
  }

  lemma StatedIff(forms: seq<SExpr>, f: Fact)
    ensures f in FactsIn(forms) <==> Stated(forms, f)
  {
    forall form ensures CompileFact(form) == Some(f) <==> StatesFact(form, f) { CompileFactIff(form, f); }
  }

  lemma {:induction false} RulesInStated(forms: seq<SExpr>)
    ensures StateRules(forms, RulesIn(forms))
  {
    if forms != [] {
      RulesInStated(forms[1..]);
      forall r ensures CompileRule(forms[0]) == Some(r) <==> StatesRule(forms[0], r) { CompileRuleIff(forms[0], r); }
      var rules := RulesIn(forms);
      if CompileRule(forms[0]).Some? {
        assert StatesRule(forms[0], CompileRule(forms[0]).value) && CompileFact(forms[0]).None?;
        assert rules[0] == CompileRule(forms[0]).value && rules[1..] == RulesIn(forms[1..]);
      } else {
        assert StatesNoRule(forms[0]) && rules == RulesIn(forms[1..]);
      }
    }
  }

  // ---------------------------------------------------------------------------------------
  // Loading
  // ---------------------------------------------------------------------------------------

  /** The facts that the forms state, and the rules in order; other forms are skipped. */
  function FactsIn(forms: seq<SExpr>): set<Fact> {
    set form | form in forms && CompileFact(form).Some? :: CompileFact(form).value
  }

  function RulesIn(forms: seq<SExpr>): seq<Rule> {
    if forms == [] then []
    else
      (if CompileFact(forms[0]).None? && CompileRule(forms[0]).Some? then [CompileRule(forms[0]).value] else [])
      + RulesIn(forms[1..])
  }

  datatype LoadError = Syntax(error: ReadError) | UnhashableFact

  method LoadMuProgram(src: string) returns (prog: Program, error: Option<LoadError>)
    ensures fresh(prog) && prog.Valid()
    ensures Read(src).Err? <==> error.Some? && error.value.Syntax?
    ensures Read(src).Ok? ==> (error.None? <==> forall f :: Stated(Read(src).value, f) ==> Hashable(f))
    ensures error.None? ==> forall f :: f in prog.factSet <==> Stated(Read(src).value, f)
    ensures error.None? ==> StateRules(Read(src).value, prog.rules)
    ensures error.None? ==> prog.factSet == FactsIn(Read(src).value) && prog.rules == RulesIn(Read(src).value)
  {
    prog := new Program();
    error := None;
    var parsed := ParseAll(src);
    match parsed
    case Err(e) => error := Some(Syntax(e));
    case Ok(forms) =>
      error := LoadForms(prog, forms);
      forall f ensures f in FactsIn(forms) <==> Stated(forms, f) { StatedIff(forms, f); }
      RulesInStated(forms);
  }

  method LoadForms(prog: Program, forms: seq<SExpr>) returns (error: Option<LoadError>)
    requires prog.Valid() && prog.factSet == {} && prog.rules == []
    modifies prog
    ensures prog.Valid()
    ensures error == None || error == Some(UnhashableFact)
    ensures error.None? <==> forall f :: f in FactsIn(forms) ==> Hashable(f)
    ensures error.None? ==> prog.factSet == FactsIn(forms) && prog.rules == RulesIn(forms)
  {
    error := None;
    for i := 0 to |forms|
      invariant prog.Valid() && error.None?
      invariant prog.factSet == FactsIn(forms[..i]) && prog.rules == RulesIn(forms[..i])
      invariant forall f :: f in FactsIn(forms[..i]) ==> Hashable(f)
    {
      FormsAppend(forms, i);
      match CompileFact(forms[i])
      case Some(f) =>
        var raised := prog.AddFact(f);
        if raised {
          assert f in FactsIn(forms) by { assert forms[i] in forms; }
          return Some(UnhashableFact);
        }
      case None =>
        match CompileRule(forms[i])
        case Some(r) => prog.AddRule(r);
        case None =>
    }
    assert forms[..|forms|] == forms;
  }

  lemma FormsAppend(forms: seq<SExpr>, i: nat)
    requires i < |forms|
    ensures FactsIn(forms[..i + 1]) ==
      FactsIn(forms[..i]) + if CompileFact(forms[i]).Some? then {CompileFact(forms[i]).value} else {}
    ensures RulesIn(forms[..i + 1]) == RulesIn(forms[..i]) +
      if CompileFact(forms[i]).None? && CompileRule(forms[i]).Some? then [CompileRule(forms[i]).value] else []
  {
    assert forms[..i + 1] == forms[..i] + [forms[i]];
    RulesInAppend(forms[..i], forms[i]);
    assert forall g :: g in forms[..i + 1] <==> g in forms[..i] || g == forms[i];
  }

  lemma {:induction false} RulesInAppend(forms: seq<SExpr>, form: SExpr)
    ensures RulesIn(forms + [form]) == RulesIn(forms) +
      if CompileFact(form).None? && CompileRule(form).Some? then [CompileRule(form).value] else []
  {
    if forms != [] {
      assert (forms + [form])[1..] == forms[1..] + [form];
      RulesInAppend(forms[1..], form);
    }
  }

  lemma {:induction false} RulesInMember(forms: seq<SExpr>, r: Rule)
    ensures r in RulesIn(forms) <==>
      exists form :: form in forms && CompileFact(form).None? && CompileRule(form) == Some(r)
  {
    if forms != [] {
      RulesInMember(forms[1..], r);
      assert forall form :: form in forms <==> form == forms[0] || form in forms[1..];
    }
  }

  /** Two sources with the same forms, in whatever order and layout, evaluate to the same facts. */
  lemma SourceOrderIrrelevant(src: string, src': string, a: Index, b: Index, a': Index, b': Index)
    requires Read(src).Ok? && Read(src').Ok?
    requires forall form :: form in Read(src).value <==> form in Read(src').value
    requires ValidIndex(a) && FactsOf(a) == FactsIn(Read(src).value)
    requires ValidIndex(a') && FactsOf(a') == FactsIn(Read(src').value)
    requires AllWellModed(RulesIn(Read(src).value))
    requires StratifySpec(RulesIn(Read(src).value)).converged && FullRun(RulesIn(Read(src).value), a, b)
    requires StratifySpec(RulesIn(Read(src').value)).converged && FullRun(RulesIn(Read(src').value), a', b')
    ensures FactsOf(b) == FactsOf(b')
  {
    var forms, forms' := Read(src).value, Read(src').value;
    forall r ensures r in RulesIn(forms) <==> r in RulesIn(forms') {
      RulesInMember(forms, r);
      RulesInMember(forms', r);
    }
    OrderIrrelevant(RulesIn(forms), a, b, RulesIn(forms'), a', b');
  }

  // ---------------------------------------------------------------------------------------
  // Loading undoes printing
  // ---------------------------------------------------------------------------------------

  datatype Statement = FactOf(fact: Fact) | RuleOf(rule: Rule)

  function TermForm(t: Term): SExpr {
    match t
    case Var(name) => Sym(name)
    case Const(c) => c
  }

  function TermForms(ts: seq<Term>): seq<SExpr> {
    seq(|ts|, i requires 0 <= i < |ts| => TermForm(ts[i]))
  }

  /** A statement in print: constants as strings and numbers, variables as symbols. */
  function FormOf(st: Statement): SExpr {
    match st
    case FactOf(f) => List([Sym("fact"), List([Sym(f.pred)] + f.args)])
    case RuleOf(r) => List([Sym("rule"), List([Sym(r.headPred)] + TermForms(r.headTerms)), r.body])
  }

  function FormsOf(sts: seq<Statement>): seq<SExpr> {
    seq(|sts|, i requires 0 <= i < |sts| => FormOf(sts[i]))
  }

  /** What can be printed: constants are neither symbols nor, in facts, lists, and variables look like ones. */
  predicate Proper(st: Statement) {
    Printable(FormOf(st)) &&
    match st
    case FactOf(f) => Hashable(f) && forall a :: a in f.args ==> !a.Sym?
    case RuleOf(r) => forall t :: t in r.headTerms ==> if t.Var? then NamesVariable(t.name) else !t.value.Sym?
  }

  function RulesOf(sts: seq<Statement>): seq<Rule> {
    if sts == [] then [] else (if sts[0].RuleOf? then [sts[0].rule] else []) + RulesOf(sts[1..])
  }

  lemma FormStates(st: Statement)
    requires Proper(st)
    ensures match st
      case FactOf(f) => StatesFact(FormOf(st), f) && StatesNoRule(FormOf(st))
      case RuleOf(r) => StatesRule(FormOf(st), r) && forall f :: !StatesFact(FormOf(st), f)
  {
    match st
    case FactOf(f) =>
      forall i | 0 <= i < |f.args| ensures SpellsArgument(FormOf(st).items[1].items[i + 1], f.args[i]) {
        assert f.args[i] in f.args;
      }
    case RuleOf(r) =>
      forall i | 0 <= i < |r.headTerms| ensures SpellsTerm(FormOf(st).items[1].items[i + 1], r.headTerms[i]) {
        assert r.headTerms[i] in r.headTerms;
      }
  }

  lemma StatesRuleOnce(form: SExpr, r: Rule, r': Rule)
    requires StatesRule(form, r) && StatesRule(form, r')
    ensures r == r'
  {
    CompileRuleIff(form, r);
    CompileRuleIff(form, r');
  }

  lemma {:induction false} PrintedRules(sts: seq<Statement>, rules: seq<Rule>)
    requires forall st :: st in sts ==> Proper(st)
    requires StateRules(FormsOf(sts), rules)
    ensures rules == RulesOf(sts)
    decreases |sts|
  {
    if sts != [] {
      assert FormsOf(sts)[1..] == FormsOf(sts[1..]);
      FormStates(sts[0]);
      match sts[0]
      case FactOf(f) => PrintedRules(sts[1..], rules);
      case RuleOf(r) =>
        StatesRuleOnce(FormOf(sts[0]), r, rules[0]);
        PrintedRules(sts[1..], rules[1..]);
        assert rules == [rules[0]] + rules[1..];
    }
  }

  lemma PrintedFacts(sts: seq<Statement>, f: Fact)
    requires forall st :: st in sts ==> Proper(st)
    ensures Stated(FormsOf(sts), f) <==> FactOf(f) in sts
  {
    if FactOf(f) in sts {
      FormStates(FactOf(f));
      var i :| 0 <= i < |sts| && sts[i] == FactOf(f);
      assert FormsOf(sts)[i] == FormOf(FactOf(f));
    }
    if Stated(FormsOf(sts), f) {
      var form :| form in FormsOf(sts) && StatesFact(form, f);
      var i :| 0 <= i < |sts| && FormsOf(sts)[i] == form;
      FormStates(sts[i]);
      CompileFactIff(form, f);
      CompileFactIff(form, sts[i].fact);
    }
  }

  /**
   * Loading undoes printing: a program that is printed, in whatever order and layout, is loaded with
   * exactly its facts, and with its rules in order.
   */
  method LoadPrinted(sts: seq<Statement>, text: seq<Placed>, tail: Tail) returns (prog: Program)
    requires forall st :: st in sts ==> Proper(st)
    requires Spells(text, FormsOf(sts)) && ValidLayout(text, tail)
    ensures fresh(prog) && prog.Valid()
    ensures forall f :: f in prog.factSet <==> FactOf(f) in sts
    ensures prog.rules == RulesOf(sts)
  {
    forall i | 0 <= i < |sts| ensures Printable(FormsOf(sts)[i]) { assert sts[i] in sts; }
    ReadUndoesPrint(FormsOf(sts), text, tail);
    var error;
    prog, error := LoadMuProgram(Render(text, tail));
    forall f ensures Stated(FormsOf(sts), f) <==> FactOf(f) in sts { PrintedFacts(sts, f); }
    PrintedRules(sts, prog.rules);
  }
}
