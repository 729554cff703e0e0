/** Token strings to trees, and printing trees so that they read back. */
module Reader {
  import opened Wrappers
  import opened SExprs
  import opened Lexer
  import opened Numerals

  /** A point or the letter e makes a token a candidate for `float`, otherwise for `int`. */
  predicate FloatShaped(tok: string) {
    '.' in tok || 'e' in tok || 'E' in tok
  }

  function ParseAtom(tok: string): SExpr {
    if tok != "" && tok[0] == '"' && tok[|tok| - 1] == '"' then
      Str(if |tok| > 1 then tok[1..|tok| - 1] else "")
    else if FloatShaped(tok) then
      if IsFloat(tok) then Float(tok) else Sym(tok)
    else
      if IsInt(tok) then Int(IntValue(tok)) else Sym(tok)
  }

  predicate IsQuoted(tok: string) {
    tok != "" && tok[0] == '"' && tok[|tok| - 1] == '"'
  }

  /**
   * What a token is read as: between quotes a string, otherwise the integer or else the floating
   * point number that it spells, otherwise a symbol.
   */
  lemma AtomIff(tok: string)
    ensures ParseAtom(tok).Str? <==> IsQuoted(tok)
    ensures forall text :: tok == "\"" + text + "\"" ==> ParseAtom(tok) == Str(text)
    ensures forall n :: ParseAtom(tok) == Int(n) <==> IsInt(tok) && IntValue(tok) == n
    ensures forall literal :: ParseAtom(tok) == Float(literal) <==> literal == tok && IsFloat(tok) && !IsInt(tok)
    ensures forall name :: ParseAtom(tok) == Sym(name) <==> name == tok && !IsQuoted(tok) && !IsInt(tok) && !IsFloat(tok)
  {
    NumberShapes(tok);
  }

  type Parsed<T> = Result<(T, seq<string>), ReadError>

  /** One tree off the front of the tokens, and the tokens after it. */
  function ParseOne(toks: seq<string>): (r: Parsed<SExpr>)
    ensures r.Ok? ==> |r.value.1| < |toks|
    decreases |toks|, 0
  {
    if toks == [] then Err(UnexpectedEnd)
    else if toks[0] == "(" then
      match ParseItems(toks[1..])
      case Err(e) => Err(e)
      case Ok((items, rest)) => Ok((List(items), rest))
    else if toks[0] == ")" then Err(UnexpectedClose)
    else Ok((ParseAtom(toks[0]), toks[1..]))
  }

  /** The trees up to the closing parenthesis, and the tokens after it. */
  function ParseItems(toks: seq<string>): (r: Parsed<seq<SExpr>>)
    ensures r.Ok? ==> |r.value.1| < |toks|
    decreases |toks|, 1
  {
    if toks == [] then Err(UnterminatedList)
    else if toks[0] == ")" then Ok(([], toks[1..]))
    else
      match ParseOne(toks)
      case Err(e) => Err(e)
      case Ok((item, rest)) => PrependItems([item], ParseItems(rest))
  }

  function PrependItems(items: seq<SExpr>, r: Parsed<seq<SExpr>>): Parsed<seq<SExpr>> {
    match r
    case Err(e) => Err(e)
    case Ok((more, rest)) => Ok((items + more, rest))
  }

  type Forms = Result<seq<SExpr>, ReadError>

  function PrependForms(forms: seq<SExpr>, r: Forms): Forms {
    match r
    case Err(e) => Err(e)
    case Ok(more) => Ok(forms + more)
  }

  function ParseForms(toks: seq<string>): Forms
    decreases |toks|
  {
    if toks == [] then Ok([])
    else
      match ParseOne(toks)
      case Err(e) => Err(e)
      case Ok((form, rest)) => PrependForms([form], ParseForms(rest))
  }

  /** The reader: tokenize, then parse. */
  function Read(src: string): Forms {
    match Lex(src)
    case Err(e) => Err(e)
    case Ok(toks) => ParseForms(toks)
  }

  // ---------------------------------------------------------------------------------------
  // The loops
  // ---------------------------------------------------------------------------------------

  /** The token list together with the position that the nested parsing functions share. */
  class Parser {
    const toks: seq<string>
    var pos: nat

    constructor (toks: seq<string>)
      ensures this.toks == toks && pos == 0
    {
      this.toks, pos := toks, 0;
    }

    method One() returns (r: Result<SExpr, ReadError>)
      requires pos <= |toks|
      modifies this`pos
      ensures old(pos) <= pos <= |toks|
      ensures match r
        case Err(e) => ParseOne(toks[old(pos)..]) == Err(e)
        case Ok(form) => old(pos) < pos && ParseOne(toks[old(pos)..]) == Ok((form, toks[pos..]))
      decreases |toks| - pos
    {
      if pos >= |toks| {
        return Err(UnexpectedEnd);
      }
      var t := toks[pos];
      ghost var start := pos;
      assert toks[start..][1..] == toks[start + 1..];
      pos := pos + 1;
      if t == "(" {
        var out: seq<SExpr> := [];
        PrependNoItems(ParseItems(toks[pos..]));
        while true
          invariant start < pos <= |toks|
          invariant ParseItems(toks[start + 1..]) == PrependItems(out, ParseItems(toks[pos..]))
          decreases |toks| - pos
        {
          if pos >= |toks| {
            return Err(UnterminatedList);
          }
          if toks[pos] == ")" {
            assert toks[pos..][1..] == toks[pos + 1..] && out + [] == out;
            pos := pos + 1;
            return Ok(List(out));
          }
          var item := One();
          match item
          case Err(e) => return Err(e);
          case Ok(form) =>
            PrependItemsTwice(out, [form], ParseItems(toks[pos..]));
            out := out + [form];
        }
      }
      if t == ")" {
        return Err(UnexpectedClose);
      }
      return Ok(ParseAtom(t));
    }
  }

  lemma PrependNoItems(r: Parsed<seq<SExpr>>)
    ensures PrependItems([], r) == r
  {
    if r.Ok? { assert [] + r.value.0 == r.value.0; }
  }

  lemma PrependItemsTwice(a: seq<SExpr>, b: seq<SExpr>, r: Parsed<seq<SExpr>>)
    ensures PrependItems(a + b, r) == PrependItems(a, PrependItems(b, r))
  {
    if r.Ok? { assert a + b + r.value.0 == a + (b + r.value.0); }
  }

  method ParseAll(src: string) returns (r: Forms)
    ensures r == Read(src)
  {
    var lexed := Tokenize(src);
    match lexed
    case Err(e) => return Err(e);
    case Ok(toks) =>
      var parser := new Parser(toks);
      var forms: seq<SExpr> := [];
      assert toks[0..] == toks;
      PrependNoForms(ParseForms(toks));
      while parser.pos < |toks|
        invariant parser.toks == toks && parser.pos <= |toks|
        invariant ParseForms(toks) == PrependForms(forms, ParseForms(toks[parser.pos..]))
        decreases |toks| - parser.pos
      {
        var one := parser.One();
        match one
        case Err(e) => return Err(e);
        case Ok(form) =>
          PrependFormsTwice(forms, [form], ParseForms(toks[parser.pos..]));
          forms := forms + [form];
      }
      assert forms + [] == forms;
      r := Ok(forms);
  }

  lemma PrependNoForms(r: Forms)
    ensures PrependForms([], r) == r
  {
    if r.Ok? { assert [] + r.value == r.value; }
  }

  lemma PrependFormsTwice(a: seq<SExpr>, b: seq<SExpr>, r: Forms)
    ensures PrependForms(a + b, r) == PrependForms(a, PrependForms(b, r))
  {
    if r.Ok? { assert a + b + r.value == a + (b + r.value); }
  }

  // ---------------------------------------------------------------------------------------
  // Parentheses
  // ---------------------------------------------------------------------------------------

  /** Inside `depth` open parentheses the tokens close everything, and never close too much. */
  function Balanced(toks: seq<string>, depth: nat): bool {
    if toks == [] then depth == 0
    else if toks[0] == "(" then Balanced(toks[1..], depth + 1)
    else if toks[0] == ")" then depth > 0 && Balanced(toks[1..], depth - 1)
    else Balanced(toks[1..], depth)
  }

  lemma {:induction false} ParseOneBalance(toks: seq<string>, depth: nat)
    requires toks != [] && (toks[0] != ")" || depth == 0)
    ensures match ParseOne(toks)
      case Ok((_, rest)) => Balanced(toks, depth) == Balanced(rest, depth)
      case Err(_) => !Balanced(toks, depth)
    decreases |toks|, 0
  {
    if toks[0] == "(" { ParseItemsBalance(toks[1..], depth); }
  }

  lemma {:induction false} ParseItemsBalance(toks: seq<string>, depth: nat)
    ensures match ParseItems(toks)
      case Ok((_, rest)) => Balanced(toks, depth + 1) == Balanced(rest, depth)
      case Err(_) => !Balanced(toks, depth + 1)
    decreases |toks|, 1
  {
    if toks != [] && toks[0] != ")" {
      ParseOneBalance(toks, depth + 1);
      if ParseOne(toks).Ok? { ParseItemsBalance(ParseOne(toks).value.1, depth); }
    }
  }

  /** Parsing succeeds exactly on the token lists whose parentheses balance. */
  lemma {:induction false} ParseIffBalanced(toks: seq<string>)
    ensures ParseForms(toks).Ok? <==> Balanced(toks, 0)
    decreases |toks|
  {
    if toks != [] {
      ParseOneBalance(toks, 0);
      if ParseOne(toks).Ok? { ParseIffBalanced(ParseOne(toks).value.1); }
    }
  }

  // ---------------------------------------------------------------------------------------
  // Printing
  // ---------------------------------------------------------------------------------------

  /** The trees that have a spelling: symbols are words that are not numbers. */
  predicate Printable(e: SExpr) {
    if e.List? then forall i :: 0 <= i < |e.items| ==> Printable(e.items[i]) else PrintableAtom(e)
  }

  predicate PrintableAtom(e: SExpr) {
    match e
    case Sym(name) => IsWord(name) && !IsInt(name) && !IsFloat(name)
    case Float(literal) => IsWord(literal) && IsFloat(literal) && !IsInt(literal)
    case _ => true
  }

  function Lexemes(e: SExpr): seq<Lexeme>
    decreases e, 0
  {
    match e
    case Sym(name) => [Word(name)]
    case Str(text) => [Quoted(text)]
    case Int(n) => [Word(PrintInt(n))]
    case Float(literal) => [Word(literal)]
    case List(items) => [Open] + LexemesAll(items) + [Close]
  }

  function LexemesAll(es: seq<SExpr>): seq<Lexeme>
    decreases es, 1
  {
    if es == [] then [] else Lexemes(es[0]) + LexemesAll(es[1..])
  }

  function TokensOf(ls: seq<Lexeme>): seq<string> {
    seq(|ls|, i requires 0 <= i < |ls| => TokenOf(ls[i]))
  }

  lemma TokensOfConcat(a: seq<Lexeme>, b: seq<Lexeme>)
    ensures TokensOf(a + b) == TokensOf(a) + TokensOf(b)
  {
  }

  lemma AtomToken(e: SExpr)
    requires Printable(e) && !e.List?
    ensures |Lexemes(e)| == 1 && ValidLexeme(Lexemes(e)[0])
    ensures TokenOf(Lexemes(e)[0]) != "(" && TokenOf(Lexemes(e)[0]) != ")"
    ensures ParseAtom(TokenOf(Lexemes(e)[0])) == e
  {
    AtomIff(TokenOf(Lexemes(e)[0]));
    if e.Int? {
      var w := PrintInt(e.n);
      PrintIntReads(e.n);
      assert w != "" && IsWord(w);
    }
  }

  lemma {:induction false} LexemesValid(e: SExpr)
    requires Printable(e)
    ensures forall l :: l in Lexemes(e) ==> ValidLexeme(l)
    decreases e, 0
  {
    if e.List? { LexemesAllValid(e.items); } else { AtomToken(e); }
  }

  lemma {:induction false} LexemesAllValid(es: seq<SExpr>)
    requires forall i :: 0 <= i < |es| ==> Printable(es[i])
    ensures forall l :: l in LexemesAll(es) ==> ValidLexeme(l)
    decreases es, 1
  {
    if es != [] {
      LexemesValid(es[0]);
      LexemesAllValid(es[1..]);
    }
  }

  /** A list's tokens: those of its items between parentheses. */
  lemma ListTokens(ls: seq<Lexeme>, more: seq<string>)
    ensures TokensOf([Open] + ls + [Close]) + more == ["("] + (TokensOf(ls) + ([")"] + more))
  {
    TokensOfConcat([Open] + ls, [Close]);
    TokensOfConcat([Open], ls);
    assert TokensOf([Open]) == ["("] && TokensOf([Close]) == [")"];
  }

  lemma ParseList(inner: seq<string>, items: seq<SExpr>, more: seq<string>)
    requires ParseItems(inner) == Ok((items, more))
    ensures ParseOne(["("] + inner) == Ok((List(items), more))
  {
    assert (["("] + inner)[1..] == inner;
  }

  lemma ParseAtomToken(tok: string, more: seq<string>)
    requires tok != "(" && tok != ")"
    ensures ParseOne([tok] + more) == Ok((ParseAtom(tok), more))
  {
    assert ([tok] + more)[1..] == more;
  }

  lemma {:induction false} ParseTokens(e: SExpr, more: seq<string>)
    requires Printable(e)
    ensures ParseOne(TokensOf(Lexemes(e)) + more) == Ok((e, more))
    decreases e, 0
  {
    if e.List? {
      ParseTokensAll(e.items, more);
      ListTokens(LexemesAll(e.items), more);
      ParseList(TokensOf(LexemesAll(e.items)) + ([")"] + more), e.items, more);
    } else {
      AtomToken(e);
      assert TokensOf(Lexemes(e)) == [TokenOf(Lexemes(e)[0])];
      ParseAtomToken(TokenOf(Lexemes(e)[0]), more);
    }
  }

  lemma {:induction false} ParseTokensAll(es: seq<SExpr>, more: seq<string>)
    requires forall i :: 0 <= i < |es| ==> Printable(es[i])
    ensures ParseItems(TokensOf(LexemesAll(es)) + ([")"] + more)) == Ok((es, more))
    decreases es, 1
  {
    var toks := TokensOf(LexemesAll(es)) + ([")"] + more);
    if es == [] {
      assert toks == [")"] + more;
    } else {
      var rest := TokensOf(LexemesAll(es[1..])) + ([")"] + more);
      FirstItemTokens(es, [")"] + more);
      ParseTokens(es[0], rest);
      ParseTokensAll(es[1..], more);
      FirstNotClose(es[0], rest);
      OneMoreItem(toks, es[0], rest, es[1..], more);
    }
  }

  lemma FirstItemTokens(es: seq<SExpr>, more: seq<string>)
    requires es != []
    ensures TokensOf(LexemesAll(es)) + more == TokensOf(Lexemes(es[0])) + (TokensOf(LexemesAll(es[1..])) + more)
    ensures es == [es[0]] + es[1..]
  {
    TokensOfConcat(Lexemes(es[0]), LexemesAll(es[1..]));
  }

  lemma OneMoreItem(toks: seq<string>, e: SExpr, rest: seq<string>, es: seq<SExpr>, more: seq<string>)
    requires toks != [] && toks[0] != ")" && ParseOne(toks) == Ok((e, rest)) && ParseItems(rest) == Ok((es, more))
    ensures ParseItems(toks) == Ok(([e] + es, more))
  {
  }

  lemma FirstNotClose(e: SExpr, more: seq<string>)
    requires Printable(e)
    ensures var toks := TokensOf(Lexemes(e)) + more; toks != [] && toks[0] != ")"
  {
    if !e.List? { AtomToken(e); }
  }

  lemma {:induction false} ParsePrinted(forms: seq<SExpr>)
    requires forall i :: 0 <= i < |forms| ==> Printable(forms[i])
    ensures ParseForms(TokensOf(LexemesAll(forms))) == Ok(forms)
    decreases |forms|
  {
    if forms != [] {
      var rest := TokensOf(LexemesAll(forms[1..]));
      TokensOfConcat(Lexemes(forms[0]), LexemesAll(forms[1..]));
      ParseTokens(forms[0], rest);
      FirstNotClose(forms[0], rest);
      ParsePrinted(forms[1..]);
      assert [forms[0]] + forms[1..] == forms;
    }
  }

  /** The text spells out these trees, token by token, with any layout in between. */
  predicate Spells(text: seq<Placed>, forms: seq<SExpr>) {
    seq(|text|, i requires 0 <= i < |text| => text[i].lexeme) == LexemesAll(forms)
  }

  /** Reading undoes printing, whatever blanks and comments the printed text is laid out with. */
  lemma ReadUndoesPrint(forms: seq<SExpr>, text: seq<Placed>, tail: Tail)
    requires forall i :: 0 <= i < |forms| ==> Printable(forms[i])
    requires Spells(text, forms) && ValidLayout(text, tail)
    ensures Read(Render(text, tail)) == Ok(forms)
  {
    LexRender(text, tail);
    assert Tokens(text) == TokensOf(LexemesAll(forms));
    ParsePrinted(forms);
  }

  /** A layout always exists: one blank before each token will do. */
  lemma PlainLayout(forms: seq<SExpr>) returns (text: seq<Placed>)
    requires forall i :: 0 <= i < |forms| ==> Printable(forms[i])
    ensures Spells(text, forms) && ValidLayout(text, Tail([], None))
  {
    var ls := LexemesAll(forms);
    LexemesAllValid(forms);
    text := seq(|ls|, i requires 0 <= i < |ls| => Placed([Blank(' ')], ls[i]));
    assert seq(|text|, i requires 0 <= i < |text| => text[i].lexeme) == ls;
  }

  // ---------------------------------------------------------------------------------------
  // Every tree that is read can be printed
  // ---------------------------------------------------------------------------------------

  ghost predicate IsToken(tok: string) {
    exists l :: ValidLexeme(l) && TokenOf(l) == tok
  }

  lemma {:induction false} WordLengthIsWord(s: string)
    ensures forall i :: 0 <= i < WordLength(s) ==> !IsDelimiter(s[i])
  {
    if s != "" && !IsDelimiter(s[0]) {
      WordLengthIsWord(s[1..]);
      forall i | 0 <= i < WordLength(s) ensures !IsDelimiter(s[i]) {
        if i > 0 { assert s[i] == s[1..][i - 1]; }
      }
    }
  }

  lemma {:induction false} LexYieldsTokens(s: string)
    requires Lex(s).Ok?
    ensures forall t :: t in Lex(s).value ==> IsToken(t)
    decreases |s|
  {
    if s == "" {
    } else if IsSpace(s[0]) {
      LexYieldsTokens(s[1..]);
    } else if s[0] == ';' {
      LexYieldsTokens(SkipComment(s[1..]));
    } else if s[0] == '(' || s[0] == ')' {
      LexYieldsTokens(s[1..]);
      assert TokenOf(if s[0] == '(' then Open else Close) == [s[0]];
    } else if s[0] == '"' {
      var (text, rest) := LexString(s[1..], "").value;
      LexYieldsTokens(rest);
      assert TokenOf(Quoted(text)) == Quote(text);
    } else {
      var n := 1 + WordLength(s[1..]);
      LexYieldsTokens(s[n..]);
      WordLengthIsWord(s[1..]);
      forall i | 0 <= i < n ensures !IsDelimiter(s[..n][i]) {
        if i > 0 { assert s[i] == s[1..][i - 1]; }
      }
      assert ValidLexeme(Word(s[..n])) && TokenOf(Word(s[..n])) == s[..n];
    }
  }

  lemma {:induction false} ParseOnePrintable(toks: seq<string>)
    requires forall t :: t in toks ==> IsToken(t)
    requires ParseOne(toks).Ok?
    ensures Printable(ParseOne(toks).value.0)
    ensures forall t :: t in ParseOne(toks).value.1 ==> t in toks
    decreases |toks|, 0
  {
    if toks[0] == "(" {
      ParseItemsPrintable(toks[1..]);
    } else {
      TokenPrintable(toks[0]);
    }
  }

  lemma TokenPrintable(tok: string)
    requires IsToken(tok) && tok != "(" && tok != ")"
    ensures Printable(ParseAtom(tok))
  {
    var l :| ValidLexeme(l) && TokenOf(l) == tok;
    AtomIff(tok);
  }

  lemma {:induction false} ParseItemsPrintable(toks: seq<string>)
    requires forall t :: t in toks ==> IsToken(t)
    requires ParseItems(toks).Ok?
    ensures forall i :: 0 <= i < |ParseItems(toks).value.0| ==> Printable(ParseItems(toks).value.0[i])
    ensures forall t :: t in ParseItems(toks).value.1 ==> t in toks
    decreases |toks|, 1
  {
    if toks[0] != ")" {
      ParseOnePrintable(toks);
      ParseItemsPrintable(ParseOne(toks).value.1);
    }
  }

  lemma {:induction false} ParseFormsPrintable(toks: seq<string>)
    requires forall t :: t in toks ==> IsToken(t)
    requires ParseForms(toks).Ok?
    ensures forall i :: 0 <= i < |ParseForms(toks).value| ==> Printable(ParseForms(toks).value[i])
    decreases |toks|
  {
    if toks != [] {
      ParseOnePrintable(toks);
      ParseFormsPrintable(ParseOne(toks).value.1);
    }
  }

  /** Whatever a text reads as can be printed, and any printing of it reads as the same again. */
  lemma ReadIsStable(src: string, text: seq<Placed>, tail: Tail)
    requires Read(src).Ok?
    requires Spells(text, Read(src).value) && ValidLayout(text, tail)
    ensures Read(Render(text, tail)) == Read(src)
  {
    LexYieldsTokens(src);
    ParseFormsPrintable(Lex(src).value);
    ReadUndoesPrint(Read(src).value, text, tail);
  }
}
