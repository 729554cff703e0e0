/** Characters to token strings. */
module Lexer {
  import opened Basics
  import opened Wrappers

  datatype ReadError =
    | UnterminatedEscape
    | UnterminatedString
    | UnexpectedEnd
    | UnterminatedList
    | UnexpectedClose

  type Lexed = Result<seq<string>, ReadError>

  /** The characters that Python's `str.isspace` accepts. */
  predicate IsSpace(c: char) {
    var n := c as int;
    || 0x09 <= n <= 0x0d || 0x1c <= n <= 0x20 || n == 0x85 || n == 0xa0 || n == 0x1680
    || 0x2000 <= n <= 0x200a || n == 0x2028 || n == 0x2029 || n == 0x202f || n == 0x205f || n == 0x3000
  }

  const SPACES: string :=
    "\t\n\U{b}\U{c}\r\U{1c}\U{1d}\U{1e}\U{1f} \U{85}\U{a0}\U{1680}"
    + "\U{2000}\U{2001}\U{2002}\U{2003}\U{2004}\U{2005}\U{2006}\U{2007}\U{2008}\U{2009}\U{200a}"
    + "\U{2028}\U{2029}\U{202f}\U{205f}\U{3000}"

  /** They are these 29. */
  lemma SpacesAre(c: char)
    ensures IsSpace(c) <==> c in SPACES
  {
  }

  /** The characters that end a token which is neither a parenthesis nor a string. */
  predicate IsDelimiter(c: char) {
    IsSpace(c) || c == '(' || c == ')' || c == ';'
  }

  function Unescape(c: char): char {
    match c
    case 'n' => '\n'
    case 't' => '\t'
    case 'r' => '\r'
    case _ => c
  }

  /** What is left of `s` after a comment, from the line's end on. */
  function SkipComment(s: string): (rest: string)
    ensures |rest| <= |s|
  {
    if s == "" || s[0] == '\n' then s else SkipComment(s[1..])
  }

  /** Read the body of a string up to its closing quote; `acc` is the text read so far. */
  function LexString(s: string, acc: string): (r: Result<(string, string), ReadError>)
    ensures r.Ok? ==> |r.value.1| < |s|
    decreases |s|
  {
    if s == "" then Err(UnterminatedString)
    else if s[0] == '\\' then
      if |s| == 1 then Err(UnterminatedEscape) else LexString(s[2..], acc + [Unescape(s[1])])
    else if s[0] == '"' then Ok((acc, s[1..]))
    else LexString(s[1..], acc + [s[0]])
  }

  /** The length of the token at the head of `s`. */
  function WordLength(s: string): (n: nat)
    ensures n <= |s|
  {
    if s == "" || IsDelimiter(s[0]) then 0 else 1 + WordLength(s[1..])
  }

  function Prepend(toks: seq<string>, r: Lexed): Lexed {
    if r.Ok? then Ok(toks + r.value) else r
  }

  function Quote(text: string): string {
    "\"" + text + "\""
  }

  /** The tokens of a text; a string token keeps its quotes around the unescaped body. */
  function Lex(s: string): Lexed
    decreases |s|
  {
    if s == "" then Ok([])
    else if IsSpace(s[0]) then Lex(s[1..])
    else if s[0] == ';' then Lex(SkipComment(s[1..]))
    else if s[0] == '(' || s[0] == ')' then Prepend([[s[0]]], Lex(s[1..]))
    else if s[0] == '"' then
      match LexString(s[1..], "")
      case Err(e) => Err(e)
      case Ok((text, rest)) => Prepend([Quote(text)], Lex(rest))
    else
      var n := 1 + WordLength(s[1..]);
      Prepend([s[..n]], Lex(s[n..]))
  }

  // ---------------------------------------------------------------------------------------
  // The loops
  // ---------------------------------------------------------------------------------------

  method Tokenize(src: string) returns (r: Lexed)
    ensures r == Lex(src)
  {
    var i, toks := 0, [];
    PrependNothing(Lex(src));
    assert src[0..] == src;
    while i < |src|
      invariant 0 <= i <= |src|
      invariant Lex(src) == Prepend(toks, Lex(src[i..]))
    {
      var c := src[i];
      assert src[i..][0] == c && src[i..][1..] == src[i + 1..];
      if IsSpace(c) {
        i := i + 1;
      } else if c == ';' {
        i := ScanComment(src, i);
      } else if c == '(' || c == ')' {
        PrependTwice(toks, [[c]], Lex(src[i + 1..]));
        toks := toks + [[c]];
        i := i + 1;
      } else if c == '"' {
        var text, j := ScanString(src, i + 1);
        match text
        case Err(e) => return Err(e);
        case Ok(body) =>
          PrependTwice(toks, [Quote(body)], Lex(src[j..]));
          toks := toks + [Quote(body)];
          i := j;
      } else {
        var j := ScanWord(src, i);
        LexWordAt(src, i, j);
        PrependTwice(toks, [src[i..j]], Lex(src[j..]));
        toks := toks + [src[i..j]];
        i := j;
      }
    }
    r := Ok(toks);
    assert toks + [] == toks;
  }

  lemma LexWordAt(src: string, i: nat, j: nat)
    requires i < |src| && !IsDelimiter(src[i]) && src[i] != '"' && j == i + 1 + WordLength(src[i + 1..])
    ensures Lex(src[i..]) == Prepend([src[i..j]], Lex(src[j..]))
  {
    assert src[i..][0] == src[i] && src[i..][1..] == src[i + 1..];
    assert src[i..][..j - i] == src[i..j] && src[i..][j - i..] == src[j..];
  }

  lemma PrependNothing(r: Lexed)
    ensures Prepend([], r) == r
  {
    if r.Ok? { assert [] + r.value == r.value; }
  }

  lemma PrependTwice(a: seq<string>, b: seq<string>, r: Lexed)
    ensures Prepend(a + b, r) == Prepend(a, Prepend(b, r))
  {
    if r.Ok? { assert a + b + r.value == a + (b + r.value); }
  }

  method ScanComment(src: string, start: nat) returns (i: nat)
    requires start < |src| && src[start] == ';'
    ensures start < i <= |src| && src[i..] == SkipComment(src[start + 1..])
  {
    i := start + 1;
    while i < |src| && src[i] != '\n'
      invariant start < i <= |src|
      invariant SkipComment(src[start + 1..]) == SkipComment(src[i..])
    {
      i := i + 1;
    }
  }

  method ScanString(src: string, start: nat) returns (text: Result<string, ReadError>, i: nat)
    requires start <= |src|
    ensures start <= i <= |src|
    ensures match text
      case Ok(body) => start < i && LexString(src[start..], "") == Ok((body, src[i..]))
      case Err(e) => LexString(src[start..], "") == Err(e)
  {
    var buf := "";
    i := start;
    while i < |src|
      invariant start <= i <= |src|
      invariant LexString(src[start..], "") == LexString(src[i..], buf)
    {
      var ch := src[i];
      if ch == '\\' {
        i := i + 1;
        if i >= |src| {
          return Err(UnterminatedEscape), i;
        }
        assert src[i - 1..][2..] == src[i + 1..];
        buf := buf + [Unescape(src[i])];
        i := i + 1;
      } else if ch == '"' {
        i := i + 1;
        return Ok(buf), i;
      } else {
        buf := buf + [ch];
        i := i + 1;
      }
    }
    text := Err(UnterminatedString);
  }

  method ScanWord(src: string, start: nat) returns (j: nat)
    requires start < |src| && !IsDelimiter(src[start])
    ensures start < j <= |src| && j == start + 1 + WordLength(src[start + 1..])
  {
    j := start;
    while j < |src| && !IsDelimiter(src[j])
      invariant start <= j <= |src|
      invariant start + WordLength(src[start..]) == j + WordLength(src[j..])
    {
      assert src[j..][1..] == src[j + 1..];
      j := j + 1;
    }
    assert src[start..][1..] == src[start + 1..];
  }

  // ---------------------------------------------------------------------------------------
  // Spelling tokens out with anything between them
  // ---------------------------------------------------------------------------------------

  datatype Lexeme = Open | Close | Word(spelling: string) | Quoted(text: string)

  /** Something that may stand between tokens: a blank, or a comment up to its line's end. */
  datatype Filler = Blank(c: char) | Comment(remark: string)

  predicate IsWord(w: string) {
    w != "" && w[0] != '"' && forall i :: 0 <= i < |w| ==> !IsDelimiter(w[i])
  }

  predicate ValidLexeme(l: Lexeme) {
    l.Word? ==> IsWord(l.spelling)
  }

  predicate ValidFiller(f: Filler) {
    match f
    case Blank(c) => IsSpace(c)
    case Comment(remark) => '\n' !in remark
  }

  function TokenOf(l: Lexeme): string {
    match l
    case Open => "("
    case Close => ")"
    case Word(w) => w
    case Quoted(text) => Quote(text)
  }

  function EscapeChar(c: char): string {
    match c
    case '"' => "\\\""
    case '\\' => "\\\\"
    case '\n' => "\\n"
    case '\t' => "\\t"
    case '\r' => "\\r"
    case _ => [c]
  }

  function Escape(text: string): string {
    if text == "" then "" else EscapeChar(text[0]) + Escape(text[1..])
  }

  function Spell(l: Lexeme): string {
    match l
    case Open => "("
    case Close => ")"
    case Word(w) => w
    case Quoted(text) => Quote(Escape(text))
  }

  function FillOne(f: Filler): string {
    match f
    case Blank(c) => [c]
    case Comment(remark) => ";" + remark + "\n"
  }

  function Fill(gap: seq<Filler>): string {
    if gap == [] then "" else FillOne(gap[0]) + Fill(gap[1..])
  }

  /** A lexeme and what stands before it. */
  datatype Placed = Placed(gap: seq<Filler>, lexeme: Lexeme)

  /** What follows the last token: fillers, then perhaps a comment that the text's end cuts off. */
  datatype Tail = Tail(gap: seq<Filler>, remark: Option<string>)

  predicate ValidGap(gap: seq<Filler>) {
    forall f :: f in gap ==> ValidFiller(f)
  }

  /** Two tokens need something between them when the first would otherwise run into the second. */
  predicate Separated(text: seq<Placed>) {
    forall i :: 0 < i < |text| && text[i - 1].lexeme.Word? && (text[i].lexeme.Word? || text[i].lexeme.Quoted?)
      ==> text[i].gap != []
  }

  predicate ValidLayout(text: seq<Placed>, tail: Tail) {
    && (forall p :: p in text ==> ValidGap(p.gap) && ValidLexeme(p.lexeme))
    && ValidGap(tail.gap)
    && (tail.remark.Some? ==> '\n' !in tail.remark.value)
    && Separated(text)
  }

  function Render(text: seq<Placed>, tail: Tail): string {
    if text == [] then Fill(tail.gap) + (if tail.remark.Some? then ";" + tail.remark.value else "")
    else Fill(text[0].gap) + Spell(text[0].lexeme) + Render(text[1..], tail)
  }

  function Tokens(text: seq<Placed>): seq<string> {
    seq(|text|, i requires 0 <= i < |text| => TokenOf(text[i].lexeme))
  }

  lemma {:induction false} SkipRemark(remark: string, s: string)
    requires '\n' !in remark
    ensures SkipComment(remark + s) == SkipComment(s)
  {
    if remark == "" {
      assert remark + s == s;
    } else {
      assert (remark + s)[1..] == remark[1..] + s;
      SkipRemark(remark[1..], s);
    }
  }

  lemma LexComment(remark: string, s: string)
    requires '\n' !in remark
    ensures Lex([';'] + (remark + ("\n" + s))) == Lex(s)
  {
    var line := remark + ("\n" + s);
    assert ([';'] + line)[1..] == line;
    SkipRemark(remark, "\n" + s);
    assert ("\n" + s)[1..] == s;
  }

  lemma LexFiller(f: Filler, s: string)
    requires ValidFiller(f)
    ensures Lex(FillOne(f) + s) == Lex(s)
  {
    match f
    case Blank(c) => assert ([c] + s)[1..] == s;
    case Comment(remark) =>
      assert FillOne(f) + s == [';'] + (remark + ("\n" + s));
      LexComment(remark, s);
  }

  lemma {:induction false} LexGap(gap: seq<Filler>, s: string)
    requires ValidGap(gap)
    ensures Lex(Fill(gap) + s) == Lex(s)
  {
    if gap == [] {
      assert Fill(gap) + s == s;
    } else {
      LexGap(gap[1..], s);
      LexFiller(gap[0], Fill(gap[1..]) + s);
      Grouped(FillOne(gap[0]), Fill(gap[1..]), s);
    }
  }

  lemma LexEscapedChar(c: char, rest: string, acc: string)
    ensures LexString(EscapeChar(c) + rest, acc) == LexString(rest, acc + [c])
  {
  }

  lemma {:induction false} LexEscaped(text: string, s: string, acc: string)
    ensures LexString(Escape(text) + ("\"" + s), acc) == Ok((acc + text, s))
    decreases |text|
  {
    if text == "" {
      assert Escape(text) + ("\"" + s) == "\"" + s && acc + text == acc;
    } else {
      var rest := Escape(text[1..]) + ("\"" + s);
      LexEscaped(text[1..], s, acc + [text[0]]);
      Grouped(EscapeChar(text[0]), Escape(text[1..]), "\"" + s);
      assert acc + [text[0]] + text[1..] == acc + text;
      LexEscapedChar(text[0], rest, acc);
    }
  }

  lemma {:induction false} WordLengthOf(w: string, s: string)
    requires forall i :: 0 <= i < |w| ==> !IsDelimiter(w[i])
    requires s == "" || IsDelimiter(s[0])
    ensures WordLength(w + s) == |w|
  {
    if w == "" {
      assert w + s == s;
    } else {
      assert (w + s)[1..] == w[1..] + s;
      WordLengthOf(w[1..], s);
    }
  }

  lemma LexWord(w: string, s: string)
    requires IsWord(w) && (s == "" || IsDelimiter(s[0]))
    ensures Lex(w + s) == Prepend([w], Lex(s))
  {
    assert !IsDelimiter(w[0]);
    WordLengthOf(w[1..], s);
    assert (w + s)[1..] == w[1..] + s;
    SplitBack(w, s);
  }

  lemma SplitBack(w: string, s: string)
    ensures (w + s)[..|w|] == w && (w + s)[|w|..] == s
  {
  }

  lemma LexQuoted(text: string, s: string)
    ensures Lex(Quote(Escape(text)) + s) == Prepend([Quote(text)], Lex(s))
  {
    LexEscaped(text, s, "");
    assert (Quote(Escape(text)) + s)[1..] == Escape(text) + ("\"" + s);
    assert "" + text == text;
  }

  /** One token is read off the front, provided a word is followed by a delimiter. */
  lemma LexLexeme(l: Lexeme, s: string)
    requires ValidLexeme(l) && (l.Word? ==> s == "" || IsDelimiter(s[0]))
    ensures Lex(Spell(l) + s) == Prepend([TokenOf(l)], Lex(s))
  {
    match l
    case Open => assert ("(" + s)[1..] == s;
    case Close => assert (")" + s)[1..] == s;
    case Word(w) => LexWord(w, s);
    case Quoted(text) => LexQuoted(text, s);
  }

  lemma FillDelimits(gap: seq<Filler>, s: string)
    requires ValidGap(gap) && gap != []
    ensures Fill(gap) + s != "" && IsDelimiter((Fill(gap) + s)[0])
  {
    assert ValidFiller(gap[0]);
  }

  lemma AfterWord(text: seq<Placed>, tail: Tail)
    requires ValidLayout(text, tail)
    requires text != [] && (text[0].lexeme.Word? || text[0].lexeme.Quoted?) ==> text[0].gap != []
    ensures Render(text, tail) == "" || IsDelimiter(Render(text, tail)[0])
  {
    if text == [] {
      if tail.gap != [] { FillDelimits(tail.gap, if tail.remark.Some? then ";" + tail.remark.value else ""); }
    } else if text[0].gap != [] {
      FillDelimits(text[0].gap, Spell(text[0].lexeme) + Render(text[1..], tail));
      assert Render(text, tail) == Fill(text[0].gap) + (Spell(text[0].lexeme) + Render(text[1..], tail));
    }
  }

  lemma LexTail(tail: Tail)
    requires ValidLayout([], tail)
    ensures Lex(Render([], tail)) == Ok([])
  {
    var last := if tail.remark.Some? then ";" + tail.remark.value else "";
    LexGap(tail.gap, last);
    if tail.remark.Some? {
      SkipRemark(tail.remark.value, "");
      assert tail.remark.value + "" == tail.remark.value;
      assert last[1..] == tail.remark.value;
    }
  }

  lemma LexPlaced(p: Placed, rest: string)
    requires ValidGap(p.gap) && ValidLexeme(p.lexeme)
    requires p.lexeme.Word? ==> rest == "" || IsDelimiter(rest[0])
    ensures Lex(Fill(p.gap) + Spell(p.lexeme) + rest) == Prepend([TokenOf(p.lexeme)], Lex(rest))
  {
    LexLexeme(p.lexeme, rest);
    LexGap(p.gap, Spell(p.lexeme) + rest);
    Grouped(Fill(p.gap), Spell(p.lexeme), rest);
  }

  /** Reading the tokens of a rendered text gives back the tokens, whatever stands between them. */
  lemma {:induction false} LexRender(text: seq<Placed>, tail: Tail)
    requires ValidLayout(text, tail)
    ensures Lex(Render(text, tail)) == Ok(Tokens(text))
    decreases |text|
  {
    if text == [] {
      LexTail(tail);
    } else {
      LayoutRest(text, tail);
      LexRender(text[1..], tail);
      LexPlaced(text[0], Render(text[1..], tail));
      assert Tokens(text) == [TokenOf(text[0].lexeme)] + Tokens(text[1..]);
    }
  }

  lemma LayoutRest(text: seq<Placed>, tail: Tail)
    requires ValidLayout(text, tail) && text != []
    ensures ValidGap(text[0].gap) && ValidLexeme(text[0].lexeme)
    ensures ValidLayout(text[1..], tail)
    ensures text[0].lexeme.Word? ==> Render(text[1..], tail) == "" || IsDelimiter(Render(text[1..], tail)[0])
  {
    assert text[0] in text && forall p :: p in text[1..] ==> p in text;
    var rest := text[1..];
    forall i | 0 < i < |rest| && rest[i - 1].lexeme.Word? && (rest[i].lexeme.Word? || rest[i].lexeme.Quoted?)
      ensures rest[i].gap != []
    {
      assert text[i].lexeme.Word? && text[i + 1].gap != [];
    }
    if text[0].lexeme.Word? {
      assert rest != [] && (rest[0].lexeme.Word? || rest[0].lexeme.Quoted?) ==> text[1].gap != [];
      AfterWord(rest, tail);
    }
  }
}
