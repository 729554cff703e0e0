/** The spellings of numbers that Python's `int` and `float` accept, over ASCII digits. */
module Numerals {

  predicate IsDigit(c: char) {
    '0' <= c <= '9'
  }

  /** Digits with single underscores between them. */
  predicate IsDigits(s: string) {
    && s != "" && IsDigit(s[0])
    && (|s| == 1 || IsDigits(s[1..]) || (s[1] == '_' && |s| > 2 && IsDigits(s[2..])))
  }

  function DigitsValue(s: string, acc: nat): nat {
    if s == "" then acc
    else if IsDigit(s[0]) then DigitsValue(s[1..], 10 * acc + (s[0] as nat - '0' as nat))
    else DigitsValue(s[1..], acc)
  }

  function Unsigned(s: string): string {
    if s != "" && (s[0] == '+' || s[0] == '-') then s[1..] else s
  }

  predicate IsInt(s: string) {
    IsDigits(Unsigned(s))
  }

  function IntValue(s: string): int {
    var magnitude: int := DigitsValue(Unsigned(s), 0);
    if s != "" && s[0] == '-' then -magnitude else magnitude
  }

  /** The position of the first character of `s` that is in `cs`, or the length of `s`. */
  function FirstOf(s: string, cs: string): (n: nat)
    ensures n <= |s|
    ensures n < |s| ==> s[n] in cs
    ensures forall i :: 0 <= i < n ==> s[i] !in cs
  {
    if s == "" || s[0] in cs then 0 else 1 + FirstOf(s[1..], cs)
  }

  predicate IsMantissa(s: string) {
    var dot := FirstOf(s, ".");
    if dot == |s| then IsDigits(s)
    else
      var whole, fraction := s[..dot], s[dot + 1..];
      && (whole == "" || IsDigits(whole))
      && (fraction == "" || IsDigits(fraction))
      && (whole != "" || fraction != "")
  }

  predicate IsUnsignedFloat(s: string) {
    var e := FirstOf(s, "eE");
    IsMantissa(s[..e]) && (e < |s| ==> IsDigits(Unsigned(s[e + 1..])))
  }

  predicate IsFloat(s: string) {
    IsUnsignedFloat(Unsigned(s))
  }

  // ---------------------------------------------------------------------------------------
  // Printing integers
  // ---------------------------------------------------------------------------------------

  function Digit(d: nat): char
    requires d < 10
  {
    ('0' as nat + d) as char
  }

  function Decimal(n: nat): string {
    if n < 10 then [Digit(n)] else Decimal(n / 10) + [Digit(n % 10)]
  }

  function PrintInt(n: int): string {
    if n < 0 then "-" + Decimal(-n) else Decimal(n)
  }

  predicate AllDigits(s: string) {
    s != "" && forall i :: 0 <= i < |s| ==> IsDigit(s[i])
  }

  lemma {:induction false} DecimalDigits(n: nat)
    ensures AllDigits(Decimal(n))
  {
    if n >= 10 { DecimalDigits(n / 10); }
  }

  lemma {:induction false} AllDigitsAreDigits(s: string)
    requires AllDigits(s)
    ensures IsDigits(s)
  {
    if |s| > 1 { AllDigitsAreDigits(s[1..]); }
  }

  lemma {:induction false} DigitsValueAppend(s: string, c: char, acc: nat)
    requires IsDigit(c)
    ensures DigitsValue(s + [c], acc) == 10 * DigitsValue(s, acc) + (c as nat - '0' as nat)
    decreases |s|
  {
    if s == "" {
      assert s + [c] == [c] && [c][1..] == "";
    } else {
      assert (s + [c])[1..] == s[1..] + [c];
      DigitsValueAppend(s[1..], c, if IsDigit(s[0]) then 10 * acc + (s[0] as nat - '0' as nat) else acc);
    }
  }

  lemma {:induction false} DecimalValue(n: nat)
    ensures DigitsValue(Decimal(n), 0) == n
  {
    if n >= 10 {
      DecimalValue(n / 10);
      DigitsValueAppend(Decimal(n / 10), Digit(n % 10), 0);
    }
  }

  /** Printed integers read back, and consist of digits after an optional sign. */
  lemma PrintIntReads(n: int)
    ensures IsInt(PrintInt(n)) && IntValue(PrintInt(n)) == n && (PrintInt(n)[0] == '-' <==> n < 0)
    ensures forall i :: 0 <= i < |PrintInt(n)| ==> IsDigit(PrintInt(n)[i]) || PrintInt(n)[i] == '-'
  {
    var m: nat := if n < 0 then -n else n;
    DecimalDigits(m);
    AllDigitsAreDigits(Decimal(m));
    DecimalValue(m);
    assert Unsigned(PrintInt(n)) == Decimal(m) by { assert IsDigit(Decimal(m)[0]); }
  }

  // ---------------------------------------------------------------------------------------
  // Which texts are numbers
  // ---------------------------------------------------------------------------------------

  predicate IsSign(s: string) {
    s == "" || s == "+" || s == "-"
  }

  /** Each character is a digit, or an underscore between two digits. */
  predicate Spaced(s: string) {
    s != "" && forall i :: 0 <= i < |s| ==> SpacedAt(s, i)
  }

  predicate SpacedAt(s: string, i: nat)
    requires i < |s|
  {
    IsDigit(s[i]) || (s[i] == '_' && 0 < i < |s| - 1 && IsDigit(s[i - 1]) && IsDigit(s[i + 1]))
  }

  lemma {:induction false} IsDigitsIff(s: string)
    ensures IsDigits(s) <==> Spaced(s)
    decreases |s|
  {
    if s != "" { assert SpacedAt(s, 0) <==> IsDigit(s[0]); }
    if |s| > 1 {
      IsDigitsIff(s[1..]);
      SpacedFrom(s, 1);
      assert SpacedAt(s, 1) ==> IsDigit(s[1]) || |s| > 2;
      if |s| > 2 {
        IsDigitsIff(s[2..]);
        SpacedFrom(s, 2);
      }
    }
  }

  /** What is behind a digit, or starts with one, is spaced by itself. */
  lemma SpacedFrom(s: string, n: nat)
    requires 0 < n < |s|
    ensures Spaced(s[n..]) <==> IsDigit(s[n]) && forall i :: n <= i < |s| ==> SpacedAt(s, i)
  {
    var rest := s[n..];
    assert SpacedAt(rest, 0) <==> IsDigit(s[n]);
    forall i | n <= i < |s| && IsDigit(s[n]) ensures SpacedAt(rest, i - n) <==> SpacedAt(s, i) {
      assert rest[i - n] == s[i];
      if n < i { assert rest[i - n - 1] == s[i - 1]; }
      if i + 1 < |s| { assert rest[i - n + 1] == s[i + 1]; }
    }
    if IsDigit(s[n]) && forall i :: n <= i < |s| ==> SpacedAt(s, i) {
      forall j | 0 <= j < |rest| ensures SpacedAt(rest, j) { assert SpacedAt(s, n + j); }
    }
  }

  ghost predicate SignedDigits(s: string, sign: string, ds: string) {
    s == sign + ds && IsSign(sign) && IsDigits(ds)
  }

  function Signed(sign: string, n: int): int {
    if sign == "-" then -n else n
  }

  /** Integers are digits behind an optional sign. */
  lemma IntIff(s: string, n: int)
    ensures IsInt(s) && IntValue(s) == n <==>
      exists sign, ds :: SignedDigits(s, sign, ds) && n == Signed(sign, DigitsValue(ds, 0))
  {
    if IsInt(s) {
      var ds := Unsigned(s);
      assert SignedDigits(s, s[..|s| - |ds|], ds);
    }
    if sign, ds :| SignedDigits(s, sign, ds) && n == Signed(sign, DigitsValue(ds, 0)) {
      UnsignedOf(sign, ds);
    }
  }

  lemma UnsignedOf(sign: string, ds: string)
    requires IsSign(sign) && ds != "" && ds[0] != '+' && ds[0] != '-'
    ensures Unsigned(sign + ds) == ds
  {
  }

  function Zeros(k: nat): string {
    if k == 0 then "" else "0" + Zeros(k - 1)
  }

  /** The text without its underscores. */
  function Bare(s: string): string {
    if s == "" then "" else (if s[0] == '_' then "" else [s[0]]) + Bare(s[1..])
  }

  predicate DigitsOrBars(s: string) {
    forall i :: 0 <= i < |s| ==> IsDigit(s[i]) || s[i] == '_'
  }

  lemma {:induction false} BareDigits(s: string, acc: nat)
    requires DigitsOrBars(s)
    ensures forall i :: 0 <= i < |Bare(s)| ==> IsDigit(Bare(s)[i])
    ensures DigitsValue(Bare(s), acc) == DigitsValue(s, acc)
    ensures s != "" && s[0] != '_' ==> Bare(s) != ""
    decreases |s|
  {
    if s != "" {
      if s[0] == '_' {
        assert "" + Bare(s[1..]) == Bare(s[1..]);
        BareDigits(s[1..], acc);
      } else {
        assert Bare(s)[1..] == Bare(s[1..]);
        BareDigits(s[1..], 10 * acc + (s[0] as nat - '0' as nat));
      }
    }
  }

  lemma {:induction false} ZerosValue(k: nat, s: string)
    ensures DigitsValue(Zeros(k) + s, 0) == DigitsValue(s, 0)
  {
    if k == 0 {
      assert "" + s == s;
    } else {
      assert (Zeros(k) + s)[1..] == Zeros(k - 1) + s;
      ZerosValue(k - 1, s);
    }
  }

  lemma {:induction false} ZerosFirst(s: string) returns (k: nat)
    requires AllDigits(s)
    ensures s == Zeros(k) + Decimal(DigitsValue(s, 0))
    decreases |s|
  {
    var n := |s| - 1;
    var t, c := s[..n], s[n];
    assert s == t + [c];
    DigitsValueAppend(t, c, 0);
    k := 0;
    if t != "" {
      k := ZerosFirst(t);
      if DigitsValue(t, 0) == 0 {
        ZerosMore(k);
        k := k + 1;
      }
    }
  }

  lemma {:induction false} ZerosMore(k: nat)
    ensures Zeros(k + 1) == Zeros(k) + "0"
  {
    if k > 0 { ZerosMore(k - 1); }
  }

  /** Digits are worth `n` exactly if, but for underscores and leading zeros, they are how `n` is printed. */
  lemma DigitsValueIff(ds: string, n: nat)
    requires IsDigits(ds)
    ensures DigitsValue(ds, 0) == n <==> exists k :: Bare(ds) == Zeros(k) + Decimal(n)
  {
    IsDigitsIff(ds);
    assert SpacedAt(ds, 0);
    forall i | 0 <= i < |ds| ensures IsDigit(ds[i]) || ds[i] == '_' { assert SpacedAt(ds, i); }
    BareDigits(ds, 0);
    var k := ZerosFirst(Bare(ds));
    if k' :| Bare(ds) == Zeros(k') + Decimal(n) {
      ZerosValue(k', Decimal(n));
      DecimalValue(n);
    }
  }

  ghost predicate IsFraction(m: string, whole: string, fraction: string) {
    && m == whole + "." + fraction && (whole != "" || fraction != "")
    && (whole == "" || IsDigits(whole)) && (fraction == "" || IsDigits(fraction))
  }

  ghost predicate IsExponent(x: string, mark: string, sign: string, ds: string) {
    x == mark + sign + ds && (mark == "e" || mark == "E") && IsSign(sign) && IsDigits(ds)
  }

  /** Digits, perhaps with a point in front, behind or between. */
  ghost predicate IsDecimal(m: string) {
    IsDigits(m) || exists whole, fraction :: IsFraction(m, whole, fraction)
  }

  ghost predicate HasExponent(x: string) {
    exists mark, sign, ds :: IsExponent(x, mark, sign, ds)
  }

  lemma MantissaIff(m: string)
    ensures IsMantissa(m) <==> IsDecimal(m)
  {
    var dot := FirstOf(m, ".");
    if IsMantissa(m) && dot < |m| {
      assert m == m[..dot] + "." + m[dot + 1..] && IsFraction(m, m[..dot], m[dot + 1..]);
    }
    if IsDigits(m) { NoneOf(m, "."); }
    if whole, fraction :| IsFraction(m, whole, fraction) { FractionIsMantissa(m, whole, fraction); }
  }

  lemma FractionIsMantissa(m: string, whole: string, fraction: string)
    requires IsFraction(m, whole, fraction)
    ensures IsMantissa(m)
  {
    NoneOf(whole, ".");
    FirstOfPart(whole, fraction, '.', ".");
    var dot := FirstOf(m, ".");
    assert dot == |whole| && m[..dot] == whole && m[dot + 1..] == fraction;
  }

  lemma NoneOf(ds: string, cs: string)
    requires (ds == "" || IsDigits(ds)) && forall c :: c in cs ==> !IsDigit(c) && c != '_'
    ensures forall i :: 0 <= i < |ds| ==> ds[i] !in cs
  {
    IsDigitsIff(ds);
    forall i | 0 <= i < |ds| ensures ds[i] !in cs { assert SpacedAt(ds, i); }
  }

  lemma {:induction false} FirstOfPart(a: string, b: string, c: char, cs: string)
    requires c in cs && forall i :: 0 <= i < |a| ==> a[i] !in cs
    ensures FirstOf(a + [c] + b, cs) == |a|
  {
    var s := a + [c] + b;
    assert s[|a|] == c;
    assert forall i :: 0 <= i < |a| ==> s[i] == a[i];
  }

  ghost predicate IsFloatOf(s: string, sign: string, m: string, x: string) {
    s == sign + (m + x) && IsSign(sign) && IsDecimal(m) && (x == "" || HasExponent(x))
  }

  /** Floating point numbers have an optional sign, digits perhaps with a point, and an optional exponent. */
  lemma FloatIff(s: string)
    ensures IsFloat(s) <==> exists sign, m, x :: IsFloatOf(s, sign, m, x)
  {
    if IsFloat(s) {
      var sign := SignOf(s);
      var m, x := FloatParts(Unsigned(s));
      assert IsFloatOf(s, sign, m, x);
    }
    if sign, m, x :| IsFloatOf(s, sign, m, x) {
      PartsFloat(m, x);
      UnsignedOf(sign, m + x);
    }
  }

  lemma FloatParts(s: string) returns (m: string, x: string)
    requires IsUnsignedFloat(s)
    ensures s == m + x && IsDecimal(m) && (x == "" || HasExponent(x))
  {
    var e := FirstOf(s, "eE");
    m, x := s[..e], s[e..];
    MantissaIff(m);
    if x != "" {
      assert x[1..] == s[e + 1..];
      ExponentOf(x);
    }
  }

  lemma SignOf(s: string) returns (sign: string)
    ensures s == sign + Unsigned(s) && IsSign(sign)
  {
    sign := s[..|s| - |Unsigned(s)|];
  }

  lemma Led(x: string, a: string, b: string)
    requires x != "" && x[1..] == a + b
    ensures x == [x[0]] + a + b
  {
    assert x == [x[0]] + x[1..];
  }

  lemma ExponentOf(x: string)
    requires x != "" && (x[0] == 'e' || x[0] == 'E') && IsDigits(Unsigned(x[1..]))
    ensures HasExponent(x)
  {
    var sign := SignOf(x[1..]);
    var ds := Unsigned(x[1..]);
    Led(x, sign, ds);
    assert IsExponent(x, [x[0]], sign, ds);
  }

  lemma PartsFloat(m: string, x: string)
    requires IsDecimal(m) && (x == "" || HasExponent(x))
    ensures IsUnsignedFloat(m + x) && m + x != "" && (m + x)[0] == m[0] != '+' && m[0] != '-'
  {
    MantissaIff(m);
    NoMark(m);
    if x == "" {
      assert m + x == m;
      assert FirstOf(m, "eE") == |m| && m[..|m|] == m;
    } else {
      ExponentParts(m, x);
    }
  }

  lemma ExponentParts(m: string, x: string)
    requires HasExponent(x)
    requires forall i :: 0 <= i < |m| ==> m[i] !in "eE"
    ensures |x| > 1 && IsDigits(Unsigned(x[1..]))
    ensures FirstOf(m + x, "eE") == |m| && (m + x)[..|m|] == m && (m + x)[|m| + 1..] == x[1..]
  {
    var mark, sign, ds :| IsExponent(x, mark, sign, ds);
    IsExponentParts(x, mark, sign, ds);
    FirstOfPart(m, x[1..], x[0], "eE");
    Behind(m, x);
  }

  lemma IsExponentParts(x: string, mark: string, sign: string, ds: string)
    requires IsExponent(x, mark, sign, ds)
    ensures |x| > 1 && x[0] in "eE" && Unsigned(x[1..]) == ds
  {
    UnsignedOf(sign, ds);
    assert x[1..] == sign + ds;
  }

  lemma Behind(m: string, x: string)
    requires x != ""
    ensures m + [x[0]] + x[1..] == m + x
    ensures (m + x)[..|m|] == m && (m + x)[|m| + 1..] == x[1..]
  {
  }

  lemma NoMark(m: string)
    requires IsMantissa(m)
    ensures m != "" && m[0] != '+' && m[0] != '-' && forall i :: 0 <= i < |m| ==> m[i] !in "eE"
  {
    MantissaIff(m);
    if IsDigits(m) {
      NoneOf(m, "eE");
    } else {
      var whole, fraction :| IsFraction(m, whole, fraction);
      NoneOf(whole, "eE");
      NoneOf(fraction, "eE");
    }
  }

  /** Numbers are not quoted, integers have neither a point nor the letter e, and other numbers have one of them. */
  lemma NumberShapes(s: string)
    ensures IsInt(s) || IsFloat(s) ==> s != "" && s[0] != '"'
    ensures IsInt(s) ==> '.' !in s && 'e' !in s && 'E' !in s
    ensures IsFloat(s) && !IsInt(s) ==> '.' in s || 'e' in s || 'E' in s
  {
    var body := Unsigned(s);
    assert forall c :: c in s <==> c in body || (body != s && c == s[0]);
    if IsInt(s) { NoneOf(body, ".eE"); }
    if IsFloat(s) {
      NoMark(body[..FirstOf(body, "eE")]);
      assert FirstOf(body, "eE") == |body| ==> body[..|body|] == body;
    }
  }
}
