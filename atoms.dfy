/** `atom`: a token becomes an int if Python's `int()` accepts it, else a
    float if `float()` accepts it, else a Symbol (lis.py:91-99). Also the
    decimal text `str()` gives an int, which the printer uses. */
module Atoms {
  import opened Values

  predicate IsDigit(c: char) {
    '0' <= c <= '9'
  }

  function DigitOf(c: char): nat
    requires IsDigit(c)
  {
    (c as int) - ('0' as int)
  }

  function DigitChar(d: nat): (c: char)
    requires d < 10
    ensures IsDigit(c) && DigitOf(c) == d
  {
    ['0', '1', '2', '3', '4', '5', '6', '7', '8', '9'][d]
  }

  predicate IsSign(c: char) {
    c == '+' || c == '-'
  }

  /** Python's `digitpart`: digits, with single underscores allowed
      between two digits. */
  predicate IsDigitPart(s: string) {
    && |s| > 0
    && IsDigit(s[0])
    && IsDigit(s[|s| - 1])
    && (forall j :: 0 <= j < |s| ==> IsDigit(s[j]) || s[j] == '_')
    && (forall j :: 0 <= j < |s| - 1 ==> s[j] == '_' ==> s[j + 1] != '_')
  }

  /** The number written by a run of digits, underscores skipped. */
  function DigitsValue(s: string): nat {
    if s == [] then 0
    else if IsDigit(s[|s| - 1]) then 10 * DigitsValue(s[..|s| - 1]) + DigitOf(s[|s| - 1])
    else DigitsValue(s[..|s| - 1])
  }

  /** How many digits (not underscores) `s` holds. */
  function DigitCount(s: string): nat {
    if s == [] then 0 else (if IsDigit(s[0]) then 1 else 0) + DigitCount(s[1..])
  }

  /** The token without its leading sign, if any. */
  function Unsigned(t: string): string {
    if |t| > 0 && IsSign(t[0]) then t[1..] else t
  }

  function SignOf(t: string): int {
    if |t| > 0 && t[0] == '-' then -1 else 1
  }

  /** The first index of `c` in `s`, or `|s|`. */
  function IndexOf(s: string, c: char): (k: nat)
    ensures k <= |s|
    ensures forall j :: 0 <= j < k ==> s[j] != c
    ensures k < |s| ==> s[k] == c
  {
    if s == [] then 0 else if s[0] == c then 0 else 1 + IndexOf(s[1..], c)
  }

  function ExponentIndex(u: string): (k: nat)
    ensures k <= |u|
  {
    var k := IndexOf(u, 'e');
    var k' := IndexOf(u, 'E');
    if k < k' then k else k'
  }

  /** ASCII lower-casing, as Python matches "inf" and "nan". */
  function Lower(s: string): (r: string)
    ensures |r| == |s|
  {
    if s == [] then []
    else [if 'A' <= s[0] <= 'Z' then ((s[0] as int) + 32) as char else s[0]] + Lower(s[1..])
  }

  // ---------------------------------------------------------------------
  // What int() and float() accept

  /** `int(t)` succeeds: an optional sign, then a digit part. */
  predicate IsIntText(t: string) {
    IsDigitPart(Unsigned(t))
  }

  function IntValue(t: string): int
    requires IsIntText(t)
  {
    SignOf(t) * DigitsValue(Unsigned(t))
  }

  predicate IsInfOrNan(u: string) {
    var l := Lower(u);
    l == "inf" || l == "infinity" || l == "nan"
  }

  /** `[digitpart] "." digitpart | digitpart ["."]` */
  predicate IsNumberPart(m: string) {
    var d := IndexOf(m, '.');
    if d == |m| then IsDigitPart(m)
    else
      var whole, frac := m[..d], m[d + 1..];
      && (whole == [] || IsDigitPart(whole))
      && (frac == [] || IsDigitPart(frac))
      && (whole != [] || frac != [])
  }

  /** `number [("e" | "E") [sign] digitpart]` */
  predicate IsFloatNumber(u: string) {
    var k := ExponentIndex(u);
    IsNumberPart(u[..k]) && (k == |u| || IsDigitPart(Unsigned(u[k + 1..])))
  }

  /** `float(t)` succeeds. */
  predicate IsFloatText(t: string) {
    var u := Unsigned(t);
    IsInfOrNan(u) || IsFloatNumber(u)
  }

  function Pow(b: nat, e: nat): nat {
    if e == 0 then 1 else b * Pow(b, e - 1)
  }

  /** Whether `float(t)` is zero: the written value is at most half the
      smallest subnormal double, 2^-1075, and rounds to zero (ties go to
      the even neighbour, which is zero). Infinities and NaN are not zero. */
  predicate FloatIsZero(t: string) {
    var u := Unsigned(t);
    if IsInfOrNan(u) then false
    else
      var k := ExponentIndex(u);
      var m := u[..k];
      var d := IndexOf(m, '.');
      var whole := m[..d];
      var frac := if d < |m| then m[d + 1..] else [];
      var mantissa := DigitsValue(whole + frac);
      var written := if k < |u| then SignOf(u[k + 1..]) * DigitsValue(Unsigned(u[k + 1..])) else 0;
      var e := written - DigitCount(frac);
      mantissa == 0 || (e < 0 && mantissa * Pow(2, 1075) <= Pow(10, -e))
  }

  // ---------------------------------------------------------------------
  // atom and str(int)

  function Atom(token: string): Value {
    if IsIntText(token) then Int(IntValue(token))
    else if IsFloatText(token) then Float(token)
    else Sym(token)
  }

  /** `str(n)` for a non-negative int. */
  function NatText(n: nat): (s: string)
    ensures |s| > 0 && forall j :: 0 <= j < |s| ==> IsDigit(s[j])
  {
    if n < 10 then [DigitChar(n)] else NatText(n / 10) + [DigitChar(n % 10)]
  }

  /** `str(n)` for an int. */
  function IntText(n: int): string {
    if n < 0 then "-" + NatText(-n) else NatText(n)
  }

  // ---------------------------------------------------------------------
  // Properties

  lemma {:induction false} NatTextValue(n: nat)
    ensures DigitsValue(NatText(n)) == n
  {
    if n >= 10 {
      var s := NatText(n / 10) + [DigitChar(n % 10)];
      assert s[..|s| - 1] == NatText(n / 10);
      NatTextValue(n / 10);
    }
  }

  /** The printer's text of an int reads back as that int. */
  lemma AtomOfIntText(n: int)
    ensures IsIntText(IntText(n))
    ensures Atom(IntText(n)) == Int(n)
  {
    var t, d := IntText(n), if n < 0 then -n else n;
    var u := NatText(d);
    if n < 0 {
      assert t == "-" + u && t[1..] == u;
    } else {
      assert !IsSign(u[0]);
    }
    assert Unsigned(t) == u && SignOf(t) == (if n < 0 then -1 else 1);
    DigitsArePart(u);
    NatTextValue(d);
  }

  /** A non-empty run of plain digits is a digit part. */
  lemma DigitsArePart(s: string)
    requires |s| > 0 && forall j :: 0 <= j < |s| ==> IsDigit(s[j])
    ensures IsDigitPart(s)
  {
    assert forall j :: 0 <= j < |s| - 1 ==> s[j] != '_';
  }

  /** The text of an int holds neither a sign in the middle nor anything
      but digits after its optional minus. */
  lemma IntTextShape(n: int)
    ensures |IntText(n)| > 0
    ensures forall j :: 0 <= j < |IntText(n)| ==> IsDigit(IntText(n)[j]) || (j == 0 && IntText(n)[j] == '-')
  {
  }

  /** An int text is also a float text: the int case must be tried first
      for a decimal integer to come out as an int. */
  lemma IntTextIsFloatText(t: string)
    requires IsIntText(t)
    ensures IsFloatText(t)
    ensures Atom(t) == Int(IntValue(t))
  {
    var u := Unsigned(t);
    assert forall j :: 0 <= j < |u| ==> u[j] != 'e' && u[j] != 'E' && u[j] != '.';
    assert ExponentIndex(u) == |u|;
    assert u[..|u|] == u;
  }

  lemma DigitFreeIsNotNumber(u: string)
    requires forall j :: 0 <= j < |u| ==> !IsDigit(u[j])
    ensures !IsDigitPart(u) && !IsFloatNumber(u)
  {
    assert u == [] || !IsDigit(u[0]);
    var k := ExponentIndex(u);
    var m := u[..k];
    var d := IndexOf(m, '.');
    if d == |m| {
      assert m == [] || !IsDigit(m[0]);
    } else {
      var whole, frac := m[..d], m[d + 1..];
      assert whole == [] || !IsDigit(whole[0]);
      assert frac == [] || !IsDigit(frac[0]);
    }
  }

  /** A token with no digit that is not "inf", "infinity" or "nan" (in any
      case, after an optional sign) becomes a Symbol: `+`, `>=`, `car`. */
  lemma NonNumericTokenIsSymbol(t: string)
    requires forall j :: 0 <= j < |t| ==> !IsDigit(t[j])
    requires !IsInfOrNan(Unsigned(t))
    ensures Atom(t) == Sym(t)
  {
    var u := Unsigned(t);
    assert forall j :: 0 <= j < |u| ==> !IsDigit(u[j]);
    DigitFreeIsNotNumber(u);
  }

  /** The worked cases of the classifier. (Tokens are parameters so that
      the verifier does not unfold the definitions on literals.) */
  lemma AtomExamples(plus: string, ge: string, minusFive: string)
    requires plus == "+" && ge == ">=" && minusFive == "-5"
    ensures Atom(plus) == Sym(plus) && Atom(ge) == Sym(ge)
    ensures Atom(minusFive) == Int(-5)
  {
    NonNumericTokenIsSymbol(plus);
    NonNumericTokenIsSymbol(ge);
    var five := Unsigned(minusFive);
    assert five == "5" && five[..0] == [];
    assert DigitsValue(five) == 5;
  }
}
