/** `tokenize`: pad every parenthesis with spaces, then split the text on
    runs of whitespace (lis.py:66-68). */
module Tokenizer {

  /** Python's `str.isspace`, the separators of `str.split()` without an
      argument: ASCII 9-13, 28-32, and the Unicode spaces. */
  predicate IsSpace(c: char) {
    var k := c as int;
    || 9 <= k <= 13
    || 28 <= k <= 32
    || k == 0x85 || k == 0xA0 || k == 0x1680
    || 0x2000 <= k <= 0x200A
    || k == 0x2028 || k == 0x2029 || k == 0x202F || k == 0x205F || k == 0x3000
  }

  predicate IsParen(c: char) {
    c == '(' || c == ')'
  }

  /** `s.replace(c, with)` for a one-character pattern. */
  function Replace(s: string, c: char, with: string): string {
    if s == [] then [] else (if s[0] == c then with else [s[0]]) + Replace(s[1..], c, with)
  }

  /** `chars.replace('(', ' ( ').replace(')', ' ) ')` */
  function Pad(chars: string): string {
    Replace(Replace(chars, '(', " ( "), ')', " ) ")
  }

  /** The length of the longest prefix of `s` free of whitespace. */
  function WordLength(s: string): (n: nat)
    ensures n <= |s|
    ensures forall j :: 0 <= j < n ==> !IsSpace(s[j])
    ensures n < |s| ==> IsSpace(s[n])
  {
    if s == [] || IsSpace(s[0]) then 0 else 1 + WordLength(s[1..])
  }

  /** `s.split()`: the maximal whitespace-free runs of `s`, in order. */
  function Split(s: string): seq<string>
    decreases |s|
  {
    if s == [] then []
    else if IsSpace(s[0]) then Split(s[1..])
    else
      var n := WordLength(s);
      [s[..n]] + Split(s[n..])
  }

  /** Every word `split()` returns is non-empty and free of whitespace. */
  lemma {:induction false} SplitWordsShape(s: string)
    ensures forall i :: 0 <= i < |Split(s)| ==> |Split(s)[i]| > 0
    ensures forall i, j :: 0 <= i < |Split(s)| && 0 <= j < |Split(s)[i]| ==> !IsSpace(Split(s)[i][j])
    decreases |s|
  {
    if s == [] {
    } else if IsSpace(s[0]) {
      SplitWordsShape(s[1..]);
    } else {
      var n := WordLength(s);
      SplitWordsShape(s[n..]);
      var words := Split(s);
      assert words == [s[..n]] + Split(s[n..]);
      forall i | 0 <= i < |words| ensures |words[i]| > 0 && forall j :: 0 <= j < |words[i]| ==> !IsSpace(words[i][j]) {
        if i > 0 {
          assert words[i] == Split(s[n..])[i - 1];
        }
      }
    }
  }

  function Tokenize(chars: string): seq<string> {
    Split(Pad(chars))
  }

  // ---------------------------------------------------------------------
  // Vocabulary for the properties

  function Concat(ss: seq<string>): string {
    if ss == [] then [] else ss[0] + Concat(ss[1..])
  }

  /** `s` with every whitespace character removed. */
  function NoSpace(s: string): string {
    if s == [] then [] else (if IsSpace(s[0]) then [] else [s[0]]) + NoSpace(s[1..])
  }

  /** What padding does to one character. */
  function Chunk(c: char): string {
    if c == '(' then " ( " else if c == ')' then " ) " else [c]
  }

  /** A token as lis.py's reader sees it: a lone parenthesis, or a
      non-empty run free of whitespace and of parentheses. */
  predicate WellFormedToken(t: string) {
    || t == "("
    || t == ")"
    || (|t| > 0 && forall j :: 0 <= j < |t| ==> !IsSpace(t[j]) && !IsParen(t[j]))
  }

  /** Every parenthesis has whitespace (or an end of the text) on both sides. */
  predicate Isolated(p: string) {
    forall i :: 0 <= i < |p| && IsParen(p[i]) ==>
      (i == 0 || IsSpace(p[i - 1])) && (i == |p| - 1 || IsSpace(p[i + 1]))
  }

  /** Every parenthesis has whitespace on both sides, never an end. */
  predicate Enclosed(p: string) {
    forall i :: 0 <= i < |p| && IsParen(p[i]) ==>
      0 < i < |p| - 1 && IsSpace(p[i - 1]) && IsSpace(p[i + 1])
  }

  // ---------------------------------------------------------------------
  // Padding

  lemma {:induction false} ReplaceAppend(a: string, b: string, c: char, with: string)
    ensures Replace(a + b, c, with) == Replace(a, c, with) + Replace(b, c, with)
  {
    if a == [] {
      assert a + b == b;
    } else {
      assert (a + b)[0] == a[0] && (a + b)[1..] == a[1..] + b;
      ReplaceAppend(a[1..], b, c, with);
    }
  }

  lemma PadUnfold(s: string)
    requires s != []
    ensures Pad(s) == Chunk(s[0]) + Pad(s[1..])
  {
    var first := if s[0] == '(' then " ( " else [s[0]];
    assert Replace(s, '(', " ( ") == first + Replace(s[1..], '(', " ( ");
    ReplaceAppend(first, Replace(s[1..], '(', " ( "), ')', " ) ");
  }

  lemma {:induction false} PadAppend(a: string, b: string)
    ensures Pad(a + b) == Pad(a) + Pad(b)
  {
    ReplaceAppend(a, b, '(', " ( ");
    ReplaceAppend(Replace(a, '(', " ( "), Replace(b, '(', " ( "), ')', " ) ");
  }

  /** Text without parentheses is left as it is. */
  lemma {:induction false} PadParenFree(s: string)
    requires forall j :: 0 <= j < |s| ==> !IsParen(s[j])
    ensures Pad(s) == s
  {
    if s != [] {
      PadUnfold(s);
      PadParenFree(s[1..]);
    }
  }

  lemma EnclosedAppend(a: string, b: string)
    requires Enclosed(a) && Enclosed(b)
    ensures Enclosed(a + b)
  {
    var p := a + b;
    forall i | 0 <= i < |p| && IsParen(p[i])
      ensures 0 < i < |p| - 1 && IsSpace(p[i - 1]) && IsSpace(p[i + 1])
    {
      if i < |a| {
        assert p[i] == a[i];
      } else {
        assert p[i] == b[i - |a|];
      }
    }
  }

  lemma {:induction false} PadEnclosed(s: string)
    ensures Enclosed(Pad(s))
  {
    if s != [] {
      PadUnfold(s);
      PadEnclosed(s[1..]);
      EnclosedAppend(Chunk(s[0]), Pad(s[1..]));
    }
  }

  lemma IsolatedSuffix(p: string, k: nat)
    requires Isolated(p) && k <= |p|
    ensures Isolated(p[k..])
  {
    var q := p[k..];
    forall i | 0 <= i < |q| && IsParen(q[i])
      ensures (i == 0 || IsSpace(q[i - 1])) && (i == |q| - 1 || IsSpace(q[i + 1]))
    {
      assert q[i] == p[k + i];
    }
  }

  lemma {:induction false} NoSpaceAppend(a: string, b: string)
    ensures NoSpace(a + b) == NoSpace(a) + NoSpace(b)
  {
    if a == [] {
      assert a + b == b;
    } else {
      assert (a + b)[0] == a[0] && (a + b)[1..] == a[1..] + b;
      NoSpaceAppend(a[1..], b);
    }
  }

  lemma {:induction false} NoSpaceOfWord(w: string)
    requires forall j :: 0 <= j < |w| ==> !IsSpace(w[j])
    ensures NoSpace(w) == w
  {
    if w != [] {
      NoSpaceOfWord(w[1..]);
    }
  }

  /** Padding only adds whitespace. */
  lemma {:induction false} NoSpacePad(s: string)
    ensures NoSpace(Pad(s)) == NoSpace(s)
  {
    if s != [] {
      PadUnfold(s);
      NoSpaceAppend(Chunk(s[0]), Pad(s[1..]));
      NoSpacePad(s[1..]);
      NoSpaceChunk(s[0]);
      assert s == [s[0]] + s[1..];
      NoSpaceAppend([s[0]], s[1..]);
    }
  }

  /** Padding one character only adds whitespace around it. */
  lemma NoSpaceChunk(c: char)
    ensures NoSpace(Chunk(c)) == NoSpace([c])
  {
    if IsParen(c) {
      var t := Chunk(c);
      assert t == [' '] + [c] + [' '];
      NoSpaceAppend([' '] + [c], [' ']);
      NoSpaceAppend([' '], [c]);
    }
  }

  // ---------------------------------------------------------------------
  // Splitting

  /** In text whose parentheses are isolated, each word is a lone
      parenthesis or holds none. */
  lemma {:induction false} SplitIsolated(p: string)
    requires Isolated(p)
    ensures forall i :: 0 <= i < |Split(p)| ==> WellFormedToken(Split(p)[i])
    decreases |p|
  {
    if p == [] {
    } else if IsSpace(p[0]) {
      IsolatedSuffix(p, 1);
      SplitIsolated(p[1..]);
    } else {
      var n := WordLength(p);
      var w := p[..n];
      if IsParen(p[0]) {
        assert |p| == 1 || IsSpace(p[1]);
        assert w == [p[0]];
      } else {
        forall j | 0 <= j < |w| ensures !IsParen(w[j]) {
          if j > 0 {
            assert !IsSpace(p[j - 1]);
          }
        }
      }
      assert WellFormedToken(w);
      IsolatedSuffix(p, n);
      SplitIsolated(p[n..]);
    }
  }

  lemma {:induction false} ConcatSplit(p: string)
    ensures Concat(Split(p)) == NoSpace(p)
    decreases |p|
  {
    if p == [] {
    } else if IsSpace(p[0]) {
      ConcatSplit(p[1..]);
    } else {
      var n := WordLength(p);
      var rest := Split(p[n..]);
      assert ([p[..n]] + rest)[1..] == rest;
      ConcatSplit(p[n..]);
      NoSpaceOfWord(p[..n]);
      assert p == p[..n] + p[n..];
      NoSpaceAppend(p[..n], p[n..]);
    }
  }

  lemma {:induction false} WordLengthAppend(a: string, b: string)
    requires b != [] && IsSpace(b[0])
    ensures WordLength(a + b) == WordLength(a)
  {
    if a == [] {
      assert a + b == b;
    } else {
      assert (a + b)[0] == a[0] && (a + b)[1..] == a[1..] + b;
      WordLengthAppend(a[1..], b);
    }
  }

  /** A space always ends a word: splitting distributes over it. */
  lemma {:induction false} SplitSeparated(a: string, b: string)
    ensures Split(a + [' '] + b) == Split(a) + Split(b)
    decreases |a|
  {
    var p := a + [' '] + b;
    assert IsSpace(' ');
    if a == [] {
      assert p[0] == ' ' && p[1..] == b;
      assert Split(p) == Split(b);
    } else if IsSpace(a[0]) {
      assert p[0] == a[0] && p[1..] == a[1..] + [' '] + b;
      assert Split(p) == Split(a[1..] + [' '] + b);
      SplitSeparated(a[1..], b);
    } else {
      var n := WordLength(a);
      WordLengthAppend(a, [' '] + b);
      assert p == a + ([' '] + b);
      assert p[0] == a[0];
      assert Split(p) == [p[..n]] + Split(p[n..]);
      assert p[..n] == a[..n];
      assert p[n..] == a[n..] + [' '] + b;
      SplitSeparated(a[n..], b);
      assert Split(a) == [a[..n]] + Split(a[n..]);
    }
  }

  lemma SplitWord(w: string)
    requires |w| > 0 && forall j :: 0 <= j < |w| ==> !IsSpace(w[j])
    ensures Split(w) == [w]
  {
    var n := WordLength(w);
    assert !IsSpace(w[0]);
    assert n == |w|;
    assert w[..n] == w && w[n..] == [];
  }

  /** A word followed by whitespace, or by nothing, is split off whole. */
  lemma SplitAfterWord(w: string, p: string)
    requires |w| > 0 && forall j :: 0 <= j < |w| ==> !IsSpace(w[j])
    requires p == [] || IsSpace(p[0])
    ensures Split(w + p) == [w] + Split(p)
  {
    if p == [] {
      assert w + p == w;
      SplitWord(w);
    } else {
      var q := w + p;
      WordLengthAppend(w, p);
      SplitWord(w);
      assert WordLength(w) == |w|;
      assert q[0] == w[0] && !IsSpace(q[0]);
      assert Split(q) == [q[..|w|]] + Split(q[|w|..]);
      assert q[..|w|] == w && q[|w|..] == p;
    }
  }

  /** Padding a text that starts with whitespace or a parenthesis gives a
      text that starts with whitespace. */
  lemma PadStartsWithSpace(s: string)
    requires s != [] && (IsSpace(s[0]) || IsParen(s[0]))
    ensures Pad(s) != [] && IsSpace(Pad(s)[0])
  {
    PadUnfold(s);
    assert IsSpace(' ');
    assert Chunk(s[0])[0] == if IsParen(s[0]) then ' ' else s[0];
  }

  // ---------------------------------------------------------------------
  // An independent reading of tokenize

  /** The length of the longest prefix of `s` free of whitespace and of
      parentheses. */
  function AtomLength(s: string): (n: nat)
    ensures n <= |s|
    ensures forall j :: 0 <= j < n ==> !IsSpace(s[j]) && !IsParen(s[j])
    ensures n < |s| ==> IsSpace(s[n]) || IsParen(s[n])
  {
    if s == [] || IsSpace(s[0]) || IsParen(s[0]) then 0 else 1 + AtomLength(s[1..])
  }

  /** Tokens read left to right: whitespace separates, each parenthesis
      is a token on its own, and any other run is taken as far as it goes. */
  function Scan(s: string): seq<string>
    decreases |s|
  {
    if s == [] then []
    else if IsSpace(s[0]) then Scan(s[1..])
    else if IsParen(s[0]) then [[s[0]]] + Scan(s[1..])
    else
      var n := AtomLength(s);
      [s[..n]] + Scan(s[n..])
  }

  /** `tokenize` is that scan: padding and splitting yield exactly the
      maximal runs and the lone parentheses, in order. */
  lemma {:induction false} TokenizeIsScan(s: string)
    ensures Tokenize(s) == Scan(s)
    decreases |s|
  {
    if s == [] {
      assert Pad(s) == [];
    } else if IsSpace(s[0]) {
      PadUnfold(s);
      var rest := Pad(s[1..]);
      assert Pad(s) == [s[0]] + rest;
      assert (Pad(s))[1..] == rest;
      assert Split(Pad(s)) == Split(rest);
      TokenizeIsScan(s[1..]);
    } else if IsParen(s[0]) {
      var c := [s[0]];
      var rest := Pad(s[1..]);
      PadUnfold(s);
      assert Pad(s) == [] + [' '] + (c + [' '] + rest);
      SplitSeparated([], c + [' '] + rest);
      SplitSeparated(c, rest);
      SplitWord(c);
      TokenizeIsScan(s[1..]);
    } else {
      var n := AtomLength(s);
      var w, rest := s[..n], s[n..];
      assert s == w + rest;
      PadAppend(w, rest);
      PadParenFree(w);
      if rest != [] {
        PadStartsWithSpace(rest);
      } else {
        assert Pad(rest) == [];
      }
      SplitAfterWord(w, Pad(rest));
      TokenizeIsScan(rest);
    }
  }

  // ---------------------------------------------------------------------
  // The properties of tokenize

  /** Every token is "(", ")" or a non-empty run free of whitespace and of
      parentheses. */
  lemma TokensWellFormed(chars: string)
    ensures forall i :: 0 <= i < |Tokenize(chars)| ==> WellFormedToken(Tokenize(chars)[i])
  {
    PadEnclosed(chars);
    SplitIsolated(Pad(chars));
  }

  /** Gluing the tokens back together gives the input without whitespace. */
  lemma TokensConcat(chars: string)
    ensures Concat(Tokenize(chars)) == NoSpace(chars)
  {
    ConcatSplit(Pad(chars));
    NoSpacePad(chars);
  }

  /** `tokenize("(+ 1 2)")` is the five tokens of the expression. (The
      texts are parameters so that the verifier does not unfold the
      definitions on literals.) */
  lemma TokenizeExample(chars: string, toks: seq<string>)
    requires chars == "(+ 1 2)" && toks == ["(", "+", "1", "2", ")"]
    ensures Tokenize(chars) == toks
  {
    PadExample(chars, "(", "+ 1 2", ")");
    SpaceJoinedExample(toks);
    SplitSeparated("", SpaceJoined(toks));
    SplitSpaceJoined(toks);
  }

  lemma PadExample(chars: string, a: string, b: string, c: string)
    requires chars == "(+ 1 2)" && a == "(" && b == "+ 1 2" && c == ")"
    ensures Pad(chars) == " ( + 1 2 ) "
  {
    assert chars == a + (b + c);
    PadAppend(a, b + c);
    PadAppend(b, c);
    PadParenFree(b);
    PadUnfold(a);
    PadUnfold(c);
    assert a[1..] == [] && c[1..] == [];
    assert Pad(chars) == Pad(a) + (Pad(b) + Pad(c));
  }

  lemma SpaceJoinedExample(toks: seq<string>)
    requires toks == ["(", "+", "1", "2", ")"]
    ensures " ( + 1 2 ) " == "" + " " + SpaceJoined(toks)
  {
    assert SpaceJoined(toks[4..]) == ") " by { assert toks[4..][1..] == []; }
    assert SpaceJoined(toks[3..]) == "2 ) " by { assert toks[3..][1..] == toks[4..]; }
    assert SpaceJoined(toks[2..]) == "1 2 ) " by { assert toks[2..][1..] == toks[3..]; }
    assert SpaceJoined(toks[1..]) == "+ 1 2 ) " by { assert toks[1..][1..] == toks[2..]; }
  }

  /** Each word followed by one space. */
  function SpaceJoined(ws: seq<string>): string {
    if ws == [] then [] else ws[0] + " " + SpaceJoined(ws[1..])
  }

  lemma {:induction false} SplitSpaceJoined(ws: seq<string>)
    requires forall i :: 0 <= i < |ws| ==> |ws[i]| > 0
    requires forall i, j :: 0 <= i < |ws| && 0 <= j < |ws[i]| ==> !IsSpace(ws[i][j])
    ensures Split(SpaceJoined(ws)) == ws
  {
    if ws != [] {
      SplitSeparated(ws[0], SpaceJoined(ws[1..]));
      SplitWord(ws[0]);
      SplitSpaceJoined(ws[1..]);
    }
  }
}
