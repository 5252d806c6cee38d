/** `schemestr` (lis.py:154-161): a list prints as its elements' texts
    joined by single spaces inside parentheses, anything else as Python's
    `str`. The round trip with `parse` is proved for the values the reader
    itself produces from ints and symbols. */
module Printer {
  import opened Values
  import opened Atoms
  import opened Tokenizer
  import opened Reader

  /** The text of a procedure; Python prints an address here, which the
      model does not have. */
  const ProcedureText := "<procedure>"

  function Show(v: Value): string
    decreases v, 1
  {
    match v
    case Int(n) => IntText(n)
    case Bool(b) => if b then "True" else "False"
    case Float(t) => t
    case Sym(s) => s
    case List(es) => "(" + ShowJoined(es) + ")"
    case NoValue => "None"
    case Prim(_) => ProcedureText
    case Closure(_, _, _, _) => ProcedureText
  }

  /** `' '.join(map(schemestr, es))` */
  function ShowJoined(es: seq<Value>): string
    decreases es, 0
  {
    if es == [] then ""
    else if |es| == 1 then Show(es[0])
    else Show(es[0]) + " " + ShowJoined(es[1..])
  }

  // ---------------------------------------------------------------------
  // The round trip

  /** A symbol the reader can produce and read back unchanged. */
  predicate PlainSymbol(s: string) {
    && |s| > 0
    && (forall j :: 0 <= j < |s| ==> !IsSpace(s[j]) && !IsParen(s[j]))
    && Atom(s) == Sym(s)
  }

  /** Ints, plain symbols and lists of them: the values `parse` builds
      from int and symbol tokens. */
  predicate Plain(v: Value)
    decreases v
  {
    match v
    case Int(_) => true
    case Sym(s) => PlainSymbol(s)
    case List(es) => forall i :: 0 <= i < |es| ==> Plain(es[i])
    case _ => false
  }

  /** The tokens of a plain value. */
  function Toks(v: Value): seq<string>
    decreases v, 1
  {
    match v
    case Int(n) => [IntText(n)]
    case Sym(s) => [s]
    case List(es) => ["("] + ToksJoined(es) + [")"]
    case _ => []
  }

  function ToksJoined(es: seq<Value>): seq<string>
    decreases es, 0
  {
    if es == [] then [] else Toks(es[0]) + ToksJoined(es[1..])
  }

  lemma IntTextPlain(n: int)
    ensures |IntText(n)| > 0
    ensures forall j :: 0 <= j < |IntText(n)| ==> !IsSpace(IntText(n)[j]) && !IsParen(IntText(n)[j])
    ensures IntText(n) != "(" && IntText(n) != ")"
  {
    IntTextShape(n);
  }

  /** A word free of whitespace and parentheses tokenizes to itself. */
  lemma WordTokens(w: string)
    requires |w| > 0 && forall j :: 0 <= j < |w| ==> !IsSpace(w[j]) && !IsParen(w[j])
    ensures Split(Pad(w)) == [w]
  {
    PadParenFree(w);
    SplitWord(w);
  }

  /** Printing then tokenizing gives the tokens of the value. */
  lemma {:induction false} TokenizeShow(v: Value)
    requires Plain(v)
    ensures Tokenize(Show(v)) == Toks(v)
    decreases v, 1
  {
    match v
    case Int(n) =>
      IntTextPlain(n);
      WordTokens(IntText(n));
    case Sym(s) =>
      WordTokens(s);
    case List(es) =>
      TokenizeShowJoined(es);
      TokenizeBracketed(ShowJoined(es), "(", ")");
  }

  /** A text in parentheses tokenizes to `(`, the text's tokens and `)`. */
  lemma TokenizeBracketed(inner: string, o: string, c: string)
    requires o == "(" && c == ")"
    ensures Split(Pad(o + inner + c)) == [o] + Split(Pad(inner)) + [c]
  {
    PadBracketed(inner, o, c);
    SplitBracketed(Pad(inner), o, c);
  }

  lemma PadBracketed(inner: string, o: string, c: string)
    requires o == "(" && c == ")"
    ensures Pad(o + inner + c) == [' '] + o + [' '] + Pad(inner) + [' '] + c + [' ']
  {
    PadAppend(o + inner, c);
    PadAppend(o, inner);
    PadUnfold(o);
    PadUnfold(c);
    assert o[1..] == [] && c[1..] == [];
    assert Pad(o) == [' '] + o + [' '] && Pad(c) == [' '] + c + [' '];
  }

  lemma SplitBracketed(p: string, o: string, c: string)
    requires o == "(" && c == ")"
    ensures Split([' '] + o + [' '] + p + [' '] + c + [' ']) == [o] + Split(p) + [c]
  {
    var x := o + [' '] + (p + [' '] + (c + [' '] + []));
    assert [' '] + o + [' '] + p + [' '] + c + [' '] == [] + [' '] + x;
    SplitNested(p, o, c);
  }

  lemma SplitNested(p: string, o: string, c: string)
    requires o == "(" && c == ")"
    ensures Split([] + [' '] + (o + [' '] + (p + [' '] + (c + [' '] + [])))) == [o] + Split(p) + [c]
  {
    var last := c + [' '] + [];
    var mid := p + [' '] + last;
    SplitLead(c, []);
    assert Split(last) == [c];
    SplitSeparated(p, last);
    assert Split(mid) == Split(p) + [c];
    SplitLead(o, mid);
    assert Split(o + [' '] + mid) == [o] + Split(p) + [c];
    SplitSeparated([], o + [' '] + mid);
  }

  /** A word followed by a space splits off as the first word. */
  lemma SplitLead(w: string, b: string)
    requires |w| > 0 && forall j :: 0 <= j < |w| ==> !IsSpace(w[j])
    ensures Split(w + [' '] + b) == [w] + Split(b)
  {
    SplitSeparated(w, b);
    SplitWord(w);
  }

  lemma {:induction false} TokenizeShowJoined(es: seq<Value>)
    requires forall i :: 0 <= i < |es| ==> Plain(es[i])
    ensures Split(Pad(ShowJoined(es))) == ToksJoined(es)
    decreases es, 0
  {
    if es == [] {
    } else if |es| == 1 {
      TokenizeShow(es[0]);
      assert es[1..] == [];
    } else {
      TokenizeShow(es[0]);
      TokenizeShowJoined(es[1..]);
      var a, b := Show(es[0]), ShowJoined(es[1..]);
      PadAppend(a + " ", b);
      PadAppend(a, " ");
      PadParenFree(" ");
      SplitSeparated(Pad(a), Pad(b));
    }
  }

  lemma PlainFirstToken(v: Value)
    requires Plain(v)
    ensures |Toks(v)| > 0 && Toks(v)[0] != ")"
  {
    if v.Int? {
      IntTextPlain(v.n);
    } else if v.Sym? {
      assert v.name[0] != ')';
    }
  }

  /** Reading the tokens of a plain value gives the value back and leaves
      whatever followed them. */
  lemma {:induction false} ReadToks(v: Value, rest: seq<string>)
    requires Plain(v)
    ensures ReadExpr(Toks(v) + rest) == Ok((v, rest))
    decreases v, 1
  {
    match v
    case Int(n) =>
      IntTextPlain(n);
      AtomOfIntText(n);
      assert (Toks(v) + rest)[1..] == rest;
    case Sym(s) =>
      assert s[0] != '(' && s[0] != ')';
      assert (Toks(v) + rest)[1..] == rest;
    case List(es) =>
      var t := Toks(v) + rest;
      assert t[0] == "(";
      assert t[1..] == ToksJoined(es) + ([")"] + rest);
      ReadToksJoined(es, [], rest);
      assert [] + es == es;
  }

  lemma {:induction false} ReadToksJoined(es: seq<Value>, items: seq<Value>, rest: seq<string>)
    requires forall i :: 0 <= i < |es| ==> Plain(es[i])
    ensures ReadList(ToksJoined(es) + ([")"] + rest), items) == Ok((List(items + es), rest))
    decreases es, 0
  {
    if es == [] {
      assert ToksJoined(es) + ([")"] + rest) == [")"] + rest;
      ReadClose(items, rest);
      assert items + es == items;
    } else {
      var tail := ToksJoined(es[1..]) + ([")"] + rest);
      JoinedCons(es, [")"] + rest);
      assert Plain(es[0]);
      forall i | 0 <= i < |es[1..]| ensures Plain(es[1..][i]) {
        assert es[1..][i] == es[i + 1];
      }
      ReadOneElement(es[0], items, tail);
      ReadToksJoined(es[1..], items + [es[0]], rest);
      assert items + [es[0]] + es[1..] == items + es;
    }
  }

  lemma JoinedCons(es: seq<Value>, close: seq<string>)
    requires es != []
    ensures ToksJoined(es) + close == Toks(es[0]) + (ToksJoined(es[1..]) + close)
  {
  }

  /** A `)` ends the list being read. */
  lemma ReadClose(items: seq<Value>, rest: seq<string>)
    ensures ReadList([")"] + rest, items) == Ok((List(items), rest))
  {
    assert ([")"] + rest)[1..] == rest;
  }

  /** Inside a list, the tokens of one plain element are read as that
      element. */
  lemma ReadOneElement(e: Value, items: seq<Value>, tail: seq<string>)
    requires Plain(e)
    ensures ReadList(Toks(e) + tail, items) == ReadList(tail, items + [e])
    decreases e, 2
  {
    PlainFirstToken(e);
    ReadToks(e, tail);
    ReadListStep(Toks(e) + tail, items, e, tail);
  }

  /** `parse(schemestr(v)) == v` for every plain value. */
  lemma ParseShow(v: Value)
    requires Plain(v)
    ensures Parse(Show(v)) == Ok(v)
  {
    TokenizeShow(v);
    ReadToks(v, []);
    assert Toks(v) + [] == Toks(v);
  }

  /** Tokenizing a text followed by `)`. */
  lemma TokenizeThenClose(s: string)
    ensures Tokenize(s + ")") == Tokenize(s) + [")"]
  {
    ThenClose(s, ")");
  }

  lemma ThenClose(s: string, c: string)
    requires c == ")"
    ensures Split(Pad(s + c)) == Split(Pad(s)) + [c]
  {
    PadAppend(s, c);
    PadUnfold(c);
    assert c[1..] == [];
    var tail := c + [' '];
    assert Pad(c) == [' '] + tail;
    assert Pad(s + c) == Pad(s) + [' '] + tail;
    SplitSeparated(Pad(s), tail);
    assert tail == c + [' '] + [];
    SplitLead(c, []);
  }

  /** Tokenizing `(` followed by a text. */
  lemma TokenizeOpenThen(s: string)
    ensures Tokenize("(" + s) == ["("] + Tokenize(s)
  {
    OpenThen(s, "(");
  }

  lemma OpenThen(s: string, c: string)
    requires c == "("
    ensures Split(Pad(c + s)) == [c] + Split(Pad(s))
  {
    var p := Pad(s);
    PadAppend(c, s);
    PadUnfold(c);
    assert c[1..] == [];
    var x := c + [' '] + p;
    assert Pad(c + s) == [] + [' '] + x;
    SplitLead(c, p);
    assert Split(x) == [c] + Split(p);
    SplitSeparated([], x);
  }

  /** One `)` too many after a printed value is ignored, not an error:
      `parse` reads one expression and leaves the stray `)` unread. */
  lemma ParseIgnoresExtraClose(v: Value)
    requires Plain(v)
    ensures Parse(Show(v) + ")") == Ok(v)
  {
    TokenizeThenClose(Show(v));
    TokenizeShow(v);
    ReadToks(v, [")"]);
    assert ReadExpr(Tokenize(Show(v) + ")")) == Ok((v, [")"]));
  }

  /** Reading the elements of an open list that never closes runs out of
      tokens: the IndexError of `tokens[0]` on an empty list. */
  lemma {:induction false} ReadUnclosed(es: seq<Value>, items: seq<Value>)
    requires forall i :: 0 <= i < |es| ==> Plain(es[i])
    ensures ReadList(ToksJoined(es), items) == Err(IndexError)
    decreases |es|
  {
    if es != [] {
      var tail := ToksJoined(es[1..]);
      PlainFirstToken(es[0]);
      ReadToks(es[0], tail);
      ReadListStep(Toks(es[0]) + tail, items, es[0], tail);
      ReadUnclosed(es[1..], items + [es[0]]);
    }
  }

  /** A printed list with its closing `)` cut off does not parse: the
      reader fails with IndexError, not SyntaxError. */
  lemma ParseMissingClose(es: seq<Value>)
    requires forall i :: 0 <= i < |es| ==> Plain(es[i])
    ensures Parse("(" + ShowJoined(es)) == Err(IndexError)
  {
    TokenizeOpenThen(ShowJoined(es));
    TokenizeShowJoined(es);
    var toks := ["("] + ToksJoined(es);
    assert Tokenize("(" + ShowJoined(es)) == toks;
    assert toks[0] == "(" && toks[1..] == ToksJoined(es);
    ReadUnclosed(es, []);
    assert ReadExpr(toks) == Err(IndexError);
  }
}
