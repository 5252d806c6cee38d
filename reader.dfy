/** `read_from_tokens` and `parse` (lis.py:71-89). The reader pops tokens
    off the front of a shared list: `TokenList.ReadFromTokens` does that in
    place, and the functions `ReadExpr`/`ReadList` give its meaning as the
    value read plus the tokens left over. */
module Reader {
  import opened Values
  import opened Atoms
  import opened Tokenizer

  const EofMessage := "unexpected EOF while reading."
  const CloseMessage := "unexpected )"

  /** One expression from the front of `tokens`, and the tokens after it,
      which are always a proper suffix of the input. */
  function ReadExpr(tokens: seq<string>): (r: Result<(Value, seq<string>)>)
    ensures r.Ok? ==> |r.value.1| < |tokens| && tokens[|tokens| - |r.value.1|..] == r.value.1
    decreases |tokens|, 0
  {
    if |tokens| == 0 then Err(SyntaxError(EofMessage))
    else
      var token := tokens[0];
      if token == "(" then ReadList(tokens[1..], [])
      else if token == ")" then Err(SyntaxError(CloseMessage))
      else Ok((Atom(token), tokens[1..]))
  }

  /** The loop after an open parenthesis: read expressions onto `items`
      until the next token is ")", then drop that ")". Testing `tokens[0]`
      on an empty list is an IndexError. */
  function ReadList(tokens: seq<string>, items: seq<Value>): (r: Result<(Value, seq<string>)>)
    ensures r.Ok? ==> |r.value.1| < |tokens| && tokens[|tokens| - |r.value.1|..] == r.value.1
    decreases |tokens|, 1
  {
    if |tokens| == 0 then Err(IndexError)
    else if tokens[0] == ")" then Ok((List(items), tokens[1..]))
    else
      match ReadExpr(tokens)
      case Err(e) => Err(e)
      case Ok((item, rest)) =>
        var r := ReadList(rest, items + [item]);
        assert r.Ok? ==> tokens[|tokens| - |r.value.1|..] == r.value.1 by {
          if r.Ok? {
            assert rest == tokens[|tokens| - |rest|..];
            assert rest[|rest| - |r.value.1|..] == tokens[|tokens| - |r.value.1|..];
          }
        }
        r
  }

  /** `parse(program)`: the first expression of the text; tokens after it
      are ignored. */
  function Parse(program: string): Result<Value> {
    match ReadExpr(Tokenize(program))
    case Ok((v, _)) => Ok(v)
    case Err(e) => Err(e)
  }

  /** The token list `read_from_tokens` pops from. */
  class TokenList {
    var tokens: seq<string>

    constructor (tokens: seq<string>)
      ensures this.tokens == tokens
    {
      this.tokens := tokens;
    }

    /** `read_from_tokens(tokens)`: on success the tokens of exactly one
        expression have been popped. */
    method ReadFromTokens() returns (r: Result<Value>)
      modifies this
      ensures ReadExpr(old(tokens)).Ok? ==>
                r == Ok(ReadExpr(old(tokens)).value.0) && tokens == ReadExpr(old(tokens)).value.1
      ensures ReadExpr(old(tokens)).Err? ==> r == Err(ReadExpr(old(tokens)).error)
      decreases |tokens|
    {
      if |tokens| == 0 {
        return Err(SyntaxError(EofMessage));
      }
      var token := tokens[0];
      tokens := tokens[1..];
      if token == "(" {
        ghost var afterOpen := tokens;
        var items: seq<Value> := [];
        while true
          invariant |tokens| <= |afterOpen|
          invariant ReadList(tokens, items) == ReadList(afterOpen, [])
          decreases |tokens|
        {
          if |tokens| == 0 {
            return Err(IndexError);
          }
          if tokens[0] == ")" {
            break;
          }
          var item := ReadFromTokens();
          if item.Err? {
            return Err(item.error);
          }
          items := items + [item.value];
        }
        tokens := tokens[1..];
        return Ok(List(items));
      } else if token == ")" {
        return Err(SyntaxError(CloseMessage));
      } else {
        return Ok(Atom(token));
      }
    }
  }

  /** `parse(program)`, reading from a fresh token list. */
  method ParseProgram(program: string) returns (r: Result<Value>)
    ensures r == Parse(program)
  {
    var tokens := new TokenList(Tokenize(program));
    r := tokens.ReadFromTokens();
  }

  // ---------------------------------------------------------------------
  // Properties

  /** The two SyntaxErrors: nothing to read, and a stray ")". */
  lemma ReadSyntaxErrors(rest: seq<string>)
    ensures ReadExpr([]) == Err(SyntaxError(EofMessage))
    ensures ReadExpr([")"] + rest) == Err(SyntaxError(CloseMessage))
  {
  }

  /** Inside a list the reader never raises SyntaxError: running out of
      tokens there is the IndexError of `tokens[0]`. */
  lemma {:induction false} ReadListErrors(tokens: seq<string>, items: seq<Value>)
    ensures ReadList(tokens, items).Err? ==> ReadList(tokens, items).error == IndexError
    decreases |tokens|, 1
  {
    if |tokens| > 0 && tokens[0] != ")" {
      ReadExprErrors(tokens);
      match ReadExpr(tokens)
      case Err(_) =>
      case Ok((item, rest)) => ReadListErrors(rest, items + [item]);
    }
  }

  lemma {:induction false} ReadExprErrors(tokens: seq<string>)
    requires |tokens| > 0 && tokens[0] != ")"
    ensures ReadExpr(tokens).Err? ==> ReadExpr(tokens).error == IndexError
    decreases |tokens|, 0
  {
    if tokens[0] == "(" {
      ReadListErrors(tokens[1..], []);
    }
  }

  /** Opening parentheses minus closing ones. */
  function Balance(tokens: seq<string>): int {
    if tokens == [] then 0
    else (if tokens[0] == "(" then 1 else if tokens[0] == ")" then -1 else 0) + Balance(tokens[1..])
  }

  lemma {:induction false} BalanceAppend(a: seq<string>, b: seq<string>)
    ensures Balance(a + b) == Balance(a) + Balance(b)
  {
    if a == [] {
      assert a + b == b;
    } else {
      assert (a + b)[0] == a[0] && (a + b)[1..] == a[1..] + b;
      BalanceAppend(a[1..], b);
    }
  }

  /** An expression is balanced; a list body closes one more than it opens. */
  lemma {:induction false} ReadExprBalance(tokens: seq<string>)
    ensures ReadExpr(tokens).Ok? ==> Balance(tokens) == Balance(ReadExpr(tokens).value.1)
    decreases |tokens|, 0
  {
    if |tokens| > 0 && tokens[0] == "(" {
      ReadListBalance(tokens[1..], []);
    }
  }

  lemma {:induction false} ReadListBalance(tokens: seq<string>, items: seq<Value>)
    ensures ReadList(tokens, items).Ok? ==> Balance(tokens) == Balance(ReadList(tokens, items).value.1) - 1
    decreases |tokens|, 1
  {
    if |tokens| > 0 && tokens[0] != ")" {
      ReadExprBalance(tokens);
      match ReadExpr(tokens)
      case Err(_) =>
      case Ok((item, rest)) => ReadListBalance(rest, items + [item]);
    }
  }

  /** The tokens a list body uses close one more parenthesis than they open. */
  lemma ReadListUsedBalance(body: seq<string>, items: seq<Value>)
    ensures ReadList(body, items).Ok? ==>
              Balance(body[..|body| - |ReadList(body, items).value.1|]) == -1
  {
    var r := ReadList(body, items);
    if r.Ok? {
      var rest := r.value.1;
      var k := |body| - |rest|;
      assert body == body[..k] + rest;
      BalanceAppend(body[..k], rest);
      ReadListBalance(body, items);
    }
  }

  /** Missing close parenthesis: if no prefix of the list body closes more
      than it opens, the reader runs out of tokens inside the list, and
      that is an IndexError, not a SyntaxError. */
  lemma MissingCloseIsIndexError(body: seq<string>)
    requires forall k :: 0 <= k <= |body| ==> Balance(body[..k]) >= 0
    ensures ReadExpr(["("] + body) == Err(IndexError)
  {
    assert (["("] + body)[1..] == body;
    ReadListUsedBalance(body, []);
    ReadListErrors(body, []);
  }

  /** The reader consumes exactly the tokens of one expression: whatever
      follows them neither changes the value read nor is consumed. */
  lemma {:induction false} ReadExprPrefix(tokens: seq<string>, other: seq<string>)
    requires ReadExpr(tokens).Ok?
    ensures var (v, rest) := ReadExpr(tokens).value;
            ReadExpr(tokens[..|tokens| - |rest|] + other) == Ok((v, other))
    decreases |tokens|, 0
  {
    var (v, rest) := ReadExpr(tokens).value;
    var used := tokens[..|tokens| - |rest|];
    if tokens[0] == "(" {
      ReadListPrefix(tokens[1..], [], other);
      assert (used + other)[0] == "(";
      assert (used + other)[1..] == tokens[1..][..|tokens[1..]| - |rest|] + other;
    } else {
      assert used + other == [tokens[0]] + other;
      assert (used + other)[1..] == other;
    }
  }

  lemma {:induction false} ReadListPrefix(tokens: seq<string>, items: seq<Value>, other: seq<string>)
    requires ReadList(tokens, items).Ok?
    ensures var (v, rest) := ReadList(tokens, items).value;
            ReadList(tokens[..|tokens| - |rest|] + other, items) == Ok((v, other))
    decreases |tokens|, 1
  {
    var rest := ReadList(tokens, items).value.1;
    var used := tokens[..|tokens| - |rest|];
    if tokens[0] == ")" {
      assert rest == tokens[1..];
      assert used + other == [")"] + other;
      assert (used + other)[1..] == other;
    } else {
      var mid := ReadExpr(tokens).value.1;
      var item := ReadExpr(tokens).value.0;
      ReadListStep(tokens, items, item, mid);
      var first := tokens[..|tokens| - |mid|];
      var second := mid[..|mid| - |rest|];
      SplitUsed(tokens, mid, rest, other);
      ReadExprPrefix(tokens, second + other);
      ReadListPrefix(mid, items + [item], other);
      ReadListStep(first + (second + other), items, item, second + other);
    }
  }

  /** What two successive reads use is the concatenation of their parts. */
  lemma SplitUsed(tokens: seq<string>, mid: seq<string>, rest: seq<string>, other: seq<string>)
    requires |mid| <= |tokens| && tokens[|tokens| - |mid|..] == mid
    requires |rest| <= |mid| && mid[|mid| - |rest|..] == rest
    ensures tokens[..|tokens| - |rest|] + other
            == tokens[..|tokens| - |mid|] + (mid[..|mid| - |rest|] + other)
  {
    assert tokens[..|tokens| - |rest|] == tokens[..|tokens| - |mid|] + mid[..|mid| - |rest|];
  }

  /** One turn of the list loop. */
  lemma ReadListStep(tokens: seq<string>, items: seq<Value>, item: Value, rest: seq<string>)
    requires |tokens| > 0 && tokens[0] != ")"
    requires ReadExpr(tokens) == Ok((item, rest))
    ensures ReadList(tokens, items) == ReadList(rest, items + [item])
  {
  }

  /** Trailing tokens are silently ignored: reading stops after one
      expression whatever comes after it. */
  lemma ReadIgnoresTrailing(tokens: seq<string>, trailing: seq<string>)
    requires ReadExpr(tokens).Ok? && ReadExpr(tokens).value.1 == []
    ensures ReadExpr(tokens + trailing) == Ok((ReadExpr(tokens).value.0, trailing))
  {
    ReadExprPrefix(tokens, trailing);
    assert tokens[..|tokens|] == tokens;
  }
}
