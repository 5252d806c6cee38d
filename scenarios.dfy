/** Worked programs run through the model from the root environment. The
    texts, names and fuel are parameters fixed by the preconditions, so
    that the verifier steps through the definitions one form at a time
    rather than unfolding them wholesale on literals. */
module Scenarios {
  import opened Values
  import opened Environment
  import opened Primitives
  import opened Evaluator
  import opened Atoms
  import opened Tokenizer
  import opened Reader
  import opened Printer

  /** `(op a b)` where `op`, `a` and `b` are names bound in `env`. */
  lemma CallOfNames(op: string, a: string, b: string, env: Ref, st: Store, fuel: nat, f: Value, va: Value, vb: Value)
    requires StoreOk(st) && env < |st.frames| && fuel > 1 && !IsKeyword(Sym(op))
    requires Lookup(st, env, op) == Ok(f) && Lookup(st, env, a) == Ok(va) && Lookup(st, env, b) == Ok(vb)
    ensures ValueOk(f, |st.frames|) && ValuesOk([va, vb], |st.frames|)
    ensures Eval(List([Sym(op), Sym(a), Sym(b)]), env, st, fuel) == Apply(f, [va, vb], st, fuel - 1)
  {
    var xs, vs := [Sym(op), Sym(a), Sym(b)], [f, va, vb];
    AtomsEvaluate(Sym(op), env, st, fuel - 1);
    AtomsEvaluate(Sym(a), env, st, fuel - 1);
    AtomsEvaluate(Sym(b), env, st, fuel - 1);
    forall i | 0 <= i < 3 ensures Eval(xs[i], env, st, fuel - 1) == Outcome(Ok(vs[i]), st) {
      assert xs[i] == [Sym(op), Sym(a), Sym(b)][i];
    }
    CallWithoutEffects(xs, vs, env, st, fuel);
    assert vs[1..] == [va, vb];
  }

  // ---------------------------------------------------------------------
  // (define r 10) then (* r r)

  lemma DefineR(define: string, r: string, fuel: nat)
    requires define == "define" && r == "r" && fuel == 3
    ensures Eval(List([Sym(define), Sym(r), Int(10)]), 0, StandardStore(), fuel)
            == Outcome(Ok(NoValue), Define(StandardStore(), 0, r, Int(10)))
  {
  }

  lemma LookupsAfterDefineR(star: string, r: string)
    requires star == "*" && r == "r"
    ensures StoreOk(Define(StandardStore(), 0, r, Int(10)))
    ensures Lookup(Define(StandardStore(), 0, r, Int(10)), 0, star) == Ok(Prim(Mul))
    ensures Lookup(Define(StandardStore(), 0, r, Int(10)), 0, r) == Ok(Int(10))
  {
  }

  lemma SquareR(st: Store, star: string, r: string, fuel: nat)
    requires star == "*" && fuel == 3
    requires StoreOk(st) && |st.frames| > 0
    requires Lookup(st, 0, star) == Ok(Prim(Mul)) && Lookup(st, 0, r) == Ok(Int(10))
    ensures Eval(List([Sym(star), Sym(r), Sym(r)]), 0, st, fuel).result == Ok(Int(100))
  {
    CallOfNames(star, r, r, 0, st, fuel, Prim(Mul), Int(10), Int(10));
    TenTimesTen(st, fuel - 1);
  }

  lemma TenTimesTen(st: Store, fuel: nat)
    requires StoreOk(st)
    ensures Apply(Prim(Mul), [Int(10), Int(10)], st, fuel).result == Ok(Int(100))
  {
    assert ApplyPrim(Mul, [Int(10), Int(10)]) == Ok(Int(100));
  }

  lemma LookupsInRoot(star: string, r: string)
    requires star == "*" && r == "r"
    ensures Lookup(StandardStore(), 0, star) == Ok(Prim(Mul))
    ensures Lookup(StandardStore(), 0, r) == Err(AttributeError)
  {
    assert r !in Builtins();
  }

  lemma SquareUnbound(st: Store, star: string, r: string, fuel: nat)
    requires star == "*" && fuel == 3
    requires StoreOk(st) && |st.frames| > 0
    requires Lookup(st, 0, star) == Ok(Prim(Mul)) && Lookup(st, 0, r) == Err(AttributeError)
    ensures Eval(List([Sym(star), Sym(r), Sym(r)]), 0, st, fuel).result == Err(AttributeError)
  {
    var xs := [Sym(star), Sym(r), Sym(r)];
    assert !IsKeyword(xs[0]) && xs[1..] == [Sym(r)] + [Sym(r)];
    CallSteps(xs, 0, st, fuel);
    AtomsEvaluate(Sym(star), 0, st, fuel - 1);
    AtomsEvaluate(Sym(r), 0, st, fuel - 1);
    ArgsLeftToRight(Sym(r), [Sym(r)], 0, st, fuel - 1);
  }

  /** `(define r 10)`, then `(* r r)` in the same environment is 100; in a
      fresh root environment that lacks `r`, `(* r r)` fails with the
      AttributeError of an unbound name. */
  lemma DefineThenUse(define: string, star: string, r: string, fuel: nat)
    requires define == "define" && star == "*" && r == "r" && fuel == 3
    ensures var o := Eval(List([Sym(define), Sym(r), Int(10)]), 0, StandardStore(), fuel);
            && o.result == Ok(NoValue)
            && Eval(List([Sym(star), Sym(r), Sym(r)]), 0, o.store, fuel).result == Ok(Int(100))
            && Eval(List([Sym(star), Sym(r), Sym(r)]), 0, StandardStore(), fuel).result == Err(AttributeError)
  {
    DefineR(define, r, fuel);
    LookupsAfterDefineR(star, r);
    SquareR(Define(StandardStore(), 0, r, Int(10)), star, r, fuel);
    LookupsInRoot(star, r);
    SquareUnbound(StandardStore(), star, r, fuel);
  }

  // ---------------------------------------------------------------------
  // (define f (lambda (x) (+ x y))), (define y 5), (f 1)

  lemma DefineF(define: string, lambda: string, f: string, parms: Value, body: Value, fuel: nat)
    requires define == "define" && lambda == "lambda" && f == "f" && fuel == 4
    requires ValueOk(parms, 1) && ValueOk(body, 1)
    ensures ValueOk(List([Sym(define), Sym(f), List([Sym(lambda), parms, body])]), 1)
    ensures ValueOk(Closure(0, parms, body, 0), 1)
    ensures Eval(List([Sym(define), Sym(f), List([Sym(lambda), parms, body])]), 0, StandardStore(), fuel)
            == Outcome(Ok(NoValue), Define(StandardStore().(procs := 1), 0, f, Closure(0, parms, body, 0)))
  {
    var lam := List([Sym(lambda), parms, body]);
    assert ValueOk(lam, 1);
    DefineLambda(define, lambda, f, parms, body, StandardStore(), fuel);
  }

  /** `(define f (lambda parms body))` in a one-frame store. */
  lemma DefineLambda(define: string, lambda: string, f: string, parms: Value, body: Value, st: Store, fuel: nat)
    requires define == "define" && lambda == "lambda" && fuel == 4
    requires StoreOk(st) && |st.frames| == 1 && ValueOk(parms, 1) && ValueOk(body, 1)
    ensures ValueOk(List([Sym(define), Sym(f), List([Sym(lambda), parms, body])]), 1)
    ensures Eval(List([Sym(define), Sym(f), List([Sym(lambda), parms, body])]), 0, st, fuel)
            == Outcome(Ok(NoValue), Define(st.(procs := st.procs + 1), 0, f, Closure(st.procs, parms, body, 0)))
  {
    var lam := List([Sym(lambda), parms, body]);
    var xs := [Sym(define), Sym(f), lam];
    assert ValueOk(lam, 1);
    assert ValuesOk(xs, 1);
    assert Eval(List(xs), 0, st, fuel) == EvalList(xs, 0, st, fuel - 1);
    assert EvalList(xs, 0, st, fuel - 1) == EvalDefine(xs, 0, st, fuel - 1);
    LambdaCapturesEnv(parms, body, 0, st, fuel - 1);
  }

  lemma DefineY(define: string, y: string, st: Store, fuel: nat)
    requires define == "define" && y == "y" && fuel == 4
    requires StoreOk(st) && |st.frames| > 0
    ensures Eval(List([Sym(define), Sym(y), Int(5)]), 0, st, fuel) == Outcome(Ok(NoValue), Define(st, 0, y, Int(5)))
  {
  }

  lemma BindX(x: string)
    ensures Bind(List([Sym(x)]), [Int(1)]) == Ok(map[x := Int(1)])
  {
    ZipAt([Sym(x)], [Int(1)], map[], 0);
    var m := Bind(List([Sym(x)]), [Int(1)]).value;
    forall k | k in m ensures k == x {
      if k != x {
        ZipKeep([Sym(x)], [Int(1)], map[], k);
      }
    }
    assert m == map[x := Int(1)];
  }

  /** The root frame after both definitions. */
  lemma RootAfterDefines(f: string, y: string, plus: string, clo: Value)
    requires f == "f" && y == "y" && plus == "+" && ValueOk(clo, 1)
    ensures var st := Define(Define(StandardStore().(procs := 1), 0, f, clo), 0, y, Int(5));
            && StoreOk(st) && |st.frames| == 1
            && st.frames[0].vars[f] == clo && st.frames[0].vars[y] == Int(5) && st.frames[0].vars[plus] == Prim(Add)
            && f in st.frames[0].vars && y in st.frames[0].vars && plus in st.frames[0].vars
  {
    var s0 := StandardStore().(procs := 1);
    PlusInBuiltins(plus);
    assert s0.frames == StandardStore().frames && s0.frames[0].vars == Builtins();
    assert StoreOk(s0);
    DefineTwice(s0, f, y, plus, clo);
  }

  lemma PlusInBuiltins(plus: string)
    requires plus == "+"
    ensures plus in Builtins() && Builtins()[plus] == Prim(Add)
  {
  }

  /** Two definitions in a one-frame store keep a third name's binding. */
  lemma DefineTwice(s0: Store, f: string, y: string, plus: string, clo: Value)
    requires f == "f" && y == "y" && plus == "+" && ValueOk(clo, 1)
    requires StoreOk(s0) && |s0.frames| == 1 && plus in s0.frames[0].vars && s0.frames[0].vars[plus] == Prim(Add)
    ensures var st := Define(Define(s0, 0, f, clo), 0, y, Int(5));
            && StoreOk(st) && |st.frames| == 1
            && st.frames[0].vars[f] == clo && st.frames[0].vars[y] == Int(5) && st.frames[0].vars[plus] == Prim(Add)
            && f in st.frames[0].vars && y in st.frames[0].vars && plus in st.frames[0].vars
  {
    var s1 := Define(s0, 0, f, clo);
    assert s1.frames[0].vars == s0.frames[0].vars[f := clo];
    var s2 := Define(s1, 0, y, Int(5));
    assert s2.frames[0].vars == s1.frames[0].vars[y := Int(5)];
  }

  /** The body `(+ x y)` in the call frame {x: 1} over the root. */
  lemma BodyInCallFrame(st: Store, x: string, y: string, plus: string, fuel: nat)
    requires x == "x" && y == "y" && plus == "+" && fuel == 3
    requires StoreOk(st) && |st.frames| == 2 && st.frames[1] == Frame(map[x := Int(1)], Some(0))
    requires plus in st.frames[0].vars && st.frames[0].vars[plus] == Prim(Add)
    requires y in st.frames[0].vars && st.frames[0].vars[y] == Int(5)
    ensures Eval(List([Sym(plus), Sym(x), Sym(y)]), 1, st, fuel).result == Ok(Int(6))
  {
    assert plus[0] != x[0] && y[0] != x[0];
    LookupInCallFrame(st, x, plus);
    LookupInCallFrame(st, x, y);
    FindFirst(st, 1, x);
    CallOfNames(plus, x, y, 1, st, fuel, Prim(Add), Int(1), Int(5));
    AddOfInts(1, 5, st, fuel - 1);
  }

  /** A name the call frame {x: 1} does not bind is found in the root. */
  lemma LookupInCallFrame(st: Store, x: string, name: string)
    requires StoreOk(st) && |st.frames| == 2 && st.frames[1] == Frame(map[x := Int(1)], Some(0))
    requires name != x && name in st.frames[0].vars
    ensures Lookup(st, 1, name) == Ok(st.frames[0].vars[name])
  {
    FindFirst(st, 1, name);
    FindFirst(st, 0, name);
  }

  lemma CallF(st: Store, f: string, x: string, y: string, plus: string, fuel: nat)
    requires f == "f" && x == "x" && y == "y" && plus == "+" && fuel == 4
    requires StoreOk(st) && |st.frames| == 1
    requires plus in st.frames[0].vars && st.frames[0].vars[plus] == Prim(Add)
    requires y in st.frames[0].vars && st.frames[0].vars[y] == Int(5)
    requires f in st.frames[0].vars
    requires st.frames[0].vars[f] == Closure(0, List([Sym(x)]), List([Sym(plus), Sym(x), Sym(y)]), 0)
    ensures Eval(List([Sym(f), Int(1)]), 0, st, fuel).result == Ok(Int(6))
  {
    var parms, body := List([Sym(x)]), List([Sym(plus), Sym(x), Sym(y)]);
    var clo := Closure(0, parms, body, 0);
    var call, vs := [Sym(f), Int(1)], [clo, Int(1)];
    assert Lookup(st, 0, f) == Ok(clo);
    forall i | 0 <= i < 2 ensures Eval(call[i], 0, st, fuel - 1) == Outcome(Ok(vs[i]), st) {
    }
    CallWithoutEffects(call, vs, 0, st, fuel);
    assert vs[1..] == [Int(1)];
    BindX(x);
    CallBindsFreshFrame(0, parms, body, 0, [Int(1)], st, fuel - 1);
    var st' := st.(frames := st.frames + [Frame(map[x := Int(1)], Some(0))]);
    BodyInCallFrame(st', x, y, plus, fuel - 1);
  }

  /** Closures capture their environment by reference: after
      `(define f (lambda (x) (+ x y)))` and then `(define y 5)`, the call
      `(f 1)` is 6, because `y` is looked up when `f` runs, through the
      frame `f` captured. */
  lemma ClosureSeesLaterDefine(define: string, lambda: string, f: string, x: string, y: string, plus: string, fuel: nat)
    requires define == "define" && lambda == "lambda" && f == "f" && x == "x" && y == "y" && plus == "+"
    requires fuel == 4
    ensures ValueOk(List([Sym(define), Sym(f), List([Sym(lambda), List([Sym(x)]), List([Sym(plus), Sym(x), Sym(y)])])]), 1)
    ensures var o1 := Eval(List([Sym(define), Sym(f), List([Sym(lambda), List([Sym(x)]), List([Sym(plus), Sym(x), Sym(y)])])]),
                           0, StandardStore(), fuel);
            var o2 := Eval(List([Sym(define), Sym(y), Int(5)]), 0, o1.store, fuel);
            && o1.result == Ok(NoValue) && o2.result == Ok(NoValue)
            && Eval(List([Sym(f), Int(1)]), 0, o2.store, fuel).result == Ok(Int(6))
  {
    var parms, body := List([Sym(x)]), List([Sym(plus), Sym(x), Sym(y)]);
    var clo := Closure(0, parms, body, 0);
    assert ValueOk(parms, 1) && ValueOk(body, 1);
    DefineF(define, lambda, f, parms, body, fuel);
    var st1 := Define(StandardStore().(procs := 1), 0, f, clo);
    DefineY(define, y, st1, fuel);
    RootAfterDefines(f, y, plus, clo);
    CallF(Define(st1, 0, y, Int(5)), f, x, y, plus, fuel);
  }

  // ---------------------------------------------------------------------
  // Texts through the reader and the printer

  lemma ShowDigit(n: nat, t: string)
    requires n < 10 && t == [['0', '1', '2', '3', '4', '5', '6', '7', '8', '9'][n]]
    ensures Show(Int(n)) == t && Plain(Int(n))
  {
  }

  /** A word of no digits that is not `inf`, `infinity` or `nan` is a
      plain symbol. */
  lemma PlainWord(w: string)
    requires 0 < |w| < 3
    requires forall j :: 0 <= j < |w| ==> !IsDigit(w[j]) && !IsSpace(w[j]) && !IsParen(w[j])
    ensures Plain(Sym(w)) && Show(Sym(w)) == w
  {
    assert |Lower(Unsigned(w))| < 3;
    NonNumericTokenIsSymbol(w);
  }

  /** The text of a three-element list. */
  lemma ShowThree(a: Value, b: Value, c: Value)
    ensures Show(List([a, b, c])) == "(" + (Show(a) + (" " + (Show(b) + (" " + Show(c))))) + ")"
  {
    JoinedOne(c);
    JoinedCons(b, [c]);
    assert [b] + [c] == [b, c];
    JoinedCons(a, [b, c]);
    assert [a] + [b, c] == [a, b, c];
  }

  lemma ShowTwo(a: Value, b: Value)
    ensures Show(List([a, b])) == "(" + (Show(a) + (" " + Show(b))) + ")"
  {
    JoinedOne(b);
    JoinedCons(a, [b]);
    assert [a] + [b] == [a, b];
  }

  /** The elements of `(if (> 2 1) 10 20`. */
  lemma ShowFour(a: Value, b: Value, c: Value, d: Value)
    ensures ShowJoined([a, b, c, d]) == Show(a) + (" " + (Show(b) + (" " + (Show(c) + (" " + Show(d))))))
  {
    JoinedOne(d);
    JoinedCons(c, [d]);
    assert [c] + [d] == [c, d];
    JoinedCons(b, [c, d]);
    assert [b] + [c, d] == [b, c, d];
    JoinedCons(a, [b, c, d]);
    assert [a] + [b, c, d] == [a, b, c, d];
  }

  lemma JoinedOne(e: Value)
    ensures ShowJoined([e]) == Show(e)
  {
  }

  lemma JoinedCons(e: Value, es: seq<Value>)
    requires es != []
    ensures ShowJoined([e] + es) == Show(e) + (" " + ShowJoined(es))
  {
    assert ([e] + es)[1..] == es;
  }

  lemma EvalAdd(plus: string, fuel: nat)
    requires plus == "+" && fuel == 2
    ensures Eval(List([Sym(plus), Int(1), Int(2)]), 0, StandardStore(), fuel).result == Ok(Int(3))
  {
    assert Lookup(StandardStore(), 0, plus) == Ok(Prim(Add));
    AddInStore(StandardStore(), plus, fuel);
  }

  /** `(+ 1 2)` wherever `+` is the built-in addition. */
  lemma AddInStore(st: Store, plus: string, fuel: nat)
    requires plus == "+" && fuel == 2
    requires StoreOk(st) && |st.frames| > 0 && Lookup(st, 0, plus) == Ok(Prim(Add))
    ensures Eval(List([Sym(plus), Int(1), Int(2)]), 0, st, fuel).result == Ok(Int(3))
  {
    var xs, vs := [Sym(plus), Int(1), Int(2)], [Prim(Add), Int(1), Int(2)];
    AtomsEvaluate(Sym(plus), 0, st, fuel - 1);
    AtomsEvaluate(Int(1), 0, st, fuel - 1);
    AtomsEvaluate(Int(2), 0, st, fuel - 1);
    forall i | 0 <= i < 3 ensures Eval(xs[i], 0, st, fuel - 1) == Outcome(Ok(vs[i]), st) {
      assert xs[i] == [Sym(plus), Int(1), Int(2)][i];
    }
    CallWithoutEffects(xs, vs, 0, st, fuel);
    assert vs[1..] == [Int(1), Int(2)];
    AddOfInts(1, 2, st, fuel - 1);
  }

  /** Applying `+` to two ints adds them and leaves the store alone. */
  lemma AddOfInts(a: int, b: int, st: Store, fuel: nat)
    requires StoreOk(st)
    ensures Apply(Prim(Add), [Int(a), Int(b)], st, fuel) == Outcome(Ok(Int(a + b)), st)
  {
    assert ApplyPrim(Add, [Int(a), Int(b)]) == PyAdd(Int(a), Int(b));
  }

  lemma ShowAdd(text: string, plus: string)
    requires text == "(+ 1 2)" && plus == "+"
    ensures Plain(List([Sym(plus), Int(1), Int(2)])) && Show(List([Sym(plus), Int(1), Int(2)])) == text
  {
    PlainWord(plus);
    ShowDigit(1, "1");
    ShowDigit(2, "2");
    ShowThree(Sym(plus), Int(1), Int(2));
  }

  /** `(+ 1 2)`: the text reads as the list of `+`, 1 and 2, and that
      list evaluates to 3 in the root environment. */
  lemma ParseThenEvalAdd(text: string, plus: string, fuel: nat)
    requires text == "(+ 1 2)" && plus == "+" && fuel == 2
    ensures Parse(text) == Ok(List([Sym(plus), Int(1), Int(2)]))
    ensures Eval(List([Sym(plus), Int(1), Int(2)]), 0, StandardStore(), fuel).result == Ok(Int(3))
  {
    ShowAdd(text, plus);
    ParseShow(List([Sym(plus), Int(1), Int(2)]));
    EvalAdd(plus, fuel);
  }

  /** `(1 2 (3 4))` prints back as itself after reading. */
  lemma RenderParse(text: string)
    requires text == "(1 2 (3 4))"
    ensures Parse(text).Ok? && Show(Parse(text).value) == text
  {
    ShowDigit(1, "1");
    ShowDigit(2, "2");
    ShowDigit(3, "3");
    ShowDigit(4, "4");
    var inner := List([Int(3), Int(4)]);
    ShowTwo(Int(3), Int(4));
    assert Plain(inner);
    var v := List([Int(1), Int(2), inner]);
    ShowThree(Int(1), Int(2), inner);
    PairText("(3 4)", "3", "4");
    NestedText(text, "1", "2", "(3 4)");
    assert Plain(v);
    ParseShow(v);
  }

  lemma PairText(text: string, a: string, b: string)
    requires text == "(3 4)" && a == "3" && b == "4"
    ensures text == "(" + (a + (" " + b)) + ")"
  {
  }

  /** The literal text, cut at its spaces. */
  lemma NestedText(text: string, a: string, b: string, c: string)
    requires text == "(1 2 (3 4))" && a == "1" && b == "2" && c == "(3 4)"
    ensures text == "(" + (a + (" " + (b + (" " + c)))) + ")"
  {
    assert text[..4] == "(" + a + " " + b && text[4..] == " " + c + ")";
  }

  lemma ShowTens(ten: string, twenty: string)
    requires ten == "10" && twenty == "20"
    ensures Show(Int(10)) == ten && Show(Int(20)) == twenty && Plain(Int(10)) && Plain(Int(20))
  {
    assert NatText(1) == "1" && NatText(2) == "2";
    assert NatText(10) == NatText(1) + [DigitChar(0)];
    assert NatText(20) == NatText(2) + [DigitChar(0)];
  }

  lemma ShowTest(test: string, gt: string)
    requires test == "(> 2 1)" && gt == ">"
    ensures Plain(List([Sym(gt), Int(2), Int(1)])) && Show(List([Sym(gt), Int(2), Int(1)])) == test
  {
    PlainWord(gt);
    ShowDigit(1, "1");
    ShowDigit(2, "2");
    ShowThree(Sym(gt), Int(2), Int(1));
  }

  /** The text `(if (> 2 1) 10 20` is an open parenthesis followed by the
      printed elements of a plain list. */
  lemma MissingCloseText(text: string, kw: string, gt: string)
    requires text == "(if (> 2 1) 10 20" && kw == "if" && gt == ">"
    ensures var es := [Sym(kw), List([Sym(gt), Int(2), Int(1)]), Int(10), Int(20)];
            && (forall i :: 0 <= i < |es| ==> Plain(es[i]))
            && text == "(" + ShowJoined(es)
  {
    var test := List([Sym(gt), Int(2), Int(1)]);
    PlainWord(kw);
    ShowTest("(> 2 1)", gt);
    ShowTens("10", "20");
    var es := [Sym(kw), test, Int(10), Int(20)];
    ShowFour(Sym(kw), test, Int(10), Int(20));
    SpacedFour(text, kw, "(> 2 1)", "10", "20");
  }

  /** The literal text, cut at its spaces. */
  lemma SpacedFour(text: string, a: string, b: string, c: string, d: string)
    requires text == "(if (> 2 1) 10 20" && a == "if" && b == "(> 2 1)" && c == "10" && d == "20"
    ensures text == "(" + (a + (" " + (b + (" " + (c + (" " + d))))))
  {
    assert text[..3] == "(" + a && text[3..] == " " + b + " " + c + " " + d;
  }

  /** `(if (> 2 1) 10 20` (no closing parenthesis) fails with IndexError. */
  lemma MissingCloseExample(text: string, kw: string, gt: string)
    requires text == "(if (> 2 1) 10 20" && kw == "if" && gt == ">"
    ensures Parse(text) == Err(IndexError)
  {
    MissingCloseText(text, kw, gt);
    ParseMissingClose([Sym(kw), List([Sym(gt), Int(2), Int(1)]), Int(10), Int(20)]);
  }

  /** `(+ 1 2))`: the stray `)` is left unread and the list comes back. */
  lemma ExtraCloseExample(text: string, plus: string)
    requires text == "(+ 1 2))" && plus == "+"
    ensures Parse(text) == Ok(List([Sym(plus), Int(1), Int(2)]))
  {
    var v := List([Sym(plus), Int(1), Int(2)]);
    ShowAdd("(+ 1 2)", plus);
    assert text == Show(v) + ")";
    ParseIgnoresExtraClose(v);
  }
}
