/** `eval` and the call of a `Procedure` (lis.py:9-14, 104-151) as functions
    from an expression, an environment and the store to a result and the
    new store. An exception does not undo the changes made before it, so
    the store is returned on failure too. Fuel bounds the depth of nested
    `eval` calls, standing in for the host recursion limit. */
module Evaluator {
  import opened Values
  import opened Environment
  import opened Primitives

  datatype Outcome<T> = Outcome(result: Result<T>, store: Store)

  /** `eval(x, env)` */
  function Eval(x: Value, env: Ref, st: Store, fuel: nat): (o: Outcome<Value>)
    requires StoreOk(st) && env < |st.frames| && ValueOk(x, |st.frames|)
    ensures StoreOk(o.store) && Extends(st, o.store)
    ensures o.result.Ok? ==> ValueOk(o.result.value, |o.store.frames|)
    decreases fuel, 0, 0
  {
    if fuel == 0 then Outcome(Err(OutOfFuel), st)
    else
      match x
      case Sym(name) => Outcome(Lookup(st, env, name), st)
      case List(xs) => EvalList(xs, env, st, fuel - 1)
      case _ => Outcome(Ok(x), st)
  }

  /** The list branch of `eval`: the special forms by their keyword, and
      any other non-empty list is a call. */
  function EvalList(xs: seq<Value>, env: Ref, st: Store, fuel: nat): (o: Outcome<Value>)
    requires StoreOk(st) && env < |st.frames| && ValuesOk(xs, |st.frames|)
    ensures StoreOk(o.store) && Extends(st, o.store)
    ensures o.result.Ok? ==> ValueOk(o.result.value, |o.store.frames|)
    decreases fuel, 4, 0
  {
    if xs == [] then Outcome(Err(IndexError), st)
    else if xs[0] == Sym("quote") then
      if |xs| != 2 then Outcome(Err(ValueError), st) else Outcome(Ok(xs[1]), st)
    else if xs[0] == Sym("if") then EvalIf(xs, env, st, fuel)
    else if xs[0] == Sym("define") then EvalDefine(xs, env, st, fuel)
    else if xs[0] == Sym("set!") then EvalSet(xs, env, st, fuel)
    else if xs[0] == Sym("lambda") then
      if |xs| != 3 then Outcome(Err(ValueError), st)
      else Outcome(Ok(Closure(st.procs, xs[1], xs[2], env)), st.(procs := st.procs + 1))
    else EvalCall(xs, env, st, fuel)
  }

  /** `(if test conseq alt)`: the test, then exactly one branch. */
  function EvalIf(xs: seq<Value>, env: Ref, st: Store, fuel: nat): (o: Outcome<Value>)
    requires StoreOk(st) && env < |st.frames| && ValuesOk(xs, |st.frames|)
    ensures StoreOk(o.store) && Extends(st, o.store)
    ensures o.result.Ok? ==> ValueOk(o.result.value, |o.store.frames|)
    decreases fuel, 3, 0
  {
    if |xs| != 4 then Outcome(Err(ValueError), st)
    else
      var t := Eval(xs[1], env, st, fuel);
      match t.result
      case Err(e) => Outcome(Err(e), t.store)
      case Ok(test) =>
        ValuesOkMono(xs, |st.frames|, |t.store.frames|);
        var o := Eval(if Truthy(test) then xs[2] else xs[3], env, t.store, fuel);
        ExtendsTrans(st, t.store, o.store);
        o
  }

  /** `(define var exp)`: the value first, then `env[var] = value`. */
  function EvalDefine(xs: seq<Value>, env: Ref, st: Store, fuel: nat): (o: Outcome<Value>)
    requires StoreOk(st) && env < |st.frames| && ValuesOk(xs, |st.frames|)
    ensures StoreOk(o.store) && Extends(st, o.store)
    ensures o.result.Ok? ==> o.result.value == NoValue
    decreases fuel, 3, 0
  {
    if |xs| != 3 then Outcome(Err(ValueError), st)
    else
      var t := Eval(xs[2], env, st, fuel);
      match t.result
      case Err(e) => Outcome(Err(e), t.store)
      case Ok(v) =>
        match xs[1]
        case Sym(name) =>
          var st' := Define(t.store, env, name, v);
          ExtendsTrans(st, t.store, st');
          Outcome(Ok(NoValue), st')
        case List(_) => Outcome(Err(TypeError), t.store)
        case _ => Outcome(Err(Unmodelled), t.store)
  }

  /** `(set! var exp)`: the value first, then `env.find(var)[var] = value`. */
  function EvalSet(xs: seq<Value>, env: Ref, st: Store, fuel: nat): (o: Outcome<Value>)
    requires StoreOk(st) && env < |st.frames| && ValuesOk(xs, |st.frames|)
    ensures StoreOk(o.store) && Extends(st, o.store)
    ensures o.result.Ok? ==> o.result.value == NoValue
    decreases fuel, 3, 0
  {
    if |xs| != 3 then Outcome(Err(ValueError), st)
    else
      var t := Eval(xs[2], env, st, fuel);
      match t.result
      case Err(e) => Outcome(Err(e), t.store)
      case Ok(v) =>
        match xs[1]
        case Sym(name) =>
          (match Assign(t.store, env, name, v)
           case Ok(st') =>
             ExtendsTrans(st, t.store, st');
             Outcome(Ok(NoValue), st')
           case Err(e) => Outcome(Err(e), t.store))
        case List(_) => Outcome(Err(TypeError), t.store)
        case _ => Outcome(Err(AttributeError), t.store)
  }

  /** `(proc arg...)`: the operator, the arguments left to right, then the
      call. */
  function EvalCall(xs: seq<Value>, env: Ref, st: Store, fuel: nat): (o: Outcome<Value>)
    requires StoreOk(st) && env < |st.frames| && ValuesOk(xs, |st.frames|) && |xs| > 0
    ensures StoreOk(o.store) && Extends(st, o.store)
    ensures o.result.Ok? ==> ValueOk(o.result.value, |o.store.frames|)
    decreases fuel, 3, 0
  {
    var p := Eval(xs[0], env, st, fuel);
    match p.result
    case Err(e) => Outcome(Err(e), p.store)
    case Ok(proc) =>
      ValuesOkMono(xs, |st.frames|, |p.store.frames|);
      var a := EvalArgs(xs[1..], env, p.store, fuel);
      match a.result
      case Err(e) =>
        ExtendsTrans(st, p.store, a.store);
        Outcome(Err(e), a.store)
      case Ok(args) =>
        ValueOkMono(proc, |p.store.frames|, |a.store.frames|);
        var o := Apply(proc, args, a.store, fuel);
        ExtendsTrans(st, p.store, a.store);
        ExtendsTrans(st, a.store, o.store);
        o
  }

  /** `[eval(arg, env) for arg in xs]` */
  function EvalArgs(xs: seq<Value>, env: Ref, st: Store, fuel: nat): (o: Outcome<seq<Value>>)
    requires StoreOk(st) && env < |st.frames| && ValuesOk(xs, |st.frames|)
    ensures StoreOk(o.store) && Extends(st, o.store)
    ensures o.result.Ok? ==> |o.result.value| == |xs| && ValuesOk(o.result.value, |o.store.frames|)
    decreases fuel, 1, |xs|
  {
    if xs == [] then Outcome(Ok([]), st)
    else
      var h := Eval(xs[0], env, st, fuel);
      match h.result
      case Err(e) => Outcome(Err(e), h.store)
      case Ok(v) =>
        ValuesOkMono(xs, |st.frames|, |h.store.frames|);
        var t := EvalArgs(xs[1..], env, h.store, fuel);
        ExtendsTrans(st, h.store, t.store);
        match t.result
        case Err(e) => Outcome(Err(e), t.store)
        case Ok(vs) =>
          ValueOkMono(v, |h.store.frames|, |t.store.frames|);
          Outcome(Ok([v] + vs), t.store)
  }

  /** `proc(*args)`: a built-in runs on the arguments; a `Procedure`
      evaluates its body in `Env(parms, args, self.env)`; anything else is
      not callable. */
  function Apply(f: Value, args: seq<Value>, st: Store, fuel: nat): (o: Outcome<Value>)
    requires StoreOk(st) && ValueOk(f, |st.frames|) && ValuesOk(args, |st.frames|)
    ensures StoreOk(o.store) && Extends(st, o.store)
    ensures o.result.Ok? ==> ValueOk(o.result.value, |o.store.frames|)
    decreases fuel, 2, 0
  {
    match f
    case Prim(op) =>
      ApplyPrimValueOk(op, args, |st.frames|);
      Outcome(ApplyPrim(op, args), st)
    case Closure(_, parms, body, captured) =>
      (match NewEnv(st, parms, args, Some(captured))
       case Err(e) => Outcome(Err(e), st)
       case Ok((frame, st')) =>
         ValueOkMono(body, |st.frames|, |st'.frames|);
         var o := Eval(body, frame, st', fuel);
         ExtendsTrans(st, st', o.store);
         o)
    case _ => Outcome(Err(TypeError), st)
  }

  // ---------------------------------------------------------------------
  // The root environment

  /** `standard_env()`: one root frame holding the built-ins. */
  function StandardStore(): (st: Store)
    ensures StoreOk(st) && |st.frames| == 1 && st.frames[0].outer.None?
  {
    Store([Frame(Builtins(), None)], 0)
  }

  // ---------------------------------------------------------------------
  // Properties

  /** How many elements each special form must have. */
  function FormLength(form: string): nat {
    if form == "quote" then 2 else if form == "if" then 4 else 3
  }

  /** A special form of the wrong length fails at the tuple unpacking,
      before anything is evaluated: ValueError, store untouched. */
  lemma SpecialFormArity(form: string, xs: seq<Value>, env: Ref, st: Store, fuel: nat)
    requires StoreOk(st) && env < |st.frames| && ValuesOk(xs, |st.frames|)
    requires form in {"quote", "if", "define", "set!", "lambda"}
    requires |xs| > 0 && xs[0] == Sym(form) && |xs| != FormLength(form) && fuel > 0
    ensures Eval(List(xs), env, st, fuel) == Outcome(Err(ValueError), st)
  {
    assert Eval(List(xs), env, st, fuel) == EvalList(xs, env, st, fuel - 1);
    if form == "if" {
      assert EvalList(xs, env, st, fuel - 1) == EvalIf(xs, env, st, fuel - 1);
    } else if form == "define" {
      assert EvalList(xs, env, st, fuel - 1) == EvalDefine(xs, env, st, fuel - 1);
    } else if form == "set!" {
      assert EvalList(xs, env, st, fuel - 1) == EvalSet(xs, env, st, fuel - 1);
    }
  }

  /** `()` is the IndexError of `x[0]`. */
  lemma EmptyListIsIndexError(env: Ref, st: Store, fuel: nat)
    requires StoreOk(st) && env < |st.frames| && fuel > 0
    ensures Eval(List([]), env, st, fuel) == Outcome(Err(IndexError), st)
  {
    assert Eval(List([]), env, st, fuel) == EvalList([], env, st, fuel - 1);
  }

  /** A symbol is looked up; anything that is neither a symbol nor a list
      is a constant and evaluates to itself. */
  lemma AtomsEvaluate(x: Value, env: Ref, st: Store, fuel: nat)
    requires StoreOk(st) && env < |st.frames| && ValueOk(x, |st.frames|) && fuel > 0
    requires !x.List?
    ensures x.Sym? ==> Eval(x, env, st, fuel) == Outcome(Lookup(st, env, x.name), st)
    ensures x.Sym? ==> (Eval(x, env, st, fuel).result.Err? <==> Find(st, env, x.name).Err?)
    ensures !x.Sym? ==> Eval(x, env, st, fuel) == Outcome(Ok(x), st)
  {
  }

  /** `(quote e)` is `e`, unevaluated, whatever `e` is. */
  lemma QuoteReturnsOperand(e: Value, env: Ref, st: Store, fuel: nat)
    requires StoreOk(st) && env < |st.frames| && ValueOk(e, |st.frames|) && fuel > 0
    ensures Eval(List([Sym("quote"), e]), env, st, fuel) == Outcome(Ok(e), st)
  {
    assert Eval(List([Sym("quote"), e]), env, st, fuel) == EvalList([Sym("quote"), e], env, st, fuel - 1);
  }

  /** `(if test conseq alt)` evaluates the test and then exactly one of the
      branches, in the store the test left: the other branch is not
      evaluated at all. */
  lemma IfTakesOneBranch(test: Value, conseq: Value, alt: Value, env: Ref, st: Store, fuel: nat)
    requires StoreOk(st) && env < |st.frames| && fuel > 0
    requires ValueOk(test, |st.frames|) && ValueOk(conseq, |st.frames|) && ValueOk(alt, |st.frames|)
    ensures var t := Eval(test, env, st, fuel - 1);
            ValueOk(conseq, |t.store.frames|) && ValueOk(alt, |t.store.frames|)
    ensures var t := Eval(test, env, st, fuel - 1);
            var o := Eval(List([Sym("if"), test, conseq, alt]), env, st, fuel);
            && (t.result.Err? ==> o == Outcome(Err(t.result.error), t.store))
            && (t.result.Ok? && Truthy(t.result.value) ==> o == Eval(conseq, env, t.store, fuel - 1))
            && (t.result.Ok? && !Truthy(t.result.value) ==> o == Eval(alt, env, t.store, fuel - 1))
  {
    assert Eval(List([Sym("if"), test, conseq, alt]), env, st, fuel) == EvalList([Sym("if"), test, conseq, alt], env, st, fuel - 1);
    assert EvalList([Sym("if"), test, conseq, alt], env, st, fuel - 1) == EvalIf([Sym("if"), test, conseq, alt], env, st, fuel - 1);
    var t := Eval(test, env, st, fuel - 1);
    ValueOkMono(conseq, |st.frames|, |t.store.frames|);
    ValueOkMono(alt, |st.frames|, |t.store.frames|);
  }

  /** `(define name e)` evaluates `e`, then binds `name` in the current
      frame only, and returns no value. An error in `e` keeps whatever
      `e` changed before failing. */
  lemma DefineWritesCurrentFrame(name: string, e: Value, env: Ref, st: Store, fuel: nat)
    requires StoreOk(st) && env < |st.frames| && ValueOk(e, |st.frames|) && fuel > 0
    ensures var t := Eval(e, env, st, fuel - 1);
            var o := Eval(List([Sym("define"), Sym(name), e]), env, st, fuel);
            && (t.result.Err? ==> o == Outcome(Err(t.result.error), t.store))
            && (t.result.Ok? ==>
                  && o.result == Ok(NoValue)
                  && |o.store.frames| == |t.store.frames|
                  && o.store.frames[env].vars == t.store.frames[env].vars[name := t.result.value]
                  && o.store.frames[env].outer == t.store.frames[env].outer
                  && (forall i :: 0 <= i < |t.store.frames| && i != env ==> o.store.frames[i] == t.store.frames[i]))
  {
    assert Eval(List([Sym("define"), Sym(name), e]), env, st, fuel) == EvalList([Sym("define"), Sym(name), e], env, st, fuel - 1);
    assert EvalList([Sym("define"), Sym(name), e], env, st, fuel - 1) == EvalDefine([Sym("define"), Sym(name), e], env, st, fuel - 1);
  }

  /** `(set! name e)` evaluates `e`, then overwrites the binding in the
      frame `find` returns and in no other frame; an unbound name is an
      AttributeError raised after `e` has run. */
  lemma SetWritesFoundFrame(name: string, e: Value, env: Ref, st: Store, fuel: nat)
    requires StoreOk(st) && env < |st.frames| && ValueOk(e, |st.frames|) && fuel > 0
    ensures var t := Eval(e, env, st, fuel - 1);
            var o := Eval(List([Sym("set!"), Sym(name), e]), env, st, fuel);
            && (t.result.Err? ==> o == Outcome(Err(t.result.error), t.store))
            && (t.result.Ok? && Find(t.store, env, name).Err? ==> o == Outcome(Err(AttributeError), t.store))
            && (t.result.Ok? && Find(t.store, env, name).Ok? ==>
                  var f := Find(t.store, env, name).value;
                  && o.result == Ok(NoValue)
                  && |o.store.frames| == |t.store.frames|
                  && o.store.frames[f].vars == t.store.frames[f].vars[name := t.result.value]
                  && (forall i :: 0 <= i < |t.store.frames| && i != f ==> o.store.frames[i] == t.store.frames[i]))
  {
    var xs := [Sym("set!"), Sym(name), e];
    var o := Eval(List(xs), env, st, fuel);
    assert o == EvalList(xs, env, st, fuel - 1);
    assert o == EvalSet(xs, env, st, fuel - 1);
    var t := Eval(e, env, st, fuel - 1);
    assert xs[2] == e && xs[1] == Sym(name) && |xs| == 3;
    if t.result.Ok? {
      ValueOkMono(e, |st.frames|, |t.store.frames|);
      assert o == match Assign(t.store, env, name, t.result.value)
                  case Ok(st') => Outcome(Ok(NoValue), st')
                  case Err(err) => Outcome(Err(err), t.store);
      SetStore(t.store, env, name, t.result.value, o);
    }
  }

  /** The last step of `set!`, once the value is known. */
  lemma SetStore(st: Store, env: Ref, name: string, v: Value, o: Outcome<Value>)
    requires StoreOk(st) && env < |st.frames| && ValueOk(v, |st.frames|)
    requires o == match Assign(st, env, name, v)
                  case Ok(st') => Outcome(Ok(NoValue), st')
                  case Err(e) => Outcome(Err(e), st)
    ensures Find(st, env, name).Err? ==> o == Outcome(Err(AttributeError), st)
    ensures Find(st, env, name).Ok? ==>
              var f := Find(st, env, name).value;
              && o.result == Ok(NoValue)
              && |o.store.frames| == |st.frames|
              && o.store.frames[f].vars == st.frames[f].vars[name := v]
              && (forall i :: 0 <= i < |st.frames| && i != f ==> o.store.frames[i] == st.frames[i])
  {
    if Find(st, env, name).Ok? {
      AssignOnlyFoundFrame(st, env, name, v);
    }
  }

  /** `(lambda parms body)` makes a new procedure that shares the current
      environment (by reference, not a copy) and evaluates nothing. */
  lemma LambdaCapturesEnv(parms: Value, body: Value, env: Ref, st: Store, fuel: nat)
    requires StoreOk(st) && env < |st.frames| && ValueOk(parms, |st.frames|) && ValueOk(body, |st.frames|)
    requires fuel > 0
    ensures Eval(List([Sym("lambda"), parms, body]), env, st, fuel)
            == Outcome(Ok(Closure(st.procs, parms, body, env)), st.(procs := st.procs + 1))
  {
    assert Eval(List([Sym("lambda"), parms, body]), env, st, fuel) == EvalList([Sym("lambda"), parms, body], env, st, fuel - 1);
  }

  /** Calling a procedure evaluates its body in a fresh frame, appended to
      the store, that holds the zipped parameters and whose outer is the
      captured environment. */
  lemma CallBindsFreshFrame(id: nat, parms: Value, body: Value, captured: Ref, args: seq<Value>, st: Store, fuel: nat)
    requires StoreOk(st) && ValueOk(Closure(id, parms, body, captured), |st.frames|) && ValuesOk(args, |st.frames|)
    ensures Bind(parms, args).Err? ==>
              Apply(Closure(id, parms, body, captured), args, st, fuel) == Outcome(Err(Bind(parms, args).error), st)
    ensures Bind(parms, args).Ok? ==>
              var st' := st.(frames := st.frames + [Frame(Bind(parms, args).value, Some(captured))]);
              && StoreOk(st') && ValueOk(body, |st'.frames|)
              && Apply(Closure(id, parms, body, captured), args, st, fuel) == Eval(body, |st.frames|, st', fuel)
  {
    if Bind(parms, args).Ok? {
      var st' := st.(frames := st.frames + [Frame(Bind(parms, args).value, Some(captured))]);
      var r := NewEnv(st, parms, args, Some(captured));
      assert r.value.0 == |st.frames| && r.value.1 == st';
      ValueOkMono(body, |st.frames|, |st'.frames|);
    }
  }

  /** Only built-ins and procedures can be called; the operator and all
      arguments are evaluated before that is checked. */
  lemma CallNonProcedure(f: Value, args: seq<Value>, st: Store, fuel: nat)
    requires StoreOk(st) && ValueOk(f, |st.frames|) && ValuesOk(args, |st.frames|)
    requires !f.Prim? && !f.Closure?
    ensures Apply(f, args, st, fuel) == Outcome(Err(TypeError), st)
  {
  }

  /** The arguments are evaluated left to right, each in the store the one
      before it left, and the first error stops the rest. */
  lemma ArgsLeftToRight(x: Value, xs: seq<Value>, env: Ref, st: Store, fuel: nat)
    requires StoreOk(st) && env < |st.frames| && ValueOk(x, |st.frames|) && ValuesOk(xs, |st.frames|)
    ensures var h := Eval(x, env, st, fuel);
            ValuesOk(xs, |h.store.frames|)
    ensures var h := Eval(x, env, st, fuel);
            var o := EvalArgs([x] + xs, env, st, fuel);
            && (h.result.Err? ==> o == Outcome(Err(h.result.error), h.store))
            && (h.result.Ok? ==>
                  var t := EvalArgs(xs, env, h.store, fuel);
                  o.store == t.store
                  && (t.result.Ok? ==> o.result == Ok([h.result.value] + t.result.value))
                  && (t.result.Err? ==> o.result == t.result))
  {
    var h := Eval(x, env, st, fuel);
    ValuesOkMono(xs, |st.frames|, |h.store.frames|);
    assert ([x] + xs)[0] == x && ([x] + xs)[1..] == xs;
  }

  /** The words the evaluator treats as special forms. */
  predicate IsKeyword(x: Value) {
    x in {Sym("quote"), Sym("if"), Sym("define"), Sym("set!"), Sym("lambda")}
  }

  /** A list whose head is not a keyword is a call: the operator is
      evaluated, then the arguments, each step in the store the previous
      one left, and the first error ends the evaluation. */
  lemma CallSteps(xs: seq<Value>, env: Ref, st: Store, fuel: nat)
    requires StoreOk(st) && env < |st.frames| && ValuesOk(xs, |st.frames|) && fuel > 0
    requires |xs| > 0 && !IsKeyword(xs[0])
    ensures var p := Eval(xs[0], env, st, fuel - 1);
            ValuesOk(xs[1..], |p.store.frames|)
    ensures var p := Eval(xs[0], env, st, fuel - 1);
            var o := Eval(List(xs), env, st, fuel);
            && (p.result.Err? ==> o == Outcome(Err(p.result.error), p.store))
            && (p.result.Ok? ==>
                  var a := EvalArgs(xs[1..], env, p.store, fuel - 1);
                  && (a.result.Err? ==> o == Outcome(Err(a.result.error), a.store))
                  && (a.result.Ok? ==> ValueOk(p.result.value, |a.store.frames|))
                  && (a.result.Ok? ==> o == Apply(p.result.value, a.result.value, a.store, fuel - 1)))
  {
    assert Eval(List(xs), env, st, fuel) == EvalList(xs, env, st, fuel - 1);
    var p := Eval(xs[0], env, st, fuel - 1);
    assert ValuesOk(xs[1..], |st.frames|);
    ValuesOkMono(xs[1..], |st.frames|, |p.store.frames|);
    if p.result.Ok? {
      var a := EvalArgs(xs[1..], env, p.store, fuel - 1);
      ValueOkMono(p.result.value, |p.store.frames|, |a.store.frames|);
    }
  }

  /** Arguments that each evaluate without touching the store evaluate,
      together, to the list of their values. */
  lemma {:induction false} ArgsWithoutEffects(xs: seq<Value>, vs: seq<Value>, env: Ref, st: Store, fuel: nat)
    requires StoreOk(st) && env < |st.frames| && ValuesOk(xs, |st.frames|) && |vs| == |xs|
    requires forall i :: 0 <= i < |xs| ==> Eval(xs[i], env, st, fuel) == Outcome(Ok(vs[i]), st)
    ensures EvalArgs(xs, env, st, fuel) == Outcome(Ok(vs), st)
  {
    if xs != [] {
      assert Eval(xs[0], env, st, fuel) == Outcome(Ok(vs[0]), st);
      ArgsWithoutEffects(xs[1..], vs[1..], env, st, fuel);
      assert [vs[0]] + vs[1..] == vs;
    }
  }

  /** A call whose operator and operands each evaluate without touching
      the store applies the operator's value to the operands' values. */
  lemma CallWithoutEffects(xs: seq<Value>, vs: seq<Value>, env: Ref, st: Store, fuel: nat)
    requires StoreOk(st) && env < |st.frames| && ValuesOk(xs, |st.frames|) && fuel > 0
    requires |xs| > 0 && !IsKeyword(xs[0]) && |vs| == |xs|
    requires forall i :: 0 <= i < |xs| ==> Eval(xs[i], env, st, fuel - 1) == Outcome(Ok(vs[i]), st)
    ensures ValueOk(vs[0], |st.frames|) && ValuesOk(vs[1..], |st.frames|)
    ensures Eval(List(xs), env, st, fuel) == Apply(vs[0], vs[1..], st, fuel - 1)
  {
    assert Eval(xs[0], env, st, fuel - 1) == Outcome(Ok(vs[0]), st);
    CallSteps(xs, env, st, fuel);
    ArgsWithoutEffects(xs[1..], vs[1..], env, st, fuel - 1);
  }

  /** With no fuel left evaluation stops at once, as Python would with its
      recursion limit exceeded. */
  lemma NoFuel(x: Value, env: Ref, st: Store)
    requires StoreOk(st) && env < |st.frames| && ValueOk(x, |st.frames|)
    ensures Eval(x, env, st, 0) == Outcome(Err(OutOfFuel), st)
  {
  }

  // ---------------------------------------------------------------------
  // Fuel only cuts evaluation short

  /** An evaluation that did not run out of fuel gives the same result and
      the same store with any larger amount of fuel: the bound never
      changes what a finished evaluation does. */
  lemma {:induction false} EvalFuel(x: Value, env: Ref, st: Store, fuel: nat, more: nat)
    requires StoreOk(st) && env < |st.frames| && ValueOk(x, |st.frames|)
    requires fuel <= more && Eval(x, env, st, fuel).result != Err(OutOfFuel)
    ensures Eval(x, env, st, more) == Eval(x, env, st, fuel)
    decreases fuel, 0, 0
  {
    assert fuel > 0;
    if x.List? {
      EvalListFuel(x.elems, env, st, fuel - 1, more - 1);
    }
  }

  lemma {:induction false} EvalListFuel(xs: seq<Value>, env: Ref, st: Store, fuel: nat, more: nat)
    requires StoreOk(st) && env < |st.frames| && ValuesOk(xs, |st.frames|)
    requires fuel <= more && EvalList(xs, env, st, fuel).result != Err(OutOfFuel)
    ensures EvalList(xs, env, st, more) == EvalList(xs, env, st, fuel)
    decreases fuel, 4, 0
  {
    if xs == [] || xs[0] == Sym("quote") || xs[0] == Sym("lambda") {
    } else if xs[0] == Sym("if") {
      EvalIfFuel(xs, env, st, fuel, more);
    } else if xs[0] == Sym("define") {
      EvalDefineFuel(xs, env, st, fuel, more);
    } else if xs[0] == Sym("set!") {
      EvalSetFuel(xs, env, st, fuel, more);
    } else {
      EvalCallFuel(xs, env, st, fuel, more);
    }
  }

  lemma {:induction false} EvalIfFuel(xs: seq<Value>, env: Ref, st: Store, fuel: nat, more: nat)
    requires StoreOk(st) && env < |st.frames| && ValuesOk(xs, |st.frames|)
    requires fuel <= more && EvalIf(xs, env, st, fuel).result != Err(OutOfFuel)
    ensures EvalIf(xs, env, st, more) == EvalIf(xs, env, st, fuel)
    decreases fuel, 3, 0
  {
    if |xs| == 4 {
      var t := Eval(xs[1], env, st, fuel);
      EvalFuel(xs[1], env, st, fuel, more);
      if t.result.Ok? {
        ValuesOkMono(xs, |st.frames|, |t.store.frames|);
        EvalFuel(if Truthy(t.result.value) then xs[2] else xs[3], env, t.store, fuel, more);
      }
    }
  }

  lemma {:induction false} EvalDefineFuel(xs: seq<Value>, env: Ref, st: Store, fuel: nat, more: nat)
    requires StoreOk(st) && env < |st.frames| && ValuesOk(xs, |st.frames|)
    requires fuel <= more && EvalDefine(xs, env, st, fuel).result != Err(OutOfFuel)
    ensures EvalDefine(xs, env, st, more) == EvalDefine(xs, env, st, fuel)
    decreases fuel, 3, 0
  {
    if |xs| == 3 {
      EvalFuel(xs[2], env, st, fuel, more);
    }
  }

  lemma {:induction false} EvalSetFuel(xs: seq<Value>, env: Ref, st: Store, fuel: nat, more: nat)
    requires StoreOk(st) && env < |st.frames| && ValuesOk(xs, |st.frames|)
    requires fuel <= more && EvalSet(xs, env, st, fuel).result != Err(OutOfFuel)
    ensures EvalSet(xs, env, st, more) == EvalSet(xs, env, st, fuel)
    decreases fuel, 3, 0
  {
    if |xs| == 3 {
      EvalFuel(xs[2], env, st, fuel, more);
    }
  }

  lemma {:induction false} EvalCallFuel(xs: seq<Value>, env: Ref, st: Store, fuel: nat, more: nat)
    requires StoreOk(st) && env < |st.frames| && ValuesOk(xs, |st.frames|) && |xs| > 0
    requires fuel <= more && EvalCall(xs, env, st, fuel).result != Err(OutOfFuel)
    ensures EvalCall(xs, env, st, more) == EvalCall(xs, env, st, fuel)
    decreases fuel, 3, 0
  {
    var p := Eval(xs[0], env, st, fuel);
    EvalFuel(xs[0], env, st, fuel, more);
    if p.result.Ok? {
      ValuesOkMono(xs, |st.frames|, |p.store.frames|);
      var a := EvalArgs(xs[1..], env, p.store, fuel);
      EvalArgsFuel(xs[1..], env, p.store, fuel, more);
      if a.result.Ok? {
        ValueOkMono(p.result.value, |p.store.frames|, |a.store.frames|);
        ApplyFuel(p.result.value, a.result.value, a.store, fuel, more);
      }
    }
  }

  lemma {:induction false} EvalArgsFuel(xs: seq<Value>, env: Ref, st: Store, fuel: nat, more: nat)
    requires StoreOk(st) && env < |st.frames| && ValuesOk(xs, |st.frames|)
    requires fuel <= more && EvalArgs(xs, env, st, fuel).result != Err(OutOfFuel)
    ensures EvalArgs(xs, env, st, more) == EvalArgs(xs, env, st, fuel)
    decreases fuel, 1, |xs|
  {
    if xs != [] {
      var h := Eval(xs[0], env, st, fuel);
      EvalFuel(xs[0], env, st, fuel, more);
      if h.result.Ok? {
        ValuesOkMono(xs, |st.frames|, |h.store.frames|);
        EvalArgsFuel(xs[1..], env, h.store, fuel, more);
      }
    }
  }

  lemma {:induction false} ApplyFuel(f: Value, args: seq<Value>, st: Store, fuel: nat, more: nat)
    requires StoreOk(st) && ValueOk(f, |st.frames|) && ValuesOk(args, |st.frames|)
    requires fuel <= more && Apply(f, args, st, fuel).result != Err(OutOfFuel)
    ensures Apply(f, args, st, more) == Apply(f, args, st, fuel)
    decreases fuel, 2, 0
  {
    if f.Closure? {
      var r := NewEnv(st, f.parms, args, Some(f.env));
      if r.Ok? {
        var (frame, st') := r.value;
        ValueOkMono(f.body, |st.frames|, |st'.frames|);
        EvalFuel(f.body, frame, st', fuel, more);
      }
    }
  }
}
