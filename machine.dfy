/** The interpreter as lis.py runs it: the `Env` dicts live in one mutable
    heap (`frames`), `define` and `set!` write into them in place, and a
    call adds a new `Env` whose outer is the procedure's captured one.
    Each method is proved to leave exactly the result and the state that
    the functions of `Evaluator` and `Environment` describe, so every
    property proved there holds of this code. */
module Machine {
  import opened Values
  import opened Environment
  import opened Primitives
  import Evaluator

  /** A result prefixed with the values already computed. */
  function Prefixed(vals: seq<Value>, o: Evaluator.Outcome<seq<Value>>): Evaluator.Outcome<seq<Value>> {
    match o.result
    case Ok(vs) => Evaluator.Outcome(Ok(vals + vs), o.store)
    case Err(e) => o
  }

  lemma PrefixedNothing(o: Evaluator.Outcome<seq<Value>>)
    ensures Prefixed([], o) == o
  {
    if o.result.Ok? {
      assert [] + o.result.value == o.result.value;
    }
  }

  lemma PrefixedTwice(vals: seq<Value>, v: Value, o: Evaluator.Outcome<seq<Value>>)
    ensures Prefixed(vals, Prefixed([v], o)) == Prefixed(vals + [v], o)
  {
    if o.result.Ok? {
      assert vals + ([v] + o.result.value) == vals + [v] + o.result.value;
    }
  }

  /** One turn of the argument loop: evaluating the rest of the arguments
      is evaluating the next one, then the ones after it. */
  lemma ArgsStep(xs: seq<Value>, i: nat, env: Ref, before: Store, fuel: nat)
    requires StoreOk(before) && env < |before.frames| && ValuesOk(xs, |before.frames|) && i < |xs|
    requires Evaluator.Eval(xs[i], env, before, fuel).result.Ok?
    ensures var h := Evaluator.Eval(xs[i], env, before, fuel);
            && ValuesOk(xs, |h.store.frames|)
            && Evaluator.EvalArgs(xs[i..], env, before, fuel)
               == Prefixed([h.result.value], Evaluator.EvalArgs(xs[i + 1..], env, h.store, fuel))
  {
    var h := Evaluator.Eval(xs[i], env, before, fuel);
    ValuesOkMono(xs, |before.frames|, |h.store.frames|);
    assert xs[i..][0] == xs[i] && xs[i..][1..] == xs[i + 1..];
  }

  class Interpreter {
    /** Every `Env` made so far: its dict and its `outer`. */
    var frames: seq<Frame>
    /** How many procedures `lambda` has made. */
    var procs: nat

    function State(): Store
      reads this
    {
      Store(frames, procs)
    }

    /** `standard_env()`: an empty `Env()`, then `env.update({...})` with
        the built-ins. */
    constructor ()
      ensures State() == Evaluator.StandardStore()
    {
      frames := [Frame(map[], None)];
      procs := 0;
      new;
      var root := frames[0];
      frames := [root.(vars := root.vars + Builtins())];
      assert map[] + Builtins() == Builtins();
    }

    /** `Env.find(var)`: this frame if it binds `name`, else the outer's
        `find`; at the root, the AttributeError of `None.find`. */
    method Find(env: Ref, name: string) returns (r: Result<Ref>)
      requires StoreOk(State()) && env < |frames|
      ensures r == Environment.Find(State(), env, name)
      decreases env
    {
      if name in frames[env].vars {
        return Ok(env);
      }
      match frames[env].outer
      case None =>
        r := Err(AttributeError);
      case Some(o) =>
        r := Find(o, name);
    }

    /** `env[name] = v` */
    method DefineVar(env: Ref, name: string, v: Value)
      requires StoreOk(State()) && env < |frames| && ValueOk(v, |frames|)
      modifies this
      ensures State() == Environment.Define(old(State()), env, name, v)
    {
      var f := frames[env];
      frames := frames[env := f.(vars := f.vars[name := v])];
    }

    /** `env.find(name)[name] = v`: the frame `find` returns is written;
        an unbound name changes nothing and fails. */
    method SetVar(env: Ref, name: string, v: Value) returns (r: Result<Ref>)
      requires StoreOk(State()) && env < |frames| && ValueOk(v, |frames|)
      modifies this
      ensures var a := Environment.Assign(old(State()), env, name, v);
              && (r.Ok? <==> a.Ok?)
              && (a.Ok? ==> State() == a.value)
              && (a.Err? ==> r == Err(a.error) && State() == old(State()))
    {
      r := Find(env, name);
      if r.Ok? {
        DefineVar(r.value, name, v);
      }
    }

    /** `Env(parms, args, outer)`: a new frame holding the zipped
        parameters, appended to the heap. */
    method NewFrame(parms: Value, args: seq<Value>, outer: Option<Ref>) returns (r: Result<Ref>)
      requires StoreOk(State()) && ValuesOk(args, |frames|)
      requires outer.Some? ==> outer.value < |frames|
      modifies this
      ensures var n := NewEnv(old(State()), parms, args, outer);
              && (n.Ok? ==> r == Ok(n.value.0) && State() == n.value.1)
              && (n.Err? ==> r == Err(n.error) && State() == old(State()))
    {
      var m := Bind(parms, args);
      if m.Err? {
        return Err(m.error);
      }
      r := Ok(|frames|);
      frames := frames + [Frame(m.value, outer)];
    }

    /** `eval(x, env)` */
    method Eval(x: Value, env: Ref, fuel: nat) returns (r: Result<Value>)
      requires StoreOk(State()) && env < |frames| && ValueOk(x, |frames|)
      modifies this
      ensures var o := Evaluator.Eval(x, env, old(State()), fuel);
              r == o.result && State() == o.store
      decreases fuel, 0
    {
      if fuel == 0 {
        return Err(OutOfFuel);
      }
      match x
      case Sym(name) =>
        var f := Find(env, name);
        r := if f.Ok? then Ok(frames[f.value].vars[name]) else Err(f.error);
      case List(xs) =>
        r := EvalList(xs, env, fuel - 1);
      case _ =>
        r := Ok(x);
    }

    method EvalList(xs: seq<Value>, env: Ref, fuel: nat) returns (r: Result<Value>)
      requires StoreOk(State()) && env < |frames| && ValuesOk(xs, |frames|)
      modifies this
      ensures var o := Evaluator.EvalList(xs, env, old(State()), fuel);
              r == o.result && State() == o.store
      decreases fuel, 4
    {
      if xs == [] {
        r := Err(IndexError);
      } else if xs[0] == Sym("quote") {
        r := if |xs| != 2 then Err(ValueError) else Ok(xs[1]);
      } else if xs[0] == Sym("if") {
        r := EvalIf(xs, env, fuel);
      } else if xs[0] == Sym("define") {
        r := EvalDefine(xs, env, fuel);
      } else if xs[0] == Sym("set!") {
        r := EvalSet(xs, env, fuel);
      } else if xs[0] == Sym("lambda") {
        if |xs| != 3 {
          r := Err(ValueError);
        } else {
          r := Ok(Closure(procs, xs[1], xs[2], env));
          procs := procs + 1;
        }
      } else {
        r := EvalCall(xs, env, fuel);
      }
    }

    method EvalIf(xs: seq<Value>, env: Ref, fuel: nat) returns (r: Result<Value>)
      requires StoreOk(State()) && env < |frames| && ValuesOk(xs, |frames|)
      modifies this
      ensures var o := Evaluator.EvalIf(xs, env, old(State()), fuel);
              r == o.result && State() == o.store
      decreases fuel, 3
    {
      if |xs| != 4 {
        return Err(ValueError);
      }
      ghost var st := State();
      var test := Eval(xs[1], env, fuel);
      if test.Err? {
        return test;
      }
      ValuesOkMono(xs, |st.frames|, |frames|);
      r := Eval(if Truthy(test.value) then xs[2] else xs[3], env, fuel);
    }

    method EvalDefine(xs: seq<Value>, env: Ref, fuel: nat) returns (r: Result<Value>)
      requires StoreOk(State()) && env < |frames| && ValuesOk(xs, |frames|)
      modifies this
      ensures var o := Evaluator.EvalDefine(xs, env, old(State()), fuel);
              r == o.result && State() == o.store
      decreases fuel, 3
    {
      if |xs| != 3 {
        return Err(ValueError);
      }
      var v := Eval(xs[2], env, fuel);
      if v.Err? {
        return v;
      }
      match xs[1]
      case Sym(name) =>
        DefineVar(env, name, v.value);
        r := Ok(NoValue);
      case List(_) =>
        r := Err(TypeError);
      case _ =>
        r := Err(Unmodelled);
    }

    method EvalSet(xs: seq<Value>, env: Ref, fuel: nat) returns (r: Result<Value>)
      requires StoreOk(State()) && env < |frames| && ValuesOk(xs, |frames|)
      modifies this
      ensures var o := Evaluator.EvalSet(xs, env, old(State()), fuel);
              r == o.result && State() == o.store
      decreases fuel, 3
    {
      if |xs| != 3 {
        return Err(ValueError);
      }
      var v := Eval(xs[2], env, fuel);
      if v.Err? {
        return v;
      }
      match xs[1]
      case Sym(name) =>
        var found := SetVar(env, name, v.value);
        r := if found.Ok? then Ok(NoValue) else Err(found.error);
      case List(_) =>
        r := Err(TypeError);
      case _ =>
        r := Err(AttributeError);
    }

    /** `proc = eval(x[0], env)`, `args = [eval(arg, env) for arg in
        x[1:]]`, `proc(*args)` */
    method EvalCall(xs: seq<Value>, env: Ref, fuel: nat) returns (r: Result<Value>)
      requires StoreOk(State()) && env < |frames| && ValuesOk(xs, |frames|) && |xs| > 0
      modifies this
      ensures var o := Evaluator.EvalCall(xs, env, old(State()), fuel);
              r == o.result && State() == o.store
      decreases fuel, 3
    {
      ghost var st := State();
      var proc := Eval(xs[0], env, fuel);
      if proc.Err? {
        return proc;
      }
      ghost var p := State();
      ValuesOkMono(xs, |st.frames|, |frames|);
      var args := EvalArgs(xs[1..], env, fuel);
      if args.Err? {
        return Err(args.error);
      }
      ValueOkMono(proc.value, |p.frames|, |frames|);
      r := Apply(proc.value, args.value, fuel);
    }

    /** `[eval(arg, env) for arg in xs]`, left to right. */
    method EvalArgs(xs: seq<Value>, env: Ref, fuel: nat) returns (r: Result<seq<Value>>)
      requires StoreOk(State()) && env < |frames| && ValuesOk(xs, |frames|)
      modifies this
      ensures var o := Evaluator.EvalArgs(xs, env, old(State()), fuel);
              r == o.result && State() == o.store
      decreases fuel, 1
    {
      ghost var st := State();
      var vals: seq<Value> := [];
      var i := 0;
      assert xs[0..] == xs;
      PrefixedNothing(Evaluator.EvalArgs(xs, env, st, fuel));
      while i < |xs|
        invariant 0 <= i <= |xs|
        invariant StoreOk(State()) && env < |frames| && ValuesOk(xs, |frames|)
        invariant Evaluator.EvalArgs(xs, env, st, fuel) == Prefixed(vals, Evaluator.EvalArgs(xs[i..], env, State(), fuel))
        decreases |xs| - i
      {
        ghost var before := State();
        var v := Eval(xs[i], env, fuel);
        if v.Err? {
          return Err(v.error);
        }
        ArgsStep(xs, i, env, before, fuel);
        PrefixedTwice(vals, v.value, Evaluator.EvalArgs(xs[i + 1..], env, State(), fuel));
        vals := vals + [v.value];
        i := i + 1;
      }
      assert xs[i..] == [] && vals + [] == vals;
      r := Ok(vals);
    }

    /** `proc(*args)` */
    method Apply(f: Value, args: seq<Value>, fuel: nat) returns (r: Result<Value>)
      requires StoreOk(State()) && ValueOk(f, |frames|) && ValuesOk(args, |frames|)
      modifies this
      ensures var o := Evaluator.Apply(f, args, old(State()), fuel);
              r == o.result && State() == o.store
      decreases fuel, 2
    {
      match f
      case Prim(op) =>
        r := ApplyPrim(op, args);
      case Closure(_, parms, body, captured) =>
        ghost var st := State();
        var frame := NewFrame(parms, args, Some(captured));
        if frame.Err? {
          return Err(frame.error);
        }
        ValueOkMono(body, |st.frames|, |frames|);
        r := Eval(body, frame.value, fuel);
      case _ =>
        r := Err(TypeError);
    }
  }
}
