/** `Env` (lis.py:17-24): a dict of bindings with an `outer` link, shared by
    reference between closures. All environments live in a store; an
    environment is named by its index there, and an outer environment is
    always older than the environments that point to it. */
module Environment {
  import opened Values

  datatype Frame = Frame(vars: map<string, Value>, outer: Option<Ref>)

  /** Every environment made so far, and how many procedures have been
      made (the next procedure's identity). */
  datatype Store = Store(frames: seq<Frame>, procs: nat)

  /** Outer links point to older frames (so every chain ends at a root),
      and every value held anywhere refers only to existing frames. */
  predicate StoreOk(st: Store) {
    && (forall i :: 0 <= i < |st.frames| ==> st.frames[i].outer.Some? ==> st.frames[i].outer.value < i)
    && (forall i, name :: 0 <= i < |st.frames| && name in st.frames[i].vars ==>
          ValueOk(st.frames[i].vars[name], |st.frames|))
  }

  /** What evaluation may do to a store: add frames, add or overwrite
      bindings, count procedures; never drop a frame, a binding or change
      an outer link. */
  predicate Extends(st: Store, st': Store) {
    && |st.frames| <= |st'.frames|
    && st.procs <= st'.procs
    && (forall i :: 0 <= i < |st.frames| ==> st'.frames[i].outer == st.frames[i].outer)
    && (forall i :: 0 <= i < |st.frames| ==> st.frames[i].vars.Keys <= st'.frames[i].vars.Keys)
  }

  lemma ExtendsTrans(a: Store, b: Store, c: Store)
    requires Extends(a, b) && Extends(b, c)
    ensures Extends(a, c)
  {
  }

  /** The environments `find` visits from `env`: `env`, its outer, and so
      on up to the root; each is older than the one before. */
  function Chain(st: Store, env: Ref): (c: seq<Ref>)
    requires StoreOk(st) && env < |st.frames|
    ensures |c| > 0 && c[0] == env
    ensures forall k :: 0 <= k < |c| ==> c[k] <= env
    decreases env
  {
    match st.frames[env].outer
    case None => [env]
    case Some(o) => [env] + Chain(st, o)
  }

  /** Each environment on the chain is strictly older than the one before
      it, so "before it on the chain" means "newer". */
  lemma {:induction false} ChainDescends(st: Store, env: Ref)
    requires StoreOk(st) && env < |st.frames|
    ensures var c := Chain(st, env);
            forall k :: 0 < k < |c| ==> c[k] < c[k - 1]
    decreases env
  {
    match st.frames[env].outer
    case None =>
    case Some(o) =>
      ChainDescends(st, o);
      var c := Chain(st, env);
      assert c == [env] + Chain(st, o);
      assert forall k :: 1 < k < |c| ==> c[k] == Chain(st, o)[k - 1];
  }

  /** `env.find(var)`: the innermost environment on the chain whose own
      dict holds `name` (the newest such, since the chain only goes to
      older frames); AttributeError when even the root lacks it. */
  function Find(st: Store, env: Ref, name: string): (r: Result<Ref>)
    requires StoreOk(st) && env < |st.frames|
    ensures r.Ok? ==> r.value in Chain(st, env) && name in st.frames[r.value].vars
    ensures r.Ok? ==> forall j :: j in Chain(st, env) && j > r.value ==> name !in st.frames[j].vars
    ensures r.Err? ==> r.error == AttributeError
    ensures r.Err? ==> forall j :: j in Chain(st, env) ==> name !in st.frames[j].vars
    decreases env
  {
    if name in st.frames[env].vars then Ok(env)
    else
      match st.frames[env].outer
      case None => Err(AttributeError)
      case Some(o) => Find(st, o, name)
  }

  /** `env.find(x)[x]` */
  function Lookup(st: Store, env: Ref, name: string): (r: Result<Value>)
    requires StoreOk(st) && env < |st.frames|
    ensures r.Ok? ==> ValueOk(r.value, |st.frames|)
    ensures r.Err? <==> Find(st, env, name).Err?
  {
    match Find(st, env, name)
    case Ok(f) => Ok(st.frames[f].vars[name])
    case Err(e) => Err(e)
  }

  /** `env[name] = v` on the dict of environment `env`. */
  function Define(st: Store, env: Ref, name: string, v: Value): (r: Store)
    requires StoreOk(st) && env < |st.frames| && ValueOk(v, |st.frames|)
    ensures StoreOk(r) && Extends(st, r) && |r.frames| == |st.frames| && r.procs == st.procs
  {
    var f := st.frames[env];
    st.(frames := st.frames[env := f.(vars := f.vars[name := v])])
  }

  /** `env.find(name)[name] = v` (`set!` once the value is computed): the
      binding is overwritten where `find` locates it; an unbound name is
      the AttributeError of `None.find`. */
  function Assign(st: Store, env: Ref, name: string, v: Value): (r: Result<Store>)
    requires StoreOk(st) && env < |st.frames| && ValueOk(v, |st.frames|)
    ensures r.Ok? <==> exists j :: j in Chain(st, env) && name in st.frames[j].vars
    ensures r.Ok? ==> StoreOk(r.value) && Extends(st, r.value) && |r.value.frames| == |st.frames|
    ensures r.Err? ==> r.error == AttributeError
  {
    match Find(st, env, name)
    case Ok(f) => Ok(Define(st, f, name, v))
    case Err(e) => Err(e)
  }

  // ---------------------------------------------------------------------
  // Env(parms, args, outer): binding by zip

  /** `iter(parms)`: a list yields its elements, a string its characters;
      anything else is not iterable. */
  function Params(parms: Value): (r: Result<seq<Value>>)
    ensures r.Err? <==> !parms.List? && !parms.Sym?
    ensures r.Err? ==> r.error == TypeError
  {
    match parms
    case List(ps) => Ok(ps)
    case Sym(s) => Ok(Chars(s))
    case _ => Err(TypeError)
  }

  /** `d.update(zip(ps, args))`, pair by pair until the shorter runs out;
      a later pair overwrites an earlier one with the same name. A list as
      a name is unhashable; other non-string names would be dict keys no
      symbol can reach, which the model does not follow. */
  function ZipInto(ps: seq<Value>, args: seq<Value>, m: map<string, Value>): (r: Result<map<string, Value>>)
    ensures r.Ok? ==> m.Keys <= r.value.Keys
  {
    if ps == [] || args == [] then Ok(m)
    else
      match ps[0]
      case Sym(name) => ZipInto(ps[1..], args[1..], m[name := args[0]])
      case List(_) => Err(TypeError)
      case _ => Err(Unmodelled)
  }

  /** What zipping does to the dict: it fails exactly when a zipped
      parameter is not a symbol; otherwise it binds every zipped name,
      adds no other name, and leaves every name outside the zipped ones at
      its old value. */
  lemma {:induction false} ZipIntoMeaning(ps: seq<Value>, args: seq<Value>, m: map<string, Value>)
    ensures var r := ZipInto(ps, args, m);
            r.Ok? <==> forall i :: 0 <= i < Min(|ps|, |args|) ==> ps[i].Sym?
    ensures var r := ZipInto(ps, args, m);
            r.Ok? ==> forall i :: 0 <= i < Min(|ps|, |args|) ==> ps[i].name in r.value
    ensures var r := ZipInto(ps, args, m);
            r.Ok? ==> forall k :: k in r.value ==> k in m || exists i :: 0 <= i < Min(|ps|, |args|) && ps[i] == Sym(k)
    ensures var r := ZipInto(ps, args, m);
            r.Ok? ==> forall k :: k in m && (forall i :: 0 <= i < Min(|ps|, |args|) ==> ps[i] != Sym(k)) ==>
                        r.value[k] == m[k]
    decreases |ps|
  {
    if ps != [] && args != [] && ps[0].Sym? {
      ZipIntoMeaning(ps[1..], args[1..], m[ps[0].name := args[0]]);
      assert Min(|ps[1..]|, |args[1..]|) == Min(|ps|, |args|) - 1;
      assert forall i :: 0 < i < |ps| ==> ps[1..][i - 1] == ps[i];
    }
  }

  function Bind(parms: Value, args: seq<Value>): Result<map<string, Value>> {
    match Params(parms)
    case Ok(ps) => ZipInto(ps, args, map[])
    case Err(e) => Err(e)
  }

  /** `Env(parms, args, outer)`: a new frame at the end of the store. */
  function NewEnv(st: Store, parms: Value, args: seq<Value>, outer: Option<Ref>): (r: Result<(Ref, Store)>)
    requires StoreOk(st) && ValuesOk(args, |st.frames|)
    requires outer.Some? ==> outer.value < |st.frames|
    ensures r.Ok? ==> r.value.0 == |st.frames| && r.value.0 < |r.value.1.frames|
    ensures r.Ok? ==> StoreOk(r.value.1) && Extends(st, r.value.1) && r.value.1.frames[r.value.0].outer == outer
    ensures r.Err? <==> Bind(parms, args).Err?
  {
    match Bind(parms, args)
    case Err(e) => Err(e)
    case Ok(m) =>
      BindValuesOk(parms, args, |st.frames|);
      ValuesOkMono(args, |st.frames|, |st.frames| + 1);
      BindValuesOk(parms, args, |st.frames| + 1);
      var st' := st.(frames := st.frames + [Frame(m, outer)]);
      assert forall i :: 0 <= i < |st.frames| ==> st'.frames[i] == st.frames[i];
      forall i, name | 0 <= i < |st'.frames| && name in st'.frames[i].vars
        ensures ValueOk(st'.frames[i].vars[name], |st'.frames|)
      {
        if i < |st.frames| {
          ValueOkMono(st.frames[i].vars[name], |st.frames|, |st'.frames|);
        }
      }
      Ok((|st.frames|, st'))
  }

  // ---------------------------------------------------------------------
  // Properties

  lemma {:induction false} ZipValuesOk(ps: seq<Value>, args: seq<Value>, m: map<string, Value>, count: nat)
    requires ValuesOk(args, count)
    requires forall k :: k in m ==> ValueOk(m[k], count)
    ensures ZipInto(ps, args, m).Ok? ==>
              forall k :: k in ZipInto(ps, args, m).value ==> ValueOk(ZipInto(ps, args, m).value[k], count)
  {
    if ps != [] && args != [] && ps[0].Sym? {
      ZipValuesOk(ps[1..], args[1..], m[ps[0].name := args[0]], count);
    }
  }

  /** The new frame holds only argument values. */
  lemma BindValuesOk(parms: Value, args: seq<Value>, count: nat)
    requires ValuesOk(args, count)
    ensures Bind(parms, args).Ok? ==>
              forall k :: k in Bind(parms, args).value ==> ValueOk(Bind(parms, args).value[k], count)
  {
    if Params(parms).Ok? {
      ZipValuesOk(Params(parms).value, args, map[], count);
    }
  }

  function Min(a: nat, b: nat): nat {
    if a < b then a else b
  }

  lemma {:induction false} ZipSymbolsOk(ps: seq<Value>, args: seq<Value>, m: map<string, Value>)
    requires forall i :: 0 <= i < |ps| ==> ps[i].Sym?
    ensures ZipInto(ps, args, m).Ok?
  {
    if ps != [] && args != [] {
      ZipSymbolsOk(ps[1..], args[1..], m[ps[0].name := args[0]]);
    }
  }

  /** The i-th parameter gets the i-th argument, when names are distinct. */
  lemma {:induction false} ZipAt(ps: seq<Value>, args: seq<Value>, m: map<string, Value>, i: nat)
    requires forall i :: 0 <= i < |ps| ==> ps[i].Sym?
    requires forall i, j :: 0 <= i < j < |ps| ==> ps[i].name != ps[j].name
    requires i < Min(|ps|, |args|)
    ensures ZipInto(ps, args, m).Ok? && ps[i].name in ZipInto(ps, args, m).value
    ensures ZipInto(ps, args, m).value[ps[i].name] == args[i]
  {
    ZipSymbolsOk(ps, args, m);
    var m' := m[ps[0].name := args[0]];
    if i == 0 {
      ZipKeep(ps[1..], args[1..], m', ps[0].name);
    } else {
      ZipAt(ps[1..], args[1..], m', i - 1);
    }
  }

  /** A name that is not among the zipped parameters keeps what it had. */
  lemma {:induction false} ZipKeep(ps: seq<Value>, args: seq<Value>, m: map<string, Value>, k: string)
    requires forall i :: 0 <= i < |ps| ==> ps[i].Sym?
    requires forall i :: 0 <= i < Min(|ps|, |args|) ==> ps[i].name != k
    ensures ZipInto(ps, args, m).Ok?
    ensures k in ZipInto(ps, args, m).value <==> k in m
    ensures k in m ==> ZipInto(ps, args, m).value[k] == m[k]
  {
    ZipSymbolsOk(ps, args, m);
    if ps != [] && args != [] {
      ZipKeep(ps[1..], args[1..], m[ps[0].name := args[0]], k);
    }
  }

  /** A name given to several zipped parameters ends with the argument of
      the last of them: `dict.update` lets the later pair win, so
      `((lambda (x x) x) 1 2)` is 2. */
  lemma {:induction false} ZipLastWins(ps: seq<Value>, args: seq<Value>, m: map<string, Value>, name: string, i: nat)
    requires ZipInto(ps, args, m).Ok?
    requires i < Min(|ps|, |args|) && ps[i] == Sym(name)
    requires forall j :: i < j < Min(|ps|, |args|) ==> ps[j] != Sym(name)
    ensures name in ZipInto(ps, args, m).value && ZipInto(ps, args, m).value[name] == args[i]
    decreases i
  {
    ZipIntoMeaning(ps, args, m);
    assert ps[0].Sym?;
    var m' := m[ps[0].name := args[0]];
    assert ZipInto(ps, args, m) == ZipInto(ps[1..], args[1..], m');
    if i == 0 {
      ZipIntoMeaning(ps[1..], args[1..], m');
      forall j | 0 <= j < Min(|ps[1..]|, |args[1..]|) ensures ps[1..][j] != Sym(name) {
        assert ps[1..][j] == ps[j + 1];
      }
    } else {
      forall j | i - 1 < j < Min(|ps[1..]|, |args[1..]|) ensures ps[1..][j] != Sym(name) {
        assert ps[1..][j] == ps[j + 1];
      }
      ZipLastWins(ps[1..], args[1..], m', name, i - 1);
    }
  }

  /** `(lambda (x x) ...)` applied to two arguments binds x to the second. */
  lemma BindRepeatedName(x: string, a: Value, b: Value)
    ensures Bind(List([Sym(x), Sym(x)]), [a, b]) == Ok(map[x := b])
  {
    var ps, args := [Sym(x), Sym(x)], [a, b];
    assert Bind(List(ps), args) == ZipInto(ps, args, map[]);
    assert ps[1..] == [Sym(x)] && args[1..] == [b];
    assert ZipInto(ps, args, map[]) == ZipInto([Sym(x)], [b], map[x := a]);
    assert [Sym(x)][1..] == [] && [b][1..] == [];
    assert ZipInto([Sym(x)], [b], map[x := a]) == ZipInto([], [], map[x := a][x := b]);
    assert map[x := a][x := b] == map[x := b];
  }

  /** `(lambda (x y) ...)` applied to any arguments: the new frame binds
      exactly the first min(#parms, #args) names, each to its own
      argument; extra arguments and extra parameters are dropped silently
      rather than raising an arity error. */
  lemma BindDropsExtras(ps: seq<Value>, args: seq<Value>)
    requires forall i :: 0 <= i < |ps| ==> ps[i].Sym?
    requires forall i, j :: 0 <= i < j < |ps| ==> ps[i].name != ps[j].name
    ensures Bind(List(ps), args).Ok?
    ensures forall i :: 0 <= i < Min(|ps|, |args|) ==>
              ps[i].name in Bind(List(ps), args).value && Bind(List(ps), args).value[ps[i].name] == args[i]
    ensures forall k :: k in Bind(List(ps), args).value ==>
              exists i :: 0 <= i < Min(|ps|, |args|) && ps[i].name == k
  {
    ZipSymbolsOk(ps, args, map[]);
    forall i | 0 <= i < Min(|ps|, |args|)
      ensures ps[i].name in Bind(List(ps), args).value && Bind(List(ps), args).value[ps[i].name] == args[i]
    {
      ZipAt(ps, args, map[], i);
    }
    forall k | k in Bind(List(ps), args).value
      ensures exists i :: 0 <= i < Min(|ps|, |args|) && ps[i].name == k
    {
      if forall i :: 0 <= i < Min(|ps|, |args|) ==> ps[i].name != k {
        ZipKeep(ps, args, map[], k);
      }
    }
  }

  /** A lambda whose parameter "list" is a symbol binds its characters. */
  lemma BindSymbolParms(s: string, args: seq<Value>)
    requires forall i, j :: 0 <= i < j < |s| ==> s[i] != s[j]
    ensures Bind(Sym(s), args).Ok?
    ensures forall i :: 0 <= i < Min(|s|, |args|) ==>
              [s[i]] in Bind(Sym(s), args).value && Bind(Sym(s), args).value[[s[i]]] == args[i]
  {
    var cs := Chars(s);
    forall i, j | 0 <= i < j < |cs| ensures cs[i].name != cs[j].name {
      assert [s[i]][0] != [s[j]][0];
    }
    ZipSymbolsOk(cs, args, map[]);
    forall i | 0 <= i < Min(|s|, |args|)
      ensures [s[i]] in Bind(Sym(s), args).value && Bind(Sym(s), args).value[[s[i]]] == args[i]
    {
      ZipAt(cs, args, map[], i);
    }
  }

  /** Find walks the chain outward and stops at the first binder. */
  lemma FindFirst(st: Store, env: Ref, name: string)
    requires StoreOk(st) && env < |st.frames|
    ensures name in st.frames[env].vars ==> Find(st, env, name) == Ok(env)
    ensures name !in st.frames[env].vars && st.frames[env].outer.Some? ==>
              Find(st, env, name) == Find(st, st.frames[env].outer.value, name)
    ensures name !in st.frames[env].vars && st.frames[env].outer.None? ==>
              Find(st, env, name) == Err(AttributeError)
  {
  }

  /** Only frame `env` changes under `define`, and there only `name`. */
  lemma DefineOnlyCurrentFrame(st: Store, env: Ref, name: string, v: Value)
    requires StoreOk(st) && env < |st.frames| && ValueOk(v, |st.frames|)
    ensures var r := Define(st, env, name, v);
            && (forall i :: 0 <= i < |st.frames| && i != env ==> r.frames[i] == st.frames[i])
            && r.frames[env].outer == st.frames[env].outer
            && r.frames[env].vars.Keys == st.frames[env].vars.Keys + {name}
            && r.frames[env].vars[name] == v
            && (forall k :: k in st.frames[env].vars && k != name ==> r.frames[env].vars[k] == st.frames[env].vars[k])
  {
  }

  /** After `define`, looking the name up from the same environment gives
      the new value. */
  lemma LookupAfterDefine(st: Store, env: Ref, name: string, v: Value)
    requires StoreOk(st) && env < |st.frames| && ValueOk(v, |st.frames|)
    ensures Lookup(Define(st, env, name, v), env, name) == Ok(v)
  {
  }

  /** `set!` writes only the frame `find` returns; every other frame is as
      it was. */
  lemma AssignOnlyFoundFrame(st: Store, env: Ref, name: string, v: Value)
    requires StoreOk(st) && env < |st.frames| && ValueOk(v, |st.frames|)
    requires Find(st, env, name).Ok?
    ensures var f := Find(st, env, name).value;
            var r := Assign(st, env, name, v).value;
            && (forall i :: 0 <= i < |st.frames| && i != f ==> r.frames[i] == st.frames[i])
            && r.frames[f].vars == st.frames[f].vars[name := v]
            && Lookup(r, env, name) == Ok(v)
  {
    var f := Find(st, env, name).value;
    var r := Assign(st, env, name, v).value;
    FindStable(st, r, env, name);
  }

  /** What `set!` writes is seen from every environment whose `find`
      reaches the same frame: all closures sharing that frame see it. */
  lemma AssignSeenBySharers(st: Store, env: Ref, other: Ref, name: string, v: Value)
    requires StoreOk(st) && env < |st.frames| && other < |st.frames| && ValueOk(v, |st.frames|)
    requires Find(st, env, name).Ok? && Find(st, other, name) == Find(st, env, name)
    ensures Lookup(Assign(st, env, name, v).value, other, name) == Ok(v)
  {
    var r := Assign(st, env, name, v).value;
    FindStable(st, r, other, name);
  }

  /** Rewriting a binding that exists leaves every `find` result as it was. */
  lemma {:induction false} FindStable(st: Store, r: Store, env: Ref, name: string)
    requires StoreOk(st) && StoreOk(r) && env < |st.frames| && |r.frames| == |st.frames|
    requires forall i :: 0 <= i < |st.frames| ==> r.frames[i].outer == st.frames[i].outer
    requires forall i :: 0 <= i < |st.frames| ==> r.frames[i].vars.Keys == st.frames[i].vars.Keys
    ensures Find(r, env, name) == Find(st, env, name)
    decreases env
  {
    if name !in st.frames[env].vars && st.frames[env].outer.Some? {
      FindStable(st, r, st.frames[env].outer.value, name);
    }
  }
}
