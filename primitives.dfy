/** The integer and list procedures of `standard_env` (lis.py:33-63), with
    Python's semantics for the values the model has: bool counts as int,
    `+` and `*` also work on lists and strings, `/` is floor division, and
    a wrong argument count is a TypeError. */
module Primitives {
  import opened Values
  import opened Atoms

  /** Python truthiness: `if` and `not` test this. */
  predicate Truthy(v: Value) {
    match v
    case Int(n) => n != 0
    case Bool(b) => b
    case Float(t) => !FloatIsZero(t)
    case Sym(s) => |s| > 0
    case List(es) => |es| > 0
    case NoValue => false
    case Prim(_) => true
    case Closure(_, _, _, _) => true
  }

  predicate Numeric(v: Value) {
    v.Int? || v.Bool? || v.Float?
  }

  /** `a // b` on ints: the floor of the true quotient, unlike Dafny's
      Euclidean `/` when `b` is negative. */
  function FloorQuot(a: int, b: int): (q: int)
    requires b != 0
    ensures b > 0 ==> q * b <= a < q * b + b
    ensures b < 0 ==> q * b >= a > q * b + b
  {
    if b > 0 then a / b else (-a) / (-b)
  }

  /** `a == b`. Floats are not compared (Unmodelled); procedures are equal
      only to themselves. */
  function PyEq(a: Value, b: Value): (r: Result<bool>)
    decreases a
  {
    if IsExact(a) && IsExact(b) then Ok(ExactValue(a) == ExactValue(b))
    else if (a.Float? && Numeric(b)) || (Numeric(a) && b.Float?) then Err(Unmodelled)
    else
      match (a, b)
      case (Sym(x), Sym(y)) => Ok(x == y)
      case (List(xs), List(ys)) => if |xs| != |ys| then Ok(false) else ListEq(xs, ys)
      case (NoValue, NoValue) => Ok(true)
      case (Prim(p), Prim(q)) => Ok(p == q)
      case (Closure(i, _, _, _), Closure(j, _, _, _)) => Ok(i == j)
      case _ => Ok(false)
  }

  /** Equal-length lists: equal unless some pair differs, scanned in order. */
  function ListEq(xs: seq<Value>, ys: seq<Value>): Result<bool>
    requires |xs| == |ys|
    decreases xs
  {
    if xs == [] then Ok(true)
    else
      match PyEq(xs[0], ys[0])
      case Err(e) => Err(e)
      case Ok(false) => Ok(false)
      case Ok(true) => ListEq(xs[1..], ys[1..])
  }

  /** Code-point order on strings, Python's `<` on str. */
  predicate StrLess(x: string, y: string) {
    if x == [] then y != []
    else if y == [] then false
    else if x[0] != y[0] then x[0] < y[0]
    else StrLess(x[1..], y[1..])
  }

  /** `a < b`, `a > b`, `a <= b`, `a >= b`: numbers and strings are
      ordered; lists and floats are not modelled; anything else is a
      TypeError. */
  function Compare(op: PrimOp, a: Value, b: Value): (r: Result<bool>)
    requires op in {Gt, Lt, Ge, Le}
    ensures IsExact(a) && IsExact(b) ==> r.Ok?
  {
    if IsExact(a) && IsExact(b) then
      var x, y := ExactValue(a), ExactValue(b);
      Ok(match op case Gt => x > y case Lt => x < y case Ge => x >= y case _ => x <= y)
    else if a.Sym? && b.Sym? then
      var x, y := a.name, b.name;
      Ok(match op
         case Gt => StrLess(y, x) case Lt => StrLess(x, y)
         case Ge => !StrLess(x, y) case _ => !StrLess(y, x))
    else if (Numeric(a) && Numeric(b)) || (a.List? && b.List?) then Err(Unmodelled)
    else Err(TypeError)
  }

  /** `s * n` for a list or string: n copies, none when n <= 0. */
  function Repeat<T>(s: seq<T>, n: int): (r: seq<T>)
    ensures |r| == if n <= 0 then 0 else n * |s|
    ensures forall x :: x in r ==> x in s
    decreases if n <= 0 then 0 else n
  {
    if n <= 0 then [] else s + Repeat(s, n - 1)
  }

  /** `sys.maxsize` on a 64-bit build: the largest Py_ssize_t. */
  const MaxSize: int := 0x7FFF_FFFF_FFFF_FFFF

  /** `s * n` for a list (`isList`) or a str, as CPython runs it: the count
      must fit a Py_ssize_t (OverflowError otherwise), and a result longer
      than `sys.maxsize` is refused before it is built, with MemoryError
      for a list and OverflowError for a str. */
  function SeqRepeat<T>(s: seq<T>, n: int, isList: bool): Result<seq<T>> {
    if n < -MaxSize - 1 || MaxSize < n then Err(OverflowError)
    else if n > 0 && |s| > MaxSize / n then Err(if isList then MemoryError else OverflowError)
    else Ok(Repeat(s, n))
  }

  /** `max`/`min` over the items: the first item, replaced by each later
      item that compares strictly greater (max) or smaller (min). */
  function Extreme(op: PrimOp, items: seq<Value>, best: Value): (r: Result<Value>)
    requires op in {Gt, Lt}
    ensures r.Ok? ==> r.value == best || r.value in items
  {
    if items == [] then Ok(best)
    else
      match Compare(op, items[0], best)
      case Err(e) => Err(e)
      case Ok(better) => Extreme(op, items[1..], if better then items[0] else best)
  }

  /** What `max`/`min` iterate over: the arguments, or the items of a sole
      argument. */
  function ExtremeOf(op: PrimOp, args: seq<Value>): Result<Value>
    requires op in {Gt, Lt}
  {
    if args == [] then Err(TypeError)
    else
      var items :=
        if |args| >= 2 then Ok(args)
        else match args[0]
          case List(es) => Ok(es)
          case Sym(s) => Ok(Chars(s))
          case _ => Err(TypeError);
      match items
      case Err(e) => Err(e)
      case Ok(xs) => if xs == [] then Err(ValueError) else Extreme(op, xs[1..], xs[0])
  }

  function PyAdd(a: Value, b: Value): Result<Value> {
    if IsExact(a) && IsExact(b) then Ok(Int(ExactValue(a) + ExactValue(b)))
    else if Numeric(a) && Numeric(b) then Err(Unmodelled)
    else if a.List? && b.List? then Ok(List(a.elems + b.elems))
    else if a.Sym? && b.Sym? then Ok(Sym(a.name + b.name))
    else Err(TypeError)
  }

  function PyMul(a: Value, b: Value): Result<Value> {
    if IsExact(a) && IsExact(b) then Ok(Int(ExactValue(a) * ExactValue(b)))
    else if Numeric(a) && Numeric(b) then Err(Unmodelled)
    else if a.List? && IsExact(b) then ListOf(SeqRepeat(a.elems, ExactValue(b), true))
    else if IsExact(a) && b.List? then ListOf(SeqRepeat(b.elems, ExactValue(a), true))
    else if a.Sym? && IsExact(b) then SymOf(SeqRepeat(a.name, ExactValue(b), false))
    else if IsExact(a) && b.Sym? then SymOf(SeqRepeat(b.name, ExactValue(a), false))
    else Err(TypeError)
  }

  function ListOf(r: Result<seq<Value>>): Result<Value> {
    match r
    case Ok(es) => Ok(List(es))
    case Err(e) => Err(e)
  }

  function SymOf(r: Result<string>): Result<Value> {
    match r
    case Ok(s) => Ok(Sym(s))
    case Err(e) => Err(e)
  }

  /** Apply a built-in procedure to its evaluated arguments. */
  function ApplyPrim(op: PrimOp, args: seq<Value>): (r: Result<Value>)
  {
    match op
    case Add => if |args| != 2 then Err(TypeError) else PyAdd(args[0], args[1])
    case Sub =>
      if |args| != 2 then Err(TypeError)
      else if IsExact(args[0]) && IsExact(args[1]) then Ok(Int(ExactValue(args[0]) - ExactValue(args[1])))
      else if Numeric(args[0]) && Numeric(args[1]) then Err(Unmodelled)
      else Err(TypeError)
    case Mul => if |args| != 2 then Err(TypeError) else PyMul(args[0], args[1])
    case FloorDiv =>
      if |args| != 2 then Err(TypeError)
      else if IsExact(args[0]) && IsExact(args[1]) then
        if ExactValue(args[1]) == 0 then Err(ZeroDivisionError)
        else Ok(Int(FloorQuot(ExactValue(args[0]), ExactValue(args[1]))))
      else if Numeric(args[0]) && Numeric(args[1]) then Err(Unmodelled)
      else Err(TypeError)
    case Gt => if |args| != 2 then Err(TypeError) else BoolOf(Compare(Gt, args[0], args[1]))
    case Lt => if |args| != 2 then Err(TypeError) else BoolOf(Compare(Lt, args[0], args[1]))
    case Ge => if |args| != 2 then Err(TypeError) else BoolOf(Compare(Ge, args[0], args[1]))
    case Le => if |args| != 2 then Err(TypeError) else BoolOf(Compare(Le, args[0], args[1]))
    case Eq => if |args| != 2 then Err(TypeError) else BoolOf(PyEq(args[0], args[1]))
    case Abs =>
      if |args| != 1 then Err(TypeError)
      else if IsExact(args[0]) then Ok(Int(if ExactValue(args[0]) < 0 then -ExactValue(args[0]) else ExactValue(args[0])))
      else if args[0].Float? then Err(Unmodelled)
      else Err(TypeError)
    case Begin => if args == [] then Err(IndexError) else Ok(args[|args| - 1])
    case Car =>
      if |args| != 1 then Err(TypeError)
      else (match args[0]
        case List(es) => if es == [] then Err(IndexError) else Ok(es[0])
        case Sym(s) => if s == [] then Err(IndexError) else Ok(Sym([s[0]]))
        case _ => Err(TypeError))
    case Cdr =>
      if |args| != 1 then Err(TypeError)
      else (match args[0]
        case List(es) => Ok(List(if es == [] then [] else es[1..]))
        case Sym(s) => Ok(Sym(if s == [] then [] else s[1..]))
        case _ => Err(TypeError))
    case Cons =>
      if |args| != 2 then Err(TypeError)
      else if args[1].List? then Ok(List([args[0]] + args[1].elems))
      else Err(TypeError)
    case Length =>
      if |args| != 1 then Err(TypeError)
      else (match args[0]
        case List(es) => Ok(Int(|es|))
        case Sym(s) => Ok(Int(|s|))
        case _ => Err(TypeError))
    case MakeList => Ok(List(args))
    case IsList => if |args| != 1 then Err(TypeError) else Ok(Bool(args[0].List?))
    case Max => ExtremeOf(Gt, args)
    case Min => ExtremeOf(Lt, args)
    case Not => if |args| != 1 then Err(TypeError) else Ok(Bool(!Truthy(args[0])))
    case IsNull => if |args| != 1 then Err(TypeError) else Ok(Bool(args[0] == List([])))
    case IsNumber => if |args| != 1 then Err(TypeError) else Ok(Bool(Numeric(args[0])))
    case IsSymbol => if |args| != 1 then Err(TypeError) else Ok(Bool(args[0].Sym?))
  }

  function BoolOf(r: Result<bool>): Result<Value> {
    match r
    case Ok(b) => Ok(Bool(b))
    case Err(e) => Err(e)
  }

  /** The integer and list bindings of the root environment. */
  function Builtins(): map<string, Value> {
    map[
      "+" := Prim(Add), "-" := Prim(Sub), "*" := Prim(Mul), "/" := Prim(FloorDiv),
      ">" := Prim(Gt), "<" := Prim(Lt), ">=" := Prim(Ge), "<=" := Prim(Le), "=" := Prim(Eq),
      "abs" := Prim(Abs), "append" := Prim(Add), "begin" := Prim(Begin),
      "car" := Prim(Car), "cdr" := Prim(Cdr), "cons" := Prim(Cons),
      "equal" := Prim(Eq), "length" := Prim(Length), "list" := Prim(MakeList),
      "list?" := Prim(IsList), "max" := Prim(Max), "min" := Prim(Min),
      "not" := Prim(Not), "null?" := Prim(IsNull), "number?" := Prim(IsNumber),
      "symbol?" := Prim(IsSymbol)
    ]
  }

  // ---------------------------------------------------------------------
  // Properties

  /** Built-in procedures return only what they were given or build from
      it: no reference to an environment appears from nowhere. */
  lemma ApplyPrimValueOk(op: PrimOp, args: seq<Value>, count: nat)
    requires ValuesOk(args, count)
    ensures ApplyPrim(op, args).Ok? ==> ValueOk(ApplyPrim(op, args).value, count)
  {
    var r := ApplyPrim(op, args);
    if r.Ok? {
      match op
      case Add =>
        if args[0].List? && args[1].List? {
          var es := args[0].elems + args[1].elems;
          forall i | 0 <= i < |es| ensures ValueOk(es[i], count) {
            if i >= |args[0].elems| {
              assert es[i] == args[1].elems[i - |args[0].elems|];
            }
          }
        }
      case Mul =>
        if args[0].List? && IsExact(args[1]) {
          var es := Repeat(args[0].elems, ExactValue(args[1]));
          forall i | 0 <= i < |es| ensures ValueOk(es[i], count) {
            assert es[i] in args[0].elems;
          }
          assert SeqRepeat(args[0].elems, ExactValue(args[1]), true).Ok? ==>
                 SeqRepeat(args[0].elems, ExactValue(args[1]), true).value == es;
        } else if IsExact(args[0]) && args[1].List? {
          var es := Repeat(args[1].elems, ExactValue(args[0]));
          forall i | 0 <= i < |es| ensures ValueOk(es[i], count) {
            assert es[i] in args[1].elems;
          }
          assert SeqRepeat(args[1].elems, ExactValue(args[0]), true).Ok? ==>
                 SeqRepeat(args[1].elems, ExactValue(args[0]), true).value == es;
        }
      case Begin =>
      case Car =>
      case Cdr =>
        if args[0].List? && args[0].elems != [] {
          var es := args[0].elems;
          forall i | 0 <= i < |es| - 1 ensures ValueOk(es[1..][i], count) {
            assert es[1..][i] == es[i + 1];
          }
        }
      case Cons =>
        var es := [args[0]] + args[1].elems;
        forall i | 0 <= i < |es| ensures ValueOk(es[i], count) {
          if i > 0 {
            assert es[i] == args[1].elems[i - 1];
          }
        }
      case Max => ExtremeValueOk(Gt, args, count);
      case Min => ExtremeValueOk(Lt, args, count);
      case _ =>
    }
  }

  lemma ExtremeValueOk(op: PrimOp, args: seq<Value>, count: nat)
    requires op in {Gt, Lt} && ValuesOk(args, count)
    ensures ExtremeOf(op, args).Ok? ==> ValueOk(ExtremeOf(op, args).value, count)
  {
    if ExtremeOf(op, args).Ok? && |args| == 1 && args[0].List? {
      var es := args[0].elems;
      var v := ExtremeOf(op, args).value;
      assert v == es[0] || v in es[1..];
    }
  }

  /** `(/ a b)` is the floor of a/b: 7 // -2 is -4, not Dafny's -3. */
  lemma FloorDivExamples()
    ensures ApplyPrim(FloorDiv, [Int(7), Int(-2)]) == Ok(Int(-4))
    ensures ApplyPrim(FloorDiv, [Int(-7), Int(2)]) == Ok(Int(-4))
    ensures ApplyPrim(FloorDiv, [Int(7), Int(2)]) == Ok(Int(3))
    ensures ApplyPrim(FloorDiv, [Int(1), Int(0)]) == Err(ZeroDivisionError)
  {
  }

  /** car and cdr take apart what cons builds. */
  lemma CarCdrCons(x: Value, ys: seq<Value>)
    ensures ApplyPrim(Cons, [x, List(ys)]) == Ok(List([x] + ys))
    ensures ApplyPrim(Car, [List([x] + ys)]) == Ok(x)
    ensures ApplyPrim(Cdr, [List([x] + ys)]) == Ok(List(ys))
  {
    assert ([x] + ys)[1..] == ys;
  }

  /** cons needs a list as its second argument. */
  lemma ConsOntoNonList(x: Value, y: Value)
    requires !y.List?
    ensures ApplyPrim(Cons, [x, y]) == Err(TypeError)
  {
  }

  /** `append` is `+`: one procedure under two names, which concatenates
      lists, so lengths add and the first list comes first. */
  lemma AppendConcatenates(xs: seq<Value>, ys: seq<Value>)
    ensures Builtins()["append"] == Builtins()["+"]
    ensures ApplyPrim(Add, [List(xs), List(ys)]).Ok?
    ensures var zs := ApplyPrim(Add, [List(xs), List(ys)]).value;
            && ApplyPrim(Length, [zs]) == Ok(Int(|xs| + |ys|))
            && zs.elems[..|xs|] == xs && zs.elems[|xs|..] == ys
  {
  }

  /** `=` and `equal` are one procedure. */
  lemma EqualIsEq()
    ensures Builtins()["="] == Builtins()["equal"] == Prim(Eq)
  {
  }

  /** No float anywhere inside. */
  predicate FloatFree(v: Value)
    decreases v
  {
    match v
    case Float(_) => false
    case List(es) => forall i :: 0 <= i < |es| ==> FloatFree(es[i])
    case _ => true
  }

  /** Without floats, `=` is decided and every value equals itself. */
  lemma {:induction false} EqReflexive(v: Value)
    requires FloatFree(v)
    ensures PyEq(v, v) == Ok(true)
    decreases v, 1
  {
    if v.List? {
      ListEqReflexive(v.elems);
    }
  }

  lemma {:induction false} ListEqReflexive(xs: seq<Value>)
    requires forall i :: 0 <= i < |xs| ==> FloatFree(xs[i])
    ensures ListEq(xs, xs) == Ok(true)
    decreases xs, 0
  {
    if xs != [] {
      EqReflexive(xs[0]);
      ListEqReflexive(xs[1..]);
    }
  }

  /** `=` is symmetric. */
  lemma {:induction false} EqSymmetric(a: Value, b: Value)
    ensures PyEq(a, b) == PyEq(b, a)
    decreases a, 1
  {
    if a.List? && b.List? && |a.elems| == |b.elems| {
      ListEqSymmetric(a.elems, b.elems);
    }
  }

  lemma {:induction false} ListEqSymmetric(xs: seq<Value>, ys: seq<Value>)
    requires |xs| == |ys|
    ensures ListEq(xs, ys) == ListEq(ys, xs)
    decreases xs, 0
  {
    if xs != [] {
      EqSymmetric(xs[0], ys[0]);
      ListEqSymmetric(xs[1..], ys[1..]);
    }
  }

  /** Data made of ints, symbols, None, built-ins and lists of them. */
  predicate PlainData(v: Value)
    decreases v
  {
    match v
    case Int(_) => true
    case Sym(_) => true
    case NoValue => true
    case Prim(_) => true
    case List(es) => forall i :: 0 <= i < |es| ==> PlainData(es[i])
    case _ => false
  }

  /** On plain data `=` is structural equality: lists are equal exactly
      when they have equal lengths and equal elements. */
  lemma {:induction false} EqIsStructural(a: Value, b: Value)
    requires PlainData(a) && PlainData(b)
    ensures PyEq(a, b) == Ok(a == b)
    decreases a, 1
  {
    if a.List? && b.List? && |a.elems| == |b.elems| {
      ListEqIsStructural(a.elems, b.elems);
    }
  }

  lemma {:induction false} ListEqIsStructural(xs: seq<Value>, ys: seq<Value>)
    requires |xs| == |ys|
    requires forall i :: 0 <= i < |xs| ==> PlainData(xs[i])
    requires forall i :: 0 <= i < |ys| ==> PlainData(ys[i])
    ensures ListEq(xs, ys) == Ok(xs == ys)
    decreases xs, 0
  {
    if xs != [] {
      EqIsStructural(xs[0], ys[0]);
      ListEqIsStructural(xs[1..], ys[1..]);
      if xs[0] == ys[0] && xs[1..] == ys[1..] {
        assert xs == [xs[0]] + xs[1..] && ys == [ys[0]] + ys[1..];
      }
    }
  }

  /** `>` is `<` with the arguments swapped, for numbers and for symbols. */
  lemma GtIsFlippedLt(a: Value, b: Value)
    requires (IsExact(a) && IsExact(b)) || (a.Sym? && b.Sym?)
    ensures Compare(Gt, a, b) == Compare(Lt, b, a)
    ensures Compare(Ge, a, b) == Compare(Le, b, a)
  {
  }

  /** Code-point order on strings is a strict order. */
  lemma {:induction false} StrLessIrreflexive(x: string)
    ensures !StrLess(x, x)
  {
    if x != [] {
      StrLessIrreflexive(x[1..]);
    }
  }

  lemma {:induction false} StrLessAsymmetric(x: string, y: string)
    requires StrLess(x, y)
    ensures !StrLess(y, x)
  {
    if x != [] && y != [] && x[0] == y[0] {
      StrLessAsymmetric(x[1..], y[1..]);
    }
  }

  lemma {:induction false} StrLessTransitive(x: string, y: string, z: string)
    requires StrLess(x, y) && StrLess(y, z)
    ensures StrLess(x, z)
  {
    if x != [] && y != [] && z != [] && x[0] == y[0] && y[0] == z[0] {
      StrLessTransitive(x[1..], y[1..], z[1..]);
    }
  }

  /** The largest of some ints: no item exceeds it, and it is one of them. */
  predicate IsMaxOf(m: int, xs: seq<Value>) {
    && (forall i :: 0 <= i < |xs| ==> xs[i].Int? && xs[i].n <= m)
    && (exists i :: 0 <= i < |xs| && xs[i] == Int(m))
  }

  predicate IsMinOf(m: int, xs: seq<Value>) {
    && (forall i :: 0 <= i < |xs| ==> xs[i].Int? && m <= xs[i].n)
    && (exists i :: 0 <= i < |xs| && xs[i] == Int(m))
  }

  lemma {:induction false} ExtremeOfInts(op: PrimOp, items: seq<Value>, best: Value)
    requires op in {Gt, Lt}
    requires best.Int? && forall i :: 0 <= i < |items| ==> items[i].Int?
    ensures Extreme(op, items, best).Ok?
    ensures var m := Extreme(op, items, best).value;
            && m.Int?
            && (op == Gt ==> IsMaxOf(m.n, [best] + items))
            && (op == Lt ==> IsMinOf(m.n, [best] + items))
  {
    var all := [best] + items;
    if items == [] {
      assert all[0] == best;
    } else {
      var better := if op == Gt then items[0].n > best.n else items[0].n < best.n;
      assert Compare(op, items[0], best) == Ok(better);
      var next := if better then items[0] else best;
      ExtremeOfInts(op, items[1..], next);
      var m := Extreme(op, items, best).value;
      assert m == Extreme(op, items[1..], next).value;
      var rest := [next] + items[1..];
      assert rest[0] == next;
      assert op == Gt ==> m.n >= next.n >= best.n && next.n >= items[0].n;
      assert op == Lt ==> m.n <= next.n <= best.n && next.n <= items[0].n;
      forall i | 0 <= i < |all| ensures all[i].Int? && (op == Gt ==> all[i].n <= m.n) && (op == Lt ==> m.n <= all[i].n) {
        if i >= 2 {
          assert all[i] == rest[i - 1];
        } else if i == 1 {
          assert all[1] == items[0];
        }
      }
      var k :| 0 <= k < |rest| && rest[k] == Int(m.n);
      if k == 0 {
        if better {
          assert all[1] == Int(m.n);
        } else {
          assert all[0] == Int(m.n);
        }
      } else {
        assert all[k + 1] == Int(m.n);
      }
    }
  }

  /** `(max a b ...)` and `(max (list a b ...))` of ints is their maximum,
      `min` their minimum. */
  lemma MaxMinOfInts(xs: seq<Value>)
    requires |xs| > 0 && forall i :: 0 <= i < |xs| ==> xs[i].Int?
    ensures ApplyPrim(Max, [List(xs)]).Ok? && IsMaxOf(ApplyPrim(Max, [List(xs)]).value.n, xs)
    ensures ApplyPrim(Min, [List(xs)]).Ok? && IsMinOf(ApplyPrim(Min, [List(xs)]).value.n, xs)
    ensures |xs| >= 2 ==> ApplyPrim(Max, xs) == ApplyPrim(Max, [List(xs)])
    ensures |xs| >= 2 ==> ApplyPrim(Min, xs) == ApplyPrim(Min, [List(xs)])
  {
    ExtremeOfInts(Gt, xs[1..], xs[0]);
    ExtremeOfInts(Lt, xs[1..], xs[0]);
    assert [xs[0]] + xs[1..] == xs;
  }

  /** The failures of max and min. */
  lemma MaxMinErrors(x: Value)
    ensures ApplyPrim(Max, []) == Err(TypeError)
    ensures ApplyPrim(Max, [List([])]) == Err(ValueError)
    ensures !x.List? && !x.Sym? ==> ApplyPrim(Max, [x]) == Err(TypeError)
    ensures ApplyPrim(Min, [List([])]) == Err(ValueError)
  {
  }

  /** `not` inverts truthiness, so `(not (not x))` is x's truth value. */
  lemma NotNot(x: Value)
    ensures ApplyPrim(Not, [x]).Ok?
    ensures ApplyPrim(Not, [ApplyPrim(Not, [x]).value]) == Ok(Bool(Truthy(x)))
  {
  }

  /** `null?` holds exactly for the empty list, whose length is 0. */
  lemma NullIsEmptyList(x: Value)
    ensures ApplyPrim(IsNull, [x]) == Ok(Bool(x.List? && ApplyPrim(Length, [x]) == Ok(Int(0))))
  {
  }

  /** `(* (list ...) n)` repeats the list: copy k holds the list again. */
  lemma {:induction false} RepeatAt<T>(s: seq<T>, n: int, k: nat, j: nat)
    requires k < n && j < |s|
    ensures k * |s| + j < |Repeat(s, n)| && Repeat(s, n)[k * |s| + j] == s[j]
    decreases n
  {
    if k > 0 {
      RepeatAt(s, n - 1, k - 1, j);
      assert k * |s| + j == (k - 1) * |s| + j + |s|;
    }
  }

  /** `s * n` succeeds exactly when n fits a Py_ssize_t and the n copies
      are no longer than `sys.maxsize`, and then it is those copies; a
      count out of range is OverflowError, a result too long is
      MemoryError for a list and OverflowError for a str. */
  lemma SeqRepeatLimits<T>(s: seq<T>, n: int, isList: bool)
    ensures SeqRepeat(s, n, isList).Ok? <==>
              -MaxSize - 1 <= n <= MaxSize && (n <= 0 || n * |s| <= MaxSize)
    ensures SeqRepeat(s, n, isList).Ok? ==>
              SeqRepeat(s, n, isList).value == Repeat(s, n) && |Repeat(s, n)| <= MaxSize
    ensures n < -MaxSize - 1 || MaxSize < n ==> SeqRepeat(s, n, isList) == Err(OverflowError)
    ensures -MaxSize - 1 <= n <= MaxSize && n > 0 && n * |s| > MaxSize ==>
              SeqRepeat(s, n, isList) == Err(if isList then MemoryError else OverflowError)
  {
    if 0 < n <= MaxSize {
      DivBound(|s|, n, MaxSize);
    }
  }

  /** `(* (list) 9223372036854775808)` and `(* (quote ab) -9223372036854775809)`
      overflow the count; `(* (list 1 2) 5000000000000000000)` asks for
      more than `sys.maxsize` items. */
  lemma RepeatLimitExamples(big: int, small: int, half: int, ab: string)
    requires big == MaxSize + 1 && small == -MaxSize - 2 && half == 5000000000000000000 && ab == "ab"
    ensures ApplyPrim(Mul, [List([]), Int(big)]) == Err(OverflowError)
    ensures ApplyPrim(Mul, [Sym(ab), Int(small)]) == Err(OverflowError)
    ensures ApplyPrim(Mul, [List([Int(1), Int(2)]), Int(half)]) == Err(MemoryError)
  {
    SeqRepeatLimits<Value>([], big, true);
    SeqRepeatLimits(ab, small, false);
    SeqRepeatLimits([Int(1), Int(2)], half, true);
  }

  /** Comparing with a floor quotient is comparing the product. */
  lemma DivBound(a: nat, n: int, m: nat)
    requires n > 0
    ensures a > m / n <==> a * n > m
  {
    var q := m / n;
    assert m == q * n + m % n && 0 <= m % n < n;
    if a > q {
      MulMono(q + 1, a, n);
      assert (q + 1) * n == q * n + n;
    } else {
      MulMono(a, q, n);
    }
  }

  lemma MulMono(x: int, y: int, n: nat)
    requires x <= y
    ensures x * n <= y * n
  {
    assert y * n - x * n == (y - x) * n;
  }

  /** The fixed-arity procedures raise TypeError on a wrong argument count. */
  lemma WrongArgCount(op: PrimOp, args: seq<Value>)
    requires op in {Add, Sub, Mul, FloorDiv, Gt, Lt, Ge, Le, Eq, Cons} && |args| != 2
    ensures ApplyPrim(op, args) == Err(TypeError)
  {
  }

  lemma WrongArgCountUnary(op: PrimOp, args: seq<Value>)
    requires op in {Abs, Car, Cdr, Length, IsList, Not, IsNull, IsNumber, IsSymbol} && |args| != 1
    ensures ApplyPrim(op, args) == Err(TypeError)
  {
  }

  /** `begin` gives its last argument; with none it is the IndexError of
      `x[-1]` on an empty tuple. */
  lemma BeginLast(args: seq<Value>, last: Value)
    ensures ApplyPrim(Begin, args + [last]) == Ok(last)
    ensures ApplyPrim(Begin, []) == Err(IndexError)
  {
  }

  /** Booleans are ints: `(+ (> 2 1) 1)` is 2 and `(number? (> 2 1))` holds. */
  lemma BoolsAreInts(b: bool)
    ensures ApplyPrim(Add, [Bool(b), Int(1)]) == Ok(Int(if b then 2 else 1))
    ensures ApplyPrim(IsNumber, [Bool(b)]) == Ok(Bool(true))
    ensures ApplyPrim(Eq, [Bool(true), Int(1)]) == Ok(Bool(true))
  {
  }
}
