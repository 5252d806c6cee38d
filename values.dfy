/** Runtime data of the interpreter: one tagged union serves as both the
    expression tree and list data (lis.py keeps Python ints, floats, str
    and list for both roles). */
module Values {

  datatype Option<T> = None | Some(value: T)

  /** The exceptions lis.py lets escape, named after the Python class that
      is raised, plus two the model adds: OutOfFuel stands for the host
      recursion limit, Unmodelled for float arithmetic and the few other
      behaviours the model does not decide. */
  datatype Error =
    | SyntaxError(message: string)
    | IndexError
    | ValueError
    | TypeError
    | ZeroDivisionError
    | OverflowError     // a repeat count or length beyond Py_ssize_t
    | MemoryError       // a list repeat longer than sys.maxsize
    | AttributeError    // a lookup walked past the root frame (`None.find`)
    | OutOfFuel
    | Unmodelled

  datatype Result<T> = Ok(value: T) | Err(error: Error)

  /** An environment is a frame of the store, named by its index. */
  type Ref = nat

  /** The built-in procedures of the root environment. Names that lis.py
      binds to the same Python object share one tag: `+` and `append` are
      both operator.add, `=` and `equal` both operator.eq. */
  datatype PrimOp =
    | Add | Sub | Mul | FloorDiv
    | Gt | Lt | Ge | Le | Eq
    | Abs | Begin | Car | Cdr | Cons | Length | MakeList
    | IsList | Max | Min | Not | IsNull | IsNumber | IsSymbol

  datatype Value =
    | Int(n: int)
    | Bool(truth: bool)          // Python's True/False, a subclass of int
    | Float(text: string)        // a float, kept as the token it was read from
    | Sym(name: string)
    | List(elems: seq<Value>)
    | NoValue                    // Python's None, the result of define and set!
    | Prim(op: PrimOp)
    | Closure(id: nat, parms: Value, body: Value, env: Ref)

  /** The one-character strings `iter(s)` yields, as symbols. */
  function Chars(s: string): (cs: seq<Value>)
    ensures |cs| == |s| && forall i :: 0 <= i < |s| ==> cs[i] == Sym([s[i]])
  {
    if s == [] then [] else [Sym([s[0]])] + Chars(s[1..])
  }

  /** Python's int and bool both take part in integer arithmetic. */
  predicate IsExact(v: Value) {
    v.Int? || v.Bool?
  }

  function ExactValue(v: Value): int
    requires IsExact(v)
  {
    if v.Int? then v.n else if v.truth then 1 else 0
  }

  /** Every environment a value refers to (through a closure, at any depth)
      is one of the first `count` frames. */
  predicate ValueOk(v: Value, count: nat)
    decreases v
  {
    match v
    case List(es) => forall i :: 0 <= i < |es| ==> ValueOk(es[i], count)
    case Closure(_, parms, body, env) => env < count && ValueOk(parms, count) && ValueOk(body, count)
    case _ => true
  }

  predicate ValuesOk(vs: seq<Value>, count: nat) {
    forall i :: 0 <= i < |vs| ==> ValueOk(vs[i], count)
  }

  /** Growing the store never invalidates a value. */
  lemma {:induction false} ValueOkMono(v: Value, count: nat, count': nat)
    requires ValueOk(v, count) && count <= count'
    ensures ValueOk(v, count')
    decreases v
  {
    match v
    case List(es) =>
      forall i | 0 <= i < |es| ensures ValueOk(es[i], count') {
        ValueOkMono(es[i], count, count');
      }
    case Closure(_, parms, body, env) =>
      ValueOkMono(parms, count, count');
      ValueOkMono(body, count, count');
    case _ =>
  }

  lemma ValuesOkMono(vs: seq<Value>, count: nat, count': nat)
    requires ValuesOk(vs, count) && count <= count'
    ensures ValuesOk(vs, count')
  {
    forall i | 0 <= i < |vs| ensures ValueOk(vs[i], count') {
      ValueOkMono(vs[i], count, count');
    }
  }
}
