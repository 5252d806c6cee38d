# lis.py, modelled in Dafny

A model of `lis.py`, Peter Norvig's small Scheme interpreter, and proofs
about it. The model covers the whole interpreter core:

- the tokenizer (`tokenize`);
- the reader (`read_from_tokens`, `parse`, `atom`);
- environments (`Env`, `Env.find`) and procedures (`Procedure`);
- the integer and list procedures of `standard_env`;
- the evaluator (`eval`) and the printer (`schemestr`).

Modules, one file each:

- `values.dfy` (`Values`): one `Value` type. As in lis.py, it serves both as the expression tree and as list data. It also holds the exceptions the interpreter raises, named after the Python class.
- `tokenizer.dfy` (`Tokenizer`): `tokenize`, as padding followed by Python's `str.split()`.
- `atoms.dfy` (`Atoms`): `atom`, which tries what `int()` accepts, then what `float()` accepts, and otherwise makes a Symbol. Also `str()` of an int.
- `reader.dfy` (`Reader`): `read_from_tokens` in two forms.
  - `TokenList.ReadFromTokens` pops tokens off a mutable list in a loop, as lis.py does.
  - `ReadExpr`/`ReadList` are the functions that specify it.
- `printer.dfy` (`Printer`): `schemestr`, and the round trip with `parse`.
- `environment.dfy` (`Environment`): every `Env` lives in a store of frames and is named by its index. A frame holds a dict and an optional outer index. Closures hold an index, so they share their environment by reference.
- `primitives.dfy` (`Primitives`): the integer and list built-ins, with Python's operator semantics.
- `evaluator.dfy` (`Evaluator`): `eval` as a function of the expression, the environment, the store and a fuel bound. It returns the result together with the new store. Errors are returned too: a `define` done before an exception stays done, as in Python.
- `machine.dfy` (`Machine`): the interpreter as lis.py runs it. A class holds every `Env` dict and updates it in place under `define`, `set!` and calls. Each method is proved to produce exactly the result and state that `Evaluator` and `Environment` describe.
- `scenarios.dfy` (`Scenarios`): worked programs, proved end to end from the root environment.

## Where the code decides

The model follows lis.py as written, including where a reader might
expect a Scheme interpreter to behave otherwise:

- **Missing `)`.** A program that is missing its `)` raises `IndexError`, not `SyntaxError`. The loop tests `tokens[0]` on an empty list (lis.py:82). See `Reader.MissingCloseIsIndexError`, `Printer.ParseMissingClose` and `Scenarios.MissingCloseExample`.
- **Extra tokens after one expression are ignored.** This includes a stray `)`: `parse` reads one expression and drops the rest. See `Reader.ReadIgnoresTrailing`, `Printer.ParseIgnoresExtraClose` and `Scenarios.ExtraCloseExample`.
- **Wrong argument count to a procedure is not an error.** Parameters are bound with `zip`, so extra arguments or extra parameters are dropped silently. See `Environment.BindDropsExtras`.
- **Parameters given as a symbol.** A symbol in place of a parameter list binds its characters one by one, because `zip` iterates the string. See `Environment.BindSymbolParms`.
- **Special form of the wrong length.** This is the `ValueError` of tuple unpacking, and nothing is evaluated first (`Evaluator.SpecialFormArity`).
- **An unbound name is `AttributeError`.** That is what `None.find` raises. The same holds under `set!`.
- **`/` is floor division** (`operator.floordiv`). `append` is the same procedure as `+`, and `equal` the same as `=`.
- **Booleans are ints.** `(+ (> 2 1) 1)` is 2 (`Primitives.BoolsAreInts`).

## Model

| member | source | states |
|---|---|---|
| Tokenizer.SplitWordsShape | lis.py:68 | every word `split()` returns is non-empty and free of whitespace |
| Tokenizer.SplitSeparated | lis.py:68 | `split()` of `a + " " + b` is `split(a)` followed by `split(b)` |
| Tokenizer.TokensWellFormed | lis.py:66-68 | every token is `(`, `)`, or a non-empty run with no whitespace and no parenthesis |
| Tokenizer.TokensConcat | lis.py:66-68 | the tokens, concatenated, are the input with its whitespace removed |
| Tokenizer.TokenizeIsScan | lis.py:66-68 | `tokenize` equals a left-to-right scan: whitespace separates, each parenthesis is a token by itself, and every other run of characters is taken as far as it goes, so no token could be longer |
| Tokenizer.TokenizeExample | lis.py:66-68 | `(+ 1 2)` gives exactly the five tokens `(`, `+`, `1`, `2`, `)` |
| Atoms.NatTextValue | lis.py:161 | the digits `str(n)` prints denote `n` |
| Atoms.AtomOfIntText | lis.py:91-94 | the text of an int is accepted by `int()` and `atom` gives that int back |
| Atoms.IntTextIsFloatText | lis.py:91-99 | every int text is also a float text, and `atom` still gives the int, because `int` is tried first |
| Atoms.NonNumericTokenIsSymbol | lis.py:91-99 | a token with no digit that is not inf/infinity/nan becomes a Symbol, never an error |
| Atoms.AtomExamples | lis.py:91-99 | `+` and `>=` are Symbols; `-5` is the int -5 |
| Reader.ReadExpr | lis.py:75-89 | on success the tokens left are a proper suffix of the input: at least one token is consumed |
| Reader.ReadList | lis.py:80-85 | on success the tokens left are a proper suffix of the input |
| Reader.TokenList.constructor | lis.py:73 | the list holds the given tokens |
| Reader.TokenList.ReadFromTokens | lis.py:75-89 | popping in place gives the value `ReadExpr` reads and leaves exactly the tokens it leaves; on failure the error is the same |
| Reader.ParseProgram | lis.py:71-73 | reading from a fresh token list is `Parse` |
| Reader.ReadSyntaxErrors | lis.py:77-87 | no tokens gives SyntaxError "unexpected EOF while reading."; a leading `)` gives SyntaxError "unexpected )" |
| Reader.ReadListErrors | lis.py:80-84 | inside an open list the only error is IndexError |
| Reader.ReadExprErrors | lis.py:75-89 | reading that does not start at `)` fails only with IndexError |
| Reader.ReadExprBalance | lis.py:75-89 | the tokens one expression uses open as many parentheses as they close |
| Reader.ReadListBalance | lis.py:80-85 | the tokens a list body uses close one more parenthesis than they open |
| Reader.ReadListUsedBalance | lis.py:80-85 | the consumed part of a list body has balance -1 |
| Reader.MissingCloseIsIndexError | lis.py:80-84 | if no prefix of the body after `(` closes more than it opens, reading is IndexError |
| Reader.ReadExprPrefix | lis.py:75-89 | only the tokens of one expression are consumed: replacing what follows them changes neither the value nor the consumption |
| Reader.ReadListPrefix | lis.py:80-85 | the same for a list body |
| Reader.ReadListStep | lis.py:82-83 | one turn of the loop appends the expression read and continues after it |
| Reader.ReadIgnoresTrailing | lis.py:71-73 | tokens after a complete expression are left unread and do not change the value |
| Printer.IntTextPlain | lis.py:161 | `str()` of an int is non-empty with no whitespace and no parenthesis |
| Printer.TokenizeShow | lis.py:154-157 | tokenizing the printed text of an int/symbol tree gives that tree's tokens |
| Printer.TokenizeShowJoined | lis.py:157 | the same for the space-joined elements of a list |
| Printer.ReadToks | lis.py:75-89 | reading a tree's tokens gives the tree back and leaves what followed |
| Printer.ReadToksJoined | lis.py:80-85 | reading the elements' tokens and a `)` gives the list back |
| Printer.ParseShow | lis.py:154-157 | `parse(schemestr(v)) == v` for every tree of ints and plain symbols |
| Printer.TokenizeThenClose | lis.py:66-68 | appending `)` to a text appends one `)` token |
| Printer.TokenizeOpenThen | lis.py:66-68 | prefixing `(` to a text prefixes one `(` token |
| Printer.ParseIgnoresExtraClose | lis.py:71-73 | one `)` too many after a printed tree is ignored and the tree is read |
| Printer.ReadUnclosed | lis.py:80-84 | elements with no closing `)` end in IndexError |
| Printer.ParseMissingClose | lis.py:71-89 | a printed list with its final `)` cut off fails with IndexError |
| Environment.Chain | lis.py:22-24 | the frames `find` visits start at the environment and only go to older frames |
| Environment.ChainDescends | lis.py:22-24 | each frame on that chain is strictly older than the one before it |
| Environment.Find | lis.py:22-24 | the frame found is on the chain and binds the name, and no frame before it on the chain does; failure is AttributeError exactly when no frame on the chain binds it |
| Environment.Lookup | lis.py:129 | `env.find(x)[x]` fails exactly when `find` does |
| Environment.Define | lis.py:141 | `env[var] = v` keeps the store well formed, adds no frame and drops no binding |
| Environment.Assign | lis.py:144 | `env.find(var)[var] = v` succeeds exactly when some frame on the chain binds the name; otherwise AttributeError |
| Environment.Params | lis.py:20 | what `zip` iterates: a list's items or a string's characters; anything else is a TypeError |
| Environment.ZipInto | lis.py:20 | `update(zip(...))` keeps every name already bound |
| Environment.ZipIntoMeaning | lis.py:20 | zipping fails exactly when one of the first min(#ps, #args) names is not a symbol; otherwise it binds each zipped name, adds no other name, and leaves every name outside the zipped ones at its old value |
| Environment.ZipLastWins | lis.py:20 | when a name occurs more than once among the zipped parameters, it is bound to the argument of its last occurrence, as `dict.update` overwrites earlier pairs |
| Environment.BindRepeatedName | lis.py:20 | `(lambda (x x) ...)` applied to a and b binds x to b alone |
| Environment.NewEnv | lis.py:19-21 | a new `Env` is a new frame at the end of the store, with the given outer; it fails exactly when binding fails |
| Environment.ZipAt | lis.py:20 | with distinct parameter names, parameter i is bound to argument i |
| Environment.ZipKeep | lis.py:20 | a name not among the zipped parameters keeps its old binding, or stays unbound |
| Environment.BindDropsExtras | lis.py:19-20 | parameter i gets argument i for i below both lengths, and nothing else is bound: extras on either side are dropped |
| Environment.BindSymbolParms | lis.py:20 | a symbol as parameter list binds its characters to the arguments |
| Environment.FindFirst | lis.py:22-24 | `find` returns this frame if it binds the name, else the outer's answer, else AttributeError at the root |
| Environment.DefineOnlyCurrentFrame | lis.py:139-141 | `define` changes only the current frame, and there only the one name |
| Environment.LookupAfterDefine | lis.py:139-141 | after `define` the name looks up to the new value |
| Environment.AssignOnlyFoundFrame | lis.py:142-144 | `set!` changes only the frame `find` returns, and the name then looks up to the new value |
| Environment.AssignSeenBySharers | lis.py:142-144 | every environment whose `find` reaches the written frame sees the new value |
| Environment.FindStable | lis.py:22-24 | rewriting existing bindings never changes what `find` returns |
| Primitives.FloorQuot | lis.py:37 | `a // b` is the floor of the quotient, also for negative operands |
| Primitives.Compare | lis.py:38-41 | comparisons of ints and bools always succeed |
| Primitives.Repeat | lis.py:36 | `s * n` has n·\|s\| items (none for n ≤ 0), all taken from `s` |
| Primitives.Extreme | lis.py:55-56 | `max`/`min` return one of the items |
| Primitives.ApplyPrimValueOk | lis.py:33-62 | no built-in returns a reference to an environment its arguments did not hold |
| Primitives.FloorDivExamples | lis.py:37 | 7 // -2 = -4, -7 // 2 = -4, 7 // 2 = 3, and division by 0 is ZeroDivisionError |
| Primitives.CarCdrCons | lis.py:46-48 | `car` and `cdr` take apart what `cons` builds |
| Primitives.ConsOntoNonList | lis.py:48 | `cons` onto a non-list is a TypeError |
| Primitives.AppendConcatenates | lis.py:44 | `append` is `+`, and on lists it concatenates: lengths add and order is kept |
| Primitives.EqualIsEq | lis.py:42-50 | `=` and `equal` are one procedure |
| Primitives.EqReflexive | lis.py:42 | without floats, every value equals itself |
| Primitives.ListEqReflexive | lis.py:42 | the same for lists, item by item |
| Primitives.EqSymmetric | lis.py:42 | `(= a b)` and `(= b a)` agree |
| Primitives.ListEqSymmetric | lis.py:42 | the same for lists, item by item |
| Primitives.EqIsStructural | lis.py:42 | on ints, symbols, None, built-ins and lists of them, `=` is structural equality |
| Primitives.ListEqIsStructural | lis.py:42 | the same for lists, item by item |
| Primitives.GtIsFlippedLt | lis.py:38-41 | `>` is `<` with the operands swapped, and `>=` is `<=` swapped |
| Primitives.StrLessIrreflexive | lis.py:38-41 | no symbol is less than itself |
| Primitives.StrLessAsymmetric | lis.py:38-41 | symbol order is asymmetric |
| Primitives.StrLessTransitive | lis.py:38-41 | symbol order is transitive, so with the two above it is a strict order |
| Primitives.ExtremeOfInts | lis.py:55-56 | over ints the scan yields the maximum (or minimum), which is one of the items |
| Primitives.MaxMinOfInts | lis.py:55-56 | `max`/`min` of a non-empty list of ints is its maximum/minimum; several arguments behave like one list |
| Primitives.MaxMinErrors | lis.py:55-56 | no arguments is a TypeError; an empty list is a ValueError; a single non-iterable is a TypeError |
| Primitives.NotNot | lis.py:57 | `not` always succeeds, and `(not (not x))` is x's truth value |
| Primitives.NullIsEmptyList | lis.py:58 | `null?` holds exactly for a list of length 0 |
| Primitives.RepeatAt | lis.py:36 | copy k of a repeated list holds the list again |
| Primitives.SeqRepeatLimits | lis.py:36 | `s * n` succeeds exactly when n fits in Py_ssize_t and n·\|s\| ≤ sys.maxsize (or n ≤ 0), and then gives the repetition; a count outside Py_ssize_t is OverflowError; a result longer than sys.maxsize is MemoryError for a list and OverflowError for a str |
| Primitives.RepeatLimitExamples | lis.py:36 | the empty list times 2^63 and the symbol `ab` times −2^63 − 1 are OverflowError; a two-item list times 5·10^18 is MemoryError |
| Primitives.WrongArgCount | lis.py:34-48 | the two-argument built-ins raise TypeError on any other count |
| Primitives.WrongArgCountUnary | lis.py:43-62 | the one-argument built-ins raise TypeError on any other count |
| Primitives.BeginLast | lis.py:45 | `begin` returns its last argument; with none it is IndexError |
| Primitives.BoolsAreInts | lis.py:34-59 | booleans add as 0/1, are numbers, and `True` equals 1 |
| Evaluator.Eval | lis.py:104-151 | evaluation only extends the store (no frame, binding or outer link is lost), and results refer only to existing environments |
| Evaluator.EvalList | lis.py:132-151 | the same for a list expression, whatever its keyword |
| Evaluator.EvalIf | lis.py:135-138 | the same for `if` |
| Evaluator.EvalDefine | lis.py:139-141 | the same for `define`, whose value is always None |
| Evaluator.EvalSet | lis.py:142-144 | the same for `set!`, whose value is always None |
| Evaluator.EvalCall | lis.py:148-151 | the same for a call |
| Evaluator.EvalArgs | lis.py:150 | one value per argument, and the store only extends |
| Evaluator.Apply | lis.py:9-14 | calling only extends the store |
| Evaluator.StandardStore | lis.py:27-64 | the root environment is one frame with no outer |
| Evaluator.SpecialFormArity | lis.py:132-147 | a special form of the wrong length is ValueError with the store untouched |
| Evaluator.EmptyListIsIndexError | lis.py:132 | `()` is the IndexError of `x[0]` |
| Evaluator.AtomsEvaluate | lis.py:128-131 | a symbol is looked up (failing exactly when `find` does); any other non-list evaluates to itself |
| Evaluator.QuoteReturnsOperand | lis.py:132-134 | `(quote e)` is `e`, unevaluated |
| Evaluator.IfTakesOneBranch | lis.py:135-138 | the test runs, then exactly one branch, chosen by truthiness, in the store the test left |
| Evaluator.DefineWritesCurrentFrame | lis.py:139-141 | the value is evaluated first, then only the current frame gains the binding; the result is None |
| Evaluator.SetWritesFoundFrame | lis.py:142-144 | the value is evaluated first, then only the frame `find` returns changes; an unbound name is AttributeError after the value ran |
| Evaluator.LambdaCapturesEnv | lis.py:145-147 | `lambda` makes a new procedure holding the current environment by reference and evaluates nothing |
| Evaluator.CallBindsFreshFrame | lis.py:9-14 | a call runs the body in a new frame holding the zipped parameters, whose outer is the captured environment |
| Evaluator.CallNonProcedure | lis.py:151 | calling anything but a built-in or a procedure is a TypeError |
| Evaluator.ArgsLeftToRight | lis.py:150 | arguments are evaluated left to right, each in the store the previous one left; the first error stops the rest |
| Evaluator.CallSteps | lis.py:148-151 | a call evaluates the operator, then the arguments, then applies; the first error ends it |
| Evaluator.ArgsWithoutEffects | lis.py:150 | arguments that each evaluate without touching the store give the list of their values |
| Evaluator.CallWithoutEffects | lis.py:148-151 | such a call applies the operator's value to the arguments' values |
| Evaluator.NoFuel | lis.py:104 | with no fuel left, evaluation stops without changing anything |
| Evaluator.EvalFuel | lis.py:104-151 | an evaluation that did not run out of fuel gives the same result and store with any more fuel |
| Evaluator.EvalListFuel | lis.py:130-151 | the same for a list expression |
| Evaluator.EvalIfFuel | lis.py:135-138 | the same for `if` |
| Evaluator.EvalDefineFuel | lis.py:139-141 | the same for `define` |
| Evaluator.EvalSetFuel | lis.py:142-144 | the same for `set!` |
| Evaluator.EvalCallFuel | lis.py:148-151 | the same for a call |
| Evaluator.EvalArgsFuel | lis.py:150 | the same for the arguments of a call |
| Evaluator.ApplyFuel | lis.py:9-14 | the same for calling a procedure |
| Machine.Interpreter.constructor | lis.py:27-64 | `Env()` updated with the built-ins is exactly the root environment |
| Machine.Interpreter.Find | lis.py:22-24 | the recursive `find` on the live frames returns what `Environment.Find` specifies |
| Machine.Interpreter.DefineVar | lis.py:141 | the in-place write leaves exactly `Environment.Define`'s store |
| Machine.Interpreter.SetVar | lis.py:144 | it writes the found frame as `Environment.Assign` specifies; an unbound name changes nothing |
| Machine.Interpreter.NewFrame | lis.py:19-21 | a new frame is appended exactly as `Environment.NewEnv` specifies |
| Machine.Interpreter.Eval | lis.py:104-151 | result and new frames are exactly `Evaluator.Eval`'s |
| Machine.Interpreter.EvalList | lis.py:132-151 | result and new frames are exactly `Evaluator.EvalList`'s |
| Machine.Interpreter.EvalIf | lis.py:135-138 | result and new frames are exactly `Evaluator.EvalIf`'s |
| Machine.Interpreter.EvalDefine | lis.py:139-141 | result and new frames are exactly `Evaluator.EvalDefine`'s |
| Machine.Interpreter.EvalSet | lis.py:142-144 | result and new frames are exactly `Evaluator.EvalSet`'s |
| Machine.Interpreter.EvalCall | lis.py:148-151 | result and new frames are exactly `Evaluator.EvalCall`'s |
| Machine.Interpreter.EvalArgs | lis.py:150 | the loop over the arguments gives exactly `Evaluator.EvalArgs`'s values and frames |
| Machine.Interpreter.Apply | lis.py:13-14 | result and new frames are exactly `Evaluator.Apply`'s |
| Scenarios.SquareR | lis.py:148-151 | where `*` and `r` = 10 are bound, `(* r r)` is 100 |
| Scenarios.SquareUnbound | lis.py:22-24 | where `r` is unbound, `(* r r)` is AttributeError |
| Scenarios.DefineThenUse | lis.py:139-141 | `(define r 10)` then `(* r r)` is 100; in a fresh root, `(* r r)` is AttributeError |
| Scenarios.BindX | lis.py:19-20 | calling with one parameter `x` and argument 1 binds exactly `{x: 1}` |
| Scenarios.CallF | lis.py:13-14 | `(f 1)` with `f = (lambda (x) (+ x y))` and `y` = 5 in the captured frame is 6 |
| Scenarios.ClosureSeesLaterDefine | lis.py:145-147 | after `(define f (lambda (x) (+ x y)))` and `(define y 5)`, `(f 1)` is 6: `y` is found at call time through the captured frame |
| Scenarios.EvalAdd | lis.py:148-151 | `(+ 1 2)` evaluates to 3 in the root environment |
| Scenarios.ParseThenEvalAdd | lis.py:71-151 | `parse("(+ 1 2)")` is the list of `+`, 1 and 2, which evaluates to 3 |
| Scenarios.RenderParse | lis.py:154-157 | `schemestr(parse("(1 2 (3 4))"))` is `"(1 2 (3 4))"` |
| Scenarios.MissingCloseExample | lis.py:80-84 | `parse("(if (> 2 1) 10 20")` fails with IndexError |
| Scenarios.ExtraCloseExample | lis.py:71-73 | `parse("(+ 1 2))")` is the list of `+`, 1 and 2; the extra `)` is ignored |

## Left out

- `repl` (lis.py:164-169) is not modelled. It is interactive I/O: `input`, `print`, and looping forever.
- The `math` bindings (lis.py:32) are not modelled. They are foreign functions and float constants from Python's `math` module.
- Float arithmetic, float comparison and float equality are not modelled. A float is kept as the text of its token. Arithmetic, comparison and `=` between a float and a number (int, bool or float), and `abs` of a float, return `Unmodelled`. With a non-number operand the model gives Python's TypeError, or False for `=`.
- Primitives.PyMul: assumes a 64-bit build (sys.maxsize = 2^63 − 1). A MemoryError from the machine running out of memory for a result shorter than sys.maxsize is not modelled.
- Float truthiness is modelled. It is decided from the token text: zero exactly when the written value rounds to 0.0.
- Printer.Show: a float prints as its token text, not Python's `repr` of the float.
- `round`, `map`, `eq?` and `procedure?` (lis.py:49, 54, 60, 61) are not bound in the root environment. In the model, looking them up is an AttributeError.
  - `eq?` is object identity, which CPython does not fix for ints.
  - `map` returns a lazy iterator.
  - `round` and `procedure?` work on floats and on Python callables.
- The `map` branch of `schemestr` (lis.py:158-159) is left out with `map`.
- Printer.Show: a built-in or a procedure prints as the fixed text `<procedure>`. Python prints an object address, which the model does not have.
- `int()` and `float()` accepting non-ASCII digits is not modelled. `atom` sees only ASCII digits. Tokens never contain whitespace, so the surrounding whitespace those functions also accept never occurs.
- `define` with a name that is neither a symbol nor a list returns `Unmodelled`. Python would store a binding under an int or other hashable key. A list as the name is the TypeError of an unhashable key, as in Python.
- Environment.ZipInto and Environment.Bind: a parameter that is neither a symbol nor a list gives `Unmodelled`. Python's `update(zip(...))` would bind it as an int or other hashable key, so `((lambda (1) 2) 3)` returns 2 in Python. A list as a parameter is the TypeError of an unhashable key, as in Python.
- Atoms.Atom: the model has no limit on the length of an integer token. CPython 3.11 and later (and security backports) refuse by default to convert more than 4300 digits (`sys.int_info.default_max_str_digits`). There `int(token)` raises ValueError, so `atom` falls through to `float(token)` and gives `inf`. The model gives the int.
- Atoms.AtomOfIntText: holds only for ints of at most 4300 digits on interpreters with that limit, for the reason above.
- Atoms.IntTextIsFloatText: "atom still gives the int" holds only for ints of at most 4300 digits on interpreters with that limit, for the reason above.
- Printer.Show: `str()` of an int of more than 4300 digits raises ValueError on interpreters with that limit. The model prints all the digits.
- Printer.ParseShow: the round trip is proved for every int. On interpreters with the 4300-digit limit it holds only for ints of at most 4300 digits.
- Comparing two lists with `<`, `>`, `<=` or `>=` returns `Unmodelled`. Python compares them lexicographically.
- Evaluator.Eval: the host recursion limit is replaced by a fuel bound. The fuel drops by one per nested `eval`. Running out is the error `OutOfFuel`, and the store is returned as it stands at that point. The model does not say how deep CPython can go.
- Evaluator.Eval requires that the expression refer only to existing environments (`ValueOk`). This is a side effect of naming environments by index. Everything `parse` produces satisfies it, because parsed text holds no procedures.
- The module-level `global_env` default argument (lis.py:101, 104) is not modelled. The root environment is passed explicitly, as `Evaluator.StandardStore()` or a new `Machine.Interpreter`.
- Error messages are not modelled, except the two SyntaxError messages of the reader. The model keeps only the exception class.
- Reader.TokenList.ReadFromTokens does not state which tokens remain after an error. `parse` discards the list, so no caller can observe them.
- Machine.Interpreter.Eval and Evaluator.Eval are split into one member for the list branch and one per special form. lis.py has a single `eval` function. The branches, their order and their effects are the same.
