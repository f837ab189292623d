/**
 * `_evaluate_expression`: an expression is compiled, evaluated against the
 * fixed namespace `SAFE_MATH_NAMESPACE`, and every failure is turned into a
 * ValueError whose message says which kind of failure it was.
 *
 * Python's `compile` is a parameter: it yields the syntax tree of a small
 * fragment (numeric literals, names, unary minus, the arithmetic operators
 * and calls) or raises SyntaxError. The evaluator over that fragment is
 * modelled here; the library functions it calls are the `Library` parameter.
 */
module Evaluator {
  import opened Outcomes
  import opened PyText
  import opened PyNumbers

  datatype Expr =
    | Const(n: Num)
    | Name(id: string)
    | Neg(operand: Expr)
    | Binary(op: ArithOp, left: Expr, right: Expr)
    | Call(callee: Expr, args: seq<Expr>)

  /** `compile(expr, '<string>', 'eval')` */
  type Compiler = string -> Outcome<Expr>

  /**
   * `SAFE_MATH_NAMESPACE`. `__builtins__` is bound to an empty dict, so no
   * name outside this map resolves; every callable is known by its key.
   */
  const NAMESPACE: map<string, Val> := map[
    "__builtins__" := EmptyDict,
    "abs" := Callable("abs"), "round" := Callable("round"), "min" := Callable("min"),
    "max" := Callable("max"), "sum" := Callable("sum"),
    "int" := Callable("int"), "float" := Callable("float"),
    "pow" := Callable("pow"), "**" := Callable("**"),
    "+" := Callable("+"), "-" := Callable("-"), "*" := Callable("*"), "/" := Callable("/"),
    "//" := Callable("//"), "%" := Callable("%"),
    "math" := MathModule,
    "sin" := Callable("sin"), "cos" := Callable("cos"), "tan" := Callable("tan"),
    "asin" := Callable("asin"), "acos" := Callable("acos"), "atan" := Callable("atan"),
    "atan2" := Callable("atan2"),
    "sinh" := Callable("sinh"), "cosh" := Callable("cosh"), "tanh" := Callable("tanh"),
    "exp" := Callable("exp"), "log" := Callable("log"), "log10" := Callable("log10"),
    "log2" := Callable("log2"),
    "sqrt" := Callable("sqrt"), "cbrt" := Callable("cbrt"),
    "pi" := Number(F(PI)), "e" := Number(F(E)),
    "ceil" := Callable("ceil"), "floor" := Callable("floor"), "trunc" := Callable("trunc"),
    "degrees" := Callable("degrees"), "radians" := Callable("radians"),
    "factorial" := Callable("factorial"), "gcd" := Callable("gcd"), "lcm" := Callable("lcm")
  ]

  /** Name resolution: the namespace, or NameError. */
  function Lookup(id: string): (r: Outcome<Val>)
    ensures r.Return? <==> id in NAMESPACE
    ensures r.Return? ==> r.value == NAMESPACE[id]
    ensures r.Raise? ==> r.exc == NameError("name '" + id + "' is not defined")
  {
    if id in NAMESPACE then Return(NAMESPACE[id])
    else Raise(NameError("name '" + id + "' is not defined"))
  }

  function NotAnInteger(v: Val): Exc {
    TypeError("'" + TypeName(v) + "' object cannot be interpreted as an integer")
  }

  /** `math.gcd(*args)`: the gcd of the magnitudes, folded from `acc`. */
  function GcdArgs(args: seq<Val>, acc: nat): (r: Outcome<Val>)
    ensures r.Return? ==> r.value.Number? && r.value.n.I? && r.value.n.i >= 0
    ensures r.Raise? <==> exists k :: 0 <= k < |args| && !IsInt(args[k])
    ensures r.Raise? ==> r.exc.TypeError?
    decreases |args|
  {
    if args == [] then Return(Number(I(acc)))
    else if IsInt(args[0]) then
      assert forall k :: 1 <= k < |args| ==> args[k] == args[1..][k - 1];
      GcdArgs(args[1..], Gcd(acc, Abs(args[0].n.i)))
    else Raise(NotAnInteger(args[0]))
  }

  predicate IsInt(v: Val) {
    v.Number? && v.n.I?
  }

  /** `d` divides `acc` and every argument. */
  ghost predicate DividesAll(d: int, acc: int, args: seq<Val>) {
    Divides(d, acc) && forall k :: 0 <= k < |args| && IsInt(args[k]) ==> Divides(d, args[k].n.i)
  }

  /**
   * On int arguments `math.gcd` returns a common divisor of all of them (and
   * of the starting value) that every other common divisor divides.
   */
  lemma {:induction false} GcdArgsIsGcd(args: seq<Val>, acc: nat)
    requires forall k :: 0 <= k < |args| ==> IsInt(args[k])
    ensures GcdArgs(args, acc).Return?
    ensures DividesAll(GcdArgs(args, acc).value.n.i, acc, args)
    ensures forall d :: DividesAll(d, acc, args) ==> Divides(d, GcdArgs(args, acc).value.n.i)
    decreases |args|
  {
    if args == [] {
      assert acc == acc * 1;
    } else {
      var a0 := args[0].n.i;
      var rest := args[1..];
      var acc' := Gcd(acc, Abs(a0));
      assert forall k :: 1 <= k < |args| ==> args[k] == rest[k - 1];
      GcdArgsIsGcd(rest, acc');
      var g := GcdArgs(args, acc).value.n.i;
      assert g == GcdArgs(rest, acc').value.n.i;
      GcdDividesBoth(acc, Abs(a0));
      DividesTrans(g, acc', acc);
      DividesTrans(g, acc', Abs(a0));
      DividesAbs(g, a0);
      forall k | 0 <= k < |args| && IsInt(args[k]) ensures Divides(g, args[k].n.i) {
        if k > 0 {
          assert args[k] == rest[k - 1];
        }
      }
      forall d | DividesAll(d, acc, args) ensures Divides(d, g) {
        assert Divides(d, args[0].n.i);
        DividesAbs(d, a0);
        CommonDivisorDividesGcd(d, acc, Abs(a0));
        forall k | 0 <= k < |rest| && IsInt(rest[k]) ensures Divides(d, rest[k].n.i) {
          assert rest[k] == args[k + 1];
        }
        assert DividesAll(d, acc', rest);
      }
    }
  }

  /** The `lcm` lambda of the namespace, on any two values. */
  function LcmCall(a: Val, b: Val, lib: Library): Outcome<Val> {
    if Truthy(a) && Truthy(b) then
      var product :- BinaryOp(Times, a, b, lib);
      var magnitude :- AbsCall(product, lib);
      var g :- GcdArgs([a, b], 0);
      BinaryOp(FloorDiv, magnitude, g, lib)
    else Return(Number(I(0)))
  }

  /** `abs(x)` with one argument. */
  function AbsCall(x: Val, lib: Library): Outcome<Val> {
    match x
    case Number(I(i)) => Return(Number(I(Abs(i))))
    case Number(F(r)) => Return(Number(F(if r < 0.0 then -r else r)))
    case Number(C(_, _)) => lib("abs", [x])
    case _ => Raise(TypeError("bad operand type for abs(): '" + TypeName(x) + "'"))
  }

  /** The largest C `long` on a 64-bit platform: `math.factorial` refuses anything above it. */
  const LONG_MAX: int := 9223372036854775807

  /** `math.factorial(x)` with one argument. */
  function FactorialCall(x: Val): (r: Outcome<Val>)
    ensures r.Return? <==> x.Number? && x.n.I? && 0 <= x.n.i <= LONG_MAX
    ensures r.Return? ==> r.value == Number(I(Factorial(x.n.i)))
    ensures x.Number? && x.n.I? && x.n.i > LONG_MAX ==>
              r == Raise(OverflowError("factorial() argument should not exceed 9223372036854775807"))
    ensures x.Number? && x.n.I? && x.n.i < 0 ==> r == Raise(ValueError("factorial() not defined for negative values"))
    ensures !(x.Number? && x.n.I?) ==> r.Raise? && r.exc.TypeError?
  {
    if x.Number? && x.n.I? then
      if x.n.i > LONG_MAX then Raise(OverflowError("factorial() argument should not exceed 9223372036854775807"))
      else if x.n.i < 0 then Raise(ValueError("factorial() not defined for negative values"))
      else Return(Number(I(Factorial(x.n.i))))
    else Raise(NotAnInteger(x))
  }

  function ArgCount(n: nat): string {
    "(" + IntToString(n) + " given)"
  }

  /** Calling a value with positional arguments. */
  function Invoke(f: Val, args: seq<Val>, lib: Library): Outcome<Val> {
    if !f.Callable? then Raise(TypeError("'" + TypeName(f) + "' object is not callable"))
    else if f.name == "abs" then
      if |args| == 1 then AbsCall(args[0], lib)
      else Raise(TypeError("abs() takes exactly one argument " + ArgCount(|args|)))
    else if f.name == "factorial" then
      if |args| == 1 then FactorialCall(args[0])
      else Raise(TypeError("math.factorial() takes exactly one argument " + ArgCount(|args|)))
    else if f.name == "gcd" then GcdArgs(args, 0)
    else if f.name == "lcm" then
      if |args| == 0 then Raise(TypeError("<lambda>() missing 2 required positional arguments: 'a' and 'b'"))
      else if |args| == 1 then Raise(TypeError("<lambda>() missing 1 required positional argument: 'b'"))
      else if |args| > 2 then
        Raise(TypeError("<lambda>() takes 2 positional arguments but " + IntToString(|args|) + " were given"))
      else LcmCall(args[0], args[1], lib)
    else if f.name == "pow" && |args| == 2 then BinaryOp(Power, args[0], args[1], lib)
    else lib(f.name, args)
  }

  /** Python's evaluation order: operands left to right, the callee before its arguments. */
  function Eval(e: Expr, lib: Library): Outcome<Val>
    decreases e
  {
    match e
    case Const(n) => Return(Number(n))
    case Name(id) => Lookup(id)
    case Neg(x) =>
      var v :- Eval(x, lib);
      Negate(v)
    case Binary(op, l, r) =>
      var a :- Eval(l, lib);
      var b :- Eval(r, lib);
      BinaryOp(op, a, b, lib)
    case Call(callee, args) =>
      var f :- Eval(callee, lib);
      var vs :- EvalArgs(args, lib);
      Invoke(f, vs, lib)
  }

  function EvalArgs(args: seq<Expr>, lib: Library): (r: Outcome<seq<Val>>)
    ensures r.Return? ==> |r.value| == |args|
    ensures r.Return? ==> forall k :: 0 <= k < |args| ==> Eval(args[k], lib) == Return(r.value[k])
    ensures r.Raise? ==> exists k :: 0 <= k < |args| && Eval(args[k], lib) == Raise(r.exc)
                                     && forall j :: 0 <= j < k ==> Eval(args[j], lib).Return?
    decreases args
  {
    if args == [] then Return([])
    else
      var v :- Eval(args[0], lib);
      assert forall k :: 1 <= k < |args| ==> args[k] == args[1..][k - 1];
      var vs :- EvalArgs(args[1..], lib);
      Return([v] + vs)
  }

  /** The three `except` clauses: every failure becomes a ValueError. */
  function Classify(e: Exc): (r: Exc)
    ensures r.ValueError?
    ensures e.ZeroDivisionError? ==> r == ValueError("Division by zero")
    ensures e.SyntaxError? ==> r == ValueError("Invalid expression syntax: " + e.msg)
    ensures !e.ZeroDivisionError? && !e.SyntaxError? ==> r == ValueError("Evaluation error: " + e.Str())
  {
    match e
    case ZeroDivisionError(_) => ValueError("Division by zero")
    case SyntaxError(m) => ValueError("Invalid expression syntax: " + m)
    case _ => ValueError("Evaluation error: " + e.Str())
  }

  function NonNumeric(v: Val): Exc {
    ValueError("Expression returned non-numeric: <class '" + TypeName(v) + "'>")
  }

  predicate StartsWith(s: string, prefix: string) {
    |prefix| <= |s| && s[..|prefix|] == prefix
  }

  /** `_evaluate_expression(expr)` */
  function EvaluateExpression(expr: string, compile: Compiler, lib: Library): (r: Outcome<Num>)
    ensures r.Return? ==> compile(expr).Return? && Eval(compile(expr).value, lib) == Return(Number(r.value))
    ensures r.Raise? ==> r.exc.ValueError?
    ensures r.Raise? ==> r.exc.msg == "Division by zero"
                         || StartsWith(r.exc.msg, "Invalid expression syntax: ")
                         || StartsWith(r.exc.msg, "Evaluation error: ")
    ensures compile(expr).Raise? ==> r == Raise(Classify(compile(expr).exc))
    ensures compile(expr).Return? && Eval(compile(expr).value, lib).Raise? ==>
              r == Raise(Classify(Eval(compile(expr).value, lib).exc))
    ensures compile(expr).Return? && Eval(compile(expr).value, lib).Return? ==>
              var v := Eval(compile(expr).value, lib).value;
              r == if v.Number? then Return(v.n) else Raise(Classify(NonNumeric(v)))
  {
    match compile(expr)
    case Raise(e) => Raise(Classify(e))
    case Return(tree) =>
      match Eval(tree, lib)
      case Raise(e) => Raise(Classify(e))
      case Return(v) =>
        if v.Number? then Return(v.n) else Raise(Classify(NonNumeric(v)))
  }

  /** Every name an expression mentions is a key of the namespace. */
  predicate NamesBound(e: Expr)
    decreases e
  {
    match e
    case Const(_) => true
    case Name(id) => id in NAMESPACE
    case Neg(x) => NamesBound(x)
    case Binary(_, l, r) => NamesBound(l) && NamesBound(r)
    case Call(callee, args) => NamesBound(callee) && forall i :: 0 <= i < |args| ==> NamesBound(args[i])
  }

  /**
   * Fail-closed name resolution: an evaluation that returns a value has
   * resolved every name of the expression against the namespace, so nothing
   * outside the allow-list (`__import__`, `open`, ...) is ever reached.
   */
  lemma {:induction false} EvalResolvesOnlyNamespace(e: Expr, lib: Library)
    ensures Eval(e, lib).Return? ==> NamesBound(e)
    decreases e
  {
    match e
    case Const(_) =>
    case Name(id) =>
    case Neg(x) =>
      EvalResolvesOnlyNamespace(x, lib);
    case Binary(_, l, r) =>
      EvalResolvesOnlyNamespace(l, lib);
      EvalResolvesOnlyNamespace(r, lib);
    case Call(callee, args) =>
      EvalResolvesOnlyNamespace(callee, lib);
      EvalArgsResolveOnlyNamespace(args, lib);
  }

  lemma {:induction false} EvalArgsResolveOnlyNamespace(args: seq<Expr>, lib: Library)
    ensures EvalArgs(args, lib).Return? ==> forall i :: 0 <= i < |args| ==> NamesBound(args[i])
    decreases args
  {
    if args != [] && EvalArgs(args, lib).Return? {
      EvalResolvesOnlyNamespace(args[0], lib);
      EvalArgsResolveOnlyNamespace(args[1..], lib);
      forall i | 0 <= i < |args| ensures NamesBound(args[i]) {
        if i > 0 {
          assert args[i] == args[1..][i - 1];
        }
      }
    }
  }

  /** An exception raised by an operand ends the evaluation of the enclosing expression. */
  lemma SubexpressionRaises(op: ArithOp, l: Expr, r: Expr, callee: Expr, args: seq<Expr>, lib: Library)
    ensures Eval(l, lib).Raise? ==> Eval(Neg(l), lib) == Raise(Eval(l, lib).exc)
    ensures Eval(l, lib).Raise? ==> Eval(Binary(op, l, r), lib) == Raise(Eval(l, lib).exc)
    ensures Eval(l, lib).Return? && Eval(r, lib).Raise? ==> Eval(Binary(op, l, r), lib) == Raise(Eval(r, lib).exc)
    ensures Eval(callee, lib).Raise? ==> Eval(Call(callee, args), lib) == Raise(Eval(callee, lib).exc)
    ensures Eval(callee, lib).Return? && EvalArgs(args, lib).Raise? ==>
              Eval(Call(callee, args), lib) == Raise(EvalArgs(args, lib).exc)
  {
  }

  /**
   * `/`, `//` and `%` with a right operand equal to 0 raise ZeroDivisionError,
   * for int and float operands alike (unless converting the left int to a
   * float overflows first).
   */
  lemma DivisionByZeroRaises(op: ArithOp, l: Expr, r: Expr, lib: Library, x: Num, y: Num)
    requires op == TrueDiv || op == FloorDiv || op == Mod
    requires Eval(l, lib) == Return(Number(x)) && Eval(r, lib) == Return(Number(y))
    requires !x.C? && !y.C? && EqualsInt(y, 0)
    requires (x.I? && y.I?) || AsFloat(x).Return?
    ensures Eval(Binary(op, l, r), lib).Raise? && Eval(Binary(op, l, r), lib).exc.ZeroDivisionError?
  {
    if !(x.I? && y.I?) {
      assert AsFloat(y) == Return(0.0);
    }
  }

  /** `1 // 0`, `5 % 0`, `1 + 1 / 0` and `1.5 / 0` all raise ZeroDivisionError. */
  lemma DivisionByZeroExamples(lib: Library)
    ensures Eval(Binary(FloorDiv, Const(I(1)), Const(I(0))), lib).Raise? &&
            Eval(Binary(FloorDiv, Const(I(1)), Const(I(0))), lib).exc.ZeroDivisionError?
    ensures Eval(Binary(Mod, Const(I(5)), Const(I(0))), lib).Raise? &&
            Eval(Binary(Mod, Const(I(5)), Const(I(0))), lib).exc.ZeroDivisionError?
    ensures Eval(Binary(Plus, Const(I(1)), Binary(TrueDiv, Const(I(1)), Const(I(0)))), lib).Raise? &&
            Eval(Binary(Plus, Const(I(1)), Binary(TrueDiv, Const(I(1)), Const(I(0)))), lib).exc.ZeroDivisionError?
    ensures Eval(Binary(TrueDiv, Const(F(1.5)), Const(I(0))), lib).Raise? &&
            Eval(Binary(TrueDiv, Const(F(1.5)), Const(I(0))), lib).exc.ZeroDivisionError?
  {
    DivisionByZeroRaises(FloorDiv, Const(I(1)), Const(I(0)), lib, I(1), I(0));
    DivisionByZeroRaises(Mod, Const(I(5)), Const(I(0)), lib, I(5), I(0));
    DivisionByZeroRaises(TrueDiv, Const(I(1)), Const(I(0)), lib, I(1), I(0));
    SubexpressionRaises(Plus, Const(I(1)), Binary(TrueDiv, Const(I(1)), Const(I(0))), Const(I(0)), [], lib);
    DivisionByZeroRaises(TrueDiv, Const(F(1.5)), Const(I(0)), lib, F(1.5), I(0));
  }

  /** A name outside the namespace never evaluates, whatever surrounds it as callee. */
  lemma UnboundCalleeRaises(id: string, args: seq<Expr>, lib: Library)
    requires id !in NAMESPACE
    ensures Eval(Call(Name(id), args), lib) == Raise(NameError("name '" + id + "' is not defined"))
  {
  }

  /** ... and the same call as the right operand of an operator, after a left operand that evaluates. */
  lemma NestedUnboundCallRaises(op: ArithOp, l: Expr, id: string, args: seq<Expr>, lib: Library)
    requires id !in NAMESPACE && Eval(l, lib).Return?
    ensures Eval(Binary(op, l, Call(Name(id), args)), lib) == Raise(NameError("name '" + id + "' is not defined"))
  {
    UnboundCalleeRaises(id, args, lib);
    SubexpressionRaises(op, l, Call(Name(id), args), Name(id), args, lib);
  }

  /** `factorial` of an int above `LONG_MAX` raises CPython's `OverflowError`. */
  lemma FactorialTooLargeRaises(arg: Expr, lib: Library, n: int)
    requires Eval(arg, lib) == Return(Number(I(n))) && n > LONG_MAX
    ensures Eval(Call(Name("factorial"), [arg]), lib) ==
              Raise(OverflowError("factorial() argument should not exceed 9223372036854775807"))
  {
    LookupCallable("factorial");
    EvalOneArg(arg, lib);
  }

  /**
   * The integer value of an expression built from int literals with `+`, `-`,
   * `*`, `//`, `%`, `**` to a non-negative power, unary minus and calls of
   * `abs`, `factorial` (up to `LONG_MAX`) and `lcm` on such expressions: a reference evaluator
   * that never consults the library. None where the expression leaves that
   * fragment or one of its steps would raise.
   */
  function IntValue(e: Expr): Option<int>
    decreases e
  {
    match e
    case Const(n) => if n.I? then Some(n.i) else None
    case Name(_) => None
    case Neg(x) =>
      var v := IntValue(x);
      if v.Some? then Some(-v.value) else None
    case Binary(op, l, r) =>
      var a := IntValue(l);
      var b := IntValue(r);
      if a.None? || b.None? then None
      else if op == Plus then Some(a.value + b.value)
      else if op == Minus then Some(a.value - b.value)
      else if op == Times then Some(a.value * b.value)
      else if op == FloorDiv && b.value != 0 then Some(IntFloorDiv(a.value, b.value))
      else if op == Mod && b.value != 0 then Some(IntMod(a.value, b.value))
      else if op == Power && b.value >= 0 then Some(IntPow(a.value, b.value))
      else None
    case Call(callee, args) =>
      if callee == Name("abs") && |args| == 1 then
        var v := IntValue(args[0]);
        if v.Some? then Some(Abs(v.value)) else None
      else if callee == Name("factorial") && |args| == 1 then
        var v := IntValue(args[0]);
        if v.Some? && 0 <= v.value <= LONG_MAX then Some(Factorial(v.value)) else None
      else if callee == Name("lcm") && |args| == 2 then
        var a := IntValue(args[0]);
        var b := IntValue(args[1]);
        if a.Some? && b.Some? then Some(LcmLambda(a.value, b.value)) else None
      else None
  }

  lemma GcdWithZero(b: nat)
    ensures Gcd(0, b) == b
  {
    if b != 0 {
      assert Gcd(0, b) == Gcd(b, 0);
    }
  }

  lemma GcdArgsPair(a: int, b: int)
    ensures GcdArgs([Number(I(a)), Number(I(b))], 0) == Return(Number(I(Gcd(Abs(a), Abs(b)))))
  {
    var args := [Number(I(a)), Number(I(b))];
    assert args[1..] == [Number(I(b))];
    assert [Number(I(b))][1..] == [];
    GcdWithZero(Abs(a));
    assert GcdArgs(args, 0) == GcdArgs([Number(I(b))], Abs(a));
  }

  /** The `lcm` lambda applied to two ints computes `LcmLambda`. */
  lemma LcmCallOnInts(a: int, b: int, lib: Library)
    ensures LcmCall(Number(I(a)), Number(I(b)), lib) == Return(Number(I(LcmLambda(a, b))))
  {
    if a != 0 && b != 0 {
      var g := Gcd(Abs(a), Abs(b));
      GcdPositive(Abs(a), Abs(b));
      GcdArgsPair(a, b);
      assert BinaryOp(Times, Number(I(a)), Number(I(b)), lib) == Return(Number(I(a * b)));
      assert AbsCall(Number(I(a * b)), lib) == Return(Number(I(Abs(a * b))));
      assert BinaryOp(FloorDiv, Number(I(Abs(a * b))), Number(I(g)), lib) == Return(Number(I(IntFloorDiv(Abs(a * b), g))));
    }
  }

  lemma LookupCallable(id: string)
    requires id == "abs" || id == "factorial" || id == "lcm" || id == "sqrt"
    ensures Lookup(id) == Return(Callable(id))
  {
    assert NAMESPACE[id] == Callable(id);
  }

  lemma EvalOneArg(x: Expr, lib: Library)
    requires Eval(x, lib).Return?
    ensures EvalArgs([x], lib) == Return([Eval(x, lib).value])
  {
    assert [x][0] == x && [x][1..] == [];
    assert EvalArgs([], lib) == Return([]);
    assert [Eval(x, lib).value] + [] == [Eval(x, lib).value];
  }

  lemma EvalTwoArgs(x: Expr, y: Expr, lib: Library)
    requires Eval(x, lib).Return? && Eval(y, lib).Return?
    ensures EvalArgs([x, y], lib) == Return([Eval(x, lib).value, Eval(y, lib).value])
  {
    assert [x, y][0] == x && [x, y][1..] == [y];
    EvalOneArg(y, lib);
    assert [Eval(x, lib).value] + [Eval(y, lib).value] == [Eval(x, lib).value, Eval(y, lib).value];
  }

  /**
   * Integer arithmetic is exact: on the integer fragment the evaluator agrees
   * with the reference evaluator, whatever the library does.
   */
  lemma {:induction false} EvalIntExact(e: Expr, lib: Library)
    requires IntValue(e).Some?
    ensures Eval(e, lib) == Return(Number(I(IntValue(e).value)))
    decreases e
  {
    match e
    case Const(_) =>
    case Name(_) =>
    case Neg(x) =>
      EvalIntExact(x, lib);
    case Binary(op, l, r) =>
      EvalIntExact(l, lib);
      EvalIntExact(r, lib);
    case Call(callee, args) =>
      forall k | 0 <= k < |args| && IntValue(args[k]).Some?
        ensures Eval(args[k], lib) == Return(Number(I(IntValue(args[k]).value)))
      {
        EvalIntExact(args[k], lib);
      }
      EvalIntCallExact(callee, args, lib);
  }

  /** A call on the integer fragment is exact once its arguments are. */
  lemma EvalIntCallExact(callee: Expr, args: seq<Expr>, lib: Library)
    requires IntValue(Call(callee, args)).Some?
    requires forall k :: 0 <= k < |args| && IntValue(args[k]).Some? ==>
               Eval(args[k], lib) == Return(Number(I(IntValue(args[k]).value)))
    ensures Eval(Call(callee, args), lib) == Return(Number(I(IntValue(Call(callee, args)).value)))
  {
    if callee == Name("lcm") {
      LookupCallable("lcm");
      assert args == [args[0], args[1]];
      EvalTwoArgs(args[0], args[1], lib);
      LcmCallOnInts(IntValue(args[0]).value, IntValue(args[1]).value, lib);
    } else if callee == Name("abs") {
      LookupCallable("abs");
      assert args == [args[0]];
      EvalOneArg(args[0], lib);
    } else {
      assert callee == Name("factorial");
      LookupCallable("factorial");
      assert args == [args[0]];
      EvalOneArg(args[0], lib);
    }
  }
}
