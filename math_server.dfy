/**
 * The tools of the arithmetic service. Each tool normalises its arguments,
 * runs its own checks in a fixed order, and turns what it computed, or the
 * exception it met, into a response envelope:
 *   a ValueError (a rejected argument) becomes VALIDATION_ERROR with the
 *   exception's text; any other exception becomes MATH_ERROR with the tool's
 *   own prefix, except where a tool reports an OverflowError in words of its own.
 */
module MathServer {
  import opened Outcomes
  import opened PyText
  import opened PyNumbers
  import opened Envelopes
  import opened Normalizer
  import opened Evaluator

  /** The `data` of a success: `{"result": result}`. */
  datatype ResultData = ResultData(result: Val)

  type Response = Envelope<ResultData>

  /** `_ok(result)` */
  function Ok(result: Val): (r: Response)
    ensures IsSuccess(r) && r.data.value.result == result
  {
    Envelope(true, Some(ResultData(result)), None, map[])
  }

  /** `_err(message, code)`, whose code defaults to MATH_ERROR. */
  function Err(message: string, code: string := MATH_ERROR): (r: Response)
    ensures IsFailure(r) && r.error.value.message == message && r.error.value.code == code
  {
    Envelope(false, None, Some(ErrorInfo(message, code)), map[])
  }

  /**
   * The `except` clauses shared by the numeric tools: `ValueError` first,
   * then `OverflowError` where the tool has a clause for it, then `Exception`.
   */
  function Handle(body: Outcome<Response>, prefix: string, overflow: Option<string>): (r: Response)
    ensures body.Return? ==> r == body.value
    ensures body.Raise? ==> IsFailure(r)
    ensures body.Raise? ==> (r.error.value.code == VALIDATION_ERROR <==> body.exc.ValueError?)
    ensures body.Raise? && !body.exc.ValueError? ==> r.error.value.code == MATH_ERROR
    ensures body.Raise? && body.exc.ValueError? ==> r == Err(body.exc.msg, VALIDATION_ERROR)
    ensures body.Raise? && body.exc.OverflowError? && overflow.Some? ==> r == Err(overflow.value, MATH_ERROR)
    ensures body.Raise? && !body.exc.ValueError? && !(body.exc.OverflowError? && overflow.Some?) ==>
              r == Err(prefix + body.exc.Str(), MATH_ERROR)
  {
    match body
    case Return(response) => response
    case Raise(e) =>
      if e.ValueError? then Err(e.msg, VALIDATION_ERROR)
      else if e.OverflowError? && overflow.Some? then Err(overflow.value)
      else Err(prefix + e.Str())
  }

  /** The argument is rejected by the normaliser with a ValueError. */
  predicate Rejected(v: Arg) {
    Normalize(v).Raise? && Normalize(v).exc.ValueError?
  }

  /** The argument normalises to an int. */
  predicate IntegerInput(v: Arg) {
    Normalize(v).Return? && Normalize(v).value.I?
  }

  /** The code of a failure response, or the empty string for a success. */
  function Code(r: Response): string {
    if r.error.Some? then r.error.value.code else ""
  }

  /**
   * The response for an arithmetic result: the number, or the tool's prefix
   * and the exception's text (arithmetic on numbers never raises ValueError).
   */
  function Computed(result: Outcome<Num>, prefix: string): Response {
    if result.Return? then Ok(Number(result.value)) else Err(prefix + result.exc.Str(), MATH_ERROR)
  }

  /** `add`, `subtract` and `multiply`: normalise both, then apply the operator. */
  function ArithTool(op: ArithOp, a: Arg, b: Arg, prefix: string): (r: Response)
    requires op == Plus || op == Minus || op == Times
    ensures WellFormed(r)
    ensures Code(r) == VALIDATION_ERROR <==> Rejected(a) || (Normalize(a).Return? && Rejected(b))
    ensures IntegerInput(a) && IntegerInput(b) ==>
              r == Ok(Number(IntArith(op, Normalize(a).value.i, Normalize(b).value.i).value))
    ensures Normalize(a).Raise? && !Rejected(a) ==> r == Err(prefix + Normalize(a).exc.Str(), MATH_ERROR)
    ensures Rejected(a) ==> r == Err(CannotConvert(a.s), VALIDATION_ERROR)
    ensures Normalize(a).Return? && Rejected(b) ==> r == Err(CannotConvert(b.s), VALIDATION_ERROR)
    ensures Normalize(a).Return? && Normalize(b).Raise? && !Rejected(b) ==>
              r == Err(prefix + Normalize(b).exc.Str(), MATH_ERROR)
    ensures Normalize(a).Return? && Normalize(b).Return? ==>
              r == Computed(NumArith(op, Normalize(a).value, Normalize(b).value), prefix)
  {
    Handle(
      var x :- Normalize(a);
      var y :- Normalize(b);
      var result :- NumArith(op, x, y);
      Return(Ok(Number(result))),
      prefix, None)
  }

  /** `add(a, b)` */
  function Add(a: Arg, b: Arg): (r: Response)
    ensures WellFormed(r)
    ensures Code(r) == VALIDATION_ERROR <==> Rejected(a) || (Normalize(a).Return? && Rejected(b))
    ensures Rejected(a) ==> r == Err(CannotConvert(a.s), VALIDATION_ERROR)
    ensures Normalize(a).Return? && Rejected(b) ==> r == Err(CannotConvert(b.s), VALIDATION_ERROR)
    ensures Normalize(a).Raise? && !Rejected(a) ==> r == Err("Addition error: " + Normalize(a).exc.Str(), MATH_ERROR)
    ensures Normalize(a).Return? && Normalize(b).Raise? && !Rejected(b) ==>
              r == Err("Addition error: " + Normalize(b).exc.Str(), MATH_ERROR)
    ensures Normalize(a).Return? && Normalize(b).Return? ==>
              r == Computed(NumArith(Plus, Normalize(a).value, Normalize(b).value), "Addition error: ")
  {
    ArithTool(Plus, a, b, "Addition error: ")
  }

  /** `subtract(a, b)` */
  function Subtract(a: Arg, b: Arg): (r: Response)
    ensures WellFormed(r)
    ensures Code(r) == VALIDATION_ERROR <==> Rejected(a) || (Normalize(a).Return? && Rejected(b))
    ensures Rejected(a) ==> r == Err(CannotConvert(a.s), VALIDATION_ERROR)
    ensures Normalize(a).Return? && Rejected(b) ==> r == Err(CannotConvert(b.s), VALIDATION_ERROR)
    ensures Normalize(a).Raise? && !Rejected(a) ==> r == Err("Subtraction error: " + Normalize(a).exc.Str(), MATH_ERROR)
    ensures Normalize(a).Return? && Normalize(b).Raise? && !Rejected(b) ==>
              r == Err("Subtraction error: " + Normalize(b).exc.Str(), MATH_ERROR)
    ensures Normalize(a).Return? && Normalize(b).Return? ==>
              r == Computed(NumArith(Minus, Normalize(a).value, Normalize(b).value), "Subtraction error: ")
  {
    ArithTool(Minus, a, b, "Subtraction error: ")
  }

  /** `multiply(a, b)` */
  function Multiply(a: Arg, b: Arg): (r: Response)
    ensures WellFormed(r)
    ensures Code(r) == VALIDATION_ERROR <==> Rejected(a) || (Normalize(a).Return? && Rejected(b))
    ensures Rejected(a) ==> r == Err(CannotConvert(a.s), VALIDATION_ERROR)
    ensures Normalize(a).Return? && Rejected(b) ==> r == Err(CannotConvert(b.s), VALIDATION_ERROR)
    ensures Normalize(a).Raise? && !Rejected(a) ==> r == Err("Multiplication error: " + Normalize(a).exc.Str(), MATH_ERROR)
    ensures Normalize(a).Return? && Normalize(b).Raise? && !Rejected(b) ==>
              r == Err("Multiplication error: " + Normalize(b).exc.Str(), MATH_ERROR)
    ensures Normalize(a).Return? && Normalize(b).Return? ==>
              r == Computed(NumArith(Times, Normalize(a).value, Normalize(b).value), "Multiplication error: ")
  {
    ArithTool(Times, a, b, "Multiplication error: ")
  }

  /** On two int inputs `add`, `subtract` and `multiply` are exact integer arithmetic. */
  lemma ArithOnInts(a: Arg, b: Arg)
    requires IntegerInput(a) && IntegerInput(b)
    ensures Add(a, b) == Ok(Number(I(Normalize(a).value.i + Normalize(b).value.i)))
    ensures Subtract(a, b) == Ok(Number(I(Normalize(a).value.i - Normalize(b).value.i)))
    ensures Multiply(a, b) == Ok(Number(I(Normalize(a).value.i * Normalize(b).value.i)))
  {
    var x, y := Normalize(a).value.i, Normalize(b).value.i;
    assert Add(a, b) == ArithTool(Plus, a, b, "Addition error: ") == Ok(Number(IntArith(Plus, x, y).value));
    assert Subtract(a, b) == ArithTool(Minus, a, b, "Subtraction error: ") == Ok(Number(IntArith(Minus, x, y).value));
    assert Multiply(a, b) == ArithTool(Times, a, b, "Multiplication error: ") == Ok(Number(IntArith(Times, x, y).value));
  }

  /**
   * A success of `add`, `subtract` or `multiply` holds an int exactly when
   * both inputs normalise to ints, and a float otherwise.
   */
  lemma ArithResultKind(op: ArithOp, a: Arg, b: Arg, prefix: string)
    requires op == Plus || op == Minus || op == Times
    requires ArithTool(op, a, b, prefix).ok
    ensures var x := ArithTool(op, a, b, prefix).data.value.result;
            && x.Number?
            && (x.n.I? <==> IntegerInput(a) && IntegerInput(b))
            && (x.n.F? <==> !(IntegerInput(a) && IntegerInput(b)))
  {
    assert Normalize(a).Return? && Normalize(b).Return?;
    var x, y := Normalize(a).value, Normalize(b).value;
    assert NumArith(op, x, y).Return?;
    if !(x.I? && y.I?) {
      assert NumArith(op, x, y) == FloatArith(op, x, y);
    }
  }

  /**
   * A success holds a number, which is an int exactly when both inputs
   * normalise to ints, and a float otherwise.
   */
  predicate KindFollowsInputs(r: Response, a: Arg, b: Arg) {
    r.ok ==> && r.data.Some?
             && var x := r.data.value.result;
                && x.Number?
                && (x.n.I? <==> IntegerInput(a) && IntegerInput(b))
                && (x.n.F? <==> !(IntegerInput(a) && IntegerInput(b)))
  }

  /** The same for `add`, `subtract` and `multiply` themselves. */
  lemma AddResultKind(a: Arg, b: Arg)
    ensures KindFollowsInputs(Add(a, b), a, b)
  {
    if Add(a, b).ok {
      ArithResultKind(Plus, a, b, "Addition error: ");
    }
  }

  lemma SubtractResultKind(a: Arg, b: Arg)
    ensures KindFollowsInputs(Subtract(a, b), a, b)
  {
    if Subtract(a, b).ok {
      ArithResultKind(Minus, a, b, "Subtraction error: ");
    }
  }

  lemma MultiplyResultKind(a: Arg, b: Arg)
    ensures KindFollowsInputs(Multiply(a, b), a, b)
  {
    if Multiply(a, b).ok {
      ArithResultKind(Times, a, b, "Multiplication error: ");
    }
  }

  /** `divide(a, b)`: both arguments are normalised before the divisor is tested. */
  function Divide(a: Arg, b: Arg): (r: Response)
    ensures WellFormed(r)
    ensures Code(r) == VALIDATION_ERROR <==> Rejected(a) || (Normalize(a).Return? && Rejected(b))
    ensures Normalize(a).Return? && Normalize(b).Return? && EqualsInt(Normalize(b).value, 0) ==>
              r == Err("Division by zero is not allowed", MATH_ERROR)
    ensures Rejected(a) ==> r == Err(CannotConvert(a.s), VALIDATION_ERROR)
    ensures Normalize(a).Return? && Rejected(b) ==> r == Err(CannotConvert(b.s), VALIDATION_ERROR)
    ensures Normalize(a).Raise? && !Rejected(a) ==> r == Err("Division error: " + Normalize(a).exc.Str(), MATH_ERROR)
    ensures Normalize(a).Return? && Normalize(b).Raise? && !Rejected(b) ==>
              r == Err("Division error: " + Normalize(b).exc.Str(), MATH_ERROR)
    ensures Normalize(a).Return? && Normalize(b).Return? && !EqualsInt(Normalize(b).value, 0) ==>
              r == Computed(NumArith(TrueDiv, Normalize(a).value, Normalize(b).value), "Division error: ")
  {
    Handle(
      var x :- Normalize(a);
      var y :- Normalize(b);
      if EqualsInt(y, 0) then Return(Err("Division by zero is not allowed", MATH_ERROR))
      else
        var result :- NumArith(TrueDiv, x, y);
        Return(Ok(Number(result))),
      "Division error: ", None)
  }

  /** On two int inputs and a nonzero divisor, `divide` is the true quotient whenever it fits in a float. */
  lemma DivideOnInts(a: Arg, b: Arg)
    requires IntegerInput(a) && IntegerInput(b) && Normalize(b).value.i != 0
    requires FitsFloat(Normalize(a).value.i as real / Normalize(b).value.i as real)
    ensures Divide(a, b) == Ok(Number(F(Normalize(a).value.i as real / Normalize(b).value.i as real)))
  {
    var x, y := Normalize(a).value.i, Normalize(b).value.i;
    assert !EqualsInt(I(y), 0);
    assert NumArith(TrueDiv, I(x), I(y)) == Return(F(x as real / y as real));
  }

  /** `power(base, exponent)` */
  function Power(base: Arg, exponent: Arg, lib: Library): (r: Response)
    ensures WellFormed(r)
    ensures Rejected(base) ==> r == Err(Normalize(base).exc.msg, VALIDATION_ERROR)
    ensures Normalize(base).Return? && Rejected(exponent) ==> r == Err(Normalize(exponent).exc.msg, VALIDATION_ERROR)
    ensures IntegerInput(base) && IntegerInput(exponent) && Normalize(exponent).value.i >= 0 ==>
              r == Ok(Number(I(IntPow(Normalize(base).value.i, Normalize(exponent).value.i))))
    ensures IntegerInput(base) && IntegerInput(exponent) && Normalize(base).value.i == 0 && Normalize(exponent).value.i < 0 ==>
              r == Err(if FitsFloat(Normalize(exponent).value.i as real)
                       then "Power operation error: " + "0.0 cannot be raised to a negative power"
                       else "Result too large to compute", MATH_ERROR)
    ensures Normalize(base).Raise? && !Rejected(base) ==>
              r == Err("Power operation error: " + Normalize(base).exc.Str(), MATH_ERROR)
    ensures Normalize(base).Return? && Normalize(exponent).Raise? && !Rejected(exponent) ==>
              r == Err("Power operation error: " + Normalize(exponent).exc.Str(), MATH_ERROR)
    ensures Normalize(base).Return? && Normalize(exponent).Return? &&
            !(IntegerInput(base) && IntegerInput(exponent) &&
              (Normalize(exponent).value.i >= 0 || Normalize(base).value.i == 0)) ==>
              var result := lib("**", [Number(Normalize(base).value), Number(Normalize(exponent).value)]);
              r == if result.Return? then Ok(result.value)
                   else Handle(Raise(result.exc), "Power operation error: ", Some("Result too large to compute"))
  {
    Handle(
      var x :- Normalize(base);
      var y :- Normalize(exponent);
      var result :- Pow(x, y, lib);
      Return(Ok(result)),
      "Power operation error: ", Some("Result too large to compute"))
  }

  /** `sqrt(value)`: a negative number is refused before the library is called. */
  function Sqrt(value: Arg, lib: Library): (r: Response)
    ensures WellFormed(r)
    ensures Rejected(value) ==> r == Err(Normalize(value).exc.msg, VALIDATION_ERROR)
    ensures Normalize(value).Return? && RealOf(Normalize(value).value) < 0.0 ==>
              r == Err("Square root of negative number is not a real number", MATH_ERROR)
    ensures Normalize(value).Raise? && !Rejected(value) ==>
              r == Err("Square root error: " + Normalize(value).exc.Str(), MATH_ERROR)
    ensures Normalize(value).Return? && RealOf(Normalize(value).value) >= 0.0 ==>
              var result := lib("sqrt", [Number(Normalize(value).value)]);
              r == if result.Return? then Ok(result.value) else Handle(Raise(result.exc), "Square root error: ", None)
  {
    Handle(
      var x :- Normalize(value);
      if RealOf(x) < 0.0 then Return(Err("Square root of negative number is not a real number", MATH_ERROR))
      else
        var result :- lib("sqrt", [Number(x)]);
        Return(Ok(result)),
      "Square root error: ", None)
  }

  /** The upper bound `factorial` accepts. */
  const FACTORIAL_MAX: int := 10000

  /** `int(num)` for a number the normaliser returned, integral if a float. */
  function Truncate(x: Num): int
    requires !x.C?
  {
    if x.I? then x.i else if x.r >= 0.0 then x.r.Floor else -((-x.r).Floor)
  }

  /**
   * `factorial(n)`: a non-integral float is a validation error; then, on the
   * integer value, a negative number and one above 10000 are math errors.
   */
  function FactorialTool(n: Arg): (r: Response)
    ensures WellFormed(r)
    ensures Code(r) == VALIDATION_ERROR <==>
              Rejected(n) || (Normalize(n).Return? && Normalize(n).value.F? && !IsIntegral(Normalize(n).value.r))
    ensures r.ok <==> Normalize(n).Return? && !(Normalize(n).value.F? && !IsIntegral(Normalize(n).value.r))
                      && 0 <= Truncate(Normalize(n).value) <= FACTORIAL_MAX
    ensures r.ok ==> r.data.value.result == Number(I(Factorial(Truncate(Normalize(n).value))))
    ensures (Normalize(n).Return? && !(Normalize(n).value.F? && !IsIntegral(Normalize(n).value.r))
             && Truncate(Normalize(n).value) < 0) ==> r == Err("Factorial of negative number is undefined", MATH_ERROR)
    ensures (Normalize(n).Return? && !(Normalize(n).value.F? && !IsIntegral(Normalize(n).value.r))
             && Truncate(Normalize(n).value) > FACTORIAL_MAX) ==> r == Err("Factorial too large (max 10000)", MATH_ERROR)
    ensures Normalize(n).Raise? && !Rejected(n) ==> r == Err("Factorial error: " + Normalize(n).exc.Str(), MATH_ERROR)
  {
    Handle(
      var x :- Normalize(n);
      if x.F? && !IsIntegral(x.r) then Return(Err("Factorial requires an integer", VALIDATION_ERROR))
      else
        var k := Truncate(x);
        if k < 0 then Return(Err("Factorial of negative number is undefined", MATH_ERROR))
        else if k > FACTORIAL_MAX then Return(Err("Factorial too large (max 10000)", MATH_ERROR))
        else Return(Ok(Number(I(Factorial(k))))),
      "Factorial error: ", Some("Factorial result too large"))
  }

  /** The default base of `log`, and `math.e` given as a float, select the natural logarithm. */
  predicate IsNaturalBase(base: Arg) {
    base == StrArg("e") || base == FloatArg(E)
  }

  /**
   * `log(value, base)`: the value is checked before the base is looked at;
   * the natural base is never normalised; any other base must be positive
   * and different from 1.
   */
  function Log(value: Arg, base: Arg, lib: Library): (r: Response)
    ensures WellFormed(r)
    ensures Normalize(value).Return? && RealOf(Normalize(value).value) <= 0.0 ==>
              r == Err("Logarithm requires positive number", MATH_ERROR)
    ensures Rejected(value) ==> r == Err(Normalize(value).exc.msg, VALIDATION_ERROR)
    ensures (Normalize(value).Return? && RealOf(Normalize(value).value) > 0.0 && !IsNaturalBase(base)
             && Rejected(base)) ==> r == Err(Normalize(base).exc.msg, VALIDATION_ERROR)
    ensures (Normalize(value).Return? && RealOf(Normalize(value).value) > 0.0 && !IsNaturalBase(base)
             && Normalize(base).Return? && (RealOf(Normalize(base).value) <= 0.0 || EqualsInt(Normalize(base).value, 1))) ==>
              r == Err("Logarithm base must be positive and not equal to 1", MATH_ERROR)
    ensures Normalize(value).Raise? && !Rejected(value) ==>
              r == Err("Logarithm error: " + Normalize(value).exc.Str(), MATH_ERROR)
    ensures (Normalize(value).Return? && RealOf(Normalize(value).value) > 0.0 && !IsNaturalBase(base)
             && Normalize(base).Raise? && !Rejected(base)) ==>
              r == Err("Logarithm error: " + Normalize(base).exc.Str(), MATH_ERROR)
    ensures Normalize(value).Return? && RealOf(Normalize(value).value) > 0.0 && IsNaturalBase(base) ==>
              var result := lib("log", [Number(Normalize(value).value)]);
              r == if result.Return? then Ok(result.value) else Handle(Raise(result.exc), "Logarithm error: ", None)
    ensures (Normalize(value).Return? && RealOf(Normalize(value).value) > 0.0 && !IsNaturalBase(base)
             && Normalize(base).Return? && RealOf(Normalize(base).value) > 0.0 && !EqualsInt(Normalize(base).value, 1)) ==>
              var result := lib("log", [Number(Normalize(value).value), Number(Normalize(base).value)]);
              r == if result.Return? then Ok(result.value) else Handle(Raise(result.exc), "Logarithm error: ", None)
  {
    Handle(
      var x :- Normalize(value);
      if RealOf(x) <= 0.0 then Return(Err("Logarithm requires positive number", MATH_ERROR))
      else if IsNaturalBase(base) then
        var result :- lib("log", [Number(x)]);
        Return(Ok(result))
      else
        var b :- Normalize(base);
        if RealOf(b) <= 0.0 || EqualsInt(b, 1) then
          Return(Err("Logarithm base must be positive and not equal to 1", MATH_ERROR))
        else
          var result :- lib("log", [Number(x), Number(b)]);
          Return(Ok(result)),
      "Logarithm error: ", None)
  }

  /** `sin`, `cos` and `tan`: an angle in degrees is converted to radians first. */
  function Trig(name: string, angle: Arg, unit: string, prefix: string, lib: Library): (r: Response)
    ensures WellFormed(r)
    ensures Rejected(angle) ==> r == Err(Normalize(angle).exc.msg, VALIDATION_ERROR)
    ensures Normalize(angle).Raise? && !Rejected(angle) ==> r == Err(prefix + Normalize(angle).exc.Str(), MATH_ERROR)
    ensures Normalize(angle).Return? && Lower(unit) != "degrees" ==>
              var result := lib(name, [Number(Normalize(angle).value)]);
              r == if result.Return? then Ok(result.value) else Handle(Raise(result.exc), prefix, None)
    ensures Normalize(angle).Return? && Lower(unit) == "degrees" ==>
              var radians := lib("radians", [Number(Normalize(angle).value)]);
              r == if radians.Raise? then Handle(Raise(radians.exc), prefix, None)
                   else var result := lib(name, [radians.value]);
                        if result.Return? then Ok(result.value) else Handle(Raise(result.exc), prefix, None)
  {
    Handle(
      var x :- Normalize(angle);
      var radians :- if Lower(unit) == "degrees" then lib("radians", [Number(x)]) else Return(Number(x));
      var result :- lib(name, [radians]);
      Return(Ok(result)),
      prefix, None)
  }

  function Sin(angle: Arg, unit: string, lib: Library): (r: Response)
    ensures WellFormed(r)
    ensures Rejected(angle) ==> r == Err(Normalize(angle).exc.msg, VALIDATION_ERROR)
    ensures Normalize(angle).Raise? && !Rejected(angle) ==> r == Err("Sine error: " + Normalize(angle).exc.Str(), MATH_ERROR)
    ensures Normalize(angle).Return? && Lower(unit) != "degrees" ==>
              var result := lib("sin", [Number(Normalize(angle).value)]);
              r == if result.Return? then Ok(result.value) else Handle(Raise(result.exc), "Sine error: ", None)
    ensures Normalize(angle).Return? && Lower(unit) == "degrees" ==>
              var radians := lib("radians", [Number(Normalize(angle).value)]);
              r == if radians.Raise? then Handle(Raise(radians.exc), "Sine error: ", None)
                   else var result := lib("sin", [radians.value]);
                        if result.Return? then Ok(result.value) else Handle(Raise(result.exc), "Sine error: ", None)
  {
    Trig("sin", angle, unit, "Sine error: ", lib)
  }

  function Cos(angle: Arg, unit: string, lib: Library): (r: Response)
    ensures WellFormed(r)
    ensures Rejected(angle) ==> r == Err(Normalize(angle).exc.msg, VALIDATION_ERROR)
    ensures Normalize(angle).Raise? && !Rejected(angle) ==> r == Err("Cosine error: " + Normalize(angle).exc.Str(), MATH_ERROR)
    ensures Normalize(angle).Return? && Lower(unit) != "degrees" ==>
              var result := lib("cos", [Number(Normalize(angle).value)]);
              r == if result.Return? then Ok(result.value) else Handle(Raise(result.exc), "Cosine error: ", None)
    ensures Normalize(angle).Return? && Lower(unit) == "degrees" ==>
              var radians := lib("radians", [Number(Normalize(angle).value)]);
              r == if radians.Raise? then Handle(Raise(radians.exc), "Cosine error: ", None)
                   else var result := lib("cos", [radians.value]);
                        if result.Return? then Ok(result.value) else Handle(Raise(result.exc), "Cosine error: ", None)
  {
    Trig("cos", angle, unit, "Cosine error: ", lib)
  }

  function Tan(angle: Arg, unit: string, lib: Library): (r: Response)
    ensures WellFormed(r)
    ensures Rejected(angle) ==> r == Err(Normalize(angle).exc.msg, VALIDATION_ERROR)
    ensures Normalize(angle).Raise? && !Rejected(angle) ==> r == Err("Tangent error: " + Normalize(angle).exc.Str(), MATH_ERROR)
    ensures Normalize(angle).Return? && Lower(unit) != "degrees" ==>
              var result := lib("tan", [Number(Normalize(angle).value)]);
              r == if result.Return? then Ok(result.value) else Handle(Raise(result.exc), "Tangent error: ", None)
    ensures Normalize(angle).Return? && Lower(unit) == "degrees" ==>
              var radians := lib("radians", [Number(Normalize(angle).value)]);
              r == if radians.Raise? then Handle(Raise(radians.exc), "Tangent error: ", None)
                   else var result := lib("tan", [radians.value]);
                        if result.Return? then Ok(result.value) else Handle(Raise(result.exc), "Tangent error: ", None)
  {
    Trig("tan", angle, unit, "Tangent error: ", lib)
  }

  /**
   * `calculate(expression)`: blank input is a validation error and is never
   * compiled; the stripped expression is evaluated, and every evaluator
   * failure is a math error carrying the evaluator's message.
   */
  function Calculate(expression: string, compile: Compiler, lib: Library): (r: Response)
    ensures WellFormed(r)
    ensures Code(r) == VALIDATION_ERROR <==> Strip(expression) == []
    ensures Code(r) != INTERNAL_ERROR
    ensures r.ok ==> r.data.value.result.Number?
                     && EvaluateExpression(Strip(expression), compile, lib) == Return(r.data.value.result.n)
    ensures Strip(expression) != [] && EvaluateExpression(Strip(expression), compile, lib).Raise? ==>
              r == Err(EvaluateExpression(Strip(expression), compile, lib).exc.msg, MATH_ERROR)
    ensures Strip(expression) != [] && EvaluateExpression(Strip(expression), compile, lib).Return? ==>
              r == Ok(Number(EvaluateExpression(Strip(expression), compile, lib).value))
  {
    if expression == [] || Strip(expression) == [] then Err("Expression cannot be empty", VALIDATION_ERROR)
    else
      match EvaluateExpression(Strip(expression), compile, lib)
      case Return(n) => Ok(Number(n))
      case Raise(e) =>
        if e.ValueError? then Err(e.msg, MATH_ERROR)
        else Err("Unexpected error: " + e.Str(), INTERNAL_ERROR)
  }

  /**
   * `add("hello", 1)` is a math error: "hello" contains an 'e', and the
   * decimal parser's InvalidOperation is not the ValueError the normaliser
   * converts.
   */
  lemma AddHelloIsMathError(b: Arg)
    ensures Add(StrArg("hello"), b) == Err("Addition error: " + InvalidOperation("ConversionSyntax").Str(), MATH_ERROR)
  {
    HelloIsInvalidOperation();
  }

  /** `add("abc", 1)` is a validation error: "abc" is refused by `int()`. */
  lemma AddAbcIsValidationError(b: Arg)
    ensures Add(StrArg("abc"), b) == Err("Cannot convert 'abc' to number", VALIDATION_ERROR)
  {
    AbcIsRejected();
    AbcMessage();
  }

  /** A rejected dividend is reported even when the divisor is zero. */
  lemma DivideRejectsDividendFirst()
    ensures Divide(StrArg("abc"), IntArg(0)) == Err("Cannot convert 'abc' to number", VALIDATION_ERROR)
  {
    AbcIsRejected();
    AbcMessage();
  }

  /** The divisor 0, given as an int, as "0" or as "0.0", is refused after normalisation. */
  lemma DivideByZeroForms(a: Arg)
    requires Normalize(a).Return?
    ensures Divide(a, IntArg(0)) == Err("Division by zero is not allowed", MATH_ERROR)
    ensures Divide(a, StrArg("0")) == Err("Division by zero is not allowed", MATH_ERROR)
    ensures Divide(a, StrArg("0.0")) == Err("Division by zero is not allowed", MATH_ERROR)
  {
    ZeroTextIsZero();
    ZeroPointZeroIsZero();
  }

  lemma ZeroTextIsZero()
    ensures Normalize(StrArg("0")) == Return(I(0))
  {
    DigitText('0');
  }

  /** A lone digit takes the `int()` path and normalises to the int it names. */
  lemma DigitText(c: char)
    requires IsDigit(c)
    ensures Normalize(StrArg([c])) == Return(I(c as int - '0' as int))
  {
    var s, d := [c], c as int - '0' as int;
    assert Lower(s) == [LowerChar(c)] == s;
    assert IsIntText(s);
    assert !IsIntSpace(c);
    assert StripWith(s, IsIntSpace) == s;
    assert IsGroupedDigits(s) && RemoveChar(s, '_') == s;
    assert DigitsValue(s) == d;
    assert ParseInt(s) == Some(d);
    NormalizeIntText(s, d);
  }

  lemma ZeroPointZeroIsZero()
    ensures Normalize(StrArg("0.0")) == Return(I(0))
  {
    DigitDotZero('0');
  }

  lemma FiveTextIsFive()
    ensures Normalize(StrArg("5.0")) == Return(I(5))
  {
    DigitDotZero('5');
  }

  /** A single digit followed by ".0" takes the Decimal path and comes out as the int it names. */
  lemma DigitDotZero(c: char)
    requires IsDigit(c)
    ensures Normalize(StrArg([c, '.', '0'])) == Return(I(c as int - '0' as int))
  {
    var s := [c, '.', '0'];
    assert DigitsValue([c]) == c as int - '0' as int;
    WholeDotZeroFacts([c], s);
    NormalizeDigitDotZero(s, c as int - '0' as int);
  }

  /** What the normaliser needs to know of the text `"<ds>.0"`. */
  lemma WholeDotZeroFacts(ds: string, s: string)
    requires |ds| >= 1 && AllDigits(ds) && s == ds + "." + ['0']
    ensures !IsIntText(s) && ParseDecimal(s) == Some(Dec(false, DigitsValue(ds) * 10, -1))
  {
    DotTextIsDecimal(ds, ['0']);
    ParseOneDecimalPlace(ds, '0', DigitsValue(ds) * 10);
  }

  /** `"1e3"` takes the Decimal path and comes out as the int 1000. */
  lemma ThousandInScientificNotation()
    ensures Normalize(StrArg("1e3")) == Return(I(1000))
  {
    ScientificFacts(1, 3, "1e3");
    NormalizeDecimalText("1e3", Dec(false, 1, 3));
    assert IntPow10(3) == 1000;
    FromDecimalSmallIntegral(1, 3);
  }

  /** What the normaliser needs to know of the text `"<m>e<k>"`. */
  lemma ScientificFacts(m: nat, k: nat, s: string)
    requires s == NatDigits(m) + "e" + NatDigits(k)
    ensures !IsIntText(s) && ParseDecimal(s) == Some(Dec(false, m, k))
  {
    ExponentTextIsDecimal(NatDigits(m), NatDigits(k));
    ParseScientific(m, k);
  }

  /** `factorial(5)` and `factorial("5.0")` both return 120. */
  lemma FactorialOfFive()
    ensures FactorialTool(IntArg(5)) == Ok(Number(I(120)))
    ensures FactorialTool(StrArg("5.0")) == Ok(Number(I(120)))
  {
    assert Factorial(5) == 120;
    FiveTextIsFive();
  }

  /** The three refusals of `factorial`, each with its own code. */
  lemma FactorialRefusals()
    ensures FactorialTool(FloatArg(2.5)) == Err("Factorial requires an integer", VALIDATION_ERROR)
    ensures FactorialTool(IntArg(-1)) == Err("Factorial of negative number is undefined", MATH_ERROR)
    ensures FactorialTool(IntArg(10001)) == Err("Factorial too large (max 10000)", MATH_ERROR)
    ensures FactorialTool(FloatArg(-3.0)) == Err("Factorial of negative number is undefined", MATH_ERROR)
  {
    assert !IsIntegral(2.5);
    assert IsIntegral(-3.0) && Truncate(F(-3.0)) == -3;
  }

  /** The value of `log` is checked first: a bad base is never looked at then. */
  lemma LogChecksValueFirst(base: Arg, lib: Library)
    ensures Log(IntArg(0), base, lib) == Err("Logarithm requires positive number", MATH_ERROR)
  {
  }

  /** "e" and `math.e` name the same base, and neither is normalised. */
  lemma LogNaturalBaseSpellings(value: Arg, lib: Library)
    ensures Log(value, StrArg("e"), lib) == Log(value, FloatArg(E), lib)
    ensures Normalize(value).Return? && RealOf(Normalize(value).value) > 0.0 ==>
              Log(value, StrArg("e"), lib) == Handle(
                var result :- lib("log", [Number(Normalize(value).value)]);
                Return(Ok(result)), "Logarithm error: ", None)
  {
  }

  /** Blank input is refused before anything is compiled. */
  lemma CalculateBlank(compile: Compiler, lib: Library)
    ensures Calculate("", compile, lib) == Err("Expression cannot be empty", VALIDATION_ERROR)
    ensures Calculate(" \t\n", compile, lib) == Err("Expression cannot be empty", VALIDATION_ERROR)
  {
    assert IsSpace(' ') && IsSpace('\t') && IsSpace('\n');
    assert Strip(" \t\n") == [];
  }

  /**
   * Integer arithmetic through `calculate` is exact: when the compiled
   * expression is in the integer fragment, the response carries the value of
   * the reference evaluator, whatever the library does.
   */
  lemma CalculateIntegerExact(expression: string, compile: Compiler, lib: Library, tree: Expr)
    requires Strip(expression) != [] && compile(Strip(expression)) == Return(tree)
    requires IntValue(tree).Some?
    ensures Calculate(expression, compile, lib) == Ok(Number(I(IntValue(tree).value)))
  {
    EvalIntExact(tree, lib);
  }

  /**
   * A ZeroDivisionError raised anywhere in the evaluation (`1/0`, `1//0`,
   * `5 % 0`, `1 + 1/0`, `1.5/0`) is reported as "Division by zero".
   */
  lemma CalculateDivisionByZero(expression: string, compile: Compiler, lib: Library, tree: Expr)
    requires Strip(expression) != [] && compile(Strip(expression)) == Return(tree)
    requires Eval(tree, lib).Raise? && Eval(tree, lib).exc.ZeroDivisionError?
    ensures Calculate(expression, compile, lib) == Err("Division by zero", MATH_ERROR)
  {
  }

  /** An integer division by an integer expression whose value is 0 is one such case. */
  lemma CalculateIntegerDivisionByZero(expression: string, compile: Compiler, lib: Library, l: Expr, r: Expr)
    requires Strip(expression) != [] && compile(Strip(expression)) == Return(Binary(TrueDiv, l, r))
    requires IntValue(l).Some? && IntValue(r) == Some(0)
    ensures Calculate(expression, compile, lib) == Err("Division by zero", MATH_ERROR)
  {
    EvalIntExact(l, lib);
    EvalIntExact(r, lib);
    DivisionByZeroRaises(TrueDiv, l, r, lib, I(IntValue(l).value), I(0));
    CalculateDivisionByZero(expression, compile, lib, Binary(TrueDiv, l, r));
  }

  /**
   * An expression that mentions a name outside the namespace, such as
   * `__import__`, anywhere, never succeeds: it is a math error, and when the
   * unbound name is what raised, the message names it.
   */
  lemma CalculateUnboundName(expression: string, compile: Compiler, lib: Library, tree: Expr)
    requires Strip(expression) != [] && compile(Strip(expression)) == Return(tree)
    requires !NamesBound(tree)
    ensures !Calculate(expression, compile, lib).ok && Code(Calculate(expression, compile, lib)) == MATH_ERROR
    ensures Eval(tree, lib).Raise? && Eval(tree, lib).exc.NameError? ==>
              Calculate(expression, compile, lib) == Err("Evaluation error: " + Eval(tree, lib).exc.msg, MATH_ERROR)
  {
    EvalResolvesOnlyNamespace(tree, lib);
  }

  /** Called at the root or as the right operand of an operator, the unbound name is what raises. */
  lemma CalculateUnboundCall(expression: string, compile: Compiler, lib: Library, op: ArithOp, l: Expr,
                             id: string, args: seq<Expr>)
    requires Strip(expression) != [] && id !in NAMESPACE && Eval(l, lib).Return?
    requires compile(Strip(expression)) == Return(Call(Name(id), args)) ||
             compile(Strip(expression)) == Return(Binary(op, l, Call(Name(id), args)))
    ensures Calculate(expression, compile, lib) == Err("Evaluation error: " + ("name '" + id + "' is not defined"), MATH_ERROR)
  {
    UnboundCalleeRaises(id, args, lib);
    NestedUnboundCallRaises(op, l, id, args, lib);
  }

  /** `factorial` of an int above `LONG_MAX`, such as `factorial(10**19)`, is an evaluation error. */
  lemma CalculateFactorialTooLarge(expression: string, compile: Compiler, lib: Library, arg: Expr, n: int)
    requires Strip(expression) != [] && compile(Strip(expression)) == Return(Call(Name("factorial"), [arg]))
    requires Eval(arg, lib) == Return(Number(I(n))) && n > LONG_MAX
    ensures Calculate(expression, compile, lib) ==
              Err("Evaluation error: " + "factorial() argument should not exceed 9223372036854775807", MATH_ERROR)
  {
    FactorialTooLargeRaises(arg, lib, n);
  }

  /** A name of a function, evaluated on its own, is not a number. */
  lemma CalculateNonNumeric(expression: string, compile: Compiler, lib: Library)
    requires Strip(expression) != [] && compile(Strip(expression)) == Return(Name("sqrt"))
    ensures Calculate(expression, compile, lib) ==
              Err("Evaluation error: " + ("Expression returned non-numeric: <class '" + "builtin_function_or_method" + "'>"), MATH_ERROR)
  {
    LookupCallable("sqrt");
  }

  /** A syntax error is reported with its own text. */
  lemma CalculateSyntaxError(expression: string, compile: Compiler, lib: Library, message: string)
    requires Strip(expression) != [] && compile(Strip(expression)) == Raise(SyntaxError(message))
    ensures Calculate(expression, compile, lib) == Err("Invalid expression syntax: " + message, MATH_ERROR)
  {
  }
}
