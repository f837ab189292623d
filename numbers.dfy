/**
 * Python's numbers as the arithmetic service sees them, the binary operators
 * it applies to them, and the exact integer functions of its namespace.
 *
 * A float is represented by the exact value of the double; the rounding that
 * float arithmetic performs is not modelled. Converting an int to a float is
 * modelled exactly, including the OverflowError for ints out of float range.
 */
module PyNumbers {
  import opened Outcomes
  import opened PyText

  datatype Num = I(i: int) | F(r: real) | C(re: real, im: real)

  /**
   * What a name or an expression can evaluate to: a number, one of the
   * callables of the evaluation namespace (by its name there), the `math`
   * module, or the empty dict bound to `__builtins__`.
   */
  datatype Val = Number(n: Num) | Callable(name: string) | MathModule | EmptyDict

  /**
   * Library code the model does not look into: the functions of the `math`
   * module, the remaining builtins of the namespace, and float or complex
   * exponentiation, called by name with their arguments.
   */
  type Library = (string, seq<Val>) -> Outcome<Val>

  /** 2^1024 - 2^970: the smallest magnitude that rounds past the largest double. */
  const FLOAT_LIMIT: int := 179769313486231580793728971405303415079934132710037826936173778980444968292764750946649017977587207096330286416692887910946555547851940402630657488671505820681908902000708383676273854845817711531764475730270069855571366959622842914819860834936475292719074168444365510704342711559699508093042880177904174497792

  /** `math.pi` and `math.e`: the exact values of the two doubles. */
  const PI: real := 3.141592653589793115997963468544185161590576171875
  const E: real := 2.718281828459045090795598298427648842334747314453125

  predicate FitsFloat(x: real) {
    -(FLOAT_LIMIT as real) < x < FLOAT_LIMIT as real
  }

  /** `type(v).__name__` */
  function TypeName(v: Val): string {
    match v
    case Number(I(_)) => "int"
    case Number(F(_)) => "float"
    case Number(C(_, _)) => "complex"
    case Callable(name) =>
      if name == "int" || name == "float" then "type"
      else if name == "cbrt" || name == "lcm" then "function"
      else "builtin_function_or_method"
    case MathModule => "module"
    case EmptyDict => "dict"
  }

  /** Python truthiness, as `a and b` tests it. */
  predicate Truthy(v: Val) {
    match v
    case Number(I(i)) => i != 0
    case Number(F(r)) => r != 0.0
    case Number(C(re, im)) => re != 0.0 || im != 0.0
    case EmptyDict => false
    case _ => true
  }

  /** The value of an int or float operand. */
  function RealOf(n: Num): real
    requires !n.C?
  {
    if n.I? then n.i as real else n.r
  }

  /** Python's `==` between a number and an int constant. */
  predicate EqualsInt(n: Num, k: int) {
    match n
    case I(i) => i == k
    case F(r) => r == k as real
    case C(re, im) => re == k as real && im == 0.0
  }

  /** `float(n)` applied implicitly to an int or float operand of a mixed operation. */
  function AsFloat(n: Num): (r: Outcome<real>)
    requires !n.C?
    ensures r.Return? ==> r.value == RealOf(n)
    ensures r.Raise? <==> n.I? && !FitsFloat(n.i as real)
  {
    match n
    case I(i) =>
      if FitsFloat(i as real) then Return(i as real)
      else Raise(OverflowError("int too large to convert to float"))
    case F(x) => Return(x)
  }

  /** The implicit conversion of an operand of a complex operation. */
  function AsComplex(n: Num): Outcome<(real, real)> {
    match n
    case C(re, im) => Return((re, im))
    case I(i) =>
      if FitsFloat(i as real) then Return((i as real, 0.0))
      else Raise(OverflowError("int too large to convert to float"))
    case F(x) => Return((x, 0.0))
  }

  datatype ArithOp = Plus | Minus | Times | TrueDiv | FloorDiv | Mod | Power {
    /** The operator as Python's error messages spell it. */
    function Symbol(): string {
      match this
      case Plus => "+"
      case Minus => "-"
      case Times => "*"
      case TrueDiv => "/"
      case FloorDiv => "//"
      case Mod => "%"
      case Power => "** or pow()"
    }
  }

  /** Python's `//` on ints: the quotient rounded towards minus infinity. */
  function IntFloorDiv(x: int, y: int): int
    requires y != 0
  {
    if y > 0 then x / y else (-x) / (-y)
  }

  /** Python's `%` on ints: the remainder takes the sign of the divisor. */
  function IntMod(x: int, y: int): int
    requires y != 0
  {
    x - y * IntFloorDiv(x, y)
  }

  /** Python's `divmod` identity and the sign rule of `%`. */
  lemma FloorDivModIdentity(x: int, y: int)
    requires y != 0
    ensures x == y * IntFloorDiv(x, y) + IntMod(x, y)
    ensures y > 0 ==> 0 <= IntMod(x, y) < y
    ensures y < 0 ==> y < IntMod(x, y) <= 0
    ensures IntFloorDiv(x, y) as real <= x as real / y as real < IntFloorDiv(x, y) as real + 1.0
  {
    var q := IntFloorDiv(x, y);
    if y > 0 {
      assert x == y * q + x % y;
    } else {
      assert -x == -y * q + (-x) % (-y);
    }
    var m := IntMod(x, y);
    assert x as real == y as real * q as real + m as real;
    if y > 0 {
      assert x as real / y as real == q as real + m as real / y as real;
    } else {
      assert x as real / y as real == q as real + (-m) as real / (-y) as real;
    }
  }

  /** An operator other than `**` applied to two ints: exact, except that `/` yields a float. */
  function IntArith(op: ArithOp, x: int, y: int): Outcome<Num>
    requires op != Power
  {
    match op
    case Plus => Return(I(x + y))
    case Minus => Return(I(x - y))
    case Times => Return(I(x * y))
    case TrueDiv =>
      if y == 0 then Raise(ZeroDivisionError("division by zero"))
      else if !FitsFloat(x as real / y as real) then Raise(OverflowError("integer division result too large for a float"))
      else Return(F(x as real / y as real))
    case FloorDiv =>
      if y == 0 then Raise(ZeroDivisionError("integer division or modulo by zero"))
      else Return(I(IntFloorDiv(x, y)))
    case Mod =>
      if y == 0 then Raise(ZeroDivisionError("integer modulo by zero"))
      else Return(I(IntMod(x, y)))
  }

  /** An operator other than `**` on int and float operands, at least one a float. */
  function FloatArith(op: ArithOp, a: Num, b: Num): Outcome<Num>
    requires op != Power && !a.C? && !b.C?
  {
    var x :- AsFloat(a);
    var y :- AsFloat(b);
    match op
    case Plus => Return(F(x + y))
    case Minus => Return(F(x - y))
    case Times => Return(F(x * y))
    case TrueDiv =>
      if y == 0.0 then Raise(ZeroDivisionError("float division by zero")) else Return(F(x / y))
    case FloorDiv =>
      if y == 0.0 then Raise(ZeroDivisionError("float floor division by zero")) else Return(F((x / y).Floor as real))
    case Mod =>
      if y == 0.0 then Raise(ZeroDivisionError("float modulo")) else Return(F(x - y * (x / y).Floor as real))
  }

  /** An operator other than `**` with at least one complex operand. */
  function ComplexArith(op: ArithOp, a: Num, b: Num): Outcome<Num>
    requires op != Power
  {
    match op
    case FloorDiv | Mod =>
      Raise(TypeError("unsupported operand type(s) for " + op.Symbol() + ": '"
                      + TypeName(Number(a)) + "' and '" + TypeName(Number(b)) + "'"))
    case Plus =>
      var (ar, ai) :- AsComplex(a);
      var (br, bi) :- AsComplex(b);
      Return(C(ar + br, ai + bi))
    case Minus =>
      var (ar, ai) :- AsComplex(a);
      var (br, bi) :- AsComplex(b);
      Return(C(ar - br, ai - bi))
    case Times =>
      var (ar, ai) :- AsComplex(a);
      var (br, bi) :- AsComplex(b);
      Return(C(ar * br - ai * bi, ar * bi + ai * br))
    case TrueDiv =>
      var (ar, ai) :- AsComplex(a);
      var (br, bi) :- AsComplex(b);
      var d := br * br + bi * bi;
      if d == 0.0 then Raise(ZeroDivisionError("complex division by zero"))
      else Return(C((ar * br + ai * bi) / d, (ai * br - ar * bi) / d))
  }

  /** A binary operator other than `**` on two numbers, as Python dispatches it. */
  function NumArith(op: ArithOp, a: Num, b: Num): (r: Outcome<Num>)
    requires op != Power
    ensures r.Raise? ==> !r.exc.ValueError?
  {
    if a.I? && b.I? then IntArith(op, a.i, b.i)
    else if a.C? || b.C? then ComplexArith(op, a, b)
    else FloatArith(op, a, b)
  }

  function IntPow(b: int, e: nat): int
    decreases e
  {
    if e == 0 then 1 else b * IntPow(b, e - 1)
  }

  /**
   * `a ** b` (and two-argument `pow`): exact for an int raised to a
   * non-negative int; zero raised to a negative int raises; every other case
   * is float or complex exponentiation, left to the library.
   */
  function Pow(a: Num, b: Num, lib: Library): Outcome<Val> {
    if a.I? && b.I? && b.i >= 0 then Return(Number(I(IntPow(a.i, b.i))))
    else if a.I? && b.I? && a.i == 0 then
      if FitsFloat(b.i as real) then Raise(ZeroDivisionError("0.0 cannot be raised to a negative power"))
      else Raise(OverflowError("int too large to convert to float"))
    else lib("**", [Number(a), Number(b)])
  }

  /** A binary operator on two values: only numbers support arithmetic. */
  function BinaryOp(op: ArithOp, x: Val, y: Val, lib: Library): Outcome<Val> {
    if !x.Number? || !y.Number? then
      Raise(TypeError("unsupported operand type(s) for " + op.Symbol() + ": '"
                      + TypeName(x) + "' and '" + TypeName(y) + "'"))
    else if op == Power then Pow(x.n, y.n, lib)
    else
      var r :- NumArith(op, x.n, y.n);
      Return(Number(r))
  }

  /** Unary minus. */
  function Negate(x: Val): Outcome<Val> {
    match x
    case Number(I(i)) => Return(Number(I(-i)))
    case Number(F(r)) => Return(Number(F(-r)))
    case Number(C(re, im)) => Return(Number(C(-re, -im)))
    case _ => Raise(TypeError("bad operand type for unary -: '" + TypeName(x) + "'"))
  }

  function Abs(x: int): nat {
    if x < 0 then -x else x
  }

  /** `math.factorial(n)` for a non-negative int. */
  function Factorial(n: nat): (r: nat)
    ensures r >= 1
    decreases n
  {
    if n == 0 then 1 else n * Factorial(n - 1)
  }

  /** Euclid's algorithm on non-negative ints. */
  function Gcd(a: nat, b: nat): nat
    decreases b
  {
    if b == 0 then a else Gcd(b, a % b)
  }

  /** `d` divides `n` (every int divides 0). */
  ghost predicate Divides(d: int, n: int) {
    exists k: int :: n == d * k
  }

  /**
   * The `lcm` entry of the namespace, on two ints:
   * `abs(a * b) // math.gcd(a, b) if a and b else 0`.
   */
  function LcmLambda(a: int, b: int): int {
    if a != 0 && b != 0 then
      GcdPositive(Abs(a), Abs(b));
      IntFloorDiv(Abs(a * b), Gcd(Abs(a), Abs(b)))
    else 0
  }

  lemma {:induction false} GcdPositive(a: nat, b: nat)
    requires a != 0 || b != 0
    ensures Gcd(a, b) > 0
    decreases b
  {
    if b != 0 {
      GcdPositive(b, a % b);
    }
  }

  lemma {:induction false} GcdDividesBoth(a: nat, b: nat)
    ensures Divides(Gcd(a, b), a) && Divides(Gcd(a, b), b)
    decreases b
  {
    if b == 0 {
      assert a == a * 1 && 0 == a * 0;
    } else {
      GcdDividesBoth(b, a % b);
      var g := Gcd(b, a % b);
      var k1 :| b == g * k1;
      var k2 :| a % b == g * k2;
      calc {
        a;
        b * (a / b) + a % b;
        g * k1 * (a / b) + g * k2;
        g * (k1 * (a / b) + k2);
      }
    }
  }

  lemma DividesTrans(a: int, b: int, c: int)
    requires Divides(a, b) && Divides(b, c)
    ensures Divides(a, c)
  {
    var k1 :| b == a * k1;
    var k2 :| c == b * k2;
    MulAssoc(a, k1, k2);
    assert c == a * (k1 * k2);
  }

  /** A divisor of `n` is a divisor of its magnitude, and the converse. */
  lemma DividesAbs(d: int, n: int)
    ensures Divides(d, Abs(n)) <==> Divides(d, n)
  {
    if n < 0 {
      if Divides(d, n) {
        var k :| n == d * k;
        assert Abs(n) == d * (-k);
      }
      if Divides(d, Abs(n)) {
        var k :| Abs(n) == d * k;
        assert n == d * (-k);
      }
    }
  }

  /** Every common divisor of `a` and `b` divides their gcd, so the gcd is the greatest. */
  lemma CommonDivisorDividesGcd(d: int, a: nat, b: nat)
    requires Divides(d, a) && Divides(d, b)
    ensures Divides(d, Gcd(a, b))
  {
    var x, y := Bezout(a, b);
    var s :| a == d * s;
    var t :| b == d * t;
    FactorOut(d, s, t, x, y);
    assert Gcd(a, b) == d * (s * x + t * y);
  }

  lemma FactorOut(d: int, s: int, t: int, x: int, y: int)
    ensures (d * s) * x + (d * t) * y == d * (s * x + t * y)
  {
    MulAssoc(d, s, x);
    MulAssoc(d, t, y);
  }

  /** Bezout coefficients of Euclid's gcd. */
  lemma {:induction false} Bezout(a: nat, b: nat) returns (x: int, y: int)
    ensures a * x + b * y == Gcd(a, b)
    decreases b
  {
    if b == 0 {
      x, y := 1, 0;
    } else {
      var x', y' := Bezout(b, a % b);
      var q := a / b;
      assert a % b == a - b * q;
      x, y := y', x' - q * y';
      BezoutStep(a, b, q, a % b, x', y');
    }
  }

  /** One step of the extended Euclidean algorithm keeps the combination's value. */
  lemma BezoutStep(a: int, b: int, q: int, r: int, x: int, y: int)
    requires r == a - b * q
    ensures a * y + b * (x - q * y) == b * x + r * y
  {
    assert b * (x - q * y) == b * x - b * q * y;
    assert r * y == a * y - b * q * y;
  }

  lemma AbsMul(a: int, b: int)
    ensures Abs(a * b) == Abs(a) * Abs(b)
  {
    if a < 0 && b < 0 {
      assert a * b == (-a) * (-b);
    } else if a < 0 {
      assert -(a * b) == (-a) * b;
    } else if b < 0 {
      assert -(a * b) == a * (-b);
    }
  }

  lemma PositiveFactor(g: int, k: int)
    requires g > 0 && g * k > 0
    ensures k > 0
  {
  }

  lemma CancelLeft(g: int, x: int, y: int)
    requires g > 0 && g * x == g * y
    ensures x == y
  {
  }

  lemma ExactFloorDiv(n: int, g: int, q: int)
    requires g > 0 && n == g * q
    ensures IntFloorDiv(n, g) == q
  {
    var d, r := n / g, n % g;
    assert n == g * d + r && 0 <= r < g;
    assert g * (q - d) == r;
    if q - d >= 1 {
      MulMonotone(g, 1, q - d);
    } else if q - d <= -1 {
      MulMonotone(g, q - d, -1);
    }
  }

  lemma MulMonotone(g: int, x: int, y: int)
    requires g > 0 && x <= y
    ensures g * x <= g * y
  {
  }

  lemma BezoutCombination(g: int, pa: int, pb: int, x: int, y: int, m: int, s: int, t: int)
    requires g == pa * x + pb * y
    requires m == pa * s && m == pb * t
    ensures g * m == pa * pb * (t * x + s * y)
  {
    calc {
      g * m;
      pa * x * m + pb * y * m;
      { assert pa * x * m == pa * x * (pb * t) == pa * pb * (t * x); }
      pa * pb * (t * x) + pb * y * m;
      { assert pb * y * m == pb * y * (pa * s) == pa * pb * (s * y); }
      pa * pb * (t * x) + pa * pb * (s * y);
    }
  }

  /**
   * With `g` the gcd of |a| and |b|, |a| == g * a1 and |b| == g * b1, and the
   * lambda returns `a1 * |b|`, the exact quotient of |a * b| by `g`.
   */
  lemma LcmParts(a: int, b: int) returns (g: nat, a1: nat, b1: nat)
    requires a != 0 && b != 0
    ensures g > 0 && g == Gcd(Abs(a), Abs(b))
    ensures Abs(a) == g * a1 && Abs(b) == g * b1
    ensures LcmLambda(a, b) == a1 * Abs(b)
  {
    g := Gcd(Abs(a), Abs(b));
    GcdPositive(Abs(a), Abs(b));
    GcdDividesBoth(Abs(a), Abs(b));
    var ka :| Abs(a) == g * ka;
    var kb :| Abs(b) == g * kb;
    PositiveFactor(g, ka);
    PositiveFactor(g, kb);
    a1, b1 := ka, kb;
    AbsMul(a, b);
    MulAssoc(g, a1, Abs(b));
    ExactFloorDiv(Abs(a * b), g, a1 * Abs(b));
  }

  lemma MulAssoc(x: int, y: int, z: int)
    ensures (x * y) * z == x * (y * z)
  {
  }

  /** The `lcm` entry of the namespace returns a non-negative common multiple of its arguments. */
  lemma LcmLambdaIsCommonMultiple(a: int, b: int)
    ensures a == 0 || b == 0 ==> LcmLambda(a, b) == 0
    ensures a != 0 && b != 0 ==> LcmLambda(a, b) > 0 && Divides(a, LcmLambda(a, b)) && Divides(b, LcmLambda(a, b))
  {
    if a != 0 && b != 0 {
      var g, a1, b1 := LcmParts(a, b);
      var l := LcmLambda(a, b);
      PositiveFactor(g, a1);
      PositiveProduct(a1, Abs(b));
      SignedCofactor(b, a1, l);
      Reassociate(a1, g, b1);
      SignedCofactor(a, b1, l);
    }
  }

  lemma PositiveProduct(x: int, y: int)
    requires x > 0 && y > 0
    ensures x * y > 0
  {
  }

  lemma Reassociate(x: int, y: int, z: int)
    ensures x * (y * z) == z * (y * x)
  {
  }

  /** A multiple of |x| is a multiple of x. */
  lemma SignedCofactor(x: int, c: int, l: int)
    requires l == c * Abs(x)
    ensures Divides(x, l)
  {
    var w := if x < 0 then -c else c;
    assert l == x * w;
  }

  /** ... and it divides every common multiple, so it is the least positive one. */
  lemma LcmLambdaDividesCommonMultiples(a: int, b: int, m: int)
    requires a != 0 && b != 0
    requires Divides(a, m) && Divides(b, m)
    ensures Divides(LcmLambda(a, b), m)
    ensures m > 0 ==> LcmLambda(a, b) <= m
  {
    var g, a1, b1 := LcmParts(a, b);
    var l := LcmLambda(a, b);
    var k := LcmQuotient(a, b, m, g, a1);
    if m > 0 {
      LcmLambdaIsCommonMultiple(a, b);
      PositiveFactor(l, k);
      assert l * k >= l * 1;
    }
  }

  lemma LcmQuotient(a: int, b: int, m: int, g: nat, a1: nat) returns (k: int)
    requires a != 0 && b != 0
    requires Divides(a, m) && Divides(b, m)
    requires g > 0 && g == Gcd(Abs(a), Abs(b)) && Abs(a) == g * a1
    requires LcmLambda(a, b) == a1 * Abs(b)
    ensures m == LcmLambda(a, b) * k
  {
    var pa, pb := Abs(a), Abs(b);
    var x, y := Bezout(pa, pb);
    var s' := AbsCofactor(a, m);
    var t' := AbsCofactor(b, m);
    k := t' * x + s' * y;
    BezoutCombination(g, pa, pb, x, y, m, s', t');
    CancelGcd(g, pa, pb, a1, k, m);
  }

  lemma CancelGcd(g: int, pa: int, pb: int, a1: int, k: int, m: int)
    requires g > 0 && pa == g * a1 && g * m == pa * pb * k
    ensures m == a1 * pb * k
  {
    assert pa * pb * k == g * (a1 * pb * k);
    CancelLeft(g, m, a1 * pb * k);
  }

  lemma AbsCofactor(a: int, m: int) returns (s: int)
    requires Divides(a, m)
    ensures m == Abs(a) * s
  {
    var k :| m == a * k;
    if a < 0 {
      s := -k;
      assert a * k == (-a) * (-k);
    } else {
      s := k;
    }
  }
}
