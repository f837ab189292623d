# DosiBridge MCP tools: the arithmetic service and the people service

This project models the two tool services of the DosiBridge MCP server and proves properties of the models in Dafny.

**The arithmetic service** (`math_server.py`) works like this:

- Each tool normalises its arguments with `_safe_convert_number`.
- It then runs its own checks in a fixed order.
- It wraps the outcome in the envelope `{ok, data, error, meta}`.
- A `ValueError` becomes `VALIDATION_ERROR`. Any other exception becomes `MATH_ERROR` with a tool-specific prefix.
- `calculate` compiles an expression and evaluates it against a fixed namespace. It sorts every failure into one of three message families.

**The people service** (`people.py`) returns two hard-coded founder profiles.

- When the About page can be fetched, each profile also gets the paragraph of that page that mentions the person.
- `dosibridge_people` returns both profiles at once. When the fetch fails, it reports the failure with an error code.

## Files

| file | module | contents |
|---|---|---|
| `outcomes.dfy` | `Outcomes` | `Option`, the exception classes, and `Outcome` (the value a call returns or the exception it raises) |
| `envelopes.dfy` | `Envelopes` | the response envelope, the error-code vocabulary and what a well-formed envelope is |
| `pytext.dfy` | `PyText` | the string builtins the core uses: `strip`, `lower`, `find`, `rfind`, `str(int)` |
| `numbers.dfy` | `PyNumbers` | int, float and complex values, the binary operators, and `abs`, `math.factorial`, `math.gcd` and the `lcm` lambda |
| `normalizer.dfy` | `Normalizer` | `_safe_convert_number`: the `int()` and `Decimal()` parsers and the integral-or-float decision |
| `evaluator.dfy` | `Evaluator` | `SAFE_MATH_NAMESPACE`, an evaluator for a small expression fragment, and `_evaluate_expression` |
| `math_server.dfy` | `MathServer` | `_ok`, `_err`, the eleven numeric tools and `calculate` |
| `people.dfy` | `People` | `_ok`, `_err`, `_extract_person_snippet`, `_fetch_about_markdown`, and the four tools |

## Behaviour the model keeps as the code has it

- **`add("hello", 1)` is a `MATH_ERROR`, but `add("abc", 1)` is a `VALIDATION_ERROR`.**
  - Text that contains `.` or `e` goes to `Decimal`. When `Decimal` cannot parse it, it raises `decimal.InvalidOperation`, which is not a `ValueError`.
  - The normaliser's `except (ValueError, TypeError)` therefore does not convert it.
  - The tool's generic handler reports `"Addition error: [<class 'decimal.ConversionSyntax'>]"`.
  - See `MathServer.AddHelloIsMathError` and `MathServer.AddAbcIsValidationError`.
- **`divide` normalises both arguments before it tests the divisor.** A dividend that `int()` refuses therefore gives `VALIDATION_ERROR`, even when the divisor is 0 (`MathServer.DivideRejectsDividendFirst`).
- **`factorial` of a negative number is a `MATH_ERROR`**, while a non-integral float is a `VALIDATION_ERROR` (`MathServer.FactorialRefusals`).
- **`Decimal` text at or above 10^100 in magnitude raises `InvalidOperation` (DivisionImpossible).**
  - At the service's precision of 100 digits, `dec % 1` signals `DivisionImpossible` once the integer part needs more than 100 digits.
  - That exception also escapes the normaliser, and the tool reports it as a `MATH_ERROR`.
- **The info tools are always `ok` when the fetch fails with an HTTP error or a `ValueError`.** This covers a missing key and a body that is not JSON.
  - If the scraping API returns JSON that is not an object, `data.get` raises `AttributeError`.
  - No tool catches that exception, so every tool raises it.

## Model

| member | source | states |
|---|---|---|
| `MathServer.Ok` | math_server.py:13-15 | a success envelope: `ok`, the result under `data.result`, no error, empty `meta` |
| `MathServer.Err` | math_server.py:17-19 | a failure envelope: not `ok`, no data, the message and code (default `MATH_ERROR`), empty `meta` |
| `MathServer.Handle` | math_server.py:108-111 | the shared `except` clauses: a `ValueError` gives `VALIDATION_ERROR` with the exception's own text, and only a `ValueError` does; an `OverflowError`, where the tool has a clause for it, gives that clause's message; any other exception gives `MATH_ERROR` with the tool's prefix followed by `str(e)`; a normal return passes through |
| `Normalizer.Normalize` | math_server.py:21-35 | ints and floats pass through unchanged; never a complex; a `ValueError` is raised exactly on the `int()` path and carries "Cannot convert '<v>' to number"; every other failure is an `InvalidOperation` |
| `Normalizer.PrecisionLimitIsPow10` | math_server.py:8 | the written-out bound used by `FromDecimal` is 10 to the precision of 100 digits set at start-up |
| `Normalizer.FromDecimal` | math_server.py:30-33 | raises `DivisionImpossible` exactly when the magnitude reaches 10^100; otherwise an integral value becomes the int, and any other value becomes a float holding exactly that decimal value, not the nearest double |
| `Normalizer.ParseIntOfIntToString` | math_server.py:27-28 | `int(str(n)) == n` for every int `n` |
| `Normalizer.NormalizeIntegerText` | math_server.py:27-28 | the decimal text of any int normalises to that int |
| `Normalizer.ParseOneDecimalPlace` | math_server.py:30 | `Decimal` of a run of digits, a '.' and one more digit d has exponent -1 and as coefficient ten times the digits' value plus d |
| `Normalizer.NormalizeOneDecimalPlace` | math_server.py:30-33 | decimal text worth n + d/10 normalises to the int n when d = 0, and to that float otherwise |
| `Normalizer.ParseScientific` | math_server.py:30 | `Decimal("<m>e<k>")` is m·10^k |
| `Normalizer.FromDecimalIntegral` | math_server.py:31-32 | m·10^k becomes the int m·10^k below 10^100, and raises `DivisionImpossible` from there on |
| `Normalizer.NormalizeIntegralDecimal` | math_server.py:27-33 | text off the `int()` path that parses as m·10^k normalises to that int, or raises `DivisionImpossible` |
| `Normalizer.NormalizeIntText` | math_server.py:27-28 | text on the `int()` path that `int()` accepts normalises to the int it denotes |
| `Normalizer.FromDecimalSmallIntegral` | math_server.py:31-32 | an integral decimal below 100000 becomes its int |
| `Normalizer.NormalizeRejectsIntText` | math_server.py:27-35 | text on the `int()` path that `int()` refuses raises the normaliser's `ValueError` |
| `Normalizer.NormalizeDecimalSyntax` | math_server.py:30-35 | text off the `int()` path that `Decimal` refuses raises `InvalidOperation`, not `ValueError` |
| `Normalizer.HelloIsInvalidOperation` | math_server.py:27-35 | "hello" goes to `Decimal` because of its 'e', and raises `ConversionSyntax` |
| `Normalizer.AbcIsRejected` | math_server.py:27-35 | "abc" goes to `int()` and is refused with the normaliser's `ValueError` for "abc" |
| `MathServer.ArithTool` | math_server.py:100-137 | `VALIDATION_ERROR` exactly when an argument is refused with a `ValueError` (the first argument is checked first), carrying that argument's message; another normaliser exception of either argument gives `MATH_ERROR` with the tool's prefix and `str(e)`; on two normalised numbers the response is the operator's result, or its exception with the prefix; exact integer arithmetic on two int inputs |
| `MathServer.Add` | math_server.py:100-111 | `VALIDATION_ERROR` exactly when an argument is refused, with "Cannot convert '<v>' to number" for the first refused one; another normaliser exception gives "Addition error: " and `str(e)`; two numbers give their sum, or the prefixed exception |
| `MathServer.Subtract` | math_server.py:113-124 | `VALIDATION_ERROR` exactly when an argument is refused, with "Cannot convert '<v>' to number" for the first refused one; another normaliser exception gives "Subtraction error: " and `str(e)`; two numbers give their difference, or the prefixed exception |
| `MathServer.Multiply` | math_server.py:126-137 | `VALIDATION_ERROR` exactly when an argument is refused, with "Cannot convert '<v>' to number" for the first refused one; another normaliser exception gives "Multiplication error: " and `str(e)`; two numbers give their product, or the prefixed exception |
| `MathServer.ArithOnInts` | math_server.py:100-137 | on two int inputs, `add`, `subtract` and `multiply` return the exact integer sum, difference and product |
| `MathServer.ArithResultKind` | math_server.py:100-137 | a success of the shared arithmetic tool holds an int exactly when both inputs normalise to ints, and a float otherwise |
| `MathServer.AddResultKind` | math_server.py:100-111 | the same for `add` |
| `MathServer.SubtractResultKind` | math_server.py:113-124 | the same for `subtract` |
| `MathServer.MultiplyResultKind` | math_server.py:126-137 | the same for `multiply` |
| `MathServer.Divide` | math_server.py:139-152 | `VALIDATION_ERROR` exactly when an argument is refused, with that argument's message; another normaliser exception gives "Division error: " and `str(e)`; any divisor equal to 0, once both are normalised, gives "Division by zero is not allowed" with `MATH_ERROR`; any other divisor gives the true quotient, or the prefixed exception |
| `MathServer.DivideOnInts` | math_server.py:139-152 | on two int inputs and a nonzero divisor, `divide` returns the float of the real quotient a/b whenever it fits in a float |
| `MathServer.Power` | math_server.py:154-167 | a refused base or exponent gives `VALIDATION_ERROR` with its message, and another normaliser exception gives "Power operation error: " and `str(e)`; an int base with a non-negative int exponent gives the exact power; 0 to a negative int gives "Power operation error: 0.0 cannot be raised to a negative power", or "Result too large to compute" when the exponent is beyond float range; any other pair gives the library's result, or its exception through the shared clauses with the overflow message "Result too large to compute" |
| `MathServer.Sqrt` | math_server.py:169-181 | a refused value gives `VALIDATION_ERROR`, and another normaliser exception gives "Square root error: " and `str(e)`; a negative value gives `MATH_ERROR` with its own message; any other value gives the library's `sqrt`, or its exception through the shared clauses |
| `MathServer.FactorialTool` | math_server.py:183-202 | `VALIDATION_ERROR` exactly for a refused argument or a non-integral float; `ok` exactly for an integral input from 0 to 10000, with n!; a negative input and an input above 10000 each get their own `MATH_ERROR`; another normaliser exception gives "Factorial error: " and `str(e)` |
| `MathServer.Log` | math_server.py:204-222 | a value ≤ 0 is refused before the base is looked at; a refused value or base gives `VALIDATION_ERROR`, and another normaliser exception gives "Logarithm error: " and `str(e)`; a base ≤ 0 or equal to 1 gives `MATH_ERROR`; the natural base gives the library's one-argument `log` and any other valid base the two-argument one, or their exception through the shared clauses |
| `MathServer.Trig` | math_server.py:224-264 | a refused angle gives `VALIDATION_ERROR`, and another normaliser exception gives the tool's prefix and `str(e)`; an angle in radians goes straight to the library function; an angle in degrees (in any case) goes through `radians` first; an exception of either call goes through the shared clauses |
| `MathServer.Sin` | math_server.py:224-236 | as `Trig`, for the sine with "Sine error: ": radians straight to the library, degrees through `radians` first |
| `MathServer.Cos` | math_server.py:238-250 | as `Trig`, for the cosine with "Cosine error: ": radians straight to the library, degrees through `radians` first |
| `MathServer.Tan` | math_server.py:252-264 | as `Trig`, for the tangent with "Tangent error: ": radians straight to the library, degrees through `radians` first |
| `MathServer.Calculate` | math_server.py:79-98 | `VALIDATION_ERROR` exactly for blank input; never `INTERNAL_ERROR`; the number the evaluator returns is the success's result, and every success carries such a number; an evaluator failure is a `MATH_ERROR` with its message |
| `MathServer.AddHelloIsMathError` | math_server.py:100-111 | `add("hello", b)` is a `MATH_ERROR` reporting `ConversionSyntax` |
| `MathServer.AddAbcIsValidationError` | math_server.py:100-111 | `add("abc", b)` is a `VALIDATION_ERROR` |
| `MathServer.DivideRejectsDividendFirst` | math_server.py:142-150 | `divide("abc", 0)` is a `VALIDATION_ERROR`, not a division by zero |
| `MathServer.DivideByZeroForms` | math_server.py:143-146 | the divisors 0, "0" and "0.0" are all refused as a division by zero |
| `MathServer.DigitText` | math_server.py:27-28 | a lone digit takes the `int()` path and normalises to the int it names |
| `MathServer.ZeroTextIsZero` | math_server.py:27-28 | "0" normalises to the int 0 |
| `MathServer.DigitDotZero` | math_server.py:27-32 | a single digit followed by ".0" skips `int()` and normalises to the int that digit names |
| `MathServer.ZeroPointZeroIsZero` | math_server.py:30-32 | "0.0" normalises to the int 0 |
| `MathServer.FiveTextIsFive` | math_server.py:30-32 | "5.0" normalises to the int 5 |
| `MathServer.ThousandInScientificNotation` | math_server.py:30-32 | "1e3" normalises to the int 1000 |
| `MathServer.FactorialOfFive` | math_server.py:186-196 | `factorial(5)` and `factorial("5.0")` both return 120 |
| `MathServer.FactorialRefusals` | math_server.py:188-194 | 2.5 gives `VALIDATION_ERROR`; -1, -3.0 and 10001 each give their own `MATH_ERROR` |
| `MathServer.LogChecksValueFirst` | math_server.py:208-210 | `log(0, base)` is refused whatever the base |
| `MathServer.LogNaturalBaseSpellings` | math_server.py:211-212 | the bases "e" and `math.e` behave the same, and neither is normalised |
| `MathServer.CalculateBlank` | math_server.py:91-92 | empty and whitespace-only expressions are refused before compiling |
| `MathServer.CalculateIntegerExact` | math_server.py:90-94 | an expression in the integer fragment (with `factorial` up to 2^63 - 1) returns exactly its value |
| `MathServer.CalculateDivisionByZero` | math_server.py:72-73 | a `ZeroDivisionError` raised anywhere while evaluating is reported as "Division by zero" |
| `MathServer.CalculateIntegerDivisionByZero` | math_server.py:72-73 | `/` by an integer expression whose value is 0 is one such case |
| `MathServer.CalculateUnboundName` | math_server.py:37-55 | an expression that mentions a name outside the namespace anywhere never succeeds and is a `MATH_ERROR`; when the unbound name is what raised, the message is "Evaluation error: " and the `NameError` text |
| `MathServer.CalculateFactorialTooLarge` | math_server.py:76-77 | `factorial` of an int above 2^63 - 1, such as `factorial(10**19)`, is a `MATH_ERROR` reporting "Evaluation error: factorial() argument should not exceed 9223372036854775807" |
| `MathServer.CalculateUnboundCall` | math_server.py:76-77 | calling an unbound name at the root, or as the right operand of an operator, reports "Evaluation error: name '…' is not defined" |
| `MathServer.CalculateNonNumeric` | math_server.py:69-77 | the name `sqrt` evaluated on its own is not a number; the evaluator's own `ValueError` is caught again and reported as "Evaluation error: Expression returned non-numeric: …" |
| `MathServer.CalculateSyntaxError` | math_server.py:74-75 | a syntax error is reported as "Invalid expression syntax: " followed by its text |
| `Evaluator.Lookup` | math_server.py:38-55 | a name resolves exactly when it is a key of the namespace; any other name raises `NameError` |
| `Evaluator.EvaluateExpression` | math_server.py:57-77 | a compile error, an evaluation error and a non-numeric result each raise the `ValueError` that `Classify` gives them; a numeric result is returned as it is; every failure message is "Division by zero" or starts with "Invalid expression syntax: " or "Evaluation error: " |
| `Evaluator.Classify` | math_server.py:72-77 | `ZeroDivisionError` becomes "Division by zero", `SyntaxError` becomes "Invalid expression syntax: " and its text, and any other exception becomes "Evaluation error: " and `str(e)`, always as a `ValueError` |
| `Evaluator.EvalResolvesOnlyNamespace` | math_server.py:38-62 | an expression that evaluates names nothing outside the namespace |
| `Evaluator.EvalArgsResolveOnlyNamespace` | math_server.py:38-62 | the same for argument lists |
| `Evaluator.UnboundCalleeRaises` | math_server.py:39-62 | calling an unbound name raises `NameError` before any argument is evaluated |
| `Evaluator.EvalIntExact` | math_server.py:40-62 | on the integer fragment, where `factorial` is applied only up to 2^63 - 1, the evaluator agrees with the reference evaluator `IntValue` and never consults the library |
| `Evaluator.FactorialCall` | math_server.py:54 | `math.factorial` returns n! exactly for an int from 0 to 2^63 - 1; above that it raises `OverflowError`, below 0 `ValueError`, and on a non-int `TypeError`, each with CPython's message |
| `Evaluator.FactorialTooLargeRaises` | math_server.py:54 | a call of `factorial` on an int above 2^63 - 1 raises that `OverflowError` |
| `Evaluator.GcdArgs` | math_server.py:54 | `math.gcd` raises exactly when some argument is not an int, and then a `TypeError`; otherwise it returns a non-negative int |
| `Evaluator.GcdArgsIsGcd` | math_server.py:54 | on int arguments, `math.gcd` returns a common divisor of all of them that every common divisor divides: the greatest common divisor |
| `Evaluator.EvalArgs` | math_server.py:61-62 | arguments are evaluated left to right: a success holds each argument's own value, and a failure is the exception of the first argument that raises, every earlier one having evaluated |
| `Evaluator.SubexpressionRaises` | math_server.py:61-62 | an exception raised by an operand, a callee or an argument ends the evaluation of the enclosing expression with that exception |
| `Evaluator.DivisionByZeroRaises` | math_server.py:42-43 | `/`, `//` and `%` with a right operand equal to 0 raise `ZeroDivisionError` on int and float operands |
| `Evaluator.DivisionByZeroExamples` | math_server.py:42-43 | `1 // 0`, `5 % 0`, `1 + 1 / 0` and `1.5 / 0` all raise `ZeroDivisionError` |
| `Evaluator.NestedUnboundCallRaises` | math_server.py:37-55 | an unbound call as the right operand of an operator raises its `NameError` |
| `Evaluator.LcmCallOnInts` | math_server.py:54 | the `lcm` entry called on two ints computes `LcmLambda` |
| `PyNumbers.LcmLambdaIsCommonMultiple` | math_server.py:54 | the `lcm` lambda is 0 when an argument is 0, and otherwise a positive common multiple of both |
| `PyNumbers.LcmLambdaDividesCommonMultiples` | math_server.py:54 | it divides every common multiple, so it is the least positive one |
| `PyNumbers.GcdDividesBoth` | math_server.py:54 | `math.gcd` divides both arguments |
| `PyNumbers.NumArith` | math_server.py:43-44 | the binary operators other than `**` never raise `ValueError` on numbers, so an evaluation error is never a validation error |
| `PyNumbers.Bezout` | math_server.py:54 | `math.gcd` is an integer combination of its arguments |
| `PyNumbers.CommonDivisorDividesGcd` | math_server.py:54 | every common divisor of two numbers divides their gcd |
| `PyNumbers.FloorDivModIdentity` | math_server.py:44 | Python's `//` and `%` on ints: `x == y*(x//y) + x%y`, the remainder has the divisor's sign, and the quotient is the floor |
| `PyNumbers.AsFloat` | math_server.py:43 | an int converts to a float exactly when it is in range, and raises `OverflowError` otherwise |
| `People.Ok` | people.py:11-12 | a success envelope with the data unwrapped |
| `People.Err` | people.py:15-16 | a failure envelope with the message and code |
| `People.MentionIndex` | people.py:80-82 | -1 exactly when the keywords do not occur, ignoring case; otherwise the first place where they occur |
| `People.ParagraphStart` | people.py:86-88 | 0 when no blank line lies wholly before the mention; otherwise just after the last one |
| `People.ParagraphEnd` | people.py:87-89 | the first blank line at or after the mention, or the end of the text |
| `People.ExtractPersonSnippet` | people.py:78-93 | never longer than 1200 characters; without a mention, exactly the first 600 characters of the page |
| `People.SnippetIsPieceOfText` | people.py:78-93 | the snippet is always a contiguous piece of the page |
| `People.SnippetOfShortParagraph` | people.py:91-93 | when the stripped paragraph is under 200 characters, the snippet is up to 800 characters of the page from the mention on, and begins with the keywords in some case |
| `People.SnippetOfLongParagraph` | people.py:86-93 | otherwise the snippet is the first 1200 characters of the stripped paragraph, which surrounds the mention |
| `People.FetchAboutMarkdown` | people.py:65-75 | a missing key raises `ValueError` before any request; an HTTP failure raises `HTTPError`; a body that is not JSON raises `ValueError`; JSON that is not an object raises `AttributeError`; a truthy markdown field wins, then a truthy content field, each returned as it is when a string and through `str()` otherwise; "" when neither field is truthy |
| `People.InfoTool` | people.py:96-117 | `ok` exactly when the fetch succeeded or failed with a caught exception; a fetched page adds the snippet to the profile and keeps every profile field; a caught failure gives the bare profile |
| `People.SazibInfo` | people.py:96-105 | as `InfoTool`, for Abdullah Al Sazib's profile and keywords: `ok` and well formed exactly when the fetch succeeded or raised a caught exception, the snippet added on success, the bare profile on a caught exception, and any other exception propagated unchanged |
| `People.MihadulInfo` | people.py:108-117 | as `InfoTool`, for Mihadul Islam's profile and keywords: `ok` and well formed exactly when the fetch succeeded or raised a caught exception, the snippet added on success, the bare profile on a caught exception, and any other exception propagated unchanged |
| `People.PeopleRecord` | people.py:127-131 | the data of a success: the page address and both annotated profiles, under three keys |
| `People.DosibridgePeople` | people.py:120-134 | `ok` exactly when the page was fetched; an HTTP failure gives `HTTP_ERROR`; a `ValueError` gives `CONFIG_ERROR`; both carry the exception's text |
| `People.AboutPageCrawl` | people.py:47-62 | a missing key gives `CONFIG_ERROR`; an HTTP failure gives `HTTP_ERROR`; a reply that is not JSON, or JSON that is not an object, is not caught; a truthy markdown field wins, then a truthy content field, then the whole reply |
| `People.NoKeyBehaviour` | people.py:51-134 | without a key, the info tools return the bare profiles, and the other two tools give `CONFIG_ERROR` |
| `People.HttpFailureBehaviour` | people.py:104-134 | an HTTP failure is hidden by the info tools and reported by `dosibridge_people` as `HTTP_ERROR` |
| `People.PeopleAgreesWithInfoTools` | people.py:96-131 | on the same page, `dosibridge_people` reports each person exactly as that person's own tool does |
| `People.ProfilesHaveNoSnippet` | people.py:26-44 | the hard-coded profiles have no snippet field, so adding one overwrites nothing |
| `PyText.Find` | people.py:82 | `str.find`: the first occurrence at or after the start, or -1 when there is none |
| `PyText.RFind` | people.py:86 | `str.rfind` with an end: the last occurrence lying wholly before the end, or -1 |
| `PyText.StripWith` | people.py:90 | `str.strip`: a slice whose characters before and after it are all whitespace and whose ends are not, so the widest such slice; empty exactly for all-whitespace text |
| `PyText.Lower` | people.py:80-81 | `str.lower` keeps the length and lowers each character |

## Left out

- The bound of `math.factorial` (`LONG_MAX`, 2^63 - 1) is the C `long` of a 64-bit Unix platform. Where `long` has 32 bits, as on Windows, CPython refuses from 2^31 on; the model does not cover that.
- Floating-point rounding is not modelled.
  - A float is an exact real number, not limited to the values a double can hold.
  - A float quotient, power or conversion is exact, so results are not rounded.
  - Infinities, NaN, underflow and -0.0 do not arise.
- `Normalizer.FromDecimal`: a non-integral decimal becomes its exact value, not the nearest double that `float()` gives. Where that rounding changes whether the value is integral, zero or negative, the model takes a different branch from the program, as the next four lines show.
- `MathServer.FactorialTool`: "1.00000000000000000001" rounds to 1.0, which the program accepts as an integer and answers with 1; the model refuses it with `VALIDATION_ERROR`.
- `MathServer.Divide`: a divisor "1e-400" rounds to 0.0, which the program refuses as a division by zero; the model computes a quotient.
- `MathServer.Sqrt`: "-1e-400" rounds to -0.0, which is not below 0, so the program calls `sqrt`; the model reports a negative number.
- `MathServer.Log`: "1e-400" rounds to 0.0, which the program refuses as not positive; the model calls the library.
- The `math` functions (`sqrt`, `log`, the trigonometric functions, `radians` and the others in the namespace), float and complex exponentiation, and complex `abs` are a parameter of the model (`Library`). Only the calls the tools make to them are modelled.
- `compile` and `eval` are not modelled as CPython implements them.
  - Compilation is a parameter that yields the tree of a small fragment or raises `SyntaxError`. The fragment has numeric literals, names, unary minus, the seven arithmetic operators and calls.
  - Attributes (`math.pi`), comparisons, boolean operators, string and `None` literals and keyword arguments are outside the fragment.
- `Decimal` input values are not modelled; the tools' arguments are ints, floats and text.
- The limit on the exponent of a `Decimal` is not modelled, and neither is the 4300-digit limit on converting between `int` and text.
- Python's whitespace and lowering are modelled only for characters below U+0100.
  - `int()` and `Decimal()` also accept Unicode digits beyond ASCII; the model does not.
  - Characters whose lowering changes the text's length do not occur below U+0100.
- In the model, `str(e)` of an exception is its message. For `InvalidOperation` it is the condition list that `decimal` prints.
- The actual HTTP requests to the scraping API are left out.
  - The tools take what fetching the About page returned or raised.
  - `FetchAboutMarkdown` and `AboutPageCrawl` take the key and the outcome of the exchange.
  - Python's `str` of a non-string JSON value is a parameter.
- The order of keys in the JSON objects is not modelled; they are maps.
- The MCP transport, `server.py`, `main.py` and `jack.py` are not part of this model. Neither are the HTTP tools of `web.py` and `weather.py` nor the wall clock.
- The one-time global precision assignment at math_server.py:8 is modelled as the constant precision 100.
