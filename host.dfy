/** The JavaScript world the expression engine runs in: numbers, the values
    its stacks hold, its errors, and the host library (double arithmetic,
    `Math`, `parseFloat`) as uninterpreted operations carried by `Env`. */
module Host {
  import opened Operators

  datatype Option<T> = None | Some(value: T)

  /** Every `Error` the engine throws, one constructor per message. */
  datatype Error =
    | InvalidChar(c: char)               // 'Invalid char: ' + c
    | MisplacedComma                     // 'Misplaced comma'
    | MismatchedClose                    // 'Mismatched )'
    | MismatchedOpen                     // 'Mismatched ('
    | MathDomainError                    // 'Math domain error'
    | InvalidCall                        // 'Invalid call'
    | UnknownFunction(name: string)      // 'Unknown function: ' + name
    | FunctionMissingParentheses         // 'Function missing parentheses'
    | UnknownIdentifier(name: string)    // 'Unknown identifier: ' + name
    | InvalidExpression                  // 'Invalid expression'
    | InvalidFactorial                   // 'Invalid factorial'
    | FactorialNeedsInteger              // 'n! requires integer n'
    | NPrInvalid | NPrRange | NCrInvalid | NCrRange
    | InvalidCharacters                  // 'Invalid characters'
    | ResultNotFinite                    // 'Result not finite', raised by the caller

  datatype Result<T> = Ok(value: T) | Err(error: Error)

  /** A JavaScript number: a finite double (the real number it denotes),
      NaN, or one of the two infinities. */
  datatype Num = Finite(value: real) | NaN | Infinity(negative: bool)

  /** Unary minus on a double; exact in IEEE arithmetic. */
  function Negate(x: Num): (r: Num)
    ensures r.Finite? <==> x.Finite?
    ensures x.Finite? ==> r.value == -x.value
    ensures x.NaN? ==> r.NaN?
    ensures x.Infinity? ==> r == Infinity(!x.negative)
  {
    match x
    case Finite(v) => Finite(-v)
    case NaN => NaN
    case Infinity(neg) => Infinity(!neg)
  }

  /** The JavaScript values that reach the engine's stacks and results:
      numbers, unresolved `name` token objects, `undefined` (what `pop` of an
      empty array gives) and the empty string returned for blank input. */
  datatype Value = Number(num: Num) | NameRef(name: string) | Undefined | EmptyString

  /** JavaScript's `Number.isFinite`, which does not coerce its argument. */
  predicate IsFiniteValue(v: Value)
  {
    v.Number? && v.num.Finite?
  }

  /** The numeric coercion an arithmetic operator or a `Math` function
      applies to its operand: a token object and `undefined` both become NaN. */
  function ToNumber(v: Value): (n: Num)
    ensures v.Number? ==> n == v.num
    ensures v.NameRef? || v.Undefined? ==> n == NaN
  {
    match v
    case Number(n) => n
    case NameRef(_) => NaN
    case Undefined => NaN
    case EmptyString => Finite(0.0)
  }

  /** The `Math` functions the function table calls. */
  datatype MathFn = Sin | Cos | Tan | Asin | Acos | Atan | Log10 | Ln | Sqrt | Exp | Abs

  /** Everything the engine reads from outside: the host's double arithmetic
      for `+ - * / %` and `Math.pow` (`arith`, only ever given a binary
      operator), the `Math` functions, `parseFloat`, the constants `Math.PI`
      and `Math.E`, the degree/radian toggle and the last answer `Ans`. */
  datatype Env = Env(
    parseFloat: string -> Num,
    arith: (Operator, Num, Num) -> Num,
    math: (MathFn, Num) -> Num,
    pi: Num,
    e: Num,
    degrees: bool,
    ans: Num)

  /** IEEE 754 behaviour of NaN that some lemmas rely on: arithmetic with a
      NaN operand gives NaN, except that `Math.pow(NaN, 0)` is 1, and every
      `Math` function maps NaN to NaN. */
  ghost predicate PropagatesNaN(env: Env)
  {
    && (forall op: Operator, y: Num :: env.arith(op, NaN, y) == NaN || (op == Pow && y == Finite(0.0)))
    && (forall op: Operator, x: Num :: env.arith(op, x, NaN) == NaN)
    && (forall f: MathFn :: env.math(f, NaN) == NaN)
  }
}
