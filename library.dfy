/** The function and constant tables: the names a `name` token can resolve
    to, what a function call computes (with the degree conversion of the
    trigonometric entries) and what a bare constant stands for. */
module Library {
  import opened Operators
  import opened Host

  const FunctionNames: set<string> :=
    {"sin", "cos", "tan", "asin", "acos", "atan", "log", "ln", "sqrt", "exp", "abs"}

  const ConstantNames: set<string> := {"pi", "e", "Ans"}

  const TrigNames: set<string> := {"sin", "cos", "tan", "asin", "acos", "atan"}

  /** `x * Math.PI / 180`, the angle `x` in degrees converted to radians. */
  function Radians(x: Num, env: Env): Num
  {
    env.arith(Div, env.arith(Mul, x, env.pi), Finite(180.0))
  }

  /** `v * 180 / Math.PI`, the angle `v` in radians converted to degrees. */
  function Degrees(v: Num, env: Env): Num
  {
    env.arith(Div, env.arith(Mul, v, Finite(180.0)), env.pi)
  }

  /** `trig`: in degree mode the argument is converted as `x * Math.PI / 180`
      before the library function is applied. */
  function Trig(f: MathFn, x: Num, env: Env): (r: Num)
    ensures !env.degrees ==> r == env.math(f, x)
    ensures env.degrees ==> r == env.math(f, Radians(x, env))
  {
    if env.degrees then env.math(f, Radians(x, env)) else env.math(f, x)
  }

  /** `invtrig`: in degree mode the result is converted back as `v * 180 / Math.PI`. */
  function InvTrig(f: MathFn, x: Num, env: Env): (r: Num)
    ensures !env.degrees ==> r == env.math(f, x)
    ensures env.degrees ==> r == Degrees(env.math(f, x), env)
  {
    var v := env.math(f, x);
    if env.degrees then Degrees(v, env) else v
  }

  /** The entry of the function table named `name`, applied to `x`. */
  function ApplyFunction(name: string, x: Num, env: Env): (r: Num)
    requires name in FunctionNames
    ensures name == "sin" ==> r == Trig(Sin, x, env)
    ensures name == "cos" ==> r == Trig(Cos, x, env)
    ensures name == "tan" ==> r == Trig(Tan, x, env)
    ensures name == "asin" ==> r == InvTrig(Asin, x, env)
    ensures name == "acos" ==> r == InvTrig(Acos, x, env)
    ensures name == "atan" ==> r == InvTrig(Atan, x, env)
    ensures name == "log" ==> r == env.math(Log10, x)
    ensures name == "ln" ==> r == env.math(Ln, x)
    ensures name == "sqrt" ==> r == env.math(Sqrt, x)
    ensures name == "exp" ==> r == env.math(Exp, x)
    ensures name == "abs" ==> r == env.math(Abs, x)
  {
    match name
    case "sin" => Trig(Sin, x, env)
    case "cos" => Trig(Cos, x, env)
    case "tan" => Trig(Tan, x, env)
    case "asin" => InvTrig(Asin, x, env)
    case "acos" => InvTrig(Acos, x, env)
    case "atan" => InvTrig(Atan, x, env)
    case "log" => env.math(Log10, x)
    case "ln" => env.math(Ln, x)
    case "sqrt" => env.math(Sqrt, x)
    case "exp" => env.math(Exp, x)
    case "abs" => env.math(Abs, x)
  }

  /** The value of a bare constant; `Ans` is read through its thunk, i.e.
      the answer the caller holds at the time of the evaluation. */
  function ConstantValue(name: string, env: Env): (r: Num)
    requires name in ConstantNames
    ensures name == "pi" ==> r == env.pi
    ensures name == "e" ==> r == env.e
    ensures name == "Ans" ==> r == env.ans
  {
    match name
    case "pi" => env.pi
    case "e" => env.e
    case "Ans" => env.ans
  }

  /** No name is both a function and a constant, and the angle mode matters
      only for the six trigonometric entries: every other function computes
      the same in both modes.  In radian mode each trigonometric entry is
      the bare library function; in degree mode `sin`, `cos` and `tan` are
      the radian-mode entry applied to the converted angle, and `asin`,
      `acos` and `atan` convert the radian-mode result to degrees. */
  lemma AngleModeOnlyAffectsTrig(name: string, x: Num, env: Env)
    requires name in FunctionNames
    ensures FunctionNames !! ConstantNames
    ensures name !in TrigNames ==>
      ApplyFunction(name, x, env) == ApplyFunction(name, x, env.(degrees := !env.degrees))
    ensures !env.degrees && name in TrigNames ==> ApplyFunction(name, x, env) == env.math(TrigFn(name), x)
    ensures env.degrees && name in {"sin", "cos", "tan"} ==>
      ApplyFunction(name, x, env) == ApplyFunction(name, Radians(x, env), env.(degrees := false))
    ensures env.degrees && name in {"asin", "acos", "atan"} ==>
      ApplyFunction(name, x, env) == Degrees(ApplyFunction(name, x, env.(degrees := false)), env)
  {
  }

  /** The library function behind a trigonometric entry. */
  function TrigFn(name: string): MathFn
    requires name in TrigNames
  {
    match name
    case "sin" => Sin
    case "cos" => Cos
    case "tan" => Tan
    case "asin" => Asin
    case "acos" => Acos
    case "atan" => Atan
  }
}
