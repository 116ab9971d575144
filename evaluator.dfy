/** The RPN evaluator (`evalRPN`): a value stack that holds numbers, `name`
    token objects and `undefined`; `close` markers that apply a function to
    the value above its name or otherwise drop the item beneath the value;
    and a final pass that resolves bare constants. */
module Evaluator {
  import opened Operators
  import opened Host
  import opened Library
  import opened Combinatorics
  import opened Shunting

  /** `st.pop()`: the top and the rest, or `undefined` on an empty stack. */
  function Pop(st: seq<Value>): (r: (Value, seq<Value>))
    ensures st == [] ==> r == (Undefined, [])
    ensures st != [] ==> r.1 + [r.0] == st
  {
    if st == [] then (Undefined, []) else (Last(st), DropLast(st))
  }

  /** `FUNCTIONS[name](val)` at a `close` marker whose name is `name`, with
      the finiteness check, or the error for a name that is a constant or
      no table entry at all. */
  function Call(name: string, arg: Value, env: Env): (r: Result<Value>)
    ensures r.Ok? <==> name in FunctionNames && ApplyFunction(name, ToNumber(arg), env).Finite?
    ensures r.Ok? ==> r.value == Number(ApplyFunction(name, ToNumber(arg), env))
    ensures name in FunctionNames && r.Err? ==> r.error == MathDomainError
    ensures name in ConstantNames ==> r == Err(InvalidCall)
    ensures name !in FunctionNames && name !in ConstantNames ==> r == Err(UnknownFunction(name))
  {
    if name in FunctionNames then
      var y := ApplyFunction(name, ToNumber(arg), env);
      if y.Finite? then Ok(Number(y)) else Err(MathDomainError)
    else if name in ConstantNames then Err(InvalidCall)
    else Err(UnknownFunction(name))
  }

  /** An operator applied to the stack: `!` and `u-` pop one value, the
      others pop `b` then `a` and push `a op b`; popping an empty stack
      yields `undefined`, which the arithmetic turns into NaN. */
  function Apply(op: Operator, st: seq<Value>, env: Env): (r: Result<seq<Value>>)
    ensures r.Err? ==> op == Bang
    ensures r.Ok? && Arity(op) == 1 ==> |r.value| == if st == [] then 1 else |st|
    ensures r.Ok? && Arity(op) == 2 ==> |r.value| == if |st| <= 1 then 1 else |st| - 1
    ensures r.Ok? ==> r.value != [] && Last(r.value).Number?
  {
    if op == Bang then
      var (a, rest) := Pop(st);
      match FactOf(ToNumber(a))
      case Err(e) => Err(e)
      case Ok(f) => Ok(rest + [Number(f)])
    else if op == Neg then
      var (a, rest) := Pop(st);
      Ok(rest + [Number(Negate(ToNumber(a)))])
    else
      var (b, rest1) := Pop(st);
      var (a, rest2) := Pop(rest1);
      Ok(rest2 + [Number(env.arith(op, ToNumber(a), ToNumber(b)))])
  }

  /** One RPN item applied to the value stack: only `close` and `!` can
      fail, and a successful step adds at most one entry and never leaves
      the stack empty, since a pop from an empty stack counts as
      `undefined` (`StepDepthChange` gives the exact change). */
  function Step(st: seq<Value>, item: RpnItem, env: Env): (r: Result<seq<Value>>)
    ensures r.Err? ==> item == RClose || item == ROp(Bang)
    ensures r.Ok? ==> 1 <= |r.value| <= |st| + 1
  {
    match item
    case RNum(v) => Ok(st + [Number(v)])
    case RName(n) => Ok(st + [NameRef(n)])
    case RClose =>
      var (val, rest1) := Pop(st);
      var (maybeName, rest2) := Pop(rest1);
      if !maybeName.NameRef? then Ok(rest2 + [val])
      else
        (match Call(maybeName.name, val, env)
         case Err(e) => Err(e)
         case Ok(r) => Ok(rest2 + [r]))
    case ROp(op) => Apply(op, st, env)
  }

  /** How one item changes the depth of the stack: a number or a name
      pushes one entry; `close` and a binary operator take two entries and
      leave one; `!` and `u-` replace the top; missing entries count as
      `undefined`. */
  lemma StepDepthChange(st: seq<Value>, item: RpnItem, env: Env)
    ensures var r := Step(st, item, env);
      && (r.Ok? && (item.RNum? || item.RName?) ==> |r.value| == |st| + 1)
      && (r.Ok? && (item == RClose || (item.ROp? && Arity(item.op) == 2)) ==>
            |r.value| == if |st| <= 1 then 1 else |st| - 1)
      && (r.Ok? && item.ROp? && Arity(item.op) == 1 ==> |r.value| == if st == [] then 1 else |st|)
  {
    PopDepth(st);
    PopDepth(Pop(st).1);
    match item {
      case RNum(_) =>
      case RName(_) =>
      case RClose =>
      case ROp(op) =>
    }
  }

  /** A pop takes one entry off a non-empty stack and none off an empty one. */
  lemma PopDepth(st: seq<Value>)
    ensures |Pop(st).1| == if st == [] then 0 else |st| - 1
  {
  }

  /** The main loop of `evalRPN` from item `i` on: each item adds at most
      one entry, and after an item the stack is never empty. */
  function RunFrom(rpn: seq<RpnItem>, i: nat, st: seq<Value>, env: Env): (r: Result<seq<Value>>)
    requires i <= |rpn|
    ensures r.Ok? ==> |r.value| <= |st| + (|rpn| - i)
    ensures r.Ok? && i < |rpn| ==> |r.value| >= 1
    decreases |rpn| - i
  {
    if i == |rpn| then Ok(st)
    else match Step(st, rpn[i], env)
      case Err(e) => Err(e)
      case Ok(s) => RunFrom(rpn, i + 1, s, env)
  }

  /** The stack `evalRPN` is left with before resolution: at most one entry
      per item, and at least one unless there were no items, so zero
      values left means the RPN was empty. */
  function Run(rpn: seq<RpnItem>, env: Env): (r: Result<seq<Value>>)
    ensures r.Ok? ==> |r.value| <= |rpn|
    ensures r.Ok? ==> (r.value == [] <==> rpn == [])
  {
    RunFrom(rpn, 0, [], env)
  }

  /** The callback of the final `st.map`: a bare constant becomes its value,
      a bare function name or an unknown name is an error, and anything
      else is kept as it is. */
  function ResolveOne(x: Value, env: Env): (r: Result<Value>)
    ensures r.Ok? <==> !x.NameRef? || x.name in ConstantNames
    ensures r.Ok? && x.NameRef? ==> r.value == Number(ConstantValue(x.name, env))
    ensures r.Ok? && !x.NameRef? ==> r.value == x
    ensures r.Err? && x.name in FunctionNames ==> r.error == FunctionMissingParentheses
    ensures r.Err? && x.name !in FunctionNames ==> r.error == UnknownIdentifier(x.name)
  {
    if x.NameRef? then
      if x.name in ConstantNames then Ok(Number(ConstantValue(x.name, env)))
      else if x.name in FunctionNames then Err(FunctionMissingParentheses)
      else Err(UnknownIdentifier(x.name))
    else Ok(x)
  }

  /** `st.map(...)`: every element resolved in order; the first element
      that cannot be resolved decides the error. */
  function Resolve(vs: seq<Value>, env: Env): (r: Result<seq<Value>>)
    ensures r.Ok? <==> forall k :: 0 <= k < |vs| ==> ResolveOne(vs[k], env).Ok?
    ensures r.Ok? ==> |r.value| == |vs|
    ensures r.Ok? ==> forall k :: 0 <= k < |vs| ==> r.value[k] == ResolveOne(vs[k], env).value
    ensures r.Err? ==>
      exists k :: 0 <= k < |vs| && ResolveOne(vs[k], env) == Err(r.error)
        && forall j :: 0 <= j < k ==> ResolveOne(vs[j], env).Ok?
    decreases |vs|
  {
    if vs == [] then Ok([])
    else match ResolveOne(vs[0], env)
      case Err(e) => Err(e)
      case Ok(v) =>
        match Resolve(vs[1..], env)
        case Err(e) =>
          assert forall k :: 1 <= k < |vs| ==> vs[k] == vs[1..][k - 1];
          Err(e)
        case Ok(rest) =>
          assert forall k :: 1 <= k < |vs| ==> vs[k] == vs[1..][k - 1];
          Ok([v] + rest)
  }

  /** `evalRPN`: the loop, the resolution of what is left, and the rule
      that exactly one value must be left. */
  function Eval(rpn: seq<RpnItem>, env: Env): (r: Result<Value>)
    ensures r.Ok? <==> Run(rpn, env).Ok? && Resolve(Run(rpn, env).value, env).Ok?
                       && |Run(rpn, env).value| == 1
    ensures r.Ok? ==> r.value == ResolveOne(Run(rpn, env).value[0], env).value
    ensures r.Ok? ==> !r.value.NameRef?
    ensures (Run(rpn, env).Ok? && Resolve(Run(rpn, env).value, env).Ok?
             && |Run(rpn, env).value| != 1) ==> r == Err(InvalidExpression)
  {
    match Run(rpn, env)
    case Err(e) => Err(e)
    case Ok(st) =>
      match Resolve(st, env)
      case Err(e) => Err(e)
      case Ok(vs) => if |vs| != 1 then Err(InvalidExpression) else Ok(vs[0])
  }

  /** `fact(n)` on the popped operand: the two checks, then the loop. */
  method Factorial(x: Num) returns (res: Result<Num>)
    ensures res == FactOf(x)
  {
    if !x.Finite? || x.value < 0.0 {
      return Err(InvalidFactorial);
    }
    if x.value.Floor as real != x.value {
      return Err(FactorialNeedsInteger);
    }
    var f := ComputeFact(x.value.Floor);
    return Ok(Finite(f as real));
  }

  /** `evalRPN` as the loop over the items with the value stack `st`. */
  method EvalRPN(rpn: seq<RpnItem>, env: Env) returns (res: Result<Value>)
    ensures res == Eval(rpn, env)
  {
    var st: seq<Value> := [];
    var i := 0;
    while i < |rpn|
      invariant i <= |rpn|
      invariant RunFrom(rpn, i, st, env) == Run(rpn, env)
      decreases |rpn| - i
    {
      var t := rpn[i];
      match t {
        case RNum(v) =>
          st := st + [Number(v)];
        case RName(n) =>
          st := st + [NameRef(n)];
        case RClose =>
          var (val, rest1) := Pop(st);
          var (maybeName, rest2) := Pop(rest1);
          if !maybeName.NameRef? {
            st := rest2 + [val];
          } else {
            var name := maybeName.name;
            if name in FunctionNames {
              var r := ApplyFunction(name, ToNumber(val), env);
              if !r.Finite? {
                return Err(MathDomainError);
              }
              st := rest2 + [Number(r)];
            } else if name in ConstantNames {
              return Err(InvalidCall);
            } else {
              return Err(UnknownFunction(name));
            }
          }
        case ROp(op) =>
          if IsPostfix(op) {
            var (a, rest) := Pop(st);
            var f := Factorial(ToNumber(a));
            if f.Err? {
              return Err(f.error);
            }
            st := rest + [Number(f.value)];
          } else if Arity(op) == 2 {
            var (b, rest1) := Pop(st);
            var (a, rest2) := Pop(rest1);
            st := rest2 + [Number(env.arith(op, ToNumber(a), ToNumber(b)))];
          } else {
            var (a, rest) := Pop(st);
            st := rest + [Number(Negate(ToNumber(a)))];
          }
      }
      i := i + 1;
    }
    var resolved := Resolve(st, env);
    if resolved.Err? {
      return Err(resolved.error);
    }
    if |resolved.value| != 1 {
      return Err(InvalidExpression);
    }
    return Ok(resolved.value[0]);
  }

  // ---------------------------------------------------------------------
  // The close marker

  /** What a `close` marker does, by the shape of the stack below it: on an
      empty stack it leaves `undefined`; on one value it leaves that value;
      with a non-name beneath the value it DROPS that item and keeps the
      value (so the `2` of `2*(3)` is lost); with a name beneath it calls
      the function (`Math domain error` for a non-finite result), and a
      constant or unknown name there is `Invalid call` or
      `Unknown function`. */
  lemma CloseMarker(st: seq<Value>, x: Value, y: Value, env: Env)
    ensures Step([], RClose, env) == Ok([Undefined])
    ensures Step([y], RClose, env) == Ok([y])
    ensures !x.NameRef? ==> Step(st + [x, y], RClose, env) == Ok(st + [y])
    ensures x.NameRef? && x.name in FunctionNames ==>
      var r := ApplyFunction(x.name, ToNumber(y), env);
      Step(st + [x, y], RClose, env) == if r.Finite? then Ok(st + [Number(r)]) else Err(MathDomainError)
    ensures x.NameRef? && x.name in ConstantNames ==> Step(st + [x, y], RClose, env) == Err(InvalidCall)
    ensures x.NameRef? && x.name !in FunctionNames && x.name !in ConstantNames ==>
      Step(st + [x, y], RClose, env) == Err(UnknownFunction(x.name))
  {
    CloseOnShortStack(y, env);
    CloseOnPair(st, x, y, env);
  }

  lemma CloseOnShortStack(y: Value, env: Env)
    ensures Step([], RClose, env) == Ok([Undefined])
    ensures Step([y], RClose, env) == Ok([y])
  {
    assert [] + [Undefined] == [Undefined];
    assert Last([y]) == y && DropLast([y]) == [];
    assert [] + [y] == [y];
  }

  /** A `close` on two or more values pops the value and the item beneath. */
  lemma CloseOnPair(st: seq<Value>, x: Value, y: Value, env: Env)
    ensures Step(st + [x, y], RClose, env)
      == if !x.NameRef? then Ok(st + [y])
         else match Call(x.name, y, env)
              case Err(e) => Err(e)
              case Ok(r) => Ok(st + [r])
  {
    var s := st + [x, y];
    assert Last(s) == y && DropLast(s) == st + [x];
    assert Last(st + [x]) == x && DropLast(st + [x]) == st;
  }

  /** An operator pops what it needs, and `undefined` for what is missing:
      `a op b` on two values, NaN-producing `undefined` operands on a short
      stack (so `2+` is not an error), `u-` negates a single value. */
  lemma OperatorOperands(st: seq<Value>, x: Value, y: Value, op: Operator, env: Env)
    requires op != Bang && op != Neg
    ensures Step(st + [x, y], ROp(op), env) == Ok(st + [Number(env.arith(op, ToNumber(x), ToNumber(y)))])
    ensures Step([y], ROp(op), env) == Ok([Number(env.arith(op, NaN, ToNumber(y)))])
    ensures Step([], ROp(op), env) == Ok([Number(env.arith(op, NaN, NaN))])
    ensures Step(st + [y], ROp(Neg), env) == Ok(st + [Number(Negate(ToNumber(y)))])
    ensures Step([], ROp(Neg), env) == Ok([Number(NaN)])
  {
    BinaryOnPair(st, x, y, op, env);
    BinaryOnShortStack(y, op, env);
    NegateOnStack(st, y, env);
  }

  lemma BinaryOnPair(st: seq<Value>, x: Value, y: Value, op: Operator, env: Env)
    requires op != Bang && op != Neg
    ensures Step(st + [x, y], ROp(op), env) == Ok(st + [Number(env.arith(op, ToNumber(x), ToNumber(y)))])
  {
    var s := st + [x, y];
    assert Last(s) == y && DropLast(s) == st + [x];
    assert Last(st + [x]) == x && DropLast(st + [x]) == st;
  }

  lemma BinaryOnShortStack(y: Value, op: Operator, env: Env)
    requires op != Bang && op != Neg
    ensures Step([y], ROp(op), env) == Ok([Number(env.arith(op, NaN, ToNumber(y)))])
    ensures Step([], ROp(op), env) == Ok([Number(env.arith(op, NaN, NaN))])
  {
    assert Last([y]) == y && DropLast([y]) == [];
    var u := Number(env.arith(op, NaN, ToNumber(y)));
    assert [] + [u] == [u];
    var w := Number(env.arith(op, NaN, NaN));
    assert [] + [w] == [w];
  }

  lemma NegateOnStack(st: seq<Value>, y: Value, env: Env)
    ensures Step(st + [y], ROp(Neg), env) == Ok(st + [Number(Negate(ToNumber(y)))])
    ensures Step([], ROp(Neg), env) == Ok([Number(NaN)])
  {
    assert Last(st + [y]) == y && DropLast(st + [y]) == st;
    assert [] + [Number(NaN)] == [Number(NaN)];
  }

  /** The only items that can throw are `!` (the two `fact` errors on its
      operand) and `close` (the three call errors); numbers, names and all
      other operators never fail. */
  lemma StepErrors(st: seq<Value>, item: RpnItem, env: Env)
    ensures Step(st, item, env).Err? ==>
      (item == ROp(Bang) && Step(st, item, env).error in {InvalidFactorial, FactorialNeedsInteger})
      || (item == RClose && (Step(st, item, env).error in {MathDomainError, InvalidCall}
                             || Step(st, item, env).error.UnknownFunction?))
    ensures Step(st, ROp(Bang), env).Err? <==> FactOf(ToNumber(Pop(st).0)).Err?
  {
  }

  /** The errors `evalRPN` throws: those of `!` and `close`, the two
      resolution errors and the one-value rule. */
  predicate EvalError(e: Error)
  {
    e in {InvalidFactorial, FactorialNeedsInteger, MathDomainError, InvalidCall,
          FunctionMissingParentheses, InvalidExpression}
    || e.UnknownFunction? || e.UnknownIdentifier?
  }

  lemma {:induction false} RunFromErrors(rpn: seq<RpnItem>, i: nat, st: seq<Value>, env: Env)
    requires i <= |rpn|
    ensures RunFrom(rpn, i, st, env).Err? ==> EvalError(RunFrom(rpn, i, st, env).error)
    decreases |rpn| - i
  {
    if i < |rpn| {
      StepErrors(st, rpn[i], env);
      if Step(st, rpn[i], env).Ok? {
        RunFromErrors(rpn, i + 1, Step(st, rpn[i], env).value, env);
      }
    }
  }

  lemma EvalErrors(rpn: seq<RpnItem>, env: Env)
    ensures Eval(rpn, env).Err? ==> EvalError(Eval(rpn, env).error)
  {
    RunFromErrors(rpn, 0, [], env);
    if Run(rpn, env).Ok? {
      var st := Run(rpn, env).value;
      if Resolve(st, env).Err? {
        var k :| 0 <= k < |st| && ResolveOne(st[k], env) == Err(Resolve(st, env).error);
      }
    }
  }

  // ---------------------------------------------------------------------
  // What is on the stack

  /** The values the stack can hold: numbers, name token objects and
      `undefined`, never the empty string. */
  predicate OnStack(v: Value)
  {
    !v.EmptyString?
  }

  predicate AllOnStack(st: seq<Value>)
  {
    forall k :: 0 <= k < |st| ==> OnStack(st[k])
  }

  lemma StepKeepsStack(st: seq<Value>, item: RpnItem, env: Env)
    requires AllOnStack(st)
    ensures Step(st, item, env).Ok? ==> AllOnStack(Step(st, item, env).value)
  {
    var (a, rest1) := Pop(st);
    PopKeepsStack(st);
    var (b, rest2) := Pop(rest1);
    PopKeepsStack(rest1);
    match item {
      case RNum(v) => PushKeepsStack(st, Number(v));
      case RName(n) => PushKeepsStack(st, NameRef(n));
      case RClose =>
        PushKeepsStack(rest2, a);
        if b.NameRef? && Call(b.name, a, env).Ok? {
          PushKeepsStack(rest2, Call(b.name, a, env).value);
        }
      case ROp(op) =>
        if op == Bang && FactOf(ToNumber(a)).Ok? {
          PushKeepsStack(rest1, Number(FactOf(ToNumber(a)).value));
        }
        PushKeepsStack(rest1, Number(Negate(ToNumber(a))));
        PushKeepsStack(rest2, Number(env.arith(op, ToNumber(b), ToNumber(a))));
    }
  }

  lemma PopKeepsStack(st: seq<Value>)
    requires AllOnStack(st)
    ensures AllOnStack(Pop(st).1) && OnStack(Pop(st).0)
  {
    if st != [] {
      assert forall k :: 0 <= k < |Pop(st).1| ==> Pop(st).1[k] == st[k];
      assert Pop(st).0 == st[|st| - 1];
    }
  }

  lemma PushKeepsStack(st: seq<Value>, v: Value)
    requires AllOnStack(st) && OnStack(v)
    ensures AllOnStack(st + [v])
  {
    assert forall k :: 0 <= k < |st| ==> (st + [v])[k] == st[k];
  }

  lemma {:induction false} RunKeepsStack(rpn: seq<RpnItem>, i: nat, st: seq<Value>, env: Env)
    requires i <= |rpn| && AllOnStack(st)
    ensures RunFrom(rpn, i, st, env).Ok? ==> AllOnStack(RunFrom(rpn, i, st, env).value)
    decreases |rpn| - i
  {
    if i < |rpn| {
      StepKeepsStack(st, rpn[i], env);
      var r := Step(st, rpn[i], env);
      if r.Ok? {
        RunKeepsStack(rpn, i + 1, r.value, env);
      }
    }
  }

  /** `evalRPN` returns a number or `undefined` (the latter from `()`),
      never a name and never the empty string. */
  lemma EvalResultKind(rpn: seq<RpnItem>, env: Env)
    ensures Eval(rpn, env).Ok? ==> Eval(rpn, env).value.Number? || Eval(rpn, env).value.Undefined?
  {
    RunKeepsStack(rpn, 0, [], env);
  }

  // ---------------------------------------------------------------------
  // Worked evaluations

  lemma Advance(rpn: seq<RpnItem>, i: nat, st: seq<Value>, s: seq<Value>, env: Env)
    requires i < |rpn| && Step(st, rpn[i], env).Ok? && Step(st, rpn[i], env).value == s
    ensures RunFrom(rpn, i, st, env) == RunFrom(rpn, i + 1, s, env)
  {
  }

  /** A run that leaves one value evaluates to that value, resolved. */
  lemma SingleValue(rpn: seq<RpnItem>, x: Value, env: Env)
    requires Run(rpn, env) == Ok([x])
    ensures Eval(rpn, env) == match ResolveOne(x, env) case Ok(v) => Ok(v) case Err(e) => Err(e)
  {
  }

  /** `2*(3)`, that is `2 3 close *`: the close marker drops the `2`, so the
      product is taken with `undefined` and, with IEEE NaN propagation, the
      result is NaN rather than 6. */
  lemma ParenthesisDropsOperand(a: Num, b: Num, env: Env)
    ensures Eval([RNum(a), RNum(b), RClose, ROp(Mul)], env) == Ok(Number(env.arith(Mul, NaN, b)))
    ensures PropagatesNaN(env) ==> Eval([RNum(a), RNum(b), RClose, ROp(Mul)], env) == Ok(Number(NaN))
  {
    ProductAfterClose(a, b, env);
    if PropagatesNaN(env) {
      assert env.arith(Mul, NaN, b) == NaN;
    }
  }

  lemma ProductAfterClose(a: Num, b: Num, env: Env)
    ensures Eval([RNum(a), RNum(b), RClose, ROp(Mul)], env) == Ok(Number(env.arith(Mul, NaN, b)))
  {
    var rpn := [RNum(a), RNum(b), RClose, ROp(Mul)];
    var v := Number(env.arith(Mul, NaN, b));
    Advance(rpn, 0, [], [Number(a)], env);
    Advance(rpn, 1, [Number(a)], [Number(a), Number(b)], env);
    CloseOnPair([], Number(a), Number(b), env);
    assert [] + [Number(a), Number(b)] == [Number(a), Number(b)];
    assert [] + [Number(b)] == [Number(b)];
    Advance(rpn, 2, [Number(a), Number(b)], [Number(b)], env);
    BinaryOnShortStack(Number(b), Mul, env);
    Advance(rpn, 3, [Number(b)], [v], env);
    SingleValue(rpn, v, env);
  }

  /** `()` is `close` alone, which leaves `undefined` as the result. */
  lemma EmptyParenthesesGiveUndefined(env: Env)
    ensures Eval([RClose], env) == Ok(Undefined)
  {
    Advance([RClose], 0, [], [Undefined], env);
  }

  /** `a+` is `a +`: the missing operand is `undefined`, not an error. */
  lemma MissingOperandIsNaN(a: Num, env: Env)
    ensures Eval([RNum(a), ROp(Add)], env) == Ok(Number(env.arith(Add, NaN, a)))
  {
    var rpn := [RNum(a), ROp(Add)];
    Advance(rpn, 0, [], [Number(a)], env);
    OperatorOperands([], Number(a), Number(a), Add, env);
    Advance(rpn, 1, [Number(a)], [Number(env.arith(Add, NaN, a))], env);
  }

  /** `f(a)` is `f a close`: the table entry applied to `a`, with the
      finiteness check. */
  lemma FunctionCall(f: string, a: Num, env: Env)
    requires f in FunctionNames
    ensures var y := ApplyFunction(f, a, env);
      Eval([RName(f), RNum(a), RClose], env) == if y.Finite? then Ok(Number(y)) else Err(MathDomainError)
  {
    var rpn := [RName(f), RNum(a), RClose];
    Advance(rpn, 0, [], [NameRef(f)], env);
    Advance(rpn, 1, [NameRef(f)], [NameRef(f), Number(a)], env);
    CloseMarker([], NameRef(f), Number(a), env);
    var y := ApplyFunction(f, a, env);
    if y.Finite? {
      Advance(rpn, 2, [NameRef(f), Number(a)], [Number(y)], env);
    }
  }

  /** `5!` is 120. */
  lemma FactorialOfFive(env: Env)
    ensures Eval([RNum(Finite(5.0)), ROp(Bang)], env) == Ok(Number(Finite(120.0)))
  {
    var rpn := [RNum(Finite(5.0)), ROp(Bang)];
    Advance(rpn, 0, [], [Number(Finite(5.0))], env);
    FiveBang(env);
    Advance(rpn, 1, [Number(Finite(5.0))], [Number(Finite(120.0))], env);
  }

  /** The `!` step on the stack `[5]`. */
  lemma FiveBang(env: Env)
    ensures Step([Number(Finite(5.0))], ROp(Bang), env) == Ok([Number(Finite(120.0))])
  {
    assert AsNat(5.0) == 5;
    assert Fact(5) == 120;
    assert FactOf(Finite(5.0)) == Ok(Finite(120.0));
    assert Pop([Number(Finite(5.0))]) == (Number(Finite(5.0)), []);
    assert ToNumber(Number(Finite(5.0))) == Finite(5.0);
    assert Apply(Bang, [Number(Finite(5.0))], env) == Ok([] + [Number(Finite(120.0))]);
    assert [] + [Number(Finite(120.0))] == [Number(Finite(120.0))];
    assert Step([Number(Finite(5.0))], ROp(Bang), env) == Apply(Bang, [Number(Finite(5.0))], env);
  }

  /** Bare names: a constant is its value, a bare function name is
      `Function missing parentheses`, another name is `Unknown identifier`;
      the names are resolved before the count of values is checked. */
  lemma BareNames(a: Num, env: Env)
    ensures Eval([RName("pi")], env) == Ok(Number(env.pi))
    ensures Eval([RName("Ans")], env) == Ok(Number(env.ans))
    ensures Eval([RName("sin")], env) == Err(FunctionMissingParentheses)
    ensures Eval([RName("x")], env) == Err(UnknownIdentifier("x"))
    ensures Eval([RName("sin"), RNum(a)], env) == Err(FunctionMissingParentheses)
  {
    LoneName("pi", env);
    LoneName("Ans", env);
    LoneName("sin", env);
    LoneName("x", env);
    NameBeforeValue("sin", a, env);
  }

  /** A name alone evaluates to its resolution. */
  lemma LoneName(n: string, env: Env)
    ensures Eval([RName(n)], env) ==
      match ResolveOne(NameRef(n), env) case Ok(v) => Ok(v) case Err(e) => Err(e)
  {
    Advance([RName(n)], 0, [], [NameRef(n)], env);
    SingleValue([RName(n)], NameRef(n), env);
  }

  /** A name followed by a value without `close` leaves the name for
      resolution, which fails for a function name. */
  lemma NameBeforeValue(f: string, a: Num, env: Env)
    requires f in FunctionNames
    ensures Eval([RName(f), RNum(a)], env) == Err(FunctionMissingParentheses)
  {
    var rpn := [RName(f), RNum(a)];
    Advance(rpn, 0, [], [NameRef(f)], env);
    Advance(rpn, 1, [NameRef(f)], [NameRef(f), Number(a)], env);
    assert Run(rpn, env) == Ok([NameRef(f), Number(a)]);
    assert ResolveOne(NameRef(f), env) == Err(FunctionMissingParentheses);
  }

  /** Anything but exactly one value left is `Invalid expression`. */
  lemma OneValueRule(a: Num, b: Num, env: Env)
    ensures Eval([], env) == Err(InvalidExpression)
    ensures Eval([RNum(a), RNum(b)], env) == Err(InvalidExpression)
  {
    var rpn := [RNum(a), RNum(b)];
    Advance(rpn, 0, [], [Number(a)], env);
    Advance(rpn, 1, [Number(a)], [Number(a), Number(b)], env);
  }
}
