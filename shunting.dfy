/** The converter from tokens to reverse Polish notation (`toRPN`): a
    shunting-yard pass with an operator stack, a unary-minus rule that looks
    at the previous token, and a `close` marker emitted for every `)`. */
module Shunting {
  import opened Operators
  import opened Host
  import opened Lexer

  /** An item of the RPN output.  Parentheses and commas never reach the
      output; a `)` leaves an `RClose` marker behind. */
  datatype RpnItem = RNum(value: Num) | RName(name: string) | ROp(op: Operator) | RClose

  /** An entry of the operator stack: a `(` or an operator. */
  datatype Pending = Open | PendingOp(op: Operator)

  function Last<T>(s: seq<T>): T
    requires s != []
  {
    s[|s| - 1]
  }

  function DropLast<T>(s: seq<T>): seq<T>
    requires s != []
  {
    s[..|s| - 1]
  }

  /** The output items produced by popping every operator of `s`, top first. */
  function Popped(s: seq<Pending>): seq<RpnItem>
    decreases |s|
  {
    if s == [] then []
    else (if Last(s).PendingOp? then [ROp(Last(s).op)] else []) + Popped(DropLast(s))
  }

  /** The number of `(` entries on a stack. */
  function OpenCount(s: seq<Pending>): nat
    decreases |s|
  {
    if s == [] then 0 else OpenCount(DropLast(s)) + (if Last(s) == Open then 1 else 0)
  }

  predicate AllOperators(s: seq<Pending>)
  {
    forall k :: 0 <= k < |s| ==> s[k].PendingOp?
  }

  lemma DropLastThenLast(s: seq<Pending>)
    requires s != []
    ensures DropLast(s) + [Last(s)] == s
  {
  }

  lemma DropLastOfSuffix(s: seq<Pending>, m: nat)
    requires m < |s|
    ensures DropLast(s[m..]) == DropLast(s)[m..]
    ensures Last(s[m..]) == Last(s)
  {
  }

  /** The loop `while (top is not '(') out.push(stack.pop())` shared by `,`
      and `)`: it stops at the innermost `(` (kept) or at the bottom, and
      moves the operators above it to the output, top first. */
  function FlushToOpen(out: seq<RpnItem>, stack: seq<Pending>): (r: (seq<RpnItem>, seq<Pending>))
    ensures |r.1| <= |stack| && r.1 == stack[..|r.1|]
    ensures r.1 != [] ==> Last(r.1) == Open
    ensures r.0 == out + Popped(stack[|r.1|..])
    ensures OpenCount(r.1) == OpenCount(stack)
    ensures r.1 == [] <==> OpenCount(stack) == 0
    decreases |stack|
  {
    if stack == [] || Last(stack) == Open then
      assert stack[|stack|..] == [];
      (out, stack)
    else
      var r := FlushToOpen(out + [ROp(Last(stack).op)], DropLast(stack));
      DropLastOfSuffix(stack, |r.1|);
      r
  }

  /** The flush before an operator is pushed: operators that bind at least as
      tightly (as `FlushesBefore` says) move to the output, stopping at `(`,
      at a weaker operator, or at the bottom. */
  function FlushFor(out: seq<RpnItem>, stack: seq<Pending>, op: Operator): (r: (seq<RpnItem>, seq<Pending>))
    ensures |r.1| <= |stack| && r.1 == stack[..|r.1|]
    ensures r.1 != [] ==> Last(r.1) == Open || !FlushesBefore(Last(r.1).op, op)
    ensures r.0 == out + Popped(stack[|r.1|..])
    ensures OpenCount(r.1) == OpenCount(stack)
    decreases |stack|
  {
    if stack == [] || Last(stack) == Open || !FlushesBefore(Last(stack).op, op) then
      assert stack[|stack|..] == [];
      (out, stack)
    else
      var r := FlushFor(out + [ROp(Last(stack).op)], DropLast(stack), op);
      DropLastOfSuffix(stack, |r.1|);
      r
  }

  /** Everything `FlushToOpen` moves is an operator: it never moves a `(`. */
  lemma {:induction false} FlushToOpenMovesOperators(out: seq<RpnItem>, stack: seq<Pending>)
    ensures AllOperators(stack[|FlushToOpen(out, stack).1|..])
    decreases |stack|
  {
    if stack != [] && Last(stack) != Open {
      var r := FlushToOpen(out + [ROp(Last(stack).op)], DropLast(stack));
      FlushToOpenMovesOperators(out + [ROp(Last(stack).op)], DropLast(stack));
      assert forall k :: |r.1| <= k < |stack| - 1 ==> stack[k] == DropLast(stack)[k];
    }
  }

  /** Everything `FlushFor` moves is an operator that `FlushesBefore` the
      incoming one. */
  lemma {:induction false} FlushForMovesBinding(out: seq<RpnItem>, stack: seq<Pending>, op: Operator)
    ensures var r := FlushFor(out, stack, op);
      forall k :: |r.1| <= k < |stack| ==> stack[k].PendingOp? && FlushesBefore(stack[k].op, op)
    decreases |stack|
  {
    if stack != [] && Last(stack) != Open && FlushesBefore(Last(stack).op, op) {
      var r := FlushFor(out + [ROp(Last(stack).op)], DropLast(stack), op);
      FlushForMovesBinding(out + [ROp(Last(stack).op)], DropLast(stack), op);
      assert forall k :: |r.1| <= k < |stack| - 1 ==> stack[k] == DropLast(stack)[k];
    }
  }

  /** The final loop: the operators left on the stack are emitted top
      first, and a `(` still on it is `Mismatched (`. */
  function Finish(out: seq<RpnItem>, stack: seq<Pending>): (r: Result<seq<RpnItem>>)
    ensures r.Err? <==> OpenCount(stack) > 0
    ensures r.Err? ==> r.error == MismatchedOpen
    ensures r.Ok? ==> r.value == out + Popped(stack)
    decreases |stack|
  {
    if stack == [] then Ok(out)
    else if Last(stack) == Open then Err(MismatchedOpen)
    else Finish(out + [ROp(Last(stack).op)], DropLast(stack))
  }

  /** A `-` at position `i` is unary when there is no previous token, or the
      previous token is an operator other than `)` and `!`. */
  predicate UnaryContext(ts: seq<Token>, i: nat)
    requires i < |ts|
    ensures i == 0 ==> UnaryContext(ts, i)
    ensures i > 0 && (ts[i - 1].NumTok? || ts[i - 1].NameTok?) ==> !UnaryContext(ts, i)
    ensures i > 0 && ts[i - 1].OpTok? ==>
      (UnaryContext(ts, i) <==> ts[i - 1].symbol != ')' && ts[i - 1].symbol != '!')
  {
    i == 0 || (ts[i - 1].OpTok? && ts[i - 1].symbol != ')' && ts[i - 1].symbol != '!')
  }

  /** The operator tokens other than `(`, `)` and `,`. */
  predicate IsOperatorToken(t: Token)
  {
    t.OpTok? && t.symbol != '(' && t.symbol != ')' && t.symbol != ','

  }

  /** The operator the converter pushes for the operator token at `i`. */
  function Classify(ts: seq<Token>, i: nat): (op: Operator)
    requires i < |ts| && IsOperatorToken(ts[i])
    ensures op == Neg <==> ts[i].symbol == '-' && UnaryContext(ts, i)
    ensures op == Bang <==> ts[i].symbol == '!'
  {
    var c := ts[i].symbol;
    if c == '!' then Bang
    else if c == '-' && UnaryContext(ts, i) then Neg
    else BinaryOperator(c)
  }

  /** What the converter does with token `i`: the new output and stack.
      Only a `,` or a `)` can fail. */
  function ShuntStep(ts: seq<Token>, i: nat, out: seq<RpnItem>, stack: seq<Pending>)
    : (r: Result<(seq<RpnItem>, seq<Pending>)>)
    requires i < |ts|
    ensures r.Err? ==> ts[i] == OpTok(',') || ts[i] == OpTok(')')
  {
    match ts[i]
    case NumTok(v) => Ok((out + [RNum(v)], stack))
    case NameTok(n) => Ok((out + [RName(n)], stack))
    case OpTok(c) =>
      if c == ',' then
        var (o, s) := FlushToOpen(out, stack);
        if s == [] then Err(MisplacedComma) else Ok((o, s))
      else if c == '(' then Ok((out, stack + [Open]))
      else if c == ')' then
        var (o, s) := FlushToOpen(out, stack);
        if s == [] then Err(MismatchedClose) else Ok((o + [RClose], DropLast(s)))
      else
        var op := Classify(ts, i);
        var (o, s) := FlushFor(out, stack, op);
        Ok((o, s + [PendingOp(op)]))
  }

  /** The conversion of `ts` from token `i` on, with the output and the
      operator stack built so far. */
  function ShuntFrom(ts: seq<Token>, i: nat, out: seq<RpnItem>, stack: seq<Pending>): (r: Result<seq<RpnItem>>)
    requires i <= |ts|
    ensures r.Err? ==> r.error in {MisplacedComma, MismatchedClose, MismatchedOpen}
    decreases |ts| - i
  {
    if i == |ts| then Finish(out, stack)
    else match ShuntStep(ts, i, out, stack)
      case Err(e) => Err(e)
      case Ok((o, s)) => ShuntFrom(ts, i + 1, o, s)
  }

  /** The RPN form of a token sequence; the conversion can only fail with
      one of the three bracket errors. */
  function Shunt(ts: seq<Token>): (r: Result<seq<RpnItem>>)
    ensures r.Err? ==> r.error in {MisplacedComma, MismatchedClose, MismatchedOpen}
  {
    ShuntFrom(ts, 0, [], [])
  }

  /** `toRPN`: one pass over the tokens with the output, the operator stack
      and the previous token `prev`, the flush loops inline. */
  method ToRPN(tokens: seq<Token>) returns (res: Result<seq<RpnItem>>)
    ensures res == Shunt(tokens)
  {
    var out: seq<RpnItem> := [];
    var stack: seq<Pending> := [];
    var prev: Option<Token> := None;
    var i := 0;
    while i < |tokens|
      invariant i <= |tokens|
      invariant prev == if i == 0 then None else Some(tokens[i - 1])
      invariant ShuntFrom(tokens, i, out, stack) == Shunt(tokens)
      decreases |tokens| - i
    {
      var t := tokens[i];
      ghost var out0, stack0 := out, stack;
      match t {
        case NumTok(v) =>
          out := out + [RNum(v)];
        case NameTok(n) =>
          out := out + [RName(n)];
        case OpTok(c) =>
          if c == ',' || c == ')' {
            while stack != [] && Last(stack) != Open
              invariant FlushToOpen(out, stack) == FlushToOpen(out0, stack0)
              decreases |stack|
            {
              out := out + [ROp(Last(stack).op)];
              stack := DropLast(stack);
            }
            if stack == [] {
              if c == ',' {
                return Err(MisplacedComma);
              }
              return Err(MismatchedClose);
            }
            if c == ')' {
              stack := DropLast(stack);
              out := out + [RClose];
            }
          } else if c == '(' {
            stack := stack + [Open];
          } else {
            var op: Operator;
            if c == '!' {
              op := Bang;
            } else {
              op := BinaryOperator(c);
              if c == '-' && (prev.None? || (prev.value.OpTok? && prev.value.symbol != ')' && prev.value.symbol != '!')) {
                op := Neg;
              }
            }
            assert op == Classify(tokens, i);
            while stack != [] && Last(stack).PendingOp? && FlushesBefore(Last(stack).op, op)
              invariant FlushFor(out, stack, op) == FlushFor(out0, stack0, op)
              decreases |stack|
            {
              out := out + [ROp(Last(stack).op)];
              stack := DropLast(stack);
            }
            stack := stack + [PendingOp(op)];
          }
      }
      prev := Some(t);
      i := i + 1;
    }
    while stack != []
      invariant Finish(out, stack) == Shunt(tokens)
      decreases |stack|
    {
      var top := Last(stack);
      stack := DropLast(stack);
      if top == Open {
        return Err(MismatchedOpen);
      }
      out := out + [ROp(top.op)];
    }
    return Ok(out);
  }

  // ---------------------------------------------------------------------
  // Errors: an independent bracket check

  /** A plain left-to-right bracket check at nesting depth `depth`: a `)` or
      a `,` outside every parenthesis is the first error, and brackets
      still open at the end are `Mismatched (`. */
  function BracketCheckFrom(ts: seq<Token>, i: nat, depth: nat): Option<Error>
    requires i <= |ts|
    decreases |ts| - i
  {
    if i == |ts| then (if depth > 0 then Some(MismatchedOpen) else None)
    else if ts[i] == OpTok('(') then BracketCheckFrom(ts, i + 1, depth + 1)
    else if ts[i] == OpTok(')') then
      (if depth == 0 then Some(MismatchedClose) else BracketCheckFrom(ts, i + 1, depth - 1))
    else if ts[i] == OpTok(',') then
      (if depth == 0 then Some(MisplacedComma) else BracketCheckFrom(ts, i + 1, depth))
    else BracketCheckFrom(ts, i + 1, depth)
  }

  function BracketCheck(ts: seq<Token>): Option<Error>
  {
    BracketCheckFrom(ts, 0, 0)
  }

  lemma OpenCountPush(s: seq<Pending>, p: Pending)
    ensures OpenCount(s + [p]) == OpenCount(s) + (if p == Open then 1 else 0)
  {
    assert DropLast(s + [p]) == s;
  }

  /** One step moves the bracket depth as the bracket check does, and
      fails exactly where the bracket check does. */
  lemma StepDepth(ts: seq<Token>, i: nat, out: seq<RpnItem>, stack: seq<Pending>)
    requires i < |ts|
    ensures var r := ShuntStep(ts, i, out, stack);
      var d := OpenCount(stack);
      && (r.Err? <==> (ts[i] == OpTok(')') || ts[i] == OpTok(',')) && d == 0)
      && (r.Err? ==> r.error == if ts[i] == OpTok(')') then MismatchedClose else MisplacedComma)
      && (r.Ok? ==>
            OpenCount(r.value.1) ==
              if ts[i] == OpTok('(') then d + 1 else if ts[i] == OpTok(')') then d - 1 else d)
  {
    match ts[i]
    case NumTok(_) =>
    case NameTok(_) =>
    case OpTok(c) =>
      if c == '(' {
        OpenCountPush(stack, Open);
      } else if c == ')' {
        var (o, s) := FlushToOpen(out, stack);
        if s != [] {
          OpenCountPush(DropLast(s), Open);
          assert DropLast(s) + [Open] == s;
        }
      } else if c != ',' {
        var op := Classify(ts, i);
        var (o, s) := FlushFor(out, stack, op);
        OpenCountPush(s, PendingOp(op));
      }
  }

  lemma {:induction false} ShuntFromErrors(ts: seq<Token>, i: nat, out: seq<RpnItem>, stack: seq<Pending>)
    requires i <= |ts|
    ensures var r := ShuntFrom(ts, i, out, stack);
      var b := BracketCheckFrom(ts, i, OpenCount(stack));
      (r.Err? <==> b.Some?) && (r.Err? ==> r.error == b.value)
    decreases |ts| - i
  {
    if i < |ts| {
      StepDepth(ts, i, out, stack);
      var r := ShuntStep(ts, i, out, stack);
      if r.Ok? {
        ShuntFromErrors(ts, i + 1, r.value.0, r.value.1);
      }
    }
  }

  /** `toRPN` throws exactly when the bracket check fails, and with the
      same error: `Misplaced comma` for a comma outside every parenthesis,
      `Mismatched )` for an unmatched `)`, whichever comes first, and
      otherwise `Mismatched (` when a `(` is never closed. */
  lemma ShuntErrors(ts: seq<Token>)
    ensures Shunt(ts).Err? <==> BracketCheck(ts).Some?
    ensures Shunt(ts).Err? ==> Shunt(ts).error == BracketCheck(ts).value
    ensures Shunt(ts).Err? ==> Shunt(ts).error in {MisplacedComma, MismatchedClose, MismatchedOpen}
  {
    ShuntFromErrors(ts, 0, [], []);
    BracketCheckErrors(ts, 0, 0);
  }

  lemma {:induction false} BracketCheckErrors(ts: seq<Token>, i: nat, depth: nat)
    requires i <= |ts|
    ensures BracketCheckFrom(ts, i, depth).Some? ==>
      BracketCheckFrom(ts, i, depth).value in {MisplacedComma, MismatchedClose, MismatchedOpen}
    decreases |ts| - i
  {
    if i < |ts| {
      BracketCheckErrors(ts, i + 1, depth + 1);
      BracketCheckErrors(ts, i + 1, depth);
      if depth > 0 {
        BracketCheckErrors(ts, i + 1, depth - 1);
      }
    }
  }

  // ---------------------------------------------------------------------
  // What the output holds

  /** The operands of an item sequence, in order. */
  function Operands(items: seq<RpnItem>): seq<RpnItem>
    decreases |items|
  {
    if items == [] then []
    else Operands(DropLast(items)) + (if Last(items).RNum? || Last(items).RName? then [Last(items)] else [])
  }

  /** The number of `close` markers. */
  function Closes(items: seq<RpnItem>): nat
    decreases |items|
  {
    if items == [] then 0 else Closes(DropLast(items)) + (if Last(items) == RClose then 1 else 0)
  }

  /** The operators of an item sequence, as a multiset. */
  function OpsOf(items: seq<RpnItem>): multiset<Operator>
    decreases |items|
  {
    if items == [] then multiset{}
    else OpsOf(DropLast(items)) + (if Last(items).ROp? then multiset{Last(items).op} else multiset{})
  }

  /** The operators waiting on a stack, as a multiset. */
  function StackOps(s: seq<Pending>): multiset<Operator>
    decreases |s|
  {
    if s == [] then multiset{}
    else StackOps(DropLast(s)) + (if Last(s).PendingOp? then multiset{Last(s).op} else multiset{})
  }

  /** The operand a token contributes, if any. */
  function TokenOperand(t: Token): seq<RpnItem>
  {
    match t
    case NumTok(v) => [RNum(v)]
    case NameTok(n) => [RName(n)]
    case OpTok(_) => []
  }

  /** The operands of the tokens from `i` on, as output items. */
  function TokenOperands(ts: seq<Token>, i: nat): seq<RpnItem>
    requires i <= |ts|
    decreases |ts| - i
  {
    if i == |ts| then [] else TokenOperand(ts[i]) + TokenOperands(ts, i + 1)
  }

  /** The number of `)` tokens from `i` on. */
  function CloseParens(ts: seq<Token>, i: nat): nat
    requires i <= |ts|
    decreases |ts| - i
  {
    if i == |ts| then 0 else (if ts[i] == OpTok(')') then 1 else 0) + CloseParens(ts, i + 1)
  }

  /** The operators the tokens from `i` on stand for, each read in its
      context (a `-` is `Neg` or `Sub` as `UnaryContext` says). */
  function ClassifiedOps(ts: seq<Token>, i: nat): multiset<Operator>
    requires i <= |ts|
    decreases |ts| - i
  {
    if i == |ts| then multiset{}
    else (if IsOperatorToken(ts[i]) then multiset{Classify(ts, i)} else multiset{}) + ClassifiedOps(ts, i + 1)
  }

  lemma {:induction false} CensusAppend(a: seq<RpnItem>, b: seq<RpnItem>)
    ensures Operands(a + b) == Operands(a) + Operands(b)
    ensures Closes(a + b) == Closes(a) + Closes(b)
    ensures OpsOf(a + b) == OpsOf(a) + OpsOf(b)
    decreases |b|
  {
    if b == [] {
      assert a + b == a;
    } else {
      assert DropLast(a + b) == a + DropLast(b);
      assert Last(a + b) == Last(b);
      CensusAppend(a, DropLast(b));
    }
  }

  lemma {:induction false} StackOpsAppend(a: seq<Pending>, b: seq<Pending>)
    ensures StackOps(a + b) == StackOps(a) + StackOps(b)
    decreases |b|
  {
    if b == [] {
      assert a + b == a;
    } else {
      assert DropLast(a + b) == a + DropLast(b);
      assert Last(a + b) == Last(b);
      StackOpsAppend(a, DropLast(b));
    }
  }

  lemma {:induction false} PoppedCensus(s: seq<Pending>)
    ensures Operands(Popped(s)) == []
    ensures Closes(Popped(s)) == 0
    ensures OpsOf(Popped(s)) == StackOps(s)
    decreases |s|
  {
    if s != [] {
      var head := if Last(s).PendingOp? then [ROp(Last(s).op)] else [];
      PoppedCensus(DropLast(s));
      CensusAppend(head, Popped(DropLast(s)));
      if Last(s).PendingOp? {
        assert DropLast(head) == [];
      }
    }
  }

  /** Moving `stack[|kept|..]` to the output keeps the census. */
  lemma FlushCensus(out: seq<RpnItem>, stack: seq<Pending>, kept: seq<Pending>)
    requires |kept| <= |stack| && kept == stack[..|kept|]
    ensures var o := out + Popped(stack[|kept|..]);
      && Operands(o) == Operands(out)
      && Closes(o) == Closes(out)
      && OpsOf(o) + StackOps(kept) == OpsOf(out) + StackOps(stack)
  {
    CensusAppend(out, Popped(stack[|kept|..]));
    PoppedCensus(stack[|kept|..]);
    assert kept + stack[|kept|..] == stack;
    StackOpsAppend(kept, stack[|kept|..]);
  }

  lemma PushItem(out: seq<RpnItem>, x: RpnItem)
    ensures Operands(out + [x]) == Operands(out) + (if x.RNum? || x.RName? then [x] else [])
    ensures Closes(out + [x]) == Closes(out) + (if x == RClose then 1 else 0)
    ensures OpsOf(out + [x]) == OpsOf(out) + (if x.ROp? then multiset{x.op} else multiset{})
  {
    assert DropLast(out + [x]) == out;
  }

  lemma PushPending(s: seq<Pending>, p: Pending)
    ensures StackOps(s + [p]) == StackOps(s) + (if p.PendingOp? then multiset{p.op} else multiset{})
  {
    assert DropLast(s + [p]) == s;
  }

  /** One step adds the token's operand, a `close` marker for a `)`, and
      moves operators between the stack and the output without losing or
      adding any but the token's own. */
  ghost predicate StepKeepsCensus(ts: seq<Token>, i: nat, out: seq<RpnItem>, stack: seq<Pending>)
    requires i < |ts|
  {
    var r := ShuntStep(ts, i, out, stack);
    r.Ok? ==>
      && Operands(r.value.0) == Operands(out) + TokenOperand(ts[i])
      && Closes(r.value.0) == Closes(out) + (if ts[i] == OpTok(')') then 1 else 0)
      && OpsOf(r.value.0) + StackOps(r.value.1) == OpsOf(out) + StackOps(stack)
           + (if IsOperatorToken(ts[i]) then multiset{Classify(ts, i)} else multiset{})
  }

  lemma StepCensus(ts: seq<Token>, i: nat, out: seq<RpnItem>, stack: seq<Pending>)
    requires i < |ts|
    ensures StepKeepsCensus(ts, i, out, stack)
  {
    if IsOperatorToken(ts[i]) {
      OperatorStepCensus(ts, i, out, stack);
    } else if ts[i] == OpTok(')') {
      CloseStepCensus(ts, i, out, stack);
    } else {
      OtherStepCensus(ts, i, out, stack);
    }
  }

  lemma OperatorStepCensus(ts: seq<Token>, i: nat, out: seq<RpnItem>, stack: seq<Pending>)
    requires i < |ts| && IsOperatorToken(ts[i])
    ensures StepKeepsCensus(ts, i, out, stack)
  {
    OperatorCensus(out, stack, Classify(ts, i));
  }

  lemma CloseStepCensus(ts: seq<Token>, i: nat, out: seq<RpnItem>, stack: seq<Pending>)
    requires i < |ts| && ts[i] == OpTok(')')
    ensures StepKeepsCensus(ts, i, out, stack)
  {
    var (o, s) := FlushToOpen(out, stack);
    assert !IsOperatorToken(ts[i]);
    if s != [] {
      assert ShuntStep(ts, i, out, stack) == Ok((o + [RClose], DropLast(s)));
      CloseCensus(out, stack);
    }
  }

  lemma OtherStepCensus(ts: seq<Token>, i: nat, out: seq<RpnItem>, stack: seq<Pending>)
    requires i < |ts| && !IsOperatorToken(ts[i]) && ts[i] != OpTok(')')
    ensures StepKeepsCensus(ts, i, out, stack)
  {
    if ts[i].NumTok? || ts[i].NameTok? {
      OperandStepCensus(ts, i, out, stack);
    } else if ts[i] == OpTok(',') {
      CommaStepCensus(ts, i, out, stack);
    } else {
      assert ts[i] == OpTok('(');
      OpenStepCensus(ts, i, out, stack);
    }
  }

  lemma OperandStepCensus(ts: seq<Token>, i: nat, out: seq<RpnItem>, stack: seq<Pending>)
    requires i < |ts| && (ts[i].NumTok? || ts[i].NameTok?)
    ensures StepKeepsCensus(ts, i, out, stack)
  {
    var x := if ts[i].NumTok? then RNum(ts[i].value) else RName(ts[i].name);
    assert TokenOperand(ts[i]) == [x];
    assert ShuntStep(ts, i, out, stack) == Ok((out + [x], stack));
    PushItem(out, x);
  }

  lemma CommaStepCensus(ts: seq<Token>, i: nat, out: seq<RpnItem>, stack: seq<Pending>)
    requires i < |ts| && ts[i] == OpTok(',')
    ensures StepKeepsCensus(ts, i, out, stack)
  {
    var (o, s) := FlushToOpen(out, stack);
    FlushCensus(out, stack, s);
  }

  lemma OpenStepCensus(ts: seq<Token>, i: nat, out: seq<RpnItem>, stack: seq<Pending>)
    requires i < |ts| && ts[i] == OpTok('(')
    ensures StepKeepsCensus(ts, i, out, stack)
  {
    assert ShuntStep(ts, i, out, stack) == Ok((out, stack + [Open]));
    PushPending(stack, Open);
  }

  lemma CloseCensus(out: seq<RpnItem>, stack: seq<Pending>)
    requires FlushToOpen(out, stack).1 != []
    ensures var (o, s) := FlushToOpen(out, stack);
      && Operands(o + [RClose]) == Operands(out)
      && Closes(o + [RClose]) == Closes(out) + 1
      && OpsOf(o + [RClose]) + StackOps(DropLast(s)) == OpsOf(out) + StackOps(stack)
  {
    var (o, s) := FlushToOpen(out, stack);
    FlushCensus(out, stack, s);
    PushItem(o, RClose);
    DropLastThenLast(s);
    PushPending(DropLast(s), Open);
  }

  lemma OperatorCensus(out: seq<RpnItem>, stack: seq<Pending>, op: Operator)
    ensures var (o, s) := FlushFor(out, stack, op);
      && Operands(o) == Operands(out)
      && Closes(o) == Closes(out)
      && OpsOf(o) + StackOps(s + [PendingOp(op)]) == OpsOf(out) + StackOps(stack) + multiset{op}
  {
    var (o, s) := FlushFor(out, stack, op);
    FlushCensus(out, stack, s);
    PushPending(s, PendingOp(op));
  }

  lemma {:induction false} ShuntFromCensus(ts: seq<Token>, i: nat, out: seq<RpnItem>, stack: seq<Pending>)
    requires i <= |ts|
    ensures var r := ShuntFrom(ts, i, out, stack);
      r.Ok? ==>
        && Operands(r.value) == Operands(out) + TokenOperands(ts, i)
        && Closes(r.value) == Closes(out) + CloseParens(ts, i)
        && OpsOf(r.value) == OpsOf(out) + StackOps(stack) + ClassifiedOps(ts, i)
    decreases |ts| - i
  {
    if i == |ts| {
      FinishCensus(out, stack);
    } else {
      var r := ShuntStep(ts, i, out, stack);
      if r.Ok? {
        ShuntFromCensus(ts, i + 1, r.value.0, r.value.1);
        CensusThroughStep(ts, i, out, stack, r.value.0, r.value.1);
      }
    }
  }

  /** The census from token `i` follows from one step and the census of
      the rest. */
  lemma CensusThroughStep(ts: seq<Token>, i: nat, out: seq<RpnItem>, stack: seq<Pending>,
                          o: seq<RpnItem>, s: seq<Pending>)
    requires i < |ts| && ShuntStep(ts, i, out, stack) == Ok((o, s))
    requires var r := ShuntFrom(ts, i + 1, o, s);
      r.Ok? ==>
        && Operands(r.value) == Operands(o) + TokenOperands(ts, i + 1)
        && Closes(r.value) == Closes(o) + CloseParens(ts, i + 1)
        && OpsOf(r.value) == OpsOf(o) + StackOps(s) + ClassifiedOps(ts, i + 1)
    ensures var r := ShuntFrom(ts, i, out, stack);
      r.Ok? ==>
        && Operands(r.value) == Operands(out) + TokenOperands(ts, i)
        && Closes(r.value) == Closes(out) + CloseParens(ts, i)
        && OpsOf(r.value) == OpsOf(out) + StackOps(stack) + ClassifiedOps(ts, i)
  {
    StepCensus(ts, i, out, stack);
    assert ShuntFrom(ts, i, out, stack) == ShuntFrom(ts, i + 1, o, s);
    var rest := ShuntFrom(ts, i + 1, o, s);
    if rest.Ok? {
      CensusStep(ts, i, out, stack, o, s, rest.value);
    }
  }

  /** Emptying the operator stack at the end moves its operators, and only
      them, to the output. */
  lemma FinishCensus(out: seq<RpnItem>, stack: seq<Pending>)
    ensures var r := Finish(out, stack);
      r.Ok? ==>
        && Operands(r.value) == Operands(out)
        && Closes(r.value) == Closes(out)
        && OpsOf(r.value) == OpsOf(out) + StackOps(stack)
  {
    if Finish(out, stack).Ok? {
      FlushCensus(out, stack, []);
      assert stack[0..] == stack;
    }
  }

  /** The census of one step composed with the census of the rest. */
  lemma CensusStep(ts: seq<Token>, i: nat, out: seq<RpnItem>, stack: seq<Pending>,
                   o: seq<RpnItem>, s: seq<Pending>, res: seq<RpnItem>)
    requires i < |ts|
    requires Operands(o) == Operands(out) + TokenOperand(ts[i])
    requires Closes(o) == Closes(out) + (if ts[i] == OpTok(')') then 1 else 0)
    requires OpsOf(o) + StackOps(s) == OpsOf(out) + StackOps(stack)
      + (if IsOperatorToken(ts[i]) then multiset{Classify(ts, i)} else multiset{})
    requires Operands(res) == Operands(o) + TokenOperands(ts, i + 1)
    requires Closes(res) == Closes(o) + CloseParens(ts, i + 1)
    requires OpsOf(res) == OpsOf(o) + StackOps(s) + ClassifiedOps(ts, i + 1)
    ensures Operands(res) == Operands(out) + TokenOperands(ts, i)
    ensures Closes(res) == Closes(out) + CloseParens(ts, i)
    ensures OpsOf(res) == OpsOf(out) + StackOps(stack) + ClassifiedOps(ts, i)
  {
    OperandsStep(ts, i, Operands(out), Operands(o), Operands(res));
    OpsStep(ts, i, OpsOf(out) + StackOps(stack), OpsOf(o) + StackOps(s), OpsOf(res));
  }

  lemma OperandsStep(ts: seq<Token>, i: nat, a: seq<RpnItem>, b: seq<RpnItem>, c: seq<RpnItem>)
    requires i < |ts|
    requires b == a + TokenOperand(ts[i]) && c == b + TokenOperands(ts, i + 1)
    ensures c == a + TokenOperands(ts, i)
  {
    assert TokenOperands(ts, i) == TokenOperand(ts[i]) + TokenOperands(ts, i + 1);
    assert (a + TokenOperand(ts[i])) + TokenOperands(ts, i + 1)
      == a + (TokenOperand(ts[i]) + TokenOperands(ts, i + 1));
  }

  lemma OpsStep(ts: seq<Token>, i: nat, x: multiset<Operator>, y: multiset<Operator>, z: multiset<Operator>)
    requires i < |ts|
    requires y == x + (if IsOperatorToken(ts[i]) then multiset{Classify(ts, i)} else multiset{})
    requires z == y + ClassifiedOps(ts, i + 1)
    ensures z == x + ClassifiedOps(ts, i)
  {
  }

  /** On success the output holds the operands of the input in their
      original order, exactly one `close` marker per `)`, and every operator
      token exactly once, as the operator its context makes it (a unary or
      a binary minus); nothing else is added or lost. */
  lemma ShuntCensus(ts: seq<Token>)
    ensures Shunt(ts).Ok? ==> Operands(Shunt(ts).value) == TokenOperands(ts, 0)
    ensures Shunt(ts).Ok? ==> Closes(Shunt(ts).value) == CloseParens(ts, 0)
    ensures Shunt(ts).Ok? ==> OpsOf(Shunt(ts).value) == ClassifiedOps(ts, 0)
  {
    ShuntFromCensus(ts, 0, [], []);
  }

  // ---------------------------------------------------------------------
  // Worked conversions

  lemma Fails(ts: seq<Token>, i: nat, out: seq<RpnItem>, stack: seq<Pending>, e: Error)
    requires i < |ts| && ShuntStep(ts, i, out, stack) == Err(e)
    ensures ShuntFrom(ts, i, out, stack) == Err(e)
  {
  }

  lemma Finishes(ts: seq<Token>, out: seq<RpnItem>, stack: seq<Pending>, r: Result<seq<RpnItem>>)
    requires r.Ok? ==> Finish(out, stack).Ok? && Finish(out, stack).value == r.value
    requires r.Err? ==> Finish(out, stack) == r
    ensures ShuntFrom(ts, |ts|, out, stack) == r
  {
  }

  /** The steps the worked conversions take, one token each, with the new
      output `o` and stack `s` given: an operand goes to the output; `(` is
      pushed; an operator is pushed after flushing nothing or one tighter
      operator; `)` meets a `(` with nothing or one operator above it; `,`
      meets a `(` directly. */
  lemma OperandStep(ts: seq<Token>, i: nat, out: seq<RpnItem>, stack: seq<Pending>, o: seq<RpnItem>)
    requires i < |ts| && !ts[i].OpTok? && o == out + TokenOperand(ts[i])
    ensures ShuntFrom(ts, i, out, stack) == ShuntFrom(ts, i + 1, o, stack)
  {
  }

  lemma OpenStep(ts: seq<Token>, i: nat, out: seq<RpnItem>, stack: seq<Pending>, s: seq<Pending>)
    requires i < |ts| && ts[i] == OpTok('(') && s == stack + [Open]
    ensures ShuntFrom(ts, i, out, stack) == ShuntFrom(ts, i + 1, out, s)
  {
  }

  lemma PushStep(ts: seq<Token>, i: nat, out: seq<RpnItem>, stack: seq<Pending>, op: Operator, s: seq<Pending>)
    requires i < |ts| && IsOperatorToken(ts[i]) && Classify(ts, i) == op
    requires stack == [] || Last(stack) == Open || !FlushesBefore(Last(stack).op, op)
    requires s == stack + [PendingOp(op)]
    ensures ShuntFrom(ts, i, out, stack) == ShuntFrom(ts, i + 1, out, s)
  {
    assert FlushFor(out, stack, op) == (out, stack);
  }

  lemma FlushOneStep(ts: seq<Token>, i: nat, out: seq<RpnItem>, stack: seq<Pending>, op: Operator,
                     o: seq<RpnItem>, s: seq<Pending>)
    requires i < |ts| && IsOperatorToken(ts[i]) && Classify(ts, i) == op
    requires stack != [] && Last(stack).PendingOp? && FlushesBefore(Last(stack).op, op)
    requires DropLast(stack) == [] || Last(DropLast(stack)) == Open
      || !FlushesBefore(Last(DropLast(stack)).op, op)
    requires o == out + [ROp(Last(stack).op)] && s == DropLast(stack) + [PendingOp(op)]
    ensures ShuntFrom(ts, i, out, stack) == ShuntFrom(ts, i + 1, o, s)
  {
    assert FlushFor(o, DropLast(stack), op) == (o, DropLast(stack));
  }

  lemma CloseStep(ts: seq<Token>, i: nat, out: seq<RpnItem>, stack: seq<Pending>, o: seq<RpnItem>, s: seq<Pending>)
    requires i < |ts| && ts[i] == OpTok(')')
    requires stack != [] && Last(stack) == Open
    requires o == out + [RClose] && s == DropLast(stack)
    ensures ShuntFrom(ts, i, out, stack) == ShuntFrom(ts, i + 1, o, s)
  {
    assert FlushToOpen(out, stack) == (out, stack);
  }

  lemma FlushOneToOpen(out: seq<RpnItem>, below: seq<Pending>, top: Operator)
    ensures FlushToOpen(out, below + [Open, PendingOp(top)]) == (out + [ROp(top)], below + [Open])
  {
    assert DropLast(below + [Open, PendingOp(top)]) == below + [Open];
  }

  lemma CloseFlushStep(ts: seq<Token>, i: nat, out: seq<RpnItem>, stack: seq<Pending>, o: seq<RpnItem>, below: seq<Pending>)
    requires i < |ts| && ts[i] == OpTok(')')
    requires FlushToOpen(out, stack) == (o, below + [Open])
    ensures ShuntFrom(ts, i, out, stack) == ShuntFrom(ts, i + 1, o + [RClose], below)
  {
    assert DropLast(below + [Open]) == below;
  }

  lemma CloseAfterOperatorStep(ts: seq<Token>, i: nat, out: seq<RpnItem>, stack: seq<Pending>,
                               o: seq<RpnItem>, s: seq<Pending>)
    requires i < |ts| && ts[i] == OpTok(')')
    requires |stack| >= 2 && Last(stack).PendingOp? && stack[|stack| - 2] == Open
    requires o == out + [ROp(Last(stack).op), RClose] && s == stack[..|stack| - 2]
    ensures ShuntFrom(ts, i, out, stack) == ShuntFrom(ts, i + 1, o, s)
  {
    assert stack == s + [Open, PendingOp(Last(stack).op)];
    FlushOneToOpen(out, s, Last(stack).op);
    CloseFlushStep(ts, i, out, stack, out + [ROp(Last(stack).op)], s);
    assert out + [ROp(Last(stack).op)] + [RClose] == o;
  }

  lemma CommaStep(ts: seq<Token>, i: nat, out: seq<RpnItem>, stack: seq<Pending>)
    requires i < |ts| && ts[i] == OpTok(',')
    requires stack != [] && Last(stack) == Open
    ensures ShuntFrom(ts, i, out, stack) == ShuntFrom(ts, i + 1, out, stack)
  {
    assert FlushToOpen(out, stack) == (out, stack);
  }

  /** `a^b^c` is `a b c ^ ^`: `^` groups to the right. */
  lemma PowerGroupsRight(a: Num, b: Num, c: Num)
    ensures Shunt([NumTok(a), OpTok('^'), NumTok(b), OpTok('^'), NumTok(c)])
      == Ok([RNum(a), RNum(b), RNum(c), ROp(Pow), ROp(Pow)])
  {
    var ts := [NumTok(a), OpTok('^'), NumTok(b), OpTok('^'), NumTok(c)];
    calc {
      Shunt(ts);
      ShuntFrom(ts, 0, [], []);
      { OperandStep(ts, 0, [], [], [RNum(a)]); }
      ShuntFrom(ts, 1, [RNum(a)], []);
      { PushStep(ts, 1, [RNum(a)], [], Pow, [PendingOp(Pow)]); }
      ShuntFrom(ts, 2, [RNum(a)], [PendingOp(Pow)]);
      { OperandStep(ts, 2, [RNum(a)], [PendingOp(Pow)], [RNum(a), RNum(b)]); }
      ShuntFrom(ts, 3, [RNum(a), RNum(b)], [PendingOp(Pow)]);
      { PushStep(ts, 3, [RNum(a), RNum(b)], [PendingOp(Pow)], Pow, [PendingOp(Pow), PendingOp(Pow)]); }
      ShuntFrom(ts, 4, [RNum(a), RNum(b)], [PendingOp(Pow), PendingOp(Pow)]);
      { OperandStep(ts, 4, [RNum(a), RNum(b)], [PendingOp(Pow), PendingOp(Pow)], [RNum(a), RNum(b), RNum(c)]); }
      ShuntFrom(ts, 5, [RNum(a), RNum(b), RNum(c)], [PendingOp(Pow), PendingOp(Pow)]);
      { Finishes(ts, [RNum(a), RNum(b), RNum(c)], [PendingOp(Pow), PendingOp(Pow)], Ok([RNum(a), RNum(b), RNum(c), ROp(Pow), ROp(Pow)])); }
      Ok([RNum(a), RNum(b), RNum(c), ROp(Pow), ROp(Pow)]);
    }
  }

  /** `a-b-c` is `a b - c -`: `-` groups to the left. */
  lemma MinusGroupsLeft(a: Num, b: Num, c: Num)
    ensures Shunt([NumTok(a), OpTok('-'), NumTok(b), OpTok('-'), NumTok(c)])
      == Ok([RNum(a), RNum(b), ROp(Sub), RNum(c), ROp(Sub)])
  {
    var ts := [NumTok(a), OpTok('-'), NumTok(b), OpTok('-'), NumTok(c)];
    calc {
      Shunt(ts);
      ShuntFrom(ts, 0, [], []);
      { OperandStep(ts, 0, [], [], [RNum(a)]); }
      ShuntFrom(ts, 1, [RNum(a)], []);
      { PushStep(ts, 1, [RNum(a)], [], Sub, [PendingOp(Sub)]); }
      ShuntFrom(ts, 2, [RNum(a)], [PendingOp(Sub)]);
      { OperandStep(ts, 2, [RNum(a)], [PendingOp(Sub)], [RNum(a), RNum(b)]); }
      ShuntFrom(ts, 3, [RNum(a), RNum(b)], [PendingOp(Sub)]);
      { FlushOneStep(ts, 3, [RNum(a), RNum(b)], [PendingOp(Sub)], Sub, [RNum(a), RNum(b), ROp(Sub)], [PendingOp(Sub)]); }
      ShuntFrom(ts, 4, [RNum(a), RNum(b), ROp(Sub)], [PendingOp(Sub)]);
      { OperandStep(ts, 4, [RNum(a), RNum(b), ROp(Sub)], [PendingOp(Sub)], [RNum(a), RNum(b), ROp(Sub), RNum(c)]); }
      ShuntFrom(ts, 5, [RNum(a), RNum(b), ROp(Sub), RNum(c)], [PendingOp(Sub)]);
      { Finishes(ts, [RNum(a), RNum(b), ROp(Sub), RNum(c)], [PendingOp(Sub)], Ok([RNum(a), RNum(b), ROp(Sub), RNum(c), ROp(Sub)])); }
      Ok([RNum(a), RNum(b), ROp(Sub), RNum(c), ROp(Sub)]);
    }
  }

  /** `-a^b` is `a u- b ^`, that is `(-a)^b`. */
  lemma LeadingMinusBindsTighterThanPower(a: Num, b: Num)
    ensures Shunt([OpTok('-'), NumTok(a), OpTok('^'), NumTok(b)])
      == Ok([RNum(a), ROp(Neg), RNum(b), ROp(Pow)])
  {
    var ts := [OpTok('-'), NumTok(a), OpTok('^'), NumTok(b)];
    calc {
      Shunt(ts);
      ShuntFrom(ts, 0, [], []);
      { PushStep(ts, 0, [], [], Neg, [PendingOp(Neg)]); }
      ShuntFrom(ts, 1, [], [PendingOp(Neg)]);
      { OperandStep(ts, 1, [], [PendingOp(Neg)], [RNum(a)]); }
      ShuntFrom(ts, 2, [RNum(a)], [PendingOp(Neg)]);
      { FlushOneStep(ts, 2, [RNum(a)], [PendingOp(Neg)], Pow, [RNum(a), ROp(Neg)], [PendingOp(Pow)]); }
      ShuntFrom(ts, 3, [RNum(a), ROp(Neg)], [PendingOp(Pow)]);
      { OperandStep(ts, 3, [RNum(a), ROp(Neg)], [PendingOp(Pow)], [RNum(a), ROp(Neg), RNum(b)]); }
      ShuntFrom(ts, 4, [RNum(a), ROp(Neg), RNum(b)], [PendingOp(Pow)]);
      { Finishes(ts, [RNum(a), ROp(Neg), RNum(b)], [PendingOp(Pow)], Ok([RNum(a), ROp(Neg), RNum(b), ROp(Pow)])); }
      Ok([RNum(a), ROp(Neg), RNum(b), ROp(Pow)]);
    }
  }

  /** `a+b*c` is `a b c * +`. */
  lemma ProductBeforeSum(a: Num, b: Num, c: Num)
    ensures Shunt([NumTok(a), OpTok('+'), NumTok(b), OpTok('*'), NumTok(c)])
      == Ok([RNum(a), RNum(b), RNum(c), ROp(Mul), ROp(Add)])
  {
    var ts := [NumTok(a), OpTok('+'), NumTok(b), OpTok('*'), NumTok(c)];
    calc {
      Shunt(ts);
      ShuntFrom(ts, 0, [], []);
      { OperandStep(ts, 0, [], [], [RNum(a)]); }
      ShuntFrom(ts, 1, [RNum(a)], []);
      { PushStep(ts, 1, [RNum(a)], [], Add, [PendingOp(Add)]); }
      ShuntFrom(ts, 2, [RNum(a)], [PendingOp(Add)]);
      { OperandStep(ts, 2, [RNum(a)], [PendingOp(Add)], [RNum(a), RNum(b)]); }
      ShuntFrom(ts, 3, [RNum(a), RNum(b)], [PendingOp(Add)]);
      { PushStep(ts, 3, [RNum(a), RNum(b)], [PendingOp(Add)], Mul, [PendingOp(Add), PendingOp(Mul)]); }
      ShuntFrom(ts, 4, [RNum(a), RNum(b)], [PendingOp(Add), PendingOp(Mul)]);
      { OperandStep(ts, 4, [RNum(a), RNum(b)], [PendingOp(Add), PendingOp(Mul)], [RNum(a), RNum(b), RNum(c)]); }
      ShuntFrom(ts, 5, [RNum(a), RNum(b), RNum(c)], [PendingOp(Add), PendingOp(Mul)]);
      { Finishes(ts, [RNum(a), RNum(b), RNum(c)], [PendingOp(Add), PendingOp(Mul)], Ok([RNum(a), RNum(b), RNum(c), ROp(Mul), ROp(Add)])); }
      Ok([RNum(a), RNum(b), RNum(c), ROp(Mul), ROp(Add)]);
    }
  }

  /** `a*-b` is `a b u- *`. */
  lemma MinusAfterOperatorIsUnary(a: Num, b: Num)
    ensures Shunt([NumTok(a), OpTok('*'), OpTok('-'), NumTok(b)])
      == Ok([RNum(a), RNum(b), ROp(Neg), ROp(Mul)])
  {
    var ts := [NumTok(a), OpTok('*'), OpTok('-'), NumTok(b)];
    calc {
      Shunt(ts);
      ShuntFrom(ts, 0, [], []);
      { OperandStep(ts, 0, [], [], [RNum(a)]); }
      ShuntFrom(ts, 1, [RNum(a)], []);
      { PushStep(ts, 1, [RNum(a)], [], Mul, [PendingOp(Mul)]); }
      ShuntFrom(ts, 2, [RNum(a)], [PendingOp(Mul)]);
      { PushStep(ts, 2, [RNum(a)], [PendingOp(Mul)], Neg, [PendingOp(Mul), PendingOp(Neg)]); }
      ShuntFrom(ts, 3, [RNum(a)], [PendingOp(Mul), PendingOp(Neg)]);
      { OperandStep(ts, 3, [RNum(a)], [PendingOp(Mul), PendingOp(Neg)], [RNum(a), RNum(b)]); }
      ShuntFrom(ts, 4, [RNum(a), RNum(b)], [PendingOp(Mul), PendingOp(Neg)]);
      { Finishes(ts, [RNum(a), RNum(b)], [PendingOp(Mul), PendingOp(Neg)], Ok([RNum(a), RNum(b), ROp(Neg), ROp(Mul)])); }
      Ok([RNum(a), RNum(b), ROp(Neg), ROp(Mul)]);
    }
  }

  /** `a!-b` is `a ! b -`. */
  lemma MinusAfterFactorialIsBinary(a: Num, b: Num)
    ensures Shunt([NumTok(a), OpTok('!'), OpTok('-'), NumTok(b)])
      == Ok([RNum(a), ROp(Bang), RNum(b), ROp(Sub)])
  {
    var ts := [NumTok(a), OpTok('!'), OpTok('-'), NumTok(b)];
    calc {
      Shunt(ts);
      ShuntFrom(ts, 0, [], []);
      { OperandStep(ts, 0, [], [], [RNum(a)]); }
      ShuntFrom(ts, 1, [RNum(a)], []);
      { PushStep(ts, 1, [RNum(a)], [], Bang, [PendingOp(Bang)]); }
      ShuntFrom(ts, 2, [RNum(a)], [PendingOp(Bang)]);
      { FlushOneStep(ts, 2, [RNum(a)], [PendingOp(Bang)], Sub, [RNum(a), ROp(Bang)], [PendingOp(Sub)]); }
      ShuntFrom(ts, 3, [RNum(a), ROp(Bang)], [PendingOp(Sub)]);
      { OperandStep(ts, 3, [RNum(a), ROp(Bang)], [PendingOp(Sub)], [RNum(a), ROp(Bang), RNum(b)]); }
      ShuntFrom(ts, 4, [RNum(a), ROp(Bang), RNum(b)], [PendingOp(Sub)]);
      { Finishes(ts, [RNum(a), ROp(Bang), RNum(b)], [PendingOp(Sub)], Ok([RNum(a), ROp(Bang), RNum(b), ROp(Sub)])); }
      Ok([RNum(a), ROp(Bang), RNum(b), ROp(Sub)]);
    }
  }

  /** `(-a)` is `a u- close`. */
  lemma MinusAfterOpenIsUnary(a: Num)
    ensures Shunt([OpTok('('), OpTok('-'), NumTok(a), OpTok(')')])
      == Ok([RNum(a), ROp(Neg), RClose])
  {
    var ts := [OpTok('('), OpTok('-'), NumTok(a), OpTok(')')];
    calc {
      Shunt(ts);
      ShuntFrom(ts, 0, [], []);
      { OpenStep(ts, 0, [], [], [Open]); }
      ShuntFrom(ts, 1, [], [Open]);
      { PushStep(ts, 1, [], [Open], Neg, [Open, PendingOp(Neg)]); }
      ShuntFrom(ts, 2, [], [Open, PendingOp(Neg)]);
      { OperandStep(ts, 2, [], [Open, PendingOp(Neg)], [RNum(a)]); }
      ShuntFrom(ts, 3, [RNum(a)], [Open, PendingOp(Neg)]);
      { CloseAfterOperatorStep(ts, 3, [RNum(a)], [Open, PendingOp(Neg)], [RNum(a), ROp(Neg), RClose], []); }
      ShuntFrom(ts, 4, [RNum(a), ROp(Neg), RClose], []);
      { Finishes(ts, [RNum(a), ROp(Neg), RClose], [], Ok([RNum(a), ROp(Neg), RClose])); }
      Ok([RNum(a), ROp(Neg), RClose]);
    }
  }

  /** `pi-a` is `pi a -`. */
  lemma MinusAfterNameIsBinary(a: Num)
    ensures Shunt([NameTok("pi"), OpTok('-'), NumTok(a)])
      == Ok([RName("pi"), RNum(a), ROp(Sub)])
  {
    var ts := [NameTok("pi"), OpTok('-'), NumTok(a)];
    calc {
      Shunt(ts);
      ShuntFrom(ts, 0, [], []);
      { OperandStep(ts, 0, [], [], [RName("pi")]); }
      ShuntFrom(ts, 1, [RName("pi")], []);
      { PushStep(ts, 1, [RName("pi")], [], Sub, [PendingOp(Sub)]); }
      ShuntFrom(ts, 2, [RName("pi")], [PendingOp(Sub)]);
      { OperandStep(ts, 2, [RName("pi")], [PendingOp(Sub)], [RName("pi"), RNum(a)]); }
      ShuntFrom(ts, 3, [RName("pi"), RNum(a)], [PendingOp(Sub)]);
      { Finishes(ts, [RName("pi"), RNum(a)], [PendingOp(Sub)], Ok([RName("pi"), RNum(a), ROp(Sub)])); }
      Ok([RName("pi"), RNum(a), ROp(Sub)]);
    }
  }

  /** `a*(b)` is `a b close *`. */
  lemma ParenthesisLeavesClose(a: Num, b: Num)
    ensures Shunt([NumTok(a), OpTok('*'), OpTok('('), NumTok(b), OpTok(')')])
      == Ok([RNum(a), RNum(b), RClose, ROp(Mul)])
  {
    var ts := [NumTok(a), OpTok('*'), OpTok('('), NumTok(b), OpTok(')')];
    calc {
      Shunt(ts);
      ShuntFrom(ts, 0, [], []);
      { OperandStep(ts, 0, [], [], [RNum(a)]); }
      ShuntFrom(ts, 1, [RNum(a)], []);
      { PushStep(ts, 1, [RNum(a)], [], Mul, [PendingOp(Mul)]); }
      ShuntFrom(ts, 2, [RNum(a)], [PendingOp(Mul)]);
      { OpenStep(ts, 2, [RNum(a)], [PendingOp(Mul)], [PendingOp(Mul), Open]); }
      ShuntFrom(ts, 3, [RNum(a)], [PendingOp(Mul), Open]);
      { OperandStep(ts, 3, [RNum(a)], [PendingOp(Mul), Open], [RNum(a), RNum(b)]); }
      ShuntFrom(ts, 4, [RNum(a), RNum(b)], [PendingOp(Mul), Open]);
      { CloseStep(ts, 4, [RNum(a), RNum(b)], [PendingOp(Mul), Open], [RNum(a), RNum(b), RClose], [PendingOp(Mul)]); }
      ShuntFrom(ts, 5, [RNum(a), RNum(b), RClose], [PendingOp(Mul)]);
      { Finishes(ts, [RNum(a), RNum(b), RClose], [PendingOp(Mul)], Ok([RNum(a), RNum(b), RClose, ROp(Mul)])); }
      Ok([RNum(a), RNum(b), RClose, ROp(Mul)]);
    }
  }

  /** `sin(a)` is `sin a close`. */
  lemma CallLeavesClose(a: Num)
    ensures Shunt([NameTok("sin"), OpTok('('), NumTok(a), OpTok(')')])
      == Ok([RName("sin"), RNum(a), RClose])
  {
    var ts := [NameTok("sin"), OpTok('('), NumTok(a), OpTok(')')];
    calc {
      Shunt(ts);
      ShuntFrom(ts, 0, [], []);
      { OperandStep(ts, 0, [], [], [RName("sin")]); }
      ShuntFrom(ts, 1, [RName("sin")], []);
      { OpenStep(ts, 1, [RName("sin")], [], [Open]); }
      ShuntFrom(ts, 2, [RName("sin")], [Open]);
      { OperandStep(ts, 2, [RName("sin")], [Open], [RName("sin"), RNum(a)]); }
      ShuntFrom(ts, 3, [RName("sin"), RNum(a)], [Open]);
      { CloseStep(ts, 3, [RName("sin"), RNum(a)], [Open], [RName("sin"), RNum(a), RClose], []); }
      ShuntFrom(ts, 4, [RName("sin"), RNum(a), RClose], []);
      { Finishes(ts, [RName("sin"), RNum(a), RClose], [], Ok([RName("sin"), RNum(a), RClose])); }
      Ok([RName("sin"), RNum(a), RClose]);
    }
  }

  /** `()` is `close` alone. */
  lemma EmptyParenthesesLeaveClose()
    ensures Shunt([OpTok('('), OpTok(')')]) == Ok([RClose])
  {
    var ts := [OpTok('('), OpTok(')')];
    calc {
      Shunt(ts);
      ShuntFrom(ts, 0, [], []);
      { OpenStep(ts, 0, [], [], [Open]); }
      ShuntFrom(ts, 1, [], [Open]);
      { CloseStep(ts, 1, [], [Open], [RClose], []); }
      ShuntFrom(ts, 2, [RClose], []);
      { Finishes(ts, [RClose], [], Ok([RClose])); }
      Ok([RClose]);
    }
  }

  /** `f(a,b)` is `f a b close`: the comma emits nothing. */
  lemma CommaLeavesNothing(a: Num, b: Num)
    ensures Shunt([NameTok("f"), OpTok('('), NumTok(a), OpTok(','), NumTok(b), OpTok(')')])
      == Ok([RName("f"), RNum(a), RNum(b), RClose])
  {
    var ts := [NameTok("f"), OpTok('('), NumTok(a), OpTok(','), NumTok(b), OpTok(')')];
    calc {
      Shunt(ts);
      ShuntFrom(ts, 0, [], []);
      { OperandStep(ts, 0, [], [], [RName("f")]); }
      ShuntFrom(ts, 1, [RName("f")], []);
      { OpenStep(ts, 1, [RName("f")], [], [Open]); }
      ShuntFrom(ts, 2, [RName("f")], [Open]);
      { OperandStep(ts, 2, [RName("f")], [Open], [RName("f"), RNum(a)]); }
      ShuntFrom(ts, 3, [RName("f"), RNum(a)], [Open]);
      { CommaStep(ts, 3, [RName("f"), RNum(a)], [Open]); }
      ShuntFrom(ts, 4, [RName("f"), RNum(a)], [Open]);
      { OperandStep(ts, 4, [RName("f"), RNum(a)], [Open], [RName("f"), RNum(a), RNum(b)]); }
      ShuntFrom(ts, 5, [RName("f"), RNum(a), RNum(b)], [Open]);
      { CloseStep(ts, 5, [RName("f"), RNum(a), RNum(b)], [Open], [RName("f"), RNum(a), RNum(b), RClose], []); }
      ShuntFrom(ts, 6, [RName("f"), RNum(a), RNum(b), RClose], []);
      { Finishes(ts, [RName("f"), RNum(a), RNum(b), RClose], [], Ok([RName("f"), RNum(a), RNum(b), RClose])); }
      Ok([RName("f"), RNum(a), RNum(b), RClose]);
    }
  }

  /** `a,b` is `Misplaced comma`. */
  lemma StrayCommaFails(a: Num, b: Num)
    ensures Shunt([NumTok(a), OpTok(','), NumTok(b)])
      == Err(MisplacedComma)
  {
    var ts := [NumTok(a), OpTok(','), NumTok(b)];
    calc {
      Shunt(ts);
      ShuntFrom(ts, 0, [], []);
      { OperandStep(ts, 0, [], [], [RNum(a)]); }
      ShuntFrom(ts, 1, [RNum(a)], []);
      { Fails(ts, 1, [RNum(a)], [], MisplacedComma); }
      Err(MisplacedComma);
    }
  }

  /** `a)` is `Mismatched )`. */
  lemma StrayCloseFails(a: Num)
    ensures Shunt([NumTok(a), OpTok(')')])
      == Err(MismatchedClose)
  {
    var ts := [NumTok(a), OpTok(')')];
    calc {
      Shunt(ts);
      ShuntFrom(ts, 0, [], []);
      { OperandStep(ts, 0, [], [], [RNum(a)]); }
      ShuntFrom(ts, 1, [RNum(a)], []);
      { Fails(ts, 1, [RNum(a)], [], MismatchedClose); }
      Err(MismatchedClose);
    }
  }

  /** `(a+b` is `Mismatched (`. */
  lemma UnclosedOpenFails(a: Num, b: Num)
    ensures Shunt([OpTok('('), NumTok(a), OpTok('+'), NumTok(b)])
      == Err(MismatchedOpen)
  {
    var ts := [OpTok('('), NumTok(a), OpTok('+'), NumTok(b)];
    calc {
      Shunt(ts);
      ShuntFrom(ts, 0, [], []);
      { OpenStep(ts, 0, [], [], [Open]); }
      ShuntFrom(ts, 1, [], [Open]);
      { OperandStep(ts, 1, [], [Open], [RNum(a)]); }
      ShuntFrom(ts, 2, [RNum(a)], [Open]);
      { PushStep(ts, 2, [RNum(a)], [Open], Add, [Open, PendingOp(Add)]); }
      ShuntFrom(ts, 3, [RNum(a)], [Open, PendingOp(Add)]);
      { OperandStep(ts, 3, [RNum(a)], [Open, PendingOp(Add)], [RNum(a), RNum(b)]); }
      ShuntFrom(ts, 4, [RNum(a), RNum(b)], [Open, PendingOp(Add)]);
      { Finishes(ts, [RNum(a), RNum(b)], [Open, PendingOp(Add)], Err(MismatchedOpen)); }
      Err(MismatchedOpen);
    }
  }
}
