/** The operator table of the calculator: precedence, associativity, arity
    and the postfix flag of every operator the converter can emit. */
module Operators {

  /** The eight entries of the table.  `Neg` is the synthetic unary minus
      (written `u-` in the table) and `Bang` the postfix factorial `!`. */
  datatype Operator = Add | Sub | Mul | Div | Mod | Pow | Neg | Bang

  /** The `prec` column: `+ -` bind weakest, then `* / %`, `^`, `u-`, and
      the postfix `!` binds tightest. */
  function Precedence(op: Operator): (p: nat)
    ensures 2 <= p <= 6
    ensures p == 2 <==> op == Add || op == Sub
    ensures p == 3 <==> op == Mul || op == Div || op == Mod
    ensures p == 4 <==> op == Pow
    ensures p == 5 <==> op == Neg
    ensures p == 6 <==> op == Bang
  {
    match op
    case Add | Sub => 2
    case Mul | Div | Mod => 3
    case Pow => 4
    case Neg => 5
    case Bang => 6
  }

  /** `^` and `u-` are right-associative; everything else is left-associative.
      The right-associative operators are exactly those of levels 4 and 5. */
  predicate LeftAssociative(op: Operator)
    ensures LeftAssociative(op) <==> Precedence(op) != 4 && Precedence(op) != 5
  {
    op != Pow && op != Neg
  }

  /** The args column: the operators above `^` take one operand. */
  function Arity(op: Operator): (n: nat)
    ensures n == 1 || n == 2
    ensures n == 1 <==> Precedence(op) > 4
  {
    if op == Neg || op == Bang then 1 else 2
  }

  /** The postfix column: only the tightest-binding operator, `!`, follows
      its operand. */
  predicate IsPostfix(op: Operator)
    ensures IsPostfix(op) <==> Precedence(op) == 6
    ensures IsPostfix(op) ==> Arity(op) == 1
  {
    op == Bang
  }

  /** The converter's flush test: an operator `top` already on the operator
      stack is moved to the output before `incoming` is pushed. */
  predicate FlushesBefore(top: Operator, incoming: Operator)
    ensures FlushesBefore(top, incoming) ==> Precedence(top) >= Precedence(incoming)
    ensures top == incoming ==> (FlushesBefore(top, incoming) <==> LeftAssociative(incoming))
    ensures Precedence(top) < Precedence(incoming) ==> !FlushesBefore(top, incoming)
  {
    Precedence(top) > Precedence(incoming)
    || (Precedence(top) == Precedence(incoming) && LeftAssociative(incoming))
  }

  /** The binary operator written with the character `c`. */
  function BinaryOperator(c: char): (op: Operator)
    requires c in "+-*/^%"
    ensures Arity(op) == 2 && !IsPostfix(op)
    ensures Precedence(op) == if c == '+' || c == '-' then 2 else if c == '^' then 4 else 3
    ensures LeftAssociative(op) <==> c != '^'
  {
    match c
    case '+' => Add
    case '-' => Sub
    case '*' => Mul
    case '/' => Div
    case '%' => Mod
    case '^' => Pow
  }

  /** What the table promises about grouping: the precedence levels are
      strictly ordered `+ -` < `* / %` < `^` < `u-` < `!`; equal precedence
      flushes exactly for the left-associative operators, so `^` and `u-`
      group to the right and the others to the left. */
  lemma GroupingRules()
    ensures forall a: Operator, b: Operator ::
      Precedence(a) == Precedence(b) ==> (FlushesBefore(a, b) <==> b !in {Pow, Neg})
    ensures FlushesBefore(Neg, Pow) && !FlushesBefore(Pow, Neg)
    ensures FlushesBefore(Bang, Neg) && FlushesBefore(Pow, Mul) && FlushesBefore(Mul, Add)
    ensures forall a: Operator :: FlushesBefore(Bang, a)
    ensures forall a: Operator :: a != Bang ==> !FlushesBefore(a, Bang)
  {
  }
}
