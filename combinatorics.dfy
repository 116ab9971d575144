/** Integer combinatorics: the factorial behind the postfix `!`, and the two
    call forms `nPr(n, r)` and `nCr(n, r)`.  The mathematics is exact, over
    `nat`; the `...Of` functions add the range and integrality checks the
    engine makes on JavaScript numbers and divide factorials as it does. */
module Combinatorics {
  import opened Operators
  import opened Host

  /** n!, with 0! = 1. */
  function Fact(n: nat): (r: nat)
    ensures r >= 1
    ensures r >= n
  {
    if n <= 1 then 1 else n * Fact(n - 1)
  }

  /** `fact`'s loop, `r = 1; for (i = 2; i <= n; i++) r *= i`. */
  method ComputeFact(n: nat) returns (r: nat)
    ensures r == Fact(n)
  {
    r := 1;
    var i := 2;
    while i <= n
      invariant 2 <= i <= n + 1 || (i == 2 && n < 2)
      invariant r == Fact(i - 1)
    {
      FactStep(i);
      r := r * i;
      i := i + 1;
    }
  }

  /** Ordered selections of r out of n: the falling product n (n-1) ... (n-r+1). */
  function Permutations(n: nat, r: nat): (p: nat)
    requires r <= n
    ensures p >= 1
    ensures r >= 1 ==> p >= n
    ensures r == 1 ==> p == n
  {
    if r == 0 then 1 else n * Permutations(n - 1, r - 1)
  }

  /** Unordered selections of r out of n, by Pascal's triangle. */
  function Combinations(n: nat, r: nat): (c: nat)
    requires r <= n
    ensures c >= 1
    ensures r == 1 || r + 1 == n ==> c == n
  {
    if r == 0 || r == n then 1 else Combinations(n - 1, r - 1) + Combinations(n - 1, r)
  }

  lemma FactStep(n: nat)
    requires n >= 1
    ensures Fact(n) == n * Fact(n - 1)
  {
  }

  lemma MulAssoc(a: nat, b: nat, c: nat)
    ensures a * (b * c) == (a * b) * c
  {
  }

  lemma MulAtLeast(k: nat, b: nat)
    requires k >= 1
    ensures k * b >= b
  {
  }

  lemma MulSubDistrib(hi: nat, lo: nat, f: nat)
    requires lo <= hi
    ensures hi * f - lo * f == (hi - lo) * f
  {
  }

  lemma MulComm(a: nat, b: nat)
    ensures a * b == b * a
  {
  }

  lemma CastMul(a: nat, b: nat)
    ensures (a * b) as real == (a as real) * (b as real)
  {
  }

  lemma MulPositive(a: nat, b: nat)
    requires a > 0 && b > 0
    ensures a * b > 0
  {
  }

  lemma CancelRight(x: nat, y: nat, f: nat)
    requires f > 0 && x * f == y * f
    ensures x == y
  {
    if x != y {
      var lo, hi := if x < y then x else y, if x < y then y else x;
      MulSubDistrib(hi, lo, f);
      MulAtLeast(hi - lo, f);
    }
  }

  /** n! splits into the r-factor falling product and (n-r)!, so the
      quotient n! / (n-r)! that `nPr` computes is exact. */
  lemma {:induction false} FactSplit(n: nat, r: nat)
    requires r <= n
    ensures Fact(n) == Permutations(n, r) * Fact(n - r)
  {
    if r > 0 {
      FactSplit(n - 1, r - 1);
      FactStep(n);
      MulAssoc(n, Permutations(n - 1, r - 1), Fact(n - r));
    }
  }

  lemma PascalArithmetic(a: nat, b: nat, r: nat, k: nat, fr1: nat, fk1: nat, whole: nat)
    requires a * (fr1 * (k * fk1)) == whole
    requires b * ((r * fr1) * fk1) == whole
    ensures (a + b) * ((r * fr1) * (k * fk1)) == (r + k) * whole
  {
    calc {
      (a + b) * ((r * fr1) * (k * fk1));
      a * ((r * fr1) * (k * fk1)) + b * ((r * fr1) * (k * fk1));
      r * (a * (fr1 * (k * fk1))) + k * (b * ((r * fr1) * fk1));
    }
  }

  /** The entry of Pascal's triangle times r! (n-r)! is n!, so the quotient
      n! / (r! (n-r)!) that `nCr` computes is exact. */
  lemma {:induction false} CombinationsTimesFacts(n: nat, r: nat)
    requires r <= n
    ensures Combinations(n, r) * (Fact(r) * Fact(n - r)) == Fact(n)
  {
    if r == 0 || r == n {
    } else {
      CombinationsTimesFacts(n - 1, r - 1);
      CombinationsTimesFacts(n - 1, r);
      FactStep(n);
      FactStep(r);
      FactStep(n - r);
      assert n - 1 - (r - 1) == n - r;
      PascalArithmetic(Combinations(n - 1, r - 1), Combinations(n - 1, r), r, n - r,
                       Fact(r - 1), Fact(n - 1 - r), Fact(n - 1));
    }
  }

  /** Choosing r out of n is choosing the n-r left out: nCr(n, r) = nCr(n, n-r). */
  lemma CombinationsSymmetric(n: nat, r: nat)
    requires r <= n
    ensures Combinations(n, r) == Combinations(n, n - r)
  {
    var k := n - r;
    assert n - k == r;
    CombinationsTimesFacts(n, r);
    CombinationsTimesFacts(n, k);
    var fr, fk := Fact(r), Fact(k);
    MulComm(fk, fr);
    MulPositive(fr, fk);
    CancelRight(Combinations(n, r), Combinations(n, k), fr * fk);
  }

  /** An ordered selection is an unordered one in some order: nPr = nCr * r!. */
  lemma PermutationsAreOrderedCombinations(n: nat, r: nat)
    requires r <= n
    ensures Permutations(n, r) == Combinations(n, r) * Fact(r)
  {
    FactSplit(n, r);
    CombinationsTimesFacts(n, r);
    MulAssoc(Combinations(n, r), Fact(r), Fact(n - r));
    CancelRight(Permutations(n, r), Combinations(n, r) * Fact(r), Fact(n - r));
  }

  /** A finite double that is a natural number. */
  predicate IsNat(v: real)
  {
    v >= 0.0 && v.Floor as real == v
  }

  function AsNat(v: real): (n: nat)
    requires IsNat(v)
    ensures n as real == v
  {
    v.Floor
  }

  /** `fact` on a JavaScript number: it throws `Invalid factorial` for NaN,
      the infinities and negatives, `n! requires integer n` for a fraction,
      and otherwise gives the factorial of the natural number. */
  function FactOf(x: Num): (res: Result<Num>)
    ensures res == Err(InvalidFactorial) <==> !x.Finite? || x.value < 0.0
    ensures res == Err(FactorialNeedsInteger) <==> x.Finite? && x.value >= 0.0 && !IsNat(x.value)
    ensures res.Ok? <==> x.Finite? && IsNat(x.value)
    ensures res.Ok? ==> res.value.Finite? && res.value.value == Fact(AsNat(x.value)) as real
  {
    if !x.Finite? || x.value < 0.0 then Err(InvalidFactorial)
    else if x.value.Floor as real != x.value then Err(FactorialNeedsInteger)
    else Ok(Finite(Fact(x.value.Floor) as real))
  }

  /** `fact(0) = fact(1) = 1` and `fact(n) = n * fact(n - 1)` above that. */
  lemma FactOfRecurrence(n: nat)
    ensures FactOf(Finite(0.0)) == Ok(Finite(1.0)) && FactOf(Finite(1.0)) == Ok(Finite(1.0))
    ensures n >= 1 ==> FactOf(Finite(n as real)).value.value
                         == n as real * FactOf(Finite((n - 1) as real)).value.value
  {
    assert AsNat(n as real) == n;
    if n >= 1 {
      assert AsNat((n - 1) as real) == n - 1;
      FactStep(n);
    }
  }

  function RealOf(v: Value): real
    requires IsFiniteValue(v)
  {
    v.num.value
  }

  /** Both arguments are finite numbers, in the range 0 <= r <= n. */
  predicate InRange(n: Value, r: Value)
  {
    IsFiniteValue(n) && IsFiniteValue(r) && 0.0 <= RealOf(r) <= RealOf(n)
  }

  /** `nPr(n, r)` on the values of its two argument expressions: the
      finiteness check, the range check, then fact(n) / fact(n-r). */
  function NPrOf(n: Value, r: Value): (res: Result<Num>)
    ensures res == Err(NPrInvalid) <==> !IsFiniteValue(n) || !IsFiniteValue(r)
    ensures res == Err(NPrRange) <==> IsFiniteValue(n) && IsFiniteValue(r) && !InRange(n, r)
    ensures res.Ok? <==> InRange(n, r) && IsNat(RealOf(n)) && IsNat(RealOf(r))
    ensures res.Ok? ==>
      AsNat(RealOf(r)) <= AsNat(RealOf(n)) &&
      res.value == Finite(Permutations(AsNat(RealOf(n)), AsNat(RealOf(r))) as real)
    ensures res.Err? ==> res.error in {NPrInvalid, NPrRange, FactorialNeedsInteger}
  {
    if !IsFiniteValue(n) || !IsFiniteValue(r) then Err(NPrInvalid)
    else
      var a, b := RealOf(n), RealOf(r);
      if a < 0.0 || b < 0.0 || b > a then Err(NPrRange)
      else
        NatDifference(a, b);
        match (FactOf(Finite(a)), FactOf(Finite(a - b)))
        case (Err(e), _) => Err(e)
        case (_, Err(e)) => Err(e)
        case (Ok(p), Ok(q)) =>
          NPrExactly(a, b);
          Ok(Finite(p.value / q.value))
  }

  /** `nCr(n, r)` on the values of its two argument expressions: the
      finiteness check, the range check, then fact(n) / (fact(r) fact(n-r)). */
  function NCrOf(n: Value, r: Value): (res: Result<Num>)
    ensures res == Err(NCrInvalid) <==> !IsFiniteValue(n) || !IsFiniteValue(r)
    ensures res == Err(NCrRange) <==> IsFiniteValue(n) && IsFiniteValue(r) && !InRange(n, r)
    ensures res.Ok? <==> InRange(n, r) && IsNat(RealOf(n)) && IsNat(RealOf(r))
    ensures res.Ok? ==>
      AsNat(RealOf(r)) <= AsNat(RealOf(n)) &&
      res.value == Finite(Combinations(AsNat(RealOf(n)), AsNat(RealOf(r))) as real)
    ensures res.Err? ==> res.error in {NCrInvalid, NCrRange, FactorialNeedsInteger}
  {
    if !IsFiniteValue(n) || !IsFiniteValue(r) then Err(NCrInvalid)
    else
      var a, b := RealOf(n), RealOf(r);
      if a < 0.0 || b < 0.0 || b > a then Err(NCrRange)
      else
        NatDifference(a, b);
        match (FactOf(Finite(a)), FactOf(Finite(b)), FactOf(Finite(a - b)))
        case (Err(e), _, _) => Err(e)
        case (_, Err(e), _) => Err(e)
        case (_, _, Err(e)) => Err(e)
        case (Ok(p), Ok(q), Ok(s)) =>
          NCrExactly(AsNat(a), AsNat(b));
          Ok(Finite(DivideByProduct(p.value, q.value, s.value)))
  }

  lemma NatDifference(a: real, b: real)
    requires 0.0 <= b <= a
    ensures IsNat(a) && IsNat(a - b) <==> IsNat(a) && IsNat(b)
    ensures IsNat(a) && IsNat(b) ==> AsNat(b) <= AsNat(a) && AsNat(a - b) == AsNat(a) - AsNat(b)
  {
    if IsNat(a) && IsNat(a - b) {
      var k: int := a.Floor - (a - b).Floor;
      assert k as real == b;
      assert b.Floor == k;
    }
    if IsNat(a) && IsNat(b) {
      var k: int := a.Floor - b.Floor;
      assert k as real == a - b;
      assert (a - b).Floor == k;
    }
  }

  lemma RealQuotient(x: nat, y: nat, q: nat)
    requires y > 0 && x == q * y
    ensures (x as real) / (y as real) == q as real
  {
    assert (x as real) == (q as real) * (y as real);
  }

  /** The real quotient n! / (n-r)! is the natural number nPr(n, r). */
  lemma NPrExactly(a: real, b: real)
    requires 0.0 <= b <= a && IsNat(a) && IsNat(b)
    ensures IsNat(a - b) && AsNat(b) <= AsNat(a)
    ensures (Fact(AsNat(a)) as real) / (Fact(AsNat(a - b)) as real)
              == Permutations(AsNat(a), AsNat(b)) as real
  {
    NatDifference(a, b);
    var n, r := AsNat(a), AsNat(b);
    FactSplit(n, r);
    RealQuotient(Fact(n), Fact(n - r), Permutations(n, r));
  }

  /** Real division by a product of two factorials, as `nCr` divides. */
  function DivideByProduct(x: real, y: real, z: real): real
    requires y >= 1.0 && z >= 1.0
  {
    ProductAtLeastOne(y, z);
    x / (y * z)
  }

  lemma ProductAtLeastOne(y: real, z: real)
    requires y >= 1.0 && z >= 1.0
    ensures y * z >= 1.0
  {
  }

  lemma ExactRatio(c: nat, fr: nat, fk: nat, f: nat)
    requires fr >= 1 && fk >= 1 && c * (fr * fk) == f
    ensures DivideByProduct(f as real, fr as real, fk as real) == c as real
  {
    CastMul(fr, fk);
    CastMul(c, fr * fk);
    ProductAtLeastOne(fr as real, fk as real);
    var d := (fr as real) * (fk as real);
    assert (f as real) == (c as real) * d;
    assert (f as real) / d == c as real;
  }

  /** The real quotient n! / (r! (n-r)!) is the natural number nCr(n, r). */
  lemma NCrExactly(n: nat, r: nat)
    requires r <= n
    ensures DivideByProduct(Fact(n) as real, Fact(r) as real, Fact(n - r) as real)
            == Combinations(n, r) as real
  {
    CombinationsTimesFacts(n, r);
    ExactRatio(Combinations(n, r), Fact(r), Fact(n - r), Fact(n));
  }
}
