/** The string panel's two pure helpers. Spreading a JavaScript string
    (`[...s]`) splits it into code points, which is what a Dafny `char`
    is, so both work on the sequence itself. */
module Strings {

  /** `strLen`: the number of code points. */
  function StrLen(s: string): (n: nat)
    ensures n == 0 <==> s == []
  {
    |s|
  }

  /** `reverseStr`: the code points in the opposite order. */
  function Reverse(s: string): (r: string)
    ensures |r| == |s|
    ensures forall i :: 0 <= i < |s| ==> r[i] == s[|s| - 1 - i]
    decreases |s|
  {
    if s == [] then [] else Reverse(s[1..]) + [s[0]]
  }

  /** Reversing twice gives the string back. */
  lemma ReverseInvolution(s: string)
    ensures Reverse(Reverse(s)) == s
  {
  }

  /** Reversal turns a concatenation around. */
  lemma {:induction false} ReverseAppend(a: string, b: string)
    ensures Reverse(a + b) == Reverse(b) + Reverse(a)
    decreases |a|
  {
    if a == [] {
      assert a + b == b;
      assert Reverse(b) + [] == Reverse(b);
    } else {
      assert (a + b)[1..] == a[1..] + b;
      ReverseAppend(a[1..], b);
      assert Reverse(a + b) == Reverse(a[1..] + b) + [a[0]];
      assert Reverse(b) + Reverse(a[1..]) + [a[0]] == Reverse(b) + (Reverse(a[1..]) + [a[0]]);
    }
  }

  /** Length is additive and blind to order. */
  lemma StrLenLaws(a: string, b: string)
    ensures StrLen(a + b) == StrLen(a) + StrLen(b)
    ensures StrLen(Reverse(a)) == StrLen(a)
    ensures StrLen(a) == 0 <==> a == []
  {
  }
}
