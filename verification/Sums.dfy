/** Finite sums of reals, Sum(n, f) = f(0) + ... + f(n-1), and the laws the proofs use. */
module Sums {

  function Sum(n: nat, f: nat -> real): real {
    if n == 0 then 0.0 else Sum(n - 1, f) + f(n - 1)
  }

  lemma {:induction false} SumCongr(n: nat, f: nat -> real, g: nat -> real)
    requires forall i: nat :: i < n ==> f(i) == g(i)
    ensures Sum(n, f) == Sum(n, g)
  {
    if n > 0 { SumCongr(n - 1, f, g); }
  }

  lemma {:induction false} SumZero(n: nat, f: nat -> real)
    requires forall i: nat :: i < n ==> f(i) == 0.0
    ensures Sum(n, f) == 0.0
  {
    if n > 0 { SumZero(n - 1, f); }
  }

  lemma {:induction false} SumPlus(n: nat, f: nat -> real, g: nat -> real, h: nat -> real)
    requires forall i: nat :: i < n ==> h(i) == f(i) + g(i)
    ensures Sum(n, h) == Sum(n, f) + Sum(n, g)
  {
    if n > 0 { SumPlus(n - 1, f, g, h); }
  }

  lemma {:induction false} SumTimes(n: nat, c: real, f: nat -> real, h: nat -> real)
    requires forall i: nat :: i < n ==> h(i) == c * f(i)
    ensures Sum(n, h) == c * Sum(n, f)
  {
    if n > 0 {
      SumTimes(n - 1, c, f, h);
      assert c * (Sum(n - 1, f) + f(n - 1)) == c * Sum(n - 1, f) + c * f(n - 1);
    }
  }

  lemma {:induction false} SumLeq(n: nat, f: nat -> real, g: nat -> real)
    requires forall i: nat :: i < n ==> f(i) <= g(i)
    ensures Sum(n, f) <= Sum(n, g)
  {
    if n > 0 { SumLeq(n - 1, f, g); }
  }

  lemma SumNonNeg(n: nat, f: nat -> real)
    requires forall i: nat :: i < n ==> f(i) >= 0.0
    ensures Sum(n, f) >= 0.0
  {
    SumZero(n, (_: nat) => 0.0);
    SumLeq(n, (_: nat) => 0.0, f);
  }

  /** Two summands lists that differ at k only. */
  lemma {:induction false} SumChange(n: nat, f: nat -> real, g: nat -> real, k: nat)
    requires k < n && forall i: nat :: i < n && i != k ==> f(i) == g(i)
    ensures Sum(n, g) == Sum(n, f) - f(k) + g(k)
  {
    if k == n - 1 {
      SumCongr(n - 1, f, g);
    } else {
      SumChange(n - 1, f, g, k);
    }
  }

  lemma SumOnly(n: nat, f: nat -> real, k: nat)
    requires k < n && forall i: nat :: i < n && i != k ==> f(i) == 0.0
    ensures Sum(n, f) == f(k)
  {
    SumZero(n, (_: nat) => 0.0);
    SumChange(n, (_: nat) => 0.0, f, k);
  }

  /** A non-negative sum is at least each of its terms. */
  lemma {:induction false} SumAtLeast(n: nat, f: nat -> real, k: nat)
    requires k < n && forall i: nat :: i < n ==> f(i) >= 0.0
    ensures Sum(n, f) >= f(k)
  {
    if k == n - 1 {
      SumNonNeg(n - 1, f);
    } else {
      SumAtLeast(n - 1, f, k);
    }
  }

  lemma {:induction false} SumPositiveTerm(n: nat, f: nat -> real) returns (k: nat)
    requires Sum(n, f) > 0.0 && forall i: nat :: i < n ==> f(i) >= 0.0
    ensures k < n && f(k) > 0.0
  {
    if f(n - 1) > 0.0 {
      k := n - 1;
    } else {
      k := SumPositiveTerm(n - 1, f);
    }
  }

  function Row(F: (nat, nat) -> real, i: nat): nat -> real {
    (j: nat) => F(i, j)
  }

  function Col(F: (nat, nat) -> real, j: nat): nat -> real {
    (i: nat) => F(i, j)
  }

  /** The order of summation can be exchanged. */
  lemma {:induction false} SumSwap(n: nat, m: nat, F: (nat, nat) -> real, rows: nat -> real, cols: nat -> real)
    requires forall i: nat :: i < n ==> rows(i) == Sum(m, Row(F, i))
    requires forall j: nat :: j < m ==> cols(j) == Sum(n, Col(F, j))
    ensures Sum(n, rows) == Sum(m, cols)
  {
    if n == 0 {
      SumZero(m, cols);
    } else {
      var head := (j: nat) => Sum(n - 1, Col(F, j));
      SumSwap(n - 1, m, F, rows, head);
      SumPlus(m, head, Row(F, n - 1), cols);
    }
  }

  /** A product that proofs can keep folded. */
  function Times(x: real, y: real): real {
    x * y
  }

  lemma MulNonNeg(x: real, y: real)
    requires x >= 0.0 && y >= 0.0
    ensures x * y >= 0.0
    ensures x * y > 0.0 <==> x > 0.0 && y > 0.0
  {
  }

  lemma MulMono(c: real, x: real, y: real)
    requires c >= 0.0 && x <= y
    ensures c * x <= c * y
  {
  }

  lemma DivNonNeg(x: real, y: real)
    requires x >= 0.0 && y > 0.0
    ensures x / y >= 0.0
  {
  }

  lemma SelfRatio(x: real)
    requires x != 0.0
    ensures x / x == 1.0
  {
  }

  function Total(s: seq<real>): real {
    if s == [] then 0.0 else Total(s[..|s| - 1]) + s[|s| - 1]
  }

  function Abs(x: real): real {
    if x < 0.0 then -x else x
  }

  lemma {:induction false} SumAbs(n: nat, f: nat -> real, g: nat -> real)
    requires forall i: nat :: i < n ==> g(i) == Abs(f(i))
    ensures Abs(Sum(n, f)) <= Sum(n, g)
  {
    if n > 0 { SumAbs(n - 1, f, g); }
  }
}
