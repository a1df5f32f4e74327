/** Finite sums of non-negative terms. */
module Sums {

  function Sum(f: nat -> nat, n: nat): nat {
    if n == 0 then 0 else Sum(f, n - 1) + f(n - 1)
  }

  lemma {:induction false} SumSame(f: nat -> nat, g: nat -> nat, n: nat)
    requires forall j: nat :: j < n ==> f(j) == g(j)
    ensures Sum(f, n) == Sum(g, n)
  {
    if n > 0 {
      SumSame(f, g, n - 1);
    }
  }

  /** One term changes. */
  lemma {:induction false} SumChange(f: nat -> nat, g: nat -> nat, n: nat, k: nat)
    requires k < n && forall j: nat :: j < n && j != k ==> f(j) == g(j)
    ensures Sum(g, n) + f(k) == Sum(f, n) + g(k)
  {
    if k == n - 1 {
      SumSame(f, g, n - 1);
    } else {
      SumChange(f, g, n - 1, k);
    }
  }

  lemma {:induction false} TermBound(f: nat -> nat, n: nat, k: nat)
    requires k < n
    ensures f(k) <= Sum(f, n)
  {
    if k < n - 1 {
      TermBound(f, n - 1, k);
    }
  }

  /** A positive sum has a positive term. */
  lemma {:induction false} SomeTerm(f: nat -> nat, n: nat) returns (k: nat)
    requires Sum(f, n) > 0
    ensures k < n && f(k) > 0
  {
    if f(n - 1) > 0 {
      k := n - 1;
    } else {
      k := SomeTerm(f, n - 1);
    }
  }

  lemma {:induction false} ZeroTerms(f: nat -> nat, n: nat)
    requires forall j: nat :: j < n ==> f(j) == 0
    ensures Sum(f, n) == 0
  {
    if n > 0 {
      ZeroTerms(f, n - 1);
    }
  }

  /** A sum with one term. */
  lemma {:induction false} OneTerm(f: nat -> nat, n: nat, k: nat)
    requires k < n && forall j: nat :: j < n && j != k ==> f(j) == 0
    ensures Sum(f, n) == f(k)
  {
    if k == n - 1 {
      ZeroTerms(f, k);
    } else {
      OneTerm(f, n - 1, k);
    }
  }
}
