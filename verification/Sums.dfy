/** Finite sums of a weight over table indices. */
module Sums {
  function Sum(n: nat, f: nat -> int): int {
    if n == 0 then 0 else Sum(n - 1, f) + f(n - 1)
  }

  /** Two weights that agree except at one index. */
  lemma {:induction false} SumChange(n: nat, f: nat -> int, g: nat -> int, i: nat)
    requires forall k: nat :: k < n && k != i ==> f(k) == g(k)
    ensures Sum(n, g) == Sum(n, f) + (if i < n then g(i) - f(i) else 0)
  {
    if n > 0 {
      SumChange(n - 1, f, g, i);
    }
  }

  lemma {:induction false} SumLeq(n: nat, f: nat -> int, g: nat -> int)
    requires forall k: nat :: k < n ==> f(k) <= g(k)
    ensures Sum(n, f) <= Sum(n, g)
  {
    if n > 0 {
      SumLeq(n - 1, f, g);
    }
  }

  lemma {:induction false} SumBounds(n: nat, f: nat -> int, lo: int, hi: int)
    requires forall k: nat :: k < n ==> lo <= f(k) <= hi
    ensures n * lo <= Sum(n, f) <= n * hi
  {
    if n > 0 {
      SumBounds(n - 1, f, lo, hi);
      assert n * lo == (n - 1) * lo + lo && n * hi == (n - 1) * hi + hi;
    }
  }

  /** One term of a sum of non-negative terms. */
  lemma {:induction false} SumTerm(n: nat, f: nat -> int, i: nat)
    requires forall k: nat :: k < n ==> f(k) >= 0
    requires i < n
    ensures Sum(n, f) >= f(i)
  {
    if i < n - 1 {
      SumTerm(n - 1, f, i);
    } else {
      SumBounds(n - 1, f, 0, Max(n - 1, f));
    }
  }

  function Max(n: nat, f: nat -> int): (m: int)
    ensures forall k: nat :: k < n ==> f(k) <= m
  {
    if n == 0 then 0 else if f(n - 1) > Max(n - 1, f) then f(n - 1) else Max(n - 1, f)
  }

  lemma {:induction false} SumAdd(n: nat, f: nat -> int, g: nat -> int, h: nat -> int)
    requires forall k: nat :: k < n ==> h(k) == f(k) + g(k)
    ensures Sum(n, h) == Sum(n, f) + Sum(n, g)
  {
    if n > 0 {
      SumAdd(n - 1, f, g, h);
    }
  }
}
