/** Binomial coefficients, as Pascal's triangle. */
module Binomials {

  function Choose(n: int, k: nat): nat
    decreases k, if n < 0 then 0 else n
  {
    if k == 0 then 1 else if n <= 0 then 0 else Choose(n - 1, k - 1) + Choose(n - 1, k)
  }

  lemma {:induction false} ChooseZero(n: int, k: nat)
    requires n < k && 0 < k
    ensures Choose(n, k) == 0
    decreases k, if n < 0 then 0 else n
  {
    if n > 0 {
      ChooseZero(n - 1, k - 1);
      ChooseZero(n - 1, k);
    }
  }

  lemma {:induction false} ChooseAll(n: nat)
    ensures Choose(n, n) == 1
  {
    if n > 0 {
      ChooseAll(n - 1);
      ChooseZero(n - 1, n);
    }
  }

  lemma {:induction false} ChooseOne(n: nat)
    ensures Choose(n, 1) == n
  {
    if n > 0 {
      ChooseOne(n - 1);
      assert Choose(n - 1, 0) == 1;
    }
  }

  /** The identity behind the exact division of the skipping loop. */
  lemma {:induction false} Absorption(n: nat, k: nat)
    requires n > 0 && k > 0
    ensures k * Choose(n, k) == n * Choose(n - 1, k - 1)
    decreases n
  {
    if k == 1 {
      ChooseOne(n);
    } else if n == 1 {
      ChooseZero(1, k);
      ChooseZero(0, k - 1);
    } else {
      Absorption(n - 1, k - 1);
      Absorption(n - 1, k);
      Distribute(n, k, Choose(n - 2, k - 2), Choose(n - 2, k - 1), Choose(n - 1, k));
    }
  }

  lemma Distribute(n: int, k: int, a: int, b: int, rest: int)
    requires (k - 1) * (a + b) == (n - 1) * a && k * rest == (n - 1) * b
    ensures k * ((a + b) + rest) == n * (a + b)
  {
    assert k * ((a + b) + rest) == (k - 1) * (a + b) + (a + b) + k * rest;
    assert n * (a + b) == (n - 1) * a + (n - 1) * b + (a + b);
  }

  lemma {:induction false} ChooseGrows(z: nat, s: nat)
    requires s > 0
    ensures Choose(z + s, s) >= z + 1
    decreases z + s
  {
    if s == 1 {
      ChooseOne(z + 1);
    } else if z == 0 {
      ChooseAll(s);
    } else {
      ChooseGrows(z, s - 1);
    }
  }
}
