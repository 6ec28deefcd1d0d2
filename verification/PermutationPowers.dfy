/** Powers of a permutation (permutationPower in singular/gitfanparallel.lib), with negative exponents. */
module PermutationPowers {
  import opened Permutations

  ghost function Power(p: Perm, n: nat, k: nat): (r: Perm)
    requires IsPerm(p, n)
    ensures IsPerm(r, n)
  {
    if k == 0 then Identity(n) else Compose(Power(p, n, k - 1), p)
  }

  lemma {:induction false} PowerAdd(p: Perm, n: nat, j: nat, k: nat)
    requires IsPerm(p, n)
    ensures Compose(Power(p, n, j), Power(p, n, k)) == Power(p, n, j + k)
    decreases k
  {
    if k == 0 {
      IdentityNeutral(Power(p, n, j), n);
    } else {
      PowerAdd(p, n, j, k - 1);
      ComposeAssociates(Power(p, n, j), Power(p, n, k - 1), p, n);
    }
  }

  /** The powers of an inverse are the inverses of the powers. */
  lemma {:induction false} PowerOfInverse(p: Perm, q: Perm, n: nat, k: nat)
    requires IsPerm(p, n) && IsPerm(q, n) && Compose(q, p) == Identity(n)
    ensures Compose(Power(q, n, k), Power(p, n, k)) == Identity(n)
  {
    if k == 0 {
      IdentityNeutral(Identity(n), n);
    } else {
      PowerOfInverse(p, q, n, k - 1);
      PowerFromFront(p, n, k);
      MiddleCancels(Power(q, n, k - 1), q, p, Power(p, n, k - 1), n);
    }
  }

  lemma PowerFromFront(p: Perm, n: nat, k: nat)
    requires IsPerm(p, n) && k > 0
    ensures Power(p, n, k) == Compose(p, Power(p, n, k - 1))
  {
    FirstPower(p, n);
    PowerAdd(p, n, 1, k - 1);
  }

  lemma FirstPower(p: Perm, n: nat)
    requires IsPerm(p, n)
    ensures Power(p, n, 1) == p
  {
    IdentityNeutral(p, n);
    assert Power(p, n, 0) == Identity(n);
  }

  lemma MiddleCancels(a: Perm, q: Perm, p: Perm, b: Perm, n: nat)
    requires IsPerm(a, n) && IsPerm(q, n) && IsPerm(p, n) && IsPerm(b, n) && Compose(q, p) == Identity(n)
    ensures IsPerm(Compose(a, q), n) && IsPerm(Compose(p, b), n)
    ensures Compose(Compose(a, q), Compose(p, b)) == Compose(a, b)
  {
    ComposeAssociates(a, q, Compose(p, b), n);
    ComposeAssociates(q, p, b, n);
    IdentityNeutral(b, n);
  }

  /** Inverting the image vector. */
  method Inverted(sigma: Perm, n: nat) returns (inverse: Perm)
    requires IsPerm(sigma, n)
    ensures IsPerm(inverse, n) && Compose(inverse, sigma) == Identity(n)
  {
    inverse := sigma;
    var i := 0;
    while i < |sigma|
      invariant i <= |sigma| == |inverse|
      invariant forall j :: 0 <= j < i ==> inverse[sigma[j]] == j
    {
      inverse := inverse[sigma[i] := i];
      i := i + 1;
    }
    InverseIsPerm(sigma, inverse, n);
  }

  lemma InverseIsPerm(sigma: Perm, inverse: Perm, n: nat)
    requires IsPerm(sigma, n) && |inverse| == n && forall j :: 0 <= j < n ==> inverse[sigma[j]] == j
    ensures IsPerm(inverse, n) && Compose(inverse, sigma) == Identity(n)
  {
    forall i | 0 <= i < n
      ensures inverse[i] < n && sigma[inverse[i]] == i
    {
      var j := Preimage(sigma, n, i);
    }
  }

  /** The loop: one factor is there already. */
  method RepeatedProduct(sigma: Perm, n: nat, k: nat) returns (result: Perm)
    requires IsPerm(sigma, n) && k > 0
    ensures result == Power(sigma, n, k)
  {
    result := sigma;
    FirstPower(sigma, n);
    var i := 2;
    while i <= k
      invariant 2 <= i <= k + 1 && result == Power(sigma, n, i - 1)
    {
      result := Multiply(result, sigma);
      i := i + 1;
    }
  }

  /** For `k >= 0` the power, for `k < 0` its inverse. */
  method PermutationPower(sigma: Perm, n: nat, k: int) returns (result: Perm)
    requires IsPerm(sigma, n)
    ensures IsPerm(result, n)
    ensures k >= 0 ==> result == Power(sigma, n, k)
    ensures k < 0 ==> Compose(result, Power(sigma, n, -k)) == Identity(n)
  {
    if k == 0 {
      result := seq(|sigma|, i => i);
    } else if k < 0 {
      var inverse := Inverted(sigma, n);
      result := RepeatedProduct(inverse, n, -k);
      PowerOfInverse(sigma, inverse, n, -k);
    } else {
      result := RepeatedProduct(sigma, n, k);
    }
  }
}
