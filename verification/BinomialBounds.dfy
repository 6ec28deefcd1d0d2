/** The size and the factors of two of binomial coefficients. */
module BinomialBounds {
  import opened Arithmetic
  import opened Binomials

  // ---------- Factors of two ----------

  function Power(e: nat): nat {
    if e == 0 then 1 else 2 * Power(e - 1)
  }

  /** `x` divides `t` times an odd number. */
  ghost predicate Divides(x: int, t: nat, odd: int, rest: int) {
    odd % 2 == 1 && x * rest == t * odd
  }

  lemma {:induction false} SmallNumber(m: nat, e: nat) returns (odd: int, rest: int)
    requires 1 <= m < 2 * Power(e)
    ensures Divides(m, Power(e), odd, rest)
    decreases m
  {
    if m % 2 == 1 {
      odd, rest := m, Power(e);
    } else {
      odd, rest := SmallNumber(m / 2, e - 1);
      DoubleBoth(m / 2, rest, Power(e - 1), odd);
    }
  }

  lemma DoubleBoth(a: int, b: int, c: int, d: int)
    requires a * b == c * d
    ensures (2 * a) * b == (2 * c) * d
  {
  }

  /** Reciprocals with odd numerators over `t` have a difference of that kind. */
  lemma Difference(x: int, a: int, b: int, t: nat, u: int, v: int, odd: int, rest: int)
    returns (odd': int, rest': int)
    requires x * (b - a) == a * b && t > 0 && Divides(a, t, u, v) && Divides(b, t, odd, rest)
    ensures Divides(x, t, odd', rest')
  {
    odd', rest' := u * odd, v * odd - rest * u;
    OddProduct(u, odd);
    calc {
      t * (x * rest');
      x * (t * odd) * v - x * (t * u) * rest;
      x * (b * rest) * v - x * (a * v) * rest;
      (x * (b - a)) * (rest * v);
      (a * b) * (rest * v);
      (a * v) * (b * rest);
      (t * u) * (t * odd);
      t * (t * odd');
    }
    Cancel(t, x * rest', t * odd');
  }

  lemma OddProduct(u: int, v: int)
    requires u % 2 == 1 && v % 2 == 1
    ensures u * v % 2 == 1
  {
    OddTimes(u / 2, v);
  }

  lemma OddTimes(a: int, v: int)
    ensures (2 * a + 1) * v == 2 * (a * v) + v
  {
  }

  lemma Cancel(t: nat, a: int, b: int)
    requires t > 0 && t * a == t * b
    ensures a == b
  {
    if a < b {
      Monotone(a, b - 1, t);
    } else if a > b {
      Monotone(b, a - 1, t);
    }
  }

  /**
   * `j * Choose(m, j)` has no more factors of two than some number up to `m`: its reciprocal is a
   * difference of neighbours in Leibniz's triangle.
   */
  lemma {:induction false} FewFactors(m: nat, j: nat, e: nat) returns (odd: int, rest: int)
    requires 1 <= j <= m < 2 * Power(e)
    ensures Divides(j * Choose(m, j), Power(e), odd, rest)
    decreases j
  {
    if j == 1 {
      ChooseOne(m);
      odd, rest := SmallNumber(m, e);
    } else {
      var u, v := FewFactors(m - 1, j - 1, e);
      odd, rest := FewFactors(m, j - 1, e);
      Leibniz(m, j);
      PowerPositive(e);
      odd, rest := Difference(
        j * Choose(m, j), (j - 1) * Choose(m - 1, j - 1), (j - 1) * Choose(m, j - 1), Power(e), u, v, odd, rest);
    }
  }

  lemma {:induction false} PowerPositive(e: nat)
    ensures Power(e) > 0
  {
    if e > 0 {
      PowerPositive(e - 1);
    }
  }

  lemma Leibniz(m: nat, j: nat)
    requires 2 <= j <= m
    ensures var x, a, b := j * Choose(m, j), (j - 1) * Choose(m - 1, j - 1), (j - 1) * Choose(m, j - 1);
      x * (b - a) == a * b
  {
    Absorption(m, j);
    Absorption(m, j - 1);
    Pascal(m, j);
    LeibnizStep(m, j, Choose(m, j), Choose(m - 1, j - 1), Choose(m, j - 1), Choose(m - 1, j - 2));
  }

  lemma Pascal(m: nat, j: nat)
    requires 2 <= j <= m
    ensures Choose(m, j - 1) == Choose(m - 1, j - 2) + Choose(m - 1, j - 1)
  {
  }

  lemma LeibnizStep(m: int, j: int, c: int, p: int, q: int, r: int)
    requires j * c == m * p && (j - 1) * q == m * r && q == r + p
    ensures (j * c) * ((j - 1) * q - (j - 1) * p) == ((j - 1) * p) * ((j - 1) * q)
  {
    calc {
      (j * c) * ((j - 1) * q - (j - 1) * p);
      (m * p) * ((j - 1) * r);
      ((j - 1) * p) * (m * r);
    }
  }

  /** No binomial coefficient of numbers below 2^31 is 2^64. */
  lemma NotTwoToThe64(m: nat, j: nat)
    requires 1 <= j <= m < TWO_TO_THE_31
    ensures Choose(m, j) != TWO_TO_THE_64
  {
    var e := 30;
    PowerIs(e);
    var odd, rest := FewFactors(m, j, e);
    if Choose(m, j) == TWO_TO_THE_64 {
      TooManyFactors(j, rest, odd);
    }
  }

  lemma PowerIs(e: nat)
    requires e == 30
    ensures 2 * Power(e) == TWO_TO_THE_31
  {
    assert Power(10) == 0x400;
    assert Power(20) == 0x10_0000;
  }

  lemma TooManyFactors(j: int, rest: int, odd: int)
    requires (j * TWO_TO_THE_64) * rest == 0x4000_0000 * odd
    ensures odd % 2 == 0
  {
    assert odd == 2 * (0x2_0000_0000 * (j * rest));
  }

  // ---------- The largest coefficients ----------

  lemma Neighbour(m: nat, j: nat)
    requires j <= m && m > 0
    ensures (j + 1) * Choose(m, j + 1) == (m - j) * Choose(m, j)
  {
    Absorption(m, j + 1);
    if j > 0 {
      Absorption(m, j);
      NeighbourStep(m, j, Choose(m, j), Choose(m - 1, j - 1), Choose(m - 1, j));
    }
  }

  lemma NeighbourStep(m: int, j: int, c: int, p: int, q: int)
    requires c == p + q && j * c == m * p
    ensures m * q == (m - j) * c
  {
    assert m * c == m * p + m * q;
  }

  /** The middle of an odd row is its maximum. */
  lemma {:induction false} Middle(m: nat, half: nat, j: nat)
    requires m == 2 * half + 1
    ensures Choose(m, j) <= Choose(m, half)
    decreases if j < half then half - j else j - half
  {
    if j > m {
      ChooseZero(m, j);
    } else if j < half {
      Neighbour(m, j);
      SmallerFactor(j + 1, Choose(m, j + 1), m - j, Choose(m, j));
      Middle(m, half, j + 1);
    } else if j > half {
      Neighbour(m, j - 1);
      SmallerFactor(m - j + 1, Choose(m, j - 1), j, Choose(m, j));
      Middle(m, half, j - 1);
    }
  }

  lemma SmallerFactor(a: nat, x: nat, b: nat, y: nat)
    requires a * x == b * y && 0 < a <= b
    ensures y <= x
  {
    if x < y {
      Monotone(x, y - 1, a);
      Monotone(a, b, y);
    }
  }

  lemma {:induction false} LowerRow(m: nat, n: nat, j: nat)
    requires m <= n
    ensures Choose(m, j) <= Choose(n, j)
    decreases n - m
  {
    if m < n && j > 0 {
      LowerRow(m + 1, n, j);
    }
  }

  /** A diagonal of the triangle, from each coefficient to the next. */
  function Diagonal(z: nat): nat -> nat {
    (s: nat) => Choose(z + s, s)
  }

  ghost predicate Ratio(h: nat -> nat, z: nat, s: nat) {
    (s + 1) * h(s + 1) == (z + s + 1) * h(s)
  }

  ghost predicate Ratios(h: nat -> nat, z: nat) {
    forall s: nat :: Ratio(h, z, s)
  }

  lemma DiagonalRatios(z: nat)
    ensures Ratios(Diagonal(z), z)
  {
    forall s: nat
      ensures Ratio(Diagonal(z), z, s)
    {
      Absorption(z + s + 1, s + 1);
    }
  }

  lemma OnDiagonal(h: nat -> nat, z: nat, s: nat, c: nat, d: nat)
    requires Ratios(h, z) && h(s) == c && (z + s + 1) * c == (s + 1) * d
    ensures h(s + 1) == d
  {
    assert Ratio(h, z, s);
    Cancel(s + 1, h(s + 1), d);
  }

  lemma HalfwayTo62(h: nat -> nat, z: nat)
    requires z == 31 && h(0) == 1 && Ratios(h, z)
    ensures h(16) == 1503232609098
  {
    OnDiagonal(h, z, 0, 1, 32);
    OnDiagonal(h, z, 1, 32, 528);
    OnDiagonal(h, z, 2, 528, 5984);
    OnDiagonal(h, z, 3, 5984, 52360);
    OnDiagonal(h, z, 4, 52360, 376992);
    OnDiagonal(h, z, 5, 376992, 2324784);
    OnDiagonal(h, z, 6, 2324784, 12620256);
    OnDiagonal(h, z, 7, 12620256, 61523748);
    OnDiagonal(h, z, 8, 61523748, 273438880);
    OnDiagonal(h, z, 9, 273438880, 1121099408);
    OnDiagonal(h, z, 10, 1121099408, 4280561376);
    OnDiagonal(h, z, 11, 4280561376, 15338678264);
    OnDiagonal(h, z, 12, 15338678264, 51915526432);
    OnDiagonal(h, z, 13, 51915526432, 166871334960);
    OnDiagonal(h, z, 14, 166871334960, 511738760544);
    OnDiagonal(h, z, 15, 511738760544, 1503232609098);
  }

  /** The middle of row 62 and that of row 63. */
  lemma MiddleOf62(h: nat -> nat, z: nat)
    requires z == 31 && h(0) == 1 && Ratios(h, z)
    ensures h(31) == 465428353255261088 && h(32) == 916312070471295267
  {
    HalfwayTo62(h, z);
    OnDiagonal(h, z, 16, 1503232609098, 4244421484512);
    OnDiagonal(h, z, 17, 4244421484512, 11554258485616);
    OnDiagonal(h, z, 18, 11554258485616, 30405943383200);
    OnDiagonal(h, z, 19, 30405943383200, 77535155627160);
    OnDiagonal(h, z, 20, 77535155627160, 191991813933920);
    OnDiagonal(h, z, 21, 191991813933920, 462525733568080);
    OnDiagonal(h, z, 22, 462525733568080, 1085929983159840);
    OnDiagonal(h, z, 23, 1085929983159840, 2488589544741300);
    OnDiagonal(h, z, 24, 2488589544741300, 5574440580220512);
    OnDiagonal(h, z, 25, 5574440580220512, 12220888964329584);
    OnDiagonal(h, z, 26, 12220888964329584, 26252279997448736);
    OnDiagonal(h, z, 27, 26252279997448736, 55317304280338408);
    OnDiagonal(h, z, 28, 55317304280338408, 114449595062769120);
    OnDiagonal(h, z, 29, 114449595062769120, 232714176627630544);
    OnDiagonal(h, z, 30, 232714176627630544, 465428353255261088);
    OnDiagonal(h, z, 31, 465428353255261088, 916312070471295267);
  }

  /** No coefficient of a row up to 61 is larger than the middle one of row 61. */
  lemma UpTo61(m: nat, j: nat, n: nat, half: nat)
    requires m <= n == 2 * half + 1 && half == 30
    ensures Choose(m, j) <= 232714176627630544
  {
    LowerRow(m, n, j);
    Middle(n, half, j);
    DiagonalRatios(half + 1);
    MiddleOf62(Diagonal(half + 1), half + 1);
    Absorption(n + 1, half + 1);
  }
}
