/** Facts about products and quotients that the solver does not find by itself. */
module Arithmetic {

  const TWO_TO_THE_31: nat := 0x8000_0000
  const TWO_TO_THE_32: nat := 0x1_0000_0000
  const TWO_TO_THE_63: nat := 0x8000_0000_0000_0000
  const TWO_TO_THE_64: nat := 0x1_0000_0000_0000_0000

  /** The value an `unsigned long` holds after a computation with result `x`: it wraps around at 2^64. */
  function Word(x: int): nat
    decreases if x < 0 then TWO_TO_THE_64 - x else x
  {
    if x < 0 then Word(x + TWO_TO_THE_64)
    else if x < TWO_TO_THE_64 then x
    else Word(x - TWO_TO_THE_64)
  }

  /** The remainder modulo 2^64, also of a negative number. */
  lemma {:induction false} WordIsRemainder(x: int) returns (q: int)
    ensures Word(x) == x - q * TWO_TO_THE_64 && Word(x) < TWO_TO_THE_64
    decreases if x < 0 then TWO_TO_THE_64 - x else x
  {
    if x < 0 {
      q := WordIsRemainder(x + TWO_TO_THE_64);
      q := q - 1;
    } else if x < TWO_TO_THE_64 {
      q := 0;
    } else {
      q := WordIsRemainder(x - TWO_TO_THE_64);
      q := q + 1;
    }
  }

  lemma WordBelow(x: nat)
    ensures Word(x) <= x && Word(x) < TWO_TO_THE_64
    ensures x < TWO_TO_THE_64 ==> Word(x) == x
  {
    var q := WordIsRemainder(x);
  }

  lemma ProductBound(a: nat, b: nat, c: nat, d: nat)
    requires a <= c && b <= d
    ensures 0 <= a * b <= c * d
  {
    Monotone(a, c, b);
    Monotone(b, d, c);
  }

  lemma ExactQuotient(c: nat, s: nat)
    requires s >= 1
    ensures s * c / s == c
  {
    DivisionParts(s * c, s);
    QuotientUnique(c, s, s * c / s, s * c % s);
  }

  lemma DivisionParts(x: int, s: int)
    requires s >= 1
    ensures x == s * (x / s) + x % s && 0 <= x % s < s
  {
  }

  lemma QuotientUnique(c: int, s: int, q: int, r: int)
    requires s >= 1 && s * c == s * q + r && 0 <= r < s
    ensures q == c
  {
    assert s * (c - q) == r;
    if c - q >= 1 {
      Monotone(1, c - q, s);
    } else if c - q <= -1 {
      Monotone(c - q, -1, s);
    }
  }

  lemma Monotone(a: int, b: int, s: int)
    requires a <= b && s >= 0
    ensures s * a <= s * b
  {
  }

  lemma WordQuotient(x: nat, c: nat, s: nat)
    requires s >= 1
    ensures x == s * c && x < TWO_TO_THE_64 ==> Word(x) / s == c
    ensures x <= s * c && (x < s * c || x >= TWO_TO_THE_64) ==> Word(x) / s < c
  {
    WordBelow(x);
    if x == s * c && x < TWO_TO_THE_64 {
      ExactQuotient(c, s);
    }
    SmallerQuotient(Word(x), c, s);
  }

  lemma SmallerQuotient(x: nat, c: nat, s: nat)
    requires s >= 1
    ensures x < s * c ==> x / s < c
  {
    DivisionParts(x, s);
    if x < s * c && x / s >= c {
      Monotone(c, x / s, s);
    }
  }

  lemma LessTimes(a: nat, b: nat, s: nat)
    requires s >= 1
    ensures a < b ==> a * s < b * s
    ensures a == b ==> a * s == b * s
  {
    if a < b {
      Monotone(a, b - 1, s);
      assert s * (b - 1) == b * s - s;
    }
  }
}
