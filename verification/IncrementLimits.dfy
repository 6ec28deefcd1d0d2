/**
 * For which increments the skipping iterator (src/util-gitfan/simplexfaceiterator.cpp) is right, from every
 * place: the exact condition, simple sufficient ones, and the smallest simplex for which it fails.
 */
module IncrementLimits {
  import opened Seqs
  import opened Arithmetic
  import opened Binomials
  import opened BinomialBounds
  import opened Faces
  import opened BlockSkipping
  import opened FaceSkipping

  // ---------- Increments that are right everywhere ----------

  /** No product the skipping loop can come to leaves the word. */
  ghost predicate NoWrap(inc: nat, n: nat) {
    forall z: nat, s: nat :: s >= 1 && z + s <= n ==> ProductFits(z, s, inc)
  }

  ghost predicate ProductFits(z: nat, s: nat, inc: nat)
    requires s >= 1
  {
    Choose(z + s - 1, s - 1) <= inc + 1 ==> Product(z, s) < TWO_TO_THE_64
  }

  lemma NoWrapIsExact(inc: nat, n: nat)
    requires NoWrap(inc, n)
    ensures Exact(inc, n)
  {
    forall z: nat, s: nat | s >= 2 && z + s <= n
      ensures !WrapAccepted(z, s, inc)
    {
      assert ProductFits(z, s, inc);
    }
  }

  /** Small products of increment and number of vertices are safe. */
  lemma SmallIncrement(inc: nat, n: nat)
    requires (inc + 1) * n < TWO_TO_THE_64
    ensures NoWrap(inc, n)
  {
    forall z: nat, s: nat | s >= 1 && z + s <= n
      ensures ProductFits(z, s, inc)
    {
      if Choose(z + s - 1, s - 1) <= inc + 1 {
        ProductBound(Choose(z + s - 1, s - 1), z + s, inc + 1, n);
      }
    }
  }

  /** Up to 62 vertices every increment is safe. */
  lemma SmallSimplex(inc: nat, n: nat)
    requires n <= 62
    ensures NoWrap(inc, n)
  {
    forall z: nat, s: nat | s >= 1 && z + s <= n
      ensures ProductFits(z, s, inc)
    {
      UpTo61(z + s - 1, s - 1, 61, 30);
      ProductBound(Choose(z + s - 1, s - 1), z + s, 232714176627630544, 62);
    }
  }

  // ---------- All others are wrong somewhere ----------

  /** The first face with `s` numbers all of which have `z` unused ones behind them. */
  ghost function BlockFace(n: nat, z: nat, s: nat): seq<int>
    requires z + s <= n
  {
    Up(n - z - s + 1, s)
  }

  lemma BlockFaceIsFace(n: nat, z: nat, s: nat)
    requires s >= 1 && z + s <= n
    ensures Face(0, n, BlockFace(n, z, s)) && Unused(n, BlockFace(n, z, s)) == z
    ensures RunLength(BlockFace(n, z, s)) == s
  {
    UpIsFace(0, n, n - z - s + 1, s);
  }

  /** An accepted wrap makes the increment wrong from the first face it concerns. */
  lemma WrongFromBlock(n: nat, z: nat, s: nat, inc: nat, f: seq<int>)
    requires n < TWO_TO_THE_31 && inc < TWO_TO_THE_64 && z + s <= n && s >= 2 && WrapAccepted(z, s, inc)
    requires f == BlockFace(n, z, s)
    ensures Face(0, n, f) && !Correct(n, At(f), inc)
  {
    BlockFaceIsFace(n, z, s);
    UncleanFace(n, f, s, inc);
    CorrectIffClean(n, At(f), inc);
  }

  lemma UncleanFace(n: nat, f: seq<int>, s: nat, inc: nat)
    requires Face(0, n, f) && f != [] && inc > 0 && 2 <= s <= RunLength(f) && WrapAccepted(Unused(n, f), s, inc)
    ensures !Clean(n, At(f), inc)
  {
    assert !RoundClean(n, f, inc);
  }

  /**
   * An increment is right from every place if and only if no wrap is accepted.  Vertices are counted by an
   * `int`, increments by an `unsigned long`.
   */
  lemma CorrectEverywhereIff(n: nat, inc: nat)
    requires n < TWO_TO_THE_31 && inc < TWO_TO_THE_64
    ensures (forall p | OnFace(n, p) :: Correct(n, p, inc)) <==> Exact(inc, n)
  {
    if Exact(inc, n) {
      forall p | OnFace(n, p)
        ensures Correct(n, p, inc)
      {
        ExactIsCorrect(n, p, inc);
      }
    } else {
      var z: nat, s: nat :| s >= 2 && z + s <= n && WrapAccepted(z, s, inc);
      WrongFromBlock(n, z, s, inc, BlockFace(n, z, s));
    }
  }

  // ---------- The smallest simplex for which it fails ----------

  /**
   * On 63 vertices, from {1, ..., 32}: the product for the block of 32 numbers wraps, the block is accepted
   * and counted as 339851318167871778 steps, but passes over 916312070471295266 faces.
   */
  lemma FailsOn63(n: nat, k: nat, inc: nat, f: seq<int>) returns (moved: nat, lost: nat)
    requires n == 63 && k == 32 && inc == 500_000_000_000_000_000 && f == Up(1, k)
    ensures moved == 916312070471295266 && lost == 339851318167871778
    ensures CountsWrong(n, f, inc, moved, lost)
  {
    var z: nat := n - k;
    DiagonalRatios(z);
    MiddleOf62(Diagonal(z), z);
    var newDiff := WordAt63(465428353255261088 * n, k);
    moved, lost := CountsWrap(n, z, k, inc, 465428353255261088, 916312070471295267, newDiff, f);
  }

  /** Pushing the first block passes over `moved` faces but counts `lost` steps, and all goes wrong. */
  ghost predicate CountsWrong(n: nat, f: seq<int>, inc: nat, moved: nat, lost: nat) {
    Face(0, n, f) && RoundAt(n, f, inc) == Round(moved, lost) && !Correct(n, At(f), inc)
  }

  lemma WordAt63(x: nat, k: nat) returns (newDiff: nat)
    requires x == 465428353255261088 * 63 && k == 32
    ensures newDiff == Word(x) / k == 339851318167871779 && x >= TWO_TO_THE_64
    ensures Word(newDiff - 1) == 339851318167871778
  {
    newDiff := Word(x) / k;
  }

  lemma AcceptsWrap(z: nat, s: nat, inc: nat, c: nat, product: nat, newDiff: nat)
    requires 1 <= z < inc && s >= 2 && Diagonal(z)(s - 1) == c && c <= inc + 1
    requires product == c * (z + s) && (s - 1) * c < TWO_TO_THE_64 <= product
    requires newDiff == Word(product) / s && Word(newDiff - 1) <= inc
    ensures WrapAccepted(z, s, inc) && newDiff == NewDiff(Choose(z + s - 1, s - 1), z, s)
  {
    ProductIsMultiple(z, s - 1);
  }

  lemma CountsWrap(n: nat, z: nat, s: nat, inc: nat, c: nat, d: nat, newDiff: nat, f: seq<int>)
    returns (moved: nat, lost: nat)
    requires n == z + s < TWO_TO_THE_31 && 1 <= z < inc < TWO_TO_THE_64 && s >= 2 && f == Up(1, s)
    requires Diagonal(z)(s - 1) == c && c <= inc + 1 && Diagonal(z)(s) == d
    requires (s - 1) * c < TWO_TO_THE_64 <= c * n
    requires newDiff == Word(c * n) / s && 1 <= newDiff <= inc
    ensures moved + 1 == d && lost + 1 == newDiff && CountsWrong(n, f, inc, moved, lost)
  {
    WordBelow(newDiff - 1);
    AcceptsWrap(z, s, inc, c, c * n, newDiff);
    moved, lost := CountsNewDiff(n, z, s, inc, newDiff, f);
  }

  lemma CountsNewDiff(n: nat, z: nat, s: nat, inc: nat, newDiff: nat, f: seq<int>) returns (moved: nat, lost: nat)
    requires n == z + s < TWO_TO_THE_31 && inc < TWO_TO_THE_64 && s >= 2 && WrapAccepted(z, s, inc)
    requires newDiff == NewDiff(Choose(z + s - 1, s - 1), z, s) && f == Up(1, s)
    ensures moved + 1 == Choose(z + s, s) && lost == Word(newDiff - 1) && CountsWrong(n, f, inc, moved, lost)
  {
    BlockFaceIsFace(n, z, s);
    ShiftedAtWrap(z, s, inc);
    ChooseGrows(z, s);
    moved, lost := Choose(z + s, s) - 1, Word(newDiff - 1);
    WrongFromBlock(n, z, s, inc, f);
  }
}
