/**
 * The word-size arithmetic of the skipping loop (src/util-gitfan/simplexfaceiterator.cpp): how many numbers
 * of a block it pushes to the right end, and when the number of steps it computes for that is right.
 */
module BlockSkipping {
  import opened Arithmetic
  import opened Binomials
  import opened BinomialBounds

  /** What the loop multiplies out for a block of `s` numbers that is followed by `z` unused ones. */
  function Product(z: nat, s: nat): nat
    requires s >= 1
  {
    Choose(z + s - 1, s - 1) * (z + s)
  }

  /** The faces a block of `s` numbers passes over, itself included, computed from those for one less. */
  function NewDiff(diff: nat, z: nat, s: nat): nat
    requires s >= 1
  {
    Word(diff * (z + s)) / s
  }

  /** `diff` is the computed number of faces that pushing `size` numbers passes over, the block included. */
  datatype Block = Block(size: nat, diff: nat)

  /** The loop extends the block while the number of faces, as computed, stays within `inc`. */
  ghost function Shifted(z: nat, size: nat, diff: nat, length: nat, inc: nat): (b: Block)
    requires 1 <= size <= length
    ensures size <= b.size <= length
    ensures Word(diff - 1) <= inc ==> Word(b.diff - 1) <= inc
    decreases length - size
  {
    var newDiff := NewDiff(diff, z, size + 1);
    if size == length || inc < Word(newDiff - 1) then Block(size, diff)
    else Shifted(z, size + 1, newDiff, length, inc)
  }

  /** A block of `s` numbers can be skipped within `inc` steps, and the product for it fits a word. */
  ghost predicate Skippable(z: nat, s: nat, inc: nat)
    requires s >= 1
  {
    Choose(z + s, s) <= inc + 1 && Product(z, s) < TWO_TO_THE_64
  }

  /**
   * The branch that goes wrong: the loop arrives at a block of `s` numbers, the product is the first that
   * does not fit a word, and what is left of it is small enough for the block to be accepted.
   */
  ghost predicate WrapAccepted(z: nat, s: nat, inc: nat)
    requires s >= 2
  {
    && 1 <= z < inc && Skippable(z, s - 1, inc) && Product(z, s) >= TWO_TO_THE_64
    && Word(NewDiff(Choose(z + s - 1, s - 1), z, s) - 1) <= inc
  }

  ghost predicate NoneAccepted(z: nat, length: nat, inc: nat) {
    forall s :: 2 <= s <= length ==> !WrapAccepted(z, s, inc)
  }

  /** No block of a face on {1, ..., n} makes the loop go wrong. */
  ghost predicate Exact(inc: nat, n: nat) {
    forall z: nat, s: nat :: s >= 2 && z + s <= n ==> !WrapAccepted(z, s, inc)
  }

  lemma ExactLess(inc: nat, start: nat, n: nat)
    requires inc <= start && Exact(start, n)
    ensures Exact(inc, n)
  {
    forall z: nat, s: nat | s >= 2 && z + s <= n
      ensures !WrapAccepted(z, s, inc)
    {
      assert !WrapAccepted(z, s, start);
    }
  }

  /** Single steps never skip. */
  lemma OneIsExact(inc: nat, n: nat)
    requires inc <= 1
    ensures Exact(inc, n)
  {
  }

  /** The division is exact. */
  lemma ProductIsMultiple(z: nat, s: nat)
    requires s >= 1
    ensures Product(z, s) == s * Choose(z + s, s)
    ensures Product(z, s) / s == Choose(z + s, s)
  {
    Absorption(z + s, s);
    ExactQuotient(Choose(z + s, s), s);
  }

  /** Without a wrap the number for the next block is right. */
  lemma NewDiffRight(z: nat, s: nat)
    requires s >= 1 && Product(z, s) < TWO_TO_THE_64
    ensures NewDiff(Choose(z + s - 1, s - 1), z, s) == Choose(z + s, s)
  {
    ProductIsMultiple(z, s);
    WordQuotient(Product(z, s), Choose(z + s, s), s);
  }

  /** After a wrap, here or before, it is too small. */
  lemma NewDiffTooSmall(z: nat, s: nat, diff: nat)
    requires s >= 1 && diff <= Choose(z + s - 1, s - 1)
    requires diff < Choose(z + s - 1, s - 1) || Product(z, s) >= TWO_TO_THE_64
    ensures NewDiff(diff, z, s) < Choose(z + s, s)
  {
    ProductIsMultiple(z, s);
    LessTimes(diff, Choose(z + s - 1, s - 1), z + s);
    WordQuotient(diff * (z + s), Choose(z + s, s), s);
  }

  /** Larger blocks pass over more faces, and need larger products. */
  lemma {:induction false} SmallerBlock(z: nat, s: nat, t: nat)
    requires 1 <= s <= t
    ensures Choose(z + s, s) <= Choose(z + t, t) && Product(z, s) <= Product(z, t)
    decreases t - s
  {
    if s < t {
      SmallerBlock(z, s, t - 1);
      assert Choose(z + t, t) == Choose(z + t - 1, t - 1) + Choose(z + t - 1, t);
      ProductIsMultiple(z, t - 1);
      ProductIsMultiple(z, t);
      ProductBound(t - 1, Choose(z + t - 1, t - 1), t, Choose(z + t, t));
    }
  }

  lemma {:induction false} SkippableBefore(z: nat, s: nat, t: nat, inc: nat)
    requires 1 <= s <= t && Skippable(z, t, inc)
    ensures Skippable(z, s, inc)
  {
    SmallerBlock(z, s, t);
  }

  lemma OneSizeMore(z: nat, size: nat, diff: nat, length: nat, inc: nat)
    requires 1 <= size < length && Word(NewDiff(diff, z, size + 1) - 1) <= inc
    ensures Shifted(z, size, diff, length, inc)
            == Shifted(z, size + 1, NewDiff(diff, z, size + 1), length, inc)
  {
  }

  /** A larger block that can be skipped is accepted, with the right number. */
  lemma NextRight(z: nat, s: nat, inc: nat)
    requires s >= 1 && Skippable(z, s + 1, inc)
    ensures NewDiff(Choose(z + s, s), z, s + 1) == Choose(z + s + 1, s + 1)
    ensures Word(Choose(z + s + 1, s + 1) - 1) <= inc
  {
    NewDiffRight(z, s + 1);
    RightBelowWord(z, s + 1);
  }

  lemma StepRight(z: nat, s: nat, length: nat, inc: nat)
    requires 1 <= s < length && Skippable(z, s + 1, inc)
    ensures Shifted(z, s, Choose(z + s, s), length, inc)
            == Shifted(z, s + 1, Choose(z + s + 1, s + 1), length, inc)
  {
    NextRight(z, s, inc);
    OneSizeMore(z, s, Choose(z + s, s), length, inc);
  }

  /** A larger block that cannot be skipped is refused, unless a wrap is accepted. */
  lemma NextRefused(z: nat, s: nat, inc: nat)
    requires 1 <= z < inc && s >= 1 && Skippable(z, s, inc) && !Skippable(z, s + 1, inc)
    requires !WrapAccepted(z, s + 1, inc)
    ensures inc < Word(NewDiff(Choose(z + s, s), z, s + 1) - 1)
  {
    if Product(z, s + 1) < TWO_TO_THE_64 {
      NextNumber(z, s + 1);
    }
  }

  lemma NextNumber(z: nat, s: nat)
    requires s >= 1 && Product(z, s) < TWO_TO_THE_64
    ensures Word(NewDiff(Choose(z + s - 1, s - 1), z, s) - 1) == Choose(z + s, s) - 1
  {
    NewDiffRight(z, s);
    RightBelowWord(z, s);
  }

  lemma Stops(z: nat, s: nat, diff: nat, length: nat, inc: nat)
    requires 1 <= s <= length && (s == length || inc < Word(NewDiff(diff, z, s + 1) - 1))
    ensures Shifted(z, s, diff, length, inc) == Block(s, diff)
  {
  }

  /** The block that can be skipped is found, with its number, and it is the largest one up to a wrap. */
  ghost predicate Largest(z: nat, b: Block, length: nat, inc: nat) {
    && 1 <= b.size <= length && b.diff == Choose(z + b.size, b.size)
    && Skippable(z, b.size, inc) && (b.size < length ==> !Skippable(z, b.size + 1, inc))
  }

  lemma {:induction false} ShiftedRight(z: nat, size: nat, length: nat, inc: nat)
    requires 1 <= z < inc && 1 <= size <= length
    requires Skippable(z, size, inc) && NoneAccepted(z, length, inc)
    ensures Largest(z, Shifted(z, size, Choose(z + size, size), length, inc), length, inc)
    decreases length - size
  {
    if size < length && Skippable(z, size + 1, inc) {
      StepRight(z, size, length, inc);
      ShiftedRight(z, size + 1, length, inc);
    } else {
      if size < length {
        NoneAcceptedAt(z, size + 1, length, inc);
        NextRefused(z, size, inc);
      }
      Stops(z, size, Choose(z + size, size), length, inc);
    }
  }

  lemma NoneAcceptedAt(z: nat, s: nat, length: nat, inc: nat)
    requires 2 <= s <= length && NoneAccepted(z, length, inc)
    ensures !WrapAccepted(z, s, inc)
  {
  }

  lemma RightBelowWord(z: nat, s: nat)
    requires s >= 1 && Product(z, s) < TWO_TO_THE_64
    ensures 1 <= Choose(z + s, s) < TWO_TO_THE_64
    ensures Word(Choose(z + s, s) - 1) == Choose(z + s, s) - 1
  {
    ProductIsMultiple(z, s);
    ChooseGrows(z, s);
    FactorBelowWord(Choose(z + s, s), s);
  }

  lemma FactorBelowWord(c: nat, s: nat)
    requires c >= 1 && s >= 1 && s * c < TWO_TO_THE_64
    ensures c < TWO_TO_THE_64 && Word(c - 1) == c - 1
  {
    Monotone(1, s, c);
    WordBelow(c - 1);
  }

  ghost predicate TooSmall(z: nat, b: Block) {
    b.diff < Choose(z + b.size, b.size)
  }

  /** Once the computed number is too small it stays too small. */
  lemma {:induction false} ShiftedTooSmall(z: nat, size: nat, diff: nat, length: nat, inc: nat)
    requires 1 <= size <= length && diff < Choose(z + size, size)
    ensures TooSmall(z, Shifted(z, size, diff, length, inc))
    decreases length - size
  {
    if size < length {
      NewDiffTooSmall(z, size + 1, diff);
      ShiftedTooSmall(z, size + 1, NewDiff(diff, z, size + 1), length, inc);
    }
  }

  lemma WrongAtWrap(z: nat, s: nat, length: nat, inc: nat)
    requires 1 <= s < length && WrapAccepted(z, s + 1, inc)
    ensures TooSmall(z, Shifted(z, s, Choose(z + s, s), length, inc))
  {
    var newDiff := NewDiff(Choose(z + s, s), z, s + 1);
    NewDiffTooSmall(z, s + 1, Choose(z + s, s));
    OneSizeMore(z, s, Choose(z + s, s), length, inc);
    ShiftedTooSmall(z, s + 1, newDiff, length, inc);
  }

  /** Every block up to one that can be skipped is accepted with the right number. */
  lemma {:induction false} Reaches(z: nat, size: nat, t: nat, length: nat, inc: nat)
    requires 1 <= size <= t <= length && Skippable(z, t, inc)
    ensures Shifted(z, size, Choose(z + size, size), length, inc)
            == Shifted(z, t, Choose(z + t, t), length, inc)
    decreases t - size
  {
    if size < t {
      SkippableBefore(z, size + 1, t, inc);
      StepRight(z, size, length, inc);
      Reaches(z, size + 1, t, length, inc);
    }
  }

  /** If the loop comes to accept a wrap, the number it ends with is too small. */
  lemma ShiftedWrong(z: nat, size: nat, length: nat, inc: nat, s: nat)
    requires 1 <= size < s <= length && WrapAccepted(z, s, inc)
    ensures TooSmall(z, Shifted(z, size, Choose(z + size, size), length, inc))
  {
    Reaches(z, size, s - 1, length, inc);
    WrongAtWrap(z, s - 1, length, inc);
  }

  // ---------- From a block of one number on ----------

  lemma FirstSize(z: nat)
    ensures Choose(z + 1, 1) == z + 1 == Product(z, 1)
  {
    ChooseOne(z + 1);
  }

  lemma CleanBlock(z: nat, length: nat, left: nat)
    requires 1 <= z < left && z + 1 < TWO_TO_THE_64 && length >= 1
    requires NoneAccepted(z, length, left)
    ensures var b := Shifted(z, 1, z + 1, length, left);
      Largest(z, b, length, left) && 1 <= b.diff < TWO_TO_THE_64
  {
    FirstSize(z);
    ShiftedRight(z, 1, length, left);
    RightBelowWord(z, Shifted(z, 1, z + 1, length, left).size);
  }

  /**
   * The computed number is too small, and what is then subtracted as well, unless it is -1 and just that was
   * left; then it is wrong because no binomial coefficient is 2^64.
   */
  lemma WrongBlock(z: nat, length: nat, left: nat)
    requires length >= 1 && z + length < TWO_TO_THE_31 && left < TWO_TO_THE_64
    requires !NoneAccepted(z, length, left)
    ensures 1 <= z < left
    ensures var b := Shifted(z, 1, z + 1, length, left);
      Miscounted(Choose(z + b.size, b.size) - 1, Word(b.diff - 1), left)
  {
    var s :| 2 <= s <= length && WrapAccepted(z, s, left);
    FirstSize(z);
    ShiftedWrong(z, 1, length, left, s);
    WordBelow(z);
    var b := Shifted(z, 1, z + 1, length, left);
    NotTwoToThe64(z + b.size, b.size);
    LostByWrap(Choose(z + b.size, b.size), b.diff, left);
  }

  ghost predicate Miscounted(moved: int, lost: int, left: nat) {
    lost < moved || (lost == left == TWO_TO_THE_64 - 1 && moved < lost)
  }

  lemma LostByWrap(c: nat, diff: nat, left: nat)
    requires diff < c != TWO_TO_THE_64 && left < TWO_TO_THE_64 && Word(diff - 1) <= left
    ensures Miscounted(c - 1, Word(diff - 1), left)
  {
    if diff >= 1 {
      WordBelow(diff - 1);
    }
  }

  /** If the wrapping block is the whole block, the loop ends with it. */
  lemma ShiftedAtWrap(z: nat, s: nat, inc: nat)
    requires s >= 2 && WrapAccepted(z, s, inc)
    ensures Shifted(z, 1, z + 1, s, inc) == Block(s, NewDiff(Choose(z + s - 1, s - 1), z, s))
  {
    FirstSize(z);
    Reaches(z, 1, s - 1, s, inc);
    OneSizeMore(z, s - 1, Choose(z + s - 1, s - 1), s, inc);
    Stops(z, s, NewDiff(Choose(z + s - 1, s - 1), z, s), s, inc);
  }
}
