/**
 * The iterator over the faces of a simplex (src/util-gitfan/simplexfaceiterator.cpp), which skips over
 * binomially many faces at a time, proved against single steps of Faces.Next.
 */
module FaceIterator {
  import opened Seqs
  import opened Arithmetic
  import opened Binomials
  import opened Faces
  import opened BlockSkipping
  import opened FaceSkipping

  /** The block of consecutive numbers that ends at index `end` begins at index `start`. */
  method StartOfOneBlock(a: seq<int>, end: int) returns (start: int)
    requires 0 <= end < |a|
    ensures 0 <= start <= end
    ensures forall i :: start <= i < end ==> a[i] + 1 == a[i + 1]
    ensures start > 0 ==> a[start - 1] + 1 != a[start]
  {
    var pos := end - 1;
    while pos >= 0 && a[pos] + 1 == a[pos + 1]
      invariant -1 <= pos < end
      invariant forall i :: pos < i < end ==> a[i] + 1 == a[i + 1]
    {
      pos := pos - 1;
    }
    start := pos + 1;
  }

  /**
   * How many numbers of a block, followed by `zeroCount` unused ones, are pushed to the right end, and the
   * number of faces counted for that: the largest block that can be skipped, unless a wrap is accepted.
   */
  method BlockToShift(blockLength: nat, zeroCount: nat, inc: nat) returns (size: nat, diff: nat)
    requires 1 <= blockLength && 1 <= zeroCount < inc && zeroCount + 1 < TWO_TO_THE_64
    ensures Block(size, diff) == Shifted(zeroCount, 1, zeroCount + 1, blockLength, inc)
    ensures NoneAccepted(zeroCount, blockLength, inc) ==>
              Largest(zeroCount, Block(size, diff), blockLength, inc)
  {
    size, diff := 1, zeroCount + 1;
    ghost var b := Shifted(zeroCount, size, diff, blockLength, inc);
    while size <= blockLength - 1
      invariant 1 <= size <= blockLength
      invariant Shifted(zeroCount, size, diff, blockLength, inc) == b
    {
      size := size + 1;
      var newDiff := NewDiff(diff, zeroCount, size);
      if inc < Word(newDiff as int - 1) {
        size := size - 1;
        break;
      } else {
        OneSizeMore(zeroCount, size - 1, diff, blockLength, inc);
        diff := newDiff;
      }
    }
    Stops(zeroCount, size, diff, blockLength, inc);
    if NoneAccepted(zeroCount, blockLength, inc) {
      CleanBlock(zeroCount, blockLength, inc);
    }
  }

  /** The last `size` numbers of `g` are at the right end, the others are those of `f`. */
  ghost predicate PushedRight(n: int, f: seq<int>, g: seq<int>, size: nat) {
    && size <= |f| == |g| && (forall j :: 0 <= j < |f| - size ==> g[j] == f[j])
    && (forall j :: |f| - size <= j < |f| ==> g[j] == n - (|f| - 1 - j))
  }

  datatype Dereferenced = Element(face: seq<int>) | PastEnd

  class SimplexFaceIterator {
    var cur: seq<int>
    var n: nat
    var k: nat

    ghost predicate Valid()
      reads this
    {
      n < TWO_TO_THE_31 && (k <= n ==> |cur| == k && Face(0, n, cur))
    }

    ghost function Place(): Position
      reads this
    {
      if k > n then End else At(cur)
    }

    constructor FromStart(n: nat, start: seq<int>)
      requires n < TWO_TO_THE_31 && (|start| <= n ==> Face(0, n, start))
      ensures Valid() && this.n == n
      ensures Place() == if |start| > n then End else At(start)
    {
      this.n := n;
      k := |start|;
      cur := start;
    }

    constructor (n: nat, k: nat)
      requires n < TWO_TO_THE_31
      ensures Valid() && this.n == n
      ensures Place() == if k > n then End else At(Up(1, k))
    {
      this.n := n;
      this.k := k;
      cur := Up(1, k);
      new;
      if k <= n {
        UpIsFace(0, n, 1, k);
      }
    }

    predicate IsEnd()
      reads this
    {
      k > n
    }

    method Deref() returns (r: Dereferenced)
      requires Valid()
      ensures r == match Place() case End => PastEnd case At(f) => Element(f)
    {
      if IsEnd() {
        return PastEnd;
      }
      return Element(cur);
    }

    /** Sets the numbers from index `first` on to consecutive values. */
    method RunOn(first: nat)
      requires first < |cur| == k
      modifies this`cur
      ensures |cur| == k && forall j :: 0 <= j <= first ==> cur[j] == old(cur)[j]
      ensures forall j :: first <= j < k ==> cur[j] == old(cur)[first] + (j - first)
    {
      var i := first + 1;
      while i < k
        invariant first < i <= k == |cur|
        invariant forall j :: 0 <= j <= first ==> cur[j] == old(cur)[j]
        invariant forall j :: first <= j < i ==> cur[j] == old(cur)[first] + (j - first)
      {
        cur := cur[i := cur[i - 1] + 1];
        i := i + 1;
      }
    }

    /** Pushes the last `size` numbers to the right end. */
    method PushRight(size: nat)
      requires size <= k == |cur|
      modifies this`cur
      ensures PushedRight(n, old(cur), cur, size)
    {
      var i := 0;
      while i < size
        invariant i <= size && |cur| == k
        invariant forall j :: 0 <= j < k - size ==> cur[j] == old(cur)[j]
        invariant forall j :: k - i <= j < k ==> cur[j] == n - (k - 1 - j)
      {
        cur := cur[k - 1 - i := n - i];
        i := i + 1;
      }
    }

    /** The last number is `n`: one step within the size, if there is one. */
    method StepFromRightEnd() returns (stepped: bool)
      requires 0 < k == |cur| && k <= n && Face(0, n, cur) && cur[k - 1] == n
      modifies this`cur
      ensures |cur| == k && Face(0, n, cur)
      ensures stepped ==> Ahead(n, old(cur)) == Ahead(n, cur) + 1
      ensures !stepped ==> cur == old(cur) && Ahead(n, cur) == 0
    {
      var start := StartOfOneBlock(cur, k - 1);
      BlockValues(cur, start, k - 1);
      if start == 0 {
        NothingAhead(n, cur);
        return false;
      }
      PushBlock(start);
      return true;
    }

    /** Moves the number before the last block on, and the block after it. */
    method PushBlock(start: nat)
      requires 0 < start < k == |cur| && k <= n && Face(0, n, cur) && cur[k - 1] == n
      requires forall i :: start <= i < k ==> cur[i] == n - (k - 1 - i)
      requires cur[start - 1] + 1 != cur[start]
      modifies this`cur
      ensures |cur| == k && Face(0, n, cur) && Ahead(n, old(cur)) == Ahead(n, cur) + 1
    {
      ghost var f := cur;
      var oneIndex := start - 1;
      cur := cur[oneIndex := cur[oneIndex] + 1];
      RunOn(oneIndex);
      PushTail(n, f, cur, start);
    }

    /** The last number can be moved by `steps`. */
    method MoveLast(steps: nat)
      requires 0 < k == |cur| && k <= n && Face(0, n, cur) && cur[k - 1] + steps <= n
      modifies this`cur
      ensures |cur| == k && Face(0, n, cur)
      ensures Ahead(n, old(cur)) == Ahead(n, cur) + steps
    {
      ghost var prefix, b := cur[..k - 1], cur[k - 1];
      assert cur == prefix + [b];
      cur := cur[k - 1 := cur[k - 1] + steps];
      assert cur == prefix + [b + steps];
      ShiftLast(n, prefix, b, steps);
    }

    /** A block is pushed to the right end; `rest` steps are then still to be done. */
    method SkipBlock(left: nat) returns (rest: nat)
      requires n < TWO_TO_THE_31
      requires 0 < k == |cur| && k <= n && Face(0, n, cur) && 0 < n - cur[k - 1] < left
      modifies this`cur
      ensures |cur| == k && Rounded(n, old(cur), left, cur, rest) && rest >= 0
    {
      ghost var f := cur;
      var zeroCount := n - cur[k - 1];
      var start := StartOfOneBlock(cur, k - 1);
      BlockIsRun(f, start);
      FirstPositive(n, f, k - 1);
      var size, diff := BlockToShift(k - start, zeroCount, left);
      PushRight(size);
      Skipped(n, f, cur, k - start, zeroCount, left, size, diff);
      rest := left - Word(diff as int - 1);
    }

    /** One round of the loop; it is stuck when all faces of the current size are done. */
    method WithinSize(left: nat) returns (rest: nat, stuck: bool)
      requires n < TWO_TO_THE_31 && left > 0 && 0 < k == |cur| && k <= n && Face(0, n, cur)
      modifies this`cur
      ensures |cur| == k && Face(0, n, cur)
      ensures stuck ==> cur == old(cur) && rest == left && Ahead(n, cur) == 0 && Unused(n, cur) == 0
      ensures !stuck ==> Rounded(n, old(cur), left, cur, rest)
    {
      FaceOrder(0, n, cur);
      var zeroCount := n - cur[k - 1];
      if zeroCount == 0 {
        var stepped := StepFromRightEnd();
        return if stepped then left - 1 else left, !stepped;
      } else if zeroCount >= left {
        MoveLast(left);
        return 0, false;
      } else {
        rest := SkipBlock(left);
        stuck := false;
      }
    }

    /** All faces of the current size are done: on to the first of the next size, or to the end. */
    method NextSize()
      requires Valid() && k <= n && Ahead(n, cur) == 0
      modifies this`cur, this`k
      ensures Valid() && Place() == Next(n, old(Place()))
      ensures k == if old(k) < n then old(k) + 1 else n + 1
    {
      NextInSizeCounts(0, n, cur);
      if k < n {
        UpIsFace(0, n, 1, k + 1);
        var i := 0;
        while i < k
          invariant i <= k == |cur| == old(k)
          invariant forall j :: 0 <= j < i ==> cur[j] == 1 + j
        {
          cur := cur[i := 1 + i];
          i := i + 1;
        }
        cur := cur + [k + 1];
        k := k + 1;
        assert cur == Up(1, k);
      } else {
        k := n + 1;
        cur := [];
      }
    }

    /**
     * Moves on by `inc` faces and returns by how many that was.  `Reached` says what that comes to with the
     * arithmetic of the source; `CorrectIffClean` says when that is the same as single steps.
     */
    method Increment(inc: nat) returns (r: nat)
      requires Valid()
      modifies this`cur, this`k
      ensures Valid() && Outcome(Place(), r) == Reached(n, old(Place()), inc, 0)
      decreases if k <= n then n - k + 1 else 0
    {
      ghost var outcome := Reached(n, Place(), inc, 0);
      if IsEnd() {
        NothingLeft(n, End, inc, 0);
        return 0;
      }
      var left: nat := inc;
      while left > 0 && k > 0
        invariant left <= inc && k == old(k) == |cur| && Face(0, n, cur)
        invariant Reached(n, At(cur), left, inc - left) == outcome
        decreases Ahead(n, cur)
      {
        ghost var f, before := cur, left;
        var stuck;
        left, stuck := WithinSize(left);
        if stuck { break; }
        SameOutcome(n, f, before, cur, left, inc - before);
      }
      if left > 0 {
        SameOutcomeNext(n, cur, left, inc - left);
        NextSize();
        left := left - 1;
        if k <= n {
          ghost var q := Place();
          var more := Increment(left);
          CountsFrom(n, q, left, inc - left, Outcome(Place(), more));
          return more + inc - left;
        }
      }
      NothingLeft(n, Place(), left, inc - left);
      return inc - left;
    }
  }

  /** The block of consecutive numbers that ends the sequence. */
  lemma BlockIsRun(f: seq<int>, start: nat)
    requires start < |f| && forall i :: start <= i < |f| - 1 ==> f[i] + 1 == f[i + 1]
    requires start > 0 ==> f[start - 1] + 1 != f[start]
    ensures |f| - start == RunLength(f)
  {
    var r := RunLength(f);
    assert forall i :: |f| - r <= i < |f| - 1 ==> f[i] + 1 == f[i + 1];
  }

  lemma NothingAhead(n: nat, f: seq<int>)
    requires |f| <= n && forall i :: 0 <= i < |f| ==> f[i] == n - (|f| - 1 - i)
    ensures Ahead(n, f) == 0
  {
    assert f == Up(n - |f| + 1, |f|);
    AheadOfUp(n, n - |f|, |f|);
    ChooseAll(|f|);
  }

  lemma PushTail(n: int, f: seq<int>, g: seq<int>, start: nat)
    requires 0 < start < |f| == |g| && Face(0, n, f) && f[start - 1] + 1 != f[start]
    requires forall i :: start <= i < |f| ==> f[i] == n - (|f| - 1 - i)
    requires forall i :: 0 <= i < start - 1 ==> g[i] == f[i]
    requires forall i :: start - 1 <= i < |g| ==> g[i] == f[start - 1] + 1 + (i - (start - 1))
    ensures Face(0, n, g) && Ahead(n, f) == Ahead(n, g) + 1
  {
    var prefix, a, m := f[..start - 1], f[start - 1], |f| - start;
    LessThanNext(n, f, start);
    SplitBefore(f, start, n - m + 1, m);
    TailIsUp(g, start - 1, a + 1, m + 1);
    assert g[..start - 1] == prefix;
    PushedFrom(n, f, g, prefix, a, m);
  }

  lemma SplitBefore(f: seq<int>, start: nat, a: int, m: nat)
    requires 0 < start && start + m == |f| && forall i :: start <= i < |f| ==> f[i] == a + (i - start)
    ensures f == f[..start - 1] + [f[start - 1]] + Up(a, m)
  {
    TailIsUp(f, start, a, m);
    assert f[..start] == f[..start - 1] + [f[start - 1]];
  }

  lemma PushedFrom(n: int, f: seq<int>, g: seq<int>, prefix: seq<int>, a: int, m: nat)
    requires Face(0, n, f) && f == prefix + [a] + Up(n - m + 1, m) && a < n - m
    requires g == prefix + Up(a + 1, m + 1)
    ensures Face(0, n, g) && Ahead(n, f) == Ahead(n, g) + 1
  {
    assert f == prefix + ([a] + Up(n - m + 1, m));
    PushOne(n, prefix, a, m);
  }

  lemma LessThanNext(n: int, f: seq<int>, start: nat)
    requires 0 < start < |f| && Face(0, n, f)
    ensures f[start - 1] < f[start]
  {
    FaceOrder(0, n, f);
  }

  /** Pushing the last numbers of a block to the right end is one round. */
  lemma Skipped(n: nat, f: seq<int>, g: seq<int>, length: nat, z: nat, left: nat, size: nat, diff: nat)
    requires n < TWO_TO_THE_31 && Face(0, n, f) && length == RunLength(f) >= 1
    requires 0 < z == Unused(n, f) < left && Block(size, diff) == Shifted(z, 1, z + 1, length, left)
    requires PushedRight(n, f, g, size)
    ensures Word(diff - 1) <= left && Rounded(n, f, left, g, left - Word(diff - 1))
  {
    WordBelow(z);
    BlockRound(n, f, z, length, left, size, Word(diff - 1));
    ShiftedTo(n, f, g, z, size);
  }

  lemma ShiftedTo(n: nat, f: seq<int>, g: seq<int>, zeroCount: nat, size: nat)
    requires Face(0, n, f) && zeroCount == Unused(n, f) && 0 < size <= RunLength(f)
    requires PushedRight(n, f, g, size)
    ensures Face(0, n, g) && Ahead(n, f) == Ahead(n, g) + Choose(zeroCount + size, size) - 1
    ensures Choose(zeroCount + size, size) >= zeroCount + 1
  {
    var a, b := n - zeroCount - size + 1, n - size + 1;
    BlockAtEnd(n, f, size, a);
    PushedTail(n, f, g, size, b);
    ShiftBlock(n, f[..|f| - size], zeroCount, size, a, b);
    ChooseGrows(zeroCount, size);
  }

  lemma PushedTail(n: int, f: seq<int>, g: seq<int>, size: nat, b: int)
    requires PushedRight(n, f, g, size) && b == n - size + 1
    ensures g == f[..|f| - size] + Up(b, size)
  {
    TailIsUp(g, |f| - size, b, size);
    assert g[..|f| - size] == f[..|f| - size];
  }

  /** A run of numbers each one above the last. */
  lemma {:induction false} BlockValues(a: seq<int>, start: int, end: int)
    requires 0 <= start <= end < |a|
    requires forall i :: start <= i < end ==> a[i] + 1 == a[i + 1]
    ensures forall i :: start <= i <= end ==> a[i] == a[end] - (end - i)
    decreases end - start
  {
    if start < end {
      assert a[start] + 1 == a[start + 1];
      BlockValues(a, start + 1, end);
    }
  }
}
