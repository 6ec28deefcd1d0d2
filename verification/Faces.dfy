/**
 * The faces of a simplex on {1, ..., n} as ascending sequences, in the order of size first and
 * lexicographic second, and the one-step successor in that order.
 */
module Faces {
  import opened Seqs
  import opened Binomials

  /** An ascending sequence of numbers above `lo` and at most `n`. */
  predicate Face(lo: int, n: int, f: seq<int>)
    decreases |f|
  {
    f == [] || (lo < f[0] <= n && Face(f[0], n, f[1..]))
  }

  /** The `m` consecutive numbers from `a` on. */
  function Up(a: int, m: nat): (f: seq<int>)
    ensures |f| == m && forall i :: 0 <= i < m ==> f[i] == a + i
  {
    seq(m, i => a + i)
  }

  ghost predicate LexLess(f: seq<int>, g: seq<int>) {
    f != [] && g != [] && (f[0] < g[0] || (f[0] == g[0] && LexLess(f[1..], g[1..])))
  }

  /** Smaller faces come first; faces of one size come in lexicographic order. */
  ghost predicate Before(f: seq<int>, g: seq<int>) {
    |f| < |g| || (|f| == |g| && LexLess(f, g))
  }

  /** The next face of the same size, if there is one. */
  ghost function NextInSize(n: int, f: seq<int>): Option<seq<int>> {
    if f == [] then None
    else
      match NextInSize(n, f[1..])
      case Some(rest) => Some([f[0]] + rest)
      case None => if f[0] + |f| <= n then Some(Up(f[0] + 1, |f|)) else None
  }

  datatype Position = At(face: seq<int>) | End

  ghost function Next(n: int, p: Position): Position {
    match p
    case End => End
    case At(f) =>
      match NextInSize(n, f)
      case Some(g) => At(g)
      case None => if |f| < n then At(Up(1, |f| + 1)) else End
  }

  ghost function Iterate(n: int, p: Position, steps: nat): Position
    decreases steps
  {
    if steps == 0 then p else Iterate(n, Next(n, p), steps - 1)
  }

  ghost predicate OnFace(n: int, p: Position) {
    p.At? ==> Face(0, n, p.face)
  }

  // ---------- The successor is the next face in the order ----------

  lemma {:induction false} UpIsFace(lo: int, n: int, a: int, m: nat)
    requires lo < a && a + m <= n + 1
    ensures Face(lo, n, Up(a, m))
    decreases m
  {
    if m > 0 {
      UpIsFace(a, n, a + 1, m - 1);
      assert Up(a, m)[1..] == Up(a + 1, m - 1);
    }
  }

  lemma {:induction false} FaceFits(lo: int, n: int, f: seq<int>)
    requires Face(lo, n, f)
    ensures f != [] ==> f[0] + |f| <= n + 1
    ensures lo >= 0 && f != [] ==> |f| <= n
    decreases |f|
  {
    if f != [] {
      FaceFits(f[0], n, f[1..]);
    }
  }

  lemma {:induction false} UpIsFirst(lo: int, n: int, g: seq<int>)
    requires Face(lo, n, g)
    ensures g == Up(lo + 1, |g|) || LexLess(Up(lo + 1, |g|), g)
    decreases |g|
  {
    if g != [] && g[0] == lo + 1 {
      UpIsFirst(lo + 1, n, g[1..]);
      assert Up(lo + 1, |g|)[1..] == Up(lo + 2, |g| - 1);
      assert g == [g[0]] + g[1..];
      assert Up(lo + 1, |g|) == [lo + 1] + Up(lo + 2, |g| - 1);
    }
  }

  /** Within one size: the successor is larger, and nothing lies between. */
  lemma {:induction false} NextInSizeIsNext(lo: int, n: int, f: seq<int>, g: seq<int>)
    requires Face(lo, n, f) && Face(lo, n, g) && |f| == |g|
    ensures NextInSize(n, f) == None ==> !LexLess(f, g)
    ensures NextInSize(n, f).Some? ==>
              var h := NextInSize(n, f).value;
              && Face(lo, n, h) && |h| == |f|
              && (LexLess(f, g) <==> h == g || LexLess(h, g))
    decreases |f|
  {
    if f != [] {
      var a, b := f[0], g[0];
      FaceFits(lo, n, g);
      FaceFits(lo, n, f);
      if a == b {
        NextInSizeIsNext(a, n, f[1..], g[1..]);
      } else {
        NextInSizeIsNext(a, n, f[1..], f[1..]);
        if a < b {
          UpIsFirst(a, n, g);
        }
      }
      if NextInSize(n, f[1..]) == None && a + |f| <= n {
        UpIsFace(lo, n, a + 1, |f|);
      }
      assert g == [b] + g[1..];
    }
  }

  /** What comes after `f` is exactly its successor and what comes after that. */
  lemma NextIsNext(n: nat, f: seq<int>, g: seq<int>)
    requires Face(0, n, f) && Face(0, n, g)
    ensures OnFace(n, Next(n, At(f)))
    ensures Before(f, g) <==> Next(n, At(f)).At? && (Next(n, At(f)).face == g || Before(Next(n, At(f)).face, g))
  {
    FaceFits(0, n, f);
    FaceFits(0, n, g);
    NextInSizeIsNext(0, n, f, f);
    if |f| == |g| {
      NextInSizeIsNext(0, n, f, g);
    }
    if NextInSize(n, f) == None && |f| < n {
      FirstOfNextSize(n, f, g);
    }
  }

  lemma FirstOfNextSize(n: nat, f: seq<int>, g: seq<int>)
    requires Face(0, n, g) && |f| < n
    ensures Face(0, n, Up(1, |f| + 1))
    ensures |g| == |f| + 1 ==> Up(1, |f| + 1) == g || LexLess(Up(1, |f| + 1), g)
  {
    UpIsFace(0, n, 1, |f| + 1);
    if |g| == |f| + 1 {
      UpIsFirst(0, n, g);
    }
  }

  // ---------- Counting the steps that are left ----------

  /** How many faces of the same size come after `f`. */
  ghost function Ahead(n: int, f: seq<int>): nat {
    if f == [] then 0 else Choose(n - f[0], |f|) + Ahead(n, f[1..])
  }

  /** How many faces have more than `k` elements. */
  ghost function Larger(n: int, k: nat): nat
    decreases n - k
  {
    if k >= n then 0 else Choose(n, k + 1) + Larger(n, k + 1)
  }

  /** The number of steps from a position to the end. */
  ghost function Remaining(n: int, p: Position): nat {
    match p
    case End => 0
    case At(f) => Ahead(n, f) + 1 + Larger(n, |f|)
  }

  lemma {:induction false} AheadOfUp(n: int, lo: int, m: nat)
    requires lo + m <= n
    ensures Ahead(n, Up(lo + 1, m)) + 1 == Choose(n - lo, m)
    decreases m
  {
    if m > 0 {
      AheadOfUp(n, lo + 1, m - 1);
      assert Up(lo + 1, m)[1..] == Up(lo + 2, m - 1);
    }
  }

  lemma {:induction false} NextInSizeCounts(lo: int, n: int, f: seq<int>)
    requires Face(lo, n, f)
    ensures NextInSize(n, f) == None <==> Ahead(n, f) == 0
    ensures NextInSize(n, f).Some? ==> Ahead(n, NextInSize(n, f).value) + 1 == Ahead(n, f)
    decreases |f|
  {
    if f != [] {
      NextInSizeCounts(f[0], n, f[1..]);
      NextInSizeIsNext(lo, n, f, f);
      match NextInSize(n, f[1..])
      case Some(rest) =>
        NextInSizeIsNext(f[0], n, f[1..], f[1..]);
        assert ([f[0]] + rest)[1..] == rest;
      case None =>
        if f[0] + |f| <= n {
          AheadOfUp(n, f[0], |f|);
          ChooseGrows(n - f[0] - |f|, |f|);
        } else {
          ChooseZero(n - f[0], |f|);
        }
    }
  }

  lemma NextCounts(n: nat, p: Position)
    requires OnFace(n, p) && p.At?
    ensures OnFace(n, Next(n, p))
    ensures Remaining(n, Next(n, p)) + 1 == Remaining(n, p)
  {
    NextIsNext(n, p.face, p.face);
    NextInSizeCounts(0, n, p.face);
    FaceFits(0, n, p.face);
    match NextInSize(n, p.face)
    case Some(g) => NextInSizeIsNext(0, n, p.face, p.face);
    case None =>
      if |p.face| < n {
        AheadOfUp(n, 0, |p.face| + 1);
      }
  }

  lemma {:induction false} IterateCounts(n: nat, p: Position, steps: nat)
    requires OnFace(n, p)
    ensures OnFace(n, Iterate(n, p, steps))
    ensures Remaining(n, Iterate(n, p, steps))
            == if steps <= Remaining(n, p) then Remaining(n, p) - steps else 0
    ensures Iterate(n, p, steps) == End <==> steps >= Remaining(n, p)
    decreases steps
  {
    if steps > 0 {
      if p.At? {
        NextCounts(n, p);
      }
      IterateCounts(n, Next(n, p), steps - 1);
    }
  }

  lemma {:induction false} IterateAdd(n: int, p: Position, a: nat, b: nat)
    ensures Iterate(n, p, a + b) == Iterate(n, Iterate(n, p, a), b)
    decreases a
  {
    if a > 0 {
      IterateAdd(n, Next(n, p), a - 1, b);
    }
  }

  // ---------- Stepping visits every face ----------

  /** Stepping from a face meets every later one, after as many steps as the counts differ by. */
  lemma {:induction false} StepsReach(n: nat, f: seq<int>, g: seq<int>)
    requires Face(0, n, f) && Face(0, n, g) && (f == g || Before(f, g))
    ensures Remaining(n, At(g)) <= Remaining(n, At(f))
    ensures Iterate(n, At(f), Remaining(n, At(f)) - Remaining(n, At(g))) == At(g)
    decreases Remaining(n, At(f))
  {
    if f != g {
      NextIsNext(n, f, g);
      NextCounts(n, At(f));
      StepsReach(n, Next(n, At(f)).face, g);
    }
  }

  lemma {:induction false} LexTotal(f: seq<int>, g: seq<int>)
    requires |f| == |g|
    ensures f == g || LexLess(f, g) || LexLess(g, f)
    decreases |f|
  {
    if f != [] {
      LexTotal(f[1..], g[1..]);
      assert f == [f[0]] + f[1..] && g == [g[0]] + g[1..];
    }
  }

  /** Among faces of one size, the counts alone tell how many steps lead from one to the other. */
  lemma Jump(n: nat, f: seq<int>, g: seq<int>)
    requires Face(0, n, f) && Face(0, n, g) && |f| == |g| && Ahead(n, g) <= Ahead(n, f)
    ensures Iterate(n, At(f), Ahead(n, f) - Ahead(n, g)) == At(g)
  {
    LexTotal(f, g);
    if f == g || LexLess(f, g) {
      StepsReach(n, f, g);
    } else {
      StepsReach(n, g, f);
    }
  }

  /**
   * Stepping from the first face with `k` elements visits exactly the faces with at least `k` elements,
   * each of them once.
   */
  lemma VisitsEachFaceOnce(n: nat, k: nat, g: seq<int>) returns (i: nat)
    requires k <= n && Face(0, n, g) && k <= |g|
    ensures i < Remaining(n, At(Up(1, k))) && Iterate(n, At(Up(1, k)), i) == At(g)
    ensures forall j: nat :: Iterate(n, At(Up(1, k)), j) == At(g) ==> j == i
  {
    var f := Up(1, k);
    UpIsFace(0, n, 1, k);
    if |g| == k {
      UpIsFirst(0, n, g);
    }
    StepsReach(n, f, g);
    i := Remaining(n, At(f)) - Remaining(n, At(g));
    forall j: nat | Iterate(n, At(f), j) == At(g)
      ensures j == i
    {
      IterateCounts(n, At(f), j);
    }
  }

  lemma VisitsOnlyFaces(n: nat, k: nat, i: nat)
    requires k <= n && i < Remaining(n, At(Up(1, k)))
    ensures var p := Iterate(n, At(Up(1, k)), i);
      p.At? && Face(0, n, p.face) && k <= |p.face|
  {
    UpIsFace(0, n, 1, k);
    IterateCounts(n, At(Up(1, k)), i);
    SizeGrows(n, At(Up(1, k)), i);
  }

  lemma {:induction false} SizeGrows(n: nat, p: Position, i: nat)
    requires OnFace(n, p)
    ensures p.At? && Iterate(n, p, i).At? ==> |p.face| <= |Iterate(n, p, i).face|
    decreases i
  {
    if i > 0 && p.At? {
      NextCounts(n, p);
      NextInSizeIsNext(0, n, p.face, p.face);
      SizeGrows(n, Next(n, p), i - 1);
      if Next(n, p) == End {
        IterateCounts(n, p, i);
      }
    }
  }

  /** So there are as many steps as there are subsets of at least `k` elements. */
  lemma StepsFromStart(n: nat, k: nat)
    requires k <= n
    ensures Remaining(n, At(Up(1, k))) == Choose(n, k) + Larger(n, k)
  {
    AheadOfFirst(n, k);
    FirstOfSize(n, k, Up(1, k));
  }

  lemma AheadOfFirst(n: nat, k: nat)
    requires k <= n
    ensures Ahead(n, Up(1, k)) + 1 == Choose(n, k)
  {
    AheadFrom(n, 0, 1, k);
  }

  lemma AheadFrom(n: int, lo: int, a: int, m: nat)
    requires lo + m <= n && a == lo + 1
    ensures Ahead(n, Up(a, m)) + 1 == Choose(n - lo, m)
  {
    AheadOfUp(n, lo, m);
  }

  lemma FirstOfSize(n: nat, k: nat, f: seq<int>)
    requires |f| == k && Ahead(n, f) + 1 == Choose(n, k)
    ensures Remaining(n, At(f)) == Choose(n, k) + Larger(n, k)
  {
  }

  // ---------- Changing the end of a face ----------

  lemma {:induction false} PrefixCounts(n: int, prefix: seq<int>, x: seq<int>, y: seq<int>)
    requires |x| == |y|
    ensures Ahead(n, prefix + x) - Ahead(n, prefix + y) == Ahead(n, x) - Ahead(n, y)
    decreases |prefix|
  {
    if prefix == [] {
      assert prefix + x == x && prefix + y == y;
    } else {
      assert (prefix + x)[1..] == prefix[1..] + x && (prefix + y)[1..] == prefix[1..] + y;
      PrefixCounts(n, prefix[1..], x, y);
    }
  }

  /** A tail may be replaced by another that stays above what precedes it. */
  lemma {:induction false} ReplaceTail(lo: int, n: int, prefix: seq<int>, x: seq<int>, y: seq<int>)
    requires Face(lo, n, prefix + x) && x != [] && y != [] && x[0] <= y[0]
    requires Face(y[0] - 1, n, y)
    ensures Face(lo, n, prefix + y)
    decreases |prefix|
  {
    if prefix == [] {
      assert prefix + x == x && prefix + y == y;
    } else {
      assert (prefix + x)[1..] == prefix[1..] + x && (prefix + y)[1..] == prefix[1..] + y;
      ReplaceTail(prefix[0], n, prefix[1..], x, y);
    }
  }

  lemma {:induction false} FaceOrder(lo: int, n: int, f: seq<int>)
    requires Face(lo, n, f)
    ensures forall i :: 0 <= i < |f| ==> lo < f[i] <= n
    ensures forall i, j :: 0 <= i < j < |f| ==> f[i] < f[j]
    decreases |f|
  {
    if f != [] {
      FaceOrder(f[0], n, f[1..]);
      assert f == [f[0]] + f[1..];
    }
  }
}
