/**
 * Cutting the list of simplex faces into packages (createSimplexFaces and computeFullDimAFacesFromRange in
 * src/util-gitfan/gitfanImpl.cpp).  A package is the first of its faces and their number.
 */
module FacePackages {
  import opened Arithmetic
  import opened Seqs
  import opened Binomials
  import opened Faces
  import opened BlockSkipping
  import opened FaceSkipping
  import opened FaceIterator

  datatype Package = Package(start: seq<int>, length: nat)

  datatype Creation = Created(package: Package, finished: bool) | OutOfRange

  ghost predicate Good(r: nat, last: Package) {
    Face(0, r, last.start)
  }

  /** Where the next package begins: an empty `start` stands for "no package yet". */
  ghost function Resume(r: nat, k: nat, last: Package): (p: Position)
    requires Good(r, last)
    ensures OnFace(r, p)
  {
    if last.start == [] then
      if k > r then End else UpIsFace(0, r, 1, k); At(Up(1, k))
    else
      IterateCounts(r, At(last.start), Skipping(r, At(last.start), last.length).moved);
      Reached(r, At(last.start), last.length, 0).place
  }

  /** The next package, its length as the iterator counts it. */
  ghost function NextPackage(r: nat, k: nat, last: Package, range: nat): Creation
    requires Good(r, last)
  {
    match Resume(r, k, last)
    case End => OutOfRange
    case At(f) =>
      var t := Skipping(r, At(f), range);
      Created(Package(f, t.lost), Iterate(r, At(f), t.moved) == End)
  }

  method CreateSimplexFaces(r: nat, k: nat, last: Package, range: nat) returns (result: Creation)
    requires r < TWO_TO_THE_31 && Good(r, last)
    ensures result == NextPackage(r, k, last, range)
  {
    var iter: SimplexFaceIterator;
    if last.start == [] {
      iter := new SimplexFaceIterator(r, k);
    } else {
      iter := new SimplexFaceIterator.FromStart(r, last.start);
      FaceFits(0, r, last.start);
      var _ := iter.Increment(last.length);
    }
    var first := iter.Deref();
    if first == PastEnd {
      return OutOfRange;
    }
    var length := iter.Increment(range);
    result := Created(Package(first.face, length), iter.IsEnd());
  }

  /** The faces met by `count` steps from `p`. */
  ghost function FacesFrom(r: nat, p: Position, count: nat): seq<seq<int>>
    decreases count
  {
    if count == 0 || p == End then [] else [p.face] + FacesFrom(r, Next(r, p), count - 1)
  }

  ghost function FacesOf(r: nat, package: Package): seq<seq<int>> {
    FacesFrom(r, At(package.start), package.length)
  }

  lemma {:induction false} FacesFromSplit(r: nat, p: Position, a: nat, b: nat)
    ensures FacesFrom(r, p, a + b) == FacesFrom(r, p, a) + FacesFrom(r, Iterate(r, p, a), b)
    decreases a
  {
    if p == End {
      IterateCounts(r, End, a);
    } else if a > 0 {
      FacesFromSplit(r, Next(r, p), a - 1, b);
    }
  }

  /**
   * What a worker makes of its package: it steps through it one face at a time.  `None` stands for the
   * exception of reading the iterator at its end.
   */
  method FacesInPackage(r: nat, package: Package) returns (result: Option<seq<seq<int>>>)
    requires r < TWO_TO_THE_31 && Good(r, package) && package.length < TWO_TO_THE_32
    ensures result == if package.length <= Remaining(r, At(package.start)) then Some(FacesOf(r, package)) else None
  {
    FaceFits(0, r, package.start);
    var iter := new SimplexFaceIterator.FromStart(r, package.start);
    var faces: seq<seq<int>> := [];
    var i := 0;
    while i < package.length
      invariant i <= package.length && iter.Valid() && iter.n == r && fresh(iter)
      invariant i <= Remaining(r, At(package.start)) && iter.Place() == Iterate(r, At(package.start), i)
      invariant faces == FacesFrom(r, At(package.start), i)
    {
      IterateCounts(r, At(package.start), i);
      var face := iter.Deref();
      if face == PastEnd {
        return None;
      }
      faces := faces + [face.face];
      SingleStep(r, iter.Place());
      var _ := iter.Increment(1);
      OneMoreFace(r, At(package.start), i, face.face);
      i := i + 1;
    }
    result := Some(faces);
  }

  lemma SingleStep(r: nat, p: Position)
    requires r < TWO_TO_THE_31 && OnFace(r, p)
    ensures Reached(r, p, 1, 0).place == Iterate(r, p, 1)
  {
    OneIsExact(1, r);
    ExactIsCorrect(r, p, 1);
  }

  lemma OneMoreFace(r: nat, p: Position, i: nat, f: seq<int>)
    requires Iterate(r, p, i) == At(f)
    ensures FacesFrom(r, p, i + 1) == FacesFrom(r, p, i) + [f]
    ensures Iterate(r, p, i + 1) == Iterate(r, At(f), 1)
  {
    FacesFromSplit(r, p, i, 1);
    IterateAdd(r, p, i, 1);
    assert FacesFrom(r, At(f), 1) == [f];
  }

  // ---------- All packages together ----------

  /**
   * A package, and where it leaves off; it counts no more faces than the iterator passes over, unless a wrap
   * is accepted and the range is the largest.
   */
  lemma NextPackageSteps(r: nat, k: nat, last: Package, range: nat)
    requires r < TWO_TO_THE_31 && 1 <= range < TWO_TO_THE_64 && Good(r, last) && Resume(r, k, last).At?
    ensures var p := Resume(r, k, last);
      var t, c := Skipping(r, p, range), NextPackage(r, k, last, range);
      && c.Created? && Good(r, c.package) && c.package == Package(p.face, t.lost)
      && 1 <= t.lost <= range && 1 <= t.moved <= Remaining(r, p)
      && (Clean(r, p, range) || range + 1 < TWO_TO_THE_64 ==> t.lost <= t.moved)
      && (c.finished <==> t.moved == Remaining(r, p))
      && (p.face != [] && !c.finished ==> Resume(r, k, c.package) == Iterate(r, p, t.moved))
  {
    var p := Resume(r, k, last);
    var t := CountsSome(r, p.face, range);
    var round, _, q := FirstRound(r, p, range);
    var _, _ := MovesEnough(r, p, range);
    SkippingStops(r, p, range, t, Remaining(r, p));
    IterateCounts(r, p, t.moved);
  }

  /** Where the increment is right, a package has all the faces asked for unless fewer are left. */
  lemma FullPackage(r: nat, k: nat, last: Package, range: nat)
    requires r < TWO_TO_THE_31 && 1 <= range < TWO_TO_THE_64 && Good(r, last) && Resume(r, k, last).At?
    requires Clean(r, Resume(r, k, last), range)
    ensures var p, c := Resume(r, k, last), NextPackage(r, k, last, range);
      && c.Created? && c.package.length == Min(range, Remaining(r, p))
      && (c.finished <==> Remaining(r, p) <= range)
  {
    NextPackageSteps(r, k, last, range);
    CorrectIffClean(r, Resume(r, k, last), range);
    CorrectIffEqual(r, Resume(r, k, last), range);
  }

  lemma NonEmptyFaces(r: nat, k: nat, last: Package)
    requires Good(r, last) && 1 <= k <= r
    ensures Resume(r, k, last).At? ==> Resume(r, k, last).face != []
  {
    if last.start == [] {
      UpIsFace(0, r, 1, k);
    } else {
      SizeGrows(r, At(last.start), Skipping(r, At(last.start), last.length).moved);
    }
  }

  /**
   * For `k = 0` the first package starts with the empty face, which reads like "no package yet": every
   * further call hands out that same package again.
   */
  lemma EmptyFaceRestarts(r: nat, last: Package, range: nat)
    requires last.start == []
    ensures var t := Skipping(r, At([]), range);
      NextPackage(r, 0, last, range) == Created(Package([], t.lost), Iterate(r, At([]), t.moved) == End)
    ensures NextPackage(r, 0, NextPackage(r, 0, last, range).package, range) == NextPackage(r, 0, last, range)
  {
    assert Up(1, 0) == [];
  }
}
