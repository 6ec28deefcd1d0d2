/**
 * The faces listed by packages that follow each other (createSimplexFaces in src/util-gitfan/gitfanImpl.cpp):
 * when they are all faces once each, for every job size.
 */
module PackageLists {
  import opened Arithmetic
  import opened Seqs
  import opened Faces
  import opened BlockSkipping
  import opened FaceSkipping
  import opened FacePackages

  // ---------- Where a face is listed ----------

  /** 1 if the face comes at `p` or after it, otherwise 0. */
  ghost function FromHere(r: nat, p: Position, f: seq<int>): nat {
    if p.At? && Face(0, r, f) && (p.face == f || Before(p.face, f)) then 1 else 0
  }

  /** From `p` on, a face is met once if it is `p` or comes after it, and not at all otherwise. */
  lemma {:induction false} CountFrom(r: nat, p: Position, f: seq<int>)
    requires OnFace(r, p)
    ensures multiset(FacesFrom(r, p, Remaining(r, p)))[f] == FromHere(r, p, f)
    decreases Remaining(r, p)
  {
    if p.At? {
      NextCounts(r, p);
      CountFrom(r, Next(r, p), f);
      var rest := FacesFrom(r, Next(r, p), Remaining(r, Next(r, p)));
      assert FacesFrom(r, p, Remaining(r, p)) == [p.face] + rest;
      NextIsNext(r, p.face, if Face(0, r, f) then f else p.face);
      if f == p.face {
        NotBeforeItself(f);
      }
    }
  }

  lemma {:induction false} NotBeforeItself(f: seq<int>)
    ensures !LexLess(f, f)
  {
    if f != [] {
      NotBeforeItself(f[1..]);
    }
  }

  /** `count` faces from `p` on meet a face once if it comes in between, and not at all otherwise. */
  lemma CountWithin(r: nat, p: Position, count: nat, f: seq<int>)
    requires OnFace(r, p)
    ensures multiset(FacesFrom(r, p, count))[f] + FromHere(r, Iterate(r, p, count), f) == FromHere(r, p, f)
  {
    IterateCounts(r, p, count);
    CountFrom(r, p, f);
    if count <= Remaining(r, p) {
      var q := Iterate(r, p, count);
      FacesFromSplit(r, p, count, Remaining(r, q));
      CountFrom(r, q, f);
    } else {
      NoMoreFaces(r, p, count);
    }
  }

  lemma NoMoreFaces(r: nat, p: Position, count: nat)
    requires OnFace(r, p) && count >= Remaining(r, p)
    ensures FacesFrom(r, p, count) == FacesFrom(r, p, Remaining(r, p))
  {
    var all := Remaining(r, p);
    IterateCounts(r, p, all);
    FacesFromSplit(r, p, all, count - all);
  }

  /** Further on there is no more to come. */
  lemma FromLater(r: nat, p: Position, a: nat, b: nat, f: seq<int>)
    requires OnFace(r, p) && a <= b
    ensures FromHere(r, Iterate(r, p, b), f) <= FromHere(r, Iterate(r, p, a), f)
  {
    IterateCounts(r, p, a);
    IterateAdd(r, p, a, b - a);
    CountWithin(r, Iterate(r, p, a), b - a, f);
  }

  /** The face that is reached after `i` steps is still to come exactly up to there. */
  lemma StillToCome(r: nat, p: Position, i: nat, j: nat, f: seq<int>)
    requires OnFace(r, p) && Iterate(r, p, i) == At(f)
    ensures Face(0, r, f) && FromHere(r, Iterate(r, p, j), f) == if j <= i then 1 else 0
  {
    IterateCounts(r, p, i);
    if j <= i {
      FromLater(r, p, j, i, f);
    } else {
      GoneAfter(r, f);
      IterateAdd(r, p, i, 1);
      FromLater(r, p, i + 1, j, f);
    }
  }

  lemma GoneAfter(r: nat, f: seq<int>)
    requires Face(0, r, f)
    ensures FromHere(r, Iterate(r, At(f), 1), f) == 0
  {
    CountWithin(r, At(f), 1, f);
    assert FacesFrom(r, At(f), 1) == [f];
  }

  // ---------- The packages one after the other ----------

  /** Where package `i` begins, the first one at `first`. */
  ghost function StartOf(r: nat, first: Position, job: nat, i: nat): (p: Position)
    requires OnFace(r, first)
    ensures OnFace(r, p)
  {
    if i == 0 then first else Onward(r, StartOf(r, first, job, i - 1), job)
  }

  /** The place an increment by a job leads to. */
  ghost function Onward(r: nat, p: Position, job: nat): (q: Position)
    requires OnFace(r, p)
    ensures OnFace(r, q)
  {
    IterateCounts(r, p, Skipping(r, p, job).moved);
    Iterate(r, p, Skipping(r, p, job).moved)
  }

  /** The faces of the first `i` packages. */
  ghost function Listed(r: nat, first: Position, job: nat, i: nat): seq<seq<int>>
    requires OnFace(r, first)
  {
    if i == 0 then [] else
      Listed(r, first, job, i - 1) + FacesCounted(r, StartOf(r, first, job, i - 1), job)
  }

  /** The faces a package of the given size counts. */
  ghost function FacesCounted(r: nat, p: Position, job: nat): seq<seq<int>>
    requires OnFace(r, p)
  {
    FacesFrom(r, p, Skipping(r, p, job).lost)
  }

  lemma NextStartOf(r: nat, first: Position, job: nat, n: nat, next: nat)
    requires OnFace(r, first) && next == n + 1
    ensures StartOf(r, first, job, next) == Onward(r, StartOf(r, first, job, n), job)
  {
  }

  lemma NextListed(r: nat, first: Position, job: nat, n: nat, next: nat)
    requires OnFace(r, first) && next == n + 1
    ensures Listed(r, first, job, next)
            == Listed(r, first, job, n) + FacesCounted(r, StartOf(r, first, job, n), job)
  {
  }

  lemma NextPackageOf(r: nat, first: Position, job: nat, n: nat, next: nat, p: Position, t: Round)
    requires OnFace(r, first) && next == n + 1
    requires p == StartOf(r, first, job, n) && t == Skipping(r, p, job)
    ensures StartOf(r, first, job, next) == Iterate(r, p, t.moved)
    ensures Listed(r, first, job, next) == Listed(r, first, job, n) + FacesFrom(r, p, t.lost)
  {
    NextStartOf(r, first, job, n, next);
    NextListed(r, first, job, n, next);
  }

  /** The packages end with number `n`. */
  ghost predicate EndsAt(r: nat, first: Position, job: nat, n: nat)
    requires OnFace(r, first)
  {
    StartOf(r, first, job, n) == End && forall i: nat :: i < n ==> StartOf(r, first, job, i).At?
  }

  /** Every face from `first` on is listed once, and nothing else. */
  ghost predicate EachOnce(r: nat, first: Position, faces: seq<seq<int>>) {
    forall f :: multiset(faces)[f] == FromHere(r, first, f)
  }

  /** `done` steps on from `first` the increment by a job accepts no wrap. */
  ghost predicate CleanAfter(r: nat, first: Position, job: nat, done: nat)
    requires OnFace(r, first)
  {
    IterateCounts(r, first, done);
    Clean(r, Iterate(r, first, done), job)
  }

  /** The steps that make up `i` jobs. */
  ghost function Jobs(i: nat, job: nat): nat {
    if i == 0 then 0 else Jobs(i - 1, job) + job
  }

  lemma {:induction false} JobsAreProduct(i: nat, job: nat)
    ensures Jobs(i, job) == i * job
  {
    if i > 0 {
      JobsAreProduct(i - 1, job);
    }
  }

  lemma MoreJobs(i: nat, j: nat, job: nat)
    requires i <= j
    ensures Jobs(i, job) <= Jobs(j, job)
  {
    JobsAreProduct(i, job);
    JobsAreProduct(j, job);
    Monotone(i, j, job);
  }

  /** `i` jobs on from `first`, if that is before the end. */
  ghost predicate CleanAt(r: nat, first: Position, job: nat, i: nat)
    requires OnFace(r, first)
  {
    Jobs(i, job) < Remaining(r, first) ==> CleanAfter(r, first, job, Jobs(i, job))
  }

  ghost predicate CleanJobs(r: nat, first: Position, job: nat)
    requires OnFace(r, first)
  {
    forall i: nat :: CleanAt(r, first, job, i)
  }

  // ---------- As long as no wrap is accepted ----------

  lemma OneCleanJob(r: nat, p: Position, job: nat)
    requires r < TWO_TO_THE_31 && OnFace(r, p) && Clean(r, p, job)
    ensures var t := Skipping(r, p, job);
      Iterate(r, p, t.moved) == Iterate(r, p, job) && FacesFrom(r, p, t.lost) == FacesFrom(r, p, job)
  {
    var t, clean := MovesEnough(r, p, job);
    CorrectIffEqual(r, p, job);
    if job > Remaining(r, p) {
      NoMoreFaces(r, p, job);
    }
  }

  ghost predicate CleanBefore(r: nat, first: Position, job: nat, n: nat)
    requires OnFace(r, first)
  {
    forall i: nat :: i < n ==> CleanAt(r, first, job, i)
  }

  ghost predicate GoesOnBefore(r: nat, first: Position, job: nat, n: nat)
    requires OnFace(r, first)
  {
    forall i: nat :: i < n ==> StartOf(r, first, job, i).At?
  }

  lemma OneFewer(r: nat, first: Position, job: nat, n: nat, before: nat)
    requires OnFace(r, first) && CleanBefore(r, first, job, n) && GoesOnBefore(r, first, job, n) && n == before + 1
    ensures CleanBefore(r, first, job, before) && GoesOnBefore(r, first, job, before)
    ensures CleanAt(r, first, job, before) && StartOf(r, first, job, before).At?
  {
  }

  /** Where the packages are as they should be after `done` steps. */
  ghost predicate Right(r: nat, first: Position, job: nat, n: nat, done: nat)
    requires OnFace(r, first)
  {
    StartOf(r, first, job, n) == Iterate(r, first, done) && Listed(r, first, job, n) == FacesFrom(r, first, done)
  }

  lemma OneMoreRight(r: nat, first: Position, job: nat, n: nat, next: nat, done: nat, p: Position)
    requires r < TWO_TO_THE_31 && OnFace(r, first) && Right(r, first, job, n, done) && next == n + 1
    requires p == StartOf(r, first, job, n) && Clean(r, p, job)
    ensures Right(r, first, job, next, done + job)
  {
    OneCleanJob(r, p, job);
    IterateAdd(r, first, done, job);
    FacesFromSplit(r, first, done, job);
  }

  lemma CleanThere(r: nat, first: Position, job: nat, i: nat, done: nat)
    requires OnFace(r, first) && CleanAt(r, first, job, i) && done == Jobs(i, job)
    ensures done < Remaining(r, first) ==> CleanAfter(r, first, job, done)
  {
  }

  lemma {:induction false} CleanListed(r: nat, first: Position, job: nat, n: nat, done: nat)
    requires r < TWO_TO_THE_31 && OnFace(r, first) && done == Jobs(n, job)
    requires CleanBefore(r, first, job, n) && GoesOnBefore(r, first, job, n)
    ensures Right(r, first, job, n, done)
  {
    if n == 0 {
      NothingListed(r, first, job, n, done);
    } else {
      var before := n - 1;
      var doneBefore := Jobs(before, job);
      OneFewer(r, first, job, n, before);
      CleanListed(r, first, job, before, doneBefore);
      CleanThere(r, first, job, before, doneBefore);
      OneMoreClean(r, first, job, before, n, doneBefore);
    }
  }

  lemma OneMoreClean(r: nat, first: Position, job: nat, n: nat, next: nat, done: nat)
    requires r < TWO_TO_THE_31 && OnFace(r, first) && Right(r, first, job, n, done) && next == n + 1
    requires StartOf(r, first, job, n).At?
    requires done < Remaining(r, first) ==> CleanAfter(r, first, job, done)
    ensures Right(r, first, job, next, done + job)
  {
    IterateCounts(r, first, done);
    OneMoreRight(r, first, job, n, next, done, StartOf(r, first, job, n));
  }

  lemma NothingListed(r: nat, first: Position, job: nat, n: nat, done: nat)
    requires OnFace(r, first) && n == 0 && done == 0
    ensures Right(r, first, job, n, done)
  {
  }

  /** Without an accepted wrap the packages list each face once. */
  lemma CleanIsEachOnce(r: nat, first: Position, job: nat, n: nat)
    requires r < TWO_TO_THE_31 && OnFace(r, first) && CleanJobs(r, first, job) && EndsAt(r, first, job, n)
    ensures Listed(r, first, job, n) == FacesFrom(r, first, Remaining(r, first))
    ensures EachOnce(r, first, Listed(r, first, job, n))
  {
    var done := Jobs(n, job);
    CleanListed(r, first, job, n, done);
    AllListed(r, first, done, Listed(r, first, job, n));
  }

  lemma AllListed(r: nat, first: Position, done: nat, faces: seq<seq<int>>)
    requires OnFace(r, first) && Iterate(r, first, done) == End && faces == FacesFrom(r, first, done)
    ensures faces == FacesFrom(r, first, Remaining(r, first)) && EachOnce(r, first, faces)
  {
    IterateCounts(r, first, done);
    NoMoreFaces(r, first, done);
    forall f
      ensures multiset(faces)[f] == FromHere(r, first, f)
    {
      CountFrom(r, first, f);
    }
  }

  // ---------- The first accepted wrap spoils the list ----------

  /** The face is missing for good, listed twice, or listed and about to be listed again. */
  ghost predicate Spoiled(r: nat, first: Position, job: nat, n: nat, f: seq<int>)
    requires OnFace(r, first)
  {
    var count, p := multiset(Listed(r, first, job, n))[f], StartOf(r, first, job, n);
    || (count == 0 && FromHere(r, p, f) == 0)
    || count >= 2
    || (count == 1 && p == At(f))
  }

  lemma OneMoreCount(r: nat, first: Position, job: nat, n: nat, next: nat, f: seq<int>)
    requires OnFace(r, first) && next == n + 1
    ensures var p := StartOf(r, first, job, n);
      var t := Skipping(r, p, job);
      && multiset(Listed(r, first, job, next))[f] + FromHere(r, Iterate(r, p, t.lost), f)
         == multiset(Listed(r, first, job, n))[f] + FromHere(r, p, f)
      && StartOf(r, first, job, next) == Iterate(r, p, t.moved)
  {
    var p := StartOf(r, first, job, n);
    CountWithin(r, p, Skipping(r, p, job).lost, f);
  }

  lemma StaysSpoiled(r: nat, first: Position, job: nat, n: nat, next: nat, f: seq<int>)
    requires r < TWO_TO_THE_31 && 1 <= job < TWO_TO_THE_64 && OnFace(r, first) && next == n + 1
    requires Spoiled(r, first, job, n, f) && StartOf(r, first, job, n).At?
    ensures Spoiled(r, first, job, next, f)
  {
    var p := StartOf(r, first, job, n);
    var t := CountsSome(r, p.face, job);
    OneMoreCount(r, first, job, n, next, f);
    FromLater(r, p, 0, t.moved, f);
    FromLater(r, p, 0, t.lost, f);
    if p == At(f) {
      StillToCome(r, p, 0, t.lost, f);
      StillToCome(r, p, 0, 0, f);
    }
  }

  /** What is listed and what is still to come make up everything. */
  ghost predicate AllAccounted(r: nat, first: Position, job: nat, n: nat)
    requires OnFace(r, first)
  {
    forall g :: Accounted(r, first, Listed(r, first, job, n), StartOf(r, first, job, n), g)
  }

  ghost predicate Accounted(r: nat, first: Position, listed: seq<seq<int>>, p: Position, g: seq<int>) {
    multiset(listed)[g] + FromHere(r, p, g) == FromHere(r, first, g)
  }

  /** A package that counts less than the iterator passes over leaves out the face after it. */
  lemma LeavesOut(r: nat, first: Position, job: nat, n: nat, next: nat, p: Position, t: Round) returns (f: seq<int>)
    requires OnFace(r, first) && next == n + 1 && p == StartOf(r, first, job, n) && t == Skipping(r, p, job)
    requires AllAccounted(r, first, job, n)
    requires t.lost < t.moved <= Remaining(r, p)
    ensures FromHere(r, first, f) == 1 && Spoiled(r, first, job, next, f)
  {
    IterateCounts(r, p, t.lost);
    f := Iterate(r, p, t.lost).face;
    StillToCome(r, p, t.lost, 0, f);
    StillToCome(r, p, t.lost, t.lost, f);
    StillToCome(r, p, t.lost, t.moved, f);
    OneMoreCount(r, first, job, n, next, f);
    assert Accounted(r, first, Listed(r, first, job, n), p, f);
  }

  /** One that counts more lists the face the next one begins with. */
  lemma ListsNext(r: nat, first: Position, job: nat, n: nat, next: nat, p: Position, t: Round) returns (f: seq<int>)
    requires OnFace(r, first) && next == n + 1 && p == StartOf(r, first, job, n) && t == Skipping(r, p, job)
    requires AllAccounted(r, first, job, n)
    requires t.moved < t.lost && t.moved < Remaining(r, p)
    ensures FromHere(r, first, f) == 1 && Spoiled(r, first, job, next, f)
  {
    IterateCounts(r, p, t.moved);
    f := Iterate(r, p, t.moved).face;
    StillToCome(r, p, t.moved, 0, f);
    StillToCome(r, p, t.moved, t.lost, f);
    OneMoreCount(r, first, job, n, next, f);
    assert Accounted(r, first, Listed(r, first, job, n), p, f);
  }

  lemma {:induction false} StaysSpoiledTo(r: nat, first: Position, job: nat, i: nat, n: nat, f: seq<int>)
    requires r < TWO_TO_THE_31 && 1 <= job < TWO_TO_THE_64 && OnFace(r, first) && i <= n
    requires GoesOnBefore(r, first, job, n) && Spoiled(r, first, job, i, f)
    ensures Spoiled(r, first, job, n, f)
    decreases n - i
  {
    if i < n {
      var next := i + 1;
      GoesOnAt(r, first, job, i, n);
      StaysSpoiled(r, first, job, i, next, f);
      StaysSpoiledTo(r, first, job, next, n, f);
    }
  }

  lemma GoesOnAt(r: nat, first: Position, job: nat, i: nat, n: nat)
    requires OnFace(r, first) && GoesOnBefore(r, first, job, n) && i < n
    ensures StartOf(r, first, job, i).At?
  {
  }

  /** At the end the face is missing or listed twice. */
  lemma SpoiledAtEnd(r: nat, first: Position, job: nat, n: nat, f: seq<int>)
    requires OnFace(r, first) && StartOf(r, first, job, n) == End && Spoiled(r, first, job, n, f)
    ensures multiset(Listed(r, first, job, n))[f] != 1
  {
  }

  lemma {:induction false} FirstUnclean(r: nat, first: Position, job: nat, i: nat) returns (m: nat)
    requires OnFace(r, first) && !CleanAt(r, first, job, i)
    ensures m <= i && !CleanAt(r, first, job, m) && CleanBefore(r, first, job, m)
  {
    if j: nat :| j < i && !CleanAt(r, first, job, j) {
      m := FirstUnclean(r, first, job, j);
    } else {
      m := i;
    }
  }

  /** The first accepted wrap comes before the packages end. */
  lemma UncleanBeforeEnd(r: nat, first: Position, job: nat, n: nat, m: nat)
    requires r < TWO_TO_THE_31 && OnFace(r, first) && EndsAt(r, first, job, n)
    requires CleanBefore(r, first, job, m) && !CleanAt(r, first, job, m)
    ensures m < n
  {
    if m >= n {
      var done := Jobs(n, job);
      CleanListed(r, first, job, n, done);
      NothingThere(r, first, done);
      PastEnd(r, first, job, n, m, done);
    }
  }

  lemma PastEnd(r: nat, first: Position, job: nat, n: nat, m: nat, done: nat)
    requires OnFace(r, first) && done == Jobs(n, job) && done >= Remaining(r, first) && n <= m
    ensures CleanAt(r, first, job, m)
  {
    MoreJobs(n, m, job);
  }

  lemma NothingThere(r: nat, first: Position, done: nat)
    requires OnFace(r, first) && Iterate(r, first, done) == End
    ensures done >= Remaining(r, first)
  {
    IterateCounts(r, first, done);
  }

  lemma RightAccounts(r: nat, first: Position, job: nat, n: nat, done: nat)
    requires OnFace(r, first) && Right(r, first, job, n, done)
    ensures AllAccounted(r, first, job, n)
  {
    forall g
      ensures Accounted(r, first, FacesFrom(r, first, done), Iterate(r, first, done), g)
    {
      CountWithin(r, first, done, g);
    }
  }

  /** The package there spoils the list. */
  lemma SpoiledAt(r: nat, first: Position, job: nat, m: nat, next: nat, p: Position) returns (f: seq<int>)
    requires r < TWO_TO_THE_31 && 1 <= job < TWO_TO_THE_64 && OnFace(r, first) && next == m + 1
    requires AllAccounted(r, first, job, m) && p == StartOf(r, first, job, m) && !Clean(r, p, job)
    ensures FromHere(r, first, f) == 1 && Spoiled(r, first, job, next, f)
  {
    var t := UncleanIsUnequal(r, p, job);
    SkippingStops(r, p, job, t, Remaining(r, p));
    if t.lost < t.moved {
      f := LeavesOut(r, first, job, m, next, p, t);
    } else {
      f := ListsNext(r, first, job, m, next, p, t);
    }
  }

  /** Otherwise some face is missing or listed twice. */
  lemma UncleanSpoils(r: nat, first: Position, job: nat, n: nat) returns (f: seq<int>)
    requires r < TWO_TO_THE_31 && 1 <= job < TWO_TO_THE_64 && OnFace(r, first)
    requires EndsAt(r, first, job, n) && !CleanJobs(r, first, job)
    ensures FromHere(r, first, f) == 1 && multiset(Listed(r, first, job, n))[f] != 1
  {
    var i: nat :| !CleanAt(r, first, job, i);
    var m := FirstUnclean(r, first, job, i);
    UncleanBeforeEnd(r, first, job, n, m);
    FirstSpoiled(r, first, job, n, m);
    var next := m + 1;
    f := SpoiledAt(r, first, job, m, next, StartOf(r, first, job, m));
    StaysSpoiledTo(r, first, job, next, n, f);
    SpoiledAtEnd(r, first, job, n, f);
  }

  lemma FirstSpoiled(r: nat, first: Position, job: nat, n: nat, m: nat)
    requires r < TWO_TO_THE_31 && OnFace(r, first) && EndsAt(r, first, job, n) && m < n
    requires CleanBefore(r, first, job, m) && !CleanAt(r, first, job, m)
    ensures AllAccounted(r, first, job, m) && !Clean(r, StartOf(r, first, job, m), job)
  {
    var done := UncleanThere(r, first, job, m);
    assert GoesOnBefore(r, first, job, m);
    CleanListed(r, first, job, m, done);
    RightAccounts(r, first, job, m, done);
    UncleanStart(r, first, job, m, done);
  }

  lemma UncleanThere(r: nat, first: Position, job: nat, m: nat) returns (done: nat)
    requires OnFace(r, first) && !CleanAt(r, first, job, m)
    ensures done == Jobs(m, job) && !CleanAfter(r, first, job, done)
  {
    done := Jobs(m, job);
  }

  lemma UncleanStart(r: nat, first: Position, job: nat, m: nat, done: nat)
    requires OnFace(r, first) && Right(r, first, job, m, done) && !CleanAfter(r, first, job, done)
    ensures !Clean(r, StartOf(r, first, job, m), job)
  {
  }

  /** The packages list every face once, and nothing else, if and only if no increment by a job accepts a wrap. */
  lemma EachOnceIffClean(r: nat, first: Position, job: nat, n: nat)
    requires r < TWO_TO_THE_31 && 1 <= job < TWO_TO_THE_64 && OnFace(r, first) && EndsAt(r, first, job, n)
    ensures EachOnce(r, first, Listed(r, first, job, n)) <==> CleanJobs(r, first, job)
  {
    if CleanJobs(r, first, job) {
      CleanIsEachOnce(r, first, job, n);
    } else {
      var f := UncleanSpoils(r, first, job, n);
    }
  }

  ghost predicate AtMostOnceBefore(r: nat, first: Position, job: nat, n: nat, f: seq<int>)
    requires OnFace(r, first)
  {
    multiset(Listed(r, first, job, n))[f] + FromHere(r, StartOf(r, first, job, n), f) <= FromHere(r, first, f)
  }

  lemma OnceMore(r: nat, first: Position, job: nat, n: nat, next: nat, f: seq<int>)
    requires r < TWO_TO_THE_31 && job + 1 < TWO_TO_THE_64 && OnFace(r, first) && next == n + 1
    requires AtMostOnceBefore(r, first, job, n, f)
    ensures AtMostOnceBefore(r, first, job, next, f)
  {
    var p := StartOf(r, first, job, n);
    var t, _ := MovesEnough(r, p, job);
    OneMoreCount(r, first, job, n, next, f);
    FromLater(r, p, t.lost, t.moved, f);
  }

  /** But for the largest job size, no face is listed twice, whatever wraps. */
  lemma {:induction false} AtMostOnce(r: nat, first: Position, job: nat, n: nat, f: seq<int>)
    requires r < TWO_TO_THE_31 && job + 1 < TWO_TO_THE_64 && OnFace(r, first)
    ensures AtMostOnceBefore(r, first, job, n, f)
  {
    if n > 0 {
      var before := n - 1;
      AtMostOnce(r, first, job, before, f);
      OnceMore(r, first, job, before, n, f);
    } else {
      NoneYet(r, first, job, n, f);
    }
  }

  lemma NoneYet(r: nat, first: Position, job: nat, n: nat, f: seq<int>)
    requires OnFace(r, first) && n == 0
    ensures AtMostOnceBefore(r, first, job, n, f)
  {
  }

  /** An exact job size is clean from every place. */
  lemma ExactIsCleanJobs(r: nat, first: Position, job: nat)
    requires r < TWO_TO_THE_31 && OnFace(r, first) && Exact(job, r)
    ensures CleanJobs(r, first, job)
  {
    forall i: nat
      ensures CleanAt(r, first, job, i)
    {
      IterateCounts(r, first, Jobs(i, job));
      ExactIsClean(r, Iterate(r, first, Jobs(i, job)), job);
    }
  }

  // ---------- The packages come to an end ----------

  ghost predicate MovedOn(r: nat, first: Position, job: nat, n: nat)
    requires OnFace(r, first)
  {
    Remaining(r, StartOf(r, first, job, n)) + n <= Remaining(r, first)
  }

  lemma MovesOn(r: nat, first: Position, job: nat, n: nat, next: nat)
    requires r < TWO_TO_THE_31 && 1 <= job < TWO_TO_THE_64 && OnFace(r, first) && next == n + 1
    requires MovedOn(r, first, job, n) && StartOf(r, first, job, n).At?
    ensures MovedOn(r, first, job, next)
  {
    var p := StartOf(r, first, job, n);
    var round, _, q := FirstRound(r, p, job);
    var t := Skipping(r, p, job);
    SkippingStops(r, p, job, t, Remaining(r, p));
    IterateCounts(r, p, t.moved);
  }

  lemma {:induction false} StartsMoveOn(r: nat, first: Position, job: nat, n: nat)
    requires r < TWO_TO_THE_31 && 1 <= job < TWO_TO_THE_64 && OnFace(r, first)
    requires GoesOnBefore(r, first, job, n)
    ensures MovedOn(r, first, job, n)
  {
    if n > 0 {
      var before := n - 1;
      GoesOnAt(r, first, job, before, n);
      StartsMoveOn(r, first, job, before);
      MovesOn(r, first, job, before, n);
    }
  }
}
