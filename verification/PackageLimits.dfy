/** For which job sizes the packages of createSimplexFaces (src/util-gitfan/gitfanImpl.cpp) are right: examples. */
module PackageLimits {
  import opened Arithmetic
  import opened Seqs
  import opened Binomials
  import opened Faces
  import opened BlockSkipping
  import opened FaceSkipping
  import opened IncrementLimits
  import opened PackageLists
  import opened FacesNet
  import Farm

  /** A job size that is exact on `r` vertices is right for every `k`. */
  lemma ExactIsClean(net: Net)
    requires net.Valid() && Exact(net.jobSize, net.r)
    ensures CleanPackages(net)
  {
    ExactIsCleanJobs(net.r, FirstFace(net), net.jobSize);
  }

  /** Up to 62 vertices every job size is right. */
  lemma SmallIsClean(net: Net)
    requires net.Valid() && net.r <= 62
    ensures CleanPackages(net)
  {
    SmallSimplex(net.jobSize, net.r);
    NoWrapIsExact(net.jobSize, net.r);
    ExactIsClean(net);
  }

  lemma FirstUncleanJob(net: Net)
    requires net.Valid() && !FaceSkipping.Clean(net.r, FirstFace(net), net.jobSize)
    ensures !CleanPackages(net)
  {
    assert !CleanAt(net.r, FirstFace(net), net.jobSize, 0);
  }

  /** Faces of at least 32 out of 63 vertices, in jobs of 5 * 10^17: some face is in no package. */
  lemma FailsOn63And32(net: Net) returns (n: nat, f: seq<int>)
    requires net.r == 63 && net.k == 32 && net.jobSize == 500_000_000_000_000_000
    ensures net.Valid() && Farm.Complete(Plan(net), From(), n) && !CleanPackages(net)
    ensures Face(0, net.r, f) && |f| >= net.k
    ensures f !in Joined(net.r, Farm.Advance(Plan(net), From(), n).tasks)
  {
    WrongAtStart(net);
    n := PackagesEnd(net);
    f := MissingFace(net, n);
  }

  lemma WrongAtStart(net: Net)
    requires net.r == 63 && net.k == 32 && net.jobSize == 500_000_000_000_000_000
    ensures net.Valid() && !CleanPackages(net)
  {
    var moved, lost := FailsOn63(net.r, net.k, net.jobSize, Up(1, net.k));
    CorrectIffClean(net.r, FirstFace(net), net.jobSize);
    FirstUncleanJob(net);
  }

  /** Below the largest job size a list that is not right lacks a face. */
  lemma MissingFace(net: Net, n: nat) returns (f: seq<int>)
    requires net.Valid() && net.jobSize + 1 < TWO_TO_THE_64 && !CleanPackages(net)
    requires Farm.Complete(Plan(net), From(), n)
    ensures Face(0, net.r, f) && |f| >= net.k
    ensures f !in Joined(net.r, Farm.Advance(Plan(net), From(), n).tasks)
  {
    PackagesEndIff(net);
    f := UncleanSpoils(net.r, FirstFace(net), net.jobSize, n);
    AtMostOnce(net.r, FirstFace(net), net.jobSize, n, f);
    ComesFirst(net, f);
    assert multiset(ListedBy(net, n))[f] == 0;
  }

  /** With all 63 vertices there is one face, and the same job size is right though it is not exact. */
  lemma CleanOn63And63(net: Net)
    requires net.r == 63 && net.k == 63 && net.jobSize == 500_000_000_000_000_000
    ensures net.Valid() && CleanPackages(net) && !Exact(net.jobSize, net.r)
  {
    var k: nat := 32;
    var moved, lost := FailsOn63(net.r, k, net.jobSize, Up(1, k));
    if Exact(net.jobSize, net.r) {
      ExactIsCorrect(net.r, At(Up(1, k)), net.jobSize);
    }
    OnlyFaceIsClean(net, net.r);
  }

  lemma OnlyFaceIsClean(net: Net, r: nat)
    requires net.Valid() && net.r == net.k == r && r >= 1
    ensures CleanPackages(net)
  {
    OneFaceOnly(net, r);
    forall i: nat
      ensures CleanAt(r, FirstFace(net), net.jobSize, i)
    {
      if i >= 1 {
        MoreJobs(1, i, net.jobSize);
      } else {
        LastIsClean(r, FirstFace(net).face, net.jobSize);
      }
    }
  }

  lemma OneFaceOnly(net: Net, r: nat)
    requires net.Valid() && net.r == net.k == r && r >= 1
    ensures Remaining(r, FirstFace(net)) == 1 && Unused(r, FirstFace(net).face) == 0
  {
    StepsFromStart(r, r);
    ChooseAll(r);
  }

  lemma LastIsClean(r: nat, f: seq<int>, job: nat)
    requires r < TWO_TO_THE_31 && Face(0, r, f) && job > 0
    requires Unused(r, f) == 0 && Remaining(r, At(f)) == 1
    ensures FaceSkipping.Clean(r, At(f), job)
  {
    var round, clean, q := FirstRound(r, At(f), job);
    IterateCounts(r, At(f), round.moved);
  }
}
