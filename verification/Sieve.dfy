/**
 * Sieving the subsets of {1, ..., n} for orbit representatives (findOrbitRepresentatives in
 * singular/gitfanparallel.lib): one flag per nonempty subset, indexed by its code.
 */
module Sieve {
  import opened Seqs
  import opened Permutations
  import opened Hashes

  datatype Sieved = Overflow | Representatives(list: seq<seq<nat>>)

  /** A list whose members are handled: below the minimum size, or in the orbit of a representative. */
  ghost predicate Handled(group: seq<Perm>, reps: seq<seq<nat>>, minimum: nat, s: set<nat>) {
    |s| < minimum || InSomeOrbit(group, reps, s)
  }

  ghost predicate InSomeOrbit(group: seq<Perm>, reps: seq<seq<nat>>, s: set<nat>) {
    exists k :: 0 <= k < |reps| && SameOrbit(group, SetOf(reps[k]), s)
  }

  /** A representative: large enough, and the member of its orbit with the smallest code. */
  ghost predicate IsRepresentative(group: seq<Perm>, n: nat, minimum: nat, v: seq<nat>) {
    && IsHash(v, n) && Ascending(v) && v != [] && |SetOf(v)| >= minimum
    && IsCanonical(group, n, SetOf(v), SetOf(v))
  }

  /** The flags: raised ones are handled, and those of a representative's orbit are all raised. */
  ghost predicate Flags(group: seq<Perm>, n: nat, minimum: nat, reps: seq<seq<nat>>, finished: seq<bool>) {
    && |finished| == Pow2(n)
    && (forall s :: Within(s, n) && s != {} && finished[CodeOf(s, n)] ==> Handled(group, reps, minimum, s))
    && (forall k, p :: 0 <= k < |reps| && p in group ==> Raised(n, finished, Image(p, SetOf(reps[k]))))
  }

  ghost predicate Raised(n: nat, finished: seq<bool>, s: set<nat>)
    requires |finished| == Pow2(n)
  {
    finished[CodeOf(s, n)]
  }

  ghost function CodeOf(s: set<nat>, n: nat): (c: nat)
    ensures c < Pow2(n)
  {
    CodeBound(s, n);
    Code(s, n)
  }

  /** No two representatives are in one orbit. */
  ghost predicate Separate(group: seq<Perm>, reps: seq<seq<nat>>) {
    forall k, l :: 0 <= k < l < |reps| ==> !SameOrbit(group, SetOf(reps[k]), SetOf(reps[l]))
  }

  lemma NotInEarlierOrbit(
      group: seq<Perm>, n: nat, minimum: nat, reps: seq<seq<nat>>, finished: seq<bool>, s: set<nat>, k: nat)
    requires Flags(group, n, minimum, reps, finished) && !finished[CodeOf(s, n)] && k < |reps|
    ensures !SameOrbit(group, SetOf(reps[k]), s)
  {
    forall p | p in group
      ensures s != Image(p, SetOf(reps[k]))
    {
      assert Raised(n, finished, Image(p, SetOf(reps[k])));
    }
  }

  lemma NotInSomeOrbit(
      group: seq<Perm>, n: nat, minimum: nat, reps: seq<seq<nat>>, finished: seq<bool>, s: set<nat>)
    requires Flags(group, n, minimum, reps, finished) && !finished[CodeOf(s, n)]
    ensures !InSomeOrbit(group, reps, s)
  {
    forall k | 0 <= k < |reps|
      ensures !SameOrbit(group, SetOf(reps[k]), s)
    {
      NotInEarlierOrbit(group, n, minimum, reps, finished, s, k);
    }
  }

  /**
   * The subset coded by the first flag not raised is no image of an earlier representative, and it is the
   * smallest of its orbit.
   */
  lemma FirstUnhandledIsCanonical(
      group: seq<Perm>, n: nat, minimum: nat, reps: seq<seq<nat>>, finished: seq<bool>, s: set<nat>)
    requires Group(group, n) && Within(s, n) && s != {} && |s| >= minimum
    requires forall k :: 0 <= k < |reps| ==> IsHash(reps[k], n)
    requires Flags(group, n, minimum, reps, finished) && !finished[CodeOf(s, n)]
    requires forall c :: 1 <= c < CodeOf(s, n) ==> finished[c]
    ensures IsCanonical(group, n, s, s) && !InSomeOrbit(group, reps, s)
  {
    NotInSomeOrbit(group, n, minimum, reps, finished, s);
    forall p | p in group
      ensures Code(s, n) <= Code(Image(p, s), n)
    {
      NoSmallerImage(group, n, minimum, reps, finished, s, p);
    }
    LeastIsCanonical(group, n, s);
  }

  lemma LeastIsCanonical(group: seq<Perm>, n: nat, s: set<nat>)
    requires Group(group, n) && Within(s, n)
    requires forall p :: p in group ==> Code(s, n) <= Code(Image(p, s), n)
    ensures IsCanonical(group, n, s, s)
  {
    OrbitReflexive(group, n, s);
  }

  lemma NoSmallerImage(
      group: seq<Perm>, n: nat, minimum: nat, reps: seq<seq<nat>>, finished: seq<bool>, s: set<nat>, p: Perm)
    requires Group(group, n) && Within(s, n) && s != {} && |s| >= minimum && p in group
    requires forall k :: 0 <= k < |reps| ==> IsHash(reps[k], n)
    requires Flags(group, n, minimum, reps, finished) && !InSomeOrbit(group, reps, s)
    requires forall c :: 1 <= c < CodeOf(s, n) ==> finished[c]
    ensures Code(s, n) <= Code(Image(p, s), n)
  {
    if Code(Image(p, s), n) < Code(s, n) {
      SmallerImageHandled(group, n, minimum, reps, finished, s, p);
    }
  }

  /** If an image with a smaller code exists, the subset is in the orbit of some representative. */
  lemma SmallerImageHandled(
      group: seq<Perm>, n: nat, minimum: nat, reps: seq<seq<nat>>, finished: seq<bool>, s: set<nat>, p: Perm)
    requires Group(group, n) && Within(s, n) && s != {} && |s| >= minimum && p in group
    requires forall k :: 0 <= k < |reps| ==> IsHash(reps[k], n)
    requires Flags(group, n, minimum, reps, finished)
    requires forall c :: 1 <= c < CodeOf(s, n) ==> finished[c]
    requires Code(Image(p, s), n) < Code(s, n)
    ensures InSomeOrbit(group, reps, s)
  {
    var t := Image(p, s);
    assert SameOrbit(group, s, t);
    ImageSize(p, s, n);
    OrbitWithin(group, n, s, t);
    NonEmptySet(t, n);
    assert finished[CodeOf(t, n)] && InSomeOrbit(group, reps, t);
    var k :| 0 <= k < |reps| && SameOrbit(group, SetOf(reps[k]), t);
    OrbitSymmetric(group, n, s, t);
    ApplyIsImage(p, reps[k], n);
    OrbitTransitive(group, n, SetOf(reps[k]), t, s);
  }

  lemma NonEmptySet(s: set<nat>, n: nat)
    requires Within(s, n)
    ensures s != {} <==> Code(s, n) >= 1
  {
    EmptyCode(n);
    if Code(s, n) == 0 {
      SameCode(s, {}, n);
    }
  }

  lemma SetOfRest(v: seq<nat>)
    requires v != [] && forall i :: 0 < i < |v| ==> v[i] != v[0]
    ensures SetOf(v) == SetOf(v[1..]) + {v[0]} && v[0] !in SetOf(v[1..])
  {
    assert v == [v[0]] + v[1..];
  }

  lemma {:induction false} ListSize(v: seq<nat>, n: nat)
    requires IsHash(v, n)
    ensures |SetOf(v)| == |v|
    decreases |v|
  {
    if v == [] {
      assert SetOf(v) == {};
    } else {
      ListSize(v[1..], n);
      SetOfRest(v);
    }
  }

  /** Raises the flags of the whole orbit of a subset. */
  method FinishOrbit(group: seq<Perm>, n: nat, unhandled: seq<nat>, finished: array<bool>)
    requires Group(group, n) && IsHash(unhandled, n) && finished.Length == Pow2(n)
    modifies finished
    ensures forall c :: 0 <= c < Pow2(n) ==>
              (finished[c] <==> old(finished[c]) || exists p :: p in group && CodeOf(Image(p, SetOf(unhandled)), n) == c)
  {
    ghost var s := SetOf(unhandled);
    var i := 0;
    while i < |group|
      invariant i <= |group|
      invariant forall c :: 0 <= c < Pow2(n) ==>
                  (finished[c] <==> old(finished[c]) || exists j :: 0 <= j < i && CodeOf(Image(group[j], s), n) == c)
    {
      var current := Apply(group[i], unhandled);
      ApplyIsImage(group[i], unhandled, n);
      EncodeIsCode(current, n);
      CodeBound(Image(group[i], s), n);
      var biCurrent := EncodeList(current);
      if !finished[biCurrent] {
        finished[biCurrent] := true;
      }
      i := i + 1;
    }
  }

  ghost predicate Reps(group: seq<Perm>, n: nat, minimum: nat, reps: seq<seq<nat>>) {
    && (forall k :: 0 <= k < |reps| ==> IsRepresentative(group, n, minimum, reps[k]))
    && Separate(group, reps)
  }

  /** The first flag not raised, or the number of flags. */
  method FirstUnhandled(finished: array<bool>) returns (biUnhandled: nat)
    ensures 1 <= biUnhandled
    ensures forall c :: 1 <= c < biUnhandled && c < finished.Length ==> finished[c]
    ensures biUnhandled < finished.Length ==> !finished[biUnhandled]
  {
    biUnhandled := 1;
    while biUnhandled < finished.Length && finished[biUnhandled]
      invariant 1 <= biUnhandled
      invariant forall c :: 1 <= c < biUnhandled && c < finished.Length ==> finished[c]
    {
      biUnhandled := biUnhandled + 1;
    }
  }

  /** Handles the subset with the first flag not raised. */
  method Handle(group: seq<Perm>, n: nat, minimum: nat, reps: seq<seq<nat>>, finished: array<bool>, biUnhandled: nat)
      returns (reps': seq<seq<nat>>)
    requires Group(group, n) && finished.Length == Pow2(n) && Reps(group, n, minimum, reps)
    requires Flags(group, n, minimum, reps, finished[..])
    requires 1 <= biUnhandled < Pow2(n) && !finished[biUnhandled]
    requires forall c :: 1 <= c < biUnhandled ==> finished[c]
    modifies finished
    ensures Reps(group, n, minimum, reps') && Flags(group, n, minimum, reps', finished[..])
    ensures finished[biUnhandled]
    ensures forall c :: 0 <= c < Pow2(n) && old(finished[c]) ==> finished[c]
  {
    var unhandled := BigintToBinary(biUnhandled, n);
    ghost var s, before := SetOf(unhandled), finished[..];
    EncodeIsCode(unhandled, n);
    NonEmptySet(s, n);
    ListSize(unhandled, n);
    if |unhandled| < minimum {
      finished[biUnhandled] := true;
      OneMoreFlag(group, n, minimum, reps, before, finished[..], s);
      reps' := reps;
    } else {
      OneMoreRepresentative(group, n, minimum, reps, before, unhandled);
      FinishOrbit(group, n, unhandled, finished);
      OneMoreOrbit(group, n, minimum, reps, before, finished[..], unhandled);
      reps' := reps + [unhandled];
      assert finished[CodeOf(s, n)] by {
        ImageOfIdentity(s, n);
        assert CodeOf(Image(Identity(n), s), n) == CodeOf(s, n);
      }
    }
  }

  lemma OneMoreRepresentative(
      group: seq<Perm>, n: nat, minimum: nat, reps: seq<seq<nat>>, finished: seq<bool>, v: seq<nat>)
    requires Group(group, n) && Reps(group, n, minimum, reps) && Flags(group, n, minimum, reps, finished)
    requires IsHash(v, n) && Ascending(v) && v != [] && |SetOf(v)| >= minimum && SetOf(v) != {}
    requires !finished[CodeOf(SetOf(v), n)] && forall c :: 1 <= c < CodeOf(SetOf(v), n) ==> finished[c]
    ensures Reps(group, n, minimum, reps + [v])
  {
    HashesOnly(group, n, minimum, reps);
    FirstUnhandledIsCanonical(group, n, minimum, reps, finished, SetOf(v));
    AppendRepresentative(group, n, minimum, reps, v);
  }

  lemma AppendRepresentative(group: seq<Perm>, n: nat, minimum: nat, reps: seq<seq<nat>>, v: seq<nat>)
    requires Reps(group, n, minimum, reps) && IsRepresentative(group, n, minimum, v)
    requires !InSomeOrbit(group, reps, SetOf(v))
    ensures Reps(group, n, minimum, reps + [v])
  {
    AllStillRepresent(group, n, minimum, reps, v);
    StillSeparate(group, reps, v);
  }

  lemma AllStillRepresent(group: seq<Perm>, n: nat, minimum: nat, reps: seq<seq<nat>>, v: seq<nat>)
    requires Reps(group, n, minimum, reps) && IsRepresentative(group, n, minimum, v)
    ensures forall k :: 0 <= k < |reps + [v]| ==> IsRepresentative(group, n, minimum, (reps + [v])[k])
  {
    forall k | 0 <= k < |reps + [v]|
      ensures IsRepresentative(group, n, minimum, (reps + [v])[k])
    {
      assert (reps + [v])[k] == if k < |reps| then reps[k] else v;
    }
  }

  lemma StillSeparate(group: seq<Perm>, reps: seq<seq<nat>>, v: seq<nat>)
    requires Separate(group, reps) && !InSomeOrbit(group, reps, SetOf(v))
    ensures Separate(group, reps + [v])
  {
    var all := reps + [v];
    forall k, l | 0 <= k < l < |all|
      ensures !SameOrbit(group, SetOf(all[k]), SetOf(all[l]))
    {
      assert all[k] == reps[k] && (l < |reps| ==> all[l] == reps[l]);
    }
  }

  lemma HashesOnly(group: seq<Perm>, n: nat, minimum: nat, reps: seq<seq<nat>>)
    requires Reps(group, n, minimum, reps)
    ensures forall k :: 0 <= k < |reps| ==> IsHash(reps[k], n)
  {
    forall k | 0 <= k < |reps|
      ensures IsHash(reps[k], n)
    {
      assert IsRepresentative(group, n, minimum, reps[k]);
    }
  }

  /** How many flags are not raised. */
  ghost function Down(finished: seq<bool>): nat {
    if finished == [] then 0 else (if finished[0] then 0 else 1) + Down(finished[1..])
  }

  lemma {:induction false} DownDrops(before: seq<bool>, after: seq<bool>, c: int)
    requires |before| == |after| && forall i :: 0 <= i < |before| && before[i] ==> after[i]
    ensures Down(after) <= Down(before)
    ensures 0 <= c < |before| && !before[c] && after[c] ==> Down(after) < Down(before)
    decreases |before|
  {
    if before != [] {
      DownDrops(before[1..], after[1..], c - 1);
    }
  }

  method FindOrbitRepresentatives(group: seq<Perm>, n: nat, minimum: nat) returns (result: Sieved)
    requires Group(group, n)
    ensures result == Overflow <==> n >= 31
    ensures result.Representatives? ==> Reps(group, n, minimum, result.list)
    ensures result.Representatives? ==>
              forall s :: Within(s, n) && s != {} && |s| >= minimum ==>
                InSomeOrbit(group, result.list, s)
  {
    if n >= 31 {
      return Overflow;
    }
    var reps: seq<seq<nat>> := [];
    var finished := new bool[Pow2(n)](_ => false);  // index 0 is not used
    assert Flags(group, n, minimum, reps, finished[..]);
    while true
      invariant finished.Length == Pow2(n)
      invariant Reps(group, n, minimum, reps) && Flags(group, n, minimum, reps, finished[..])
      decreases Down(finished[..])
    {
      var biUnhandled := FirstUnhandled(finished);
      if biUnhandled >= finished.Length { break; }
      ghost var before := finished[..];
      reps := Handle(group, n, minimum, reps, finished, biUnhandled);
      DownDrops(before, finished[..], biUnhandled);
    }
    AllHandled(group, n, minimum, reps, finished[..]);
    result := Representatives(reps);
  }

  lemma AllHandled(group: seq<Perm>, n: nat, minimum: nat, reps: seq<seq<nat>>, finished: seq<bool>)
    requires Flags(group, n, minimum, reps, finished) && forall c :: 1 <= c < Pow2(n) ==> finished[c]
    ensures forall s :: Within(s, n) && s != {} && |s| >= minimum ==>
              InSomeOrbit(group, reps, s)
  {
    forall s | Within(s, n) && s != {} && |s| >= minimum
      ensures InSomeOrbit(group, reps, s)
    {
      NonEmptySet(s, n);
      assert finished[CodeOf(s, n)];
      assert Handled(group, reps, minimum, s);
    }
  }

  lemma OneMoreFlag(
      group: seq<Perm>, n: nat, minimum: nat, reps: seq<seq<nat>>, before: seq<bool>, after: seq<bool>, s: set<nat>)
    requires Flags(group, n, minimum, reps, before) && Within(s, n) && |s| < minimum
    requires after == before[CodeOf(s, n) := true]
    ensures Flags(group, n, minimum, reps, after)
  {
    forall t | Within(t, n) && t != {} && after[CodeOf(t, n)]
      ensures Handled(group, reps, minimum, t)
    {
      if CodeOf(t, n) == CodeOf(s, n) {
        SameCode(s, t, n);
      }
    }
    forall k, p | 0 <= k < |reps| && p in group
      ensures Raised(n, after, Image(p, SetOf(reps[k])))
    {
      assert Raised(n, before, Image(p, SetOf(reps[k])));
    }
  }

  lemma OneMoreOrbit(
      group: seq<Perm>, n: nat, minimum: nat, reps: seq<seq<nat>>, before: seq<bool>, after: seq<bool>, v: seq<nat>)
    requires Group(group, n) && Flags(group, n, minimum, reps, before) && IsHash(v, n) && |after| == Pow2(n)
    requires forall c :: 0 <= c < Pow2(n) ==>
               (after[c] <==> before[c] || exists p :: p in group && CodeOf(Image(p, SetOf(v)), n) == c)
    ensures Flags(group, n, minimum, reps + [v], after)
  {
    var s := SetOf(v);
    forall t | Within(t, n) && t != {} && after[CodeOf(t, n)]
      ensures Handled(group, reps + [v], minimum, t)
    {
      if before[CodeOf(t, n)] {
        assert Handled(group, reps, minimum, t);
        if InSomeOrbit(group, reps, t) {
          var k :| 0 <= k < |reps| && SameOrbit(group, SetOf(reps[k]), t);
          assert (reps + [v])[k] == reps[k];
        }
      } else {
        var p :| p in group && CodeOf(Image(p, s), n) == CodeOf(t, n);
        ApplyIsImage(p, v, n);
        SameCode(Image(p, s), t, n);
        assert SameOrbit(group, s, t) && (reps + [v])[|reps|] == v;
      }
    }
    forall k, p | 0 <= k < |reps + [v]| && p in group
      ensures Raised(n, after, Image(p, SetOf((reps + [v])[k])))
    {
      if k < |reps| {
        assert Raised(n, before, Image(p, SetOf(reps[k])));
      }
    }
  }

  /** So every orbit of large enough subsets has exactly one representative in the list. */
  lemma OneRepresentativeEach(
      group: seq<Perm>, n: nat, minimum: nat, reps: seq<seq<nat>>, s: set<nat>, k: nat, l: nat)
    requires Group(group, n) && Separate(group, reps) && k < |reps| && l < |reps|
    requires forall k :: 0 <= k < |reps| ==> IsRepresentative(group, n, minimum, reps[k])
    requires SameOrbit(group, SetOf(reps[k]), s) && SameOrbit(group, SetOf(reps[l]), s)
    ensures k == l
  {
    var a, b := SetOf(reps[k]), SetOf(reps[l]);
    assert IsRepresentative(group, n, minimum, reps[k]) && IsRepresentative(group, n, minimum, reps[l]);
    OrbitSymmetric(group, n, a, s);
    OrbitSymmetric(group, n, b, s);
    OrbitTransitive(group, n, a, s, b);
    OrbitTransitive(group, n, b, s, a);
  }
}
