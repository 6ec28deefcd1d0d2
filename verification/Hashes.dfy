/**
 * Hashes of GIT cones: lists of the 1-based indices of orbit cones, i.e. subsets of {1, ..., n}, coded as
 * numbers with one bit per index, and the canonical member of an orbit of hashes
 * (singular/gitfanparallel.lib, singular/load_git_cones.lib).
 */
module Hashes {
  import opened Seqs
  import opened Permutations

  function Pow2(k: nat): nat {
    if k == 0 then 1 else 2 * Pow2(k - 1)
  }

  function SetOf(v: seq<nat>): set<nat> {
    set x | x in v
  }

  /** A list of different indices between 1 and `n`. */
  ghost predicate IsHash(v: seq<nat>, n: nat) {
    && (forall i :: 0 <= i < |v| ==> 1 <= v[i] <= n)
    && (forall i, j :: 0 <= i < j < |v| ==> v[i] != v[j])
  }

  ghost predicate Within(s: set<nat>, n: nat) {
    forall x :: x in s ==> 1 <= x <= n
  }

  /** binaryToBigint: the sum of 2^(i - 1) over the listed indices. */
  ghost function Encode(v: seq<nat>): nat
    requires forall i :: 0 <= i < |v| ==> 1 <= v[i]
  {
    if v == [] then 0 else Pow2(v[0] - 1) + Encode(v[1..])
  }

  /** The number whose bit `i - 1` says whether `i` is in the set, for `i` up to `n`. */
  ghost function Code(s: set<nat>, n: nat): nat {
    if n == 0 then 0 else Code(s, n - 1) + (if n in s then Pow2(n - 1) else 0)
  }

  lemma {:induction false} CodeBound(s: set<nat>, n: nat)
    ensures Code(s, n) < Pow2(n)
  {
    if n > 0 {
      CodeBound(s, n - 1);
    }
  }

  /** Different subsets of {1, ..., n} have different codes. */
  lemma {:induction false} CodeInjective(s: set<nat>, t: set<nat>, n: nat)
    requires Code(s, n) == Code(t, n)
    ensures forall x :: 1 <= x <= n ==> (x in s <==> x in t)
  {
    if n > 0 {
      CodeBound(s, n - 1);
      CodeBound(t, n - 1);
      CodeInjective(s, t, n - 1);
    }
  }

  lemma SameCode(s: set<nat>, t: set<nat>, n: nat)
    requires Within(s, n) && Within(t, n) && Code(s, n) == Code(t, n)
    ensures s == t
  {
    CodeInjective(s, t, n);
  }

  lemma {:induction false} CodeAdd(s: set<nat>, x: nat, n: nat)
    requires x !in s && 1 <= x
    ensures Code(s + {x}, n) == Code(s, n) + (if x <= n then Pow2(x - 1) else 0)
    decreases n
  {
    if n > 0 {
      CodeAdd(s, x, n - 1);
    }
  }

  lemma {:induction false} EmptyCode(n: nat)
    ensures Code({}, n) == 0
  {
    if n > 0 {
      EmptyCode(n - 1);
    }
  }

  /** Coding a list is coding the set of its members. */
  lemma {:induction false} EncodeIsCode(v: seq<nat>, n: nat)
    requires IsHash(v, n)
    ensures Encode(v) == Code(SetOf(v), n)
    decreases |v|
  {
    if v == [] {
      assert SetOf(v) == {};
      EmptyCode(n);
    } else {
      EncodeIsCode(v[1..], n);
      assert v == [v[0]] + v[1..];
      assert SetOf(v) == SetOf(v[1..]) + {v[0]};
      CodeAdd(SetOf(v[1..]), v[0], n);
    }
  }

  lemma SameSetSameList(v: seq<nat>, w: seq<nat>)
    requires Ascending(v) && Ascending(w) && SetOf(v) == SetOf(w)
    ensures v == w
  {
    forall x
      ensures x in v <==> x in w
    {
      assert x in SetOf(v) <==> x in SetOf(w);
    }
    SameMembersSameList(v, w);
  }

  // ---------- Decoding ----------

  lemma {:induction false} Pow2Grows(a: nat, b: nat)
    requires a <= b
    ensures 0 < Pow2(a) <= Pow2(b)
    decreases b
  {
    if a < b {
      Pow2Grows(a, b - 1);
    } else if a > 0 {
      Pow2Grows(a - 1, a - 1);
    }
  }

  /**
   * bigintToBinary: the positions of the ones of a positive number below 2^r, ascending.  (For 0 the
   * original runs into an invalid index range, so callers do not pass it.)
   */
  method BigintToBinary(n: nat, r: nat) returns (v: seq<nat>)
    requires 0 < n < Pow2(r)
    ensures IsHash(v, r) && Ascending(v) && Encode(v) == n
  {
    var k: int := r - 1;
    v := [0];
    var n0 := n;
    while n0 > 0
      invariant -1 <= k < r && 0 <= n0 < Pow2(k + 1)
      invariant |v| >= 1 && v[|v| - 1] == 0
      invariant IsHash(v[..|v| - 1], r) && Ascending(v[..|v| - 1])
      invariant forall i :: 0 <= i < |v| - 1 ==> v[i] > k + 1
      invariant Encode(v[..|v| - 1]) + n0 == n
      decreases n0
    {
      var tmp := Pow2(k);
      while tmp > n0
        invariant 0 <= k < r && tmp == Pow2(k) && n0 < Pow2(k + 1)
        invariant forall i :: 0 <= i < |v| - 1 ==> v[i] > k + 1
        decreases k
      {
        k := k - 1;
        tmp := Pow2(k);
      }
      Pow2Grows(0, k);
      ghost var before := v[..|v| - 1];
      v := [k + 1] + v;
      assert v[..|v| - 1] == [k + 1] + before;
      n0 := n0 - tmp;
      k := k - 1;
    }
    v := v[..|v| - 1];
  }

  /** The decoder is the exact inverse of the encoding of ascending lists. */
  lemma DecodedIsUnique(v: seq<nat>, w: seq<nat>, n: nat)
    requires IsHash(v, n) && Ascending(v) && IsHash(w, n) && Ascending(w) && Encode(v) == Encode(w)
    ensures v == w
  {
    EncodeIsCode(v, n);
    EncodeIsCode(w, n);
    SameCode(SetOf(v), SetOf(w), n);
    SameSetSameList(v, w);
  }

  // ---------- The group acting on hashes ----------

  /** The image of an index; the permutation counts from 0. */
  function Move(p: Perm, x: nat): nat {
    if 1 <= x <= |p| then p[x - 1] + 1 else x
  }

  /** composeIntvecs: the image of each index. */
  function Apply(p: Perm, v: seq<nat>): seq<nat> {
    seq(|v|, i requires 0 <= i < |v| => Move(p, v[i]))
  }

  function Image(p: Perm, s: set<nat>): set<nat> {
    set x | x in s :: Move(p, x)
  }

  /** A permutation as its image vector is written down, counting from 1. */
  ghost function Written(p: Perm): seq<nat> {
    seq(|p|, i requires 0 <= i < |p| => p[i] + 1)
  }

  /** Applied to all indices in order, a permutation gives its image vector. */
  lemma ApplyToAll(p: Perm)
    ensures Apply(p, Written(Identity(|p|))) == Written(p)
  {
    var all := Written(Identity(|p|));
    forall i | 0 <= i < |p|
      ensures Apply(p, all)[i] == Written(p)[i]
    {
      assert all[i] == i + 1;
    }
  }

  lemma ApplyIsImage(p: Perm, v: seq<nat>, n: nat)
    requires IsPerm(p, n) && IsHash(v, n)
    ensures IsHash(Apply(p, v), n) && SetOf(Apply(p, v)) == Image(p, SetOf(v)) && Within(SetOf(v), n)
  {
    var w := Apply(p, v);
    forall x | x in Image(p, SetOf(v))
      ensures x in SetOf(w)
    {
      var y :| y in SetOf(v) && x == Move(p, y);
      var i :| 0 <= i < |v| && v[i] == y;
      assert w[i] == x;
    }
    forall x | x in SetOf(w)
      ensures x in Image(p, SetOf(v))
    {
      var i :| 0 <= i < |w| && w[i] == x;
      assert v[i] in SetOf(v);
    }
  }

  lemma ImageOfImage(p: Perm, q: Perm, s: set<nat>, n: nat)
    requires IsPerm(p, n) && IsPerm(q, n) && Within(s, n)
    ensures Within(Image(q, s), n) && Image(p, Image(q, s)) == Image(Compose(p, q), s)
  {
    forall x | x in Image(Compose(p, q), s)
      ensures x in Image(p, Image(q, s))
    {
      var y :| y in s && x == Move(Compose(p, q), y);
      assert Move(q, y) in Image(q, s);
    }
  }

  lemma ImageOfIdentity(s: set<nat>, n: nat)
    requires Within(s, n)
    ensures Image(Identity(n), s) == s
  {
    forall x | x in s
      ensures x in Image(Identity(n), s)
    {
      assert Move(Identity(n), x) == x;
    }
  }

  lemma ImageAdd(p: Perm, s: set<nat>, x: nat, n: nat)
    requires IsPerm(p, n) && Within(s + {x}, n) && x !in s
    ensures Image(p, s + {x}) == Image(p, s) + {Move(p, x)} && Move(p, x) !in Image(p, s)
  {
    assert x in s + {x};
    forall y | y in s
      ensures Move(p, y) != Move(p, x)
    {
      assert y in s + {x};
      assert p[y - 1] != p[x - 1];
    }
  }

  lemma {:induction false} ImageSize(p: Perm, s: set<nat>, n: nat)
    requires IsPerm(p, n) && Within(s, n)
    ensures |Image(p, s)| == |s|
    decreases |s|
  {
    if s == {} {
      assert Image(p, s) == {};
    } else {
      var x :| x in s;
      ImageSize(p, s - {x}, n);
      ImageAdd(p, s - {x}, x, n);
      assert s == (s - {x}) + {x};
    }
  }

  ghost predicate SameOrbit(group: seq<Perm>, s: set<nat>, t: set<nat>) {
    exists p :: p in group && t == Image(p, s)
  }

  lemma OrbitReflexive(group: seq<Perm>, n: nat, s: set<nat>)
    requires Group(group, n) && Within(s, n)
    ensures SameOrbit(group, s, s)
  {
    ImageOfIdentity(s, n);
  }

  lemma OrbitWithin(group: seq<Perm>, n: nat, s: set<nat>, t: set<nat>)
    requires Group(group, n) && Within(s, n) && SameOrbit(group, s, t)
    ensures Within(t, n)
  {
  }

  lemma OrbitSymmetric(group: seq<Perm>, n: nat, s: set<nat>, t: set<nat>)
    requires Group(group, n) && Within(s, n) && SameOrbit(group, s, t)
    ensures Within(t, n) && SameOrbit(group, t, s)
  {
    OrbitWithin(group, n, s, t);
    var p :| p in group && t == Image(p, s);
    var q := Inverse(group, n, p);
    ImageOfImage(q, p, s, n);
    ImageOfIdentity(s, n);
  }

  lemma OrbitTransitive(group: seq<Perm>, n: nat, s: set<nat>, t: set<nat>, u: set<nat>)
    requires Group(group, n) && Within(s, n) && Within(t, n)
    requires SameOrbit(group, s, t) && SameOrbit(group, t, u)
    ensures SameOrbit(group, s, u)
  {
    var p :| p in group && t == Image(p, s);
    var q :| q in group && u == Image(q, t);
    ImageOfImage(q, p, s, n);
    assert Compose(q, p) in group;
  }

  // ---------- The canonical member of an orbit ----------

  /** `t` is the member of the orbit of `s` with the smallest code. */
  ghost predicate IsCanonical(group: seq<Perm>, n: nat, s: set<nat>, t: set<nat>) {
    SameOrbit(group, s, t) && forall p :: p in group ==> Code(t, n) <= Code(Image(p, s), n)
  }

  method MinimalRepresentative(elem: seq<nat>, group: seq<Perm>, n: nat) returns (result: seq<nat>)
    requires Group(group, n) && IsHash(elem, n) && elem != []
    ensures IsHash(result, n) && Ascending(result)
    ensures IsCanonical(group, n, SetOf(elem), SetOf(result))
  {
    ghost var s := SetOf(elem);
    ghost var least := s;
    EncodeIsCode(elem, n);
    OrbitReflexive(group, n, s);
    var biMin := EncodeList(elem);
    var i := 0;
    while i < |group|
      invariant i <= |group| && SameOrbit(group, s, least) && biMin == Code(least, n)
      invariant forall j :: 0 <= j < i ==> biMin <= Code(Image(group[j], s), n)
    {
      ApplyIsImage(group[i], elem, n);
      EncodeIsCode(Apply(group[i], elem), n);
      var biCur := EncodeList(Apply(group[i], elem));
      if biCur < biMin {
        biMin := biCur;
        least := Image(group[i], s);
      }
      i := i + 1;
    }
    OrbitWithin(group, n, s, least);
    NonEmptyCode(group, n, s, least, elem);
    CodeBound(least, n);
    result := BigintToBinary(biMin, n);
    EncodeIsCode(result, n);
    SameCode(SetOf(result), least, n);
  }

  lemma NonEmptyCode(group: seq<Perm>, n: nat, s: set<nat>, t: set<nat>, elem: seq<nat>)
    requires Group(group, n) && Within(s, n) && s == SetOf(elem) && elem != [] && SameOrbit(group, s, t)
    ensures Within(t, n) && Code(t, n) > 0
  {
    OrbitWithin(group, n, s, t);
    var p :| p in group && t == Image(p, s);
    assert elem[0] in s;
    assert Move(p, elem[0]) in t;
    if Code(t, n) == 0 {
      EmptyCode(n);
      SameCode(t, {}, n);
    }
  }

  method EncodeList(v: seq<nat>) returns (b: nat)
    requires forall i :: 0 <= i < |v| ==> 1 <= v[i]
    ensures b == Encode(v)
  {
    b := 0;
    var i := |v|;
    while i > 0
      invariant 0 <= i <= |v| && b == Encode(v[i..])
    {
      i := i - 1;
      b := b + Pow2(v[i] - 1);
    }
  }

  /** Two hashes have the same canonical member if and only if one is the image of the other. */
  lemma CanonicalIffSameOrbit(
      group: seq<Perm>, n: nat, s: set<nat>, t: set<nat>, s': set<nat>, t': set<nat>)
    requires Group(group, n) && Within(s, n) && Within(t, n)
    requires IsCanonical(group, n, s, s') && IsCanonical(group, n, t, t')
    ensures s' == t' <==> SameOrbit(group, s, t)
  {
    OrbitWithin(group, n, s, s');
    OrbitWithin(group, n, t, t');
    if s' == t' {
      OrbitSymmetric(group, n, t, t');
      OrbitTransitive(group, n, s, s', t);
    }
    if SameOrbit(group, s, t) {
      OrbitSymmetric(group, n, s, t);
      OrbitTransitive(group, n, s, t, t');
      OrbitTransitive(group, n, t, s, s');
      CanonicalLeast(group, n, s, s', t');
      CanonicalLeast(group, n, t, t', s');
      SameCode(s', t', n);
    }
  }

  lemma CanonicalLeast(group: seq<Perm>, n: nat, s: set<nat>, least: set<nat>, t: set<nat>)
    requires IsCanonical(group, n, s, least) && SameOrbit(group, s, t)
    ensures Code(least, n) <= Code(t, n)
  {
  }

  /** Making a hash canonical twice is making it canonical once. */
  lemma CanonicalIdempotent(group: seq<Perm>, n: nat, s: set<nat>, s': set<nat>, s'': set<nat>)
    requires Group(group, n) && Within(s, n) && Within(s', n)
    requires IsCanonical(group, n, s, s') && IsCanonical(group, n, s', s'')
    ensures s'' == s'
  {
    CanonicalIffSameOrbit(group, n, s, s', s', s'');
  }

  /** There is a canonical member, and only one. */
  ghost function Canonical(group: seq<Perm>, n: nat, s: set<nat>): (t: set<nat>)
    requires Group(group, n) && Within(s, n)
    ensures IsCanonical(group, n, s, t) && Within(t, n)
  {
    SomeCanonical(group, n, s);
    var t :| IsCanonical(group, n, s, t);
    OrbitWithin(group, n, s, t);
    t
  }

  lemma SomeCanonical(group: seq<Perm>, n: nat, s: set<nat>)
    requires Group(group, n) && Within(s, n)
    ensures exists t :: IsCanonical(group, n, s, t)
  {
    CanonicalExists(group, n, s, group);
    var t :| SameOrbit(group, s, t) && forall p :: p in group ==> Code(t, n) <= Code(Image(p, s), n);
    assert IsCanonical(group, n, s, t);
  }

  lemma {:induction false} CanonicalExists(group: seq<Perm>, n: nat, s: set<nat>, some: seq<Perm>)
    requires Group(group, n) && Within(s, n) && (forall p :: p in some ==> p in group)
    ensures exists t :: SameOrbit(group, s, t) && forall p :: p in some ==> Code(t, n) <= Code(Image(p, s), n)
    decreases |some|
  {
    if some == [] {
      OrbitReflexive(group, n, s);
    } else {
      CanonicalExists(group, n, s, some[1..]);
      var t :| SameOrbit(group, s, t) && forall p :: p in some[1..] ==> Code(t, n) <= Code(Image(p, s), n);
      var u := Image(some[0], s);
      assert some == [some[0]] + some[1..];
      var least := if Code(u, n) < Code(t, n) then u else t;
      assert SameOrbit(group, s, least);
    }
  }

  // ---------- Whole orbits ----------

  /** computeOrbit: the different images of a hash, each as an ascending list. */
  method ComputeOrbit(v: seq<nat>, group: seq<Perm>, n: nat) returns (orbit: seq<seq<nat>>)
    requires Group(group, n) && IsHash(v, n) && v != []
    ensures forall w :: w in orbit ==> IsHash(w, n) && Ascending(w) && SameOrbit(group, SetOf(v), SetOf(w))
    ensures forall p :: p in group ==> exists w :: w in orbit && SetOf(w) == Image(p, SetOf(v))
    ensures forall i, j :: 0 <= i < j < |orbit| ==> orbit[i] != orbit[j]
  {
    ghost var s := SetOf(v);
    EncodeIsCode(v, n);
    var biOrbit: seq<nat> := [];
    orbit := [];
    var i := 0;
    while i < |group|
      invariant i <= |group| && |orbit| == |biOrbit|
      invariant forall k :: 0 <= k < |orbit| ==>
                  IsHash(orbit[k], n) && Ascending(orbit[k]) && SameOrbit(group, s, SetOf(orbit[k]))
      invariant forall k :: 0 <= k < |orbit| ==> biOrbit[k] == Code(SetOf(orbit[k]), n)
      invariant forall k, l :: 0 <= k < l < |orbit| ==> biOrbit[k] != biOrbit[l]
      invariant forall k :: 0 <= k < i ==> Code(Image(group[k], s), n) in biOrbit
    {
      var image := Apply(group[i], v);
      ApplyIsImage(group[i], v, n);
      EncodeIsCode(image, n);
      var biGv := EncodeList(image);
      var found := false;
      var j := 0;
      while j < |biOrbit|
        invariant j <= |biOrbit| && !found && biGv !in biOrbit[..j]
      {
        if biOrbit[j] == biGv {
          found := true;
          break;
        }
        j := j + 1;
      }
      if !found {
        assert biGv !in biOrbit;
        assert SameOrbit(group, s, Image(group[i], s));
        NonEmptyCode(group, n, s, Image(group[i], s), v);
        CodeBound(Image(group[i], s), n);
        var w := BigintToBinary(biGv, n);
        EncodeIsCode(w, n);
        SameCode(SetOf(w), Image(group[i], s), n);
        orbit := orbit + [w];
        biOrbit := biOrbit + [biGv];
      }
      i := i + 1;
    }
    forall p | p in group
      ensures exists w :: w in orbit && SetOf(w) == Image(p, s)
    {
      var k :| 0 <= k < |group| && group[k] == p;
      var l :| 0 <= l < |biOrbit| && biOrbit[l] == Code(Image(p, s), n);
      ApplyIsImage(p, v, n);
      SameCode(SetOf(orbit[l]), Image(p, s), n);
      assert orbit[l] in orbit;
    }
  }
}
