/**
 * Permutations as image vectors, their product (src/util-gitfan/singular_library_wrapper.cpp and
 * singular/gitfanparallel.lib), and groups given as a list of permutations.  Indices start at 0; the
 * Singular side counts from 1, which the file readers and writers shift.
 */
module Permutations {

  type Perm = seq<nat>

  ghost predicate IsPerm(p: Perm, n: nat) {
    && |p| == n
    && (forall i :: 0 <= i < n ==> p[i] < n)
    && (forall i, j :: 0 <= i < j < n ==> p[i] != p[j])
  }

  ghost function Compose(l: Perm, r: Perm): Perm
    requires |l| == |r| && forall i :: 0 <= i < |r| ==> r[i] < |l|
  {
    seq(|l|, i requires 0 <= i < |r| => l[r[i]])
  }

  /** `operator*`: first `r`, then `l`. */
  method Multiply(l: Perm, r: Perm) returns (result: Perm)
    requires |l| == |r| && forall i :: 0 <= i < |r| ==> r[i] < |l|
    ensures result == Compose(l, r)
  {
    result := [];
    var i := 0;
    while i < |l|
      invariant i == |result| <= |l|
      invariant forall j :: 0 <= j < i ==> result[j] == l[r[j]]
    {
      result := result + [l[r[i]]];
      i := i + 1;
    }
  }

  ghost function Identity(n: nat): Perm {
    seq(n, i => i)
  }

  /** The hypothesis on a symmetry group: a list of permutations with the identity, closed under products. */
  ghost predicate Group(group: seq<Perm>, n: nat) {
    && (forall g :: g in group ==> IsPerm(g, n))
    && Identity(n) in group
    && (forall g, h {:trigger Compose(g, h)} :: g in group && h in group ==> Compose(g, h) in group)
  }

  lemma ComposeAssociates(a: Perm, b: Perm, c: Perm, n: nat)
    requires IsPerm(a, n) && IsPerm(b, n) && IsPerm(c, n)
    ensures IsPerm(Compose(a, b), n) && IsPerm(Compose(b, c), n)
    ensures Compose(Compose(a, b), c) == Compose(a, Compose(b, c))
  {
  }

  lemma IdentityNeutral(p: Perm, n: nat)
    requires IsPerm(p, n)
    ensures IsPerm(Identity(n), n)
    ensures Compose(p, Identity(n)) == p == Compose(Identity(n), p)
  {
  }

  ghost predicate InjectiveInto<T>(f: map<T, T>, t: set<T>) {
    && (forall x :: x in f ==> f[x] in t)
    && (forall x, y :: x in f && y in f && f[x] == f[y] ==> x == y)
  }

  /** An injective map reaches every element of a finite set that is no larger than its domain. */
  lemma {:induction false} PreimageUnder<T>(f: map<T, T>, t: set<T>, y: T) returns (x: T)
    requires InjectiveInto(f, t) && |t| <= |f.Keys| && y in t
    ensures x in f && f[x] == y
    decreases |f.Keys|
  {
    x :| x in f;
    if f[x] != y {
      var f' := f - {x};
      assert f'.Keys == f.Keys - {x};
      x := PreimageUnder(f', t - {f[x]}, y);
    }
  }

  ghost function Translation(group: seq<Perm>, n: nat, p: Perm): (f: map<Perm, Perm>)
    requires Group(group, n) && p in group
    ensures forall g :: g in f <==> g in group
    ensures forall g :: g in f ==> f[g] == Compose(g, p)
  {
    map g | g in group :: Compose(g, p)
  }

  /** Products with `p` on the right are injective, so some product is the identity. */
  lemma LeftInverse(group: seq<Perm>, n: nat, p: Perm) returns (q: Perm)
    requires Group(group, n) && p in group
    ensures q in group && Compose(q, p) == Identity(n)
  {
    var f := Translation(group, n, p);
    forall g, h | g in f && h in f && f[g] == f[h]
      ensures g == h
    {
      CancelRight(g, h, p, n);
    }
    q := PreimageUnder(f, f.Keys, Identity(n));
  }

  lemma CancelRight(g: Perm, h: Perm, p: Perm, n: nat)
    requires IsPerm(g, n) && IsPerm(h, n) && IsPerm(p, n) && Compose(g, p) == Compose(h, p)
    ensures g == h
  {
    forall i | 0 <= i < n
      ensures g[i] == h[i]
    {
      var k := Preimage(p, n, i);
      assert Compose(g, p)[k] == Compose(h, p)[k];
    }
  }

  lemma Preimage(p: Perm, n: nat, i: nat) returns (k: nat)
    requires IsPerm(p, n) && i < n
    ensures k < n && p[k] == i
  {
    var f := AsMap(p, n);
    var j := PreimageUnder(f, f.Keys, i as int);
    k := j;
  }

  ghost function AsMap(p: Perm, n: nat): (f: map<int, int>)
    requires IsPerm(p, n)
    ensures forall j :: j in f <==> 0 <= j < n
    ensures forall j :: j in f ==> f[j] == p[j]
    ensures InjectiveInto(f, f.Keys)
  {
    map j | 0 <= j < n :: p[j]
  }

  /** Inverses work on both sides. */
  lemma Inverse(group: seq<Perm>, n: nat, p: Perm) returns (q: Perm)
    requires Group(group, n) && p in group
    ensures q in group && Compose(q, p) == Identity(n) == Compose(p, q)
  {
    q := LeftInverse(group, n, p);
    var r := LeftInverse(group, n, q);
    ComposeAssociates(r, q, p, n);
    IdentityNeutral(p, n);
    IdentityNeutral(r, n);
    assert r == Compose(r, Compose(q, p)) == Compose(Compose(r, q), p) == p;
  }

  // ---------- Actions ----------

  /** Contents on the right of which the group acts: `act(act(c, g), h) == act(c, g * h)`. */
  ghost predicate Action<C(!new)>(group: seq<Perm>, n: nat, act: (C, Perm) -> C) {
    && Group(group, n)
    && forall c, g, h :: g in group && h in group ==> ActsTwice(act, c, g, h)
  }

  ghost predicate ActsTwice<C>(act: (C, Perm) -> C, c: C, g: Perm, h: Perm)
    requires |g| == |h| && forall i :: 0 <= i < |h| ==> h[i] < |g|
  {
    act(act(c, g), h) == act(c, Compose(g, h))
  }

  ghost predicate InOrbit<C>(group: seq<Perm>, act: (C, Perm) -> C, rep: C, c: C) {
    exists g :: g in group && c == act(rep, g)
  }

  lemma UndoAt<C(!new)>(group: seq<Perm>, n: nat, act: (C, Perm) -> C, rep: C, g: Perm, p: Perm, q: Perm)
    requires Action(group, n, act) && g in group && p in group && q in group && Compose(p, q) == Identity(n)
    ensures act(act(act(rep, g), p), q) == act(rep, g)
  {
    IdentityNeutral(g, n);
    assert ActsTwice(act, act(rep, g), p, q) && ActsTwice(act, rep, g, Identity(n));
  }

  lemma OrbitClosed<C(!new)>(group: seq<Perm>, n: nat, act: (C, Perm) -> C, rep: C, c: C, p: Perm)
    requires Action(group, n, act) && InOrbit(group, act, rep, c) && p in group
    ensures InOrbit(group, act, rep, act(c, p))
  {
    var g :| g in group && c == act(rep, g);
    assert Compose(g, p) in group && ActsTwice(act, rep, g, p);
  }

  /** Orbits with a common member are equal. */
  lemma OrbitsMeet<C(!new)>(group: seq<Perm>, n: nat, act: (C, Perm) -> C, rep: C, rep': C, c: C, d: C)
    requires Action(group, n, act) && InOrbit(group, act, rep, c) && InOrbit(group, act, rep', c)
    requires InOrbit(group, act, rep, d)
    ensures InOrbit(group, act, rep', d)
  {
    var g :| g in group && c == act(rep, g);
    var h :| h in group && d == act(rep, h);
    var g' := Inverse(group, n, g);
    var p := Compose(g', h);
    ComposeAssociates(g, g', h, n);
    IdentityNeutral(h, n);
    assert ActsTwice(act, rep, g, p) && act(rep, Compose(g, p)) == d;
    OrbitClosed(group, n, act, rep', c, p);
  }
}
