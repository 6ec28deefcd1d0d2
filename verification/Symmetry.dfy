/**
 * Traversing a GIT fan modulo its symmetry group: the start cone and all neighbours are replaced by their
 * minimal representatives before they are stored (src/util-gitfan/singular_library_wrapper.cpp), and the
 * stored hashes are expanded to whole orbits when they are loaded (singular/load_git_cones.lib).
 *
 * The geometry stays abstract: a neighbour function on hashes, which commutes with the group.
 */
module Symmetry {
  import opened Seqs
  import opened Permutations
  import opened Hashes
  import opened Traversal
  import opened TraversalSafety

  type Cone = set<nat>

  datatype Fan = Fan(group: seq<Perm>, n: nat, initial: Cone, neighbours: Cone -> set<Cone>)

  ghost predicate Symmetric(f: Fan) {
    && Group(f.group, f.n) && Within(f.initial, f.n)
    && (forall s, t :: Within(s, f.n) && t in f.neighbours(s) ==> Within(t, f.n))
    && (forall s, p :: Within(s, f.n) && p in f.group ==> Commutes(f, s, p))
  }

  ghost predicate Commutes(f: Fan, s: Cone, p: Perm) {
    f.neighbours(Image(p, s)) == set t | t in f.neighbours(s) :: Image(p, t)
  }

  /** The canonical member of the orbit; sets that are no hashes stay as they are. */
  ghost function Least(group: seq<Perm>, n: nat, s: Cone): Cone {
    if Group(group, n) && Within(s, n) then Canonical(group, n, s) else s
  }

  ghost function LeastOfAll(group: seq<Perm>, n: nat, cones: set<Cone>): set<Cone> {
    set t | t in cones :: Least(group, n, t)
  }

  /** The traversal without symmetry. */
  ghost function Full(f: Fan, jobSize: nat, maxJobQueue: nat, maxCones: int): Problem<Cone> {
    Problem(Some(f.initial), f.neighbours, jobSize, maxJobQueue, maxCones)
  }

  /** The traversal the repository runs. */
  ghost function Reduced(f: Fan, jobSize: nat, maxJobQueue: nat, maxCones: int): Problem<Cone> {
    Problem(Some(Least(f.group, f.n, f.initial)),
            s => LeastOfAll(f.group, f.n, f.neighbours(s)), jobSize, maxJobQueue, maxCones)
  }

  /** Cones of the same orbit have the same representative, and only they do. */
  lemma LeastIffSameOrbit(group: seq<Perm>, n: nat, s: Cone, t: Cone)
    requires Group(group, n) && Within(s, n) && Within(t, n)
    ensures Least(group, n, s) == Least(group, n, t) <==> SameOrbit(group, s, t)
  {
    CanonicalIffSameOrbit(group, n, s, t, Canonical(group, n, s), Canonical(group, n, t));
  }

  lemma LeastInOrbit(group: seq<Perm>, n: nat, s: Cone)
    requires Group(group, n) && Within(s, n)
    ensures Within(Least(group, n, s), n) && SameOrbit(group, s, Least(group, n, s))
    ensures SameOrbit(group, Least(group, n, s), s)
    ensures Least(group, n, Least(group, n, s)) == Least(group, n, s)
  {
    var t := Canonical(group, n, s);
    OrbitSymmetric(group, n, s, t);
    LeastIffSameOrbit(group, n, s, t);
  }

  // ---------- One step of either traversal, seen from the other ----------

  /** A neighbour of a cone has its representative among those of the neighbours of the cone's image. */
  lemma StepDown(f: Fan, s: Cone, r: Cone, t: Cone)
    requires Symmetric(f) && Within(s, f.n) && SameOrbit(f.group, s, r) && t in f.neighbours(s)
    ensures Least(f.group, f.n, t) in LeastOfAll(f.group, f.n, f.neighbours(r))
  {
    var p :| p in f.group && r == Image(p, s);
    assert Commutes(f, s, p);
    var u := Image(p, t);
    assert u in f.neighbours(r);
    assert SameOrbit(f.group, t, u);
    OrbitWithin(f.group, f.n, t, u);
    LeastIffSameOrbit(f.group, f.n, t, u);
  }

  /** A representative found from an image of a cone is in the orbit of a neighbour of the cone. */
  lemma StepUp(f: Fan, s: Cone, r: Cone, q: Cone) returns (t: Cone)
    requires Symmetric(f) && Within(s, f.n) && SameOrbit(f.group, s, r)
    requires q in LeastOfAll(f.group, f.n, f.neighbours(r))
    ensures t in f.neighbours(s) && SameOrbit(f.group, t, q)
  {
    var p :| p in f.group && r == Image(p, s);
    assert Commutes(f, s, p);
    var u :| u in f.neighbours(r) && q == Least(f.group, f.n, u);
    t :| t in f.neighbours(s) && u == Image(p, t);
    assert SameOrbit(f.group, t, u);
    OrbitWithin(f.group, f.n, t, u);
    LeastInOrbit(f.group, f.n, u);
    OrbitTransitive(f.group, f.n, t, u, q);
  }

  // ---------- Whole paths ----------

  lemma {:induction false} PathWithin(f: Fan, p: Problem<Cone>, path: seq<Cone>)
    requires Symmetric(f) && p == Full(f, p.jobSize, p.maxJobQueue, p.maxCones) && IsPath(p, path)
    ensures Within(path[|path| - 1], f.n)
  {
    if |path| > 1 {
      PathWithin(f, p, path[..|path| - 1]);
      assert path[|path| - 1] in p.neighbours(path[|path| - 2]);
    }
  }

  /** The representative of every reachable cone is reachable in the traversal modulo symmetry. */
  lemma {:induction false} PathDown(f: Fan, p: Problem<Cone>, path: seq<Cone>)
    requires Symmetric(f) && p == Full(f, p.jobSize, p.maxJobQueue, p.maxCones) && IsPath(p, path)
    ensures Reachable(Reduced(f, p.jobSize, p.maxJobQueue, p.maxCones), Least(f.group, f.n, path[|path| - 1]))
  {
    var p' := Reduced(f, p.jobSize, p.maxJobQueue, p.maxCones);
    if |path| == 1 {
      InitialReachable(p');
    } else {
      var s, t := path[|path| - 2], path[|path| - 1];
      var front := path[..|path| - 1];
      PathDown(f, p, front);
      PathWithin(f, p, front);
      LeastInOrbit(f.group, f.n, s);
      assert t in p.neighbours(s);
      StepDown(f, s, Least(f.group, f.n, s), t);
      NeighbourReachable(p', Least(f.group, f.n, s), Least(f.group, f.n, t));
    }
  }

  /** Every cone of the traversal modulo symmetry is the representative of a reachable cone's orbit. */
  lemma {:induction false} PathUp(f: Fan, p: Problem<Cone>, path: seq<Cone>) returns (s: Cone)
    requires Symmetric(f) && p == Reduced(f, p.jobSize, p.maxJobQueue, p.maxCones) && IsPath(p, path)
    ensures Reachable(Full(f, p.jobSize, p.maxJobQueue, p.maxCones), s) && Within(s, f.n)
    ensures SameOrbit(f.group, s, path[|path| - 1])
    ensures Least(f.group, f.n, path[|path| - 1]) == path[|path| - 1]
  {
    var p0 := Full(f, p.jobSize, p.maxJobQueue, p.maxCones);
    if |path| == 1 {
      s := f.initial;
      InitialReachable(p0);
      LeastInOrbit(f.group, f.n, s);
    } else {
      var r, q := path[|path| - 2], path[|path| - 1];
      var before := PathUp(f, p, path[..|path| - 1]);
      assert q in p.neighbours(r);
      s := StepUp(f, before, r, q);
      NeighbourReachable(p0, before, s);
      OrbitWithin(f.group, f.n, before, r);
      var u :| u in f.neighbours(r) && q == Least(f.group, f.n, u);
      LeastInOrbit(f.group, f.n, u);
    }
  }

  // ---------- The traversal modulo symmetry loses nothing ----------

  /** `t` is an image of a cone reachable without the use of symmetry. */
  ghost predicate Translate(f: Fan, p: Problem<Cone>, t: Cone) {
    exists s :: Reachable(p, s) && SameOrbit(f.group, s, t)
  }

  lemma ReachableWithin(f: Fan, p: Problem<Cone>, s: Cone)
    requires Symmetric(f) && p == Full(f, p.jobSize, p.maxJobQueue, p.maxCones) && Reachable(p, s)
    ensures Within(s, f.n)
  {
    var path :| IsPath(p, path) && path[|path| - 1] == s;
    PathWithin(f, p, path);
  }

  /** What is reachable modulo symmetry: the representatives of the reachable cones, each orbit once. */
  lemma ReducedReach(f: Fan, jobSize: nat, maxJobQueue: nat, maxCones: int, r: Cone)
    requires Symmetric(f)
    ensures Reachable(Reduced(f, jobSize, maxJobQueue, maxCones), r) <==>
            Translate(f, Full(f, jobSize, maxJobQueue, maxCones), r) && IsCanonical(f.group, f.n, r, r)
  {
    var p, p' := Full(f, jobSize, maxJobQueue, maxCones), Reduced(f, jobSize, maxJobQueue, maxCones);
    if Reachable(p', r) {
      var path :| IsPath(p', path) && path[|path| - 1] == r;
      var s := PathUp(f, p', path);
      OrbitWithin(f.group, f.n, s, r);
    }
    if Translate(f, p, r) && IsCanonical(f.group, f.n, r, r) {
      var s :| Reachable(p, s) && SameOrbit(f.group, s, r);
      ReachableWithin(f, p, s);
      OrbitWithin(f.group, f.n, s, r);
      var path :| IsPath(p, path) && path[|path| - 1] == s;
      PathDown(f, p, path);
      LeastIffSameOrbit(f.group, f.n, s, r);
      OrbitReflexive(f.group, f.n, r);
      CanonicalIffSameOrbit(f.group, f.n, r, r, r, Canonical(f.group, f.n, r));
    }
  }

  /**
   * A finished traversal modulo symmetry, without a limit or with one the result stays within, has stored one
   * cone, the smallest, of every orbit that meets the reachable cones, and nothing else.
   */
  lemma SymmetricTraversalLossless(f: Fan, p: Problem<Cone>, states: seq<State<Cone>>, events: seq<Event<Cone>>)
    requires Symmetric(f) && p == Reduced(f, p.jobSize, p.maxJobQueue, p.maxCones)
    requires p.Valid() && p.jobSize > 0 && IsRun(p, states, events) && states[|events|].finished > 0
    requires p.maxCones < 0 || |states[|events|].stored| <= p.maxCones
    ensures var stored := states[|events|].stored;
      && (forall r :: r in stored ==> Within(r, f.n) && IsCanonical(f.group, f.n, r, r))
      && (forall r, q :: r in stored && q in stored && SameOrbit(f.group, r, q) ==> r == q)
      && (forall t :: Translate(f, Full(f, p.jobSize, p.maxJobQueue, p.maxCones), t) <==>
                      Translated(f, stored, t))
  {
    var p0 := Full(f, p.jobSize, p.maxJobQueue, p.maxCones);
    var stored := states[|events|].stored;
    TraversalComplete(p, states, events);
    StoredAreCanonical(f, p, stored);
    StoredAreSeparate(f, stored);
    forall t
      ensures Translate(f, p0, t) <==> Translated(f, stored, t)
    {
      SameTranslates(f, p, stored, t);
    }
  }

  ghost predicate Translated(f: Fan, cones: set<Cone>, t: Cone) {
    exists r :: r in cones && SameOrbit(f.group, r, t)
  }

  lemma StoredAreCanonical(f: Fan, p: Problem<Cone>, stored: set<Cone>)
    requires Symmetric(f) && p == Reduced(f, p.jobSize, p.maxJobQueue, p.maxCones)
    requires forall c :: c in stored ==> Reachable(p, c)
    ensures forall r :: r in stored ==> Within(r, f.n) && IsCanonical(f.group, f.n, r, r)
  {
    forall r | r in stored
      ensures Within(r, f.n) && IsCanonical(f.group, f.n, r, r)
    {
      ReducedReach(f, p.jobSize, p.maxJobQueue, p.maxCones, r);
      var path :| IsPath(p, path) && path[|path| - 1] == r;
      var s := PathUp(f, p, path);
      OrbitWithin(f.group, f.n, s, r);
    }
  }

  lemma StoredAreSeparate(f: Fan, stored: set<Cone>)
    requires Symmetric(f)
    requires forall r :: r in stored ==> Within(r, f.n) && IsCanonical(f.group, f.n, r, r)
    ensures forall r, q :: r in stored && q in stored && SameOrbit(f.group, r, q) ==> r == q
  {
    forall r, q | r in stored && q in stored && SameOrbit(f.group, r, q)
      ensures r == q
    {
      CanonicalIffSameOrbit(f.group, f.n, r, q, r, q);
    }
  }

  lemma SameTranslates(f: Fan, p: Problem<Cone>, stored: set<Cone>, t: Cone)
    requires Symmetric(f) && p == Reduced(f, p.jobSize, p.maxJobQueue, p.maxCones)
    requires forall c :: c in stored <==> Reachable(p, c)
    ensures Translate(f, Full(f, p.jobSize, p.maxJobQueue, p.maxCones), t) <==> Translated(f, stored, t)
  {
    var p0 := Full(f, p.jobSize, p.maxJobQueue, p.maxCones);
    if Translate(f, p0, t) {
      var s :| Reachable(p0, s) && SameOrbit(f.group, s, t);
      ReachableWithin(f, p0, s);
      var path :| IsPath(p0, path) && path[|path| - 1] == s;
      PathDown(f, p0, path);
      LeastInOrbit(f.group, f.n, s);
      OrbitTransitive(f.group, f.n, Least(f.group, f.n, s), s, t);
    }
    if Translated(f, stored, t) {
      var r :| r in stored && SameOrbit(f.group, r, t);
      var path :| IsPath(p, path) && path[|path| - 1] == r;
      var s := PathUp(f, p, path);
      OrbitWithin(f.group, f.n, s, r);
      OrbitTransitive(f.group, f.n, s, r, t);
    }
  }

  // ---------- When the translates are the reachable cones ----------

  lemma {:induction false} PathImage(f: Fan, p: Problem<Cone>, g: Perm, path: seq<Cone>)
    requires Symmetric(f) && p == Full(f, p.jobSize, p.maxJobQueue, p.maxCones) && IsPath(p, path)
    requires g in f.group && Reachable(p, Image(g, f.initial))
    ensures Reachable(p, Image(g, path[|path| - 1]))
  {
    if |path| > 1 {
      var s, t := path[|path| - 2], path[|path| - 1];
      PathImage(f, p, g, path[..|path| - 1]);
      PathWithin(f, p, path[..|path| - 1]);
      assert t in p.neighbours(s) && Commutes(f, s, g);
      NeighbourReachable(p, Image(g, s), Image(g, t));
    }
  }

  /** Taking images adds nothing at this cone. */
  ghost predicate Stays(f: Fan, p: Problem<Cone>, t: Cone) {
    Translate(f, p, t) <==> Reachable(p, t)
  }

  /** The images of reachable cones are all reachable if and only if those of the start cone are. */
  lemma TranslatesReachable(f: Fan, p: Problem<Cone>)
    requires Symmetric(f) && p == Full(f, p.jobSize, p.maxJobQueue, p.maxCones)
    ensures (forall t :: Stays(f, p, t)) <==> (forall g :: g in f.group ==> Reachable(p, Image(g, f.initial)))
  {
    if forall t :: Stays(f, p, t) {
      forall g | g in f.group
        ensures Reachable(p, Image(g, f.initial))
      {
        ImageOfStart(f, p, g);
        assert Stays(f, p, Image(g, f.initial));
      }
    }
    if forall g :: g in f.group ==> Reachable(p, Image(g, f.initial)) {
      forall t
        ensures Stays(f, p, t)
      {
        TranslateReachable(f, p, t);
      }
    }
  }

  lemma ImageOfStart(f: Fan, p: Problem<Cone>, g: Perm)
    requires p == Full(f, p.jobSize, p.maxJobQueue, p.maxCones) && g in f.group
    ensures Translate(f, p, Image(g, f.initial))
  {
    InitialReachable(p);
    assert SameOrbit(f.group, f.initial, Image(g, f.initial));
  }

  lemma TranslateReachable(f: Fan, p: Problem<Cone>, t: Cone)
    requires Symmetric(f) && p == Full(f, p.jobSize, p.maxJobQueue, p.maxCones)
    requires forall g :: g in f.group ==> Reachable(p, Image(g, f.initial))
    ensures Stays(f, p, t)
  {
    if Translate(f, p, t) {
      var s :| Reachable(p, s) && SameOrbit(f.group, s, t);
      var g :| g in f.group && t == Image(g, s);
      var path :| IsPath(p, path) && path[|path| - 1] == s;
      PathImage(f, p, g, path);
    }
    if Reachable(p, t) {
      ReachableWithin(f, p, t);
      OrbitReflexive(f.group, f.n, t);
    }
  }

  // ---------- The loops that apply it ----------

  /** toMinimalRepresentatives: what is inserted for the neighbours of a cone. */
  method ToMinimalRepresentatives(elems: seq<seq<nat>>, group: seq<Perm>, n: nat) returns (result: seq<seq<nat>>)
    requires Group(group, n) && forall i :: 0 <= i < |elems| ==> IsHash(elems[i], n) && elems[i] != []
    ensures |result| == |elems|
    ensures forall i :: 0 <= i < |elems| ==>
              && IsHash(result[i], n) && Ascending(result[i])
              && SetOf(result[i]) == Least(group, n, SetOf(elems[i]))
  {
    result := elems;
    var i := 0;
    while i < |elems|
      invariant i <= |elems| == |result| && result[i..] == elems[i..]
      invariant forall j :: 0 <= j < i ==>
                  && IsHash(result[j], n) && Ascending(result[j])
                  && SetOf(result[j]) == Least(group, n, SetOf(elems[j]))
    {
      assert result[i] == result[i..][0] == elems[i];
      var least := MinimalRepresentative(result[i], group, n);
      var s := SetOf(elems[i]);
      OrbitReflexive(group, n, s);
      CanonicalIffSameOrbit(group, n, s, s, SetOf(least), Canonical(group, n, s));
      assert result[i + 1..] == elems[i + 1..];
      result := result[i := least];
      i := i + 1;
    }
  }

  ghost predicate InOrbitOfSome(group: seq<Perm>, hashes: seq<seq<nat>>, t: Cone) {
    exists k :: 0 <= k < |hashes| && SameOrbit(group, SetOf(hashes[k]), t)
  }

  ghost predicate Lists(all: seq<seq<nat>>, t: Cone) {
    exists k :: 0 <= k < |all| && SetOf(all[k]) == t
  }

  /** computeOrbits: from hashes of different orbits, every cone of every orbit exactly once. */
  method ComputeOrbits(hashes: seq<seq<nat>>, group: seq<Perm>, n: nat) returns (result: seq<seq<nat>>)
    requires Group(group, n) && forall i :: 0 <= i < |hashes| ==> IsHash(hashes[i], n) && hashes[i] != []
    ensures forall w :: w in result ==> IsHash(w, n) && Ascending(w)
    ensures forall t :: Lists(result, t) <==> InOrbitOfSome(group, hashes, t)
    ensures (forall i, j :: 0 <= i < j < |hashes| ==> !SameOrbit(group, SetOf(hashes[i]), SetOf(hashes[j]))) ==>
              Distinct(result)
  {
    result := [];
    var i := 0;
    while i < |hashes|
      invariant i <= |hashes|
      invariant forall w :: w in result ==> IsHash(w, n) && Ascending(w)
      invariant forall t :: Lists(result, t) <==> InOrbitOfSome(group, hashes[..i], t)
      invariant DifferentOrbits(group, hashes) ==> Distinct(result)
    {
      var orbit := ComputeOrbit(hashes[i], group, n);
      OrbitAppended(group, n, hashes, i, result, orbit);
      if DifferentOrbits(group, hashes) {
        StillDistinct(group, n, hashes, i, result, orbit);
      }
      result := result + orbit;
      i := i + 1;
    }
    assert hashes[..i] == hashes;
  }

  ghost predicate DifferentOrbits(group: seq<Perm>, hashes: seq<seq<nat>>) {
    forall i, j :: 0 <= i < j < |hashes| ==> !SameOrbit(group, SetOf(hashes[i]), SetOf(hashes[j]))
  }

  ghost predicate OrbitOf(group: seq<Perm>, v: seq<nat>, orbit: seq<seq<nat>>) {
    && (forall w :: w in orbit ==> SameOrbit(group, SetOf(v), SetOf(w)))
    && (forall p :: p in group ==> exists w :: w in orbit && SetOf(w) == Image(p, SetOf(v)))
  }

  lemma OrbitAppended(
      group: seq<Perm>, n: nat, hashes: seq<seq<nat>>, i: nat, result: seq<seq<nat>>, orbit: seq<seq<nat>>)
    requires i < |hashes| && OrbitOf(group, hashes[i], orbit)
    requires forall t :: Lists(result, t) <==> InOrbitOfSome(group, hashes[..i], t)
    ensures forall t :: Lists(result + orbit, t) <==> InOrbitOfSome(group, hashes[..i + 1], t)
  {
    forall t
      ensures Lists(result + orbit, t) <==> InOrbitOfSome(group, hashes[..i + 1], t)
    {
      ListsConcat(result, orbit, t);
      SomeAppended(group, hashes, i, t);
      OrbitListed(group, hashes[i], orbit, t);
    }
  }

  lemma ListsConcat(a: seq<seq<nat>>, b: seq<seq<nat>>, t: Cone)
    ensures Lists(a + b, t) <==> Lists(a, t) || Lists(b, t)
  {
    if Lists(a, t) {
      var k :| 0 <= k < |a| && SetOf(a[k]) == t;
      assert (a + b)[k] == a[k];
    }
    if Lists(b, t) {
      var k :| 0 <= k < |b| && SetOf(b[k]) == t;
      assert (a + b)[|a| + k] == b[k];
    }
  }

  lemma SomeAppended(group: seq<Perm>, hashes: seq<seq<nat>>, i: nat, t: Cone)
    requires i < |hashes|
    ensures InOrbitOfSome(group, hashes[..i + 1], t) <==>
            InOrbitOfSome(group, hashes[..i], t) || SameOrbit(group, SetOf(hashes[i]), t)
  {
    var a, b := hashes[..i], hashes[..i + 1];
    if InOrbitOfSome(group, a, t) {
      var k :| 0 <= k < |a| && SameOrbit(group, SetOf(a[k]), t);
      assert b[k] == a[k];
    }
    if InOrbitOfSome(group, b, t) {
      var k :| 0 <= k < |b| && SameOrbit(group, SetOf(b[k]), t);
      assert k < i ==> a[k] == b[k];
    }
    assert b[i] == hashes[i];
  }

  lemma OrbitListed(group: seq<Perm>, v: seq<nat>, orbit: seq<seq<nat>>, t: Cone)
    requires OrbitOf(group, v, orbit)
    ensures Lists(orbit, t) <==> SameOrbit(group, SetOf(v), t)
  {
    if Lists(orbit, t) {
      var k :| 0 <= k < |orbit| && SetOf(orbit[k]) == t;
      assert orbit[k] in orbit;
    }
    if SameOrbit(group, SetOf(v), t) {
      var p :| p in group && t == Image(p, SetOf(v));
      var w :| w in orbit && SetOf(w) == Image(p, SetOf(v));
      var k :| 0 <= k < |orbit| && orbit[k] == w;
    }
  }

  lemma StillDistinct(
      group: seq<Perm>, n: nat, hashes: seq<seq<nat>>, i: nat, result: seq<seq<nat>>, orbit: seq<seq<nat>>)
    requires Group(group, n) && i < |hashes| && OrbitOf(group, hashes[i], orbit) && Distinct(result) && Distinct(orbit)
    requires DifferentOrbits(group, hashes) && forall i :: 0 <= i < |hashes| ==> IsHash(hashes[i], n)
    requires forall t :: Lists(result, t) <==> InOrbitOfSome(group, hashes[..i], t)
    ensures Distinct(result + orbit)
  {
    forall j, k | 0 <= j < |result| && 0 <= k < |orbit|
      ensures result[j] != orbit[k]
    {
      if result[j] == orbit[k] {
        var t := SetOf(orbit[k]);
        assert Lists(result, t);
        var a := hashes[..i];
        var l :| 0 <= l < |a| && SameOrbit(group, SetOf(a[l]), t);
        assert orbit[k] in orbit && a[l] == hashes[l];
        SameOrbitVia(group, n, hashes[l], hashes[i], t);
      }
    }
  }

  lemma SameOrbitVia(group: seq<Perm>, n: nat, v: seq<nat>, w: seq<nat>, t: Cone)
    requires Group(group, n) && IsHash(v, n) && IsHash(w, n)
    requires SameOrbit(group, SetOf(v), t) && SameOrbit(group, SetOf(w), t)
    ensures SameOrbit(group, SetOf(v), SetOf(w))
  {
    OrbitSymmetric(group, n, SetOf(w), t);
    OrbitTransitive(group, n, SetOf(v), t, SetOf(w));
  }

  /** The hashes in the storage, each once, in some order. */
  ghost predicate ListsStore(hashes: seq<seq<nat>>, stored: set<Cone>) {
    && (forall s :: s in stored <==> Lists(hashes, s))
    && (forall i, j :: 0 <= i < j < |hashes| ==> SetOf(hashes[i]) != SetOf(hashes[j]))
  }

  /**
   * From a finished traversal to the loaded list: every image of a cone reachable without symmetry, once each,
   * and nothing else.
   */
  method LoadFan(f: Fan, ghost p: Problem<Cone>, ghost states: seq<State<Cone>>, ghost events: seq<Event<Cone>>,
                 hashes: seq<seq<nat>>)
      returns (result: seq<seq<nat>>)
    requires Symmetric(f) && p == Reduced(f, p.jobSize, p.maxJobQueue, p.maxCones)
    requires p.Valid() && p.jobSize > 0 && IsRun(p, states, events) && states[|events|].finished > 0
    requires p.maxCones < 0 || |states[|events|].stored| <= p.maxCones
    requires ListsStore(hashes, states[|events|].stored)
    requires forall i :: 0 <= i < |hashes| ==> IsHash(hashes[i], f.n) && hashes[i] != []
    ensures forall t :: Lists(result, t) <==> Translate(f, Full(f, p.jobSize, p.maxJobQueue, p.maxCones), t)
    ensures forall i, j :: 0 <= i < j < |result| ==> SetOf(result[i]) != SetOf(result[j])
  {
    SymmetricTraversalLossless(f, p, states, events);
    ghost var stored := states[|events|].stored;
    StoreSeparate(f, stored, hashes);
    result := ComputeOrbits(hashes, f.group, f.n);
    forall t
      ensures Lists(result, t) <==> Translated(f, stored, t)
    {
      SameExpansion(f, stored, hashes, t);
    }
    forall i, j | 0 <= i < j < |result|
      ensures SetOf(result[i]) != SetOf(result[j])
    {
      assert result[i] in result && result[j] in result;
      if SetOf(result[i]) == SetOf(result[j]) {
        SameSetSameList(result[i], result[j]);
      }
    }
  }

  lemma StoreSeparate(f: Fan, stored: set<Cone>, hashes: seq<seq<nat>>)
    requires ListsStore(hashes, stored)
    requires forall r, q :: r in stored && q in stored && SameOrbit(f.group, r, q) ==> r == q
    ensures DifferentOrbits(f.group, hashes)
  {
    forall i, j | 0 <= i < j < |hashes|
      ensures !SameOrbit(f.group, SetOf(hashes[i]), SetOf(hashes[j]))
    {
      assert Lists(hashes, SetOf(hashes[i])) && Lists(hashes, SetOf(hashes[j]));
    }
  }

  lemma SameExpansion(f: Fan, stored: set<Cone>, hashes: seq<seq<nat>>, t: Cone)
    requires ListsStore(hashes, stored)
    ensures InOrbitOfSome(f.group, hashes, t) <==> Translated(f, stored, t)
  {
    if InOrbitOfSome(f.group, hashes, t) {
      var k :| 0 <= k < |hashes| && SameOrbit(f.group, SetOf(hashes[k]), t);
      assert Lists(hashes, SetOf(hashes[k]));
    }
    if Translated(f, stored, t) {
      var r :| r in stored && SameOrbit(f.group, r, t);
      var k :| 0 <= k < |hashes| && SetOf(hashes[k]) == r;
    }
  }
}
