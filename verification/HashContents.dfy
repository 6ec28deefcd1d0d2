/**
 * What the indices of a hash stand for: index `x` is the `x`-th orbit cone of the flattened list of the orbit
 * phase, and the joined permutations move indices as the symmetry group moves orbit cones.
 */
module HashContents {
  import opened Seqs
  import opened Permutations
  import opened OrbitExpansion
  import opened OrbitPhase
  import opened Hashes

  /** The orbit cone with a 1-based index. */
  ghost function ConeAt(files: seq<File>, x: nat): string
    requires 1 <= x <= |files|
  {
    files[x - 1].content
  }

  ghost function ConesOf(files: seq<File>, s: set<nat>): set<string>
    requires Within(s, |files|)
  {
    set x | x in s :: ConeAt(files, x)
  }

  /** The images of a set of orbit cones. */
  ghost function Moved(act: Act, g: Perm, cones: set<string>): set<string> {
    set c | c in cones :: act(c, g)
  }

  /** Moving an index is moving the orbit cone it stands for. */
  lemma MoveIsAction(
      group: seq<Perm>, act: Act, files: seq<File>, action: seq<Perm>, p: nat, x: nat)
    requires ActsOn(group, act, files, action) && p < |group| && 1 <= x <= |files|
    ensures 1 <= Move(action[p], x) <= |files|
    ensures ConeAt(files, Move(action[p], x)) == act(ConeAt(files, x), group[p])
  {
    assert ActsAt(group, act, files, action, p, x - 1);
  }

  /** The image of a hash stands for the images of its orbit cones. */
  lemma ImageIsMoved(
      group: seq<Perm>, act: Act, files: seq<File>, action: seq<Perm>, p: nat, s: set<nat>)
    requires ActsOn(group, act, files, action) && p < |group| && Within(s, |files|)
    ensures Within(Image(action[p], s), |files|)
    ensures ConesOf(files, Image(action[p], s)) == Moved(act, group[p], ConesOf(files, s))
  {
    var g, t := action[p], Image(action[p], s);
    forall x | x in s
      ensures 1 <= Move(g, x) <= |files| && ConeAt(files, Move(g, x)) == act(ConeAt(files, x), group[p])
    {
      MoveIsAction(group, act, files, action, p, x);
    }
    forall c
      ensures c in ConesOf(files, t) <==> c in Moved(act, group[p], ConesOf(files, s))
    {
      if c in ConesOf(files, t) {
        var y :| y in t && c == ConeAt(files, y);
        var x :| x in s && y == Move(g, x);
        assert ConeAt(files, x) in ConesOf(files, s);
      }
      if c in Moved(act, group[p], ConesOf(files, s)) {
        var d :| d in ConesOf(files, s) && c == act(d, group[p]);
        var x :| x in s && d == ConeAt(files, x);
        assert Move(g, x) in t;
      }
    }
  }

  /** Different hashes stand for different sets of orbit cones. */
  lemma ConesTellHashes(files: seq<File>, s: set<nat>, t: set<nat>)
    requires DifferentContents(files) && Within(s, |files|) && Within(t, |files|)
    requires ConesOf(files, s) == ConesOf(files, t)
    ensures s == t
  {
    ConesTellMembers(files, s, t);
    ConesTellMembers(files, t, s);
  }

  lemma ConesTellMembers(files: seq<File>, s: set<nat>, t: set<nat>)
    requires DifferentContents(files) && Within(s, |files|) && Within(t, |files|)
    requires ConesOf(files, s) == ConesOf(files, t)
    ensures s <= t
  {
    forall x | x in s
      ensures x in t
    {
      assert ConeAt(files, x) in ConesOf(files, t);
      var y :| y in t && ConeAt(files, x) == ConeAt(files, y);
    }
  }

  /** Two sets of orbit cones are images of each other under the group. */
  ghost predicate SameConeOrbit(group: seq<Perm>, act: Act, a: set<string>, b: set<string>) {
    exists p :: 0 <= p < |group| && b == Moved(act, group[p], a)
  }

  /** The orbits of hashes under the joined permutations are the orbits of sets of orbit cones under the group. */
  lemma OrbitIsConeOrbit(
      group: seq<Perm>, act: Act, files: seq<File>, action: seq<Perm>, s: set<nat>, t: set<nat>)
    requires ActsOn(group, act, files, action) && DifferentContents(files)
    requires Within(s, |files|) && Within(t, |files|)
    ensures SameOrbit(action, s, t) <==> SameConeOrbit(group, act, ConesOf(files, s), ConesOf(files, t))
  {
    if SameOrbit(action, s, t) {
      var g :| g in action && t == Image(g, s);
      var p :| 0 <= p < |action| && action[p] == g;
      ImageIsMoved(group, act, files, action, p, s);
    }
    if SameConeOrbit(group, act, ConesOf(files, s), ConesOf(files, t)) {
      var p :| 0 <= p < |group| && ConesOf(files, t) == Moved(act, group[p], ConesOf(files, s));
      ImageIsMoved(group, act, files, action, p, s);
      ConesTellHashes(files, Image(action[p], s), t);
      assert action[p] in action;
    }
  }

  /** After the orbit phase: hashes move as the orbit cones do. */
  lemma HashesMoveAsCones(
      group: seq<Perm>, n: nat, act: Act, infos: seq<OrbitInfo>, kept: seq<OrbitInfo>,
      flattened: seq<File>, action: seq<Perm>, s: set<nat>, t: set<nat>)
    requires Action(group, n, act) && AllOrbits(group, act, infos)
    requires PhaseResult(group, infos, kept, flattened, action)
    requires Within(s, |flattened|) && Within(t, |flattened|)
    ensures Group(action, |flattened|)
    ensures SameOrbit(action, s, t) <==> SameConeOrbit(group, act, ConesOf(flattened, s), ConesOf(flattened, t))
  {
    OrbitPhaseCorrect(group, n, act, infos, kept, flattened, action);
    FlattenedIsGroup(group, n, act, infos, kept, flattened, action);
    OrbitIsConeOrbit(group, act, flattened, action, s, t);
  }

  /** The canonical hash stands for an image of the set of orbit cones, and whole orbits for all of them. */
  lemma CanonicalIsConeImage(
      group: seq<Perm>, act: Act, files: seq<File>, action: seq<Perm>, s: set<nat>, t: set<nat>)
    requires ActsOn(group, act, files, action) && Within(s, |files|)
    requires IsCanonical(action, |files|, s, t)
    ensures Within(t, |files|) && SameConeOrbit(group, act, ConesOf(files, s), ConesOf(files, t))
  {
    var g :| g in action && t == Image(g, s);
    var p :| 0 <= p < |action| && action[p] == g;
    ImageIsMoved(group, act, files, action, p, s);
  }
}
