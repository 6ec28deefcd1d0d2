/**
 * What the directory tree of a string container holds besides the strings (src/storage/filesystem/string_container.cpp):
 * only directories that lead to a string or that a running call is about to use or to remove.
 */
module EmptiedDirectories {
  import opened Seqs
  import opened Directories
  import opened StringPaths
  import opened StringContainer

  ghost predicate IsPrefix(p: Path, q: Path) {
    |p| <= |q| && q[..|p|] == p
  }

  ghost predicate LeadsToString(l: PieceLength, tree: set<Path>, p: Path, str: string) {
    Storable(str, l) && PathOf(str, l) in tree && IsPrefix(p, PathOf(str, l))
  }

  /** An unfinished `add` needs its whole path; a `remove` has yet to look at what is left of its own. */
  ghost predicate NeededBy(l: PieceLength, c: Call, p: Path) {
    && IsPrefix(p, PathOf(c.str, l))
    && match c
       case Add(_, _, _, result) => result == Pending
       case Remove(_, level, _) => 0 < |p| <= level
  }

  ghost predicate Needed(l: PieceLength, s: State, p: Path) {
    || p == []
    || (exists str :: LeadsToString(l, s.tree, p, str))
    || (exists j :: 0 <= j < |s.calls| && NeededBy(l, s.calls[j], p))
  }

  ghost predicate NoLeftovers(l: PieceLength, s: State) {
    forall p :: p in s.tree ==> Needed(l, s, p)
  }

  lemma PrefixOfPrefix(p: Path, q: Path, path: Path)
    requires IsPrefix(p, q) && IsPrefix(q, path)
    ensures IsPrefix(p, path)
  {
    assert path[..|q|][..|p|] == path[..|p|];
  }

  /** What leads to a directory that is needed is needed itself; a call that needs only the one is left out. */
  lemma ParentNeeded(l: PieceLength, s: State, p: Path, q: Path, j: nat) returns (i: nat, str: string)
    requires j < |s.calls| && p != [] && IsPrefix(p, q) && q != [] && Needed(l, s, q)
    requires !NeededBy(l, s.calls[j], q)
    ensures LeadsToString(l, s.tree, p, str) || (i < |s.calls| && i != j && NeededBy(l, s.calls[i], p))
  {
    i, str := 0, "";
    if t :| LeadsToString(l, s.tree, q, t) {
      str := t;
      PrefixOfPrefix(p, q, PathOf(str, l));
    } else {
      i :| 0 <= i < |s.calls| && NeededBy(l, s.calls[i], q);
      PrefixOfPrefix(p, q, PathOf(s.calls[i].str, l));
    }
  }

  lemma AddTidy(l: PieceLength, s: State, j: nat, p: Path)
    requires Inv(l, s) && CanStep(l, s, j) && s.calls[j].Add? && NoLeftovers(l, s)
    requires p in Step(l, s, j).tree
    ensures Needed(l, Step(l, s, j), p)
  {
    var c, s' := s.calls[j], Step(l, s, j);
    var path, c' := PathOf(c.str, l), s'.calls[j];
    assert CallOk(l, s, c);
    assert path[..|path|] == path;
    if IsPrefix(p, path) {
      assert c'.result == Pending ==> NeededBy(l, c', p);
      assert c'.result != Pending ==> LeadsToString(l, s'.tree, p, c.str);
    } else {
      AddKeeps(l, s, j, p);
    }
  }

  lemma AddKeeps(l: PieceLength, s: State, j: nat, p: Path)
    requires Inv(l, s) && CanStep(l, s, j) && s.calls[j].Add? && NoLeftovers(l, s)
    requires p in Step(l, s, j).tree && !IsPrefix(p, PathOf(s.calls[j].str, l))
    ensures Needed(l, Step(l, s, j), p)
  {
    var s' := Step(l, s, j);
    assert p in s.tree;
    if str :| LeadsToString(l, s.tree, p, str) {
      assert LeadsToString(l, s'.tree, p, str);
    } else if p != [] {
      var i :| 0 <= i < |s.calls| && NeededBy(l, s.calls[i], p);
      assert NeededBy(l, s'.calls[i], p);
    }
  }

  lemma RemoveTidy(l: PieceLength, s: State, j: nat, p: Path)
    requires Inv(l, s) && CanStep(l, s, j) && s.calls[j].Remove? && NoLeftovers(l, s)
    requires p in Step(l, s, j).tree
    ensures Needed(l, Step(l, s, j), p)
  {
    var c, s' := s.calls[j], Step(l, s, j);
    var path := PathOf(c.str, l);
    assert CallOk(l, s, c);
    MarkedIsLeaf(l, s.tree, c.str);
    assert path[..|path|] == path;
    if p != [] && IsPrefix(p, path) && |p| < c.level {
      assert NeededBy(l, s'.calls[j], p);
    } else if p == path[..c.level] {
      StillFull(l, s, j, p);
    } else {
      RemoveKeeps(l, s, j, p);
    }
  }

  /** A directory that could not be removed has a child, which somebody else needs. */
  lemma StillFull(l: PieceLength, s: State, j: nat, p: Path)
    requires Inv(l, s) && CanStep(l, s, j) && s.calls[j].Remove? && NoLeftovers(l, s)
    requires p == PathOf(s.calls[j].str, l)[..s.calls[j].level] && p in Step(l, s, j).tree
    ensures Needed(l, Step(l, s, j), p)
  {
    var s' := Step(l, s, j);
    assert s'.tree == s.tree && HasChild(s.tree, p);
    var q :| q in s.tree && q != [] && Parent(q) == p;
    var i, str := ParentNeeded(l, s, p, q, j);
    if LeadsToString(l, s.tree, p, str) {
      assert LeadsToString(l, s'.tree, p, str);
    } else {
      assert NeededBy(l, s'.calls[i], p);
    }
  }

  lemma RemoveKeeps(l: PieceLength, s: State, j: nat, p: Path)
    requires Inv(l, s) && CanStep(l, s, j) && s.calls[j].Remove? && NoLeftovers(l, s)
    requires p in Step(l, s, j).tree && p != PathOf(s.calls[j].str, l)[..s.calls[j].level]
    requires p == [] || !IsPrefix(p, PathOf(s.calls[j].str, l)) || |p| >= s.calls[j].level
    ensures Needed(l, Step(l, s, j), p)
  {
    var c, s' := s.calls[j], Step(l, s, j);
    var path := PathOf(c.str, l);
    assert CallOk(l, s, c);
    if str :| LeadsToString(l, s.tree, p, str) {
      if PathOf(str, l) !in s'.tree {
        NoAncestor(str, c.str, l, c.level);
      }
      assert p == [] || LeadsToString(l, s'.tree, p, str);
    } else if p != [] {
      var i :| 0 <= i < |s.calls| && NeededBy(l, s.calls[i], p);
      assert NeededBy(l, s'.calls[i], p);
    }
  }

  lemma StepTidy(l: PieceLength, s: State, j: nat)
    requires Inv(l, s) && CanStep(l, s, j) && NoLeftovers(l, s)
    ensures NoLeftovers(l, Step(l, s, j))
  {
    forall p | p in Step(l, s, j).tree
      ensures Needed(l, Step(l, s, j), p)
    {
      if s.calls[j].Add? {
        AddTidy(l, s, j, p);
      } else {
        RemoveTidy(l, s, j, p);
      }
    }
  }

  /** In every state of a run from a tree without leftovers there are none. */
  lemma {:induction false} RunTidy(l: PieceLength, states: seq<State>, picks: seq<nat>)
    requires IsRun(l, states, picks) && NoLeftovers(l, states[0])
    ensures NoLeftovers(l, states[|picks|])
    decreases |picks|
  {
    var n := |picks|;
    if n > 0 {
      RunTidy(l, states[..n], picks[..n - 1]);
      RunInv(l, states[..n], picks[..n - 1]);
      assert Follows(l, states[n - 1], picks[n - 1], states[n]);
      StepTidy(l, states[n - 1], picks[n - 1]);
    }
  }

  /**
   * When all calls of a run from the empty tree have returned, the tree is exactly the base and the
   * directories that lead to the strings of the set.
   */
  lemma OnlyPathsOfStrings(l: PieceLength, states: seq<State>, picks: seq<nat>, p: Path)
    requires IsRun(l, states, picks) && states[0].tree == {[]}
    requires forall j :: 0 <= j < |states[|picks|].calls| ==> Done(states[|picks|].calls[j])
    ensures var tree := states[|picks|].tree;
      p in tree <==> p == [] || exists str :: str in Contents(tree) && IsPrefix(p, PathOf(str, l))
  {
    var s := states[|picks|];
    assert NoLeftovers(l, states[0]);
    RunTidy(l, states, picks);
    RunInv(l, states, picks);
    if p in s.tree && p != [] {
      assert Needed(l, s, p);
      var str :| LeadsToString(l, s.tree, p, str);
      InContents(l, s.tree, str);
    }
    if str :| str in Contents(s.tree) && IsPrefix(p, PathOf(str, l)) {
      ContentsStorable(l, s.tree, str);
      InContents(l, s.tree, str);
      PrefixIn(s.tree, PathOf(str, l), |p|);
    }
  }
}
