/**
 * The set of strings kept as a directory tree (src/storage/filesystem/string_container.cpp) under any number
 * of concurrent `add` and `remove` calls.  One step of a call is one mkdir or one rmdir.
 *
 * Creating the directories of a path one after the other restarts with the first one whenever a parent is
 * missing: the call for a parent is repeated from its own first parent, and the base always exists.
 */
module StringContainer {
  import opened Arithmetic
  import opened Seqs
  import opened Directories
  import opened StringPaths

  datatype Outcome = Pending | Returned(value: bool) | Threw

  /**
   * `level` is the length of the path the next step creates or removes.  An `add` also keeps, as history, how
   * many directories had been removed when it started or last restarted.
   */
  datatype Call =
    | Add(str: string, level: nat, seen: nat, result: Outcome)
    | Remove(str: string, level: nat, result: Outcome)

  datatype State = State(tree: set<Path>, calls: seq<Call>, removed: nat)

  ghost predicate Done(c: Call) {
    match c
    case Add(_, _, _, result) => result != Pending
    case Remove(_, level, _) => level == 0
  }

  ghost function Depth(l: PieceLength, c: Call): nat
  {
    |PathOf(c.str, l)|
  }

  ghost predicate Starts(l: PieceLength, s: State, c: Call)
  {
    && Storable(c.str, l)
    && match c
       case Add(_, level, seen, result) => level == 1 && seen == s.removed && result == Pending
       case Remove(_, level, result) => level == Depth(l, c) && result == Pending
  }

  ghost function AfterMake(l: PieceLength, removed: nat, c: Call, made: Made): Call
    requires c.Add?
  {
    if made == NoSuchFile then c.(level := 1, seen := removed)
    else if c.level < Depth(l, c) then c.(level := c.level + 1)
    else c.(result := Returned(made == Created))
  }

  /** Only a directory on the way up may be full; for the string's own directory that is an error. */
  ghost function AfterRemove(l: PieceLength, c: Call, removed: Unmade): Call
    requires c.Remove? && c.level > 0
  {
    if c.level < Depth(l, c) then c.(level := c.level - 1)
    else if removed == NotEmpty then c.(result := Threw, level := 0)
    else c.(result := Returned(removed == Removed), level := c.level - 1)
  }

  ghost predicate CanStep(l: PieceLength, s: State, j: nat)
  {
    && j < |s.calls| && !Done(s.calls[j])
    && 1 <= s.calls[j].level <= Depth(l, s.calls[j])
  }

  ghost function Step(l: PieceLength, s: State, j: nat): State
    requires CanStep(l, s, j)
  {
    var c := s.calls[j];
    var p := PathOf(c.str, l)[..c.level];
    if c.Add? then
      var (tree, made) := MakeDir(s.tree, p);
      s.(tree := tree, calls := s.calls[j := AfterMake(l, s.removed, c, made)])
    else
      var (tree, unmade) := RemoveDir(s.tree, p);
      State(tree, s.calls[j := AfterRemove(l, c, unmade)], s.removed + if unmade == Removed then 1 else 0)
  }

  // ---------- The invariant ----------

  /** Names inside a path are unmarked; a marked directory belongs to a storable string. */
  ghost predicate Regular(l: PieceLength, p: Path)
  {
    && (forall i :: 0 <= i < |p| - 1 ==> !Marked(p[i]))
    && (IsMarked(p) ==> exists str :: Storable(str, l) && p == PathOf(str, l))
  }

  ghost predicate WellFormed(l: PieceLength, tree: set<Path>)
  {
    IsTree(tree) && forall p :: p in tree ==> Regular(l, p)
  }

  ghost predicate CallOk(l: PieceLength, s: State, c: Call)
  {
    && Storable(c.str, l) && c.result != Threw
    && match c
       case Add(str, level, seen, result) =>
         && 1 <= level <= Depth(l, c) && seen <= s.removed
         && (result == Pending && seen == s.removed ==> PathOf(str, l)[..level - 1] in s.tree)
       case Remove(_, level, result) =>
         level <= Depth(l, c) && (result == Pending <==> level == Depth(l, c))
  }

  ghost predicate Inv(l: PieceLength, s: State)
  {
    WellFormed(l, s.tree) && forall j :: 0 <= j < |s.calls| ==> CallOk(l, s, s.calls[j])
  }

  lemma PrefixRegular(l: PieceLength, str: string, k: nat)
    requires Storable(str, l) && k <= |PathOf(str, l)|
    ensures Regular(l, PathOf(str, l)[..k])
  {
    var path := PathOf(str, l);
    forall i | 0 <= i < k - 1
      ensures !Marked(path[i])
    {
      NamesOfPath(str, l, i);
    }
    if k > 0 {
      NamesOfPath(str, l, k - 1);
    }
    if k == |path| {
      assert path[..k] == path;
    }
  }

  /** The directory of a string has no directories in it. */
  lemma MarkedIsLeaf(l: PieceLength, tree: set<Path>, str: string)
    requires WellFormed(l, tree) && Storable(str, l)
    ensures !HasChild(tree, PathOf(str, l))
  {
    var p := PathOf(str, l);
    NamesOfPath(str, l, |p| - 1);
    forall q | q in tree && q != []
      ensures Parent(q) != p
    {
      assert Regular(l, q);
      if |q| == |p| + 1 {
        assert Parent(q)[|p| - 1] == q[|p| - 1];
      }
    }
  }

  lemma MakeKeepsTree(l: PieceLength, tree: set<Path>, str: string, k: nat)
    requires WellFormed(l, tree) && Storable(str, l) && 0 < k <= |PathOf(str, l)|
    ensures WellFormed(l, MakeDir(tree, PathOf(str, l)[..k]).0)
  {
    CallsKeepTree(tree, PathOf(str, l)[..k]);
    PrefixRegular(l, str, k);
  }

  lemma RemoveKeepsTree(l: PieceLength, tree: set<Path>, p: Path)
    requires WellFormed(l, tree) && p != []
    ensures WellFormed(l, RemoveDir(tree, p).0)
  {
    CallsKeepTree(tree, p);
  }

  lemma OthersKept(l: PieceLength, s: State, s': State, c: Call)
    requires CallOk(l, s, c)
    requires s'.removed > s.removed || (s'.removed == s.removed && s.tree <= s'.tree)
    ensures CallOk(l, s', c)
  {
  }

  lemma StepInv(l: PieceLength, s: State, j: nat)
    requires Inv(l, s) && CanStep(l, s, j)
    ensures Inv(l, Step(l, s, j))
  {
    var s', c := Step(l, s, j), s.calls[j];
    assert CallOk(l, s, c);
    StepTree(l, s, j);
    StepCall(l, s, j);
    forall i | 0 <= i < |s'.calls|
      ensures CallOk(l, s', s'.calls[i])
    {
      if i != j {
        OthersKept(l, s, s', s.calls[i]);
      }
    }
  }

  lemma StepTree(l: PieceLength, s: State, j: nat)
    requires CanStep(l, s, j) && WellFormed(l, s.tree) && Storable(s.calls[j].str, l)
    ensures var s' := Step(l, s, j);
      && WellFormed(l, s'.tree)
      && (s'.removed > s.removed || (s'.removed == s.removed && s.tree <= s'.tree))
  {
    var c := s.calls[j];
    if c.Add? {
      MakeKeepsTree(l, s.tree, c.str, c.level);
    } else {
      RemoveKeepsTree(l, s.tree, PathOf(c.str, l)[..c.level]);
    }
  }

  lemma StepCall(l: PieceLength, s: State, j: nat)
    requires CanStep(l, s, j) && WellFormed(l, s.tree) && CallOk(l, s, s.calls[j])
    ensures CallOk(l, Step(l, s, j), Step(l, s, j).calls[j])
  {
    var c := s.calls[j];
    var path := PathOf(c.str, l);
    if c.Add? {
      assert path[..c.level][..c.level - 1] == path[..c.level - 1];
      assert path[..0] == [];
    } else if c.level == |path| {
      assert path[..c.level] == path;
      MarkedIsLeaf(l, s.tree, c.str);
    }
  }

  /** An `add` goes back to its first directory only after some directory was removed. */
  lemma RestartsOnlyAfterRemoval(l: PieceLength, s: State, j: nat)
    requires Inv(l, s) && CanStep(l, s, j) && s.calls[j].Add?
    requires MakeDir(s.tree, PathOf(s.calls[j].str, l)[..s.calls[j].level]).1 == NoSuchFile
    ensures s.calls[j].seen < s.removed && s.calls[j].level > 1
  {
    var c := s.calls[j];
    assert CallOk(l, s, c);
    var path := PathOf(c.str, l);
    assert path[..c.level][..c.level - 1] == path[..c.level - 1];
    assert path[..0] == [];
  }

  // ---------- The tree is a set of strings ----------

  /** What iterating over the container yields. */
  ghost function Contents(tree: set<Path>): set<string> {
    set p | p in tree && IsMarked(p) :: NameOf(p)
  }

  lemma InContents(l: PieceLength, tree: set<Path>, str: string)
    requires WellFormed(l, tree) && Storable(str, l)
    ensures str in Contents(tree) <==> PathOf(str, l) in tree
  {
    if str in Contents(tree) {
      var p :| p in tree && IsMarked(p) && NameOf(p) == str;
      assert Regular(l, p);
      var other :| Storable(other, l) && p == PathOf(other, l);
      NameOfPath(other, l);
    }
    if PathOf(str, l) in tree {
      NamesOfPath(str, l, |PathOf(str, l)| - 1);
      NameOfPath(str, l);
    }
  }

  lemma ContentsStorable(l: PieceLength, tree: set<Path>, str: string)
    requires WellFormed(l, tree) && str in Contents(tree)
    ensures Storable(str, l)
  {
    var p :| p in tree && IsMarked(p) && NameOf(p) == str;
    assert Regular(l, p);
    var other :| Storable(other, l) && p == PathOf(other, l);
    NameOfPath(other, l);
  }

  /** The step in which a call takes effect. */
  ghost predicate Decides(l: PieceLength, s: State, j: nat)
    requires CanStep(l, s, j)
  {
    var c := s.calls[j];
    c.level == Depth(l, c) && (c.Add? ==> MakeDir(s.tree, PathOf(c.str, l)).1 != NoSuchFile)
  }

  /**
   * Every call takes effect in one step, as the operation on the set that it promises: `add` returns whether
   * the string was new, `remove` whether it was there.  No other step changes the set or a result.
   */
  lemma StepIsSetOperation(l: PieceLength, s: State, j: nat)
    requires Inv(l, s) && CanStep(l, s, j)
    ensures var c, s' := s.calls[j], Step(l, s, j);
      && c.result == (if Decides(l, s, j) then Pending else s'.calls[j].result)
      && (Decides(l, s, j) && c.Add? ==>
            && Contents(s'.tree) == Contents(s.tree) + {c.str}
            && s'.calls[j].result == Returned(c.str !in Contents(s.tree)))
      && (Decides(l, s, j) && c.Remove? ==>
            && Contents(s'.tree) == Contents(s.tree) - {c.str}
            && s'.calls[j].result == Returned(c.str in Contents(s.tree)))
      && (!Decides(l, s, j) ==> Contents(s'.tree) == Contents(s.tree))
  {
    var c, s' := s.calls[j], Step(l, s, j);
    assert CallOk(l, s, c);
    var path := PathOf(c.str, l);
    StepTree(l, s, j);
    InContents(l, s.tree, c.str);
    assert path[..|path|] == path;
    MarkedIsLeaf(l, s.tree, c.str);
    forall str
      ensures str in Contents(s'.tree) <==>
              if Decides(l, s, j) && str == c.str then c.Add? else str in Contents(s.tree)
    {
      OtherStrings(l, s, j, str);
    }
  }

  lemma OtherStrings(l: PieceLength, s: State, j: nat, str: string)
    requires Inv(l, s) && CanStep(l, s, j)
    ensures str in Contents(Step(l, s, j).tree) <==>
            if Decides(l, s, j) && str == s.calls[j].str then s.calls[j].Add? else str in Contents(s.tree)
  {
    var c, s' := s.calls[j], Step(l, s, j);
    assert CallOk(l, s, c);
    StepTree(l, s, j);
    if Storable(str, l) {
      InContents(l, s.tree, str);
      InContents(l, s'.tree, str);
      StepPath(l, s, j, str);
    } else {
      if str in Contents(s.tree) { ContentsStorable(l, s.tree, str); }
      if str in Contents(s'.tree) { ContentsStorable(l, s'.tree, str); }
    }
  }

  lemma StepPath(l: PieceLength, s: State, j: nat, str: string)
    requires Inv(l, s) && CanStep(l, s, j) && Storable(str, l)
    ensures PathOf(str, l) in Step(l, s, j).tree <==>
            if Decides(l, s, j) && str == s.calls[j].str then s.calls[j].Add? else PathOf(str, l) in s.tree
  {
    var c := s.calls[j];
    assert CallOk(l, s, c);
    var path := PathOf(c.str, l);
    assert path[..|path|] == path;
    MarkedIsLeaf(l, s.tree, c.str);
    if path[..c.level] == PathOf(str, l) {
      NoAncestor(str, c.str, l, c.level);
    }
  }

  // ---------- Whole runs ----------

  ghost predicate IsRun(l: PieceLength, states: seq<State>, picks: seq<nat>)
  {
    && |states| == |picks| + 1
    && WellFormed(l, states[0].tree)
    && (forall j :: 0 <= j < |states[0].calls| ==> Starts(l, states[0], states[0].calls[j]))
    && forall i :: 0 <= i < |picks| ==> Follows(l, states[i], picks[i], states[i + 1])
  }

  ghost predicate Follows(l: PieceLength, s: State, j: nat, s': State)
  {
    CanStep(l, s, j) && s' == Step(l, s, j)
  }

  lemma StartInv(l: PieceLength, s: State)
    requires WellFormed(l, s.tree) && forall j :: 0 <= j < |s.calls| ==> Starts(l, s, s.calls[j])
    ensures Inv(l, s)
  {
    forall j | 0 <= j < |s.calls|
      ensures CallOk(l, s, s.calls[j])
    {
      assert Starts(l, s, s.calls[j]);
      assert PathOf(s.calls[j].str, l)[..0] == [];
    }
  }

  lemma {:induction false} RunInv(l: PieceLength, states: seq<State>, picks: seq<nat>)
    requires IsRun(l, states, picks)
    ensures Inv(l, states[|picks|]) && |states[|picks|].calls| == |states[0].calls|
    ensures forall j :: 0 <= j < |states[0].calls| ==>
              && states[|picks|].calls[j].Add? == states[0].calls[j].Add?
              && states[|picks|].calls[j].str == states[0].calls[j].str
    decreases |picks|
  {
    var n := |picks|;
    if n == 0 {
      StartInv(l, states[0]);
    } else {
      RunInv(l, states[..n], picks[..n - 1]);
      assert Follows(l, states[n - 1], picks[n - 1], states[n]);
      StepInv(l, states[n - 1], picks[n - 1]);
    }
  }

  ghost function AddWins(str: string): Call -> nat {
    (c: Call) => if c.Add? && c.str == str && c.result == Returned(true) then 1 else 0
  }

  ghost function RemoveWins(str: string): Call -> nat {
    (c: Call) => if c.Remove? && c.str == str && c.result == Returned(true) then 1 else 0
  }

  ghost function Present(str: string, s: State): nat {
    if str in Contents(s.tree) then 1 else 0
  }

  lemma StepBalance(l: PieceLength, s: State, j: nat, str: string)
    requires Inv(l, s) && CanStep(l, s, j)
    ensures var s' := Step(l, s, j);
      (Present(str, s') + Sum(RemoveWins(str), s'.calls) + Sum(AddWins(str), s.calls)
       == Present(str, s) + Sum(AddWins(str), s'.calls) + Sum(RemoveWins(str), s.calls))
  {
    var s' := Step(l, s, j);
    StepIsSetOperation(l, s, j);
    SumUpdate(AddWins(str), s.calls, j, s'.calls[j]);
    SumUpdate(RemoveWins(str), s.calls, j, s'.calls[j]);
  }

  lemma {:induction false} NothingWon(l: PieceLength, s: State, calls: seq<Call>, str: string)
    requires forall j :: 0 <= j < |calls| ==> Starts(l, s, calls[j])
    ensures Sum(AddWins(str), calls) == 0 == Sum(RemoveWins(str), calls)
    decreases |calls|
  {
    if calls != [] {
      assert Starts(l, s, calls[0]);
      forall j | 0 <= j < |calls[1..]|
        ensures Starts(l, s, calls[1..][j])
      {
        assert calls[1..][j] == calls[j + 1];
      }
      NothingWon(l, s, calls[1..], str);
    }
  }

  /**
   * Conservation: in every run, successful insertions of a string exceed successful removals by one if it came
   * to be present, and otherwise by as much as its presence changed.
   */
  lemma {:induction false} Conservation(l: PieceLength, states: seq<State>, picks: seq<nat>, str: string)
    requires IsRun(l, states, picks)
    ensures var s := states[|picks|];
      Present(str, s) + Sum(RemoveWins(str), s.calls) == Present(str, states[0]) + Sum(AddWins(str), s.calls)
    decreases |picks|
  {
    var n := |picks|;
    if n == 0 {
      NothingWon(l, states[0], states[0].calls, str);
    } else {
      Conservation(l, states[..n], picks[..n - 1], str);
      RunInv(l, states[..n], picks[..n - 1]);
      assert Follows(l, states[n - 1], picks[n - 1], states[n]);
      StepBalance(l, states[n - 1], picks[n - 1], str);
    }
  }

  ghost predicate NeverRemoved(calls: seq<Call>, str: string) {
    forall j :: 0 <= j < |calls| && calls[j].str == str ==> calls[j].Add?
  }

  ghost predicate Settled(s: State, str: string) {
    forall j :: 0 <= j < |s.calls| && s.calls[j].Add? && s.calls[j].str == str && s.calls[j].result != Pending ==>
      str in Contents(s.tree)
  }

  lemma {:induction false} RunSettled(l: PieceLength, states: seq<State>, picks: seq<nat>, str: string)
    requires IsRun(l, states, picks) && NeverRemoved(states[0].calls, str)
    ensures Settled(states[|picks|], str)
    decreases |picks|
  {
    var n := |picks|;
    if n == 0 {
      forall j | 0 <= j < |states[0].calls|
        ensures states[0].calls[j].result == Pending
      {
        assert Starts(l, states[0], states[0].calls[j]);
      }
    } else {
      RunSettled(l, states[..n], picks[..n - 1], str);
      RunInv(l, states[..n], picks[..n - 1]);
      assert Follows(l, states[n - 1], picks[n - 1], states[n]);
      StepSettled(l, states[n - 1], picks[n - 1], str);
    }
  }

  lemma StepSettled(l: PieceLength, s: State, j: nat, str: string)
    requires Inv(l, s) && CanStep(l, s, j) && Settled(s, str)
    requires s.calls[j].str == str ==> s.calls[j].Add?
    ensures Settled(Step(l, s, j), str)
  {
    StepIsSetOperation(l, s, j);
  }

  lemma {:induction false} NoRemoveWins(calls: seq<Call>, str: string)
    requires NeverRemoved(calls, str)
    ensures Sum(RemoveWins(str), calls) == 0
    decreases |calls|
  {
    if calls != [] {
      assert forall j :: 0 <= j < |calls[1..]| ==> calls[1..][j] == calls[j + 1];
      NoRemoveWins(calls[1..], str);
    }
  }

  /** Of all concurrent insertions of a new string exactly one returns true, whatever else goes on. */
  lemma ExactlyOneWinner(l: PieceLength, states: seq<State>, picks: seq<nat>, str: string, j: nat)
    requires IsRun(l, states, picks) && NeverRemoved(states[0].calls, str)
    requires str !in Contents(states[0].tree)
    requires j < |states[0].calls| && states[0].calls[j].str == str
    requires j < |states[|picks|].calls| && Done(states[|picks|].calls[j])
    ensures var s := states[|picks|];
      Sum(AddWins(str), s.calls) == 1 && str in Contents(s.tree)
  {
    var s := states[|picks|];
    RunInv(l, states, picks);
    Conservation(l, states, picks, str);
    RunSettled(l, states, picks, str);
    NoRemoveWins(s.calls, str);
  }

  // ---------- Every call returns ----------

  /** Directories a call may still try to remove. */
  ghost function RemovalsLeft(): Call -> nat {
    (c: Call) => if c.Remove? then c.level else 0
  }

  ghost function Rounds(pending: nat, removed: nat, c: Call): nat
    requires c.Add?
  {
    pending + if c.seen < removed then 1 else 0
  }

  /** Directories an `add` may still try to create: its way to the end, and one more way for every removal. */
  ghost function CreationsLeft(l: PieceLength, pending: nat, removed: nat): Call -> nat
  {
    (c: Call) =>
      if c.Add? && !Done(c) && c.level <= Depth(l, c)
      then Depth(l, c) - c.level + 1 + Depth(l, c) * Rounds(pending, removed, c)
      else 0
  }

  ghost function Work(l: PieceLength, s: State): nat
  {
    var pending := Sum(RemovalsLeft(), s.calls);
    pending + Sum(CreationsLeft(l, pending, s.removed), s.calls)
  }

  lemma {:induction false} SumAtMost<T>(f: T -> nat, g: T -> nat, s: seq<T>)
    requires forall x :: x in s ==> f(x) <= g(x)
    ensures Sum(f, s) <= Sum(g, s)
  {
    if s != [] {
      assert s == [s[0]] + s[1..];
      SumAtMost(f, g, s[1..]);
    }
  }

  lemma FewerRounds(l: PieceLength, pending: nat, removed: nat, pending': nat, removed': nat, c: Call)
    requires pending' + 1 == pending && removed <= removed' <= removed + 1
    ensures CreationsLeft(l, pending', removed')(c) <= CreationsLeft(l, pending, removed)(c)
  {
    if c.Add? {
      Monotone(Rounds(pending', removed', c), Rounds(pending, removed, c), Depth(l, c));
    }
  }

  lemma OneRoundLess(l: PieceLength, pending: nat, s: State, j: nat)
    requires Inv(l, s) && CanStep(l, s, j) && s.calls[j].Add?
    ensures CreationsLeft(l, pending, s.removed)(Step(l, s, j).calls[j])
          < CreationsLeft(l, pending, s.removed)(s.calls[j])
  {
    var c, n := s.calls[j], Depth(l, s.calls[j]);
    assert CallOk(l, s, c);
    if MakeDir(s.tree, PathOf(c.str, l)[..c.level]).1 == NoSuchFile {
      RestartsOnlyAfterRemoval(l, s, j);
      assert n * (pending + 1) == n * pending + n;
    }
  }

  /** Every step leaves less work, however the steps of the calls are interleaved. */
  lemma StepWorks(l: PieceLength, s: State, j: nat)
    requires Inv(l, s) && CanStep(l, s, j)
    ensures Work(l, Step(l, s, j)) < Work(l, s)
  {
    if s.calls[j].Add? {
      CreationWorks(l, s, j);
    } else {
      assert CallOk(l, s, s.calls[j]);
      StepCall(l, s, j);
      SumUpdate(RemovalsLeft(), s.calls, j, Step(l, s, j).calls[j]);
      RemovalWorks(l, s, j, Sum(RemovalsLeft(), s.calls), Sum(RemovalsLeft(), Step(l, s, j).calls));
    }
  }

  lemma CreationWorks(l: PieceLength, s: State, j: nat)
    requires Inv(l, s) && CanStep(l, s, j) && s.calls[j].Add?
    ensures Work(l, Step(l, s, j)) < Work(l, s)
  {
    var s', pending := Step(l, s, j), Sum(RemovalsLeft(), s.calls);
    SumUpdate(RemovalsLeft(), s.calls, j, s'.calls[j]);
    OneRoundLess(l, pending, s, j);
    SumUpdate(CreationsLeft(l, pending, s.removed), s.calls, j, s'.calls[j]);
  }

  lemma RemovalWorks(l: PieceLength, s: State, j: nat, pending: nat, pending': nat)
    requires Inv(l, s) && CanStep(l, s, j) && s.calls[j].Remove? && pending' + 1 == pending
    ensures var s' := Step(l, s, j);
      Sum(CreationsLeft(l, pending', s'.removed), s'.calls) <= Sum(CreationsLeft(l, pending, s.removed), s.calls)
  {
    var s' := Step(l, s, j);
    var f, f' := CreationsLeft(l, pending, s.removed), CreationsLeft(l, pending', s'.removed);
    forall c | c in s'.calls
      ensures f'(c) <= f(c)
    {
      FewerRounds(l, pending, s.removed, pending', s'.removed, c);
    }
    SumAtMost(f', f, s'.calls);
    SumUpdate(f, s.calls, j, s'.calls[j]);
  }

  /** No run is longer than the work of its first state, and while a call has not returned it can step. */
  lemma {:induction false} CallsReturn(l: PieceLength, states: seq<State>, picks: seq<nat>)
    requires IsRun(l, states, picks)
    ensures |picks| + Work(l, states[|picks|]) <= Work(l, states[0])
    ensures forall j :: 0 <= j < |states[|picks|].calls| ==>
              Done(states[|picks|].calls[j]) || CanStep(l, states[|picks|], j)
    decreases |picks|
  {
    var n := |picks|;
    RunInv(l, states, picks);
    UndoneCanStep(l, states[n]);
    if n > 0 {
      CallsReturn(l, states[..n], picks[..n - 1]);
      RunInv(l, states[..n], picks[..n - 1]);
      assert Follows(l, states[n - 1], picks[n - 1], states[n]);
      StepWorks(l, states[n - 1], picks[n - 1]);
    }
  }

  lemma UndoneCanStep(l: PieceLength, s: State)
    requires Inv(l, s)
    ensures forall j :: 0 <= j < |s.calls| ==> Done(s.calls[j]) || CanStep(l, s, j)
  {
    forall j | 0 <= j < |s.calls|
      ensures Done(s.calls[j]) || CanStep(l, s, j)
    {
      assert CallOk(l, s, s.calls[j]);
    }
  }
}
