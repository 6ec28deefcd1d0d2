/**
 * The storage in one directory tree (src/storage/filesystem/linear_conestorage.cpp): a cone is the directory
 * whose path spells it, and it can be fetched as long as that directory holds a mark file.  Steps are single
 * calls to the file system.  The base directory counts as present, which for an empty tree makes no
 * difference to what the storage returns.
 */
module LinearStorage {
  import opened Arithmetic
  import opened Seqs
  import opened Directories
  import Contract = StorageContract
  import Constant = ConstantStorage
  import HexCodec

  type Cone = string

  /** `pathForCone`, below the storage directory: pieces of `l` characters. */
  ghost function PathFor(cone: Cone, l: PieceLength): Path
    decreases |cone|
  {
    if cone == "" then [] else if |cone| <= l then [cone] else [cone[..l]] + PathFor(cone[l..], l)
  }

  method PathForCone(cone: Cone, l: PieceLength) returns (path: Path)
    ensures path == PathFor(cone, l)
  {
    path := [];
    var pos := 0;
    while pos < |cone|
      invariant 0 <= pos && (pos < |cone| ==> PathFor(cone, l) == path + PathFor(cone[pos..], l))
      invariant pos >= |cone| ==> PathFor(cone, l) == path
      decreases |cone| - pos
    {
      var rest := cone[pos..];
      assert if pos + l < |cone| then rest[..l] == cone[pos..pos + l] && rest[l..] == cone[pos + l..]
             else cone[pos..Min(pos + l, |cone|)] == rest;
      path := path + [cone[pos..Min(pos + l, |cone|)]];
      pos := pos + l;
    }
  }

  lemma {:induction false} JoinedPathFor(cone: Cone, l: PieceLength)
    ensures Joined(PathFor(cone, l)) == cone
    decreases |cone|
  {
    if |cone| > l {
      JoinedPathFor(cone[l..], l);
      assert cone == cone[..l] + cone[l..];
    } else if cone != "" {
      assert Joined([cone]) == cone + Joined([]);
    }
  }

  /** All pieces but the last have the full length, and the last has at most that and is not empty. */
  lemma {:induction false} PieceLengths(cone: Cone, l: PieceLength, i: nat)
    requires i < |PathFor(cone, l)|
    ensures var p := PathFor(cone, l);
      if i + 1 < |p| then |p[i]| == l else 0 < |p[i]| <= l
    decreases |cone|
  {
    if |cone| > l && i > 0 {
      PieceLengths(cone[l..], l, i - 1);
    }
  }

  lemma {:induction false} PieceHasNoSlash(cone: Cone, l: PieceLength, i: nat)
    requires '/' !in cone && i < |PathFor(cone, l)|
    ensures '/' !in PathFor(cone, l)[i]
    decreases |cone|
  {
    if |cone| > l && i > 0 {
      PieceHasNoSlash(cone[l..], l, i - 1);
    }
  }

  method GetCone(base: string, pathString: string) returns (cone: Cone)
    requires |base| <= |pathString|
    ensures cone == WithoutSlashes(pathString[|base|..])
  {
    cone := EraseSlashes(pathString[|base|..]);
  }

  /** `getCone` on the text of a cone's path gives the cone back. */
  lemma GetConeOfPath(base: string, cone: Cone, l: PieceLength)
    requires '/' !in cone
    ensures var text := base + Rendered(PathFor(cone, l));
      WithoutSlashes(text[|base|..]) == cone
  {
    var p := PathFor(cone, l);
    forall i | 0 <= i < |p|
      ensures '/' !in p[i]
    {
      PieceHasNoSlash(cone, l, i);
    }
    RenderedJoined(p);
    JoinedPathFor(cone, l);
    assert (base + Rendered(p))[|base|..] == Rendered(p);
  }

  // ---------- Which cones can live together ----------

  ghost predicate Below(p: Path, q: Path) {
    |p| < |q| && q[..|p|] == p
  }

  /** The directory of one cone lies below that of another: the other is a prefix that fills whole pieces. */
  lemma {:induction false} BelowIffPrefix(c: Cone, d: Cone, l: PieceLength)
    ensures Below(PathFor(c, l), PathFor(d, l)) <==> |c| < |d| && d[..|c|] == c && |c| % l == 0
    decreases |c|
  {
    if c == "" {
      assert PathFor(d, l)[..0] == [] && d[..0] == "";
      assert |PathFor(d, l)| > 0 <==> d != "";
    } else if |c| <= l {
      ShortIsPrefix(c, d, l);
    } else if |d| <= l {
      assert |PathFor(d, l)| <= 1 && |PathFor(c, l)| >= 1;
    } else {
      LongIsPrefix(c, d, l);
      BelowIffPrefix(c[l..], d[l..], l);
    }
  }

  lemma LongIsPrefix(c: Cone, d: Cone, l: PieceLength)
    requires 0 < l < |c| && l < |d|
    ensures Below(PathFor(c, l), PathFor(d, l)) <==>
            c[..l] == d[..l] && Below(PathFor(c[l..], l), PathFor(d[l..], l))
    ensures |c| < |d| && d[..|c|] == c && |c| % l == 0 <==>
            c[..l] == d[..l] && |c[l..]| < |d[l..]| && d[l..][..|c[l..]|] == c[l..] && |c[l..]| % l == 0
  {
    LongIsBelow(c, d, l);
    PrefixSplit(c, d, l);
    ModLess(|c|, l);
    assert |c[l..]| == |c| - l;
  }

  lemma LongIsBelow(c: Cone, d: Cone, l: PieceLength)
    requires 0 < l < |c| && l < |d|
    ensures Below(PathFor(c, l), PathFor(d, l)) <==>
            c[..l] == d[..l] && Below(PathFor(c[l..], l), PathFor(d[l..], l))
  {
    BelowPrepend(c[..l], d[..l], PathFor(c[l..], l), PathFor(d[l..], l));
  }

  lemma ModLess(n: nat, l: PieceLength)
    requires 0 < l <= n
    ensures n % l == (n - l) % l
  {
    DivisionParts(n - l, l);
    DivisionParts(n, l);
    SameRemainder(l, (n - l) / l, (n - l) % l, n / l, n % l);
  }

  lemma SameRemainder(l: PieceLength, a: int, r: int, q: int, t: int)
    requires 0 <= r < l && 0 <= t < l && l * q + t == l * a + r + l
    ensures r == t
  {
    assert l * (a + 1) == l * a + l;
    if t >= r {
      QuotientUnique(a + 1, l, q, t - r);
    } else {
      QuotientUnique(q, l, a + 1, r - t);
    }
  }

  lemma BelowPrepend(x: string, y: string, p: Path, q: Path)
    ensures Below([x] + p, [y] + q) <==> x == y && Below(p, q)
  {
    if |p| < |q| {
      assert ([y] + q)[..|p| + 1] == [y] + q[..|p|];
      assert ([x] + p)[1..] == p && ([y] + q[..|p|])[1..] == q[..|p|];
      assert ([x] + p)[0] == x;
    }
  }

  lemma PrefixSplit(c: Cone, d: Cone, l: PieceLength)
    requires l <= |c| && l <= |d|
    ensures |c| < |d| && d[..|c|] == c <==> c[..l] == d[..l] && |c[l..]| < |d[l..]| && d[l..][..|c[l..]|] == c[l..]
  {
    if |c| < |d| {
      assert d[..|c|] == d[..l] + d[l..|c|] && d[l..][..|c[l..]|] == d[l..|c|];
      assert c == c[..l] + c[l..];
      assert d[..|c|][..l] == d[..l] && d[..|c|][l..] == d[l..|c|];
    }
  }

  lemma ShortIsPrefix(c: Cone, d: Cone, l: PieceLength)
    requires 0 < |c| <= l
    ensures Below(PathFor(c, l), PathFor(d, l)) <==> |c| < |d| && d[..|c|] == c && |c| % l == 0
  {
    assert PathFor(c, l) == [c];
    if |d| > l {
      assert PathFor(d, l)[..1] == [d[..l]] && |PathFor(d, l)| >= 2;
      assert Below(PathFor(c, l), PathFor(d, l)) <==> d[..l] == c;
    }
    SmallModulo(|c|, l);
  }

  lemma SmallModulo(n: nat, l: PieceLength)
    requires 0 < n <= l
    ensures n % l == 0 <==> n == l
  {
  }

  /** None is empty, and none has a piece that the file system would not take for a plain name. */
  ghost predicate AllOrdinary(u: set<Cone>, l: PieceLength) {
    "" !in u && forall c :: c in u ==> OrdinaryPath(PathFor(c, l))
  }

  lemma {:induction false} PlainIsOrdinary(c: Cone, l: PieceLength)
    requires '/' !in c && '.' !in c
    ensures OrdinaryPath(PathFor(c, l))
    decreases |c|
  {
    if |c| > l {
      PlainIsOrdinary(c[l..], l);
      assert c[0] in c[..l] && c[0] != '.';
      PrependOrdinary(c[..l], PathFor(c[l..], l));
    } else if c != "" {
      assert c[0] != '.';
    }
  }

  /** The storage works for these cones: their names are ordinary, no directory lies below that of another. */
  ghost predicate Compatible(u: set<Cone>, l: PieceLength)
  {
    && AllOrdinary(u, l)
    && forall c, d :: c in u && d in u ==> !Below(PathFor(c, l), PathFor(d, l))
  }

  /** Cones of equal length are compatible, if their names are ordinary. */
  lemma EqualLengthCompatible(u: set<Cone>, l: PieceLength, length: nat)
    requires AllOrdinary(u, l) && forall c :: c in u ==> |c| == length
    ensures Compatible(u, l)
  {
    forall c, d | c in u && d in u
      ensures !Below(PathFor(c, l), PathFor(d, l))
    {
      BelowIffPrefix(c, d, l);
    }
  }

  ghost predicate IsName(c: Cone, maxValue: nat) {
    exists list :: Ascending(list) && c == HexCodec.Encoded(list, HexCodec.Blocks(maxValue))
  }

  /** The names the codec gives cones over the same orbit cones are compatible. */
  lemma NamesCompatible(u: set<Cone>, l: PieceLength, maxValue: nat)
    requires maxValue > 0 && forall c :: c in u ==> IsName(c, maxValue)
    ensures Compatible(u, l)
  {
    forall c | c in u
      ensures |c| == HexCodec.Blocks(maxValue) && OrdinaryPath(PathFor(c, l))
    {
      assert IsName(c, maxValue);
      var list :| Ascending(list) && c == HexCodec.Encoded(list, HexCodec.Blocks(maxValue));
      HexCodec.EncodedShape(list, HexCodec.Blocks(maxValue));
      HexIsPlain(c);
      PlainIsOrdinary(c, l);
    }
    EqualLengthCompatible(u, l, HexCodec.Blocks(maxValue));
  }

  lemma HexIsPlain(c: Cone)
    requires HexCodec.IsHex(c)
    ensures '/' !in c && '.' !in c
  {
  }

  lemma AncestorExample()
    ensures Below(PathFor("a", 1), PathFor("ab", 1)) && !Compatible({"a", "ab"}, 1)
  {
    BelowIffPrefix("a", "ab", 1);
    assert "a" in {"a", "ab"} && "ab" in {"a", "ab"};
  }

  // ---------- Steps ----------

  /** A call of addMarkedCone before its decisive step: the length of the path it creates next. */
  datatype Adding = Adding(cone: Cone, level: nat)

  datatype Unmarking = Unmarking(
    size: int, start: set<Path>, markFiles: seq<Path>, cones: seq<Cone>, removing: bool, removed: nat)

  datatype State = State(
    dirs: set<Path>,
    marks: set<Path>,            // directories with a mark file
    adding: seq<Adding>,
    claimed: multiset<Cone>,     // directory created, mark file not yet
    taken: set<Cone>,            // history: collected by some unmarking call
    call: Option<Unmarking>)

  datatype Event =
    | StartAdding(cone: Cone)
    | MakeParent(call: nat)
    | MakeOwn(call: nat)         // the arbiter
    | Touch(cone: Cone)
    | StartUnmarking(size: int)
    | Collect(dir: Path)
    | StopCollecting
    | RemoveNext
    | Return

  ghost predicate Enabled(l: PieceLength, s: State, e: Event)
  {
    match e
    case StartAdding(_) => true
    case MakeParent(i) => i < |s.adding| && 0 < s.adding[i].level < |PathFor(s.adding[i].cone, l)|
    case MakeOwn(i) =>
      i < |s.adding| && s.adding[i].level == |PathFor(s.adding[i].cone, l)| && PathFor(s.adding[i].cone, l) != []
    case Touch(c) => c in s.claimed
    case StartUnmarking(_) => s.call == None
    case Collect(p) =>
      && s.call.Some? && !s.call.value.removing
      && |s.call.value.markFiles| < s.call.value.size && p in s.marks && p !in s.call.value.markFiles
    case StopCollecting =>
      && s.call.Some? && !s.call.value.removing
      && (|s.call.value.markFiles| >= s.call.value.size
          || forall p :: p in s.call.value.start ==> p in s.call.value.markFiles)
    case RemoveNext =>
      s.call.Some? && s.call.value.removing && s.call.value.removed < |s.call.value.markFiles|
    case Return =>
      s.call.Some? && s.call.value.removing && s.call.value.removed == |s.call.value.markFiles|
  }

  /** An event that is not enabled changes nothing. */
  ghost function Fire(l: PieceLength, s: State, e: Event): State {
    if !Enabled(l, s, e) then s
    else match e
    case StartAdding(c) => s.(adding := s.adding + [Adding(c, 1)])
    case MakeParent(i) =>
      var a := s.adding[i];
      s.(dirs := MakeDir(s.dirs, PathFor(a.cone, l)[..a.level]).0, adding := s.adding[i := a.(level := a.level + 1)])
    case MakeOwn(i) =>
      var c := s.adding[i].cone;
      var (dirs, made) := MakeDir(s.dirs, PathFor(c, l));
      s.(dirs := dirs, adding := RemoveAt(s.adding, i),
         claimed := if made == Created then s.claimed + multiset{c} else s.claimed)
    case Touch(c) => s.(claimed := s.claimed - multiset{c}, marks := s.marks + {PathFor(c, l)})
    case StartUnmarking(n) => s.(call := Some(Unmarking(n, s.marks, [], [], false, 0)))
    case Collect(p) =>
      var u := s.call.value;
      s.(taken := s.taken + {Joined(p)},
         call := Some(u.(markFiles := u.markFiles + [p], cones := u.cones + [Joined(p)])))
    case StopCollecting => s.(call := Some(s.call.value.(removing := true)))
    case RemoveNext =>
      var u := s.call.value;
      s.(marks := s.marks - {u.markFiles[u.removed]}, call := Some(u.(removed := u.removed + 1)))
    case Return => s.(call := None)
  }

  ghost function Empty(): State {
    State({[]}, {}, [], multiset{}, {}, None)
  }

  // ---------- The storage in two sets, seen in the tree ----------

  ghost function ConesAt(u: set<Cone>, l: PieceLength, paths: set<Path>): set<Cone>
  {
    set c | c in u && PathFor(c, l) in paths
  }

  /** For the cones `u` that are ever added, the directories are the set `_all` and the mark files `_marked`. */
  ghost function View(u: set<Cone>, l: PieceLength, s: State): Constant.State<Cone>
  {
    Constant.State(
      ConesAt(u, l, s.dirs), ConesAt(u, l, s.marks), s.claimed, s.taken,
      if s.call == None then None
      else var a := s.call.value;
        Some(Constant.Unmarking(a.size, ConesAt(u, l, a.start), a.cones, a.removing, a.removed)),
      false)
  }

  ghost function EventOf(s: State, e: Event): Option<Constant.Event<Cone>> {
    match e
    case StartAdding(_) => None
    case MakeParent(_) => None
    case MakeOwn(i) => if i < |s.adding| then Some(Constant.AddToAll(s.adding[i].cone)) else None
    case Touch(c) => Some(Constant.AddToMarked(c))
    case StartUnmarking(n) => Some(Constant.StartUnmarking(n))
    case Collect(p) => Some(Constant.Collect(Joined(p)))
    case StopCollecting => Some(Constant.StopCollecting)
    case RemoveNext => Some(Constant.RemoveNext)
    case Return => Some(Constant.Return)
  }

  ghost predicate AddingOk(u: set<Cone>, l: PieceLength, dirs: set<Path>, a: Adding)
  {
    && a.cone in u && 0 < a.level <= |PathFor(a.cone, l)|
    && PathFor(a.cone, l)[..a.level - 1] in dirs
  }

  /** Only paths of known cones. */
  ghost predicate Known(u: set<Cone>, l: PieceLength, paths: set<Path>)
  {
    forall p :: p in paths ==> IsPathOf(u, l, p)
  }

  ghost predicate IsPathOf(u: set<Cone>, l: PieceLength, p: Path)
  {
    Joined(p) in u && PathFor(Joined(p), l) == p
  }

  ghost predicate CallOk(u: set<Cone>, l: PieceLength, a: Unmarking)
  {
    && |a.cones| == |a.markFiles| && Known(u, l, a.start)
    && forall i :: 0 <= i < |a.cones| ==> a.cones[i] == Joined(a.markFiles[i]) && IsPathOf(u, l, a.markFiles[i])
  }

  ghost predicate Inv(u: set<Cone>, l: PieceLength, s: State)
  {
    && Compatible(u, l) && IsTree(s.dirs) && Known(u, l, s.marks)
    && (forall i :: 0 <= i < |s.adding| ==> AddingOk(u, l, s.dirs, s.adding[i]))
    && (forall c :: c in s.claimed ==> c in u)
    && (s.call.Some? ==> CallOk(u, l, s.call.value))
  }

  /** Only cones of `u` are added. */
  ghost predicate AddsOnly(u: set<Cone>, e: Event) {
    e.StartAdding? ==> e.cone in u
  }

  lemma PathForInjective(c: Cone, d: Cone, l: PieceLength)
    requires PathFor(c, l) == PathFor(d, l)
    ensures c == d
  {
    JoinedPathFor(c, l);
    JoinedPathFor(d, l);
  }

  lemma ConesAtAdd(u: set<Cone>, l: PieceLength, paths: set<Path>, c: Cone)
    requires c in u
    ensures ConesAt(u, l, paths + {PathFor(c, l)}) == ConesAt(u, l, paths) + {c}
    ensures ConesAt(u, l, paths - {PathFor(c, l)}) == ConesAt(u, l, paths) - {c}
  {
    forall d | d in u
      ensures PathFor(d, l) == PathFor(c, l) <==> d == c
    {
      if PathFor(d, l) == PathFor(c, l) {
        PathForInjective(c, d, l);
      }
    }
  }

  /** A directory strictly above a cone's is no cone's. */
  lemma ParentIsNoCone(u: set<Cone>, l: PieceLength, c: Cone, k: nat, dirs: set<Path>)
    requires Compatible(u, l) && c in u && k < |PathFor(c, l)|
    ensures ConesAt(u, l, dirs + {PathFor(c, l)[..k]}) == ConesAt(u, l, dirs)
  {
    forall d | d in u
      ensures PathFor(d, l) != PathFor(c, l)[..k]
    {
      assert !Below(PathFor(d, l), PathFor(c, l));
    }
  }

  /** While a cone is being added, the parent of the next directory exists: no call fails. */
  lemma ParentExists(u: set<Cone>, l: PieceLength, s: State, i: nat)
    requires Inv(u, l, s) && i < |s.adding|
    ensures 0 < s.adding[i].level <= |PathFor(s.adding[i].cone, l)|
    ensures var a := s.adding[i]; MakeDir(s.dirs, PathFor(a.cone, l)[..a.level]).1 != NoSuchFile
  {
    var a := s.adding[i];
    assert AddingOk(u, l, s.dirs, a);
    assert PathFor(a.cone, l)[..a.level][..a.level - 1] == PathFor(a.cone, l)[..a.level - 1];
  }

  lemma StepInv(u: set<Cone>, l: PieceLength, s: State, e: Event)
    requires Inv(u, l, s) && Enabled(l, s, e) && AddsOnly(u, e)
    ensures Inv(u, l, Fire(l, s, e))
  {
    match e
    case StartAdding(c) => StartInv(u, l, s, e);
    case MakeParent(i) => ParentInv(u, l, s, e);
    case MakeOwn(i) => OwnInv(u, l, s, e);
    case Touch(c) => JoinedPathFor(c, l);
    case StartUnmarking(_) =>
    case Collect(_) =>
    case StopCollecting =>
    case RemoveNext =>
    case Return =>
  }

  lemma StartInv(u: set<Cone>, l: PieceLength, s: State, e: Event)
    requires Inv(u, l, s) && Enabled(l, s, e) && AddsOnly(u, e) && e.StartAdding?
    ensures Inv(u, l, Fire(l, s, e))
  {
    assert PathFor(e.cone, l) != [] && PathFor(e.cone, l)[..0] == [];
  }

  lemma ParentInv(u: set<Cone>, l: PieceLength, s: State, e: Event)
    requires Inv(u, l, s) && Enabled(l, s, e) && e.MakeParent?
    ensures Inv(u, l, Fire(l, s, e))
  {
    var a := s.adding[e.call];
    ParentExists(u, l, s, e.call);
    CallsKeepTree(s.dirs, PathFor(a.cone, l)[..a.level]);
    assert AddingOk(u, l, s.dirs, a);
  }

  lemma OwnInv(u: set<Cone>, l: PieceLength, s: State, e: Event)
    requires Inv(u, l, s) && Enabled(l, s, e) && e.MakeOwn?
    ensures Inv(u, l, Fire(l, s, e))
  {
    CallsKeepTree(s.dirs, PathFor(s.adding[e.call].cone, l));
    assert AddingOk(u, l, s.dirs, s.adding[e.call]);
    OthersStillAdding(u, l, s, Fire(l, s, e), e.call);
  }

  lemma OthersStillAdding(u: set<Cone>, l: PieceLength, s: State, s': State, i: nat)
    requires i < |s.adding| && s.dirs <= s'.dirs && s'.adding == RemoveAt(s.adding, i)
    requires forall j :: 0 <= j < |s.adding| ==> AddingOk(u, l, s.dirs, s.adding[j])
    ensures forall j :: 0 <= j < |s'.adding| ==> AddingOk(u, l, s'.dirs, s'.adding[j])
  {
    forall j | 0 <= j < |s'.adding|
      ensures AddingOk(u, l, s'.dirs, s'.adding[j])
    {
      var k := if j < i then j else j + 1;
      assert s'.adding[j] == s.adding[k] && AddingOk(u, l, s.dirs, s.adding[k]);
    }
  }

  /**
   * Every step is one step of the storage in two sets, or does not show there; the directory that decides is
   * created exactly when the cone was not in `_all`.
   */
  lemma StepRefines(u: set<Cone>, l: PieceLength, s: State, e: Event)
    requires Inv(u, l, s) && Constant.Inv(View(u, l, s)) && Enabled(l, s, e) && AddsOnly(u, e)
    ensures var v, v' := View(u, l, s), View(u, l, Fire(l, s, e));
      if EventOf(s, e) == None then v' == v else Constant.Follows(v, EventOf(s, e).value, v')
  {
    match e
    case StartAdding(_) =>
    case MakeParent(i) => ParentRefines(u, l, s, e);
    case MakeOwn(i) => OwnRefines(u, l, s, e);
    case Touch(c) =>
      ConesAtAdd(u, l, s.marks, c);
      Constant.ClaimedNotMarked(View(u, l, s), c);
    case StartUnmarking(_) =>
    case Collect(p) => CollectRefines(u, l, s, e);
    case StopCollecting => StopRefines(u, l, s, e);
    case RemoveNext => RemoveRefines(u, l, s, e);
    case Return =>
  }

  lemma ParentRefines(u: set<Cone>, l: PieceLength, s: State, e: Event)
    requires Inv(u, l, s) && Enabled(l, s, e) && e.MakeParent?
    ensures View(u, l, Fire(l, s, e)) == View(u, l, s)
  {
    var a := s.adding[e.call];
    assert AddingOk(u, l, s.dirs, a);
    ParentExists(u, l, s, e.call);
    ParentIsNoCone(u, l, a.cone, a.level, s.dirs);
  }

  lemma OwnRefines(u: set<Cone>, l: PieceLength, s: State, e: Event)
    requires Inv(u, l, s) && Enabled(l, s, e) && e.MakeOwn?
    ensures Constant.Follows(View(u, l, s), Constant.AddToAll(s.adding[e.call].cone), View(u, l, Fire(l, s, e)))
  {
    var a := s.adding[e.call];
    assert AddingOk(u, l, s.dirs, a);
    ParentExists(u, l, s, e.call);
    assert PathFor(a.cone, l)[..a.level] == PathFor(a.cone, l);
    ConesAtAdd(u, l, s.dirs, a.cone);
  }

  lemma CollectRefines(u: set<Cone>, l: PieceLength, s: State, e: Event)
    requires Inv(u, l, s) && Enabled(l, s, e) && e.Collect?
    ensures Constant.Follows(View(u, l, s), Constant.Collect(Joined(e.dir)), View(u, l, Fire(l, s, e)))
  {
    var a := s.call.value;
    assert IsPathOf(u, l, e.dir);
    forall i | 0 <= i < |a.cones|
      ensures a.cones[i] != Joined(e.dir)
    {
      assert IsPathOf(u, l, a.markFiles[i]);
    }
  }

  lemma StopRefines(u: set<Cone>, l: PieceLength, s: State, e: Event)
    requires Inv(u, l, s) && Enabled(l, s, e) && e.StopCollecting?
    ensures Constant.Follows(View(u, l, s), Constant.StopCollecting, View(u, l, Fire(l, s, e)))
  {
    var a := s.call.value;
    if |a.cones| < a.size {
      forall c | c in ConesAt(u, l, a.start)
        ensures c in a.cones
      {
        var i :| 0 <= i < |a.markFiles| && a.markFiles[i] == PathFor(c, l);
        JoinedPathFor(c, l);
        assert a.cones[i] == c;
      }
    }
  }

  lemma RemoveRefines(u: set<Cone>, l: PieceLength, s: State, e: Event)
    requires Inv(u, l, s) && Enabled(l, s, e) && e.RemoveNext?
    ensures Constant.Follows(View(u, l, s), Constant.RemoveNext, View(u, l, Fire(l, s, e)))
  {
    var c, p := s.call.value.cones[s.call.value.removed], s.call.value.markFiles[s.call.value.removed];
    assert IsPathOf(u, l, p) && c == Joined(p);
    ConesAtAdd(u, l, s.marks, c);
    assert ConesAt(u, l, s.marks - {p}) == ConesAt(u, l, s.marks) - {c};
  }

  // ---------- Whole runs ----------

  ghost predicate Follows(l: PieceLength, s: State, e: Event, s': State)
  {
    Enabled(l, s, e) && s' == Fire(l, s, e)
  }

  ghost predicate IsRun(u: set<Cone>, l: PieceLength, states: seq<State>, events: seq<Event>)
  {
    && |states| == |events| + 1 && states[0] == Empty()
    && forall i :: 0 <= i < |events| ==> AddsOnly(u, events[i]) && Follows(l, states[i], events[i], states[i + 1])
  }

  /** Every run that adds compatible cones only is a run of the storage in two sets, hence of the contract. */
  lemma {:induction false} RunRefines(u: set<Cone>, l: PieceLength, states: seq<State>, events: seq<Event>)
      returns (views: seq<Constant.State<Cone>>, steps: seq<Constant.Event<Cone>>)
    requires Compatible(u, l) && IsRun(u, l, states, events)
    ensures Inv(u, l, states[|events|])
    ensures Constant.IsRun(views, steps) && views[|steps|] == View(u, l, states[|events|])
    decreases |events|
  {
    var n := |events|;
    if n == 0 {
      views, steps := [Constant.Empty()], [];
      EmptyView(u, l);
    } else {
      views, steps := RunRefines(u, l, states[..n], events[..n - 1]);
      var s, e := states[n - 1], events[n - 1];
      assert AddsOnly(u, e) && Follows(l, s, e, states[n]);
      var stores, actions := Constant.RunRefines(views, steps);
      StepRefines(u, l, s, e);
      StepInv(u, l, s, e);
      if EventOf(s, e).Some? {
        Constant.Extend(views, steps, EventOf(s, e).value, View(u, l, states[n]));
        views, steps := views + [View(u, l, states[n])], steps + [EventOf(s, e).value];
      }
    }
  }

  lemma EmptyView(u: set<Cone>, l: PieceLength)
    requires Compatible(u, l)
    ensures Inv(u, l, Empty()) && View(u, l, Empty()) == Constant.Empty()
  {
    forall c | c in u
      ensures PathFor(c, l) != []
    {
    }
  }

  // ---------- Exactly these cones can be stored ----------

  /** Cones accepted so far: waiting for their mark file, marked, or fetched. */
  ghost predicate AcceptedBefore(l: PieceLength, s: State, c: Cone)
  {
    c in s.claimed || PathFor(c, l) in s.marks || c in s.taken
  }

  /** A cone whose directory exists, so that adding it is refused, was accepted before. */
  ghost predicate RefusesOnlyOld(u: set<Cone>, l: PieceLength, s: State)
  {
    forall c :: c in u && PathFor(c, l) in s.dirs ==> AcceptedBefore(l, s, c)
  }

  lemma CompatibleRefusesOnlyOld(u: set<Cone>, l: PieceLength, states: seq<State>, events: seq<Event>)
    requires Compatible(u, l) && IsRun(u, l, states, events)
    ensures RefusesOnlyOld(u, l, states[|events|])
  {
    var s := states[|events|];
    var views, steps := RunRefines(u, l, states, events);
    var stores, actions := Constant.RunRefines(views, steps);
    forall c | c in u && PathFor(c, l) in s.dirs
      ensures AcceptedBefore(l, s, c)
    {
      Contract.InvSets(Constant.View(View(u, l, s)), c);
    }
  }

  /** A run is continued until a cone is being added and `k - 1` of its directories exist. */
  lemma {:induction false} ParentsRun(
      u: set<Cone>, l: PieceLength, before: seq<State>, steps: seq<Event>, d: Cone, k: nat)
      returns (states: seq<State>, events: seq<Event>)
    requires IsRun(u, l, before, steps) && before[|steps|].adding == [] && IsTree(before[|steps|].dirs)
    requires d in u && 1 <= k <= |PathFor(d, l)|
    ensures IsRun(u, l, states, events) && BeingAdded(l, before[|steps|], states[|events|], d, k)
    decreases k
  {
    if k == 1 {
      var s, e := before[|steps|], StartAdding(d);
      Extend(u, l, before, steps, e);
      states, events := before + [Fire(l, s, e)], steps + [e];
      assert PathFor(d, l)[..0] == [];
    } else {
      states, events := ParentsRun(u, l, before, steps, d, k - 1);
      var s, e := states[|events|], MakeParent(0);
      OneMoreParent(l, before[|steps|], s, d, k - 1);
      Extend(u, l, states, events, e);
      states, events := states + [Fire(l, s, e)], events + [e];
    }
  }

  /** Only `d` is being added since `s0`, and the next of its directories to be created has length `k`. */
  ghost predicate BeingAdded(l: PieceLength, s0: State, s: State, d: Cone, k: nat) {
    && s == s0.(dirs := s.dirs, adding := [Adding(d, k)]) && IsTree(s.dirs)
    && 1 <= k <= |PathFor(d, l)| && PathFor(d, l)[..k - 1] in s.dirs
    && forall p :: p in s.dirs && p !in s0.dirs ==> |p| < k
  }

  lemma OneMoreParent(l: PieceLength, s0: State, s: State, d: Cone, k: nat)
    requires BeingAdded(l, s0, s, d, k) && k < |PathFor(d, l)|
    ensures BeingAdded(l, s0, Fire(l, s, MakeParent(0)), d, k + 1)
  {
    var p := PathFor(d, l)[..k];
    assert p[..k - 1] == PathFor(d, l)[..k - 1];
    CallsKeepTree(s.dirs, p);
  }

  lemma Extend(u: set<Cone>, l: PieceLength, states: seq<State>, events: seq<Event>, e: Event)
    requires IsRun(u, l, states, events) && Enabled(l, states[|events|], e) && AddsOnly(u, e)
    ensures IsRun(u, l, states + [Fire(l, states[|events|], e)], events + [e])
  {
    var all, allEvents := states + [Fire(l, states[|events|], e)], events + [e];
    forall i | 0 <= i < |allEvents|
      ensures AddsOnly(u, allEvents[i]) && Follows(l, all[i], allEvents[i], all[i + 1])
    {
      if i < |events| {
        assert AddsOnly(u, events[i]) && Follows(l, states[i], events[i], states[i + 1]);
      }
    }
  }

  lemma IncompatibleRefusesNew(u: set<Cone>, l: PieceLength, c: Cone, d: Cone)
      returns (states: seq<State>, events: seq<Event>)
    requires c in u && d in u && Below(PathFor(c, l), PathFor(d, l))
    ensures IsRun(u, l, states, events) && !RefusesOnlyOld(u, l, states[|events|])
  {
    states, events := ParentsRun(u, l, [Empty()], [], d, |PathFor(c, l)| + 1);
    assert !AcceptedBefore(l, states[|events|], c);
  }

  /** No run refuses a new cone if and only if the cones are compatible. */
  lemma CompatibleIff(u: set<Cone>, l: PieceLength)
    requires AllOrdinary(u, l)
    ensures Compatible(u, l) <==>
            forall states, events :: IsRun(u, l, states, events) ==> RefusesOnlyOld(u, l, states[|events|])
  {
    if Compatible(u, l) {
      forall states, events | IsRun(u, l, states, events)
        ensures RefusesOnlyOld(u, l, states[|events|])
      {
        CompatibleRefusesOnlyOld(u, l, states, events);
      }
    } else {
      var c, d :| c in u && d in u && Below(PathFor(c, l), PathFor(d, l));
      var states, events := IncompatibleRefusesNew(u, l, c, d);
    }
  }

  // ---------- Saving ----------

  /** Every directory leads to an accepted cone or to one that is being added. */
  ghost predicate Leads(u: set<Cone>, l: PieceLength, s: State, p: Path)
  {
    || p == []
    || (exists c :: c in u && PathFor(c, l) in s.dirs && |p| <= |PathFor(c, l)| && PathFor(c, l)[..|p|] == p)
    || (exists a :: a in s.adding && LeadsTo(l, a, p))
  }

  ghost predicate LeadsTo(l: PieceLength, a: Adding, p: Path)
  {
    |p| < a.level && a.level <= |PathFor(a.cone, l)| && PathFor(a.cone, l)[..|p|] == p
  }

  lemma StepLeads(u: set<Cone>, l: PieceLength, s: State, e: Event, p: Path)
    requires Inv(u, l, s) && Enabled(l, s, e) && AddsOnly(u, e)
    requires p in Fire(l, s, e).dirs && (p in s.dirs ==> Leads(u, l, s, p))
    ensures Leads(u, l, Fire(l, s, e), p)
  {
    if e.MakeParent? {
      ParentLeads(u, l, s, e, p);
    } else if e.MakeOwn? {
      OwnLeads(u, l, s, e, p);
    } else if e.StartAdding? {
      assert forall b :: b in s.adding ==> b in Fire(l, s, e).adding;
    }
  }

  lemma ParentLeads(u: set<Cone>, l: PieceLength, s: State, e: Event, p: Path)
    requires Inv(u, l, s) && Enabled(l, s, e) && e.MakeParent?
    requires p in Fire(l, s, e).dirs && (p in s.dirs ==> Leads(u, l, s, p))
    ensures Leads(u, l, Fire(l, s, e), p)
  {
    var s' := Fire(l, s, e);
    var a, a' := s.adding[e.call], s'.adding[e.call];
    UpdateMembers(s.adding, e.call, a');
    assert AddingOk(u, l, s.dirs, a);
    if p !in s.dirs {
      assert LeadsTo(l, a', p);
    } else if exists b :: b in s.adding && LeadsTo(l, b, p) {
      var b :| b in s.adding && LeadsTo(l, b, p);
      assert b == a ==> LeadsTo(l, a', p);
    }
  }

  lemma OwnLeads(u: set<Cone>, l: PieceLength, s: State, e: Event, p: Path)
    requires Inv(u, l, s) && Enabled(l, s, e) && e.MakeOwn?
    requires p in Fire(l, s, e).dirs && (p in s.dirs ==> Leads(u, l, s, p))
    ensures Leads(u, l, Fire(l, s, e), p)
  {
    var s' := Fire(l, s, e);
    var a := s.adding[e.call];
    RemoveAtMembers(s.adding, e.call);
    assert AddingOk(u, l, s.dirs, a);
    ParentExists(u, l, s, e.call);
    assert PathFor(a.cone, l)[..a.level] == PathFor(a.cone, l) && PathFor(a.cone, l) in s'.dirs;
  }

  lemma {:induction false} RunLeads(u: set<Cone>, l: PieceLength, states: seq<State>, events: seq<Event>)
    requires Compatible(u, l) && IsRun(u, l, states, events)
    ensures forall p :: p in states[|events|].dirs ==> Leads(u, l, states[|events|], p)
    decreases |events|
  {
    var n := |events|;
    if n > 0 {
      RunLeads(u, l, states[..n], events[..n - 1]);
      var views, steps := RunRefines(u, l, states[..n], events[..n - 1]);
      assert AddsOnly(u, events[n - 1]) && Follows(l, states[n - 1], events[n - 1], states[n]);
      forall p | p in states[n].dirs
        ensures Leads(u, l, states[n], p)
      {
        StepLeads(u, l, states[n - 1], events[n - 1], p);
      }
    }
  }

  /** The entries saved: the directory of each mark file, and each empty directory. */
  ghost predicate Saved(s: State, p: Path) {
    p in s.dirs && p != [] && (p in s.marks || !HasChild(s.dirs, p))
  }

  /**
   * When no cone is being added, saving writes every stored cone exactly once (its entry is one or the other)
   * and nothing else.
   */
  lemma SavesStored(u: set<Cone>, l: PieceLength, states: seq<State>, events: seq<Event>, p: Path)
    requires Compatible(u, l) && IsRun(u, l, states, events) && states[|events|].adding == []
    ensures var s := states[|events|];
      Saved(s, p) <==> exists c :: c in ConesAt(u, l, s.dirs) && PathFor(c, l) == p
  {
    var s := states[|events|];
    var views, steps := RunRefines(u, l, states, events);
    RunLeads(u, l, states, events);
    if Saved(s, p) {
      assert Leads(u, l, s, p);
      var c :| c in u && PathFor(c, l) in s.dirs && |p| <= |PathFor(c, l)| && PathFor(c, l)[..|p|] == p;
      SavedIsWhole(u, l, s, p, c);
    }
    if exists c :: c in ConesAt(u, l, s.dirs) && PathFor(c, l) == p {
      var c :| c in ConesAt(u, l, s.dirs) && PathFor(c, l) == p;
      assert c != "";
      forall q | q in s.dirs && q != []
        ensures Parent(q) != p
      {
        assert Leads(u, l, s, q);
        var d :| d in u && PathFor(d, l) in s.dirs && |q| <= |PathFor(d, l)| && PathFor(d, l)[..|q|] == q;
        NotAbove(u, l, c, d, q);
      }
    }
  }

  lemma SavedIsWhole(u: set<Cone>, l: PieceLength, s: State, p: Path, c: Cone)
    requires Inv(u, l, s) && Saved(s, p)
    requires c in u && PathFor(c, l) in s.dirs && |p| <= |PathFor(c, l)| && PathFor(c, l)[..|p|] == p
    ensures PathFor(c, l) == p
  {
    ShorterHasChild(s.dirs, PathFor(c, l), |p|);
    if p in s.marks {
      assert IsPathOf(u, l, p) && !Below(PathFor(Joined(p), l), PathFor(c, l));
    }
  }

  lemma ShorterHasChild(dirs: set<Path>, path: Path, k: nat)
    requires IsTree(dirs) && path in dirs && k <= |path|
    ensures k < |path| ==> HasChild(dirs, path[..k])
  {
    if k < |path| {
      PrefixIn(dirs, path, k + 1);
      assert Parent(path[..k + 1]) == path[..k];
    }
  }

  lemma NotAbove(u: set<Cone>, l: PieceLength, c: Cone, d: Cone, q: Path)
    requires Compatible(u, l) && c in u && d in u
    requires q != [] && |q| <= |PathFor(d, l)| && PathFor(d, l)[..|q|] == q
    ensures Parent(q) != PathFor(c, l)
  {
    assert PathFor(d, l)[..|q| - 1] == Parent(q);
    assert !Below(PathFor(c, l), PathFor(d, l));
  }

  /** When no cone is being added, saving writes exactly the cones accepted so far. */
  ghost predicate SavesAccepted(u: set<Cone>, l: PieceLength, s: State) {
    s.adding == [] ==> forall p :: Saved(s, p) <==> IsAccepted(u, l, s, p)
  }

  ghost predicate IsAccepted(u: set<Cone>, l: PieceLength, s: State, p: Path) {
    exists c :: c in u && AcceptedBefore(l, s, c) && PathFor(c, l) == p
  }

  lemma StoredIffAccepted(u: set<Cone>, l: PieceLength, states: seq<State>, events: seq<Event>, c: Cone)
    requires Compatible(u, l) && IsRun(u, l, states, events) && c in u
    ensures PathFor(c, l) in states[|events|].dirs <==> AcceptedBefore(l, states[|events|], c)
  {
    var s := states[|events|];
    var views, steps := RunRefines(u, l, states, events);
    var stores, actions := Constant.RunRefines(views, steps);
    Contract.InvSets(Constant.View(View(u, l, s)), c);
  }

  lemma CompatibleSavesAccepted(u: set<Cone>, l: PieceLength, states: seq<State>, events: seq<Event>)
    requires Compatible(u, l) && IsRun(u, l, states, events)
    ensures SavesAccepted(u, l, states[|events|])
  {
    var s := states[|events|];
    if s.adding == [] {
      forall p
        ensures Saved(s, p) <==> IsAccepted(u, l, s, p)
      {
        SavesStored(u, l, states, events, p);
        forall c | c in u
          ensures c in ConesAt(u, l, s.dirs) <==> AcceptedBefore(l, s, c)
        {
          StoredIffAccepted(u, l, states, events, c);
        }
      }
    }
  }

  /** A run that adds a cone to the empty storage and marks it. */
  lemma MarkedRun(u: set<Cone>, l: PieceLength, c: Cone) returns (states: seq<State>, events: seq<Event>)
    requires c in u && c != ""
    ensures IsRun(u, l, states, events) && OnlyMarked(l, states[|events|], c)
  {
    var p := PathFor(c, l);
    states, events := ParentsRun(u, l, [Empty()], [], c, |p|);
    OwnMade(l, states[|events|], c);
    states, events := AndThen(u, l, states, events, MakeOwn(0));
    states, events := AndThen(u, l, states, events, Touch(c));
  }

  ghost predicate OnlyMarked(l: PieceLength, s: State, c: Cone) {
    s == State(s.dirs, {PathFor(c, l)}, [], multiset{}, {}, None) && IsTree(s.dirs) && PathFor(c, l) in s.dirs
  }

  lemma OwnMade(l: PieceLength, s: State, c: Cone)
    requires c != "" && BeingAdded(l, Empty(), s, c, |PathFor(c, l)|)
    ensures Enabled(l, s, MakeOwn(0))
    ensures var s' := Fire(l, s, MakeOwn(0));
      s' == State(s.dirs + {PathFor(c, l)}, {}, [], multiset{c}, {}, None) && IsTree(s'.dirs)
  {
    var p := PathFor(c, l);
    CallsKeepTree(s.dirs, p);
    assert p !in s.dirs && Parent(p) in s.dirs;
  }

  /** And then fetches it. */
  lemma FetchedRun(u: set<Cone>, l: PieceLength, c: Cone) returns (states: seq<State>, events: seq<Event>)
    requires c in u && c != ""
    ensures IsRun(u, l, states, events)
    ensures var s := states[|events|];
      s == State(s.dirs, {}, [], multiset{}, {c}, None) && IsTree(s.dirs) && PathFor(c, l) in s.dirs
  {
    states, events := MarkedRun(u, l, c);
    JoinedPathFor(c, l);
    states, events := AndThen(u, l, states, events, StartUnmarking(1));
    states, events := AndThen(u, l, states, events, Collect(PathFor(c, l)));
    states, events := AndThen(u, l, states, events, StopCollecting);
    states, events := AndThen(u, l, states, events, RemoveNext);
    states, events := AndThen(u, l, states, events, Return);
  }

  lemma AndThen(u: set<Cone>, l: PieceLength, before: seq<State>, steps: seq<Event>, e: Event)
      returns (states: seq<State>, events: seq<Event>)
    requires IsRun(u, l, before, steps) && Enabled(l, before[|steps|], e) && AddsOnly(u, e)
    ensures IsRun(u, l, states, events) && states[|events|] == Fire(l, before[|steps|], e)
  {
    Extend(u, l, before, steps, e);
    states, events := before + [Fire(l, before[|steps|], e)], steps + [e];
  }

  /** A fetched cone is lost when saving after another whose directory lies below its own. */
  lemma IncompatibleLosesFetched(u: set<Cone>, l: PieceLength, c: Cone, d: Cone)
      returns (states: seq<State>, events: seq<Event>)
    requires c in u && d in u && c != "" && Below(PathFor(c, l), PathFor(d, l))
    ensures IsRun(u, l, states, events) && !SavesAccepted(u, l, states[|events|])
  {
    states, events := FetchedRun(u, l, c);
    var p := PathFor(d, l);
    states, events := ParentsRun(u, l, states, events, d, |p|);
    CallsKeepTree(states[|events|].dirs, p);
    states, events := AndThen(u, l, states, events, MakeOwn(0));
    var s := states[|events|];
    assert p[..|p|] == p && p in s.dirs;
    ShorterHasChild(s.dirs, p, |PathFor(c, l)|);
    assert !Saved(s, PathFor(c, l)) && IsAccepted(u, l, s, PathFor(c, l));
  }

  /** No run loses an accepted cone on saving if and only if the cones are compatible. */
  lemma SavesIffCompatible(u: set<Cone>, l: PieceLength)
    requires AllOrdinary(u, l)
    ensures Compatible(u, l) <==>
            forall states, events :: IsRun(u, l, states, events) ==> SavesAccepted(u, l, states[|events|])
  {
    if Compatible(u, l) {
      forall states, events | IsRun(u, l, states, events)
        ensures SavesAccepted(u, l, states[|events|])
      {
        CompatibleSavesAccepted(u, l, states, events);
      }
    } else {
      var c, d :| c in u && d in u && Below(PathFor(c, l), PathFor(d, l));
      var states, events := IncompatibleLosesFetched(u, l, c, d);
    }
  }
}
