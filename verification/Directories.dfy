/** A tree of directories below a base directory, and the two calls that change it, each one atomic step. */
module Directories {

  /** The names from the base directory downwards; the base itself is the empty path. */
  type Path = seq<string>

  /** How many characters make up a name on a path. */
  type PieceLength = l: nat | 0 < l witness 1

  /** A name the file system gives no other meaning. */
  ghost predicate Ordinary(name: string) {
    name != "" && '/' !in name && name != "." && name != ".."
  }

  ghost predicate OrdinaryPath(p: Path) {
    forall i :: 0 <= i < |p| ==> Ordinary(p[i])
  }

  lemma PrependOrdinary(name: string, p: Path)
    requires Ordinary(name) && OrdinaryPath(p)
    ensures OrdinaryPath([name] + p)
  {
  }

  datatype Made = Created | Exists | NoSuchFile
  datatype Unmade = Removed | Missing | NotEmpty

  ghost function Parent(p: Path): Path
    requires p != []
  {
    p[..|p| - 1]
  }

  /** The base exists, and so does the parent of every directory. */
  ghost predicate IsTree(tree: set<Path>) {
    && [] in tree
    && forall p :: p in tree && p != [] ==> Parent(p) in tree
  }

  ghost predicate HasChild(tree: set<Path>, p: Path) {
    exists q :: q in tree && q != [] && Parent(q) == p
  }

  /** create_directory */
  ghost function MakeDir(tree: set<Path>, p: Path): (r: (set<Path>, Made))
    requires p != []
  {
    if p in tree then (tree, Exists)
    else if Parent(p) in tree then (tree + {p}, Created)
    else (tree, NoSuchFile)
  }

  /** remove, on a directory */
  ghost function RemoveDir(tree: set<Path>, p: Path): (r: (set<Path>, Unmade))
    requires p != []
  {
    if p !in tree then (tree, Missing)
    else if HasChild(tree, p) then (tree, NotEmpty)
    else (tree - {p}, Removed)
  }

  /** Neither call breaks the tree, whatever the path. */
  lemma CallsKeepTree(tree: set<Path>, p: Path)
    requires IsTree(tree) && p != []
    ensures IsTree(MakeDir(tree, p).0) && IsTree(RemoveDir(tree, p).0)
  {
    var less := RemoveDir(tree, p).0;
    forall q | q in less && q != []
      ensures Parent(q) in less
    {
      assert RemoveDir(tree, p).1 == Removed ==> Parent(q) != p;
    }
  }

  /** All ancestors of a directory exist. */
  lemma {:induction false} PrefixIn(tree: set<Path>, p: Path, k: nat)
    requires IsTree(tree) && p in tree && k <= |p|
    ensures p[..k] in tree
    decreases |p|
  {
    if k < |p| {
      assert Parent(p)[..k] == p[..k];
      PrefixIn(tree, Parent(p), k);
    } else {
      assert p[..k] == p;
    }
  }

  /** The names one after the other. */
  ghost function Joined(p: Path): string {
    if p == [] then "" else p[0] + Joined(p[1..])
  }

  /** The path as text: every name after a slash. */
  function Rendered(p: Path): string {
    if p == [] then "" else "/" + p[0] + Rendered(p[1..])
  }

  ghost function WithoutSlashes(s: string): string {
    if s == "" then ""
    else if s[0] == '/' then WithoutSlashes(s[1..])
    else [s[0]] + WithoutSlashes(s[1..])
  }

  lemma {:induction false} WithoutSlashesConcat(a: string, b: string)
    ensures WithoutSlashes(a + b) == WithoutSlashes(a) + WithoutSlashes(b)
  {
    if a == "" {
      assert a + b == b;
    } else {
      assert (a + b)[1..] == a[1..] + b;
      WithoutSlashesConcat(a[1..], b);
    }
  }

  lemma {:induction false} NothingToDelete(s: string)
    requires '/' !in s
    ensures WithoutSlashes(s) == s
  {
    if s != "" {
      NothingToDelete(s[1..]);
    }
  }

  /** Deleting the slashes of a rendered path joins its names. */
  lemma {:induction false} RenderedJoined(p: Path)
    requires forall i :: 0 <= i < |p| ==> '/' !in p[i]
    ensures WithoutSlashes(Rendered(p)) == Joined(p)
  {
    if p != [] {
      RenderedJoined(p[1..]);
      WithoutSlashesConcat("/" + p[0], Rendered(p[1..]));
      WithoutSlashesConcat("/", p[0]);
      NothingToDelete(p[0]);
    }
  }

  /** Different paths have different texts. */
  lemma {:induction false} RenderedInjective(p: Path, q: Path)
    requires OrdinaryPath(p) && OrdinaryPath(q) && Rendered(p) == Rendered(q)
    ensures p == q
  {
    if p != [] && q != [] {
      FirstName(p[0], Rendered(p[1..]), q[0], Rendered(q[1..]));
      RenderedInjective(p[1..], q[1..]);
      assert p == [p[0]] + p[1..] && q == [q[0]] + q[1..];
    }
  }

  /** A name ends where the text does or at the next slash. */
  lemma FirstName(a: string, x: string, b: string, y: string)
    requires '/' !in a && '/' !in b && "/" + a + x == "/" + b + y
    requires (x == "" || x[0] == '/') && (y == "" || y[0] == '/')
    ensures a == b && x == y
  {
    var text := "/" + a + x;
    assert text[1..|a| + 1] == a && text[|a| + 1..] == x && text[1..|b| + 1] == b && text[|b| + 1..] == y;
    assert forall i :: 0 <= i < |a| ==> a[i] == text[1..][i] != '/';
    assert forall i :: 0 <= i < |b| ==> b[i] == text[1..][i] != '/';
    assert |a| + 1 < |text| ==> text[|a| + 1] == '/';
    assert |b| + 1 < |text| ==> text[|b| + 1] == '/';
  }

  /** Both storages turn a path back into a string with the same loop: find a slash, erase it. */
  method EraseSlashes(text: string) returns (s: string)
    ensures s == WithoutSlashes(text)
  {
    s := text;
    var pos := Find(s);
    while pos < |s|
      invariant WithoutSlashes(s) == WithoutSlashes(text)
      invariant 0 <= pos <= |s| && (pos < |s| ==> s[pos] == '/') && (pos == |s| ==> '/' !in s)
      decreases |s|
    {
      assert s == s[..pos] + (['/'] + s[pos + 1..]);
      WithoutSlashesConcat(s[..pos], ['/'] + s[pos + 1..]);
      WithoutSlashesConcat(s[..pos], s[pos + 1..]);
      WithoutSlashesConcat(['/'], s[pos + 1..]);
      s := s[..pos] + s[pos + 1..];
      pos := Find(s);
    }
    NothingToDelete(s);
  }

  method Find(s: string) returns (pos: nat)
    ensures pos <= |s| && '/' !in s[..pos] && (pos < |s| ==> s[pos] == '/')
    ensures pos == |s| ==> '/' !in s
  {
    pos := 0;
    while pos < |s| && s[pos] != '/'
      invariant pos <= |s| && '/' !in s[..pos]
    {
      pos := pos + 1;
    }
    assert s[..|s|] == s;
  }
}
