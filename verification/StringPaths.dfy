/** The directory that stands for a string in a StringContainer (src/storage/filesystem/string_container.cpp). */
module StringPaths {
  import opened Seqs
  import opened Directories

  const SUFFIX: char := '$'

  /** The strings a container accepts. */
  predicate Accepted(str: string) {
    '/' !in str && '\\' !in str && SUFFIX !in str
  }

  /** Pieces of `l` characters, the last one with the suffix. */
  ghost function PathOf(str: string, l: PieceLength): (p: Path)
    ensures p != []
    decreases |str|
  {
    if |str| <= l then [str + [SUFFIX]] else [str[..l]] + PathOf(str[l..], l)
  }

  /** With pieces of three characters or more, every accepted string has a path of ordinary names. */
  lemma {:induction false} OrdinaryNames(str: string, l: PieceLength)
    requires Accepted(str) && (l >= 3 || '.' !in str)
    ensures OrdinaryPath(PathOf(str, l))
    decreases |str|
  {
    if |str| > l {
      OrdinaryNames(str[l..], l);
      assert str[0] in str[..l] && (l < 3 ==> str[0] != '.');
      PrependOrdinary(str[..l], PathOf(str[l..], l));
    } else {
      assert (str + [SUFFIX])[|str|] == SUFFIX;
    }
  }

  /**
   * The strings whose directory is the same for the file system as on the path: with pieces of one or two
   * characters, ".a" and "a" would share theirs.
   */
  ghost predicate Storable(str: string, l: PieceLength) {
    Accepted(str) && OrdinaryPath(PathOf(str, l))
  }

  ghost predicate Marked(name: string) {
    name != "" && name[|name| - 1] == SUFFIX
  }

  /** The test of the iterator. */
  ghost predicate IsMarked(p: Path) {
    p != [] && Marked(p[|p| - 1])
  }

  /** The string a marked directory stands for. */
  ghost function NameOf(p: Path): string {
    var s := Joined(p); if s == "" then "" else s[..|s| - 1]
  }

  /** The check for characters that cannot be part of a name. */
  method IsAccepted(str: string) returns (accepted: bool)
    ensures accepted == Accepted(str)
  {
    var i := 0;
    while i < |str|
      invariant i <= |str| && Accepted(str[..i])
    {
      var c := str[i];
      if c == '/' || c == '\\' || c == SUFFIX {
        return false;
      }
      i := i + 1;
    }
    assert str[..|str|] == str;
    return true;
  }

  /** `_asPath` */
  method AsPath(str: string, l: PieceLength) returns (r: Option<Path>)
    ensures r == if Accepted(str) then Some(PathOf(str, l)) else None
    ensures r == None <==> exists i :: 0 <= i < |str| && (str[i] == '/' || str[i] == '\\' || str[i] == '$')
  {
    var accepted := IsAccepted(str);
    if !accepted {
      return None;
    }
    var path := Pieces(str, l);
    path := path[..|path| - 1] + [path[|path| - 1] + [SUFFIX]];
    r := Some(path);
  }

  method Pieces(str: string, l: PieceLength) returns (path: Path)
    ensures path != [] && PathOf(str, l) == WithSuffix(path)
  {
    path := [str[..Min(l, |str|)]];
    FirstPiece(str, l);
    var pos := l;
    while pos < |str|
      invariant path != [] && 0 < pos
      invariant pos < |str| ==> PathOf(str, l) == path + PathOf(str[pos..], l)
      invariant pos >= |str| ==> PathOf(str, l) == WithSuffix(path)
      decreases |str| - pos
    {
      var piece := str[pos..Min(pos + l, |str|)];
      NextPiece(str, l, pos);
      SuffixOfLast(path, piece);
      PieceAppended(path, piece, if pos + l < |str| then PathOf(str[pos + l..], l) else []);
      path := path + [piece];
      pos := pos + l;
    }
  }

  lemma FirstPiece(str: string, l: PieceLength)
    ensures var first := [str[..Min(l, |str|)]];
      PathOf(str, l) == if l < |str| then first + PathOf(str[l..], l) else WithSuffix(first)
  {
    assert str[..|str|] == str;
  }

  lemma PieceAppended(path: Path, piece: string, rest: Path)
    ensures path + ([piece] + rest) == path + [piece] + rest
  {
  }

  lemma SuffixOfLast(path: Path, piece: string)
    ensures WithSuffix(path + [piece]) == path + [piece + [SUFFIX]]
  {
  }

  ghost function WithSuffix(p: Path): Path
    requires p != []
  {
    p[..|p| - 1] + [p[|p| - 1] + [SUFFIX]]
  }

  lemma NextPiece(str: string, l: PieceLength, pos: nat)
    requires pos < |str|
    ensures var piece := str[pos..Min(pos + l, |str|)];
      PathOf(str[pos..], l) ==
      if pos + l < |str| then [piece] + PathOf(str[pos + l..], l) else [piece + [SUFFIX]]
  {
    var rest := str[pos..];
    if pos + l < |str| {
      assert rest[..l] == str[pos..pos + l] && rest[l..] == str[pos + l..];
    } else {
      assert str[pos..|str|] == rest;
    }
  }

  /** `_asString`, on the text of a directory's path */
  method AsString(base: string, pathString: string) returns (str: string)
    requires |base| < |pathString|
    ensures str == WithoutSlashes(pathString[|base|..|pathString| - 1])
  {
    var s := pathString[|base|..];
    s := s[..|s| - 1];
    assert s == pathString[|base|..|pathString| - 1];
    str := EraseSlashes(s);
  }

  /** All names but the last have the full length; the last has at most that and the suffix. */
  lemma {:induction false} NameLengths(str: string, l: PieceLength, i: nat)
    requires i < |PathOf(str, l)|
    ensures var p := PathOf(str, l);
      if i + 1 < |p| then |p[i]| == l
      else |p[i]| <= l + 1 && (str != "" ==> |p[i]| > 1) && p[i][|p[i]| - 1..] == "$"
    decreases |str|
  {
    if |str| > l && i > 0 {
      NameLengths(str[l..], l, i - 1);
    }
  }

  // ---------- One directory for every string ----------

  lemma {:induction false} JoinedPath(str: string, l: PieceLength)
    ensures Joined(PathOf(str, l)) == str + [SUFFIX]
    decreases |str|
  {
    if |str| > l {
      JoinedPath(str[l..], l);
      assert str == str[..l] + str[l..];
    }
  }

  /** `_asString` undoes `_asPath`, so different strings have different directories. */
  lemma NameOfPath(str: string, l: PieceLength)
    ensures NameOf(PathOf(str, l)) == str
  {
    JoinedPath(str, l);
  }

  lemma {:induction false} NamesOfPath(str: string, l: PieceLength, i: nat)
    requires Accepted(str) && i < |PathOf(str, l)|
    ensures var name := PathOf(str, l)[i];
      && '/' !in name
      && (i < |PathOf(str, l)| - 1 ==> !Marked(name) && name != "")
      && (i == |PathOf(str, l)| - 1 ==> Marked(name))
    decreases |str|
  {
    if |str| > l {
      assert Accepted(str[l..]) && Accepted(str[..l]);
      if i > 0 {
        NamesOfPath(str[l..], l, i - 1);
      }
    }
  }

  /** `_asString` of the whole text of `_asPath` is the string. */
  lemma RoundTrip(base: string, str: string, l: PieceLength)
    requires Accepted(str)
    ensures var text := base + Rendered(PathOf(str, l));
      |base| < |text| && WithoutSlashes(text[|base|..|text| - 1]) == str
  {
    var p := PathOf(str, l);
    forall i | 0 <= i < |p|
      ensures '/' !in p[i]
    {
      NamesOfPath(str, l, i);
    }
    RenderedJoined(p);
    JoinedPath(str, l);
    NamesOfPath(str, l, |p| - 1);
    RenderedEnd(p);
    var r := Rendered(p);
    DropSuffix(r, str);
    var text := base + r;
    assert text[|base|..|text| - 1] == r[..|r| - 1];
  }

  lemma DropSuffix(r: string, str: string)
    requires r != "" && r[|r| - 1] == SUFFIX && WithoutSlashes(r) == str + [SUFFIX]
    ensures WithoutSlashes(r[..|r| - 1]) == str
  {
    var front := r[..|r| - 1];
    assert r == front + [SUFFIX];
    WithoutSlashesConcat(front, [SUFFIX]);
    NothingToDelete([SUFFIX]);
    SameFront(str, WithoutSlashes(front), SUFFIX);
  }

  lemma SameFront(a: string, b: string, c: char)
    requires a + [c] == b + [c]
    ensures a == b
  {
    assert a == (a + [c])[..|a|] && b == (b + [c])[..|b|];
  }

  lemma {:induction false} RenderedEnd(p: Path)
    requires p != [] && p[|p| - 1] != ""
    ensures Rendered(p) != "" && Rendered(p)[|Rendered(p)| - 1] == p[|p| - 1][|p[|p| - 1]| - 1]
  {
    if |p| > 1 {
      RenderedEnd(p[1..]);
    }
  }

  /** No string's directory lies below another's, and different strings have different ones. */
  lemma NoAncestor(str: string, other: string, l: PieceLength, k: nat)
    requires Storable(str, l) && Storable(other, l)
    requires k <= |PathOf(other, l)| && PathOf(other, l)[..k] == PathOf(str, l)
    ensures str == other && k == |PathOf(other, l)|
  {
    WholePath(str, other, PathOf(str, l), PathOf(other, l), l, k);
  }

  lemma WholePath(str: string, other: string, p: Path, q: Path, l: PieceLength, k: nat)
    requires Accepted(str) && Accepted(other) && p == PathOf(str, l) && q == PathOf(other, l)
    requires k <= |q| && q[..k] == p
    ensures str == other && k == |q|
  {
    NamesOfPath(str, l, k - 1);
    NamesOfPath(other, l, k - 1);
    NameOfPath(str, l);
    NameOfPath(other, l);
    assert k == |q|;
    assert q[..k] == q;
  }
}
