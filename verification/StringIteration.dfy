/** Iterating over a StringContainer (src/storage/filesystem/string_container.cpp). */
module StringIteration {
  import opened Seqs
  import opened Directories
  import opened StringPaths
  import opened StringContainer

  /** Every directory below the base, once. */
  ghost predicate Enumerates(entries: seq<Path>, tree: set<Path>) {
    Distinct(entries) && forall p :: p in entries <==> p in tree && p != []
  }

  /** The iterator skips to the entries whose text ends with the suffix; it yields every string once. */
  method Strings(base: string, entries: seq<Path>, ghost l: PieceLength, ghost tree: set<Path>)
      returns (strings: seq<string>)
    requires WellFormed(l, tree) && Enumerates(entries, tree)
    ensures Distinct(strings) && forall str :: str in strings <==> str in Contents(tree)
  {
    strings := [];
    ghost var from: seq<Path> := [];  // the entry each string came from
    var i := 0;
    while i < |entries|
      invariant i <= |entries| && |from| == |strings| && Distinct(from)
      invariant forall k :: 0 <= k < |from| ==> from[k] in entries[..i] && Yields(l, from[k], strings[k])
      invariant forall p :: p in entries[..i] && IsMarked(p) ==> p in from
    {
      var p := entries[i];
      assert p in entries && Regular(l, p);
      var pathString := base + Rendered(p);
      RenderedNotEmpty(p);
      MarkedText(base, p);
      if pathString != "" && pathString[|pathString| - 1] == SUFFIX {
        var str := AsString(base, pathString);
        MarkedYields(l, base, p);
        assert p !in entries[..i];
        strings := strings + [str];
        from := from + [p];
      }
      assert entries[..i + 1] == entries[..i] + [p];
      i := i + 1;
    }
    assert entries[..i] == entries;
    AllYielded(l, tree, entries, from, strings);
  }

  ghost predicate Yields(l: PieceLength, p: Path, str: string)
  {
    Storable(str, l) && p == PathOf(str, l)
  }

  lemma RenderedNotEmpty(p: Path)
    requires p != []
    ensures Rendered(p) != ""
  {
  }

  lemma {:induction false} MarkedText(base: string, p: Path)
    requires p != []
    ensures var text := base + Rendered(p); text[|text| - 1] == SUFFIX <==> IsMarked(p)
  {
    RenderedNotEmpty(p);
    LastOfRendered(p);
  }

  lemma {:induction false} LastOfRendered(p: Path)
    requires p != []
    ensures Rendered(p) != ""
    ensures Rendered(p)[|Rendered(p)| - 1] == SUFFIX <==> IsMarked(p)
  {
    if |p| > 1 {
      LastOfRendered(p[1..]);
    }
  }

  lemma MarkedYields(l: PieceLength, base: string, p: Path)
    requires Regular(l, p) && IsMarked(p)
    ensures var text := base + Rendered(p);
      |base| < |text| && Yields(l, p, WithoutSlashes(text[|base|..|text| - 1]))
  {
    var str :| Storable(str, l) && p == PathOf(str, l);
    RoundTrip(base, str, l);
  }

  lemma AllYielded(l: PieceLength, tree: set<Path>, entries: seq<Path>, from: seq<Path>, strings: seq<string>)
    requires WellFormed(l, tree) && Enumerates(entries, tree) && |from| == |strings| && Distinct(from)
    requires forall k :: 0 <= k < |from| ==> from[k] in entries && Yields(l, from[k], strings[k])
    requires forall p :: p in entries && IsMarked(p) ==> p in from
    ensures Distinct(strings) && forall str :: str in strings <==> str in Contents(tree)
  {
    forall str
      ensures str in strings <==> str in Contents(tree)
    {
      if str in strings {
        var k :| 0 <= k < |strings| && strings[k] == str;
        assert Yields(l, from[k], strings[k]);
        InContents(l, tree, str);
      }
      if str in Contents(tree) {
        ContentIsYielded(l, tree, entries, from, strings, str);
      }
    }
    forall i, j | 0 <= i < j < |strings|
      ensures strings[i] != strings[j]
    {
      assert Yields(l, from[i], strings[i]) && Yields(l, from[j], strings[j]);
    }
  }

  lemma ContentIsYielded(
      l: PieceLength, tree: set<Path>, entries: seq<Path>, from: seq<Path>, strings: seq<string>, str: string)
    requires WellFormed(l, tree) && Enumerates(entries, tree) && |from| == |strings|
    requires forall k :: 0 <= k < |from| ==> Yields(l, from[k], strings[k])
    requires forall p :: p in entries && IsMarked(p) ==> p in from
    requires str in Contents(tree)
    ensures str in strings
  {
    ContentsStorable(l, tree, str);
    InContents(l, tree, str);
    NamesOfPath(str, l, |PathOf(str, l)| - 1);
    var k :| 0 <= k < |from| && from[k] == PathOf(str, l);
    assert Yields(l, from[k], strings[k]);
    NameOfPath(str, l);
    NameOfPath(strings[k], l);
    assert strings[k] in strings;
  }
}
