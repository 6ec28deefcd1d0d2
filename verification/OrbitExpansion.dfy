/**
 * Expanding the orbit of one orbit cone (expandOrbitConeOrbit in src/util-gitfan/gitfanImpl.cpp): removing
 * duplicates by file content, moving the smallest content to the front, and representing the opposite of
 * the symmetry group by permutations of what is left.
 */
module OrbitExpansion {
  import opened Seqs
  import opened Permutations

  datatype File = File(path: string, content: string)

  /** `operator<` of strings. */
  predicate Less(a: string, b: string)
    decreases |a|
  {
    b != [] && (a == [] || a[0] < b[0] || (a[0] == b[0] && Less(a[1..], b[1..])))
  }

  /** The texts agree up to `k`, where the first one ends or has the smaller character. */
  ghost predicate DifferAt(a: string, b: string, k: nat) {
    && k <= |a| && k < |b| && a[..k] == b[..k]
    && (k == |a| || a[k] < b[k])
  }

  /** One text is before another if and only if it is so at their first difference. */
  lemma {:induction false} LessIffFirstDifference(a: string, b: string)
    ensures Less(a, b) <==> exists k: nat :: DifferAt(a, b, k)
    decreases |a|
  {
    if a == [] || b == [] || a[0] != b[0] {
      if Less(a, b) {
        assert DifferAt(a, b, 0);
      }
    } else {
      LessIffFirstDifference(a[1..], b[1..]);
      if k: nat :| DifferAt(a[1..], b[1..], k) {
        assert a[..k + 1] == [a[0]] + a[1..][..k] && b[..k + 1] == [b[0]] + b[1..][..k];
        assert DifferAt(a, b, k + 1);
      }
      if k: nat :| DifferAt(a, b, k) {
        RestDiffers(a, b, k);
      }
    }
  }

  lemma RestDiffers(a: string, b: string, k: nat)
    requires DifferAt(a, b, k) && a != [] && a[0] == b[0]
    ensures k > 0 && DifferAt(a[1..], b[1..], k - 1)
  {
    assert a[1..][..k - 1] == a[..k][1..] && b[1..][..k - 1] == b[..k][1..];
  }

  lemma {:induction false} LessTransitive(a: string, b: string, c: string)
    requires Less(a, b) && Less(b, c)
    ensures Less(a, c)
    decreases |a|
  {
    if a != [] && a[0] == b[0] == c[0] {
      LessTransitive(a[1..], b[1..], c[1..]);
    }
  }

  lemma {:induction false} LessTotal(a: string, b: string)
    ensures a == b || Less(a, b) || Less(b, a)
    ensures !(Less(a, b) && Less(b, a)) && !Less(a, a)
    decreases |a|
  {
    if a != [] && b != [] {
      LessTotal(a[1..], b[1..]);
      LessTotal(a[1..], a[1..]);
      assert a == [a[0]] + a[1..] && b == [b[0]] + b[1..];
    } else if a != [] {
      LessTotal(a[1..], a[1..]);
    }
  }

  /** The index the hash map of the group gives a permutation: the first one, or 0 if there is none. */
  ghost function Lookup(group: seq<Perm>, p: Perm): nat {
    if group == [] then 0
    else
      var n := |group| - 1;
      if p in group[..n] then Lookup(group[..n], p) else if p == group[n] then n else 0
  }

  lemma {:induction false} LookupFinds(group: seq<Perm>, p: Perm)
    ensures p in group ==>
              Lookup(group, p) < |group| && group[Lookup(group, p)] == p && p !in group[..Lookup(group, p)]
    ensures p !in group ==> Lookup(group, p) == 0
    decreases |group|
  {
    if group != [] {
      LookupFinds(group[..|group| - 1], p);
      assert group == group[..|group| - 1] + [group[|group| - 1]];
    }
  }

  method IndexGroup(group: seq<Perm>) returns (indices: map<Perm, nat>)
    ensures forall p :: p in indices <==> p in group
    ensures forall p :: p in indices ==> indices[p] == Lookup(group, p)
  {
    indices := map[];
    var i := 0;
    while i < |group|
      invariant i <= |group|
      invariant forall p :: p in indices <==> p in group[..i]
      invariant forall p :: p in indices ==> indices[p] == Lookup(group[..i], p)
    {
      if group[i] !in indices {
        indices := indices[group[i] := i];
      }
      assert group[..i + 1][..i] == group[..i];
      assert group[..i + 1] == group[..i] + [group[i]];
      i := i + 1;
    }
    assert group[..i] == group;
  }

  // ---------- Removing duplicates ----------

  ghost predicate DifferentContents(elements: seq<File>) {
    forall i, j :: 0 <= i < j < |elements| ==> elements[i].content != elements[j].content
  }

  ghost predicate HasContent(files: seq<File>, c: string) {
    exists f :: f in files && f.content == c
  }

  /** The two index tables between the orbit with duplicates and its elements. */
  ghost predicate Tables(orbit: seq<File>, upTo: nat, elements: seq<File>, toOrbit: seq<nat>, toElement: seq<nat>)
    requires upTo <= |orbit| && |toElement| == |orbit|
  {
    && DifferentContents(elements) && |toOrbit| == |elements|
    && (forall e :: 0 <= e < |elements| ==> toOrbit[e] < upTo && orbit[toOrbit[e]] == elements[e])
    && (forall i :: 0 <= i < upTo ==>
          toElement[i] < |elements| && elements[toElement[i]].content == orbit[i].content)
  }

  /** The hash map from contents to indices of elements. */
  ghost predicate Indexed(elements: seq<File>, indices: map<string, nat>) {
    && (forall e :: 0 <= e < |elements| ==>
          elements[e].content in indices && indices[elements[e].content] == e)
    && (forall c :: c in indices ==> indices[c] < |elements| && elements[indices[c]].content == c)
  }

  ghost predicate NoneLess(orbit: seq<File>, upTo: nat, c: string)
    requires upTo <= |orbit|
  {
    forall j :: 0 <= j < upTo ==> !Less(orbit[j].content, c)
  }

  lemma NewElement(
      orbit: seq<File>, i: nat, elements: seq<File>, toOrbit: seq<nat>, toElement: seq<nat>, indices: map<string, nat>)
    requires i < |orbit| == |toElement| && Tables(orbit, i, elements, toOrbit, toElement)
    requires Indexed(elements, indices) && orbit[i].content !in indices
    ensures Tables(orbit, i + 1, elements + [orbit[i]], toOrbit + [i], toElement[i := |elements|])
    ensures Indexed(elements + [orbit[i]], indices[orbit[i].content := |elements|])
  {
  }

  /** How the smallest content so far changes with one more file. */
  lemma NextMinimum(orbit: seq<File>, i: nat, c: string)
    requires i < |orbit| && NoneLess(orbit, i, c)
    ensures NoneLess(orbit, i + 1, if Less(orbit[i].content, c) then orbit[i].content else c)
  {
    LessTotal(orbit[i].content, orbit[i].content);
    if Less(orbit[i].content, c) {
      forall j | 0 <= j < i
        ensures !Less(orbit[j].content, orbit[i].content)
      {
        if Less(orbit[j].content, orbit[i].content) {
          LessTransitive(orbit[j].content, orbit[i].content, c);
        }
      }
    }
  }

  method RemoveDuplicates(orbit: seq<File>)
      returns (elements: seq<File>, toOrbit: seq<nat>, toElement: seq<nat>, minimal: nat)
    requires orbit != []
    ensures |toElement| == |orbit| && Tables(orbit, |orbit|, elements, toOrbit, toElement)
    ensures minimal < |elements|
    ensures NoneLess(orbit, |orbit|, elements[minimal].content)
  {
    var elementIndices: map<string, nat> := map[];
    elements, toOrbit := [], [];
    toElement := seq(|orbit|, _ => 0);
    var minimalElement := orbit[0];
    var i := 0;
    while i < |orbit|
      invariant i <= |orbit| == |toElement|
      invariant Tables(orbit, i, elements, toOrbit, toElement)
      invariant Indexed(elements, elementIndices)
      invariant NoneLess(orbit, i, minimalElement.content)
      invariant if i == 0 then minimalElement == orbit[0] else minimalElement.content in elementIndices
    {
      var element := orbit[i];
      NextMinimum(orbit, i, minimalElement.content);
      LessTotal(element.content, element.content);
      if element.content !in elementIndices {
        NewElement(orbit, i, elements, toOrbit, toElement, elementIndices);
        toElement := toElement[i := |elements|];
        elementIndices := elementIndices[element.content := |elements|];
        elements := elements + [element];
        toOrbit := toOrbit + [i];
        if Less(element.content, minimalElement.content) {
          minimalElement := element;
        }
      } else {
        toElement := toElement[i := elementIndices[element.content]];
        NotLessThanMinimum(orbit, i, elements, toOrbit, element, elementIndices[element.content], minimalElement);
      }
      i := i + 1;
    }
    minimal := elementIndices[minimalElement.content];
  }

  lemma NotLessThanMinimum(
      orbit: seq<File>, i: nat, elements: seq<File>, toOrbit: seq<nat>, element: File, e: nat, minimal: File)
    requires i <= |orbit| && e < |elements| == |toOrbit| && toOrbit[e] < i && orbit[toOrbit[e]] == elements[e]
    requires elements[e].content == element.content && NoneLess(orbit, i, minimal.content)
    ensures !Less(element.content, minimal.content)
  {
    assert !Less(orbit[toOrbit[e]].content, minimal.content);
  }

  /** Exchanges the entries at 0 and `m`. */
  function Swapped<T>(s: seq<T>, m: nat): seq<T>
    requires m < |s|
  {
    s[0 := s[m]][m := s[0]]
  }

  /** Renames the indices 0 and `m` in a table. */
  method Rename(table: seq<nat>, m: nat) returns (renamed: seq<nat>)
    ensures |renamed| == |table|
    ensures forall i :: 0 <= i < |table| ==>
              renamed[i] == if table[i] == 0 then m else if table[i] == m then 0 else table[i]
  {
    renamed := table;
    var i := 0;
    while i < |table|
      invariant i <= |table| == |renamed|
      invariant forall j :: i <= j < |table| ==> renamed[j] == table[j]
      invariant forall j :: 0 <= j < i ==>
                  renamed[j] == if table[j] == 0 then m else if table[j] == m then 0 else table[j]
    {
      renamed := renamed[i := if renamed[i] == 0 then m else if renamed[i] == m then 0 else renamed[i]];
      i := i + 1;
    }
  }

  lemma SwappedTables(
      orbit: seq<File>, elements: seq<File>, toOrbit: seq<nat>, toElement: seq<nat>, m: nat, renamed: seq<nat>)
    requires |toElement| == |orbit| == |renamed| && Tables(orbit, |orbit|, elements, toOrbit, toElement)
    requires m < |elements|
    requires forall i :: 0 <= i < |orbit| ==>
               renamed[i] == if toElement[i] == 0 then m else if toElement[i] == m then 0 else toElement[i]
    ensures Tables(orbit, |orbit|, Swapped(elements, m), Swapped(toOrbit, m), renamed)
  {
  }

  // ---------- The result ----------

  /** Products of members can be formed. */
  ghost predicate Composable(group: seq<Perm>) {
    forall g, h :: g in group && h in group ==> |g| == |h| && forall i :: 0 <= i < |g| ==> h[i] < |g|
  }

  datatype OrbitInfo = OrbitInfo(elements: seq<File>, action: seq<Perm>)

  /**
   * The elements are the orbit's contents without repetition, a smallest one first.  Entry `i` of the
   * permutation for group index `p` is found by way of some duplicate `w[i]` of element `i`: it is the
   * element with the content of the duplicate belonging to the product of group elements `w[i]` and `p`.
   */
  ghost predicate Expanded(group: seq<Perm>, orbit: seq<File>, info: OrbitInfo, w: seq<nat>)
    requires |orbit| == |group| > 0
    requires Composable(group)
  {
    var elements, action := info.elements, info.action;
    && elements != [] && DifferentContents(elements)
    && (forall f :: f in orbit ==> HasContent(elements, f.content))
    && (forall f :: f in orbit ==> !Less(f.content, elements[0].content))
    && |w| == |elements| && (forall i :: 0 <= i < |w| ==> w[i] < |orbit| && orbit[w[i]] == elements[i])
    && |action| == |group|
    && (forall p :: 0 <= p < |group| ==> |action[p]| == |elements|)
    && (forall p, i :: 0 <= p < |group| && 0 <= i < |elements| ==> ImageFound(group, orbit, info, w, p, i))
  }

  ghost predicate ImageFound(group: seq<Perm>, orbit: seq<File>, info: OrbitInfo, w: seq<nat>, p: nat, i: nat)
    requires |orbit| == |group| > 0
    requires Composable(group)
    requires p < |group| == |info.action| && i < |w| == |info.elements| == |info.action[p]|
    requires w[i] < |orbit|
  {
    var product := Lookup(group, Compose(group[w[i]], group[p]));
    && info.action[p][i] < |info.elements|
    && (product < |orbit| ==> info.elements[info.action[p][i]].content == orbit[product].content)
  }

  ghost predicate ImageOf(group: seq<Perm>, toOrbit: seq<nat>, toElement: seq<nat>, i: nat, p: nat, image: nat)
    requires p < |group| == |toElement| && i < |toOrbit| && toOrbit[i] < |group|
    requires Composable(group)
  {
    var product := Lookup(group, Compose(group[toOrbit[i]], group[p]));
    product < |toElement| && image == toElement[product]
  }

  ghost predicate RowFound(group: seq<Perm>, toOrbit: seq<nat>, toElement: seq<nat>, p: nat, row: Perm)
    requires p < |group| == |toElement| && Composable(group)
    requires forall i :: 0 <= i < |toOrbit| ==> toOrbit[i] < |group|
  {
    |row| == |toOrbit| && forall i :: 0 <= i < |row| ==> ImageOf(group, toOrbit, toElement, i, p, row[i])
  }

  /** One permutation of the elements, for the group element with index `p`. */
  method PermutationOnOrbit(
      group: seq<Perm>, indices: map<Perm, nat>, toOrbit: seq<nat>, toElement: seq<nat>, p: nat)
      returns (permutation: Perm)
    requires p < |group| == |toElement| && forall i :: 0 <= i < |toOrbit| ==> toOrbit[i] < |group|
    requires Composable(group)
    requires forall q :: q in indices <==> q in group
    requires forall q :: q in indices ==> indices[q] == Lookup(group, q)
    ensures RowFound(group, toOrbit, toElement, p, permutation)
  {
    permutation := [];
    var i := 0;
    while i < |toOrbit|
      invariant i == |permutation| <= |toOrbit|
      invariant forall j :: 0 <= j < i ==> ImageOf(group, toOrbit, toElement, j, p, permutation[j])
    {
      var translation := Multiply(group[toOrbit[i]], group[p]);
      LookupFinds(group, translation);
      var imageIndex := if translation in indices then indices[translation] else 0;
      permutation := permutation + [toElement[imageIndex]];
      i := i + 1;
    }
  }

  method ActionOnOrbit(group: seq<Perm>, toOrbit: seq<nat>, toElement: seq<nat>) returns (action: seq<Perm>)
    requires |group| == |toElement| && forall i :: 0 <= i < |toOrbit| ==> toOrbit[i] < |group|
    requires Composable(group)
    ensures |action| == |group|
    ensures forall p :: 0 <= p < |group| ==> RowFound(group, toOrbit, toElement, p, action[p])
  {
    var indices := IndexGroup(group);
    action := [];
    var p := 0;
    while p < |group|
      invariant p == |action| <= |group|
      invariant forall q :: 0 <= q < p ==> RowFound(group, toOrbit, toElement, q, action[q])
    {
      var permutation := PermutationOnOrbit(group, indices, toOrbit, toElement, p);
      action := action + [permutation];
      p := p + 1;
    }
  }

  ghost predicate IsExpansion(group: seq<Perm>, orbit: seq<File>, info: OrbitInfo)
    requires |orbit| == |group| > 0
    requires Composable(group)
  {
    exists w :: Expanded(group, orbit, info, w)
  }

  method ExpandOrbitConeOrbit(group: seq<Perm>, orbit: seq<File>) returns (info: OrbitInfo)
    requires |orbit| == |group| > 0
    requires Composable(group)
    ensures IsExpansion(group, orbit, info)
  {
    var elements, toOrbit, toElement, minimal := RemoveDuplicates(orbit);
    ghost var was, wasTo, wasFrom := elements, toOrbit, toElement;

    // the smallest content to the front, and the tables after it
    var first, firstDuplicate := elements[0], toOrbit[0];
    elements := elements[0 := elements[minimal]][minimal := first];
    toOrbit := toOrbit[0 := toOrbit[minimal]][minimal := firstDuplicate];
    toElement := Rename(toElement, minimal);
    SwappedTables(orbit, was, wasTo, wasFrom, minimal, toElement);

    var action := ActionOnOrbit(group, toOrbit, toElement);
    info := OrbitInfo(elements, action);
    AllFound(group, orbit, info, toOrbit, toElement);
  }

  lemma AllFound(group: seq<Perm>, orbit: seq<File>, info: OrbitInfo, w: seq<nat>, toElement: seq<nat>)
    requires |orbit| == |group| == |toElement| > 0 && |info.action| == |group| && info.elements != []
    requires Composable(group)
    requires Tables(orbit, |orbit|, info.elements, w, toElement)
    requires NoneLess(orbit, |orbit|, info.elements[0].content)
    requires forall p :: 0 <= p < |group| ==> RowFound(group, w, toElement, p, info.action[p])
    ensures Expanded(group, orbit, info, w)
  {
    forall f | f in orbit
      ensures HasContent(info.elements, f.content) && !Less(f.content, info.elements[0].content)
    {
      var i :| 0 <= i < |orbit| && orbit[i] == f;
      assert info.elements[toElement[i]] in info.elements;
    }
    forall q, i | 0 <= q < |group| && 0 <= i < |w|
      ensures ImageFound(group, orbit, info, w, q, i)
    {
      assert RowFound(group, w, toElement, q, info.action[q]);
      assert ImageOf(group, w, toElement, i, q, info.action[q][i]);
    }
  }
}
