/**
 * The orbit phase as a whole: what expanding an orbit means for the group, which of several equal orbits
 * is kept, and flattening the kept orbits into one list with one permutation representation
 * (src/util-gitfan/gitfanImpl.cpp, workflow/orbit_cones_from_afaces.xpnet).
 */
module OrbitPhase {
  import opened Seqs
  import opened Permutations
  import opened OrbitExpansion
  import BatchNet

  type Act = (string, Perm) -> string

  /** Entry `i` of the permutation for group index `p` points to the image of content `i`. */
  ghost predicate ActsOn(group: seq<Perm>, act: Act, files: seq<File>, action: seq<Perm>) {
    && |action| == |group|
    && (forall p :: 0 <= p < |group| ==> |action[p]| == |files|)
    && (forall p, i :: 0 <= p < |group| && 0 <= i < |files| ==> ActsAt(group, act, files, action, p, i))
  }

  ghost predicate ActsAt(group: seq<Perm>, act: Act, files: seq<File>, action: seq<Perm>, p: nat, i: nat)
    requires p < |group| == |action| && i < |files| == |action[p]|
  {
    action[p][i] < |files| && files[action[p][i]].content == act(files[i].content, group[p])
  }

  /** The group element at index `r` is the product of those at `p` and `q`. */
  ghost predicate IsProduct(group: seq<Perm>, n: nat, p: nat, q: nat, r: nat)
    requires Group(group, n) && p < |group| && q < |group| && r < |group|
  {
    assert group[p] in group && group[q] in group;
    group[r] == Compose(group[p], group[q])
  }

  // ---------- One orbit ----------

  /** The information about the orbit of one representative. */
  ghost predicate OrbitOf(group: seq<Perm>, act: Act, rep: string, info: OrbitInfo) {
    && info.elements != [] && DifferentContents(info.elements)
    && (forall c :: HasContent(info.elements, c) <==> InOrbit(group, act, rep, c))
    && (forall f :: f in info.elements ==> !Less(f.content, info.elements[0].content))
    && ActsOn(group, act, info.elements, info.action)
  }

  ghost predicate Duplicates(group: seq<Perm>, act: Act, rep: string, orbit: seq<File>) {
    |orbit| == |group| && forall i :: 0 <= i < |orbit| ==> orbit[i].content == act(rep, group[i])
  }

  /**
   * Expanding an orbit is well defined: whichever duplicate of an element the tables kept, the
   * permutations send each element to its image under the group.
   */
  lemma ExpansionIsOrbit(
      group: seq<Perm>, n: nat, act: Act, rep: string, orbit: seq<File>, info: OrbitInfo)
    requires Action(group, n, act)
    requires Duplicates(group, act, rep, orbit) && IsExpansion(group, orbit, info)
    ensures OrbitOf(group, act, rep, info)
  {
    var w :| Expanded(group, orbit, info, w);
    forall c
      ensures HasContent(info.elements, c) <==> InOrbit(group, act, rep, c)
    {
      ContentsOfOrbit(group, act, rep, orbit, info, w, c);
    }
    forall f | f in info.elements
      ensures !Less(f.content, info.elements[0].content)
    {
      var i :| 0 <= i < |info.elements| && info.elements[i] == f;
      assert orbit[w[i]] in orbit;
    }
    forall p, i | 0 <= p < |group| && 0 <= i < |info.elements|
      ensures ActsAt(group, act, info.elements, info.action, p, i)
    {
      ElementActs(group, n, act, rep, orbit, info, w, p, i);
    }
  }

  lemma ElementActs(
      group: seq<Perm>, n: nat, act: Act, rep: string, orbit: seq<File>, info: OrbitInfo, w: seq<nat>, p: nat, i: nat)
    requires Action(group, n, act) && p < |group| && i < |info.elements|
    requires Duplicates(group, act, rep, orbit) && Expanded(group, orbit, info, w)
    ensures ActsAt(group, act, info.elements, info.action, p, i)
  {
    assert ImageFound(group, orbit, info, w, p, i);
    var g, h := group[w[i]], group[p];
    assert g in group && h in group;
    LookupFinds(group, Compose(g, h));
    assert ActsTwice(act, rep, g, h);
  }

  lemma ContentsOfOrbit(
      group: seq<Perm>, act: Act, rep: string, orbit: seq<File>, info: OrbitInfo, w: seq<nat>, c: string)
    requires group != [] && Composable(group)
    requires Duplicates(group, act, rep, orbit) && Expanded(group, orbit, info, w)
    ensures HasContent(info.elements, c) <==> InOrbit(group, act, rep, c)
  {
    if HasContent(info.elements, c) {
      var f :| f in info.elements && f.content == c;
      var i :| 0 <= i < |info.elements| && info.elements[i] == f;
      assert group[w[i]] in group;
    }
    if InOrbit(group, act, rep, c) {
      var g :| g in group && c == act(rep, g);
      var i :| 0 <= i < |group| && group[i] == g;
      assert orbit[i] in orbit;
    }
  }

  // ---------- What acting by content implies ----------

  /** Every content belongs to some orbit. */
  ghost predicate AllInOrbits(group: seq<Perm>, act: Act, files: seq<File>) {
    forall f :: f in files ==> exists rep :: InOrbit(group, act, rep, f.content)
  }

  /** Permutations that act by content on files without repetition are bijections. */
  lemma ActionIsPermutation(group: seq<Perm>, n: nat, act: Act, files: seq<File>, action: seq<Perm>, p: nat)
    requires Action(group, n, act) && DifferentContents(files) && AllInOrbits(group, act, files)
    requires ActsOn(group, act, files, action) && p < |group|
    ensures IsPerm(action[p], |files|)
  {
    forall i | 0 <= i < |files|
      ensures action[p][i] < |files|
    {
      assert ActsAt(group, act, files, action, p, i);
    }
    forall i, j | 0 <= i < j < |files|
      ensures action[p][i] != action[p][j]
    {
      if action[p][i] == action[p][j] {
        assert ActsAt(group, act, files, action, p, i) && ActsAt(group, act, files, action, p, j);
        assert files[i] in files && files[j] in files;
        SameImage(group, n, act, files[i].content, files[j].content, group[p]);
      }
    }
  }

  lemma SameImage(group: seq<Perm>, n: nat, act: Act, c: string, d: string, g: Perm)
    requires Action(group, n, act) && g in group && act(c, g) == act(d, g)
    requires (exists rep :: InOrbit(group, act, rep, c)) && (exists rep :: InOrbit(group, act, rep, d))
    ensures c == d
  {
    var rep :| InOrbit(group, act, rep, c);
    var rep' :| InOrbit(group, act, rep', d);
    var h := Inverse(group, n, g);
    var a :| a in group && c == act(rep, a);
    var b :| b in group && d == act(rep', b);
    UndoAt(group, n, act, rep, a, g, h);
    UndoAt(group, n, act, rep', b, g, h);
  }

  /** They represent the opposite group: first `p`, then `q` is the permutation of the product p * q. */
  lemma ActionComposes(
      group: seq<Perm>, n: nat, act: Act, files: seq<File>, action: seq<Perm>, p: nat, q: nat, r: nat)
    requires Action(group, n, act) && DifferentContents(files) && AllInOrbits(group, act, files)
    requires ActsOn(group, act, files, action) && p < |group| && q < |group| && r < |group|
    requires IsProduct(group, n, p, q, r)
    ensures IsPerm(action[p], |files|) && IsPerm(action[q], |files|)
    ensures action[r] == Compose(action[q], action[p])
  {
    ActionIsPermutation(group, n, act, files, action, p);
    ActionIsPermutation(group, n, act, files, action, q);
    forall i | 0 <= i < |files|
      ensures action[r][i] == action[q][action[p][i]]
    {
      ImageOfImage(group, n, act, files, action, p, q, r, i);
    }
  }

  lemma ImageOfImage(
      group: seq<Perm>, n: nat, act: Act, files: seq<File>, action: seq<Perm>, p: nat, q: nat, r: nat, i: nat)
    requires Action(group, n, act) && DifferentContents(files) && i < |files|
    requires ActsOn(group, act, files, action) && p < |group| && q < |group| && r < |group|
    requires IsProduct(group, n, p, q, r)
    ensures action[p][i] < |files| && action[r][i] == action[q][action[p][i]]
  {
    assert ActsAt(group, act, files, action, p, i);
    assert ActsAt(group, act, files, action, q, action[p][i]);
    assert ActsAt(group, act, files, action, r, i);
    var c := files[i].content;
    assert group[p] in group && group[q] in group;
    assert ActsTwice(act, c, group[p], group[q]);
  }

  /** The expansion's result for any orbit: bijections that compose like the opposite group. */
  lemma OrbitActionIsGroupAction(
      group: seq<Perm>, n: nat, act: Act, rep: string, info: OrbitInfo, p: nat, q: nat, r: nat)
    requires Action(group, n, act) && OrbitOf(group, act, rep, info)
    requires p < |group| && q < |group| && r < |group| && IsProduct(group, n, p, q, r)
    ensures IsPerm(info.action[p], |info.elements|) && IsPerm(info.action[q], |info.elements|)
    ensures info.action[r] == Compose(info.action[q], info.action[p])
  {
    assert AllInOrbits(group, act, info.elements) by {
      forall f | f in info.elements
        ensures exists rep :: InOrbit(group, act, rep, f.content)
      {
        assert HasContent(info.elements, f.content);
      }
    }
    ActionComposes(group, n, act, info.elements, info.action, p, q, r);
  }

  // ---------- Which orbits are kept ----------

  /** isLastOfAllEqualOrbitConeOrbits: no later orbit has the same smallest content. */
  ghost predicate IsLast(infos: seq<OrbitInfo>, i: nat)
    requires i < |infos| && forall info :: info in infos ==> info.elements != []
  {
    forall j :: i < j < |infos| ==> infos[i].elements[0].content != infos[j].elements[0].content
  }

  method IsLastOfAllEqualOrbits(infos: seq<OrbitInfo>, orbitInfo: nat) returns (last: bool)
    requires orbitInfo < |infos| && forall info :: info in infos ==> info.elements != []
    ensures last <==> IsLast(infos, orbitInfo)
  {
    var minimalContent := infos[orbitInfo].elements[0].content;
    var other := orbitInfo + 1;
    while other < |infos|
      invariant orbitInfo < other <= |infos|
      invariant forall j :: orbitInfo < j < other ==> minimalContent != infos[j].elements[0].content
    {
      if minimalContent == infos[other].elements[0].content {
        return false;
      }
      other := other + 1;
    }
    return true;
  }

  /** What keep_unique_orbit_cones makes of element `i` of its list. */
  ghost function KeepLast(): (seq<OrbitInfo>, nat) -> seq<OrbitInfo> {
    (infos: seq<OrbitInfo>, i: nat) =>
      if i < |infos| && (forall info :: info in infos ==> info.elements != []) && IsLast(infos, i)
      then [infos[i]] else []
  }

  /** The template function keep_unique_orbit_cones_process is element-wise processing with KeepLast. */
  method KeepUniqueProcess(infos: seq<OrbitInfo>, startIndex: nat, length: nat) returns (result: seq<OrbitInfo>)
    requires startIndex + length <= |infos| && forall info :: info in infos ==> info.elements != []
    ensures result == BatchNet.Collected(KeepLast(), infos, startIndex, startIndex + length)
  {
    result := [];
    var i := 0;
    while i < length
      invariant i <= length
      invariant result == BatchNet.Collected(KeepLast(), infos, startIndex, startIndex + i)
    {
      var last := IsLastOfAllEqualOrbits(infos, startIndex + i);
      OneMoreKept(infos, startIndex, startIndex + i);
      if last {
        result := result + [infos[startIndex + i]];
      }
      i := i + 1;
    }
  }

  lemma OneMoreKept(infos: seq<OrbitInfo>, from: nat, i: nat)
    requires from <= i < |infos| && forall info :: info in infos ==> info.elements != []
    ensures BatchNet.Collected(KeepLast(), infos, from, i + 1)
         == BatchNet.Collected(KeepLast(), infos, from, i) + if IsLast(infos, i) then [infos[i]] else []
  {
    BatchNet.CollectedJoin(KeepLast(), infos, from, i, i + 1);
    assert BatchNet.Collected(KeepLast(), infos, i, i + 1) == KeepLast()(infos, i);
  }

  ghost predicate AllOrbits(group: seq<Perm>, act: Act, infos: seq<OrbitInfo>) {
    forall info :: info in infos ==> exists rep :: OrbitOf(group, act, rep, info)
  }

  /** Two orbits with the same smallest content have the same contents; with others they are disjoint. */
  lemma EqualOrDisjoint(group: seq<Perm>, n: nat, act: Act, rep: string, a: OrbitInfo, rep': string, b: OrbitInfo)
    requires Action(group, n, act) && OrbitOf(group, act, rep, a) && OrbitOf(group, act, rep', b)
    ensures a.elements[0].content == b.elements[0].content ==>
              forall c :: HasContent(a.elements, c) <==> HasContent(b.elements, c)
    ensures a.elements[0].content != b.elements[0].content ==>
              forall c :: !(HasContent(a.elements, c) && HasContent(b.elements, c))
  {
    var x, y := a.elements[0].content, b.elements[0].content;
    assert HasContent(a.elements, x) && HasContent(b.elements, y);
    forall c | HasContent(a.elements, c) && HasContent(b.elements, c)
      ensures forall d :: HasContent(a.elements, d) <==> HasContent(b.elements, d)
      ensures x == y
    {
      forall d
        ensures HasContent(a.elements, d) <==> HasContent(b.elements, d)
      {
        if HasContent(a.elements, d) { OrbitsMeet(group, n, act, rep, rep', c, d); }
        if HasContent(b.elements, d) { OrbitsMeet(group, n, act, rep', rep, c, d); }
      }
      assert HasContent(b.elements, x) && HasContent(a.elements, y);
      LessTotal(x, y);
    }
  }

  // ---------- Each content once ----------

  ghost function Contents(files: seq<File>): multiset<string> {
    if files == [] then multiset{} else multiset{files[0].content} + Contents(files[1..])
  }

  ghost function InfoContents(): OrbitInfo -> multiset<string> {
    (info: OrbitInfo) => Contents(info.elements)
  }

  lemma {:induction false} ContentsConcat(a: seq<File>, b: seq<File>)
    ensures Contents(a + b) == Contents(a) + Contents(b)
  {
    if a == [] {
      assert a + b == b;
    } else {
      assert (a + b)[1..] == a[1..] + b;
      ContentsConcat(a[1..], b);
    }
  }

  lemma {:induction false} ContentsMembers(files: seq<File>, c: string)
    ensures c in Contents(files) <==> HasContent(files, c)
    ensures DifferentContents(files) ==> Contents(files)[c] <= 1
  {
    if files != [] {
      ContentsMembers(files[1..], c);
      assert files == [files[0]] + files[1..];
      if DifferentContents(files) && c == files[0].content {
        forall f | f in files[1..]
          ensures f.content != c
        {
        }
      }
      if HasContent(files[1..], c) {
        var f :| f in files[1..] && f.content == c;
        assert f in files;
      }
    }
  }

  lemma {:induction false} CountsOne(files: seq<File>)
    requires forall c :: Contents(files)[c] <= 1
    ensures DifferentContents(files)
  {
    if files != [] {
      var rest := files[1..];
      forall c
        ensures Contents(rest)[c] <= 1
      {
        assert Contents(files)[c] <= 1;
      }
      CountsOne(rest);
      assert Contents(files)[files[0].content] <= 1;
      ContentsMembers(rest, files[0].content);
      assert !HasContent(rest, files[0].content);
      forall i, j | 0 <= i < j < |files|
        ensures files[i].content != files[j].content
      {
        assert files[j] == rest[j - 1];
        if i > 0 {
          assert files[i] == rest[i - 1];
        }
      }
    }
  }

  /** Some orbit of the list, from index `from` on, has this content. */
  ghost predicate Occurs(infos: seq<OrbitInfo>, from: nat, c: string) {
    exists j :: from <= j < |infos| && HasContent(infos[j].elements, c)
  }

  /** Keeping the last of equal orbits keeps each content exactly once. */
  lemma {:induction false} KeptOnce(group: seq<Perm>, n: nat, act: Act, infos: seq<OrbitInfo>, from: nat, c: string)
    requires Action(group, n, act) && AllOrbits(group, act, infos) && from <= |infos|
    ensures Bag(InfoContents(), BatchNet.Collected(KeepLast(), infos, from, |infos|))[c]
            == if Occurs(infos, from, c) then 1 else 0
    decreases |infos| - from
  {
    if from < |infos| {
      KeptOnce(group, n, act, infos, from + 1, c);
      OccursFrom(infos, from, c);
      var info := infos[from];
      assert info in infos;
      var rep :| OrbitOf(group, act, rep, info);
      ContentsMembers(info.elements, c);
      var rest := BatchNet.Collected(KeepLast(), infos, from + 1, |infos|);
      if IsLast(infos, from) {
        assert ([info] + rest)[1..] == rest;
        NoneLater(group, n, act, infos, from, c);
      } else {
        LaterHasIt(group, n, act, infos, from, c);
        assert KeepLast()(infos, from) == [] && [] + rest == rest;
      }
    }
  }

  lemma OccursFrom(infos: seq<OrbitInfo>, from: nat, c: string)
    requires from < |infos|
    ensures Occurs(infos, from, c) <==> HasContent(infos[from].elements, c) || Occurs(infos, from + 1, c)
  {
  }

  lemma LaterHasIt(group: seq<Perm>, n: nat, act: Act, infos: seq<OrbitInfo>, from: nat, c: string)
    requires Action(group, n, act) && AllOrbits(group, act, infos) && from < |infos|
    requires forall info :: info in infos ==> info.elements != []
    requires !IsLast(infos, from)
    ensures HasContent(infos[from].elements, c) ==> Occurs(infos, from + 1, c)
  {
    var j :| from < j < |infos| && infos[from].elements[0].content == infos[j].elements[0].content;
    assert infos[from] in infos && infos[j] in infos;
    var rep :| OrbitOf(group, act, rep, infos[from]);
    var rep' :| OrbitOf(group, act, rep', infos[j]);
    EqualOrDisjoint(group, n, act, rep, infos[from], rep', infos[j]);
  }

  lemma NoneLater(group: seq<Perm>, n: nat, act: Act, infos: seq<OrbitInfo>, from: nat, c: string)
    requires Action(group, n, act) && AllOrbits(group, act, infos) && from < |infos|
    requires forall info :: info in infos ==> info.elements != []
    requires IsLast(infos, from)
    ensures !(HasContent(infos[from].elements, c) && Occurs(infos, from + 1, c))
  {
    if HasContent(infos[from].elements, c) && Occurs(infos, from + 1, c) {
      var j :| from + 1 <= j < |infos| && HasContent(infos[j].elements, c);
      assert infos[from] in infos && infos[j] in infos;
      var rep :| OrbitOf(group, act, rep, infos[from]);
      var rep' :| OrbitOf(group, act, rep', infos[j]);
      EqualOrDisjoint(group, n, act, rep, infos[from], rep', infos[j]);
    }
  }

  // ---------- Flattening ----------

  ghost function Flattened(infos: seq<OrbitInfo>): seq<File> {
    if infos == [] then []
    else Flattened(infos[..|infos| - 1]) + infos[|infos| - 1].elements
  }

  ghost function Shifted(row: Perm, shift: nat): Perm {
    seq(|row|, i requires 0 <= i < |row| => row[i] + shift)
  }

  ghost function FlattenedRow(infos: seq<OrbitInfo>, p: nat): Perm
    requires forall info :: info in infos ==> p < |info.action|
  {
    if infos == [] then []
    else
      var before := infos[..|infos| - 1];
      FlattenedRow(before, p) + Shifted(infos[|infos| - 1].action[p], |Flattened(before)|)
  }

  /** removeOrbitStructureAndReturnSymmetryGroupOnHashesFile */
  method RemoveOrbitStructure(groupSize: nat, infos: seq<OrbitInfo>)
      returns (flattened: seq<File>, action: seq<Perm>)
    requires forall info :: info in infos ==> |info.action| == groupSize
    ensures flattened == Flattened(infos) && |action| == groupSize
    ensures forall p :: 0 <= p < groupSize ==> action[p] == FlattenedRow(infos, p)
  {
    flattened, action := [], seq(groupSize, _ => []);
    var k := 0;
    while k < |infos|
      invariant k <= |infos| && flattened == Flattened(infos[..k]) && |action| == groupSize
      invariant forall p :: 0 <= p < groupSize ==> action[p] == FlattenedRow(infos[..k], p)
    {
      assert infos[..k + 1][..k] == infos[..k];
      var shift := |flattened|;
      var permutationIndex := 0;
      while permutationIndex < groupSize
        invariant permutationIndex <= groupSize == |action|
        invariant forall p :: permutationIndex <= p < groupSize ==> action[p] == FlattenedRow(infos[..k], p)
        invariant forall p :: 0 <= p < permutationIndex ==> action[p] == FlattenedRow(infos[..k + 1], p)
      {
        var row := ShiftRow(infos[k].action[permutationIndex], shift);
        action := action[permutationIndex := action[permutationIndex] + row];
        permutationIndex := permutationIndex + 1;
      }
      flattened := flattened + infos[k].elements;
      k := k + 1;
    }
    assert infos[..k] == infos;
  }

  method ShiftRow(row: Perm, shift: nat) returns (shifted: Perm)
    ensures shifted == Shifted(row, shift)
  {
    shifted := [];
    var i := 0;
    while i < |row|
      invariant i == |shifted| <= |row| && forall j :: 0 <= j < i ==> shifted[j] == row[j] + shift
    {
      shifted := shifted + [row[i] + shift];
      i := i + 1;
    }
  }

  lemma {:induction false} FlattenedContents(infos: seq<OrbitInfo>)
    ensures Contents(Flattened(infos)) == Bag(InfoContents(), infos)
    decreases |infos|
  {
    if infos != [] {
      var n := |infos| - 1;
      FlattenedContents(infos[..n]);
      ContentsConcat(Flattened(infos[..n]), infos[n].elements);
      BagAppend(InfoContents(), infos[..n], infos[n]);
      assert infos == infos[..n] + [infos[n]];
    }
  }

  /** Shifting and concatenating keeps acting by content. */
  lemma {:induction false} FlattenedActs(group: seq<Perm>, act: Act, infos: seq<OrbitInfo>, p: nat)
    requires p < |group|
    requires forall info :: info in infos ==> p < |info.action|
    requires forall info :: info in infos ==> ActsOn(group, act, info.elements, info.action)
    ensures |FlattenedRow(infos, p)| == |Flattened(infos)|
    ensures forall i :: 0 <= i < |Flattened(infos)| ==>
              && FlattenedRow(infos, p)[i] < |Flattened(infos)|
              && Flattened(infos)[FlattenedRow(infos, p)[i]].content == act(Flattened(infos)[i].content, group[p])
    decreases |infos|
  {
    if infos != [] {
      var n := |infos| - 1;
      var last := infos[n];
      FlattenedActs(group, act, infos[..n], p);
      assert last in infos;
      var shift := |Flattened(infos[..n])|;
      forall i | shift <= i < |Flattened(infos)|
        ensures FlattenedRow(infos, p)[i] < |Flattened(infos)|
        ensures Flattened(infos)[FlattenedRow(infos, p)[i]].content == act(Flattened(infos)[i].content, group[p])
      {
        assert ActsAt(group, act, last.elements, last.action, p, i - shift);
        assert FlattenedRow(infos, p)[i] == last.action[p][i - shift] + shift;
      }
    }
  }

  /**
   * The orbit phase.  Expanding any list of representatives, keeping the last of equal orbits (in whatever
   * order the batches deliver them) and flattening gives a list with the contents of all the orbits, each
   * of them once, on which the concatenated permutations act as the group does.
   */
  lemma OrbitPhaseCorrect(
      group: seq<Perm>, n: nat, act: Act, infos: seq<OrbitInfo>, kept: seq<OrbitInfo>,
      flattened: seq<File>, action: seq<Perm>)
    requires Action(group, n, act) && AllOrbits(group, act, infos)
    requires PhaseResult(group, infos, kept, flattened, action)
    ensures forall c :: Contents(flattened)[c] == if Occurs(infos, 0, c) then 1 else 0
    ensures DifferentContents(flattened)
    ensures ActsOn(group, act, flattened, action)
    ensures AllInOrbits(group, act, flattened)
  {
    var collected := BatchNet.Collected(KeepLast(), infos, 0, |infos|);
    forall c
      ensures Contents(flattened)[c] == if Occurs(infos, 0, c) then 1 else 0
    {
      FlattenedContents(kept);
      BagOfPermutation(InfoContents(), kept, collected);
      KeptOnce(group, n, act, infos, 0, c);
    }
    CountsOne(flattened);
    forall info | info in kept
      ensures info in infos
    {
      assert info in multiset(kept);
      assert info in collected;
      CollectedMembers(infos, 0, info);
    }
    forall p, i | 0 <= p < |group| && 0 <= i < |flattened|
      ensures |action[p]| == |flattened| && ActsAt(group, act, flattened, action, p, i)
    {
      FlattenedActs(group, act, kept, p);
    }
    forall p | 0 <= p < |group|
      ensures |action[p]| == |flattened|
    {
      FlattenedActs(group, act, kept, p);
    }
    forall f | f in flattened
      ensures exists rep :: InOrbit(group, act, rep, f.content)
    {
      ContentsMembers(flattened, f.content);
      assert HasContent(flattened, f.content);
      assert Contents(flattened)[f.content] > 0;
      var j :| 0 <= j < |infos| && HasContent(infos[j].elements, f.content);
      assert infos[j] in infos;
      var rep :| OrbitOf(group, act, rep, infos[j]);
    }
  }

  /** Entry `k` is the orbit of representative `k`, counting in the order in which the batches were joined. */
  ghost predicate OrbitsOf(group: seq<Perm>, act: Act, reps: seq<string>, infos: seq<OrbitInfo>) {
    |reps| == |infos| && forall k :: 0 <= k < |infos| ==> OrbitOf(group, act, reps[k], infos[k])
  }

  lemma OrbitContents(group: seq<Perm>, act: Act, rep: string, info: OrbitInfo, c: string)
    requires OrbitOf(group, act, rep, info)
    ensures HasContent(info.elements, c) <==> InOrbit(group, act, rep, c)
  {
  }

  lemma OrbitsAreOrbits(group: seq<Perm>, act: Act, reps: seq<string>, infos: seq<OrbitInfo>)
    requires OrbitsOf(group, act, reps, infos)
    ensures AllOrbits(group, act, infos)
  {
    forall info | info in infos
      ensures exists rep :: OrbitOf(group, act, rep, info)
    {
      var k :| 0 <= k < |infos| && infos[k] == info;
      assert OrbitOf(group, act, reps[k], infos[k]);
    }
  }

  /** The flattened list of a phase, with its permutations. */
  ghost predicate PhaseResult(
      group: seq<Perm>, infos: seq<OrbitInfo>, kept: seq<OrbitInfo>, flattened: seq<File>, action: seq<Perm>)
  {
    && multiset(kept) == multiset(BatchNet.Collected(KeepLast(), infos, 0, |infos|))
    && (forall info :: info in kept ==> |info.action| == |group|)
    && flattened == Flattened(kept) && |action| == |group|
    && (forall p :: 0 <= p < |group| ==> action[p] == FlattenedRow(kept, p))
  }

  /** In terms of the representatives: exactly their orbits, each content once. */
  lemma OrbitPhaseLossless(
      group: seq<Perm>, n: nat, act: Act, reps: seq<string>, infos: seq<OrbitInfo>, kept: seq<OrbitInfo>,
      flattened: seq<File>, action: seq<Perm>, c: string)
    requires Action(group, n, act) && OrbitsOf(group, act, reps, infos)
    requires PhaseResult(group, infos, kept, flattened, action)
    ensures Contents(flattened)[c] == if exists rep :: rep in reps && InOrbit(group, act, rep, c) then 1 else 0
  {
    OrbitsAreOrbits(group, act, reps, infos);
    OrbitPhaseCorrect(group, n, act, infos, kept, flattened, action);
    OccursInOrbits(group, act, reps, infos, c);
  }

  /** The concatenated permutations are bijections of the whole list that compose like the opposite group. */
  lemma FlattenedActionIsGroupAction(
      group: seq<Perm>, n: nat, act: Act, infos: seq<OrbitInfo>, kept: seq<OrbitInfo>,
      flattened: seq<File>, action: seq<Perm>, p: nat, q: nat, r: nat)
    requires Action(group, n, act) && AllOrbits(group, act, infos)
    requires PhaseResult(group, infos, kept, flattened, action)
    requires p < |group| && q < |group| && r < |group| && IsProduct(group, n, p, q, r)
    ensures IsPerm(action[p], |flattened|) && IsPerm(action[q], |flattened|)
    ensures action[r] == Compose(action[q], action[p])
  {
    OrbitPhaseCorrect(group, n, act, infos, kept, flattened, action);
    ActionComposes(group, n, act, flattened, action, p, q, r);
  }

  lemma OccursInOrbits(group: seq<Perm>, act: Act, reps: seq<string>, infos: seq<OrbitInfo>, c: string)
    requires OrbitsOf(group, act, reps, infos)
    ensures Occurs(infos, 0, c) <==> exists rep :: rep in reps && InOrbit(group, act, rep, c)
  {
    forall k | 0 <= k < |infos|
      ensures HasContent(infos[k].elements, c) <==> InOrbit(group, act, reps[k], c)
    {
      OrbitContents(group, act, reps[k], infos[k], c);
    }
  }

  lemma {:induction false} CollectedMembers(infos: seq<OrbitInfo>, from: nat, info: OrbitInfo)
    requires info in BatchNet.Collected(KeepLast(), infos, from, |infos|)
    ensures info in infos
    decreases |infos| - from
  {
    if from < |infos| && info !in KeepLast()(infos, from) {
      CollectedMembers(infos, from + 1, info);
    }
  }

  // ---------- The permutations are a group again ----------

  lemma NeutralOnOrbits(group: seq<Perm>, n: nat, act: Act, c: string)
    requires Action(group, n, act) && exists rep :: InOrbit(group, act, rep, c)
    ensures act(c, Identity(n)) == c
  {
    var rep :| InOrbit(group, act, rep, c);
    var g :| g in group && c == act(rep, g);
    IdentityNeutral(g, n);
    assert ActsTwice(act, rep, g, Identity(n));
  }

  lemma NeutralRow(group: seq<Perm>, n: nat, act: Act, files: seq<File>, action: seq<Perm>, e: nat)
    requires Action(group, n, act) && DifferentContents(files) && AllInOrbits(group, act, files)
    requires ActsOn(group, act, files, action) && e < |group| && group[e] == Identity(n)
    ensures action[e] == Identity(|files|)
  {
    forall i | 0 <= i < |files|
      ensures action[e][i] == i
    {
      assert ActsAt(group, act, files, action, e, i) && files[i] in files;
      NeutralOnOrbits(group, n, act, files[i].content);
    }
  }

  lemma ProductRow(group: seq<Perm>, n: nat, act: Act, files: seq<File>, action: seq<Perm>, p: nat, q: nat)
    requires Action(group, n, act) && DifferentContents(files) && AllInOrbits(group, act, files)
    requires ActsOn(group, act, files, action) && p < |group| && q < |group|
    ensures IsPerm(action[p], |files|) && IsPerm(action[q], |files|)
    ensures Compose(action[p], action[q]) in action
  {
    assert group[q] in group && group[p] in group && Compose(group[q], group[p]) in group;
    var r :| 0 <= r < |group| && group[r] == Compose(group[q], group[p]);
    ActionComposes(group, n, act, files, action, q, p, r);
    assert action[r] in action;
  }

  /** Acting by content on files without repetition, the rows are a group of permutations of the files. */
  lemma ActionIsGroup(group: seq<Perm>, n: nat, act: Act, files: seq<File>, action: seq<Perm>)
    requires Action(group, n, act) && DifferentContents(files) && AllInOrbits(group, act, files)
    requires ActsOn(group, act, files, action)
    ensures Group(action, |files|)
  {
    forall g | g in action
      ensures IsPerm(g, |files|)
    {
      var p :| 0 <= p < |action| && action[p] == g;
      ActionIsPermutation(group, n, act, files, action, p);
    }
    var e :| 0 <= e < |group| && group[e] == Identity(n);
    NeutralRow(group, n, act, files, action, e);
    assert action[e] in action;
    forall g, h | g in action && h in action
      ensures Compose(g, h) in action
    {
      var p :| 0 <= p < |action| && action[p] == g;
      var q :| 0 <= q < |action| && action[q] == h;
      ProductRow(group, n, act, files, action, p, q);
    }
  }

  /** The symmetry group on hashes that the traversal starts from is a group. */
  lemma FlattenedIsGroup(
      group: seq<Perm>, n: nat, act: Act, infos: seq<OrbitInfo>, kept: seq<OrbitInfo>,
      flattened: seq<File>, action: seq<Perm>)
    requires Action(group, n, act) && AllOrbits(group, act, infos)
    requires PhaseResult(group, infos, kept, flattened, action)
    ensures Group(action, |flattened|)
  {
    OrbitPhaseCorrect(group, n, act, infos, kept, flattened, action);
    ActionIsGroup(group, n, act, flattened, action);
  }
}
