/**
 * The nets of the orbit phase one after the other (workflow/orbit_cones_from_afaces.xpnet): a run that expands
 * the orbits of the representatives, a run that keeps one of equal orbits, and the flattening of what is left.
 */
module OrbitRun {
  import opened Arithmetic
  import opened Seqs
  import opened Permutations
  import opened OrbitExpansion
  import opened OrbitPhase
  import BatchNet

  /** The list place holds representatives before the first of the two nets, orbits after it. */
  datatype Item = Representative(content: string) | Orbit(info: OrbitInfo)

  ghost function Representatives(reps: seq<string>): seq<Item> {
    seq(|reps|, i requires 0 <= i < |reps| => Representative(reps[i]))
  }

  ghost function InfoOf(item: Item): OrbitInfo {
    match item
    case Representative(_) => OrbitInfo([], [])
    case Orbit(info) => info
  }

  ghost function Infos(items: seq<Item>): seq<OrbitInfo> {
    seq(|items|, i requires 0 <= i < |items| => InfoOf(items[i]))
  }

  /** What expandOrbitConeOrbit may make of a representative, whichever paths it gives the duplicates. */
  ghost predicate ExpansionOf(group: seq<Perm>, n: nat, act: Act, rep: string, info: OrbitInfo)
    requires Group(group, n)
  {
    exists orbit :: Duplicates(group, act, rep, orbit) && IsExpansion(group, orbit, info)
  }

  ghost predicate ExpandsTo(group: seq<Perm>, n: nat, act: Act, rep: string, result: seq<Item>)
    requires Group(group, n)
  {
    |result| == 1 && result[0].Orbit? && ExpansionOf(group, n, act, rep, result[0].info)
  }

  /** expand_orbit_cone_orbits_process expands each representative. */
  ghost predicate Expands(group: seq<Perm>, n: nat, act: Act, each: (seq<Item>, nat) -> seq<Item>)
    requires Group(group, n)
  {
    forall list: seq<Item>, i: nat :: i < |list| && list[i].Representative? ==>
      ExpandsTo(group, n, act, list[i].content, each(list, i))
  }

  /** A finished run of a net that is not skipped and treats the elements of its list one by one. */
  ghost predicate Ran<E(!new)>(
      net: BatchNet.Net<E>, each: (seq<E>, nat) -> seq<E>, list: seq<E>,
      states: seq<BatchNet.State<E>>, events: seq<BatchNet.Event>, result: seq<E>)
  {
    && |list| < TWO_TO_THE_64 && net.batchSize >= 1 && !net.skip && BatchNet.ElementWise(net, each)
    && BatchNet.IsRun(net, list, states, events)
    && states[|events|].finished > 0 && states[|events|].list == [result]
  }

  lemma RanOnce<E(!new)>(
      net: BatchNet.Net<E>, each: (seq<E>, nat) -> seq<E>, list: seq<E>,
      states: seq<BatchNet.State<E>>, events: seq<BatchNet.Event>, result: seq<E>)
    requires Ran(net, each, list, states, events, result)
    ensures multiset(result) == multiset(BatchNet.Collected(each, list, 0, |list|))
  {
    BatchNet.ElementWiseCorrect(net, each, list, states, events);
  }

  /** The item is the orbit of a representative. */
  ghost predicate OrbitItem(group: seq<Perm>, act: Act, rep: string, item: Item) {
    item.Orbit? && OrbitOf(group, act, rep, item.info)
  }

  lemma ExpandedItem(group: seq<Perm>, n: nat, act: Act, rep: string, result: seq<Item>)
    requires Action(group, n, act) && ExpandsTo(group, n, act, rep, result)
    ensures result == [result[0]] && OrbitItem(group, act, rep, result[0])
  {
    var orbit :| Duplicates(group, act, rep, orbit) && IsExpansion(group, orbit, result[0].info);
    ExpansionIsOrbit(group, n, act, rep, orbit, result[0].info);
  }

  /** Item `k` is the orbit of representative `from + k`. */
  ghost predicate OrbitItems(group: seq<Perm>, act: Act, reps: seq<string>, from: nat, items: seq<Item>) {
    from + |items| == |reps| && forall k :: 0 <= k < |items| ==> OrbitItem(group, act, reps[from + k], items[k])
  }

  ghost predicate EachIsOrbit(
      group: seq<Perm>, act: Act, each: (seq<Item>, nat) -> seq<Item>, reps: seq<string>, list: seq<Item>)
  {
    |list| == |reps| && forall i: nat :: i < |list| ==> IsOrbitAt(group, act, reps[i], each(list, i))
  }

  ghost predicate IsOrbitAt(group: seq<Perm>, act: Act, rep: string, result: seq<Item>) {
    |result| == 1 && OrbitItem(group, act, rep, result[0])
  }

  lemma ExpandedIsOrbit(
      group: seq<Perm>, n: nat, act: Act, each: (seq<Item>, nat) -> seq<Item>, reps: seq<string>)
    requires Action(group, n, act) && Expands(group, n, act, each)
    ensures EachIsOrbit(group, act, each, reps, Representatives(reps))
  {
    var list := Representatives(reps);
    forall i: nat | i < |list|
      ensures IsOrbitAt(group, act, reps[i], each(list, i))
    {
      assert ExpandsTo(group, n, act, list[i].content, each(list, i));
      ExpandedItem(group, n, act, reps[i], each(list, i));
    }
  }

  /** One pass makes of the representatives from `from` on their orbits, in order. */
  lemma {:induction false} CollectedOrbits(
      group: seq<Perm>, act: Act, each: (seq<Item>, nat) -> seq<Item>, reps: seq<string>, list: seq<Item>, from: nat)
    requires EachIsOrbit(group, act, each, reps, list) && from <= |reps|
    ensures OrbitItems(group, act, reps, from, BatchNet.Collected(each, list, from, |list|))
    decreases |reps| - from
  {
    if from < |reps| {
      var first, rest := each(list, from), BatchNet.Collected(each, list, from + 1, |list|);
      CollectedOrbits(group, act, each, reps, list, from + 1);
      assert IsOrbitAt(group, act, reps[from], first) && first == [first[0]];
      FirstAndRest(group, act, reps, from, first[0], rest);
      assert BatchNet.Collected(each, list, from, |list|) == first + rest;
    }
  }

  lemma FirstAndRest(group: seq<Perm>, act: Act, reps: seq<string>, from: nat, first: Item, rest: seq<Item>)
    requires from < |reps| && OrbitItem(group, act, reps[from], first)
    requires OrbitItems(group, act, reps, from + 1, rest)
    ensures OrbitItems(group, act, reps, from, [first] + rest)
  {
  }

  ghost predicate OfSomeRepresentative(group: seq<Perm>, act: Act, reps: seq<string>, info: OrbitInfo) {
    exists rep :: rep in reps && OrbitOf(group, act, rep, info)
  }

  ghost predicate HasOrbit(group: seq<Perm>, act: Act, rep: string, infos: seq<OrbitInfo>) {
    exists info :: info in infos && OrbitOf(group, act, rep, info)
  }

  /** After expansion, in whatever order: only orbits of representatives, and the orbit of each of them. */
  ghost predicate OrbitsOfAll(group: seq<Perm>, act: Act, reps: seq<string>, infos: seq<OrbitInfo>) {
    && (forall info :: info in infos ==> OfSomeRepresentative(group, act, reps, info))
    && (forall rep :: rep in reps ==> HasOrbit(group, act, rep, infos))
  }

  lemma ExpansionRun(
      group: seq<Perm>, n: nat, act: Act, reps: seq<string>,
      net: BatchNet.Net<Item>, each: (seq<Item>, nat) -> seq<Item>,
      states: seq<BatchNet.State<Item>>, events: seq<BatchNet.Event>, items: seq<Item>)
    requires Action(group, n, act) && Expands(group, n, act, each)
    requires Ran(net, each, Representatives(reps), states, events, items)
    ensures OrbitsOfAll(group, act, reps, Infos(items))
  {
    var list, from := Representatives(reps), 0;
    RanOnce(net, each, list, states, events, items);
    ExpandedIsOrbit(group, n, act, each, reps);
    CollectedOrbits(group, act, each, reps, list, from);
    SameOrbits(group, act, reps, from, BatchNet.Collected(each, list, from, |list|), items);
  }

  lemma SameOrbits(
      group: seq<Perm>, act: Act, reps: seq<string>, from: nat, collected: seq<Item>, items: seq<Item>)
    requires multiset(items) == multiset(collected) && from == 0 && OrbitItems(group, act, reps, from, collected)
    ensures OrbitsOfAll(group, act, reps, Infos(items))
  {
    forall info | info in Infos(items)
      ensures OfSomeRepresentative(group, act, reps, info)
    {
      var i :| 0 <= i < |items| && InfoOf(items[i]) == info;
      assert items[i] in multiset(items);
      var k :| 0 <= k < |collected| && collected[k] == items[i];
      assert OrbitItem(group, act, reps[from + k], collected[k]);
    }
    forall rep | rep in reps
      ensures HasOrbit(group, act, rep, Infos(items))
    {
      var k :| 0 <= k < |reps| && reps[k] == rep;
      assert OrbitItem(group, act, reps[from + k], collected[k]) && collected[k] in multiset(collected);
      var i :| 0 <= i < |items| && items[i] == collected[k];
      assert Infos(items)[i] == InfoOf(items[i]);
    }
  }

  ghost predicate InSomeOrbit(group: seq<Perm>, act: Act, reps: seq<string>, c: string) {
    exists rep :: rep in reps && InOrbit(group, act, rep, c)
  }

  lemma OccursIff(group: seq<Perm>, act: Act, reps: seq<string>, infos: seq<OrbitInfo>, c: string)
    requires OrbitsOfAll(group, act, reps, infos)
    ensures Occurs(infos, 0, c) <==> InSomeOrbit(group, act, reps, c)
  {
    if j :| 0 <= j < |infos| && HasContent(infos[j].elements, c) {
      assert infos[j] in infos && OfSomeRepresentative(group, act, reps, infos[j]);
      var rep :| rep in reps && OrbitOf(group, act, rep, infos[j]);
      OrbitContents(group, act, rep, infos[j], c);
    }
    if rep :| rep in reps && InOrbit(group, act, rep, c) {
      assert HasOrbit(group, act, rep, infos);
      var info :| info in infos && OrbitOf(group, act, rep, info);
      OrbitContents(group, act, rep, info, c);
      var j :| 0 <= j < |infos| && infos[j] == info;
    }
  }

  lemma OnlyOrbits(group: seq<Perm>, act: Act, reps: seq<string>, infos: seq<OrbitInfo>)
    requires OrbitsOfAll(group, act, reps, infos)
    ensures AllOrbits(group, act, infos)
  {
    forall info | info in infos
      ensures exists rep :: OrbitOf(group, act, rep, info)
    {
      assert OfSomeRepresentative(group, act, reps, info);
    }
  }

  /** What removeOrbitStructure is called with, and what it then returns. */
  ghost predicate RemovedStructure(group: seq<Perm>, kept: seq<OrbitInfo>, flattened: seq<File>, action: seq<Perm>) {
    (forall info :: info in kept ==> |info.action| == |group|) ==>
      && flattened == Flattened(kept) && |action| == |group|
      && forall p :: 0 <= p < |group| ==> action[p] == FlattenedRow(kept, p)
  }

  lemma KeepRun(
      group: seq<Perm>, act: Act, infos: seq<OrbitInfo>, net: BatchNet.Net<OrbitInfo>,
      states: seq<BatchNet.State<OrbitInfo>>, events: seq<BatchNet.Event>, kept: seq<OrbitInfo>,
      flattened: seq<File>, action: seq<Perm>)
    requires AllOrbits(group, act, infos)
    requires Ran(net, KeepLast(), infos, states, events, kept) && RemovedStructure(group, kept, flattened, action)
    ensures PhaseResult(group, infos, kept, flattened, action)
  {
    RanOnce(net, KeepLast(), infos, states, events, kept);
    KeptHaveActions(group, act, infos, kept);
  }

  lemma KeptHaveActions(group: seq<Perm>, act: Act, infos: seq<OrbitInfo>, kept: seq<OrbitInfo>)
    requires AllOrbits(group, act, infos)
    requires multiset(kept) == multiset(BatchNet.Collected(KeepLast(), infos, 0, |infos|))
    ensures forall info :: info in kept ==> |info.action| == |group|
  {
    forall info | info in kept
      ensures |info.action| == |group|
    {
      assert info in multiset(kept);
      CollectedMembers(infos, 0, info);
      var rep :| OrbitOf(group, act, rep, info);
    }
  }

  /** The list has each content of the orbits of the representatives once, and no other content. */
  ghost predicate EachContentOnce(group: seq<Perm>, act: Act, reps: seq<string>, flattened: seq<File>) {
    forall c :: Contents(flattened)[c] == if InSomeOrbit(group, act, reps, c) then 1 else 0
  }

  lemma PhaseGives(
      group: seq<Perm>, n: nat, act: Act, reps: seq<string>, infos: seq<OrbitInfo>, kept: seq<OrbitInfo>,
      flattened: seq<File>, action: seq<Perm>)
    requires Action(group, n, act) && OrbitsOfAll(group, act, reps, infos)
    requires PhaseResult(group, infos, kept, flattened, action)
    ensures EachContentOnce(group, act, reps, flattened) && ActsOn(group, act, flattened, action)
    ensures Group(action, |flattened|)
  {
    OnlyOrbits(group, act, reps, infos);
    OrbitPhaseCorrect(group, n, act, infos, kept, flattened, action);
    FlattenedIsGroup(group, n, act, infos, kept, flattened, action);
    forall c
      ensures Contents(flattened)[c] == if InSomeOrbit(group, act, reps, c) then 1 else 0
    {
      OccursIff(group, act, reps, infos, c);
    }
  }

  /**
   * The orbit phase from end to end: whatever the interleaving of both runs, the flattened list has each
   * content of the orbits of the representatives once and nothing else, and the joined permutations act on it
   * as the group does and are a group of permutations of it.
   */
  lemma OrbitPhaseRuns(
      group: seq<Perm>, n: nat, act: Act, reps: seq<string>,
      expansion: BatchNet.Net<Item>, each: (seq<Item>, nat) -> seq<Item>,
      expanding: seq<BatchNet.State<Item>>, events: seq<BatchNet.Event>, items: seq<Item>,
      keep: BatchNet.Net<OrbitInfo>,
      keeping: seq<BatchNet.State<OrbitInfo>>, keepEvents: seq<BatchNet.Event>, kept: seq<OrbitInfo>,
      flattened: seq<File>, action: seq<Perm>)
    requires Action(group, n, act) && Expands(group, n, act, each)
    requires Ran(expansion, each, Representatives(reps), expanding, events, items)
    requires Ran(keep, KeepLast(), Infos(items), keeping, keepEvents, kept)
    requires RemovedStructure(group, kept, flattened, action)
    ensures EachContentOnce(group, act, reps, flattened) && ActsOn(group, act, flattened, action)
    ensures Group(action, |flattened|)
  {
    ExpansionRun(group, n, act, reps, expansion, each, expanding, events, items);
    OnlyOrbits(group, act, reps, Infos(items));
    KeepRun(group, act, Infos(items), keep, keeping, keepEvents, kept, flattened, action);
    PhaseGives(group, n, act, reps, Infos(items), kept, flattened, action);
  }
}
