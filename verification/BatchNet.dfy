/**
 * The Petri net that processes a list in parallel batches (workflow/list_manipulation.xpnet.in).  The
 * places around its task farm are modelled here; the functions of a template instance
 * (workflow/list_manipulation_function_container.hpp) are the parameters `skip`, `batchSize` and `process`.
 */
module BatchNet {
  import opened Arithmetic
  import opened Seqs
  import Farm

  datatype Range = Range(start: nat, length: nat)

  datatype Net<!E> = Net(skip: bool, batchSize: nat, process: (seq<E>, nat, nat) -> seq<E>)

  datatype State<E> = State(
    enabled: nat,
    finished: nat,
    list: seq<seq<E>>,           // inout_list
    skip: seq<bool>,
    batchSize: seq<nat>,
    listSize: seq<nat>,
    farm: Farm.State<Range, Range, E>)

  datatype Event = Init | Skip | NoSkip | Work(e: Farm.Event) | Clean

  ghost function NoFarm<E>(): Farm.State<Range, Range, E> {
    Farm.State([], [], [], [], [], [], [], [], [])
  }

  ghost function Start<E>(list: seq<E>): State<E> {
    State(1, 0, [list], [], [], [], NoFarm())
  }

  /** generate_tasks: the range after the last one. */
  function NextRange(last: Range, listSize: nat, batchSize: nat): Farm.Generated<Range, Range> {
    var start := last.start + last.length;
    var length := Min(Word(listSize - start), batchSize);
    var range := Range(start, length);
    Farm.Generated(range, range, start + length >= listSize)
  }

  ghost function PlanOf<E>(net: Net<E>, list: seq<E>, listSize: nat, batchSize: nat): Farm.Plan<Range, Range, E> {
    Farm.Plan(
      (last: Range) => NextRange(last, listSize, batchSize),
      (range: Range) => net.process(list, range.start, range.length))
  }

  /** The plan the tokens that are only read make up. */
  ghost function Plan<E>(net: Net<E>, s: State<E>): Farm.Plan<Range, Range, E>
    requires s.list != [] && s.listSize != [] && s.batchSize != []
  {
    PlanOf(net, s.list[0], s.listSize[0], s.batchSize[0])
  }

  ghost predicate Enabled<E>(net: Net<E>, s: State<E>, e: Event) {
    match e
    case Init => s.enabled > 0
    case Skip => s.skip != [] && s.batchSize != [] && s.skip[0]
    case NoSkip => s.skip != [] && s.batchSize != [] && s.list != [] && !s.skip[0]
    case Work(w) =>
      s.list != [] && s.listSize != [] && s.batchSize != [] && Farm.Enabled(Plan(net, s), s.farm, w)
    case Clean =>
      s.list != [] && s.listSize != [] && s.batchSize != [] && Farm.Done(s.farm)
  }

  ghost function Fire<E>(net: Net<E>, s: State<E>, e: Event): State<E>
    requires Enabled(net, s, e)
  {
    match e
    case Init =>
      s.(enabled := s.enabled - 1, skip := s.skip + [net.skip], batchSize := s.batchSize + [net.batchSize])
    case Skip =>
      s.(skip := s.skip[1..], batchSize := s.batchSize[1..], finished := s.finished + 1)
    case NoSkip =>
      var size := |s.list[0]|;
      var length := Min(size, s.batchSize[0]);
      var first := Range(0, length);
      s.(skip := s.skip[1..],
         listSize := s.listSize + [size],
         farm := s.farm.(last := s.farm.last + [first],
                         tasks := s.farm.tasks + [first],
                         created := s.farm.created + [first],
                         counter := s.farm.counter + [1],
                         finished := s.farm.finished + [length >= size],
                         list := s.farm.list + [[]]))
    case Work(w) =>
      s.(farm := Farm.Fire(Plan(net, s), s.farm, w))
    case Clean =>
      s.(list := s.list[1..] + [s.farm.list[0]],
         listSize := s.listSize[1..],
         batchSize := s.batchSize[1..],
         finished := s.finished + 1,
         farm := s.farm.(finished := s.farm.finished[1..], counter := s.farm.counter[1..],
                         list := s.farm.list[1..], last := s.farm.last[1..]))
  }

  ghost predicate Follows<E>(net: Net<E>, s: State<E>, e: Event, s': State<E>) {
    Enabled(net, s, e) && s' == Fire(net, s, e)
  }

  ghost predicate IsRun<E>(net: Net<E>, list: seq<E>, states: seq<State<E>>, events: seq<Event>) {
    && |states| == |events| + 1 && states[0] == Start(list)
    && forall i :: 0 <= i < |events| ==> Follows(net, states[i], events[i], states[i + 1])
  }

  // ---------- Ranges ----------

  /** The ranges follow each other without gap or overlap, from 0 to `end`. */
  ghost predicate Tiles(ranges: seq<Range>, end: nat) {
    if ranges == [] then end == 0
    else
      var last := ranges[|ranges| - 1];
      last.start + last.length == end && Tiles(ranges[..|ranges| - 1], last.start)
  }

  ghost function First(listSize: nat, batchSize: nat): Farm.Progress<Range, Range> {
    var first := Range(0, Min(listSize, batchSize));
    Farm.Progress([first], first, first.length >= listSize)
  }

  /** Every range is a whole batch unless it reaches the end of the list, and none is empty unless the list is. */
  ghost predicate GoodRanges(ranges: seq<Range>, listSize: nat, batchSize: nat) {
    forall r :: r in ranges ==>
      && r.length <= batchSize && (listSize > 0 ==> r.length > 0)
      && (r.start + r.length < listSize ==> r.length == batchSize)
  }

  /** As many batches as it takes, and one for an empty list. */
  ghost function Batches(listSize: nat, batchSize: nat): nat
    requires batchSize >= 1
  {
    if listSize == 0 then 1 else (listSize + batchSize - 1) / batchSize
  }

  /** Range `i` is the `i`-th batch of the list. */
  ghost predicate IsBatch(r: Range, i: nat, listSize: nat, batchSize: nat) {
    r.start == i * batchSize && r.length == Min(batchSize, listSize - r.start)
  }

  lemma {:induction false} RangesAreBatches(ranges: seq<Range>, end: nat, listSize: nat, batchSize: nat)
    requires batchSize >= 1 && listSize > 0 && end <= listSize
    requires Tiles(ranges, end) && GoodRanges(ranges, listSize, batchSize)
    ensures forall i :: 0 <= i < |ranges| ==> IsBatch(ranges[i], i, listSize, batchSize)
    ensures end < listSize ==> end == |ranges| * batchSize
    ensures ranges != [] ==> (|ranges| - 1) * batchSize < end <= |ranges| * batchSize
    decreases |ranges|
  {
    if ranges != [] {
      var n := |ranges| - 1;
      var last := ranges[n];
      assert last in ranges && ranges == ranges[..n] + [last];
      RangesAreBatches(ranges[..n], last.start, listSize, batchSize);
      assert (n + 1) * batchSize == n * batchSize + batchSize;
    }
  }

  lemma CountOfBatches(n: nat, listSize: nat, batchSize: nat)
    requires batchSize >= 1 && n >= 1 && (n - 1) * batchSize < listSize <= n * batchSize
    ensures n == Batches(listSize, batchSize)
  {
    QuotientIs(listSize + batchSize - 1, batchSize, n);
  }

  lemma QuotientIs(m: nat, b: nat, n: nat)
    requires b >= 1 && n * b <= m < n * b + b
    ensures m / b == n
  {
    DivisionParts(m, b);
    if n < m / b {
      Monotone(n + 1, m / b, b);
    } else if n > m / b {
      Monotone(m / b + 1, n, b);
    }
  }

  /** While the flag is down the next range starts inside the list, so the subtraction is exact. */
  lemma NextRangeFits(last: Range, listSize: nat, batchSize: nat)
    requires listSize < TWO_TO_THE_64 && last.start + last.length <= listSize
    ensures Word(listSize - (last.start + last.length)) == listSize - (last.start + last.length)
  {
  }

  /** After `n` rounds the ranges tile a beginning of the list, and the flag is up if that is all of it. */
  ghost predicate RangesSoFar(g: Farm.Progress<Range, Range>, listSize: nat, batchSize: nat, n: nat) {
    var end := g.last.start + g.last.length;
    && Tiles(g.tasks, end) && GoodRanges(g.tasks, listSize, batchSize) && end <= listSize
    && (g.finished <==> end == listSize)
    && (listSize > 0 ==> end > n)
  }

  lemma OneMoreRange(g: Farm.Progress<Range, Range>, listSize: nat, batchSize: nat, n: nat)
    requires listSize < TWO_TO_THE_64 && batchSize >= 1
    requires RangesSoFar(g, listSize, batchSize, n) && !g.finished
    ensures var next := NextRange(g.last, listSize, batchSize);
      RangesSoFar(Farm.Progress(g.tasks + [next.task], next.last, next.finished), listSize, batchSize, n + 1)
  {
    NextRangeFits(g.last, listSize, batchSize);
    var range := NextRange(g.last, listSize, batchSize).task;
    assert (g.tasks + [range])[..|g.tasks|] == g.tasks;
  }

  lemma GeneratedRanges<E>(net: Net<E>, list: seq<E>, batchSize: nat, n: nat)
    requires |list| < TWO_TO_THE_64 && batchSize >= 1
    requires forall i: nat :: i < n ==>
               !Farm.Advance(PlanOf(net, list, |list|, batchSize), First(|list|, batchSize), i).finished
    ensures RangesSoFar(Farm.Advance(PlanOf(net, list, |list|, batchSize), First(|list|, batchSize), n),
                        |list|, batchSize, n)
  {
    assert forall i: nat :: i < n ==> !RangesAfter(net, list, batchSize, i).finished;
    RangesGenerated(net, list, batchSize, n);
  }

  ghost function RangesAfter<E>(net: Net<E>, list: seq<E>, batchSize: nat, n: nat): Farm.Progress<Range, Range> {
    Farm.Advance(PlanOf(net, list, |list|, batchSize), First(|list|, batchSize), n)
  }

  ghost predicate Unfinished<E>(net: Net<E>, list: seq<E>, batchSize: nat, i: nat) {
    !RangesAfter(net, list, batchSize, i).finished
  }

  ghost predicate UnfinishedBefore<E>(net: Net<E>, list: seq<E>, batchSize: nat, n: nat) {
    forall i: nat :: i < n ==> Unfinished(net, list, batchSize, i)
  }

  lemma OneFewer<E>(net: Net<E>, list: seq<E>, batchSize: nat, n: nat)
    requires UnfinishedBefore(net, list, batchSize, n) && n > 0
    ensures UnfinishedBefore(net, list, batchSize, n - 1) && Unfinished(net, list, batchSize, n - 1)
  {
  }

  lemma {:induction false} RangesGenerated<E>(net: Net<E>, list: seq<E>, batchSize: nat, n: nat)
    requires |list| < TWO_TO_THE_64 && batchSize >= 1 && UnfinishedBefore(net, list, batchSize, n)
    ensures RangesSoFar(RangesAfter(net, list, batchSize, n), |list|, batchSize, n)
  {
    if n == 0 {
      FirstRange(net, list, batchSize, n);
    } else {
      OneFewer(net, list, batchSize, n);
      var before := n - 1;
      RangesGenerated(net, list, batchSize, before);
      OneMoreRound(net, list, batchSize, before, n);
    }
  }

  lemma FirstRange<E>(net: Net<E>, list: seq<E>, batchSize: nat, n: nat)
    requires batchSize >= 1 && n == 0
    ensures RangesSoFar(RangesAfter(net, list, batchSize, n), |list|, batchSize, n)
  {
    assert First(|list|, batchSize).tasks[..0] == [];
  }

  lemma OneMoreRound<E>(net: Net<E>, list: seq<E>, batchSize: nat, n: nat, next: nat)
    requires |list| < TWO_TO_THE_64 && batchSize >= 1 && Unfinished(net, list, batchSize, n)
    requires RangesSoFar(RangesAfter(net, list, batchSize, n), |list|, batchSize, n) && next == n + 1
    ensures RangesSoFar(RangesAfter(net, list, batchSize, next), |list|, batchSize, next)
  {
    OneMoreRange(RangesAfter(net, list, batchSize, n), |list|, batchSize, n);
  }

  /** The generator reaches its end. */
  lemma RangesEnd<E>(net: Net<E>, list: seq<E>, batchSize: nat) returns (n: nat)
    requires |list| < TWO_TO_THE_64 && batchSize >= 1
    ensures Farm.Complete(PlanOf(net, list, |list|, batchSize), First(|list|, batchSize), n)
  {
    if i: nat :| i <= |list| && Farm.Advance(PlanOf(net, list, |list|, batchSize), First(|list|, batchSize), i).finished {
      n := Farm.FirstFinished(PlanOf(net, list, |list|, batchSize), First(|list|, batchSize), i);
    } else {
      GeneratedRanges(net, list, batchSize, |list|);
      assert false;
    }
  }

  /** With batches of no elements the generator hands out empty ranges for ever. */
  lemma {:induction false} EmptyBatches<E>(net: Net<E>, list: seq<E>, n: nat)
    requires 0 < |list| < TWO_TO_THE_64
    ensures var g := Farm.Advance(PlanOf(net, list, |list|, 0), First(|list|, 0), n);
      g.last == Range(0, 0) && !g.finished
  {
    if n > 0 {
      EmptyBatches(net, list, n - 1);
    }
  }

  /** The generator reaches its end if and only if batches are not empty, or the list is. */
  lemma RangesEndIff<E>(net: Net<E>, list: seq<E>, batchSize: nat)
    requires |list| < TWO_TO_THE_64
    ensures (exists n: nat :: Farm.Complete(PlanOf(net, list, |list|, batchSize), First(|list|, batchSize), n))
            <==> batchSize >= 1 || list == []
  {
    if batchSize >= 1 {
      var n := RangesEnd(net, list, batchSize);
    } else if list == [] {
      assert Farm.Complete(PlanOf(net, list, 0, 0), First(0, 0), 0);
    } else {
      forall n: nat
        ensures !Farm.Complete(PlanOf(net, list, |list|, 0), First(|list|, 0), n)
      {
        EmptyBatches(net, list, n);
      }
    }
  }

  /** The batch size of orbit expansion: never empty, and no more work than a job of single elements. */
  method ExpandOrbitConeOrbitsInit(jobSize: nat, symmetryGroupSize: nat) returns (skip: bool, batchSize: nat)
    requires symmetryGroupSize > 0
    ensures !skip && batchSize >= 1
    ensures batchSize == 1 || batchSize * symmetryGroupSize <= jobSize
    ensures batchSize * symmetryGroupSize + symmetryGroupSize > jobSize
  {
    skip := false;
    var scaled := jobSize / symmetryGroupSize;
    DivisionParts(jobSize, symmetryGroupSize);
    if scaled < 1 {
      batchSize := 1;
    } else {
      batchSize := scaled;
    }
  }

  // ---------- The invariant ----------

  /** What the list holds after all ranges have been processed, in whatever order. */
  ghost predicate Result<E>(net: Net<E>, list: seq<E>, ranges: seq<Range>, result: seq<E>) {
    && Tiles(ranges, |list|) && GoodRanges(ranges, |list|, net.batchSize)
    && (net.batchSize >= 1 ==> |ranges| == Batches(|list|, net.batchSize))
    && multiset(result) == Bag(Farm.Output(PlanOf(net, list, |list|, net.batchSize)), ranges)
  }

  ghost predicate Empty<E>(s: State<E>) {
    && s.skip == [] && s.batchSize == [] && s.listSize == []
    && s.farm.finished == [] && s.farm.counter == [] && s.farm.last == [] && s.farm.list == []
    && s.farm.tasks == [] && s.farm.results == [] && s.farm.creating == [] && s.farm.running == []
  }

  ghost predicate Active<E>(net: Net<E>, list: seq<E>, s: State<E>) {
    && s.list == [list] && s.skip == [] && s.batchSize == [net.batchSize] && s.listSize == [|list|] && !net.skip
    && Farm.Inv(PlanOf(net, list, |list|, net.batchSize), First(|list|, net.batchSize), s.farm)
  }

  ghost predicate Finished<E>(net: Net<E>, list: seq<E>, s: State<E>) {
    && Empty(s) && |s.list| == 1
    && if net.skip then s.list == [list] else exists ranges :: Result(net, list, ranges, s.list[0])
  }

  ghost predicate Inv<E>(net: Net<E>, list: seq<E>, s: State<E>) {
    || s == Start(list)
    || s == Start(list).(enabled := 0, skip := [net.skip], batchSize := [net.batchSize])
    || (s.enabled == 0 && s.finished == 0 && Active(net, list, s))
    || (s.enabled == 0 && s.finished == 1 && Finished(net, list, s))
  }

  lemma NoSkipActivates<E>(net: Net<E>, list: seq<E>, s: State<E>)
    requires s == Start(list).(enabled := 0, skip := [net.skip], batchSize := [net.batchSize]) && !net.skip
    ensures Active(net, list, Fire(net, s, NoSkip))
  {
    var plan, first := PlanOf(net, list, |list|, net.batchSize), First(|list|, net.batchSize);
    var f := Fire(net, s, NoSkip).farm;
    assert f.tasks == f.created == first.tasks;
    assert Farm.Reached(plan, first, f, 0);
    assert Bag<seq<E>, E>(Farm.AsBag(), f.results) == multiset{};
    assert Farm.Conserved(plan, f);
  }

  lemma CleanFinishes<E>(net: Net<E>, list: seq<E>, s: State<E>)
    requires |list| < TWO_TO_THE_64 && net.batchSize >= 1
    requires Active(net, list, s) && Farm.Done(s.farm)
    ensures Finished(net, list, Fire(net, s, Clean))
  {
    var plan, first := PlanOf(net, list, |list|, net.batchSize), First(|list|, net.batchSize);
    var n := Farm.DoneIsComplete(plan, first, s.farm);
    AllRanges(net, list, n);
    var s' := Fire(net, s, Clean);
    assert s'.list == [s.farm.list[0]];
    assert Result(net, list, s.farm.created, s'.list[0]);
  }

  lemma AllRanges<E>(net: Net<E>, list: seq<E>, n: nat)
    requires |list| < TWO_TO_THE_64 && net.batchSize >= 1
    requires Farm.Complete(PlanOf(net, list, |list|, net.batchSize), First(|list|, net.batchSize), n)
    ensures var ranges := Farm.Advance(PlanOf(net, list, |list|, net.batchSize), First(|list|, net.batchSize), n).tasks;
      && Tiles(ranges, |list|) && GoodRanges(ranges, |list|, net.batchSize)
      && |ranges| == Batches(|list|, net.batchSize)
  {
    var plan, first := PlanOf(net, list, |list|, net.batchSize), First(|list|, net.batchSize);
    GeneratedRanges(net, list, net.batchSize, n);
    Farm.AdvanceLength(plan, first, n);
    var ranges := Farm.Advance(plan, first, n).tasks;
    if list == [] {
      assert Farm.Advance(plan, first, 0).finished;
    } else {
      CountRanges(ranges, |list|, net.batchSize);
    }
  }

  lemma CountRanges(ranges: seq<Range>, listSize: nat, batchSize: nat)
    requires batchSize >= 1 && listSize > 0 && ranges != []
    requires Tiles(ranges, listSize) && GoodRanges(ranges, listSize, batchSize)
    ensures |ranges| == Batches(listSize, batchSize)
  {
    RangesAreBatches(ranges, listSize, listSize, batchSize);
    CountOfBatches(|ranges|, listSize, batchSize);
  }

  lemma StepInv<E>(net: Net<E>, list: seq<E>, s: State<E>, e: Event)
    requires |list| < TWO_TO_THE_64 && net.batchSize >= 1
    requires Inv(net, list, s) && Enabled(net, s, e)
    ensures Inv(net, list, Fire(net, s, e))
  {
    match e
    case Init =>
    case Skip =>
    case NoSkip => NoSkipActivates(net, list, s);
    case Work(w) =>
      Farm.StepInv(Plan(net, s), First(|list|, net.batchSize), s.farm, w);
    case Clean =>
      CleanFinishes(net, list, s);
  }

  lemma {:induction false} RunInv<E>(net: Net<E>, list: seq<E>, states: seq<State<E>>, events: seq<Event>)
    requires |list| < TWO_TO_THE_64 && net.batchSize >= 1 && IsRun(net, list, states, events)
    ensures forall s :: s in states ==> Inv(net, list, s)
  {
    if events != [] {
      var n := |events|;
      RunInv(net, list, states[..n], events[..n - 1]);
      assert states[n - 1] in states[..n];
      assert Follows(net, states[n - 1], events[n - 1], states[n]);
      StepInv(net, list, states[n - 1], events[n - 1]);
      assert states == states[..n] + [states[n]];
    }
  }

  // ---------- What a finished run has done ----------

  /** The results for the elements from `from` on, before `to`, in order. */
  ghost function Collected<E(!new)>(each: (seq<E>, nat) -> seq<E>, list: seq<E>, from: nat, to: nat): seq<E>
    decreases to - from
  {
    if from >= to then [] else each(list, from) + Collected(each, list, from + 1, to)
  }

  lemma {:induction false} CollectedJoin<E(!new)>(
      each: (seq<E>, nat) -> seq<E>, list: seq<E>, a: nat, b: nat, c: nat)
    requires a <= b <= c
    ensures Collected(each, list, a, c) == Collected(each, list, a, b) + Collected(each, list, b, c)
    decreases b - a
  {
    if a < b {
      CollectedJoin(each, list, a + 1, b, c);
    }
  }

  ghost predicate ElementWise<E(!new)>(net: Net<E>, each: (seq<E>, nat) -> seq<E>) {
    forall list: seq<E>, start: nat, length: nat :: start + length <= |list| ==>
      net.process(list, start, length) == Collected(each, list, start, start + length)
  }

  lemma {:induction false} TiledOutput<E(!new)>(
      net: Net<E>, each: (seq<E>, nat) -> seq<E>, list: seq<E>, batchSize: nat, ranges: seq<Range>, end: nat)
    requires ElementWise(net, each) && Tiles(ranges, end) && end <= |list|
    ensures Bag(Farm.Output(PlanOf(net, list, |list|, batchSize)), ranges)
            == multiset(Collected(each, list, 0, end))
    decreases |ranges|
  {
    var plan := PlanOf(net, list, |list|, batchSize);
    if ranges != [] {
      var n := |ranges| - 1;
      var last := ranges[n];
      TiledOutput(net, each, list, batchSize, ranges[..n], last.start);
      BagAppend(Farm.Output(plan), ranges[..n], last);
      assert ranges == ranges[..n] + [last];
      CollectedJoin(each, list, 0, last.start, end);
      assert Farm.Output(plan)(last) == multiset(Collected(each, list, last.start, end));
    } else {
      assert Collected(each, list, 0, end) == [];
    }
  }

  /**
   * Whatever the interleaving, a finished run has left no token inside the net; skipped, it has not touched
   * the list; otherwise the list holds each range's result once, for ranges that cover the list exactly.
   */
  lemma BatchNetCorrect<E>(net: Net<E>, list: seq<E>, states: seq<State<E>>, events: seq<Event>)
    requires |list| < TWO_TO_THE_64 && net.batchSize >= 1 && IsRun(net, list, states, events)
    requires states[|events|].finished > 0
    ensures var s := states[|events|];
      && s.finished == 1 && s.enabled == 0 && Empty(s) && |s.list| == 1
      && (net.skip ==> s.list[0] == list)
      && (!net.skip ==> exists ranges :: Result(net, list, ranges, s.list[0]))
  {
    RunInv(net, list, states, events);
    assert states[|events|] in states;
  }

  /** For processing element by element the result is, in some order, that of one pass over the list. */
  lemma ElementWiseCorrect<E(!new)>(
      net: Net<E>, each: (seq<E>, nat) -> seq<E>, list: seq<E>, states: seq<State<E>>, events: seq<Event>)
    requires |list| < TWO_TO_THE_64 && net.batchSize >= 1 && IsRun(net, list, states, events)
    requires states[|events|].finished > 0 && !net.skip && ElementWise(net, each)
    ensures |states[|events|].list| == 1
    ensures multiset(states[|events|].list[0]) == multiset(Collected(each, list, 0, |list|))
  {
    BatchNetCorrect(net, list, states, events);
    var ranges :| Result(net, list, ranges, states[|events|].list[0]);
    TiledOutput(net, each, list, net.batchSize, ranges, |list|);
  }

  /** No subtraction wraps: the generator only runs inside the list, the counter only falls from above 0. */
  lemma NoUnderflow<E>(net: Net<E>, list: seq<E>, states: seq<State<E>>, events: seq<Event>, i: nat)
    requires |list| < TWO_TO_THE_64 && net.batchSize >= 1 && IsRun(net, list, states, events)
    requires i < |events| && events[i].Work?
    ensures var f := states[i].farm;
      && |states[i].listSize| == 1
      && (events[i].e.CreateEnd? ==>
            f.creating != [] && f.creating[0].last.start + f.creating[0].last.length < states[i].listSize[0])
      && (events[i].e.Aggregate? ==> f.counter != [] && f.counter[0] >= 1)
      && (f.counter != [] ==> f.counter[0] == |f.tasks| + |f.running| + |f.results|)
  {
    RunInv(net, list, states, events);
    assert states[i] in states;
    assert Follows(net, states[i], events[i], states[i + 1]);
    var f := states[i].farm;
    var plan, first := PlanOf(net, list, |list|, net.batchSize), First(|list|, net.batchSize);
    var n: nat :| Farm.Reached(plan, first, f, n);
    GeneratedRanges(net, list, net.batchSize, n);
  }

  // ---------- It gets there ----------

  lemma Progress<E>(net: Net<E>, list: seq<E>, s: State<E>) returns (e: Event)
    requires Inv(net, list, s) && s.finished == 0
    ensures Enabled(net, s, e)
  {
    if s.enabled > 0 {
      e := Init;
    } else if s.skip != [] {
      e := if s.skip[0] then Skip else NoSkip;
    } else if Farm.Done(s.farm) {
      e := Clean;
    } else {
      var w := Farm.CanStep(Plan(net, s), s.farm);
      e := Work(w);
    }
  }

  /** How many steps a run can still take; `rounds` is the length of the generator's whole work. */
  ghost function StepsLeft<E>(rounds: nat, s: State<E>): int {
    if s.enabled > 0 then 5 * rounds + 8
    else if s.finished > 0 then 0
    else if s.skip != [] then 5 * rounds + 7
    else 1 + Farm.Left(1 + rounds, s.farm)
  }

  lemma StepsAreBounded<E>(net: Net<E>, list: seq<E>, rounds: nat, s: State<E>, e: Event)
    requires |list| < TWO_TO_THE_64 && net.batchSize >= 1
    requires Farm.Complete(PlanOf(net, list, |list|, net.batchSize), First(|list|, net.batchSize), rounds)
    requires Inv(net, list, s) && Enabled(net, s, e)
    ensures 0 <= StepsLeft(rounds, Fire(net, s, e)) < StepsLeft(rounds, s)
  {
    var plan, first := PlanOf(net, list, |list|, net.batchSize), First(|list|, net.batchSize);
    StepInv(net, list, s, e);
    match e
    case Init =>
    case Skip =>
    case NoSkip =>
    case Work(w) => Farm.StepsAreBounded(plan, first, rounds, s.farm, w);
    case Clean =>
      Farm.CreatedBounded(plan, first, rounds, s.farm);
  }

  /** Every run is shorter than a bound that depends on the list and the batch size alone. */
  lemma {:induction false} RunsAreBounded<E>(
      net: Net<E>, list: seq<E>, states: seq<State<E>>, events: seq<Event>) returns (bound: nat)
    requires |list| < TWO_TO_THE_64 && net.batchSize >= 1 && IsRun(net, list, states, events)
    ensures |events| <= bound
    ensures exists rounds: nat ::
      && Farm.Complete(PlanOf(net, list, |list|, net.batchSize), First(|list|, net.batchSize), rounds)
      && bound == 5 * rounds + 8
  {
    var rounds := RangesEnd(net, list, net.batchSize);
    bound := 5 * rounds + 8;
    BoundedFrom(net, list, rounds, states, events);
  }

  lemma {:induction false} BoundedFrom<E>(
      net: Net<E>, list: seq<E>, rounds: nat, states: seq<State<E>>, events: seq<Event>)
    requires |list| < TWO_TO_THE_64 && net.batchSize >= 1 && IsRun(net, list, states, events)
    requires Farm.Complete(PlanOf(net, list, |list|, net.batchSize), First(|list|, net.batchSize), rounds)
    ensures Inv(net, list, states[|events|])
    ensures |events| + StepsLeft(rounds, states[|events|]) <= 5 * rounds + 8
    ensures StepsLeft(rounds, states[|events|]) >= 0
  {
    if events != [] {
      var n := |events|;
      BoundedFrom(net, list, rounds, states[..n], events[..n - 1]);
      assert Follows(net, states[n - 1], events[n - 1], states[n]);
      StepInv(net, list, states[n - 1], events[n - 1]);
      StepsAreBounded(net, list, rounds, states[n - 1], events[n - 1]);
    }
  }
}
