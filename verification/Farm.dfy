/**
 * The part two Petri nets have in common (workflow/list_manipulation.xpnet.in and
 * workflow/full_dim_afaces.xpnet): a generator turns its last token into the next task until a flag goes
 * up, workers turn tasks into result lists, and the lists are joined in any order.  The counter token,
 * the generator token and the flag are gone while the generator runs.  As in Traversal, these places and
 * the result list hold at most one token, which is part of the invariant.
 */
module Farm {
  import opened Seqs

  /** What the generator makes of its token: the task, the token to put back, and whether it is done. */
  datatype Generated<G, T> = Generated(task: T, last: G, finished: bool)

  datatype Plan<!G, !T, !R> = Plan(generate: G -> Generated<G, T>, process: T -> seq<R>)

  datatype Creation<G> = Creation(last: G, counter: int)

  datatype State<G, T, R> = State(
    finished: seq<bool>,
    counter: seq<int>,
    last: seq<G>,
    list: seq<seq<R>>,
    tasks: seq<T>,
    results: seq<seq<R>>,
    creating: seq<Creation<G>>,  // running firings of the generator
    running: seq<T>,             // running firings of the workers
    created: seq<T>)             // history: all tasks ever generated

  datatype Event = CreateStart | CreateEnd | ProcessStart(task: nat) | ProcessEnd(worker: nat) | Aggregate(result: nat)

  ghost predicate Enabled<G, T, R>(p: Plan<G, T, R>, s: State<G, T, R>, e: Event) {
    match e
    case CreateStart => s.finished != [] && s.counter != [] && s.last != [] && !s.finished[0]
    case CreateEnd => s.creating != []
    case ProcessStart(i) => i < |s.tasks|
    case ProcessEnd(i) => i < |s.running|
    case Aggregate(i) => i < |s.results| && s.list != [] && s.counter != []
  }

  /** An event that is not enabled changes nothing. */
  ghost function Fire<G, T, R>(p: Plan<G, T, R>, s: State<G, T, R>, e: Event): State<G, T, R> {
    if !Enabled(p, s, e) then s
    else match e
    case CreateStart =>
      s.(finished := s.finished[1..], counter := s.counter[1..], last := s.last[1..],
         creating := s.creating + [Creation(s.last[0], s.counter[0])])
    case CreateEnd =>
      var c := s.creating[0];
      var g := p.generate(c.last);
      s.(finished := s.finished + [g.finished], counter := s.counter + [c.counter + 1], last := s.last + [g.last],
         tasks := s.tasks + [g.task], creating := s.creating[1..], created := s.created + [g.task])
    case ProcessStart(i) =>
      s.(tasks := RemoveAt(s.tasks, i), running := s.running + [s.tasks[i]])
    case ProcessEnd(i) =>
      s.(running := RemoveAt(s.running, i), results := s.results + [p.process(s.running[i])])
    case Aggregate(i) =>
      s.(results := RemoveAt(s.results, i),
         list := s.list[1..] + [s.list[0] + s.results[i]],
         counter := s.counter[1..] + [s.counter[0] - 1])
  }

  // ---------- What the generator does on its own ----------

  /** The generator's history: tasks so far, its token, and whether it is done. */
  datatype Progress<G, T> = Progress(tasks: seq<T>, last: G, finished: bool)

  ghost function Advance<G, T, R>(p: Plan<G, T, R>, from: Progress<G, T>, n: nat): Progress<G, T> {
    if n == 0 then from
    else
      var before := Advance(p, from, n - 1);
      var g := p.generate(before.last);
      Progress(before.tasks + [g.task], g.last, g.finished)
  }

  lemma {:induction false} AdvanceLength<G, T, R>(p: Plan<G, T, R>, from: Progress<G, T>, n: nat)
    ensures |Advance(p, from, n).tasks| == |from.tasks| + n
  {
    if n > 0 {
      AdvanceLength(p, from, n - 1);
    }
  }

  /** `n` rounds of the generator make up its whole work: the flag goes up with the last one. */
  ghost predicate Complete<G, T, R>(p: Plan<G, T, R>, from: Progress<G, T>, n: nat) {
    && Advance(p, from, n).finished
    && forall i: nat :: i < n ==> !Advance(p, from, i).finished
  }

  lemma {:induction false} FirstFinished<G, T, R>(p: Plan<G, T, R>, from: Progress<G, T>, n: nat) returns (m: nat)
    requires Advance(p, from, n).finished
    ensures m <= n && Complete(p, from, m)
  {
    if i: nat :| i < n && Advance(p, from, i).finished {
      m := FirstFinished(p, from, i);
    } else {
      m := n;
    }
  }

  // ---------- The invariant ----------

  ghost function AsBag<R>(): seq<R> -> multiset<R> {
    (list: seq<R>) => multiset(list)
  }

  ghost function Output<G, T, R>(p: Plan<G, T, R>): T -> multiset<R> {
    (task: T) => multiset(p.process(task))
  }

  ghost predicate Shape<G, T, R>(s: State<G, T, R>) {
    |s.creating| <= 1 && |s.list| == 1 && |s.finished| == |s.counter| == |s.last| == 1 - |s.creating|
  }

  /** The counter is the number of tasks generated but not aggregated. */
  ghost predicate Counted<G, T, R>(s: State<G, T, R>)
    requires Shape(s)
  {
    (if s.creating == [] then s.counter[0] else s.creating[0].counter) == |s.tasks| + |s.running| + |s.results|
  }

  /** Every task's output is where the task is: ahead of it, underway, or in the list. */
  ghost predicate Conserved<G, T, R>(p: Plan<G, T, R>, s: State<G, T, R>)
    requires Shape(s)
  {
    multiset(s.list[0]) + Bag(AsBag(), s.results) + Bag(Output(p), s.tasks) + Bag(Output(p), s.running)
    == Bag(Output(p), s.created)
  }

  ghost predicate InStep<G, T, R>(p: Plan<G, T, R>, from: Progress<G, T>, s: State<G, T, R>)
    requires Shape(s)
  {
    exists n: nat :: Reached(p, from, s, n)
  }

  ghost predicate Reached<G, T, R>(p: Plan<G, T, R>, from: Progress<G, T>, s: State<G, T, R>, n: nat)
    requires Shape(s)
  {
    && (forall i: nat :: i < n ==> !Advance(p, from, i).finished)
    && var now := Advance(p, from, n);
      && s.created == now.tasks
      && (if s.creating == [] then now == Progress(s.created, s.last[0], s.finished[0])
          else now == Progress(s.created, s.creating[0].last, false))
  }

  ghost predicate Inv<G, T, R>(p: Plan<G, T, R>, from: Progress<G, T>, s: State<G, T, R>) {
    Shape(s) && Counted(s) && Conserved(p, s) && InStep(p, from, s)
  }

  lemma {:induction false} StepInv<G, T, R>(p: Plan<G, T, R>, from: Progress<G, T>, s: State<G, T, R>, e: Event)
    requires Inv(p, from, s) && Enabled(p, s, e)
    ensures Inv(p, from, Fire(p, s, e))
  {
    StepCounted(p, s, e);
    StepConserved(p, s, e);
    StepInStep(p, from, s, e);
  }

  lemma StepCounted<G, T, R>(p: Plan<G, T, R>, s: State<G, T, R>, e: Event)
    requires Shape(s) && Counted(s) && Enabled(p, s, e)
    ensures Shape(Fire(p, s, e)) && Counted(Fire(p, s, e))
  {
  }

  lemma StepConserved<G, T, R>(p: Plan<G, T, R>, s: State<G, T, R>, e: Event)
    requires Shape(s) && Conserved(p, s) && Enabled(p, s, e)
    ensures Shape(Fire(p, s, e)) && Conserved(p, Fire(p, s, e))
  {
    match e
    case CreateStart =>
    case CreateEnd => CreateConserves(p, s, Fire(p, s, e));
    case ProcessStart(i) => StartConserves(p, s, Fire(p, s, e), i);
    case ProcessEnd(i) => EndConserves(p, s, Fire(p, s, e), i);
    case Aggregate(i) => AggregateConserves(p, s, Fire(p, s, e), i);
  }

  lemma CreateConserves<G, T, R>(p: Plan<G, T, R>, s: State<G, T, R>, s': State<G, T, R>)
    requires Shape(s) && Conserved(p, s) && Enabled(p, s, CreateEnd) && s' == Fire(p, s, CreateEnd)
    ensures Shape(s') && Conserved(p, s')
  {
    var task := p.generate(s.creating[0].last).task;
    BagAppend(Output(p), s.tasks, task);
    BagAppend(Output(p), s.created, task);
  }

  lemma StartConserves<G, T, R>(p: Plan<G, T, R>, s: State<G, T, R>, s': State<G, T, R>, i: nat)
    requires Shape(s) && Conserved(p, s) && Enabled(p, s, ProcessStart(i)) && s' == Fire(p, s, ProcessStart(i))
    ensures Shape(s') && Conserved(p, s')
  {
    BagRemove(Output(p), s.tasks, i);
    BagAppend(Output(p), s.running, s.tasks[i]);
  }

  lemma EndConserves<G, T, R>(p: Plan<G, T, R>, s: State<G, T, R>, s': State<G, T, R>, i: nat)
    requires Shape(s) && Conserved(p, s) && Enabled(p, s, ProcessEnd(i)) && s' == Fire(p, s, ProcessEnd(i))
    ensures Shape(s') && Conserved(p, s')
  {
    BagRemove(Output(p), s.running, i);
    BagAppend(AsBag(), s.results, p.process(s.running[i]));
  }

  lemma AggregateConserves<G, T, R>(p: Plan<G, T, R>, s: State<G, T, R>, s': State<G, T, R>, i: nat)
    requires Shape(s) && Conserved(p, s) && Enabled(p, s, Aggregate(i)) && s' == Fire(p, s, Aggregate(i))
    ensures Shape(s') && Conserved(p, s')
  {
    BagRemove(AsBag(), s.results, i);
    assert s'.list[0] == s.list[0] + s.results[i];
  }

  lemma StepInStep<G, T, R>(p: Plan<G, T, R>, from: Progress<G, T>, s: State<G, T, R>, e: Event)
    requires Shape(s) && InStep(p, from, s) && Enabled(p, s, e) && Shape(Fire(p, s, e))
    ensures InStep(p, from, Fire(p, s, e))
  {
    var s' := Fire(p, s, e);
    var n: nat :| Reached(p, from, s, n);
    if e.CreateEnd? {
      assert Reached(p, from, s', n + 1);
    } else {
      assert Reached(p, from, s', n);
    }
  }

  // ---------- The end ----------

  /** The guard of the cleaning transition. */
  ghost predicate Done<G, T, R>(s: State<G, T, R>) {
    s.finished != [] && s.counter != [] && s.list != [] && s.last != [] && s.finished[0] && s.counter[0] == 0
  }

  /**
   * When the cleaning transition can fire, nothing is left to do, the generator has run exactly to its
   * end, and the list holds the output of each generated task once.
   */
  lemma DoneIsComplete<G, T, R>(p: Plan<G, T, R>, from: Progress<G, T>, s: State<G, T, R>) returns (n: nat)
    requires Inv(p, from, s) && Done(s)
    ensures s.tasks == [] && s.running == [] && s.results == [] && s.creating == []
    ensures |s.finished| == |s.counter| == |s.last| == |s.list| == 1
    ensures Complete(p, from, n) && s.created == Advance(p, from, n).tasks
    ensures multiset(s.list[0]) == Bag(Output(p), s.created)
  {
    n :| Reached(p, from, s, n);
  }

  /** A farm that is not done can go on. */
  lemma CanStep<G, T, R>(p: Plan<G, T, R>, s: State<G, T, R>) returns (e: Event)
    requires Shape(s) && Counted(s) && !Done(s)
    ensures Enabled(p, s, e)
  {
    if s.creating != [] {
      e := CreateEnd;
    } else if !s.finished[0] {
      e := CreateStart;
    } else if s.tasks != [] {
      e := ProcessStart(0);
    } else if s.running != [] {
      e := ProcessEnd(0);
    } else {
      e := Aggregate(0);
    }
  }

  /** Rounds the generator still has to make, then the steps each task still has before it. */
  ghost function Left<G, T, R>(total: nat, s: State<G, T, R>): int {
    5 * (total - |s.created|) - |s.creating| + 3 * |s.tasks| + 2 * |s.running| + |s.results|
  }

  /** If the generator's whole work is `n` rounds, no run has more than a fixed number of steps left. */
  lemma StepsAreBounded<G, T, R>(p: Plan<G, T, R>, from: Progress<G, T>, n: nat, s: State<G, T, R>, e: Event)
    requires Inv(p, from, s) && Enabled(p, s, e) && Complete(p, from, n)
    ensures 0 <= Left(|from.tasks| + n, Fire(p, s, e)) < Left(|from.tasks| + n, s)
  {
    StepInv(p, from, s, e);
    CreatedBounded(p, from, n, s);
    CreatedBounded(p, from, n, Fire(p, s, e));
  }

  lemma CreatedBounded<G, T, R>(p: Plan<G, T, R>, from: Progress<G, T>, n: nat, s: State<G, T, R>)
    requires Shape(s) && InStep(p, from, s) && Complete(p, from, n)
    ensures |s.created| + |s.creating| <= |from.tasks| + n
  {
    var m: nat :| Reached(p, from, s, m);
    AdvanceLength(p, from, m);
    assert m > n ==> !Advance(p, from, n).finished;
    assert s.creating != [] ==> m != n;
  }
}
