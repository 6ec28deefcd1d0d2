/**
 * The Petri net that traverses the GIT fan in parallel (workflow/traverse_gitfan.xpnet) as a step
 * relation.  A place is the sequence of its tokens.  The counter and flag places hold at most one token
 * (part of the invariant below), so taking their first token is taking any token; from the other places
 * a firing takes a token at any index.
 *
 * `get_expandable_cones` and `expand_cones_and_insert_neighbours` run outside the workflow engine.  Their
 * tokens are gone from the moment the firing starts until it ends, and in between the calls into the cone
 * storage happen one at a time, interleaved with everything else:
 *  - adding a cone takes two steps, `Claim` (the cone is recorded in the storage, which decides between
 *    competing workers) and `Mark` (it becomes fetchable, and the worker counts it);
 *  - fetching takes one `Take` per cone, and may stop early only when no cone is left that was marked when
 *    the call began, so it need not see cones marked while it runs.
 * A storage that does each of the two at once has a subset of these runs.
 */
module Traversal {
  import opened Arithmetic
  import opened Seqs

  datatype Problem<!C> = Problem(
    initial: Option<C>,          // None when there are no orbit cones
    neighbours: C -> set<C>,
    jobSize: nat,
    maxJobQueue: nat,            // 0: unlimited
    maxCones: int)               // negative: unlimited
  {
    /** `max_cones` is a signed 64-bit number. */
    ghost predicate Valid() {
      maxCones < TWO_TO_THE_63
    }
  }

  /** The neighbours of one expanded cone that a worker has still to insert; the start cone has no source. */
  datatype Work<C> = Work(source: Option<C>, remaining: set<C>)

  /** A worker between the start and the end of its insertions. */
  datatype Job<C> = Job(todo: seq<Work<C>>, claim: Option<C>, count: nat)

  /** A running `get_expandable_cones`; it holds the tokens `inc` and `fetched`. */
  datatype Getter<C> = Getter(size: int, inc: int, fetched: int, start: set<C>, cones: seq<C>)

  datatype State<C> = State(
    enabled: nat,
    enableInitial: nat,
    finished: nat,
    available: seq<bool>,        // expandable_cones_available
    unprocessed: seq<int>,       // number_of_unprocessed_tokens
    fetched: seq<int>,           // number_of_fetched_expandable_cones
    numberOfCones: seq<int>,
    lists: seq<seq<C>>,          // cones_to_be_expanded
    insertions: seq<nat>,        // number_of_insertions
    getters: seq<Getter<C>>,
    jobs: seq<Job<C>>,
    stored: set<C>,              // every cone the storage knows
    marked: set<C>,              // those that can still be fetched
    taken: set<C>)               // history: those fetched so far

  datatype Event<C> =
    | Init
    | ComputeInitialCone
    | GetStart
    | Take(cone: C)
    | GetEnd
    | ExpandStart(list: nat)
    | Claim(job: nat, cone: C)
    | Mark(job: nat)
    | Known(job: nat, cone: C)
    | EndOfTransaction(job: nat)
    | InsertEnd(job: nat)
    | SumUp(token: nat)
    | ConsumeZero(token: nat)
    | Clean

  ghost function Start<C>(): State<C> {
    State(1, 0, 0, [], [], [], [], [], [], [], [], {}, {}, {})
  }

  function RequestSize<C>(p: Problem<C>, fetched: int): int {
    if p.maxCones >= 0 then Min(p.jobSize, Word(p.maxCones - fetched)) else p.jobSize
  }

  ghost function InitialWork<C>(p: Problem<C>): seq<Work<C>> {
    if p.initial.Some? then [Work(None, {p.initial.value})] else []
  }

  ghost function ExpansionWork<C>(p: Problem<C>, cones: seq<C>): (r: seq<Work<C>>)
  {
    if cones == [] then []
    else [Work(Some(cones[0]), p.neighbours(cones[0]))] + ExpansionWork(p, cones[1..])
  }

  ghost predicate HasWork<C>(s: State<C>, j: nat) {
    j < |s.jobs| && s.jobs[j].claim == None && s.jobs[j].todo != []
  }

  ghost predicate Enabled<C>(p: Problem<C>, s: State<C>, e: Event<C>) {
    match e
    case Init => s.enabled > 0
    case ComputeInitialCone => s.enableInitial > 0
    case GetStart =>
      && s.available != [] && s.unprocessed != [] && s.fetched != []
      && s.available[0] && (s.unprocessed[0] < p.maxJobQueue || p.maxJobQueue == 0)
    case Take(c) => s.getters != [] && |s.getters[0].cones| < s.getters[0].size && c in s.marked
    case GetEnd =>
      s.getters != [] && (|s.getters[0].cones| >= s.getters[0].size || s.getters[0].start !! s.marked)
    case ExpandStart(i) => i < |s.lists|
    case Claim(j, c) => HasWork(s, j) && c in s.jobs[j].todo[0].remaining && c !in s.stored
    case Mark(j) => j < |s.jobs| && s.jobs[j].claim.Some?
    case Known(j, c) => HasWork(s, j) && c in s.jobs[j].todo[0].remaining && c in s.stored
    case EndOfTransaction(j) => HasWork(s, j) && s.jobs[j].todo[0].remaining == {}
    case InsertEnd(j) => j < |s.jobs| && s.jobs[j].claim == None && s.jobs[j].todo == []
    case SumUp(i) =>
      && i < |s.insertions| && s.insertions[i] > 0
      && s.numberOfCones != [] && s.available != [] && s.unprocessed != []
    case ConsumeZero(i) => i < |s.insertions| && s.insertions[i] <= 0 && s.unprocessed != []
    case Clean =>
      && s.available != [] && s.unprocessed != [] && s.fetched != []
      && !s.available[0] && s.unprocessed[0] == 0
  }

  /** The job after one cone of its first neighbour set has been handled. */
  ghost function Handled<C>(job: Job<C>, c: C): Job<C>
    requires job.todo != []
  {
    job.(todo := [job.todo[0].(remaining := job.todo[0].remaining - {c})] + job.todo[1..])
  }

  /** The state after a firing; an event that is not enabled changes nothing. */
  ghost function Fire<C>(p: Problem<C>, s: State<C>, e: Event<C>): State<C> {
    if !Enabled(p, s, e) then s
    else match e
    case Init =>
      s.(enabled := s.enabled - 1,
         enableInitial := s.enableInitial + 1,
         available := s.available + [false],
         numberOfCones := s.numberOfCones + [0],
         fetched := s.fetched + [0],
         unprocessed := s.unprocessed + [1])
    case ComputeInitialCone =>
      s.(enableInitial := s.enableInitial - 1, jobs := s.jobs + [Job(InitialWork(p), None, 0)])
    case GetStart =>
      s.(available := s.available[1..],
         unprocessed := s.unprocessed[1..],
         fetched := s.fetched[1..],
         getters := s.getters
                    + [Getter(RequestSize(p, s.fetched[0]), s.unprocessed[0], s.fetched[0], s.marked, [])])
    case Take(c) =>
      var g := s.getters[0];
      s.(marked := s.marked - {c},
         taken := s.taken + {c},
         getters := [g.(cones := g.cones + [c])] + s.getters[1..])
    case GetEnd =>
      var g := s.getters[0];
      s.(available := s.available + [g.cones != []],
         unprocessed := s.unprocessed + [g.inc + 1],
         fetched := s.fetched + [g.fetched + |g.cones|],
         lists := s.lists + [g.cones],
         getters := s.getters[1..])
    case ExpandStart(i) =>
      s.(lists := RemoveAt(s.lists, i), jobs := s.jobs + [Job(ExpansionWork(p, s.lists[i]), None, 0)])
    case Claim(j, c) =>
      s.(stored := s.stored + {c}, jobs := s.jobs[j := Handled(s.jobs[j], c).(claim := Some(c))])
    case Mark(j) =>
      s.(marked := s.marked + {s.jobs[j].claim.value},
         jobs := s.jobs[j := s.jobs[j].(claim := None, count := s.jobs[j].count + 1)])
    case Known(j, c) =>
      s.(jobs := s.jobs[j := Handled(s.jobs[j], c)])
    case EndOfTransaction(j) =>
      s.(jobs := s.jobs[j := s.jobs[j].(todo := s.jobs[j].todo[1..])])
    case InsertEnd(j) =>
      s.(jobs := RemoveAt(s.jobs, j), insertions := s.insertions + [s.jobs[j].count])
    case SumUp(i) =>
      s.(insertions := RemoveAt(s.insertions, i),
         numberOfCones := s.numberOfCones[1..] + [s.numberOfCones[0] + s.insertions[i]],
         available := s.available[1..] + [true],
         unprocessed := s.unprocessed[1..] + [s.unprocessed[0] - 1])
    case ConsumeZero(i) =>
      s.(insertions := RemoveAt(s.insertions, i),
         unprocessed := s.unprocessed[1..] + [s.unprocessed[0] - 1])
    case Clean =>
      s.(available := s.available[1..],
         unprocessed := s.unprocessed[1..],
         fetched := s.fetched[1..],
         finished := s.finished + 1)
  }

  /** Every state follows from the one before by firing an enabled event. */
  ghost predicate Chain<C>(p: Problem<C>, states: seq<State<C>>, events: seq<Event<C>>) {
    && |states| == |events| + 1
    && forall i :: 0 <= i < |events| ==> Follows(p, states[i], events[i], states[i + 1])
  }

  ghost predicate IsRun<C>(p: Problem<C>, states: seq<State<C>>, events: seq<Event<C>>) {
    Chain(p, states, events) && states[0] == Start()
  }

  ghost predicate Follows<C>(p: Problem<C>, s: State<C>, e: Event<C>, s': State<C>) {
    Enabled(p, s, e) && s' == Fire(p, s, e)
  }

  // ---------- Reachability in the fan ----------

  ghost predicate IsPath<C>(p: Problem<C>, path: seq<C>) {
    && path != [] && p.initial == Some(path[0])
    && forall i :: 0 < i < |path| ==> path[i] in p.neighbours(path[i - 1])
  }

  ghost predicate Reachable<C(!new)>(p: Problem<C>, c: C) {
    exists path :: IsPath(p, path) && path[|path| - 1] == c
  }

  lemma InitialReachable<C(!new)>(p: Problem<C>)
    requires p.initial.Some?
    ensures Reachable(p, p.initial.value)
  {
    assert IsPath(p, [p.initial.value]);
  }

  lemma NeighbourReachable<C(!new)>(p: Problem<C>, c: C, n: C)
    requires Reachable(p, c) && n in p.neighbours(c)
    ensures Reachable(p, n)
  {
    var path :| IsPath(p, path) && path[|path| - 1] == c;
    var longer := path + [n];
    assert IsPath(p, longer) && longer[|longer| - 1] == n;
  }

  /** A set that holds the start cone and all neighbours of its members holds every reachable cone. */
  lemma {:induction false} ClosedSetIsComplete<C(!new)>(p: Problem<C>, closed: set<C>, path: seq<C>)
    requires IsPath(p, path)
    requires path[0] in closed && forall c, n :: c in closed && n in p.neighbours(c) ==> n in closed
    ensures path[|path| - 1] in closed
  {
    if |path| > 1 {
      ClosedSetIsComplete(p, closed, path[..|path| - 1]);
      assert path[|path| - 1] in p.neighbours(path[|path| - 2]);
    }
  }
}
