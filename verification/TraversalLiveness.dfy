/** Every traversal run ends, and it can only end with the `finished` token. */
module TraversalLiveness {
  import opened Seqs
  import opened Traversal
  import opened TraversalSafety

  // ---------- Progress ----------

  lemma JobCanStep<C(!new)>(p: Problem<C>, s: State<C>, j: nat) returns (e: Event<C>)
    requires j < |s.jobs|
    ensures Enabled(p, s, e)
  {
    var job := s.jobs[j];
    if job.claim.Some? {
      e := Mark(j);
    } else if job.todo == [] {
      e := InsertEnd(j);
    } else if job.todo[0].remaining == {} {
      e := EndOfTransaction(j);
    } else {
      var c :| c in job.todo[0].remaining;
      e := if c in s.stored then Known(j, c) else Claim(j, c);
    }
  }

  /** An unfinished traversal is never stuck, whatever the queue bound and the cone limit. */
  lemma Progress<C(!new)>(p: Problem<C>, s: State<C>) returns (e: Event<C>)
    requires Inv(p, s) && s.finished == 0
    ensures Enabled(p, s, e)
  {
    if s.enabled > 0 {
      e := Init;
    } else if s.getters != [] {
      var g := s.getters[0];
      if |g.cones| >= g.size || g.start !! s.marked {
        e := GetEnd;
      } else {
        var c :| c in g.start && c in s.marked;
        e := Take(c);
      }
    } else if s.enableInitial > 0 {
      e := ComputeInitialCone;
    } else if s.lists != [] {
      e := ExpandStart(0);
    } else if s.jobs != [] {
      e := JobCanStep(p, s, 0);
    } else if s.insertions != [] {
      e := if s.insertions[0] > 0 then SumUp(0) else ConsumeZero(0);
    } else if s.available[0] {
      e := GetStart;
    } else {
      e := Clean;
    }
  }

  lemma FinishedIsFinal<C(!new)>(p: Problem<C>, s: State<C>, e: Event<C>)
    requires Inv(p, s) && s.finished > 0
    ensures !Enabled(p, s, e)
  {
  }

  // ---------- Termination ----------

  ghost function WorkWeight<C>(): Work<C> -> nat {
    (w: Work<C>) => 1 + |w.remaining|
  }

  ghost function JobWeight<C>(): Job<C> -> nat {
    (job: Job<C>) => (if job.count > 0 then 7 else 2) + Sum(WorkWeight(), job.todo)
  }

  ghost function ListWeight<C>(p: Problem<C>): seq<C> -> nat {
    (cones: seq<C>) => 3 + Sum(WorkWeight(), ExpansionWork(p, cones))
  }

  ghost function GetterWeight<C>(p: Problem<C>): Getter<C> -> nat {
    (g: Getter<C>) => if g.cones == [] then 5 else 10 + Sum(WorkWeight(), ExpansionWork(p, g.cones))
  }

  ghost function CountWeight(): nat -> nat {
    (n: nat) => if n > 0 then 6 else 1
  }

  ghost function FlagWeight(): bool -> nat {
    (b: bool) => if b then 6 else 1
  }

  /** Tokens and running activities, each weighing more than what it turns into. */
  ghost function Load<C>(p: Problem<C>, s: State<C>): nat {
    7 * s.enabled + 5 * s.enableInitial + Sum(FlagWeight(), s.available) + Sum(CountWeight(), s.insertions)
    + Sum(ListWeight(p), s.lists) + Sum(GetterWeight(p), s.getters) + Sum(JobWeight(), s.jobs)
  }

  /** The lexicographic measure: cones still unknown, cones claimed, cones marked, load. */
  ghost predicate Smaller<C>(p: Problem<C>, universe: set<C>, s': State<C>, s: State<C>) {
    var unknown', unknown := |universe - s'.stored|, |universe - s.stored|;
    var claimed', claimed := |Claimed(s')|, |Claimed(s)|;
    || unknown' < unknown
    || (unknown' == unknown && claimed' < claimed)
    || (unknown' == unknown && claimed' == claimed && |s'.marked| < |s.marked|)
    || (unknown' == unknown && claimed' == claimed && |s'.marked| == |s.marked| && Load(p, s') < Load(p, s))
  }

  /** All reachable cones lie in a finite set. */
  ghost predicate Finite<C(!new)>(p: Problem<C>, universe: set<C>) {
    forall c :: Reachable(p, c) ==> c in universe
  }

  lemma {:induction false} HandledWeight<C>(job: Job<C>, c: C)
    requires job.todo != [] && c in job.todo[0].remaining
    ensures JobWeight()(Handled(job, c)) < JobWeight()(job)
  {
    var todo := Handled(job, c).todo;
    assert todo[1..] == job.todo[1..];
    assert job.todo[0].remaining == (job.todo[0].remaining - {c}) + {c};
  }

  lemma SumOne<T>(w: T -> nat, x: T)
    ensures Sum(w, [x]) == w(x)
  {
    assert [x][1..] == [];
  }

  ghost predicate SameStore<C>(s': State<C>, s: State<C>) {
    s'.stored == s.stored && s'.marked == s.marked && Claimed(s') == Claimed(s)
  }

  /** The load, once the places of a running net are known to hold single tokens. */
  lemma FlagAndGetterLoad<C>(p: Problem<C>, s: State<C>)
    requires Shape(s)
    ensures Sum(FlagWeight(), s.available) == if s.available == [] then 0 else FlagWeight()(s.available[0])
    ensures Sum(GetterWeight(p), s.getters) == if s.getters == [] then 0 else GetterWeight(p)(s.getters[0])
  {
    if s.available != [] {
      assert s.available == [s.available[0]];
      SumOne(FlagWeight(), s.available[0]);
    }
    if s.getters != [] {
      assert s.getters == [s.getters[0]];
      SumOne(GetterWeight(p), s.getters[0]);
    }
  }

  /** Steps that neither store, mark nor take a cone lower the load: those of the workers. */
  lemma WorkerLoadDrops<C(!new)>(p: Problem<C>, s: State<C>, e: Event<C>)
    requires Enabled(p, s, e)
    requires e.ExpandStart? || e.Known? || e.EndOfTransaction? || e.InsertEnd? || e.ComputeInitialCone?
    ensures Load(p, Fire(p, s, e)) < Load(p, s) && SameStore(Fire(p, s, e), s)
  {
    var s' := Fire(p, s, e);
    Sums(p, s, e);
    match e
    case ComputeInitialCone =>
      SumAppend(JobWeight(), s.jobs, s'.jobs[|s.jobs|]);
      if p.initial.Some? {
        SumOne(WorkWeight(), Work(None, {p.initial.value}));
      }
    case ExpandStart(i) =>
      SumRemove(ListWeight(p), s.lists, i);
      SumAppend(JobWeight(), s.jobs, s'.jobs[|s.jobs|]);
    case Known(j, c) =>
      HandledWeight(s.jobs[j], c);
      SumUpdate(JobWeight(), s.jobs, j, s'.jobs[j]);
    case EndOfTransaction(j) =>
      SumUpdate(JobWeight(), s.jobs, j, s'.jobs[j]);
    case InsertEnd(j) =>
      SumRemove(JobWeight(), s.jobs, j);
      SumAppend(CountWeight(), s.insertions, s.jobs[j].count);
  }

  /** The same for the steps of the workflow engine and of the fetching activity. */
  lemma EngineLoadDrops<C(!new)>(p: Problem<C>, s: State<C>, e: Event<C>)
    requires Shape(s) && Enabled(p, s, e) && Shape(Fire(p, s, e))
    requires e.Init? || e.GetStart? || e.GetEnd? || e.SumUp? || e.ConsumeZero? || e.Clean?
    ensures Load(p, Fire(p, s, e)) < Load(p, s)
  {
    var s' := Fire(p, s, e);
    FlagAndGetterLoad(p, s);
    FlagAndGetterLoad(p, s');
    match e
    case GetEnd => SumAppend(ListWeight(p), s.lists, s.getters[0].cones);
    case SumUp(i) => SumRemove(CountWeight(), s.insertions, i);
    case ConsumeZero(i) => SumRemove(CountWeight(), s.insertions, i);
    case _ =>
  }

  lemma StepDecreases<C(!new)>(p: Problem<C>, universe: set<C>, s: State<C>, e: Event<C>)
    requires Shape(s) && Enabled(p, s, e) && Shape(Fire(p, s, e)) && Fire(p, s, e).stored <= universe
    ensures Smaller(p, universe, Fire(p, s, e), s)
  {
    if e.Claim? || e.Mark? || e.Take? {
      StoreStepDecreases(p, universe, s, e);
    } else if e.ExpandStart? || e.Known? || e.EndOfTransaction? || e.InsertEnd? || e.ComputeInitialCone? {
      WorkerLoadDrops(p, s, e);
    } else {
      EngineLoadDrops(p, s, e);
      Sums(p, s, e);
      assert SameStore(Fire(p, s, e), s);
    }
  }

  lemma StoreStepDecreases<C(!new)>(p: Problem<C>, universe: set<C>, s: State<C>, e: Event<C>)
    requires Enabled(p, s, e) && Fire(p, s, e).stored <= universe
    requires e.Claim? || e.Mark? || e.Take?
    ensures Smaller(p, universe, Fire(p, s, e), s)
  {
    Sums(p, s, e);
    match e
    case Claim(j, c) => FewerUnknown(universe, s.stored, c);
    case Mark(j) => OneMore(Claimed(Fire(p, s, e)), s.jobs[j].claim.value);
    case Take(c) => OneLess(s.marked, c);
  }

  lemma FewerUnknown<C>(universe: set<C>, stored: set<C>, c: C)
    requires c !in stored && stored + {c} <= universe
    ensures |universe - (stored + {c})| < |universe - stored|
  {
    assert universe - stored == (universe - (stored + {c})) + {c};
  }

  lemma OneLess<C>(a: set<C>, c: C)
    requires c in a
    ensures |a - {c}| < |a|
  {
    assert a == (a - {c}) + {c};
  }

  /** Every step of a net with finitely many reachable cones makes the measure smaller. */
  lemma MeasureDecreases<C(!new)>(p: Problem<C>, universe: set<C>, s: State<C>, e: Event<C>, s': State<C>)
    requires p.Valid() && Inv(p, s) && Follows(p, s, e, s')
    requires Finite(p, universe)
    ensures Smaller(p, universe, s', s) && Inv(p, s')
  {
    StepInv(p, s, e);
    StepDecreases(p, universe, s, e);
  }

  ghost predicate StepAt<C>(p: Problem<C>, states: nat -> State<C>, events: nat -> Event<C>, i: nat) {
    Follows(p, states(i), events(i), states(i + 1))
  }

  /** With finitely many reachable cones no run goes on for ever. */
  lemma {:induction false} NoInfiniteRun<C(!new)>(
      p: Problem<C>, universe: set<C>, states: nat -> State<C>, events: nat -> Event<C>, from: nat)
    requires p.Valid() && Finite(p, universe)
    requires forall i: nat :: StepAt(p, states, events, i)
    requires Inv(p, states(from))
    ensures false
    decreases |universe - states(from).stored|, |Claimed(states(from))|, |states(from).marked|,
              Load(p, states(from))
  {
    assert StepAt(p, states, events, from);
    MeasureDecreases(p, universe, states(from), events(from), states(from + 1));
    NoInfiniteRun(p, universe, states, events, from + 1);
  }

  lemma {:induction false} FinishFrom<C(!new)>(p: Problem<C>, universe: set<C>, s: State<C>)
      returns (states: seq<State<C>>, events: seq<Event<C>>)
    requires p.Valid() && Inv(p, s)
    requires Finite(p, universe)
    ensures Chain(p, states, events) && states[0] == s && states[|events|].finished > 0
    decreases |universe - s.stored|, |Claimed(s)|, |s.marked|, Load(p, s)
  {
    if s.finished > 0 {
      states, events := [s], [];
    } else {
      var e := Progress(p, s);
      var s' := Fire(p, s, e);
      assert Follows(p, s, e, s');
      MeasureDecreases(p, universe, s, e, s');
      states, events := FinishFrom(p, universe, s');
      OneMoreEvent(p, s, e, states, events);
      states, events := [s] + states, [e] + events;
    }
  }

  lemma OneMoreEvent<C(!new)>(p: Problem<C>, s: State<C>, e: Event<C>, states: seq<State<C>>, events: seq<Event<C>>)
    requires Chain(p, states, events) && Follows(p, s, e, states[0])
    ensures Chain(p, [s] + states, [e] + events) && ([s] + states)[|events| + 1] == states[|events|]
  {
    forall i | 0 <= i < |events| + 1
      ensures Follows(p, ([s] + states)[i], ([e] + events)[i], ([s] + states)[i + 1])
    {
      if i > 0 {
        assert Follows(p, states[i - 1], events[i - 1], states[i]);
      }
    }
  }

  lemma JoinChains<C(!new)>(
      p: Problem<C>, states: seq<State<C>>, events: seq<Event<C>>,
      more: seq<State<C>>, moreEvents: seq<Event<C>>)
    requires Chain(p, states, events) && Chain(p, more, moreEvents) && more[0] == states[|events|]
    ensures Chain(p, states + more[1..], events + moreEvents)
    ensures (states + more[1..])[|events + moreEvents|] == more[|moreEvents|]
  {
    var all, allEvents := states + more[1..], events + moreEvents;
    forall i | 0 <= i < |allEvents|
      ensures Follows(p, all[i], allEvents[i], all[i + 1])
    {
      if i < |events| {
        assert Follows(p, states[i], events[i], states[i + 1]);
      } else {
        var k := i - |events|;
        assert Follows(p, more[k], moreEvents[k], more[k + 1]);
      }
    }
  }

  /** Any run can be continued to one that finishes, and (NoInfiniteRun) cannot help but do so. */
  lemma CanFinish<C(!new)>(p: Problem<C>, universe: set<C>, states: seq<State<C>>, events: seq<Event<C>>)
      returns (states': seq<State<C>>, events': seq<Event<C>>)
    requires p.Valid() && IsRun(p, states, events)
    requires Finite(p, universe)
    ensures IsRun(p, states', events') && states <= states' && events <= events'
    ensures states'[|events'|].finished > 0
  {
    RunInv(p, states, events);
    assert states[|events|] in states;
    var more, moreEvents := FinishFrom(p, universe, states[|events|]);
    JoinChains(p, states, events, more, moreEvents);
    states', events' := states + more[1..], events + moreEvents;
  }
}
