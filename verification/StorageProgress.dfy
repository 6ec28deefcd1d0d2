/**
 * Calls on the storages of src/storage/filesystem return: an unmarking call always has a step to do, each of
 * its steps leaves it less to do, and the steps of others do not add to that.
 */
module StorageProgress {
  import opened Seqs
  import opened Directories
  import opened StringPaths
  import Container = StringContainer
  import Constant = ConstantStorage
  import Trees = StorageTrees
  import Linear = LinearStorage

  // ---------- The storage in two sets ----------

  /** While the call collects, what was marked when it began still is. */
  ghost predicate StartMarked<C>(s: Constant.State<C>) {
    Constant.Collecting(s) ==> s.call.value.start <= s.marked
  }

  lemma StepStartMarked<C>(s: Constant.State<C>, e: Constant.Event<C>)
    requires StartMarked(s) && Constant.Enabled(s, e)
    ensures StartMarked(Constant.Fire(s, e))
  {
  }

  ghost predicate IsCallStep<C>(e: Constant.Event<C>) {
    e.Collect? || e.StopCollecting? || e.RemoveNext? || e.Return?
  }

  /** Cones that may still be collected, each to be removed as well, and cones to be removed. */
  ghost function CallWork<C>(call: Option<Constant.Unmarking<C>>): int {
    match call
    case None => 0
    case Some(u) =>
      if u.removing then |u.cones| - u.removed + 1
      else (if |u.cones| < u.size then 2 * (u.size - |u.cones|) else 0) + |u.cones| + 2
  }

  lemma CallCanStep<C>(s: Constant.State<C>) returns (e: Constant.Event<C>)
    requires Constant.Inv(s) && StartMarked(s) && s.call.Some?
    ensures IsCallStep(e) && Constant.Enabled(s, e)
  {
    var u := s.call.value;
    if u.removing {
      e := if u.removed < |u.cones| then Constant.RemoveNext else Constant.Return;
    } else if |u.cones| < u.size && exists c :: c in u.start && c !in u.cones {
      var c :| c in u.start && c !in u.cones;
      e := Constant.Collect(c);
    } else {
      e := Constant.StopCollecting;
    }
  }

  lemma CallStepWorks<C>(s: Constant.State<C>, e: Constant.Event<C>)
    requires Constant.Inv(s) && s.call.Some? && Constant.Enabled(s, e)
    ensures var before, after := CallWork(s.call), CallWork(Constant.Fire(s, e).call);
      if IsCallStep(e) then 0 <= after < before else after == before
  {
  }

  /** How many of the events are steps of the call. */
  ghost function CallSteps<C>(events: seq<Constant.Event<C>>): nat {
    if events == [] then 0
    else CallSteps(events[..|events| - 1]) + if IsCallStep(events[|events| - 1]) then 1 else 0
  }

  /** A chain of steps in which an unmarking call keeps running. */
  ghost predicate RunsOn<C>(states: seq<Constant.State<C>>, events: seq<Constant.Event<C>>) {
    && |states| == |events| + 1 && Constant.Inv(states[0]) && StartMarked(states[0])
    && (forall i :: 0 <= i < |events| ==> Constant.Follows(states[i], events[i], states[i + 1]))
    && forall i :: 0 <= i < |events| ==> states[i].call.Some?
  }

  /** So the call returns: it takes only so many steps, and until it has returned it can take one. */
  lemma {:induction false} CallReturns<C>(states: seq<Constant.State<C>>, events: seq<Constant.Event<C>>)
    requires RunsOn(states, events)
    ensures Constant.Inv(states[|events|]) && StartMarked(states[|events|])
    ensures CallSteps(events) + CallWork(states[|events|].call) <= CallWork(states[0].call)
    ensures CallWork(states[|events|].call) >= 0
    ensures states[|events|].call.Some? ==> exists e :: IsCallStep(e) && Constant.Enabled(states[|events|], e)
    decreases |events|
  {
    var n := |events|;
    if n > 0 {
      CallReturns(states[..n], events[..n - 1]);
      var s, e := states[n - 1], events[n - 1];
      assert Constant.Follows(s, e, states[n]);
      Constant.StepInv(s, e);
      StepStartMarked(s, e);
      CallStepWorks(s, e);
    }
    if states[n].call.Some? {
      var e := CallCanStep(states[n]);
    }
  }

  // ---------- The storage in two directory trees ----------

  /** The current call on `_marked` of the unmarking call is a removal. */
  ghost predicate RemovalRemoves(s: Trees.State) {
    s.removal.Some? ==> s.removal.value < |s.marked.calls| && s.marked.calls[s.removal.value].Remove?
  }

  ghost predicate Sound(l: PieceLength, s: Trees.State) {
    Trees.Inv(l, s) && Constant.Inv(Trees.View(s)) && StartMarked(Trees.View(s)) && RemovalRemoves(s)
  }

  lemma StepViewSound(v: Constant.State<string>, e: Option<Constant.Event<string>>, v': Constant.State<string>)
    requires Constant.Inv(v) && StartMarked(v) && Trees.Refines(v, e, v')
    ensures Constant.Inv(v') && StartMarked(v')
  {
    if e.Some? {
      Constant.StepInv(v, e.value);
      StepStartMarked(v, e.value);
    }
  }

  lemma StepRemoves(l: PieceLength, s: Trees.State, e: Trees.Event)
    requires Trees.Inv(l, s) && RemovalRemoves(s) && Trees.Enabled(l, s, e)
    ensures RemovalRemoves(Trees.Fire(l, s, e))
  {
    if e.StepMarked? {
      Trees.StepEffect(l, s.marked, e.j);
    }
  }

  lemma StepSound(l: PieceLength, s: Trees.State, e: Trees.Event)
    requires Sound(l, s) && Trees.Enabled(l, s, e)
    ensures Sound(l, Trees.Fire(l, s, e))
  {
    Trees.StepInv(l, s, e);
    Trees.StepRefines(l, s, e);
    StepViewSound(Trees.View(s), Trees.EventOf(l, s, e), Trees.View(Trees.Fire(l, s, e)));
    StepRemoves(l, s, e);
  }

  /** A step of the unmarking call itself, perhaps within its current removal. */
  ghost predicate IsOwnStep(s: Trees.State, e: Trees.Event) {
    match e
    case StepMarked(j) => s.removal == Some(j)
    case Collect(_) => true
    case StopCollecting => true
    case StartRemoving => true
    case EndRemoving => true
    case Return => true
    case _ => false
  }

  lemma OwnCanStep(l: PieceLength, s: Trees.State) returns (e: Trees.Event)
    requires Sound(l, s) && s.call.Some?
    ensures IsOwnStep(s, e) && Trees.Enabled(l, s, e)
  {
    var u := s.call.value;
    if !u.removing {
      var step := CallCanStep(Trees.View(s));
      e := if step.Collect? then Trees.Collect(step.cone) else Trees.StopCollecting;
    } else if s.removal.Some? {
      Container.UndoneCanStep(l, s.marked);
      var j := s.removal.value;
      e := if Container.Done(s.marked.calls[j]) then Trees.EndRemoving else Trees.StepMarked(j);
    } else {
      e := if u.removed < |u.cones| then Trees.StartRemoving else Trees.Return;
    }
  }

  ghost function CallPhase(c: Container.Call): nat {
    if c.result == Container.Pending then 0 else 2 + c.level
  }

  /** A removal that has taken effect has only parents to try, and the next begins after it has ended. */
  ghost function Phase(s: Trees.State): nat {
    if s.removal.Some? && s.removal.value < |s.marked.calls| then CallPhase(s.marked.calls[s.removal.value]) else 1
  }

  ghost function Work(s: Trees.State): int {
    CallWork(s.call)
  }

  /** Less to do: fewer cones, or fewer steps for the current one. */
  ghost predicate Less(s': Trees.State, s: Trees.State) {
    0 <= Work(s') && (Work(s') < Work(s) || (Work(s') == Work(s) && Phase(s') < Phase(s)))
  }

  ghost predicate Same(s': Trees.State, s: Trees.State) {
    Work(s') == Work(s) && Phase(s') == Phase(s)
  }

  /** What a step of a removal does to it. */
  lemma RemovalStep(l: PieceLength, s: Container.State, j: nat)
    requires Container.Inv(l, s) && Container.CanStep(l, s, j) && s.calls[j].Remove?
    ensures var c, c' := s.calls[j], Container.Step(l, s, j).calls[j];
      if c.result == Container.Pending then c'.result != Container.Pending && Trees.JustReturned(c, c')
      else c'.result == c.result && c'.level + 1 == c.level
  {
    assert Container.CallOk(l, s, s.calls[j]);
    Container.StepCall(l, s, j);
  }

  lemma RemovalWorks(l: PieceLength, s: Trees.State, j: nat)
    requires Sound(l, s) && s.call.Some? && s.removal == Some(j) && Container.CanStep(l, s.marked, j)
    ensures Less(Trees.Fire(l, s, Trees.StepMarked(j)), s)
  {
    Trees.StepEffect(l, s.marked, j);
    RemovalStep(l, s.marked, j);
    assert Trees.RemovesNext(s.marked.calls[j], j, s.call, s.removal);
  }

  lemma OthersMarked(l: PieceLength, s: Trees.State, j: nat)
    requires Sound(l, s) && s.call.Some? && s.removal != Some(j) && Container.CanStep(l, s.marked, j)
    ensures Same(Trees.Fire(l, s, Trees.StepMarked(j)), s)
  {
    Trees.StepEffect(l, s.marked, j);
    assert Trees.RemovesNext(s.marked.calls[j], j, s.call, s.removal);
  }

  /** Each of its own steps leaves the unmarking call less to do, and no other step changes what that is. */
  lemma OwnStepWorks(l: PieceLength, s: Trees.State, e: Trees.Event)
    requires Sound(l, s) && s.call.Some? && Trees.Enabled(l, s, e)
    ensures if IsOwnStep(s, e) then Less(Trees.Fire(l, s, e), s) else Same(Trees.Fire(l, s, e), s)
  {
    match e
    case StepMarked(j) =>
      if s.removal == Some(j) {
        RemovalWorks(l, s, j);
      } else {
        OthersMarked(l, s, j);
      }
    case _ =>
  }

  ghost predicate StepAt(l: PieceLength, states: nat -> Trees.State, events: nat -> Trees.Event, i: nat) {
    Trees.Follows(l, states(i), events(i), states(i + 1))
  }

  ghost predicate CallAt(states: nat -> Trees.State, i: nat) {
    states(i).call.Some?
  }

  lemma StepOfRunning(l: PieceLength, s: Trees.State, e: Trees.Event, s': Trees.State)
    requires Sound(l, s) && s.call.Some? && Trees.Follows(l, s, e, s')
    ensures Sound(l, s') && if IsOwnStep(s, e) then Less(s', s) else Same(s', s)
  {
    StepSound(l, s, e);
    OwnStepWorks(l, s, e);
  }

  lemma {:induction false} StaysSound(
      l: PieceLength, states: nat -> Trees.State, events: nat -> Trees.Event, from: nat, i: nat)
    requires Sound(l, states(from)) && from <= i
    requires forall i: nat :: StepAt(l, states, events, i)
    ensures Sound(l, states(i))
    decreases i
  {
    if from < i {
      var before: nat := i - 1;
      StaysSound(l, states, events, from, before);
      assert StepAt(l, states, events, before);
      StepSound(l, states(before), events(before));
    }
  }

  ghost predicate OwnFrom(own: nat -> bool, i: nat) {
    exists j: nat :: i <= j && own(j)
  }

  /** From one state of a run to the next, a step of its own leaves the call less to do. */
  ghost predicate Lowers(work: nat -> int, phase: nat -> nat, own: bool, i: nat, next: nat) {
    if own then 0 <= work(next) && (work(next) < work(i) || (work(next) == work(i) && phase(next) < phase(i)))
    else work(next) == work(i) && phase(next) == phase(i)
  }

  lemma {:induction false} NotForever(work: nat -> int, phase: nat -> nat, own: nat -> bool, from: nat, later: nat)
    requires forall i: nat :: from <= i ==> Lowers(work, phase, own(i), i, i + 1)
    requires forall i: nat :: OwnFrom(own, i)
    requires from <= later && own(later)
    ensures false
    decreases work(from), phase(from), later - from
  {
    var next := from + 1;
    assert Lowers(work, phase, own(from), from, next) && OwnFrom(own, next);
    var j: nat :| next <= j && own(j);
    NotForever(work, phase, own, next, if own(from) then j else later);
  }

  ghost function Works(states: nat -> Trees.State): nat -> int {
    (i: nat) => Work(states(i))
  }

  ghost function Phases(states: nat -> Trees.State): nat -> nat {
    (i: nat) => Phase(states(i))
  }

  ghost function OwnSteps(states: nat -> Trees.State, events: nat -> Trees.Event): nat -> bool {
    (i: nat) => IsOwnStep(states(i), events(i))
  }

  lemma LowersAt(l: PieceLength, states: nat -> Trees.State, events: nat -> Trees.Event, from: nat, i: nat)
    requires Sound(l, states(from)) && from <= i && CallAt(states, i)
    requires forall i: nat :: StepAt(l, states, events, i)
    ensures Lowers(Works(states), Phases(states), IsOwnStep(states(i), events(i)), i, i + 1)
  {
    assert StepAt(l, states, events, i);
    StaysSound(l, states, events, from, i);
    StepOfRunning(l, states(i), events(i), states(i + 1));
  }

  /** So an unmarking call that is given its turn again and again returns, whatever else goes on. */
  lemma UnmarkingReturns(l: PieceLength, states: nat -> Trees.State, events: nat -> Trees.Event, from: nat)
    requires Sound(l, states(from))
    requires forall i: nat :: StepAt(l, states, events, i)
    requires forall i: nat :: OwnFrom(OwnSteps(states, events), i)
    ensures exists i: nat :: from <= i && !CallAt(states, i)
  {
    if forall i: nat :: from <= i ==> CallAt(states, i) {
      var own := OwnSteps(states, events);
      forall i: nat | from <= i
        ensures Lowers(Works(states), Phases(states), own(i), i, i + 1)
      {
        LowersAt(l, states, events, from, i);
      }
      assert OwnFrom(own, from);
      var later: nat :| from <= later && own(later);
      NotForever(Works(states), Phases(states), own, from, later);
    }
  }

  // ---------- All calls on the two directory trees ----------

  ghost predicate AllDone(s: Container.State) {
    forall j :: 0 <= j < |s.calls| ==> Container.Done(s.calls[j])
  }

  ghost predicate Quiet(s: Trees.State) {
    AllDone(s.all) && AllDone(s.marked) && s.won == multiset{} && s.call == None
  }

  ghost predicate IsStart(e: Trees.Event) {
    e.StartAdding? || e.StartUnmarking?
  }

  lemma UndoneCall(l: PieceLength, s: Container.State) returns (j: nat)
    requires Container.Inv(l, s) && !AllDone(s)
    ensures Container.CanStep(l, s, j)
  {
    Container.UndoneCanStep(l, s);
    j :| 0 <= j < |s.calls| && !Container.Done(s.calls[j]);
  }

  /** As long as some call has not returned, one of them can take a step. */
  lemma Progress(l: PieceLength, s: Trees.State) returns (e: Trees.Event)
    requires Sound(l, s) && !Quiet(s)
    ensures !IsStart(e) && Trees.Enabled(l, s, e)
  {
    if s.call.Some? {
      e := OwnCanStep(l, s);
    } else if s.won != multiset{} {
      var c :| c in s.won;
      e := Trees.StartMarking(c);
    } else if !AllDone(s.all) {
      var j := UndoneCall(l, s.all);
      e := Trees.StepAll(j);
    } else {
      var j := UndoneCall(l, s.marked);
      e := Trees.StepMarked(j);
    }
  }

  ghost predicate IsPending(s: Trees.State) {
    s.removal.Some? && Phase(s) == 0
  }

  /** What the unmarking call has to begin. */
  ghost function ToBegin(s: Trees.State): int {
    Work(s) - if IsPending(s) then 1 else 0
  }

  ghost function Open(s: Trees.State): nat {
    if s.removal.Some? then 1 else 0
  }

  ghost predicate Settles(l: PieceLength, s': Trees.State, s: Trees.State) {
    && 0 <= ToBegin(s')
    && if Container.Work(l, s'.all) != Container.Work(l, s.all) then
         Container.Work(l, s'.all) < Container.Work(l, s.all)
       else if |s'.won| != |s.won| then |s'.won| < |s.won|
       else SettlesMarked(l, s', s)
  }

  ghost predicate SettlesMarked(l: PieceLength, s': Trees.State, s: Trees.State) {
    if ToBegin(s') != ToBegin(s) then ToBegin(s') < ToBegin(s)
    else if Container.Work(l, s'.marked) != Container.Work(l, s.marked) then
      Container.Work(l, s'.marked) < Container.Work(l, s.marked)
    else Open(s') < Open(s)
  }

  lemma ToBeginNotNegative(l: PieceLength, s: Trees.State)
    requires Sound(l, s)
    ensures 0 <= ToBegin(s)
  {
    if IsPending(s) {
      assert Trees.RemovesNext(s.marked.calls[s.removal.value], s.removal.value, s.call, s.removal);
    }
  }

  lemma StepMarkedSettles(l: PieceLength, s: Trees.State, j: nat)
    requires Sound(l, s) && Container.CanStep(l, s.marked, j)
    ensures var s' := Trees.Fire(l, s, Trees.StepMarked(j));
      && ToBegin(s') == ToBegin(s) && s'.all == s.all && s'.won == s.won
      && Container.Work(l, s'.marked) < Container.Work(l, s.marked)
  {
    Container.StepWorks(l, s.marked, j);
    Trees.StepEffect(l, s.marked, j);
    assert Trees.RemovesNext(s.marked.calls[j], j, s.call, s.removal);
    if s.removal == Some(j) {
      RemovalStep(l, s.marked, j);
    }
  }

  /** Every step but the start of a new call leaves less to do. */
  lemma StepSettles(l: PieceLength, s: Trees.State, e: Trees.Event)
    requires Sound(l, s) && Trees.Enabled(l, s, e) && !IsStart(e)
    ensures Settles(l, Trees.Fire(l, s, e), s)
  {
    StepSound(l, s, e);
    ToBeginNotNegative(l, Trees.Fire(l, s, e));
    match e
    case StepAll(j) => Container.StepWorks(l, s.all, j);
    case StepMarked(j) => StepMarkedSettles(l, s, j);
    case _ =>
  }

  /** So all calls return once no new ones come: in an endless run new ones keep coming. */
  lemma {:induction false} NewCallsCome(
      l: PieceLength, states: nat -> Trees.State, events: nat -> Trees.Event, from: nat)
    requires Sound(l, states(from))
    requires forall i: nat :: StepAt(l, states, events, i)
    ensures exists i: nat :: from <= i && IsStart(events(i))
    decreases Container.Work(l, states(from).all), |states(from).won|, ToBegin(states(from)),
              Container.Work(l, states(from).marked), Open(states(from))
  {
    if !IsStart(events(from)) {
      assert StepAt(l, states, events, from);
      StepSound(l, states(from), events(from));
      StepSettles(l, states(from), events(from));
      NewCallsCome(l, states, events, from + 1);
    }
  }

  /** All this holds in every state of every run. */
  lemma {:induction false} RunSound(l: PieceLength, states: seq<Trees.State>, events: seq<Trees.Event>)
    requires Trees.IsRun(l, states, events)
    ensures Sound(l, states[|events|])
    decreases |events|
  {
    var n := |events|;
    if n == 0 {
      Trees.EmptyView(l);
      var views, steps := Trees.RunRefines(l, states, events);
      var stores, actions := Constant.RunRefines(views, steps);
    } else {
      RunSound(l, states[..n], events[..n - 1]);
      assert Trees.Follows(l, states[n - 1], events[n - 1], states[n]);
      StepSound(l, states[n - 1], events[n - 1]);
    }
  }

  // ---------- The storage in one directory tree ----------

  ghost predicate LinearSound(u: set<string>, l: PieceLength, s: Linear.State) {
    var v := Linear.View(u, l, s);
    Linear.Inv(u, l, s) && Constant.Inv(v) && StartMarked(v)
  }

  lemma LinearStepSound(u: set<string>, l: PieceLength, s: Linear.State, e: Linear.Event)
    requires LinearSound(u, l, s) && Linear.Enabled(l, s, e) && Linear.AddsOnly(u, e)
    ensures LinearSound(u, l, Linear.Fire(l, s, e))
  {
    Linear.StepInv(u, l, s, e);
    Linear.StepRefines(u, l, s, e);
    StepViewSound(Linear.View(u, l, s), Linear.EventOf(s, e), Linear.View(u, l, Linear.Fire(l, s, e)));
  }

  lemma CanCollect(u: set<string>, l: PieceLength, s: Linear.State, c: string)
    requires Linear.Inv(u, l, s) && Constant.Enabled(Linear.View(u, l, s), Constant.Collect(c))
    ensures Linear.Enabled(l, s, Linear.Collect(Linear.PathFor(c, l)))
  {
    Linear.JoinedPathFor(c, l);
  }

  lemma CanStop(u: set<string>, l: PieceLength, s: Linear.State)
    requires Linear.Inv(u, l, s) && Constant.Enabled(Linear.View(u, l, s), Constant.StopCollecting)
    ensures Linear.Enabled(l, s, Linear.StopCollecting)
  {
    var a := s.call.value;
    if |a.markFiles| < a.size {
      forall p | p in a.start
        ensures p in a.markFiles
      {
        assert Linear.IsPathOf(u, l, p);
        assert Joined(p) in Linear.ConesAt(u, l, a.start) && Joined(p) in a.cones;
        var i :| 0 <= i < |a.cones| && a.cones[i] == Joined(p);
        assert Linear.IsPathOf(u, l, a.markFiles[i]);
      }
    }
  }

  ghost predicate LinearStart(e: Linear.Event) {
    e.StartAdding? || e.StartUnmarking?
  }

  /** As long as some call has not returned, one of them can take a step; the unmarking call always can. */
  lemma LinearProgress(u: set<string>, l: PieceLength, s: Linear.State) returns (e: Linear.Event)
    requires LinearSound(u, l, s) && (s.call.Some? || s.adding != [] || s.claimed != multiset{})
    ensures !LinearStart(e) && Linear.Enabled(l, s, e)
    ensures s.call.Some? ==> e.Collect? || e.StopCollecting? || e.RemoveNext? || e.Return?
  {
    if s.call.Some? {
      var step := CallCanStep(Linear.View(u, l, s));
      e := OfTheCall(u, l, s, step);
    } else if s.adding != [] {
      var a := s.adding[0];
      assert Linear.AddingOk(u, l, s.dirs, a);
      e := if a.level < |Linear.PathFor(a.cone, l)| then Linear.MakeParent(0) else Linear.MakeOwn(0);
    } else {
      var c :| c in s.claimed;
      e := Linear.Touch(c);
    }
  }

  lemma OfTheCall(u: set<string>, l: PieceLength, s: Linear.State, step: Constant.Event<string>)
      returns (e: Linear.Event)
    requires LinearSound(u, l, s) && IsCallStep(step) && Constant.Enabled(Linear.View(u, l, s), step)
    ensures Linear.Enabled(l, s, e) && (e.Collect? || e.StopCollecting? || e.RemoveNext? || e.Return?)
  {
    match step
    case Collect(c) =>
      CanCollect(u, l, s, c);
      e := Linear.Collect(Linear.PathFor(c, l));
    case StopCollecting =>
      CanStop(u, l, s);
      e := Linear.StopCollecting;
    case RemoveNext => e := Linear.RemoveNext;
    case Return => e := Linear.Return;
  }

  /** Directories an adding call has to create. */
  ghost function ToCreate(l: PieceLength): Linear.Adding -> nat {
    (a: Linear.Adding) => var n := |Linear.PathFor(a.cone, l)|; 1 + if a.level <= n then n - a.level else 0
  }

  ghost function LinearWork(u: set<string>, l: PieceLength, s: Linear.State): int {
    CallWork(Linear.View(u, l, s).call)
  }

  ghost predicate LinearSettles(u: set<string>, l: PieceLength, s': Linear.State, s: Linear.State) {
    && 0 <= LinearWork(u, l, s')
    && if Sum(ToCreate(l), s'.adding) != Sum(ToCreate(l), s.adding) then
         Sum(ToCreate(l), s'.adding) < Sum(ToCreate(l), s.adding)
       else if |s'.claimed| != |s.claimed| then |s'.claimed| < |s.claimed|
       else LinearWork(u, l, s') < LinearWork(u, l, s)
  }

  /** Every step but the start of a new call leaves less to do. */
  lemma LinearStepSettles(u: set<string>, l: PieceLength, s: Linear.State, e: Linear.Event)
    requires LinearSound(u, l, s) && Linear.Enabled(l, s, e) && !LinearStart(e)
    ensures LinearSettles(u, l, Linear.Fire(l, s, e), s)
  {
    LinearStepSound(u, l, s, e);
    var s' := Linear.Fire(l, s, e);
    if s.call.Some? && s'.call != s.call {
      Linear.StepRefines(u, l, s, e);
      CallStepWorks(Linear.View(u, l, s), Linear.EventOf(s, e).value);
    }
    match e
    case MakeParent(i) => SumUpdate(ToCreate(l), s.adding, i, s'.adding[i]);
    case MakeOwn(i) => SumRemove(ToCreate(l), s.adding, i);
    case _ =>
  }

  ghost predicate LinearStepAt(
      l: PieceLength, states: nat -> Linear.State, events: nat -> Linear.Event, i: nat)
  {
    Linear.Follows(l, states(i), events(i), states(i + 1))
  }

  /** So here, too, all calls return once no new ones come. */
  lemma {:induction false} NewLinearCallsCome(
      u: set<string>, l: PieceLength, states: nat -> Linear.State, events: nat -> Linear.Event, from: nat)
    requires LinearSound(u, l, states(from))
    requires forall i: nat :: LinearStepAt(l, states, events, i)
    ensures exists i: nat :: from <= i && LinearStart(events(i))
    decreases Sum(ToCreate(l), states(from).adding), |states(from).claimed|, LinearWork(u, l, states(from))
  {
    if !LinearStart(events(from)) {
      assert LinearStepAt(l, states, events, from);
      LinearStepSound(u, l, states(from), events(from));
      LinearStepSettles(u, l, states(from), events(from));
      NewLinearCallsCome(u, l, states, events, from + 1);
    }
  }

  /** All this holds in every state of every run that adds compatible cones only. */
  lemma {:induction false} LinearRunSound(
      u: set<string>, l: PieceLength, states: seq<Linear.State>, events: seq<Linear.Event>)
    requires Linear.Compatible(u, l) && Linear.IsRun(u, l, states, events)
    ensures LinearSound(u, l, states[|events|])
    decreases |events|
  {
    var n := |events|;
    if n == 0 {
      var views, steps := Linear.RunRefines(u, l, states, events);
      var stores, actions := Constant.RunRefines(views, steps);
    } else {
      LinearRunSound(u, l, states[..n], events[..n - 1]);
      assert Linear.AddsOnly(u, events[n - 1]) && Linear.Follows(l, states[n - 1], events[n - 1], states[n]);
      LinearStepSound(u, l, states[n - 1], events[n - 1]);
    }
  }
}
