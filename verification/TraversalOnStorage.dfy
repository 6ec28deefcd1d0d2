/**
 * The traversal net running on a cone storage that keeps the contract, and on the storage in two directory
 * trees: the two are separate, and only the calls of the net and their answers are common to both.
 */
module TraversalOnStorage {
  import opened Seqs
  import opened Directories
  import opened Traversal
  import opened TraversalSafety
  import opened TraversalStorage
  import Contract = StorageContract
  import Constant = ConstantStorage
  import Container = StringContainer
  import Trees = StorageTrees

  // ---------- The net by itself ----------

  /** What the net knows: everything but the contents of the storage. */
  ghost function Control<C>(s: State<C>): State<C> {
    s.(stored := {}, marked := {}, taken := {}, getters := Requests(s.getters))
  }

  /** A running call without the contents of the storage when it began. */
  ghost function Requests<C>(getters: seq<Getter<C>>): seq<Getter<C>> {
    seq(|getters|, i requires 0 <= i < |getters| => getters[i].(start := {}))
  }

  /** For some contents of the storage the net can fire the event, with this call or none. */
  ghost predicate NetStep<C(!new)>(
      p: Problem<C>, c: State<C>, e: Event<C>, call: Option<Contract.Action<C>>, c': State<C>)
  {
    exists s :: NetStepFrom(p, s, c, e, call, c')
  }

  ghost predicate NetStepFrom<C>(
      p: Problem<C>, s: State<C>, c: State<C>, e: Event<C>, call: Option<Contract.Action<C>>, c': State<C>)
  {
    Control(s) == c && Enabled(p, s, e) && CallOf(p, s, e) == call && Control(Fire(p, s, e)) == c'
  }

  /** The state of the net with the contents of the storage. */
  ghost predicate Together<C>(s: State<C>, c: State<C>, v: Contract.Store<C>) {
    Control(s) == c && StoreOf(s) == v
  }

  lemma SameRequests<C>(a: seq<Getter<C>>, b: seq<Getter<C>>)
    requires Requests(a) == Requests(b)
    ensures |a| == |b| && forall i :: 0 <= i < |a| ==> a[i] == b[i].(start := a[i].start)
  {
    forall i | 0 <= i < |a|
      ensures a[i] == b[i].(start := a[i].start)
    {
      assert Requests(a)[i] == Requests(b)[i];
    }
  }

  /** The event can be fired, makes the same call and changes the net in the same way. */
  ghost predicate Alike<C>(p: Problem<C>, s: State<C>, other: State<C>, e: Event<C>) {
    && Enabled(p, s, e) && Enabled(p, other, e) && CallOf(p, s, e) == CallOf(p, other, e)
    && Control(Fire(p, s, e)) == Control(Fire(p, other, e))
  }

  /** Steps of the net without a call. */
  lemma AlikeWithoutCall<C>(p: Problem<C>, s: State<C>, other: State<C>, e: Event<C>)
    requires Control(s) == Control(other) && Enabled(p, other, e) && CallOf(p, other, e) == None
    ensures Alike(p, s, other, e)
  {
    SameRequests(s.getters, other.getters);
  }

  lemma AlikeWhenAdding<C>(p: Problem<C>, s: State<C>, other: State<C>, e: Event<C>)
    requires Control(s) == Control(other) && Enabled(p, other, e) && (e.Claim? || e.Known? || e.Mark?)
    requires Contract.Allowed(StoreOf(s), CallOf(p, other, e).value)
    ensures Alike(p, s, other, e)
  {
    SameRequests(s.getters, other.getters);
  }

  lemma AlikeAtStart<C>(p: Problem<C>, s: State<C>, other: State<C>, e: Event<C>)
    requires Control(s) == Control(other) && Enabled(p, other, e) && e.GetStart?
    requires Contract.Allowed(StoreOf(s), CallOf(p, other, e).value)
    ensures Alike(p, s, other, e)
  {
    SameRequests(s.getters, other.getters);
  }

  lemma AlikeWhenTaking<C>(p: Problem<C>, s: State<C>, other: State<C>, e: Event<C>)
    requires Control(s) == Control(other) && Enabled(p, other, e) && e.Take?
    requires Contract.Allowed(StoreOf(s), CallOf(p, other, e).value)
    ensures Alike(p, s, other, e)
  {
    SameRequests(s.getters, other.getters);
  }

  lemma AlikeAtEnd<C>(p: Problem<C>, s: State<C>, other: State<C>, e: Event<C>)
    requires Control(s) == Control(other) && Enabled(p, other, e) && e.GetEnd?
    requires Contract.Allowed(StoreOf(s), CallOf(p, other, e).value)
    ensures Alike(p, s, other, e)
  {
    SameRequests(s.getters, other.getters);
  }

  /** What the net can do for some contents it can do with every storage that allows the call. */
  lemma SameStep<C>(p: Problem<C>, s: State<C>, other: State<C>, e: Event<C>)
    requires Control(s) == Control(other) && Enabled(p, other, e)
    requires CallOf(p, other, e).Some? ==> Contract.Allowed(StoreOf(s), CallOf(p, other, e).value)
    ensures Alike(p, s, other, e)
  {
    match e
    case GetStart => AlikeAtStart(p, s, other, e);
    case Take(_) => AlikeWhenTaking(p, s, other, e);
    case GetEnd => AlikeAtEnd(p, s, other, e);
    case Claim(_, _) => AlikeWhenAdding(p, s, other, e);
    case Known(_, _) => AlikeWhenAdding(p, s, other, e);
    case Mark(_) => AlikeWhenAdding(p, s, other, e);
    case _ => AlikeWithoutCall(p, s, other, e);
  }

  // ---------- The net on a storage ----------

  /** One step of the two: the net, with or without a call, or something inside the storage. */
  datatype Step<C> = Step(event: Option<Event<C>>, call: Option<Contract.Action<C>>)

  ghost predicate JointStep<C(!new)>(
      p: Problem<C>, c: State<C>, v: Contract.Store<C>, step: Step<C>, c': State<C>, v': Contract.Store<C>)
  {
    && (if step.event == None then step.call == None && c' == c else NetStep(p, c, step.event.value, step.call, c'))
    && (if step.call == None then v' == v else Contract.Follows(v, step.call.value, v'))
  }

  ghost predicate JointRun<C(!new)>(
      p: Problem<C>, controls: seq<State<C>>, stores: seq<Contract.Store<C>>, steps: seq<Step<C>>)
  {
    && |controls| == |stores| == |steps| + 1 && controls[0] == Start() && stores[0] == Contract.Empty()
    && forall i :: 0 <= i < |steps| ==> JointStep(p, controls[i], stores[i], steps[i], controls[i + 1], stores[i + 1])
  }

  /** The joint state is one of the traversal. */
  lemma JointStepFollows<C(!new)>(
      p: Problem<C>, s: State<C>, c: State<C>, v: Contract.Store<C>, e: Event<C>, call: Option<Contract.Action<C>>,
      c': State<C>, v': Contract.Store<C>) returns (s': State<C>)
    requires Together(s, c, v) && Shape(s) && NetStep(p, c, e, call, c')
    requires if call == None then v' == v else Contract.Follows(v, call.value, v')
    ensures Follows(p, s, e, s') && Together(s', c', v')
  {
    var other :| NetStepFrom(p, other, c, e, call, c');
    SameStep(p, s, other, e);
    s' := Fire(p, s, e);
    NetUsesContract(p, s, e);
  }

  /** Whatever the storage does between its answers, the two together make a run of the traversal. */
  lemma {:induction false} JointRunIsRun<C(!new)>(
      p: Problem<C>, controls: seq<State<C>>, stores: seq<Contract.Store<C>>, steps: seq<Step<C>>)
      returns (states: seq<State<C>>, events: seq<Event<C>>)
    requires p.Valid() && JointRun(p, controls, stores, steps)
    ensures IsRun(p, states, events) && Together(states[|events|], controls[|steps|], stores[|steps|])
    decreases |steps|
  {
    var n := |steps|;
    if n == 0 {
      states, events := [Start()], [];
      StartTogether<C>();
    } else {
      states, events := JointRunIsRun(p, controls[..n], stores[..n], steps[..n - 1]);
      assert JointStep(p, controls[n - 1], stores[n - 1], steps[n - 1], controls[n], stores[n]);
      if steps[n - 1].event.Some? {
        var s, e := states[|events|], steps[n - 1].event.value;
        EndHasShape(p, states, events);
        var s' := JointStepFollows(p, s, controls[n - 1], stores[n - 1], e, steps[n - 1].call, controls[n], stores[n]);
        ExtendRun(p, states, events, e, s');
        states, events := states + [s'], events + [e];
      }
    }
  }

  lemma StartTogether<C>()
    ensures Together<C>(Start(), Start(), Contract.Empty())
  {
    assert Claimed(Start<C>()) == multiset{};
  }

  lemma EndHasShape<C(!new)>(p: Problem<C>, states: seq<State<C>>, events: seq<Event<C>>)
    requires p.Valid() && IsRun(p, states, events)
    ensures Shape(states[|events|])
  {
    RunInv(p, states, events);
    assert states[|events|] in states;
  }

  lemma ExtendRun<C(!new)>(p: Problem<C>, states: seq<State<C>>, events: seq<Event<C>>, e: Event<C>, s': State<C>)
    requires IsRun(p, states, events) && Follows(p, states[|events|], e, s')
    ensures IsRun(p, states + [s'], events + [e])
  {
    var all, allEvents := states + [s'], events + [e];
    forall i | 0 <= i < |allEvents|
      ensures Follows(p, all[i], allEvents[i], all[i + 1])
    {
      if i < |events| {
        assert Follows(p, states[i], events[i], states[i + 1]);
      }
    }
  }

  /** So when `clean` has fired, the storage holds what the traversal promises. */
  lemma TraversalOnContract<C(!new)>(
      p: Problem<C>, controls: seq<State<C>>, stores: seq<Contract.Store<C>>, steps: seq<Step<C>>)
    requires p.Valid() && p.jobSize > 0 && JointRun(p, controls, stores, steps)
    requires controls[|steps|].finished > 0
    ensures var c, v := controls[|steps|], stores[|steps|];
      && c.numberOfCones == [|v.stored|] && (v.marked == {} || |v.taken| == p.maxCones)
      && (forall cone :: cone in v.stored ==> Reachable(p, cone))
      && (p.maxCones < 0 || |v.stored| <= p.maxCones ==>
            v.marked == {} && forall cone :: Reachable(p, cone) ==> cone in v.stored)
  {
    var states, events := JointRunIsRun(p, controls, stores, steps);
    TraversalComplete(p, states, events);
  }

  // ---------- The net on the storage in two directory trees ----------

  /** What a step on the trees is for the contract. */
  ghost function TreesStore(t: Trees.State): Contract.Store<string> {
    Constant.View(Trees.View(t))
  }

  ghost function TreesCall(l: PieceLength, t: Trees.State, e: Trees.Event): Option<Contract.Action<string>> {
    match Trees.EventOf(l, t, e)
    case None => None
    case Some(a) => Constant.ActionOf(Trees.View(t), a)
  }

  /**
   * The net fires without the storage, a mkdir or rmdir or a step between them happens without the net, or a
   * step on the trees answers the call that the net makes.
   */
  datatype TreesStep =
    | NetOnly(event: Event<string>)
    | TreesOnly(step: Trees.Event)
    | Answer(event: Event<string>, step: Trees.Event)

  ghost predicate TreesStepFollows(
      p: Problem<string>, l: PieceLength, c: State<string>, t: Trees.State, x: TreesStep,
      c': State<string>, t': Trees.State)
  {
    match x
    case NetOnly(e) => NetStep(p, c, e, None, c') && t' == t
    case TreesOnly(step) => Trees.Follows(l, t, step, t') && TreesCall(l, t, step) == None && c' == c
    case Answer(e, step) =>
      && Trees.Follows(l, t, step, t') && TreesCall(l, t, step).Some?
      && NetStep(p, c, e, TreesCall(l, t, step), c')
  }

  ghost predicate TreesRun(
      p: Problem<string>, l: PieceLength, controls: seq<State<string>>, trees: seq<Trees.State>, steps: seq<TreesStep>)
  {
    && |controls| == |trees| == |steps| + 1 && controls[0] == Start() && trees[0] == Trees.Empty()
    && forall i :: 0 <= i < |steps| ==>
         TreesStepFollows(p, l, controls[i], trees[i], steps[i], controls[i + 1], trees[i + 1])
  }

  ghost predicate TreesInv(l: PieceLength, t: Trees.State) {
    Trees.Inv(l, t) && Constant.Inv(Trees.View(t))
  }

  lemma TreesStepKeeps(l: PieceLength, t: Trees.State, e: Trees.Event, t': Trees.State)
    requires TreesInv(l, t) && Trees.Follows(l, t, e, t')
    ensures TreesInv(l, t')
    ensures if TreesCall(l, t, e) == None then TreesStore(t') == TreesStore(t)
            else Contract.Follows(TreesStore(t), TreesCall(l, t, e).value, TreesStore(t'))
  {
    Trees.StepInv(l, t, e);
    Trees.StepRefines(l, t, e);
    if Trees.EventOf(l, t, e).Some? {
      Constant.StepInv(Trees.View(t), Trees.EventOf(l, t, e).value);
      Constant.StepRefines(Trees.View(t), Trees.EventOf(l, t, e).value);
    }
  }

  lemma {:induction false} TreesRunIsJoint(
      p: Problem<string>, l: PieceLength, controls: seq<State<string>>, trees: seq<Trees.State>, steps: seq<TreesStep>)
      returns (stores: seq<Contract.Store<string>>, joint: seq<Step<string>>)
    requires TreesRun(p, l, controls, trees, steps)
    ensures JointRun(p, controls, stores, joint) && |joint| == |steps|
    ensures TreesInv(l, trees[|steps|]) && stores[|steps|] == TreesStore(trees[|steps|])
    decreases |steps|
  {
    var n := |steps|;
    if n == 0 {
      stores, joint := [Contract.Empty()], [];
      TreesStart(l);
    } else {
      stores, joint := TreesRunIsJoint(p, l, controls[..n], trees[..n], steps[..n - 1]);
      assert TreesStepFollows(p, l, controls[n - 1], trees[n - 1], steps[n - 1], controls[n], trees[n]);
      var step := OneTreesStep(p, l, controls[n - 1], trees[n - 1], steps[n - 1], controls[n], trees[n]);
      ExtendJoint(p, controls, stores, joint, step, TreesStore(trees[n]));
      stores, joint := stores + [TreesStore(trees[n])], joint + [step];
    }
  }

  lemma TreesStart(l: PieceLength)
    ensures TreesInv(l, Trees.Empty()) && TreesStore(Trees.Empty()) == Contract.Empty()
  {
    Trees.EmptyView(l);
    assert Constant.View(Constant.Empty<string>()) == Contract.Empty();
  }

  lemma OneTreesStep(
      p: Problem<string>, l: PieceLength, c: State<string>, t: Trees.State, x: TreesStep,
      c': State<string>, t': Trees.State) returns (step: Step<string>)
    requires TreesInv(l, t) && TreesStepFollows(p, l, c, t, x, c', t')
    ensures TreesInv(l, t') && JointStep(p, c, TreesStore(t), step, c', TreesStore(t'))
  {
    match x
    case NetOnly(e) =>
      step := Step(Some(e), None);
    case TreesOnly(e) =>
      TreesStepKeeps(l, t, e, t');
      step := Step(None, None);
    case Answer(event, e) =>
      TreesStepKeeps(l, t, e, t');
      step := Step(Some(event), TreesCall(l, t, e));
  }

  lemma ExtendJoint<C(!new)>(
      p: Problem<C>, controls: seq<State<C>>, stores: seq<Contract.Store<C>>, steps: seq<Step<C>>,
      step: Step<C>, v': Contract.Store<C>)
    requires |controls| == |steps| + 2 && JointRun(p, controls[..|steps| + 1], stores, steps)
    requires JointStep(p, controls[|steps|], stores[|steps|], step, controls[|steps| + 1], v')
    ensures JointRun(p, controls, stores + [v'], steps + [step])
  {
    var n, before := |steps|, controls[..|steps| + 1];
    var allStores, allSteps := stores + [v'], steps + [step];
    forall i | 0 <= i < |allSteps|
      ensures JointStep(p, controls[i], allStores[i], allSteps[i], controls[i + 1], allStores[i + 1])
    {
      if i < n {
        assert JointStep(p, before[i], stores[i], steps[i], before[i + 1], stores[i + 1]);
      }
    }
  }

  /**
   * The traversal on directory trees: in whatever order the firings of the net and the single mkdir and rmdir
   * calls happen, when `clean` has fired the tree of all cones holds reachable cones only, as many as reported,
   * and all of them if there is no limit or the number is within it.
   */
  lemma TraversalOnTrees(
      p: Problem<string>, l: PieceLength, controls: seq<State<string>>, trees: seq<Trees.State>, steps: seq<TreesStep>)
    requires p.Valid() && p.jobSize > 0 && TreesRun(p, l, controls, trees, steps)
    requires controls[|steps|].finished > 0
    ensures var c, all := controls[|steps|], Container.Contents(trees[|steps|].all.tree);
      && c.numberOfCones == [|all|] && (forall cone :: cone in all ==> Reachable(p, cone))
      && (p.maxCones < 0 || |all| <= p.maxCones ==> forall cone :: Reachable(p, cone) ==> cone in all)
    ensures !trees[|steps|].inconsistent
  {
    var stores, joint := TreesRunIsJoint(p, l, controls, trees, steps);
    TraversalOnContract(p, controls, stores, joint);
  }
}
