/**
 * The storage in two sets of strings (src/storage/filesystem/constant_conestorage.cpp) with both sets kept as
 * directory trees: a step is one mkdir or rmdir of one of the calls on `_all` and `_marked`, or a step of the
 * storage's own methods between such calls.
 */
module StorageTrees {
  import opened Seqs
  import opened Directories
  import opened StringPaths
  import Container = StringContainer
  import Constant = ConstantStorage
  import Contract = StorageContract

  datatype State = State(
    all: Container.State,
    marked: Container.State,
    won: multiset<string>,                       // `_all.add` has returned true, `_marked.add` is not called yet
    call: Option<Constant.Unmarking<string>>,
    removal: Option<nat>,                        // the unmarking call's current call of `_marked.remove`
    taken: set<string>,                          // history: collected by some unmarking call
    inconsistent: bool)                          // the exception of addMarkedCone was thrown

  datatype Event =
    | StartAdding(cone: string)
    | StepAll(j: nat)
    | StartMarking(cone: string)
    | StepMarked(j: nat)
    | StartUnmarking(size: int)
    | Collect(cone: string)
    | StopCollecting
    | StartRemoving
    | EndRemoving
    | Return

  ghost function AddCall(s: Container.State, cone: string): Container.Call {
    Container.Add(cone, 1, s.removed, Container.Pending)
  }

  ghost function RemoveCall(l: PieceLength, cone: string): Container.Call {
    Container.Remove(cone, |PathOf(cone, l)|, Container.Pending)
  }

  ghost function WithCall(s: Container.State, c: Container.Call): Container.State {
    s.(calls := s.calls + [c])
  }

  ghost predicate Enabled(l: PieceLength, s: State, e: Event) {
    match e
    case StartAdding(c) => Storable(c, l)
    case StepAll(j) => Container.CanStep(l, s.all, j)
    case StartMarking(c) => c in s.won
    case StepMarked(j) => Container.CanStep(l, s.marked, j)
    case StartUnmarking(_) => s.call == None
    case Collect(c) =>
      && s.call.Some? && !s.call.value.removing && |s.call.value.cones| < s.call.value.size
      && c in Container.Contents(s.marked.tree) && c !in s.call.value.cones
    case StopCollecting =>
      && s.call.Some? && !s.call.value.removing
      && (|s.call.value.cones| >= s.call.value.size || forall c :: c in s.call.value.start ==> c in s.call.value.cones)
    case StartRemoving =>
      && s.call.Some? && s.call.value.removing && s.removal == None
      && 0 <= s.call.value.removed < |s.call.value.cones|
    case EndRemoving =>
      s.removal.Some? && s.removal.value < |s.marked.calls| && Container.Done(s.marked.calls[s.removal.value])
    case Return =>
      && s.call.Some? && s.call.value.removing && s.removal == None
      && s.call.value.removed == |s.call.value.cones|
  }

  /** An event that is not enabled changes nothing. */
  ghost function Fire(l: PieceLength, s: State, e: Event): State {
    if !Enabled(l, s, e) then s
    else match e
    case StartAdding(c) => s.(all := WithCall(s.all, AddCall(s.all, c)))
    case StepAll(j) =>
      var all := Container.Step(l, s.all, j);
      s.(all := all, won := s.won + Won(s.all.calls[j], all.calls[j]))
    case StartMarking(c) =>
      s.(won := s.won - multiset{c}, marked := WithCall(s.marked, AddCall(s.marked, c)))
    case StepMarked(j) =>
      var marked := Container.Step(l, s.marked, j);
      AfterMarked(s.(marked := marked), s.marked.calls[j], marked.calls[j])
    case StartUnmarking(n) =>
      s.(call := Some(Constant.Unmarking(n, Container.Contents(s.marked.tree), [], false, 0)))
    case Collect(c) =>
      s.(taken := s.taken + {c}, call := Some(s.call.value.(cones := s.call.value.cones + [c])))
    case StopCollecting => s.(call := Some(s.call.value.(removing := true)))
    case StartRemoving =>
      s.(marked := WithCall(s.marked, RemoveCall(l, s.call.value.cones[s.call.value.removed])),
         removal := Some(|s.marked.calls|))
    case EndRemoving => s.(removal := None)
    case Return => s.(call := None)
  }

  /** The call has just returned. */
  ghost predicate JustReturned(before: Container.Call, after: Container.Call) {
    before.result == Container.Pending && after.result != Container.Pending
  }

  ghost function Won(before: Container.Call, after: Container.Call): multiset<string> {
    if JustReturned(before, after) && after.result == Container.Returned(true) then multiset{before.str} else multiset{}
  }

  /** The insertion in `_marked` must succeed; a removal has taken effect when its result is known. */
  ghost function AfterMarked(s: State, before: Container.Call, after: Container.Call): State {
    if !JustReturned(before, after) then s
    else if before.Add? then s.(inconsistent := s.inconsistent || after.result == Container.Returned(false))
    else if s.call == None then s
    else s.(call := Some(s.call.value.(removed := s.call.value.removed + 1)))
  }

  // ---------- The storage in two sets, seen in the trees ----------

  ghost function Marking(): Container.Call -> multiset<string> {
    (c: Container.Call) => if c.Add? && c.result == Container.Pending then multiset{c.str} else multiset{}
  }

  ghost function View(s: State): Constant.State<string> {
    Constant.State(
      Container.Contents(s.all.tree), Container.Contents(s.marked.tree),
      s.won + Bag(Marking(), s.marked.calls), s.taken, s.call, s.inconsistent)
  }

  ghost function EventOf(l: PieceLength, s: State, e: Event): Option<Constant.Event<string>> {
    match e
    case StepAll(j) =>
      if Container.CanStep(l, s.all, j) && Container.Decides(l, s.all, j)
      then Some(Constant.AddToAll(s.all.calls[j].str)) else None
    case StepMarked(j) =>
      if Container.CanStep(l, s.marked, j)
      then MarkedEvent(s.marked.calls[j], Container.Decides(l, s.marked, j)) else None
    case StartUnmarking(n) => Some(Constant.StartUnmarking(n))
    case Collect(c) => Some(Constant.Collect(c))
    case StopCollecting => Some(Constant.StopCollecting)
    case Return => Some(Constant.Return)
    case _ => None
  }

  ghost predicate OnlyAdds(calls: seq<Container.Call>) {
    forall j :: 0 <= j < |calls| ==> calls[j].Add?
  }

  /** A removal that has not taken effect is the current one, of the cone that is next. */
  ghost predicate RemovesNext(
      c: Container.Call, j: nat, call: Option<Constant.Unmarking<string>>, removal: Option<nat>)
  {
    c.Remove? && c.result == Container.Pending ==>
      && removal == Some(j) && call.Some? && call.value.removing
      && 0 <= call.value.removed < |call.value.cones| && call.value.cones[call.value.removed] == c.str
  }

  ghost predicate AllRemoveNext(
      calls: seq<Container.Call>, call: Option<Constant.Unmarking<string>>, removal: Option<nat>)
  {
    && (removal.Some? ==> removal.value < |calls| && call.Some? && call.value.removing)
    && forall j :: 0 <= j < |calls| ==> RemovesNext(calls[j], j, call, removal)
  }

  ghost predicate AllStorable(l: PieceLength, s: State) {
    && (forall c :: c in s.won ==> Storable(c, l))
    && (s.call.Some? ==> forall c :: c in s.call.value.cones ==> Storable(c, l))
  }

  ghost predicate Inv(l: PieceLength, s: State) {
    && Container.Inv(l, s.all) && Container.Inv(l, s.marked) && OnlyAdds(s.all.calls)
    && AllStorable(l, s) && AllRemoveNext(s.marked.calls, s.call, s.removal)
  }

  // ---------- Every step is one of the storage in two sets ----------

  lemma WithCallInv(l: PieceLength, s: Container.State, c: Container.Call)
    requires Container.Inv(l, s) && Container.Starts(l, s, c)
    ensures Container.Inv(l, WithCall(s, c))
  {
    assert PathOf(c.str, l)[..0] == [];
    forall j | 0 <= j < |s.calls| + 1
      ensures Container.CallOk(l, WithCall(s, c), WithCall(s, c).calls[j])
    {
      if j < |s.calls| {
        Container.OthersKept(l, s, WithCall(s, c), s.calls[j]);
      }
    }
  }

  /** What a step of a call does to the call and to the set: it returns when, and as, the set changes. */
  ghost predicate Effect(
      c: Container.Call, c': Container.Call, was: set<string>, now: set<string>, decides: bool)
  {
    && c'.str == c.str && c'.Add? == c.Add? && (JustReturned(c, c') <==> decides)
    && now == (if !decides then was else if c.Add? then was + {c.str} else was - {c.str})
    && c'.result == if decides then Container.Returned((c.str in was) != c.Add?) else c.result
  }

  lemma StepEffect(l: PieceLength, s: Container.State, j: nat)
    requires Container.Inv(l, s) && Container.CanStep(l, s, j)
    ensures var s' := Container.Step(l, s, j);
      && |s'.calls| == |s.calls| && s'.calls == s.calls[j := s'.calls[j]]
      && Effect(s.calls[j], s'.calls[j], Container.Contents(s.tree), Container.Contents(s'.tree),
                Container.Decides(l, s, j))
  {
    assert Container.CallOk(l, s, s.calls[j]);
    Container.StepIsSetOperation(l, s, j);
  }

  /** `v'` is `v` after the event, or the same if there is none. */
  ghost predicate Refines(v: Constant.State<string>, e: Option<Constant.Event<string>>, v': Constant.State<string>) {
    if e == None then v' == v else Constant.Follows(v, e.value, v')
  }

  lemma StepAllRefines(l: PieceLength, s: State, j: nat)
    requires Inv(l, s) && Container.CanStep(l, s.all, j)
    ensures Refines(View(s), EventOf(l, s, StepAll(j)), View(Fire(l, s, StepAll(j))))
  {
    StepEffect(l, s.all, j);
    var c, all := s.all.calls[j], Container.Step(l, s.all, j);
    AddedToAll(s, c, all, all.calls[j], Container.Decides(l, s.all, j));
  }

  lemma AddedToAll(s: State, c: Container.Call, all: Container.State, c': Container.Call, decides: bool)
    requires c.Add?
    requires Effect(c, c', Container.Contents(s.all.tree), Container.Contents(all.tree), decides)
    ensures Refines(View(s), if decides then Some(Constant.AddToAll(c.str)) else None,
                    View(s.(all := all, won := s.won + Won(c, c'))))
  {
    var won := s.won + Won(c, c');
    ViewAfterAll(s, all, won);
    if decides {
      AddsToAll(View(s), c.str, Container.Contents(all.tree), won + Bag(Marking(), s.marked.calls));
    }
  }

  lemma ViewAfterAll(s: State, all: Container.State, won: multiset<string>)
    ensures View(s.(all := all, won := won))
            == View(s).(all := Container.Contents(all.tree), claimed := won + Bag(Marking(), s.marked.calls))
  {
  }

  lemma AddsToAll(v: Constant.State<string>, c: string, all: set<string>, claimed: multiset<string>)
    requires all == v.all + {c}
    requires claimed == v.claimed + if c in v.all then multiset{} else multiset{c}
    ensures Constant.Follows(v, Constant.AddToAll(c), v.(all := all, claimed := claimed))
  {
  }

  /** An insertion in `_marked` is waiting until the step that decides it. */
  lemma MarkingAfter(calls: seq<Container.Call>, j: nat, c': Container.Call)
    requires j < |calls| && c'.str == calls[j].str && c'.Add? == calls[j].Add?
    requires calls[j].result != Container.Pending ==> c'.result == calls[j].result
    ensures Bag(Marking(), calls)
            == Bag(Marking(), calls[j := c'])
               + if calls[j].Add? && JustReturned(calls[j], c') then multiset{c'.str} else multiset{}
  {
    BagUpdate(Marking(), calls, j, c');
    if Marking()(calls[j]) == Marking()(c') {
      Cancel(Bag(Marking(), calls[j := c']), Bag(Marking(), calls), Marking()(c'));
    }
  }

  lemma StepMarkedRefines(l: PieceLength, s: State, j: nat)
    requires Inv(l, s) && Container.CanStep(l, s.marked, j)
    ensures Refines(View(s), EventOf(l, s, StepMarked(j)), View(Fire(l, s, StepMarked(j))))
  {
    var marked, decides := Container.Step(l, s.marked, j), Container.Decides(l, s.marked, j);
    StepEffect(l, s.marked, j);
    assert RemovesNext(s.marked.calls[j], j, s.call, s.removal);
    MarkedStep(s, j, marked, marked.calls[j], decides);
  }

  ghost function MarkedEvent(c: Container.Call, decides: bool): Option<Constant.Event<string>> {
    if !decides then None
    else Some(if c.Add? then Constant.AddToMarked(c.str) else Constant.RemoveNext)
  }

  lemma MarkedStep(s: State, j: nat, marked: Container.State, c': Container.Call, decides: bool)
    requires j < |s.marked.calls| && marked.calls == s.marked.calls[j := c']
    requires Effect(s.marked.calls[j], c', Container.Contents(s.marked.tree), Container.Contents(marked.tree), decides)
    requires RemovesNext(s.marked.calls[j], j, s.call, s.removal)
    ensures Refines(View(s), MarkedEvent(s.marked.calls[j], decides),
                    View(AfterMarked(s.(marked := marked), s.marked.calls[j], c')))
  {
    var c := s.marked.calls[j];
    MarkingAfter(s.marked.calls, j, c');
    if !decides {
      NothingMarked(s, c, marked, c');
    } else if c.Add? {
      MarkedRefines(s, c, marked, c');
    } else {
      RemovedRefines(s, c, marked, c');
    }
  }

  lemma NothingMarked(s: State, c: Container.Call, marked: Container.State, c': Container.Call)
    requires !JustReturned(c, c') && Container.Contents(marked.tree) == Container.Contents(s.marked.tree)
    requires Bag(Marking(), marked.calls) == Bag(Marking(), s.marked.calls)
    ensures View(AfterMarked(s.(marked := marked), c, c')) == View(s)
  {
  }

  lemma MarkedRefines(s: State, c: Container.Call, marked: Container.State, c': Container.Call)
    requires JustReturned(c, c') && c.Add?
    requires Container.Contents(marked.tree) == Container.Contents(s.marked.tree) + {c.str}
    requires c'.result == Container.Returned(c.str !in Container.Contents(s.marked.tree))
    requires Bag(Marking(), s.marked.calls) == Bag(Marking(), marked.calls) + multiset{c.str}
    ensures Constant.Follows(View(s), Constant.AddToMarked(c.str), View(AfterMarked(s.(marked := marked), c, c')))
  {
    var now := Container.Contents(marked.tree);
    var inconsistent := s.inconsistent || c'.result == Container.Returned(false);
    ViewAfterMarked(s, marked, inconsistent);
    AddsToMarked(View(s), c.str, now, s.won + Bag(Marking(), marked.calls), inconsistent);
  }

  lemma ViewAfterMarked(s: State, marked: Container.State, inconsistent: bool)
    ensures View(s.(marked := marked, inconsistent := inconsistent))
            == View(s).(marked := Container.Contents(marked.tree), claimed := s.won + Bag(Marking(), marked.calls),
                        inconsistent := inconsistent)
  {
  }

  lemma AddsToMarked(
      v: Constant.State<string>, c: string, marked: set<string>, claimed: multiset<string>, inconsistent: bool)
    requires marked == v.marked + {c} && v.claimed == claimed + multiset{c}
    requires inconsistent == (v.inconsistent || c in v.marked)
    ensures Constant.Follows(v, Constant.AddToMarked(c),
                             v.(marked := marked, claimed := claimed, inconsistent := inconsistent))
  {
  }

  lemma RemovedRefines(s: State, c: Container.Call, marked: Container.State, c': Container.Call)
    requires JustReturned(c, c') && c.Remove? && s.call.Some? && s.call.value.removing
    requires 0 <= s.call.value.removed < |s.call.value.cones| && s.call.value.cones[s.call.value.removed] == c.str
    requires Container.Contents(marked.tree) == Container.Contents(s.marked.tree) - {c.str}
    requires Bag(Marking(), s.marked.calls) == Bag(Marking(), marked.calls)
    ensures Constant.Follows(View(s), Constant.RemoveNext, View(AfterMarked(s.(marked := marked), c, c')))
  {
  }

  /** Every mkdir and rmdir is one operation of the storage in two sets, or does not show there. */
  lemma StepRefines(l: PieceLength, s: State, e: Event)
    requires Inv(l, s) && Enabled(l, s, e)
    ensures Refines(View(s), EventOf(l, s, e), View(Fire(l, s, e)))
  {
    match e
    case StepAll(j) => StepAllRefines(l, s, j);
    case StepMarked(j) => StepMarkedRefines(l, s, j);
    case StartMarking(c) => StartMarkingRefines(l, s, c);
    case StartRemoving => StartRemovingRefines(l, s);
    case _ => OtherRefines(l, s, e);
  }

  lemma StartMarkingRefines(l: PieceLength, s: State, c: string)
    requires c in s.won
    ensures View(Fire(l, s, StartMarking(c))) == View(s)
  {
    ViewWithCall(s, AddCall(s.marked, c), s.won - multiset{c});
  }

  lemma ViewWithCall(s: State, c: Container.Call, won: multiset<string>)
    requires s.won == won + Marking()(c)
    ensures View(s.(won := won, marked := WithCall(s.marked, c))) == View(s)
  {
    BagAppend(Marking(), s.marked.calls, c);
  }

  lemma StartRemovingRefines(l: PieceLength, s: State)
    requires Enabled(l, s, StartRemoving)
    ensures View(Fire(l, s, StartRemoving)) == View(s)
  {
    ViewWithCall(s, RemoveCall(l, s.call.value.cones[s.call.value.removed]), s.won);
  }

  /** The steps of the unmarking call between its calls on `_marked`. */
  lemma OtherRefines(l: PieceLength, s: State, e: Event)
    requires Enabled(l, s, e)
    requires e.StartAdding? || e.StartUnmarking? || e.Collect? || e.StopCollecting? || e.EndRemoving? || e.Return?
    ensures Refines(View(s), EventOf(l, s, e), View(Fire(l, s, e)))
  {
  }

  lemma StepInv(l: PieceLength, s: State, e: Event)
    requires Inv(l, s) && Enabled(l, s, e)
    ensures Inv(l, Fire(l, s, e))
  {
    match e
    case StartAdding(c) => WithCallInv(l, s.all, AddCall(s.all, c));
    case StepAll(j) => StepAllInv(l, s, j);
    case StartMarking(c) => StartMarkingInv(l, s, c);
    case StepMarked(j) => StepMarkedInv(l, s, j);
    case StartRemoving => StartRemovingInv(l, s);
    case Collect(c) => Container.ContentsStorable(l, s.marked.tree, c);
    case EndRemoving => EndRemovingInv(l, s);
    case _ =>
  }

  lemma StepAllInv(l: PieceLength, s: State, j: nat)
    requires Inv(l, s) && Container.CanStep(l, s.all, j)
    ensures Inv(l, Fire(l, s, StepAll(j)))
  {
    StepEffect(l, s.all, j);
    Container.StepInv(l, s.all, j);
    assert Container.CallOk(l, s.all, s.all.calls[j]);
  }

  lemma StartMarkingInv(l: PieceLength, s: State, c: string)
    requires Inv(l, s) && c in s.won
    ensures Inv(l, Fire(l, s, StartMarking(c)))
  {
    WithCallInv(l, s.marked, AddCall(s.marked, c));
    OneMoreCall(s.marked.calls, AddCall(s.marked, c), s.call, s.removal);
  }

  lemma OneMoreCall(
      calls: seq<Container.Call>, c: Container.Call, call: Option<Constant.Unmarking<string>>, removal: Option<nat>)
    requires AllRemoveNext(calls, call, removal) && RemovesNext(c, |calls|, call, removal)
    ensures AllRemoveNext(calls + [c], call, removal)
  {
  }

  lemma StepMarkedInv(l: PieceLength, s: State, j: nat)
    requires Inv(l, s) && Container.CanStep(l, s.marked, j)
    ensures Inv(l, Fire(l, s, StepMarked(j)))
  {
    StepEffect(l, s.marked, j);
    Container.StepInv(l, s.marked, j);
    var marked := Container.Step(l, s.marked, j);
    assert Container.CallOk(l, s.marked, s.marked.calls[j]);
    AfterMarkedInv(l, s, j, marked, marked.calls[j]);
  }

  lemma AfterMarkedInv(l: PieceLength, s: State, j: nat, marked: Container.State, c': Container.Call)
    requires Inv(l, s) && j < |s.marked.calls|
    requires Container.Inv(l, marked) && marked.calls == s.marked.calls[j := c']
    requires c'.str == s.marked.calls[j].str && c'.Add? == s.marked.calls[j].Add?
    requires c'.result == Container.Pending ==> s.marked.calls[j].result == Container.Pending
    ensures Inv(l, AfterMarked(s.(marked := marked), s.marked.calls[j], c'))
  {
    var call := AfterMarked(s.(marked := marked), s.marked.calls[j], c').call;
    OneCallOn(s.marked.calls, j, c', s.call, call, s.removal);
  }

  /** The step of a call leaves at most this call to be removed next. */
  lemma OneCallOn(
      calls: seq<Container.Call>, j: nat, c': Container.Call,
      call: Option<Constant.Unmarking<string>>, call': Option<Constant.Unmarking<string>>, removal: Option<nat>)
    requires j < |calls| && AllRemoveNext(calls, call, removal)
    requires c'.str == calls[j].str && c'.Add? == calls[j].Add?
    requires c'.result == Container.Pending ==> calls[j].result == Container.Pending
    requires if calls[j].Remove? && JustReturned(calls[j], c')
             then call.Some? ==> call' == Some(call.value.(removed := call.value.removed + 1))
             else call' == call
    ensures AllRemoveNext(calls[j := c'], call', removal)
  {
    var calls' := calls[j := c'];
    forall i | 0 <= i < |calls'|
      ensures RemovesNext(calls'[i], i, call', removal)
    {
      assert RemovesNext(calls[i], i, call, removal) && RemovesNext(calls[j], j, call, removal);
    }
  }

  lemma StartRemovingInv(l: PieceLength, s: State)
    requires Inv(l, s) && Enabled(l, s, StartRemoving)
    ensures Inv(l, Fire(l, s, StartRemoving))
  {
    var c := RemoveCall(l, s.call.value.cones[s.call.value.removed]);
    WithCallInv(l, s.marked, c);
    NoneRemoving(s.marked.calls, s.call, Some(|s.marked.calls|));
    assert RemovesNext(c, |s.marked.calls|, s.call, Some(|s.marked.calls|));
  }

  /** Without a current removal there is none that has not taken effect. */
  lemma NoneRemoving(calls: seq<Container.Call>, call: Option<Constant.Unmarking<string>>, removal: Option<nat>)
    requires AllRemoveNext(calls, call, None)
    ensures forall j :: 0 <= j < |calls| ==> RemovesNext(calls[j], j, call, removal)
  {
    forall j | 0 <= j < |calls|
      ensures RemovesNext(calls[j], j, call, removal)
    {
      assert RemovesNext(calls[j], j, call, None);
    }
  }

  lemma EndRemovingInv(l: PieceLength, s: State)
    requires Inv(l, s) && Enabled(l, s, EndRemoving)
    ensures Inv(l, Fire(l, s, EndRemoving))
  {
    forall j | 0 <= j < |s.marked.calls|
      ensures RemovesNext(s.marked.calls[j], j, s.call, None)
    {
      assert RemovesNext(s.marked.calls[j], j, s.call, s.removal) && Container.CallOk(l, s.marked, s.marked.calls[j]);
    }
  }

  // ---------- Whole runs ----------

  ghost function Empty(): State {
    var none := Container.State({[]}, [], 0);
    State(none, none, multiset{}, None, None, {}, false)
  }

  ghost predicate Follows(l: PieceLength, s: State, e: Event, s': State) {
    Enabled(l, s, e) && s' == Fire(l, s, e)
  }

  ghost predicate IsRun(l: PieceLength, states: seq<State>, events: seq<Event>) {
    && |states| == |events| + 1 && states[0] == Empty()
    && forall i :: 0 <= i < |events| ==> Follows(l, states[i], events[i], states[i + 1])
  }

  lemma EmptyView(l: PieceLength)
    ensures Inv(l, Empty()) && View(Empty()) == Constant.Empty()
  {
  }

  /** Every run of interleaved file system calls is a run of the storage in two sets. */
  lemma {:induction false} RunRefines(l: PieceLength, states: seq<State>, events: seq<Event>)
      returns (views: seq<Constant.State<string>>, steps: seq<Constant.Event<string>>)
    requires IsRun(l, states, events)
    ensures Inv(l, states[|events|])
    ensures Constant.IsRun(views, steps) && views[|steps|] == View(states[|events|])
    decreases |events|
  {
    var n := |events|;
    if n == 0 {
      views, steps := [Constant.Empty()], [];
      EmptyView(l);
    } else {
      views, steps := RunRefines(l, states[..n], events[..n - 1]);
      var s, e := states[n - 1], events[n - 1];
      assert Follows(l, s, e, states[n]);
      StepRefines(l, s, e);
      StepInv(l, s, e);
      if EventOf(l, s, e).Some? {
        Constant.Extend(views, steps, EventOf(l, s, e).value, View(states[n]));
        views, steps := views + [View(states[n])], steps + [EventOf(l, s, e).value];
      }
    }
  }

  /** Hence it is a history of the storage contract, and the exception is not thrown. */
  lemma RunKeepsContract(l: PieceLength, states: seq<State>, events: seq<Event>)
      returns (stores: seq<Contract.Store<string>>, actions: seq<Contract.Action<string>>)
    requires IsRun(l, states, events)
    ensures !states[|events|].inconsistent
    ensures Contract.IsHistory(stores, actions)
    ensures stores[|actions|] == Constant.View(View(states[|events|]))
  {
    var views, steps := RunRefines(l, states, events);
    stores, actions := Constant.RunRefines(views, steps);
  }
}
