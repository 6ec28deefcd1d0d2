/**
 * The storage in two sets of strings, `_all` and `_marked` (src/storage/filesystem/constant_conestorage.cpp).
 * The steps are the single operations on the two sets, each of which takes effect at once (StringContainer);
 * any number of adding calls and one unmarking call are interleaved.
 */
module ConstantStorage {
  import opened Seqs
  import Contract = StorageContract

  /** An unmarking call: it first collects cones from the iterator, then removes them one by one. */
  datatype Unmarking<C> = Unmarking(size: int, start: set<C>, cones: seq<C>, removing: bool, removed: nat)

  datatype State<C> = State(
    all: set<C>,
    marked: set<C>,
    claimed: multiset<C>,        // won in `_all`, not yet inserted in `_marked`
    taken: set<C>,               // history: collected by some unmarking call
    call: Option<Unmarking<C>>,
    inconsistent: bool)          // the exception of addMarkedCone was thrown

  datatype Event<C> =
    | AddToAll(cone: C)
    | AddToMarked(cone: C)
    | StartUnmarking(size: int)
    | Collect(cone: C)
    | StopCollecting
    | RemoveNext
    | Return

  ghost predicate Collecting<C>(s: State<C>) {
    s.call.Some? && !s.call.value.removing
  }

  ghost predicate Removing<C>(s: State<C>) {
    s.call.Some? && s.call.value.removing
  }

  /** An entry present while an iteration lasts is visited, and none is visited twice. */
  ghost predicate Enabled<C>(s: State<C>, e: Event<C>) {
    match e
    case AddToAll(_) => true
    case AddToMarked(c) => c in s.claimed
    case StartUnmarking(_) => s.call == None
    case Collect(c) =>
      Collecting(s) && |s.call.value.cones| < s.call.value.size && c in s.marked && c !in s.call.value.cones
    case StopCollecting =>
      && Collecting(s)
      && (|s.call.value.cones| >= s.call.value.size || forall c :: c in s.call.value.start ==> c in s.call.value.cones)
    case RemoveNext => Removing(s) && s.call.value.removed < |s.call.value.cones|
    case Return => Removing(s) && s.call.value.removed == |s.call.value.cones|
  }

  /** An event that is not enabled changes nothing. */
  ghost function Fire<C>(s: State<C>, e: Event<C>): State<C> {
    if !Enabled(s, e) then s
    else match e
    case AddToAll(c) =>
      if c in s.all then s else s.(all := s.all + {c}, claimed := s.claimed + multiset{c})
    case AddToMarked(c) =>
      s.(claimed := s.claimed - multiset{c}, marked := s.marked + {c}, inconsistent := s.inconsistent || c in s.marked)
    case StartUnmarking(n) => s.(call := Some(Unmarking(n, s.marked, [], false, 0)))
    case Collect(c) =>
      s.(taken := s.taken + {c}, call := Some(s.call.value.(cones := s.call.value.cones + [c])))
    case StopCollecting => s.(call := Some(s.call.value.(removing := true)))
    case RemoveNext =>
      var u := s.call.value;
      s.(marked := s.marked - {u.cones[u.removed]}, call := Some(u.(removed := u.removed + 1)))
    case Return => s.(call := None)
  }

  ghost function Empty<C>(): State<C> {
    State({}, {}, multiset{}, {}, None, false)
  }

  /** Collected, but still in `_marked`. */
  ghost function ToRemove<C>(s: State<C>): set<C> {
    if s.call.Some? && s.call.value.removed <= |s.call.value.cones|
    then Contract.Members(s.call.value.cones[s.call.value.removed..]) else {}
  }

  /** The contract's view: a cone is fetched when it is collected. */
  ghost function View<C>(s: State<C>): Contract.Store<C> {
    Contract.Store(
      s.all, s.marked - ToRemove(s), s.claimed, s.taken,
      if s.call == None then None
      else Some(Contract.Fetch(s.call.value.size, s.call.value.start, s.call.value.cones)))
  }

  ghost function ActionOf<C>(s: State<C>, e: Event<C>): Option<Contract.Action<C>> {
    match e
    case AddToAll(c) => Some(if c in s.all then Contract.Known(c) else Contract.Claim(c))
    case AddToMarked(c) => Some(Contract.Mark(c))
    case StartUnmarking(n) => Some(Contract.Begin(n))
    case Collect(c) => Some(Contract.Take(c))
    case StopCollecting => None
    case RemoveNext => None
    case Return => Some(Contract.End)
  }

  ghost predicate CallOk<C>(s: State<C>, u: Unmarking<C>) {
    && Distinct(u.cones) && u.removed <= |u.cones| && (u.removed > 0 ==> u.removing)
    && (u.removing ==> |u.cones| >= u.size || forall c :: c in u.start ==> c in u.cones)
    && forall i :: u.removed <= i < |u.cones| ==> u.cones[i] in s.marked
  }

  ghost predicate Inv<C>(s: State<C>) {
    Contract.Inv(View(s)) && !s.inconsistent && (s.call.Some? ==> CallOk(s, s.call.value))
  }

  /** What is waiting to be inserted in `_marked` is not there, so the exception is not thrown. */
  lemma ClaimedNotMarked<C>(s: State<C>, c: C)
    requires Inv(s) && c in s.claimed
    ensures c !in s.marked
  {
    Contract.InvSets(View(s), c);
  }

  /** What is to be removed from `_marked` is there: every removal succeeds. */
  lemma RemovalSucceeds<C>(s: State<C>)
    requires Inv(s) && Enabled(s, RemoveNext)
    ensures s.call.value.cones[s.call.value.removed] in s.marked
  {
  }

  /** Every step of the storage is one action of the contract, or does not show there. */
  lemma StepRefines<C>(s: State<C>, e: Event<C>)
    requires Inv(s) && Enabled(s, e)
    ensures var s', a := Fire(s, e), ActionOf(s, e);
      if a == None then View(s') == View(s) else Contract.Follows(View(s), a.value, View(s'))
  {
    match e
    case AddToMarked(c) =>
      ClaimedNotMarked(s, c);
      NotToRemove(s, c);
    case Collect(c) =>
      CollectRefines(s, c);
    case RemoveNext =>
      RemoveRefines(s);
    case Return =>
      ReturnRefines(s);
    case StartUnmarking(n) =>
      assert ToRemove(s) == {} == ToRemove(Fire(s, e));
      assert s.marked - ToRemove(s) == s.marked;
    case AddToAll(_) =>
    case StopCollecting =>
  }

  lemma NotToRemove<C>(s: State<C>, c: C)
    requires Inv(s) && c !in s.marked
    ensures c !in ToRemove(s)
  {
  }

  lemma CollectRefines<C>(s: State<C>, c: C)
    requires Inv(s) && Enabled(s, Collect(c))
    ensures Contract.Follows(View(s), Contract.Take(c), View(Fire(s, Collect(c))))
  {
    var u := s.call.value;
    assert u.cones[0..] == u.cones && (u.cones + [c])[0..] == u.cones + [c];
    assert ToRemove(Fire(s, Collect(c))) == ToRemove(s) + {c};
  }

  lemma RemoveRefines<C>(s: State<C>)
    requires Inv(s) && Enabled(s, RemoveNext)
    ensures View(Fire(s, RemoveNext)) == View(s)
  {
    var u := s.call.value;
    var c := u.cones[u.removed];
    assert u.cones[u.removed..] == [c] + u.cones[u.removed + 1..];
    assert ToRemove(s) == {c} + ToRemove(Fire(s, RemoveNext));
  }

  lemma ReturnRefines<C>(s: State<C>)
    requires Inv(s) && Enabled(s, Return)
    ensures Contract.Follows(View(s), Contract.End, View(Fire(s, Return)))
  {
    var u := s.call.value;
    assert u.cones[u.removed..] == [];
    if |u.cones| < u.size {
      forall c | c in u.start
        ensures c !in View(s).marked
      {
        Contract.InvSets(View(s), c);
      }
    }
  }

  lemma StepInv<C>(s: State<C>, e: Event<C>)
    requires Inv(s) && Enabled(s, e)
    ensures Inv(Fire(s, e))
  {
    var s', a := Fire(s, e), ActionOf(s, e);
    StepRefines(s, e);
    if a.Some? {
      Contract.ApplyInv(View(s), a.value);
    }
    if e.AddToMarked? {
      ClaimedNotMarked(s, e.cone);
    }
  }

  ghost predicate Follows<C>(s: State<C>, e: Event<C>, s': State<C>) {
    Enabled(s, e) && s' == Fire(s, e)
  }

  ghost predicate IsRun<C>(states: seq<State<C>>, events: seq<Event<C>>) {
    && |states| == |events| + 1 && states[0] == Empty()
    && forall i :: 0 <= i < |events| ==> Follows(states[i], events[i], states[i + 1])
  }

  lemma Extend<C>(states: seq<State<C>>, events: seq<Event<C>>, e: Event<C>, s': State<C>)
    requires IsRun(states, events) && Follows(states[|events|], e, s')
    ensures IsRun(states + [s'], events + [e])
  {
    forall i | 0 <= i < |events + [e]|
      ensures Follows((states + [s'])[i], (events + [e])[i], (states + [s'])[i + 1])
    {
      if i < |events| {
        assert Follows(states[i], events[i], states[i + 1]);
      }
    }
  }

  /** Every run, however the calls are interleaved, is a history of the contract, without the exception. */
  lemma {:induction false} RunRefines<C>(states: seq<State<C>>, events: seq<Event<C>>)
      returns (stores: seq<Contract.Store<C>>, actions: seq<Contract.Action<C>>)
    requires IsRun(states, events)
    ensures Inv(states[|events|]) && !states[|events|].inconsistent
    ensures Contract.IsHistory(stores, actions) && stores[|actions|] == View(states[|events|])
    decreases |events|
  {
    var n := |events|;
    if n == 0 {
      stores, actions := [Contract.Empty()], [];
      assert View(states[0]) == Contract.Empty<C>();
    } else {
      stores, actions := RunRefines(states[..n], events[..n - 1]);
      var s, e := states[n - 1], events[n - 1];
      assert Follows(s, e, states[n]);
      StepRefines(s, e);
      StepInv(s, e);
      if ActionOf(s, e).Some? {
        Contract.Extend(stores, actions, ActionOf(s, e).value, View(states[n]));
        stores, actions := stores + [View(states[n])], actions + [ActionOf(s, e).value];
      }
    }
  }
}
