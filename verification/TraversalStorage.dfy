/** The storage part of a traversal state. */
module TraversalStorage {
  import opened Seqs
  import opened Traversal
  import opened TraversalSafety
  import Contract = StorageContract

  ghost function StoreOf<C>(s: State<C>): Contract.Store<C> {
    Contract.Store(s.stored, s.marked, Claimed(s), s.taken,
          if s.getters == [] then None
          else Some(Contract.Fetch(s.getters[0].size, s.getters[0].start, s.getters[0].cones)))
  }

  /** The storage call an event of the net makes, if any. */
  ghost function CallOf<C>(p: Problem<C>, s: State<C>, e: Event<C>): Option<Contract.Action<C>>
    requires Enabled(p, s, e)
  {
    match e
    case Claim(_, c) => Some(Contract.Claim(c))
    case Known(_, c) => Some(Contract.Known(c))
    case Mark(j) => Some(Contract.Mark(s.jobs[j].claim.value))
    case GetStart => Some(Contract.Begin(RequestSize(p, s.fetched[0])))
    case Take(c) => Some(Contract.Take(c))
    case GetEnd => Some(Contract.End)
    case _ => None
  }

  /** Every firing of the net is one call the contract allows, or none, so the traversal results rest on it. */
  lemma NetUsesContract<C(!new)>(p: Problem<C>, s: State<C>, e: Event<C>)
    requires Enabled(p, s, e) && Shape(s)
    ensures var s', call := Fire(p, s, e), CallOf(p, s, e);
      if call == None then StoreOf(s') == StoreOf(s) else Contract.Follows(StoreOf(s), call.value, StoreOf(s'))
  {
    Sums(p, s, e);
    if e.Mark? {
      MarkUsesContract(p, s, e);
    } else if e.Claim? || e.Take? {
      AddUsesContract(p, s, e);
    } else if e.GetStart? || e.GetEnd? {
      FetchUsesContract(p, s, e);
    } else {
      QuietEvents(p, s, e);
    }
  }

  lemma MarkUsesContract<C(!new)>(p: Problem<C>, s: State<C>, e: Event<C>)
    requires Enabled(p, s, e) && e.Mark?
    ensures Contract.Follows(StoreOf(s), CallOf(p, s, e).value, StoreOf(Fire(p, s, e)))
  {
    Sums(p, s, e);
    ClaimIsClaimed(s, e.job);
    assert Claimed(Fire(p, s, e)) == Claimed(s) - multiset{s.jobs[e.job].claim.value};
  }

  lemma AddUsesContract<C(!new)>(p: Problem<C>, s: State<C>, e: Event<C>)
    requires Enabled(p, s, e) && (e.Claim? || e.Take?)
    ensures Contract.Follows(StoreOf(s), CallOf(p, s, e).value, StoreOf(Fire(p, s, e)))
  {
    Sums(p, s, e);
  }

  lemma FetchUsesContract<C(!new)>(p: Problem<C>, s: State<C>, e: Event<C>)
    requires Enabled(p, s, e) && Shape(s) && (e.GetStart? || e.GetEnd?)
    ensures Contract.Follows(StoreOf(s), CallOf(p, s, e).value, StoreOf(Fire(p, s, e)))
  {
    Sums(p, s, e);
  }

  lemma QuietEvents<C(!new)>(p: Problem<C>, s: State<C>, e: Event<C>)
    requires Enabled(p, s, e) && !e.Mark? && !e.Claim? && !e.Take? && !e.GetStart? && !e.GetEnd?
    ensures StoreOf(Fire(p, s, e)) == StoreOf(s)
  {
    Sums(p, s, e);
    StoreFrame(s, Fire(p, s, e));
  }

  lemma StoreFrame<C>(s: State<C>, s': State<C>)
    requires s'.stored == s.stored && s'.marked == s.marked && s'.taken == s.taken && s'.getters == s.getters
    requires Claimed(s') == Claimed(s)
    ensures StoreOf(s') == StoreOf(s)
  {
  }

  lemma ClaimIsClaimed<C>(s: State<C>, j: nat)
    requires j < |s.jobs| && s.jobs[j].claim.Some?
    ensures s.jobs[j].claim.value in Claimed(s)
  {
    BagSplit(ClaimOf(), s.jobs, j);
  }
}
