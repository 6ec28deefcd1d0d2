/**
 * When the traversal fetches (workflow/traverse_gitfan.xpnet): the bound on the job queue is kept, and nothing else
 * delays fetching as long as cones may be there.
 */
module TraversalQueue {
  import opened Seqs
  import opened Traversal
  import opened TraversalSafety

  /** Lists queued or about to be, running workers, and counts not yet looked at. */
  ghost function Outstanding<C>(s: State<C>): nat {
    s.enableInitial + |s.lists| + |s.jobs| + |s.insertions| + |s.getters|
  }

  ghost predicate WithinBound<C>(p: Problem<C>, s: State<C>) {
    p.maxJobQueue > 0 ==> s.enabled + Outstanding(s) <= p.maxJobQueue
  }

  lemma StepWithinBound<C(!new)>(p: Problem<C>, s: State<C>, e: Event<C>)
    requires Inv(p, s) && Enabled(p, s, e) && WithinBound(p, s)
    ensures WithinBound(p, Fire(p, s, e))
  {
  }

  /** With a bound on the queue there is never more outstanding work than that, running fetch included. */
  lemma {:induction false} QueueBound<C(!new)>(p: Problem<C>, states: seq<State<C>>, events: seq<Event<C>>)
    requires p.Valid() && IsRun(p, states, events)
    ensures WithinBound(p, states[|events|])
    decreases |events|
  {
    var n := |events|;
    if n > 0 {
      QueueBound(p, states[..n], events[..n - 1]);
      RunInv(p, states[..n], events[..n - 1]);
      assert states[n - 1] in states[..n];
      assert Follows(p, states[n - 1], events[n - 1], states[n]);
      StepWithinBound(p, states[n - 1], events[n - 1]);
    }
  }

  /** A fetch may start exactly when cones may be there, no other runs, and the outstanding work is below the bound. */
  lemma FetchesUnlessFull<C(!new)>(p: Problem<C>, s: State<C>)
    requires Inv(p, s)
    ensures Enabled(p, s, GetStart) <==>
              && Running(s) && s.getters == [] && s.available[0]
              && (p.maxJobQueue == 0 || Outstanding(s) < p.maxJobQueue)
  {
  }

  /** A fetch returns a full job, unless the limit is reached or all cones that were there at its start are taken. */
  lemma FetchIsFull<C(!new)>(p: Problem<C>, s: State<C>)
    requires Inv(p, s) && Enabled(p, s, GetEnd)
    ensures var cones := s.getters[0].cones;
      && |cones| <= p.jobSize && (p.maxCones >= 0 ==> |s.taken| <= p.maxCones)
      && (|cones| == p.jobSize || |s.taken| == p.maxCones || s.getters[0].start !! s.marked)
  {
  }

  /** The step adds a cone or finds one in a fetch, or there were such news and it does not find an empty storage. */
  ghost predicate News<C>(s: State<C>, e: Event<C>, news: bool) {
    || (e.SumUp? && e.token < |s.insertions| && s.insertions[e.token] > 0)
    || if e.GetEnd? then s.getters != [] && s.getters[0].cones != [] else news
  }

  ghost predicate NewsOf<C>(states: seq<State<C>>, events: seq<Event<C>>)
    requires |states| == |events| + 1
  {
    events != [] &&
    var n := |events| - 1;
    News(states[n], events[n], NewsOf(states[..n + 1], events[..n]))
  }

  ghost predicate Tells<C>(s: State<C>, news: bool) {
    (s.enabled > 0 ==> !news) && (Running(s) && s.getters == [] ==> s.available == [news])
  }

  lemma StepTells<C(!new)>(p: Problem<C>, s: State<C>, e: Event<C>, news: bool)
    requires Inv(p, s) && Enabled(p, s, e) && Tells(s, news)
    ensures Tells(Fire(p, s, e), News(s, e, news))
  {
  }

  /** Cones count as available exactly if a cone was added or found since the last fetch that found nothing. */
  lemma {:induction false} AvailableIff<C(!new)>(p: Problem<C>, states: seq<State<C>>, events: seq<Event<C>>)
    requires p.Valid() && IsRun(p, states, events)
    ensures Tells(states[|events|], NewsOf(states, events))
    decreases |events|
  {
    var n := |events|;
    if n > 0 {
      AvailableIff(p, states[..n], events[..n - 1]);
      RunInv(p, states[..n], events[..n - 1]);
      assert states[n - 1] in states[..n];
      assert Follows(p, states[n - 1], events[n - 1], states[n]);
      StepTells(p, states[n - 1], events[n - 1], NewsOf(states[..n], events[..n - 1]));
    }
  }
}
