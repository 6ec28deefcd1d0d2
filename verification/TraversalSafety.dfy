/** What every state of every traversal run satisfies, and what that says once `clean` has fired. */
module TraversalSafety {
  import opened Arithmetic
  import opened Seqs
  import opened Traversal

  ghost function CountOf<C>(): Job<C> -> nat {
    (job: Job<C>) => job.count
  }

  ghost function ClaimOf<C>(): Job<C> -> multiset<C> {
    (job: Job<C>) => if job.claim.Some? then multiset{job.claim.value} else multiset{}
  }

  ghost function Amount(): nat -> nat {
    (n: nat) => n
  }

  /** Cones recorded by a worker that has not marked them yet. */
  ghost function Claimed<C>(s: State<C>): multiset<C> {
    Bag(ClaimOf(), s.jobs)
  }

  /** Successful insertions whose count has not reached `number_of_cones` yet. */
  ghost function Unresolved<C>(s: State<C>): nat {
    Sum(Amount(), s.insertions) + Sum(CountOf(), s.jobs)
  }

  // ---------- The invariant, part by part ----------

  ghost predicate Running<C>(s: State<C>) {
    s.enabled == 0 && s.finished == 0
  }

  /** Which places hold tokens: every flag and counter place is 1-safe. */
  ghost predicate Shape<C>(s: State<C>) {
    if s.enabled > 0 then
      && s.enabled == 1 && s.enableInitial == 0 && s.finished == 0
      && s.available == [] && s.unprocessed == [] && s.fetched == [] && s.numberOfCones == []
      && s.getters == [] && s.lists == [] && s.insertions == [] && s.jobs == []
      && s.stored == s.marked == s.taken == {}
    else if s.finished > 0 then
      && s.finished == 1 && s.enableInitial == 0 && |s.numberOfCones| == 1
      && s.available == [] && s.unprocessed == [] && s.fetched == []
      && s.getters == [] && s.lists == [] && s.insertions == [] && s.jobs == []
    else
      && s.enableInitial <= 1 && |s.numberOfCones| == 1 && |s.getters| <= 1
      && |s.available| == |s.unprocessed| == |s.fetched| == 1 - |s.getters|
  }

  /** The stored cones are the marked, the taken and the claimed ones, without overlap. */
  ghost predicate Partition<C>(s: State<C>) {
    multiset(s.stored) == multiset(s.marked) + multiset(s.taken) + Claimed(s)
  }

  /** `number_of_unprocessed_tokens` is the amount of outstanding work. */
  ghost predicate WorkCounted<C>(s: State<C>)
    requires Shape(s)
  {
    Running(s) ==>
      (if s.getters == [] then s.unprocessed[0] else s.getters[0].inc)
      == s.enableInitial + |s.lists| + |s.jobs| + |s.insertions|
  }

  ghost predicate ConesCounted<C>(s: State<C>)
    requires Shape(s)
  {
    s.enabled == 0 ==> s.numberOfCones[0] + Unresolved(s) + |Claimed(s)| == |s.stored|
  }

  /** The fetched amount is the number of different cones fetched, and stays within the limit. */
  ghost predicate FetchesCounted<C>(p: Problem<C>, s: State<C>)
    requires Shape(s)
  {
    && (p.maxCones >= 0 ==> |s.taken| <= p.maxCones)
    && (Running(s) && s.getters == [] ==> s.fetched[0] == |s.taken|)
    && (Running(s) && s.getters != [] ==>
          var g := s.getters[0];
          && |s.taken| == g.fetched + |g.cones| && 0 <= g.fetched
          && g.size == (if p.maxCones >= 0 then Min(p.jobSize, p.maxCones - g.fetched) else p.jobSize)
          && |g.cones| <= g.size)
  }

  ghost predicate LimitReached<C>(p: Problem<C>, s: State<C>) {
    p.jobSize == 0 || (p.maxCones >= 0 && |s.taken| == p.maxCones)
  }

  /** Termination detection is sound: with the flag down, marked cones are backed by unresolved insertions. */
  ghost predicate Backed<C>(p: Problem<C>, s: State<C>)
    requires Shape(s)
  {
    && (Running(s) && s.getters == [] && !s.available[0] ==>
          |s.marked| <= Unresolved(s) || LimitReached(p, s))
    && (Running(s) && s.getters != [] ==> |s.marked - s.getters[0].start| <= Unresolved(s))
    && (s.finished > 0 ==> s.marked == {} || LimitReached(p, s))
  }

  ghost predicate JobOwes<C>(job: Job<C>, source: Option<C>, n: C) {
    exists w :: w in job.todo && w.source == source && n in w.remaining
  }

  /** Somebody is still going to insert `n`, a neighbour of `source` (or the start cone if that is None). */
  ghost predicate Owed<C>(s: State<C>, source: Option<C>, n: C) {
    || (source == None && s.enabled + s.enableInitial > 0)
    || (source.Some? && s.getters != [] && source.value in s.getters[0].cones)
    || (source.Some? && exists l :: l in s.lists && source.value in l)
    || exists job :: job in s.jobs && JobOwes(job, source, n)
  }

  ghost predicate Covered<C(!new)>(p: Problem<C>, s: State<C>) {
    && (forall c, n :: c in s.taken && n in p.neighbours(c) && n !in s.stored ==> Owed(s, Some(c), n))
    && (p.initial.Some? && p.initial.value !in s.stored ==> Owed(s, None, p.initial.value))
  }

  ghost predicate JobSound<C(!new)>(p: Problem<C>, job: Job<C>) {
    forall w, n :: w in job.todo && n in w.remaining ==> Reachable(p, n)
  }

  /** Nothing but reachable cones is stored, queued or about to be inserted. */
  ghost predicate Sound<C(!new)>(p: Problem<C>, s: State<C>) {
    && AllReachable(p, s.stored)
    && JobsSound(p, s.jobs)
    && (forall l, c :: l in s.lists && c in l ==> c in s.taken)
    && (s.getters != [] ==> forall c :: c in s.getters[0].cones ==> c in s.taken)
  }

  ghost predicate JobsSound<C(!new)>(p: Problem<C>, jobs: seq<Job<C>>) {
    forall job :: job in jobs ==> JobSound(p, job)
  }

  ghost predicate Inv<C(!new)>(p: Problem<C>, s: State<C>) {
    && Shape(s) && Partition(s) && WorkCounted(s) && ConesCounted(s) && FetchesCounted(p, s)
    && Backed(p, s) && Covered(p, s) && Sound(p, s)
  }

  // ---------- Every step keeps it ----------

  /** How one event changes the sums over places. */
  lemma Sums<C>(p: Problem<C>, s: State<C>, e: Event<C>)
    requires Enabled(p, s, e)
    ensures var s' := Fire(p, s, e);
      && (e.Claim? ==> Claimed(s') == Claimed(s) + multiset{e.cone})
      && (e.Mark? ==> Claimed(s) == Claimed(s') + multiset{s.jobs[e.job].claim.value})
      && (!e.Claim? && !e.Mark? ==> Claimed(s') == Claimed(s))
      && (e.Mark? ==> Unresolved(s') == Unresolved(s) + 1)
      && (e.SumUp? ==> Unresolved(s') == Unresolved(s) - s.insertions[e.token])
      && (!e.Mark? && !e.SumUp? ==> Unresolved(s') == Unresolved(s))
  {
    if e.Claim? || e.Mark? {
      ClaimSums(p, s, e);
    } else if e.ComputeInitialCone? || e.ExpandStart? || e.InsertEnd? {
      JobSums(p, s, e);
    } else if e.Known? || e.EndOfTransaction? {
      SameClaim(s, Fire(p, s, e), e.job);
    } else if e.SumUp? || e.ConsumeZero? {
      SumRemove(Amount(), s.insertions, e.token);
    } else {
      assert Fire(p, s, e).jobs == s.jobs && Fire(p, s, e).insertions == s.insertions;
    }
  }

  lemma ClaimSums<C>(p: Problem<C>, s: State<C>, e: Event<C>)
    requires Enabled(p, s, e) && (e.Claim? || e.Mark?)
    ensures var s' := Fire(p, s, e);
      && (e.Claim? ==> Claimed(s') == Claimed(s) + multiset{e.cone} && Unresolved(s') == Unresolved(s))
      && (e.Mark? ==> Claimed(s) == Claimed(s') + multiset{s.jobs[e.job].claim.value}
                      && Unresolved(s') == Unresolved(s) + 1)
  {
    JobUpdate(s, e.job, Fire(p, s, e).jobs[e.job]);
  }

  lemma JobSums<C>(p: Problem<C>, s: State<C>, e: Event<C>)
    requires Enabled(p, s, e) && (e.ComputeInitialCone? || e.ExpandStart? || e.InsertEnd?)
    ensures Claimed(Fire(p, s, e)) == Claimed(s) && Unresolved(Fire(p, s, e)) == Unresolved(s)
  {
    var s' := Fire(p, s, e);
    if e.InsertEnd? {
      JobEnd(s, s', e.job);
    } else {
      NewJob(s, s', s'.jobs[|s.jobs|]);
    }
  }

  lemma SameClaim<C>(s: State<C>, s': State<C>, j: nat)
    requires j < |s.jobs| == |s'.jobs| && s'.jobs == s.jobs[j := s'.jobs[j]] && s'.insertions == s.insertions
    requires s'.jobs[j].claim == s.jobs[j].claim && s'.jobs[j].count == s.jobs[j].count
    ensures Claimed(s') == Claimed(s) && Unresolved(s') == Unresolved(s)
  {
    JobUpdate(s, j, s'.jobs[j]);
  }

  lemma NewJob<C>(s: State<C>, s': State<C>, job: Job<C>)
    requires s'.jobs == s.jobs + [job] && s'.insertions == s.insertions && job.claim == None && job.count == 0
    ensures Claimed(s') == Claimed(s) && Unresolved(s') == Unresolved(s)
  {
    BagAppend(ClaimOf(), s.jobs, job);
    SumAppend(CountOf(), s.jobs, job);
  }

  lemma JobEnd<C>(s: State<C>, s': State<C>, j: nat)
    requires j < |s.jobs| && s.jobs[j].claim == None
    requires s'.jobs == RemoveAt(s.jobs, j) && s'.insertions == s.insertions + [s.jobs[j].count]
    ensures Claimed(s') == Claimed(s) && Unresolved(s') == Unresolved(s)
  {
    BagRemove(ClaimOf(), s.jobs, j);
    SumRemove(CountOf(), s.jobs, j);
    SumAppend(Amount(), s.insertions, s.jobs[j].count);
  }

  lemma JobUpdate<C>(s: State<C>, j: nat, job: Job<C>)
    requires j < |s.jobs|
    ensures Bag(ClaimOf(), s.jobs[j := job]) + ClaimOf()(s.jobs[j]) == Claimed(s) + ClaimOf()(job)
    ensures job.claim == s.jobs[j].claim ==> Bag(ClaimOf(), s.jobs[j := job]) == Claimed(s)
    ensures Sum(CountOf(), s.jobs[j := job]) + s.jobs[j].count == Sum(CountOf(), s.jobs) + job.count
  {
    BagUpdate(ClaimOf(), s.jobs, j, job);
    SumUpdate(CountOf(), s.jobs, j, job);
    if job.claim == s.jobs[j].claim {
      Cancel(Bag(ClaimOf(), s.jobs[j := job]), Claimed(s), ClaimOf()(job));
    }
  }

  /** Every step keeps the shape of the places and the work counter exact. */
  lemma StepShape<C(!new)>(p: Problem<C>, s: State<C>, e: Event<C>)
    requires Shape(s) && WorkCounted(s) && Enabled(p, s, e)
    ensures Shape(Fire(p, s, e)) && WorkCounted(Fire(p, s, e))
  {
    if e.Init? || e.ComputeInitialCone? || e.Clean? {
      EndsShape(p, s, e);
    } else if e.GetStart? || e.Take? || e.GetEnd? {
      FetchShape(p, s, e);
    } else if e.SumUp? || e.ConsumeZero? {
      CountShape(p, s, e);
    } else {
      JobShape(p, s, e);
    }
  }

  lemma EndsShape<C(!new)>(p: Problem<C>, s: State<C>, e: Event<C>)
    requires Shape(s) && WorkCounted(s) && Enabled(p, s, e) && (e.Init? || e.ComputeInitialCone? || e.Clean?)
    ensures Shape(Fire(p, s, e)) && WorkCounted(Fire(p, s, e))
  {
  }

  lemma FetchShape<C(!new)>(p: Problem<C>, s: State<C>, e: Event<C>)
    requires Shape(s) && WorkCounted(s) && Enabled(p, s, e) && (e.GetStart? || e.Take? || e.GetEnd?)
    ensures Shape(Fire(p, s, e)) && WorkCounted(Fire(p, s, e))
  {
  }

  lemma CountShape<C(!new)>(p: Problem<C>, s: State<C>, e: Event<C>)
    requires Shape(s) && WorkCounted(s) && Enabled(p, s, e) && (e.SumUp? || e.ConsumeZero?)
    ensures Shape(Fire(p, s, e)) && WorkCounted(Fire(p, s, e))
  {
  }

  lemma JobShape<C(!new)>(p: Problem<C>, s: State<C>, e: Event<C>)
    requires Shape(s) && WorkCounted(s) && Enabled(p, s, e)
    requires e.ExpandStart? || e.Claim? || e.Mark? || e.Known? || e.EndOfTransaction? || e.InsertEnd?
    ensures Shape(Fire(p, s, e)) && WorkCounted(Fire(p, s, e))
  {
  }

  lemma StepPartition<C(!new)>(p: Problem<C>, s: State<C>, e: Event<C>)
    requires Partition(s) && Enabled(p, s, e)
    ensures Partition(Fire(p, s, e))
    ensures e.Take? ==> e.cone !in s.taken
    ensures e.Mark? ==> s.jobs[e.job].claim.value !in s.marked
  {
    Sums(p, s, e);
    PartitionDisjoint(s);
    var s' := Fire(p, s, e);
    match e
    case Take(c) => PartitionTake(s, s', c);
    case Claim(j, c) => PartitionClaim(s, s', c);
    case Mark(j) => PartitionMark(s, s', s.jobs[j].claim.value);
    case _ =>
      assert s'.stored == s.stored && s'.marked == s.marked && s'.taken == s.taken;
  }

  lemma PartitionTake<C>(s: State<C>, s': State<C>, c: C)
    requires Partition(s) && c in s.marked && c !in s.taken
    requires s'.stored == s.stored && s'.marked == s.marked - {c} && s'.taken == s.taken + {c}
    requires Claimed(s') == Claimed(s)
    ensures Partition(s')
  {
    BagOfMore(s'.marked, c);
    BagOfMore(s.taken, c);
    assert s'.marked + {c} == s.marked;
  }

  lemma PartitionClaim<C>(s: State<C>, s': State<C>, c: C)
    requires Partition(s) && c !in s.stored
    requires s'.stored == s.stored + {c} && s'.marked == s.marked && s'.taken == s.taken
    requires Claimed(s') == Claimed(s) + multiset{c}
    ensures Partition(s')
  {
    BagOfMore(s.stored, c);
  }

  lemma PartitionMark<C>(s: State<C>, s': State<C>, c: C)
    requires Partition(s) && c !in s.marked
    requires s'.stored == s.stored && s'.marked == s.marked + {c} && s'.taken == s.taken
    requires Claimed(s) == Claimed(s') + multiset{c}
    ensures Partition(s')
  {
    BagOfMore(s.marked, c);
  }

  lemma BagOfMore<T>(a: set<T>, x: T)
    requires x !in a
    ensures multiset(a + {x}) == multiset(a) + multiset{x}
  {
  }

  /** The three kinds of stored cones do not overlap, and a claimed cone is claimed once. */
  lemma PartitionDisjoint<C>(s: State<C>)
    requires Partition(s)
    ensures s.marked !! s.taken && s.marked + s.taken <= s.stored
    ensures forall c :: c in Claimed(s) ==> c in s.stored && c !in s.marked && c !in s.taken
    ensures |s.stored| == |s.marked| + |s.taken| + |Claimed(s)|
  {
    var stored, marked, taken, claimed := multiset(s.stored), multiset(s.marked), multiset(s.taken), Claimed(s);
    assert forall c :: stored[c] == marked[c] + taken[c] + claimed[c];
    assert forall c :: stored[c] <= 1;
    forall c | c in claimed
      ensures c in s.stored && c !in s.marked && c !in s.taken
    {
      assert stored[c] == marked[c] + taken[c] + claimed[c];
    }
    assert |stored| == |s.stored| && |marked| == |s.marked| && |taken| == |s.taken|;
  }

  lemma StepConesCounted<C(!new)>(p: Problem<C>, s: State<C>, e: Event<C>)
    requires Shape(s) && ConesCounted(s) && Enabled(p, s, e)
    requires Shape(Fire(p, s, e))
    ensures ConesCounted(Fire(p, s, e))
  {
    if e.Claim? || e.Mark? {
      ClaimCounted(p, s, e);
    } else if e.Init? || e.SumUp? {
      SumCounted(p, s, e);
    } else {
      Sums(p, s, e);
      ConesFrame(s, Fire(p, s, e));
    }
  }

  lemma ClaimCounted<C(!new)>(p: Problem<C>, s: State<C>, e: Event<C>)
    requires Shape(s) && ConesCounted(s) && Enabled(p, s, e) && Shape(Fire(p, s, e)) && (e.Claim? || e.Mark?)
    ensures ConesCounted(Fire(p, s, e))
  {
    Sums(p, s, e);
    var s' := Fire(p, s, e);
    if e.Claim? {
      OneMore(Claimed(s), e.cone);
      assert |s'.stored| == |s.stored| + 1;
    } else {
      OneMore(Claimed(s'), s.jobs[e.job].claim.value);
    }
  }

  lemma SumCounted<C(!new)>(p: Problem<C>, s: State<C>, e: Event<C>)
    requires Shape(s) && ConesCounted(s) && Enabled(p, s, e) && Shape(Fire(p, s, e)) && (e.Init? || e.SumUp?)
    ensures ConesCounted(Fire(p, s, e))
  {
    Sums(p, s, e);
  }

  lemma ConesFrame<C>(s: State<C>, s': State<C>)
    requires Shape(s) && ConesCounted(s) && Shape(s')
    requires s'.enabled == s.enabled && s'.numberOfCones == s.numberOfCones && s'.stored == s.stored
    requires Unresolved(s') == Unresolved(s) && Claimed(s') == Claimed(s)
    ensures ConesCounted(s')
  {
  }

  lemma OneMore<C>(m: multiset<C>, c: C)
    ensures |m + multiset{c}| == |m| + 1
  {
  }

  lemma StepFetchesCounted<C(!new)>(p: Problem<C>, s: State<C>, e: Event<C>)
    requires p.Valid() && Shape(s) && Partition(s) && FetchesCounted(p, s) && Enabled(p, s, e)
    requires Shape(Fire(p, s, e))
    ensures FetchesCounted(p, Fire(p, s, e))
  {
    if e.Take? {
      StepPartition(p, s, e);
      FetchFetches(p, s, e);
    } else if e.GetStart? || e.GetEnd? || e.Init? || e.Clean? {
      FetchFetches(p, s, e);
    } else {
      var s' := Fire(p, s, e);
      assert s'.fetched == s.fetched && s'.getters == s.getters && s'.taken == s.taken;
    }
  }

  lemma FetchFetches<C(!new)>(p: Problem<C>, s: State<C>, e: Event<C>)
    requires p.Valid() && Shape(s) && FetchesCounted(p, s) && Enabled(p, s, e) && Shape(Fire(p, s, e))
    requires e.GetStart? || e.Take? || e.GetEnd? || e.Init? || e.Clean?
    requires e.Take? ==> e.cone !in s.taken
    ensures FetchesCounted(p, Fire(p, s, e))
  {
  }

  lemma StepBacked<C(!new)>(p: Problem<C>, s: State<C>, e: Event<C>)
    requires p.Valid() && Shape(s) && Partition(s) && WorkCounted(s) && FetchesCounted(p, s) && Backed(p, s)
    requires Enabled(p, s, e) && Shape(Fire(p, s, e)) && FetchesCounted(p, Fire(p, s, e))
    ensures Backed(p, Fire(p, s, e))
  {
    if e.Mark? || e.Take? {
      MarksBacked(p, s, e);
    } else if e.GetStart? || e.GetEnd? {
      FetchBacked(p, s, e);
    } else if e.Init? || e.SumUp? || e.ConsumeZero? || e.Clean? {
      CountBacked(p, s, e);
    } else {
      Sums(p, s, e);
      BackedFrame(p, s, Fire(p, s, e));
    }
  }

  lemma MarksBacked<C(!new)>(p: Problem<C>, s: State<C>, e: Event<C>)
    requires Shape(s) && Partition(s) && Backed(p, s) && Enabled(p, s, e) && Shape(Fire(p, s, e))
    requires e.Mark? || e.Take?
    ensures Backed(p, Fire(p, s, e))
  {
    Sums(p, s, e);
    StepPartition(p, s, e);
    if s.getters != [] {
      if e.Mark? {
        OneMoreMarked(s.marked, s.getters[0].start, s.jobs[e.job].claim.value);
      } else {
        OneLessMarked(s.marked, s.getters[0].start, e.cone);
      }
    }
  }

  lemma FetchBacked<C(!new)>(p: Problem<C>, s: State<C>, e: Event<C>)
    requires p.Valid() && Shape(s) && FetchesCounted(p, s) && Backed(p, s)
    requires Enabled(p, s, e) && Shape(Fire(p, s, e)) && FetchesCounted(p, Fire(p, s, e))
    requires e.GetStart? || e.GetEnd?
    ensures Backed(p, Fire(p, s, e))
  {
    Sums(p, s, e);
    if e.GetStart? {
      assert s.marked - s.marked == {};
    } else if s.getters[0].start !! s.marked {
      assert s.marked - s.getters[0].start == s.marked;
    }
  }

  lemma CountBacked<C(!new)>(p: Problem<C>, s: State<C>, e: Event<C>)
    requires Shape(s) && WorkCounted(s) && Backed(p, s) && Enabled(p, s, e) && Shape(Fire(p, s, e))
    requires e.Init? || e.SumUp? || e.ConsumeZero? || e.Clean?
    ensures Backed(p, Fire(p, s, e))
  {
    Sums(p, s, e);
    if e.Clean? {
      assert Unresolved(s) == 0;
    }
  }

  lemma BackedFrame<C>(p: Problem<C>, s: State<C>, s': State<C>)
    requires Shape(s) && Backed(p, s) && Shape(s')
    requires s'.enabled == s.enabled && s'.finished == s.finished && s'.available == s.available
    requires s'.getters == s.getters && s'.marked == s.marked && s'.taken == s.taken
    requires Unresolved(s') == Unresolved(s)
    ensures Backed(p, s')
  {
  }

  lemma OneMoreMarked<T>(marked: set<T>, start: set<T>, c: T)
    ensures |marked + {c} - start| <= |marked - start| + 1
  {
    SubsetCardinality(marked + {c} - start, (marked - start) + {c});
  }

  lemma OneLessMarked<T>(marked: set<T>, start: set<T>, c: T)
    ensures |marked - {c} - start| <= |marked - start|
  {
    SubsetCardinality(marked - {c} - start, marked - start);
  }

  lemma SubsetCardinality<T>(a: set<T>, b: set<T>)
    requires a <= b
    ensures |a| <= |b|
  {
    if a != {} {
      var x :| x in a;
      SubsetCardinality(a - {x}, b - {x});
    }
  }

  lemma {:induction false} ExpansionWorkMembers<C>(p: Problem<C>, cones: seq<C>)
    ensures forall w :: w in ExpansionWork(p, cones) ==>
              w.source.Some? && w.source.value in cones && w.remaining == p.neighbours(w.source.value)
    ensures forall c :: c in cones ==> Work(Some(c), p.neighbours(c)) in ExpansionWork(p, cones)
  {
    if cones != [] {
      ExpansionWorkMembers(p, cones[1..]);
      assert cones == [cones[0]] + cones[1..];
    }
  }

  /** A job that goes on with less work still owes what it owed, but for the cone just handled. */
  lemma JobKeepsOwing<C(!new)>(s: State<C>, s': State<C>, j: nat, source: Option<C>, n: C)
    requires j < |s.jobs| == |s'.jobs| && s'.jobs == s.jobs[j := s'.jobs[j]]
    requires exists job :: job in s.jobs && JobOwes(job, source, n)
    requires JobOwes(s.jobs[j], source, n) ==> JobOwes(s'.jobs[j], source, n)
    ensures exists job :: job in s'.jobs && JobOwes(job, source, n)
  {
    var job :| job in s.jobs && JobOwes(job, source, n);
    UpdateMembers(s.jobs, j, s'.jobs[j]);
    if job == s.jobs[j] {
      assert s'.jobs[j] in s'.jobs;
    } else {
      assert job in s'.jobs;
    }
  }

  lemma HandledOwes<C(!new)>(job: Job<C>, c: C, source: Option<C>, n: C)
    requires job.todo != [] && n != c
    ensures JobOwes(job, source, n) ==> JobOwes(Handled(job, c), source, n)
  {
    if JobOwes(job, source, n) {
      var w :| w in job.todo && w.source == source && n in w.remaining;
      assert job.todo == [job.todo[0]] + job.todo[1..];
      var w' := if w == job.todo[0] then w.(remaining := w.remaining - {c}) else w;
      assert w' in Handled(job, c).todo;
    }
  }

  /** A debt is passed on until it is paid: from the getter to a list, to a job, to the storage. */
  lemma OwedStep<C(!new)>(p: Problem<C>, s: State<C>, e: Event<C>, source: Option<C>, n: C)
    requires Shape(s) && Enabled(p, s, e)
    requires source.Some? ==> n in p.neighbours(source.value)
    requires source == None ==> p.initial == Some(n)
    requires Owed(s, source, n) && n !in Fire(p, s, e).stored
    ensures Owed(Fire(p, s, e), source, n)
  {
    var s' := Fire(p, s, e);
    match e
    case ComputeInitialCone =>
      if source == None {
        assert Work(None, {n}) in InitialWork(p);
        assert s'.jobs[|s.jobs|] in s'.jobs && JobOwes(s'.jobs[|s.jobs|], source, n);
      }
    case GetEnd =>
      assert s.getters[0].cones in s'.lists;
    case ExpandStart(i) =>
      RemoveAtMembers(s.lists, i);
      if source.Some? && source.value in s.lists[i] {
        ExpansionWorkMembers(p, s.lists[i]);
        var w := Work(source, p.neighbours(source.value));
        assert w in ExpansionWork(p, s.lists[i]);
        assert s'.jobs[|s.jobs|] in s'.jobs && JobOwes(s'.jobs[|s.jobs|], source, n);
      }
    case Claim(j, c) =>
      if exists job :: job in s.jobs && JobOwes(job, source, n) {
        HandledOwes(s.jobs[j], c, source, n);
        JobKeepsOwing(s, s', j, source, n);
      }
    case Known(j, c) =>
      if exists job :: job in s.jobs && JobOwes(job, source, n) {
        HandledOwes(s.jobs[j], c, source, n);
        JobKeepsOwing(s, s', j, source, n);
      }
    case Mark(j) =>
      if exists job :: job in s.jobs && JobOwes(job, source, n) {
        JobKeepsOwing(s, s', j, source, n);
      }
    case EndOfTransaction(j) =>
      if exists job :: job in s.jobs && JobOwes(job, source, n) {
        assert s.jobs[j].todo == [s.jobs[j].todo[0]] + s.jobs[j].todo[1..];
        JobKeepsOwing(s, s', j, source, n);
      }
    case InsertEnd(j) =>
      RemoveAtMembers(s.jobs, j);
    case _ =>
  }

  lemma StepCovered<C(!new)>(p: Problem<C>, s: State<C>, e: Event<C>)
    requires Shape(s) && Covered(p, s) && Enabled(p, s, e)
    ensures Covered(p, Fire(p, s, e))
  {
    var s' := Fire(p, s, e);
    forall c, n | c in s'.taken && n in p.neighbours(c) && n !in s'.stored
      ensures Owed(s', Some(c), n)
    {
      if c in s.taken {
        OwedStep(p, s, e, Some(c), n);
      } else {
        assert e == Take(c);
      }
    }
    if p.initial.Some? && p.initial.value !in s'.stored {
      OwedStep(p, s, e, None, p.initial.value);
    }
  }

  lemma StepSound<C(!new)>(p: Problem<C>, s: State<C>, e: Event<C>)
    requires Shape(s) && Partition(s) && Sound(p, s) && Enabled(p, s, e)
    ensures Sound(p, Fire(p, s, e))
  {
    PartitionDisjoint(s);
    StepJobsSound(p, s, e);
    StepListsSound(p, s, e);
    StepStoredSound(p, s, e);
  }

  ghost predicate AllReachable<C(!new)>(p: Problem<C>, cones: set<C>) {
    forall c :: c in cones ==> Reachable(p, c)
  }

  lemma StepStoredSound<C(!new)>(p: Problem<C>, s: State<C>, e: Event<C>)
    requires AllReachable(p, s.stored) && JobsSound(p, s.jobs) && Enabled(p, s, e)
    ensures AllReachable(p, Fire(p, s, e).stored)
  {
    if e.Claim? {
      assert s.jobs[e.job] in s.jobs && JobSound(p, s.jobs[e.job]);
      assert s.jobs[e.job].todo[0] in s.jobs[e.job].todo;
    } else {
      assert Fire(p, s, e).stored == s.stored;
    }
  }

  lemma StepListsSound<C>(p: Problem<C>, s: State<C>, e: Event<C>)
    requires Shape(s) && Enabled(p, s, e)
    requires forall l, c :: l in s.lists && c in l ==> c in s.taken
    requires s.getters != [] ==> forall c :: c in s.getters[0].cones ==> c in s.taken
    ensures var s' := Fire(p, s, e);
      && (forall l, c :: l in s'.lists && c in l ==> c in s'.taken)
      && (s'.getters != [] ==> forall c :: c in s'.getters[0].cones ==> c in s'.taken)
  {
    if e.ExpandStart? {
      RemoveAtMembers(s.lists, e.list);
    } else if !e.GetStart? && !e.GetEnd? && !e.Take? {
      var s' := Fire(p, s, e);
      assert s'.lists == s.lists && s'.taken == s.taken && s'.getters == s.getters;
    }
  }

  lemma StepJobsSound<C(!new)>(p: Problem<C>, s: State<C>, e: Event<C>)
    requires JobsSound(p, s.jobs) && Enabled(p, s, e)
    requires AllReachable(p, s.taken)
    requires forall l, c :: l in s.lists && c in l ==> c in s.taken
    ensures JobsSound(p, Fire(p, s, e).jobs)
  {
    match e
    case ComputeInitialCone =>
      if p.initial.Some? {
        InitialReachable(p);
      }
    case ExpandStart(i) => ExpansionSound(p, s.lists[i]);
    case InsertEnd(j) => RemoveAtMembers(s.jobs, j);
    case Claim(j, c) => JobStaysSound(p, s.jobs, j, Handled(s.jobs[j], c).(claim := Some(c)));
    case Known(j, c) => JobStaysSound(p, s.jobs, j, Handled(s.jobs[j], c));
    case Mark(j) => JobStaysSound(p, s.jobs, j, Fire(p, s, e).jobs[j]);
    case EndOfTransaction(j) => JobStaysSound(p, s.jobs, j, Fire(p, s, e).jobs[j]);
    case _ =>
  }

  lemma ExpansionSound<C(!new)>(p: Problem<C>, cones: seq<C>)
    requires forall c :: c in cones ==> Reachable(p, c)
    ensures JobSound(p, Job(ExpansionWork(p, cones), None, 0))
  {
    ExpansionWorkMembers(p, cones);
    forall w, n | w in ExpansionWork(p, cones) && n in w.remaining
      ensures Reachable(p, n)
    {
      NeighbourReachable(p, w.source.value, n);
    }
  }

  lemma JobStaysSound<C(!new)>(p: Problem<C>, jobs: seq<Job<C>>, j: nat, job: Job<C>)
    requires JobsSound(p, jobs) && j < |jobs|
    requires forall w' :: w' in job.todo ==> exists w :: w in jobs[j].todo && w'.remaining <= w.remaining
    ensures JobsSound(p, jobs[j := job])
  {
    assert jobs[j] in jobs;
    UpdateMembers(jobs, j, job);
  }

  // ---------- Whole runs ----------

  lemma StartInv<C(!new)>(p: Problem<C>)
    ensures Inv(p, Start())
  {
    assert Claimed(Start<C>()) == multiset{};
  }

  lemma StepInv<C(!new)>(p: Problem<C>, s: State<C>, e: Event<C>)
    requires p.Valid() && Inv(p, s) && Enabled(p, s, e)
    ensures Inv(p, Fire(p, s, e))
  {
    StepShape(p, s, e);
    StepPartition(p, s, e);
    StepConesCounted(p, s, e);
    StepFetchesCounted(p, s, e);
    StepBacked(p, s, e);
    StepCovered(p, s, e);
    StepSound(p, s, e);
  }

  /** Every state of every run satisfies the invariant. */
  lemma {:induction false} RunInv<C(!new)>(p: Problem<C>, states: seq<State<C>>, events: seq<Event<C>>)
    requires p.Valid() && IsRun(p, states, events)
    ensures forall s :: s in states ==> Inv(p, s)
  {
    if events == [] {
      StartInv(p);
    } else {
      var n := |events|;
      RunInv(p, states[..n], events[..n - 1]);
      assert states[n - 1] in states[..n];
      assert Follows(p, states[n - 1], events[n - 1], states[n]);
      StepInv(p, states[n - 1], events[n - 1]);
      assert states == states[..n] + [states[n]];
    }
  }

  /**
   * When `clean` has fired, the reported number is the size of the store, the store holds only reachable
   * cones, no cone of it waits to be fetched unless the limit stopped the traversal, and everything
   * fetched has been expanded.  Without a limit, or with one the result stays within, the store is exactly
   * the set of reachable cones.
   */
  lemma TraversalComplete<C(!new)>(p: Problem<C>, states: seq<State<C>>, events: seq<Event<C>>)
    requires p.Valid() && p.jobSize > 0 && IsRun(p, states, events)
    requires states[|events|].finished > 0
    ensures var s := states[|events|];
      && s.numberOfCones == [|s.stored|]
      && (s.marked == {} || |s.taken| == p.maxCones)
      && s.stored == s.marked + s.taken
      && (forall c, n :: c in s.taken && n in p.neighbours(c) ==> n in s.stored)
      && (forall c :: c in s.stored ==> Reachable(p, c))
      && (p.maxCones < 0 || s.numberOfCones[0] <= p.maxCones ==>
            s.marked == {} && forall c :: Reachable(p, c) ==> c in s.stored)
  {
    var s := states[|events|];
    RunInv(p, states, events);
    assert s in states;
    FinishedStore(s);
    if p.maxCones < 0 || s.numberOfCones[0] <= p.maxCones {
      assert s.marked == {} && s.stored == s.taken;
      ClosedStore(p, s.stored);
    }
  }

  lemma ClosedStore<C(!new)>(p: Problem<C>, stored: set<C>)
    requires p.initial.Some? ==> p.initial.value in stored
    requires forall c, n :: c in stored && n in p.neighbours(c) ==> n in stored
    ensures forall c :: Reachable(p, c) ==> c in stored
  {
    forall c | Reachable(p, c)
      ensures c in stored
    {
      var path :| IsPath(p, path) && path[|path| - 1] == c;
      ClosedSetIsComplete(p, stored, path);
    }
  }

  lemma FinishedStore<C(!new)>(s: State<C>)
    requires Shape(s) && Partition(s) && ConesCounted(s) && s.finished > 0
    ensures s.stored == s.marked + s.taken && s.numberOfCones == [|s.stored|]
    ensures |s.stored| == |s.marked| + |s.taken|
  {
    PartitionDisjoint(s);
    assert Claimed(s) == multiset{} && Unresolved(s) == 0;
    forall c | c in s.stored
      ensures c in s.marked + s.taken
    {
      assert c in multiset(s.stored);
    }
  }

  /** The counters of every state of every run, spelled out. */
  lemma TraversalAccounting<C(!new)>(p: Problem<C>, states: seq<State<C>>, events: seq<Event<C>>, i: nat)
    requires p.Valid() && IsRun(p, states, events) && i < |states|
    ensures var s := states[i];
      && |s.available| <= 1 && |s.unprocessed| <= 1 && |s.fetched| <= 1 && |s.getters| <= 1
      && (s.unprocessed != [] ==>
            s.unprocessed[0] == s.enableInitial + |s.lists| + |s.jobs| + |s.insertions|)
      && (s.enabled == 0 ==>
            |s.numberOfCones| == 1 && s.numberOfCones[0] + Unresolved(s) + |Claimed(s)| == |s.stored|)
      && (s.fetched != [] ==> s.fetched[0] == |s.taken|)
      && (p.maxCones >= 0 ==> |s.taken| <= p.maxCones)
    ensures i < |events| ==> var s := states[i];
      && (events[i].GetStart? && p.maxCones >= 0 ==>
            s.fetched != [] && Word(p.maxCones - s.fetched[0]) == p.maxCones - s.fetched[0])
      && (events[i].SumUp? || events[i].ConsumeZero? ==> s.unprocessed != [] && s.unprocessed[0] >= 1)
  {
    RunInv(p, states, events);
    assert states[i] in states;
    if i < |events| {
      assert Follows(p, states[i], events[i], states[i + 1]);
    }
  }

  lemma {:induction false} TakenGrows<C(!new)>(
      p: Problem<C>, states: seq<State<C>>, events: seq<Event<C>>, i: nat, j: nat)
    requires IsRun(p, states, events) && i <= j < |states|
    ensures states[i].taken <= states[j].taken
    decreases j - i
  {
    if i < j {
      assert Follows(p, states[j - 1], events[j - 1], states[j]);
      TakenGrows(p, states, events, i, j - 1);
    }
  }

  /** No cone is fetched twice in a run, so none is expanded twice. */
  lemma FetchedOnce<C(!new)>(
      p: Problem<C>, states: seq<State<C>>, events: seq<Event<C>>, i: nat, j: nat)
    requires p.Valid() && IsRun(p, states, events) && i < j < |events|
    requires events[i].Take? && events[j].Take?
    ensures events[i].cone != events[j].cone
  {
    RunInv(p, states, events);
    assert states[j] in states;
    assert Follows(p, states[i], events[i], states[i + 1]) && Follows(p, states[j], events[j], states[j + 1]);
    TakenGrows(p, states, events, i + 1, j);
    StepPartition(p, states[j], events[j]);
  }
}
