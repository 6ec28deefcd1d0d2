/**
 * What the traversal expects of a cone storage: the cones it knows, and those of them that can still be
 * fetched.  Adding a cone is `Claim` then `Mark`, or `Known` when it is refused; `Begin`, any number of
 * `Take`, `End` make up one fetch.  Only one fetch runs at a time.
 */
module StorageContract {
  import opened Seqs

  datatype Fetch<C> = Fetch(size: int, start: set<C>, cones: seq<C>)

  datatype Store<C> = Store(stored: set<C>, marked: set<C>, claimed: multiset<C>, taken: set<C>, fetch: Option<Fetch<C>>)

  datatype Action<C> = Claim(cone: C) | Known(cone: C) | Mark(cone: C) | Begin(size: int) | Take(cone: C) | End

  ghost predicate Allowed<C>(s: Store<C>, a: Action<C>) {
    match a
    case Claim(c) => c !in s.stored
    case Known(c) => c in s.stored
    case Mark(c) => c in s.claimed
    case Begin(n) => s.fetch == None
    case Take(c) => s.fetch.Some? && |s.fetch.value.cones| < s.fetch.value.size && c in s.marked
    case End => s.fetch.Some? && (|s.fetch.value.cones| >= s.fetch.value.size || s.fetch.value.start !! s.marked)
  }

  /** An action that is not allowed changes nothing. */
  ghost function Apply<C>(s: Store<C>, a: Action<C>): Store<C> {
    if !Allowed(s, a) then s
    else match a
    case Claim(c) => s.(stored := s.stored + {c}, claimed := s.claimed + multiset{c})
    case Known(_) => s
    case Mark(c) => s.(marked := s.marked + {c}, claimed := s.claimed - multiset{c})
    case Begin(n) => s.(fetch := Some(Fetch(n, s.marked, [])))
    case Take(c) =>
      var f := s.fetch.value;
      s.(marked := s.marked - {c}, taken := s.taken + {c}, fetch := Some(f.(cones := f.cones + [c])))
    case End => s.(fetch := None)
  }

  ghost function Empty<C>(): Store<C> {
    Store({}, {}, multiset{}, {}, None)
  }

  /** Every stored cone is in exactly one of three conditions, and a fetch holds cones already taken. */
  ghost predicate Inv<C>(s: Store<C>) {
    && multiset(s.stored) == multiset(s.marked) + multiset(s.taken) + s.claimed
    && (s.fetch.Some? ==> forall c :: c in s.fetch.value.cones ==> c in s.taken)
  }

  lemma InvSets<C>(s: Store<C>, c: C)
    requires Inv(s)
    ensures c in s.stored <==> c in s.marked || c in s.taken || c in s.claimed
    ensures !(c in s.marked && c in s.taken) && !(c in s.marked && c in s.claimed) && !(c in s.taken && c in s.claimed)
    ensures s.claimed[c] <= 1
  {
    assert multiset(s.stored)[c] == multiset(s.marked)[c] + multiset(s.taken)[c] + s.claimed[c];
  }

  lemma ApplyInv<C>(s: Store<C>, a: Action<C>)
    requires Inv(s) && Allowed(s, a)
    ensures Inv(Apply(s, a))
  {
    var s' := Apply(s, a);
    if !a.Begin? && !a.End? {
      InvSets(s, a.cone);
    }
    forall c
      ensures multiset(s'.stored)[c] == multiset(s'.marked)[c] + multiset(s'.taken)[c] + s'.claimed[c]
    {
      InvSets(s, c);
    }
  }

  ghost predicate Follows<C>(s: Store<C>, a: Action<C>, s': Store<C>) {
    Allowed(s, a) && s' == Apply(s, a)
  }

  ghost predicate IsHistory<C>(stores: seq<Store<C>>, actions: seq<Action<C>>) {
    && |stores| == |actions| + 1 && stores[0] == Empty()
    && forall i :: 0 <= i < |actions| ==> Follows(stores[i], actions[i], stores[i + 1])
  }

  lemma Extend<C>(stores: seq<Store<C>>, actions: seq<Action<C>>, a: Action<C>, s': Store<C>)
    requires IsHistory(stores, actions) && Follows(stores[|actions|], a, s')
    ensures IsHistory(stores + [s'], actions + [a])
  {
    forall i | 0 <= i < |actions + [a]|
      ensures Follows((stores + [s'])[i], (actions + [a])[i], (stores + [s'])[i + 1])
    {
      if i < |actions| {
        assert Follows(stores[i], actions[i], stores[i + 1]);
      }
    }
  }

  lemma {:induction false} HistoryInv<C>(stores: seq<Store<C>>, actions: seq<Action<C>>, i: nat)
    requires IsHistory(stores, actions) && i <= |actions|
    ensures Inv(stores[i])
  {
    if i > 0 {
      HistoryInv(stores, actions, i - 1);
      assert Follows(stores[i - 1], actions[i - 1], stores[i]);
      ApplyInv(stores[i - 1], actions[i - 1]);
    }
  }

  /** A cone that was claimed stays stored; one that was taken stays taken. */
  lemma {:induction false} Grows<C>(stores: seq<Store<C>>, actions: seq<Action<C>>, i: nat, j: nat)
    requires IsHistory(stores, actions) && i <= j <= |actions|
    ensures stores[i].stored <= stores[j].stored && stores[i].taken <= stores[j].taken
    decreases j
  {
    if i < j {
      Grows(stores, actions, i, j - 1);
      assert Follows(stores[j - 1], actions[j - 1], stores[j]);
    }
  }

  /** Each cone is accepted once and fetched once, and only after it was accepted and marked. */
  lemma OnceEach<C>(stores: seq<Store<C>>, actions: seq<Action<C>>, i: nat, j: nat, c: C)
    requires IsHistory(stores, actions) && i < j < |actions|
    ensures !(actions[i] == Claim(c) && actions[j] == Claim(c))
    ensures !(actions[i] == Take(c) && actions[j] == Take(c))
    ensures !(actions[i] == Mark(c) && actions[j] == Mark(c))
    ensures !(actions[i] == Take(c) && actions[j] == Mark(c))
    ensures !(actions[i] == Mark(c) && actions[j] == Claim(c))
  {
    Grows(stores, actions, i + 1, j);
    assert Follows(stores[i], actions[i], stores[i + 1]) && Follows(stores[j], actions[j], stores[j + 1]);
    HistoryInv(stores, actions, i);
    HistoryInv(stores, actions, i + 1);
    HistoryInv(stores, actions, j);
    InvSets(stores[i], c);
    InvSets(stores[i + 1], c);
    InvSets(stores[j], c);
    if actions[i] == Mark(c) {
      NotClaimedAgain(stores, actions, i + 1, j, c);
    }
  }

  lemma {:induction false} NotClaimedAgain<C>(stores: seq<Store<C>>, actions: seq<Action<C>>, i: nat, j: nat, c: C)
    requires IsHistory(stores, actions) && i <= j <= |actions| && c in stores[i].stored && c !in stores[i].claimed
    ensures c in stores[j].stored && c !in stores[j].claimed
    decreases j
  {
    if i < j {
      NotClaimedAgain(stores, actions, i, j - 1, c);
      assert Follows(stores[j - 1], actions[j - 1], stores[j]);
    }
  }

  /** A fetch has no more cones than asked for, and each of them once. */
  ghost predicate WithinSize<C>(s: Store<C>) {
    s.fetch.Some? ==>
      && Distinct(s.fetch.value.cones)
      && (s.fetch.value.cones == [] || |s.fetch.value.cones| <= s.fetch.value.size)
  }

  /** When a fetch ends it has all it was asked for, or nothing is left that was marked when it began. */
  lemma {:induction false} FetchOfHistory<C>(stores: seq<Store<C>>, actions: seq<Action<C>>, i: nat)
    requires IsHistory(stores, actions) && i <= |actions|
    ensures WithinSize(stores[i])
    ensures i < |actions| && actions[i] == End ==>
              && stores[i].fetch.Some?
              && (|stores[i].fetch.value.cones| >= stores[i].fetch.value.size
                  || forall c :: c in stores[i].fetch.value.start ==> c !in stores[i].marked)
  {
    if i < |actions| {
      assert Follows(stores[i], actions[i], stores[i + 1]);
    }
    if i > 0 {
      FetchOfHistory(stores, actions, i - 1);
      HistoryInv(stores, actions, i - 1);
      assert Follows(stores[i - 1], actions[i - 1], stores[i]);
      if actions[i - 1].Take? {
        InvSets(stores[i - 1], actions[i - 1].cone);
      }
    }
  }

  // ---------- A fetch in one go ----------

  /** At most `size` different marked cones, all of them if fewer are returned, move to the taken ones. */
  ghost predicate IsFetch<C>(s: Store<C>, size: nat, cones: seq<C>, s': Store<C>) {
    && Distinct(cones) && |cones| <= size
    && (forall c :: c in cones ==> c in s.marked)
    && (|cones| < size ==> forall c :: c in s.marked ==> c in cones)
    && s' == s.(marked := s.marked - Members(cones), taken := s.taken + Members(cones))
  }

  ghost function Members<C>(cones: seq<C>): set<C> {
    set c | c in cones
  }

  ghost function AfterTakes<C>(s: Store<C>, size: nat, cones: seq<C>): Store<C> {
    s.(marked := s.marked - Members(cones), taken := s.taken + Members(cones), fetch := Some(Fetch(size, s.marked, cones)))
  }

  /** Such a fetch is a `Begin`, one `Take` per cone, and an `End`. */
  lemma FetchIsActions<C>(s: Store<C>, size: nat, cones: seq<C>, s': Store<C>)
    requires s.fetch == None && IsFetch(s, size, cones, s')
    ensures Follows(s, Begin(size), AfterTakes(s, size, []))
    ensures forall k :: 0 <= k < |cones| ==>
              Follows(AfterTakes(s, size, cones[..k]), Take(cones[k]), AfterTakes(s, size, cones[..k + 1]))
    ensures Follows(AfterTakes(s, size, cones), End, s')
  {
    assert Members<C>([]) == {};
    forall k | 0 <= k < |cones|
      ensures Follows(AfterTakes(s, size, cones[..k]), Take(cones[k]), AfterTakes(s, size, cones[..k + 1]))
    {
      assert cones[..k + 1] == cones[..k] + [cones[k]];
      assert Members(cones[..k + 1]) == Members(cones[..k]) + {cones[k]};
      assert cones[k] !in cones[..k];
    }
  }
}
