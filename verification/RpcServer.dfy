/** The storage behind the remote procedure calls (src/storage/rpc/server.cpp); each handler runs alone. */
module RpcServer {
  import opened Seqs
  import opened StorageContract

  datatype Fetched<C> = Cones(cones: seq<C>) | DoubleMove

  class Server<C(==, !new)> {
    var marked: set<C>
    var unmarked: set<C>
    var pendingMarked: seq<C>

    ghost predicate Valid()
      reads this
    {
      marked !! unmarked
    }

    ghost function Contents(): Store<C>
      reads this
    {
      Store(marked + unmarked, marked, multiset{}, unmarked, None)
    }

    constructor ()
      ensures Valid() && Contents() == Empty() && pendingMarked == []
    {
      marked, unmarked, pendingMarked := {}, {}, [];
    }

    /** A cone is added if and only if it is new; the log gets every cone that is not unmarked yet. */
    method Put(cone: C) returns (added: bool)
      requires Valid()
      modifies this
      ensures Valid() && unmarked == old(unmarked)
      ensures pendingMarked == old(pendingMarked) + if cone in old(unmarked) then [] else [cone]
      ensures if added
              then && Allowed(old(Contents()), Claim(cone))
                   && Follows(Apply(old(Contents()), Claim(cone)), Mark(cone), Contents())
              else Follows(old(Contents()), Known(cone), Contents())
    {
      if cone !in unmarked {
        pendingMarked := pendingMarked + [cone];
        added := cone !in marked;
        marked := marked + {cone};
      } else {
        added := false;
      }
    }

    /** The error cannot happen, and the cones are one whole fetch of the contract. */
    method Get(n: nat) returns (r: Fetched<C>)
      requires Valid()
      modifies this`marked, this`unmarked
      ensures Valid() && r.Cones? && IsFetch(old(Contents()), n, r.cones, Contents())
    {
      var cones: seq<C> := [];
      var left := n;
      while marked != {} && left > 0
        invariant Valid() && |cones| + left == n && Distinct(cones)
        invariant Members(cones) <= old(marked)
        invariant marked == old(marked) - Members(cones) && unmarked == old(unmarked) + Members(cones)
        decreases left
      {
        left := left - 1;
        var cone :| cone in marked;
        if cone in unmarked {
          return DoubleMove;
        }
        assert cone !in cones by {
          assert cone !in Members(cones);
        }
        unmarked := unmarked + {cone};
        MembersAppend(cones, cone);
        cones := cones + [cone];
        marked := marked - {cone};
      }
      r := Cones(cones);
      assert forall c :: c in cones <==> c in Members(cones);
      assert Contents().stored == old(Contents()).stored;
    }

    /** What is saved: every cone ever added, once. */
    method Save() returns (lines: seq<C>)
      requires Valid()
      ensures Distinct(lines) && Members(lines) == Contents().stored
    {
      lines := Append([], marked);
      lines := Append(lines, unmarked);
    }
  }

  /** Writes the elements of a set after some others. */
  method Append<C(==, !new)>(before: seq<C>, cones: set<C>) returns (lines: seq<C>)
    requires Distinct(before) && Members(before) !! cones
    ensures Distinct(lines) && Members(lines) == Members(before) + cones
  {
    lines := before;
    var rest := cones;
    while rest != {}
      invariant rest <= cones && Distinct(lines) && Members(lines) == Members(before) + (cones - rest)
      decreases |rest|
    {
      var cone :| cone in rest;
      MembersAppend(lines, cone);
      lines := lines + [cone];
      rest := rest - {cone};
    }
  }

  lemma MembersAppend<C>(cones: seq<C>, cone: C)
    ensures Members(cones + [cone]) == Members(cones) + {cone}
    ensures Distinct(cones) && cone !in Members(cones) ==> Distinct(cones + [cone])
  {
    if cone !in Members(cones) {
      assert cone !in cones;
    }
  }
}
