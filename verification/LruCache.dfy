/**
 * The cache of least recently used values (src/util-gitfan/lru_cache.hpp): a linked list of keys, most
 * recently used first, and a map from keys to their list node and value.  An iterator into the list is the
 * identity of the node it points at, which no other operation of the list changes.
 */
module LruCache {
  import opened Seqs

  // ---------- What a cache holds after a history of accesses ----------

  ghost function Without<K>(keys: seq<K>, k: K): (r: seq<K>) {
    if keys == [] then []
    else if keys[0] == k then Without(keys[1..], k)
    else [keys[0]] + Without(keys[1..], k)
  }

  /** The keys of a history, each once, the most recently used first. */
  ghost function Recent<K>(history: seq<K>): seq<K> {
    if history == [] then []
    else var last := history[|history| - 1];
      [last] + Without(Recent(history[..|history| - 1]), last)
  }

  ghost function Take<K>(keys: seq<K>, n: nat): seq<K> {
    if |keys| <= n then keys else keys[..n]
  }

  /** The position after the last use of a key, 0 if it was never used. */
  ghost function LastUse<K>(history: seq<K>, k: K): nat {
    if history == [] then 0
    else if history[|history| - 1] == k then |history|
    else LastUse(history[..|history| - 1], k)
  }

  lemma {:induction false} WithoutMembers<K>(keys: seq<K>, k: K)
    ensures forall x :: x in Without(keys, k) <==> x in keys && x != k
    ensures Distinct(keys) ==> Distinct(Without(keys, k))
  {
    if keys != [] {
      WithoutMembers(keys[1..], k);
      assert keys == [keys[0]] + keys[1..];
      if Distinct(keys) {
        DistinctPrepend(keys[0], Without(keys[1..], k));
      }
    }
  }

  lemma DistinctPrepend<K>(x: K, keys: seq<K>)
    requires x !in keys
    ensures Distinct(keys) ==> Distinct([x] + keys)
  {
  }

  lemma {:induction false} LastUseOfMembers<K>(history: seq<K>, k: K)
    ensures LastUse(history, k) <= |history|
    ensures LastUse(history, k) > 0 <==> k in history
    ensures LastUse(history, k) > 0 ==> history[LastUse(history, k) - 1] == k
    ensures forall i :: LastUse(history, k) <= i < |history| ==> history[i] != k
  {
    if history != [] {
      LastUseOfMembers(history[..|history| - 1], k);
    }
  }

  lemma {:induction false} RecentMembers<K>(history: seq<K>)
    ensures Distinct(Recent(history)) && forall k :: k in Recent(history) <==> k in history
  {
    if history != [] {
      var front, last := history[..|history| - 1], history[|history| - 1];
      RecentMembers(front);
      WithoutMembers(Recent(front), last);
      DistinctPrepend(last, Without(Recent(front), last));
      assert history == front + [last];
    }
  }

  ghost predicate ByLastUse<K>(history: seq<K>, keys: seq<K>) {
    forall i, j :: 0 <= i < j < |keys| ==> LastUse(history, keys[i]) > LastUse(history, keys[j])
  }

  lemma {:induction false} WithoutKeepsOrder<K>(history: seq<K>, keys: seq<K>, k: K)
    requires ByLastUse(history, keys)
    ensures ByLastUse(history, Without(keys, k))
  {
    if keys != [] {
      assert ByLastUse(history, keys[1..]);
      WithoutKeepsOrder(history, keys[1..], k);
      WithoutMembers(keys[1..], k);
      var w := Without(keys[1..], k);
      forall j | 0 <= j < |w|
        ensures LastUse(history, keys[0]) > LastUse(history, w[j])
      {
        var i := WithoutMember(keys[1..], k, j);
        assert keys[i + 1] == w[j];
      }
    }
  }

  lemma {:induction false} WithoutMember<K>(keys: seq<K>, k: K, j: nat) returns (i: nat)
    requires j < |Without(keys, k)|
    ensures i < |keys| && keys[i] == Without(keys, k)[j]
  {
    if keys[0] == k {
      i := WithoutMember(keys[1..], k, j);
      i := i + 1;
    } else if j == 0 {
      i := 0;
    } else {
      i := WithoutMember(keys[1..], k, j - 1);
      i := i + 1;
    }
  }

  /** `Recent` orders the keys by their last use. */
  lemma {:induction false} RecentByLastUse<K>(history: seq<K>)
    ensures ByLastUse(history, Recent(history))
  {
    if history != [] {
      var front, last := history[..|history| - 1], history[|history| - 1];
      RecentByLastUse(front);
      WithoutKeepsOrder(front, Recent(front), last);
      WithoutMembers(Recent(front), last);
      forall i, j | 0 <= i < j < |Recent(history)|
        ensures LastUse(history, Recent(history)[i]) > LastUse(history, Recent(history)[j])
      {
        LaterKey(history, Recent(history), i);
        LaterKey(history, Recent(history), j);
      }
    }
  }

  lemma LaterKey<K>(history: seq<K>, keys: seq<K>, i: nat)
    requires history != [] && keys == Recent(history) && i < |keys|
    ensures var front := history[..|history| - 1];
      if i == 0 then LastUse(history, keys[i]) == |history|
      else LastUse(history, keys[i]) == LastUse(front, keys[i]) <= |front|
           && keys[i] == Without(Recent(front), history[|history| - 1])[i - 1]
  {
    var front, last := history[..|history| - 1], history[|history| - 1];
    if i > 0 {
      WithoutMembers(Recent(front), last);
      assert keys[i] in Without(Recent(front), last);
      LastUseOfMembers(front, keys[i]);
    }
  }

  /**
   * The first `n` keys of `Recent` are the `n` most recently used: a key of the history is among them if and
   * only if fewer than `n` different keys were used after its last use.
   */
  lemma MostRecentlyUsed<K>(history: seq<K>, n: nat, k: K)
    requires k in history
    ensures k in Take(Recent(history), n) <==> |UsedAfter(history, k)| < n
  {
    RecentMembers(history);
    RecentByLastUse(history);
    var keys := Recent(history);
    var i :| 0 <= i < |keys| && keys[i] == k;
    assert Distinct(keys[..i]);
    DistinctSize(keys[..i]);
    forall x
      ensures x in UsedAfter(history, k) <==> x in keys[..i]
    {
      if x in history {
        assert x in keys;
        var j :| 0 <= j < |keys| && keys[j] == x;
        assert x in keys[..i] <==> j < i;
      }
      if x in keys[..i] {
        assert x in keys;
      }
    }
    assert UsedAfter(history, k) == set x | x in keys[..i];
    assert k in Take(keys, n) <==> i < n;
  }

  ghost function UsedAfter<K>(history: seq<K>, k: K): set<K> {
    set x | x in history && LastUse(history, x) > LastUse(history, k)
  }

  lemma {:induction false} DistinctSize<K>(keys: seq<K>)
    requires Distinct(keys)
    ensures |set x | x in keys| == |keys|
  {
    if keys != [] {
      DistinctSize(keys[1..]);
      assert keys == [keys[0]] + keys[1..];
      assert (set x | x in keys) == (set x | x in keys[1..]) + {keys[0]};
    }
  }

  lemma {:induction false} WithoutAt<K>(keys: seq<K>, i: nat)
    requires Distinct(keys) && i < |keys|
    ensures Without(keys, keys[i]) == keys[..i] + keys[i + 1..]
    decreases |keys|
  {
    if i == 0 {
      WithoutAbsent(keys[1..], keys[0]);
    } else {
      WithoutAt(keys[1..], i - 1);
    }
  }

  lemma {:induction false} WithoutAbsent<K>(keys: seq<K>, k: K)
    requires k !in keys
    ensures Without(keys, k) == keys
  {
    if keys != [] {
      WithoutAbsent(keys[1..], k);
    }
  }

  /** Using a cached key moves it to the front. */
  lemma Hit<K>(history: seq<K>, size: nat, k: K, i: nat)
    requires var held := Take(Recent(history), size); i < |held| && held[i] == k
    ensures var held := Take(Recent(history), size);
      Take(Recent(history + [k]), size) == [k] + held[..i] + held[i + 1..]
  {
    RecentMembers(history);
    WithoutAt(Recent(history), i);
    assert (history + [k])[..|history|] == history;
    TakeMoved(Recent(history), size, i);
  }

  lemma TakeMoved<K>(keys: seq<K>, size: nat, i: nat)
    requires i < |Take(keys, size)|
    ensures Take([keys[i]] + (keys[..i] + keys[i + 1..]), size)
         == [keys[i]] + Take(keys, size)[..i] + Take(keys, size)[i + 1..]
  {
  }

  /** Using another key puts it in front and keeps as many of the others as fit. */
  lemma Miss<K>(history: seq<K>, size: nat, k: K)
    requires size > 0 && k !in Take(Recent(history), size)
    ensures Take(Recent(history + [k]), size) == Take([k] + Take(Recent(history), size), size)
  {
    var keys := Recent(history);
    RecentMembers(history);
    assert (history + [k])[..|history|] == history;
    if k in keys {
      var i :| 0 <= i < |keys| && keys[i] == k;
      TakenEarly(keys, size);
      WithoutAt(keys, i);
      TakeLate(keys, size, i);
    } else {
      WithoutAbsent(keys, k);
    }
  }

  lemma TakeLate<K>(keys: seq<K>, size: nat, i: nat)
    requires 0 < size <= i < |keys|
    ensures Take([keys[i]] + (keys[..i] + keys[i + 1..]), size) == Take([keys[i]] + Take(keys, size), size)
  {
  }

  lemma TakenEarly<K>(keys: seq<K>, size: nat)
    ensures forall i :: 0 <= i < |keys| && i < size ==> keys[i] in Take(keys, size)
  {
    forall i | 0 <= i < |keys| && i < size
      ensures keys[i] in Take(keys, size)
    {
      assert Take(keys, size)[i] == keys[i];
    }
  }

  // ---------- The cache ----------

  /** A node of the linked list. */
  datatype Node<Key> = Node(id: nat, key: Key)

  datatype Entry<T> = Entry(position: nat, value: T)

  ghost function Keys<Key>(nodes: seq<Node<Key>>): seq<Key> {
    seq(|nodes|, i requires 0 <= i < |nodes| => nodes[i].key)
  }

  ghost predicate Holds<Key>(lru: seq<Node<Key>>, k: Key) {
    exists i :: 0 <= i < |lru| && lru[i].key == k
  }

  ghost predicate PointedAt<Key, T>(lru: seq<Node<Key>>, values: map<Key, Entry<T>>, i: int)
    requires 0 <= i < |lru|
  {
    lru[i].key in values && values[lru[i].key].position == lru[i].id
  }

  /** List and map have the same keys, and every entry points at its own key's node. */
  ghost predicate Linked<Key, T>(lru: seq<Node<Key>>, values: map<Key, Entry<T>>) {
    && (forall i :: 0 <= i < |lru| ==> PointedAt(lru, values, i))
    && (forall i, j :: 0 <= i < j < |lru| ==> lru[i].id != lru[j].id)
    && (forall k :: k in values ==> Holds(lru, k))
  }

  ghost predicate IdsBelow<Key>(lru: seq<Node<Key>>, bound: nat) {
    forall i :: 0 <= i < |lru| ==> lru[i].id < bound
  }

  lemma HoldsKeys<Key>(lru: seq<Node<Key>>, k: Key)
    ensures Holds(lru, k) <==> k in Keys(lru)
  {
    if Holds(lru, k) {
      var i :| 0 <= i < |lru| && lru[i].key == k;
      assert Keys(lru)[i] == k;
    }
    if k in Keys(lru) {
      var i :| 0 <= i < |Keys(lru)| && Keys(lru)[i] == k;
      assert lru[i].key == k;
    }
  }

  lemma CachedIffHeld<Key, T>(lru: seq<Node<Key>>, values: map<Key, Entry<T>>, k: Key)
    requires Linked(lru, values)
    ensures k in values <==> k in Keys(lru)
    ensures k in values <==> Holds(lru, k)
  {
    HoldsKeys(lru, k);
    if Holds(lru, k) {
      var i :| 0 <= i < |lru| && lru[i].key == k;
      assert PointedAt(lru, values, i);
    }
  }

  lemma HoldsConcat<Key>(a: seq<Node<Key>>, b: seq<Node<Key>>, k: Key)
    ensures Holds(a + b, k) <==> Holds(a, k) || Holds(b, k)
  {
    if Holds(a, k) {
      var i :| 0 <= i < |a| && a[i].key == k;
      assert (a + b)[i].key == k;
    }
    if Holds(b, k) {
      var i :| 0 <= i < |b| && b[i].key == k;
      assert (a + b)[|a| + i].key == k;
    }
  }

  lemma LinkNew<Key, T>(lru: seq<Node<Key>>, values: map<Key, Entry<T>>, node: Node<Key>, value: T)
    requires Linked(lru, values) && node.key !in values && forall i :: 0 <= i < |lru| ==> lru[i].id != node.id
    ensures Linked([node] + lru, values[node.key := Entry(node.id, value)])
  {
    var lru', values' := [node] + lru, values[node.key := Entry(node.id, value)];
    forall i | 0 <= i < |lru'|
      ensures PointedAt(lru', values', i)
    {
      assert i > 0 ==> PointedAt(lru, values, i - 1);
    }
    forall k | k in values || k == node.key
      ensures Holds([node] + lru, k)
    {
      HoldsConcat([node], lru, k);
      assert [node][0].key == node.key;
    }
  }

  lemma Relink<Key, T>(lru: seq<Node<Key>>, values: map<Key, Entry<T>>, i: nat, id: nat)
    requires Linked(lru, values) && i < |lru| && PointedAt(lru, values, i) && forall j :: 0 <= j < |lru| ==> lru[j].id != id
    ensures var k := lru[i].key;
      Linked([Node(id, k)] + (lru[..i] + lru[i + 1..]), values[k := values[k].(position := id)])
  {
    var k := lru[i].key;
    assert PointedAt(lru, values, i);
    Unlink(lru, values, i);
    LinkNew(lru[..i] + lru[i + 1..], values - {k}, Node(id, k), values[k].value);
    assert (values - {k})[k := Entry(id, values[k].value)] == values[k := values[k].(position := id)];
  }

  lemma OtherKey<Key, T>(lru: seq<Node<Key>>, values: map<Key, Entry<T>>, i: nat, j: nat)
    requires Linked(lru, values) && i < |lru| && j < |lru| && i != j
    ensures lru[j].key != lru[i].key && PointedAt(lru, values, j)
  {
    assert PointedAt(lru, values, i) && PointedAt(lru, values, j);
  }

  lemma Unlink<Key, T>(lru: seq<Node<Key>>, values: map<Key, Entry<T>>, i: nat)
    requires Linked(lru, values) && i < |lru|
    ensures Linked(lru[..i] + lru[i + 1..], values - {lru[i].key})
  {
    var rest := lru[..i] + lru[i + 1..];
    forall k | k in values && k != lru[i].key
      ensures Holds(rest, k)
    {
      assert lru == lru[..i] + [lru[i]] + lru[i + 1..];
      HoldsConcat(lru[..i] + [lru[i]], lru[i + 1..], k);
      HoldsConcat(lru[..i], [lru[i]], k);
      HoldsConcat(lru[..i], lru[i + 1..], k);
    }
    forall j | 0 <= j < |rest|
      ensures rest[j] == lru[if j < i then j else j + 1] && PointedAt(rest, values - {lru[i].key}, j)
    {
      OtherKey(lru, values, i, if j < i then j else j + 1);
    }
  }

  lemma KeysMoved<Key>(lru: seq<Node<Key>>, i: nat, node: Node<Key>)
    requires i < |lru|
    ensures Keys([node] + (lru[..i] + lru[i + 1..])) == [node.key] + Keys(lru)[..i] + Keys(lru)[i + 1..]
  {
  }

  lemma KeysPrepended<Key>(lru: seq<Node<Key>>, node: Node<Key>)
    ensures Keys([node] + lru) == [node.key] + Keys(lru)
  {
  }

  lemma KeysCut<Key>(lru: seq<Node<Key>>)
    requires lru != []
    ensures Keys(lru[..|lru| - 1]) == Keys(lru)[..|lru| - 1]
  {
  }

  class LRUCache<Key(==, !new), T(!new)> {
    const size: nat
    var lru: seq<Node<Key>>
    var values: map<Key, Entry<T>>
    var freshId: nat             // identity of the next node
    ghost var history: seq<Key>   // every key asked for so far

    /** The list holds the most recently used keys in order, and every entry points at its key's node. */
    ghost predicate Valid()
      reads this
    {
      && Keys(lru) == Take(Recent(history), size)
      && Linked(lru, values)
      && IdsBelow(lru, freshId)
    }

    /** Every cached value is what `factory` makes of its key. */
    ghost predicate MadeBy(factory: Key -> T)
      reads this
    {
      forall k :: k in values ==> values[k].value == factory(k)
    }

    constructor (size: nat)
      ensures Valid() && this.size == size && history == [] && values == map[]
    {
      this.size := size;
      lru, values, freshId, history := [], map[], 0, [];
    }

    method PushFront(key: Key)
      modifies this`lru, this`freshId
      ensures lru == [Node(old(freshId), key)] + old(lru) && freshId == old(freshId) + 1
    {
      lru := [Node(freshId, key)] + lru;
      freshId := freshId + 1;
    }

    /** Removes the node an iterator points at. */
    method Erase(position: nat, ghost i: nat)
      requires i < |lru| && lru[i].id == position
      requires forall j, k :: 0 <= j < k < |lru| ==> lru[j].id != lru[k].id
      modifies this`lru
      ensures lru == old(lru)[..i] + old(lru)[i + 1..]
    {
      var j := 0;
      while lru[j].id != position
        invariant 0 <= j <= i
        decreases i - j
      {
        j := j + 1;
      }
      lru := lru[..j] + lru[j + 1..];
    }

    /** Adds a key that is not cached, in front. */
    method AddFront(key: Key, value: T)
      requires Linked(lru, values) && key !in values && IdsBelow(lru, freshId)
      modifies this`lru, this`values, this`freshId
      ensures Linked(lru, values) && IdsBelow(lru, freshId)
      ensures |lru| == |old(lru)| + 1 && Keys(lru) == [key] + old(Keys(lru))
      ensures values.Keys == old(values).Keys + {key} && values[key].value == value
      ensures forall k :: k in old(values) ==> values[k] == old(values)[k]
    {
      PushFront(key);
      LinkNew(old(lru), values, lru[0], value);
      KeysPrepended(old(lru), lru[0]);
      values := values[key := Entry(lru[0].id, value)];
    }

    /** The branch for a key that is not cached. */
    method Insert(key: Key, factory: Key -> T) returns (result: T)
      requires Linked(lru, values) && |lru| <= size && 0 < size && key !in values && IdsBelow(lru, freshId)
      modifies this`lru, this`values, this`freshId
      ensures Keys(lru) == Take([key] + old(Keys(lru)), size) && Linked(lru, values) && IdsBelow(lru, freshId)
      ensures result == factory(key)
      ensures forall k :: k in values ==>
                values[k].value == if k in old(values) then old(values)[k].value else factory(k)
    {
      AddFront(key, factory(key));
      result := values[key].value;
      if |lru| > size {
        EvictLast();
      }
    }

    /** Forgets the least recently used key. */
    method EvictLast()
      requires Linked(lru, values) && lru != []
      modifies this`lru, this`values
      ensures Linked(lru, values) && lru == old(lru)[..|old(lru)| - 1]
      ensures forall bound :: IdsBelow(old(lru), bound) ==> IdsBelow(lru, bound)
      ensures Keys(lru) == old(Keys(lru))[..|lru|] && values == old(values) - {old(lru)[|lru|].key}
    {
      Unlink(lru, values, |lru| - 1);
      KeysCut(lru);
      assert lru[..|lru| - 1] + lru[|lru|..] == lru[..|lru| - 1];
      values := values - {lru[|lru| - 1].key};
      lru := lru[..|lru| - 1];
    }

    /** The branch for a cached key. */
    method Refresh(key: Key, ghost i: nat) returns (result: T)
      requires Linked(lru, values) && key in values && i < |lru| && lru[i].key == key
      requires IdsBelow(lru, freshId)
      modifies this`lru, this`values, this`freshId
      ensures Keys(lru) == [key] + old(Keys(lru))[..i] + old(Keys(lru))[i + 1..] && Linked(lru, values)
      ensures IdsBelow(lru, freshId)
      ensures result == old(values)[key].value
      ensures values.Keys == old(values).Keys && forall k :: k in values ==> values[k].value == old(values)[k].value
    {
      assert PointedAt(lru, values, i);
      PushFront(key);
      Relink(old(lru), values, i, lru[0].id);
      Erase(values[key].position, i + 1);
      assert lru == [lru[0]] + (old(lru)[..i] + old(lru)[i + 1..]);
      KeysMoved(old(lru), i, lru[0]);
      values := values[key := values[key].(position := lru[0].id)];
      result := values[key].value;
    }

    method Get(key: Key, factory: Key -> T) returns (result: T)
      requires Valid()
      modifies this
      ensures Valid() && history == old(history) + [key]
      ensures result == if key in old(values) then old(values)[key].value else factory(key)
      ensures forall k :: k in values ==>
                values[k].value == if k in old(values) then old(values)[k].value else factory(k)
      ensures old(MadeBy(factory)) ==> MadeBy(factory) && result == factory(key)
    {
      CachedIffHeld(lru, values, key);
      if size == 0 {
        history := history + [key];
        return factory(key);
      }
      if key !in values {
        Miss(history, size, key);
        result := Insert(key, factory);
      } else {
        ghost var i :| 0 <= i < |lru| && lru[i].key == key;
        Hit(history, size, key, i);
        result := Refresh(key, i);
      }
      history := history + [key];
    }
  }
}
