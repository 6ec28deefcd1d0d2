/** Small facts about sequences used as bags: removal of one occurrence, sums of weights, sums of multisets. */
module Seqs {

  datatype Option<+T> = None | Some(value: T)

  function Min(a: int, b: int): int {
    if a <= b then a else b
  }

  function RemoveAt<T>(s: seq<T>, i: nat): seq<T>
    requires i < |s|
  {
    s[..i] + s[i + 1..]
  }

  lemma RemoveAtMembers<T>(s: seq<T>, i: nat)
    requires i < |s|
    ensures forall x :: x in s <==> x == s[i] || x in RemoveAt(s, i)
  {
    assert s == s[..i] + [s[i]] + s[i + 1..];
  }

  lemma UpdateMembers<T>(s: seq<T>, i: nat, y: T)
    requires i < |s|
    ensures forall x :: x in s ==> x == s[i] || x in s[i := y]
    ensures forall x :: x in s[i := y] ==> x == y || x in s
    ensures y in s[i := y]
  {
    assert s == s[..i] + [s[i]] + s[i + 1..];
    assert s[i := y] == s[..i] + [y] + s[i + 1..];
  }

  ghost predicate Distinct<T>(s: seq<T>) {
    forall i, j :: 0 <= i < j < |s| ==> s[i] != s[j]
  }

  ghost predicate Ascending(v: seq<int>) {
    forall i, j :: 0 <= i < j < |v| ==> v[i] < v[j]
  }

  /** An ascending list is determined by its members. */
  lemma {:induction false} SameMembersSameList(v: seq<int>, w: seq<int>)
    requires Ascending(v) && Ascending(w) && forall x :: x in v <==> x in w
    ensures v == w
    decreases |v|
  {
    if v != [] { assert v[0] in v && v[0] in w; }
    if w != [] { assert w[0] in w && w[0] in v; }
    if v != [] && w != [] {
      assert v[0] == w[0];
      RestMembers(v);
      RestMembers(w);
      SameMembersSameList(v[1..], w[1..]);
    }
  }

  lemma RestMembers(v: seq<int>)
    requires Ascending(v) && v != []
    ensures forall x :: x in v[1..] <==> x in v && x != v[0]
  {
    assert v == [v[0]] + v[1..];
  }

  lemma SplitLast<T>(s: seq<T>)
    requires s != []
    ensures s == s[..|s| - 1] + [s[|s| - 1]]
  {
  }

  /** The total weight of a sequence. */
  ghost function Sum<T>(w: T -> nat, s: seq<T>): nat {
    if s == [] then 0 else w(s[0]) + Sum(w, s[1..])
  }

  lemma {:induction false} SumConcat<T>(w: T -> nat, a: seq<T>, b: seq<T>)
    ensures Sum(w, a + b) == Sum(w, a) + Sum(w, b)
  {
    if a == [] {
      assert a + b == b;
    } else {
      assert (a + b)[1..] == a[1..] + b;
      SumConcat(w, a[1..], b);
    }
  }

  lemma SumAppend<T>(w: T -> nat, s: seq<T>, x: T)
    ensures Sum(w, s + [x]) == Sum(w, s) + w(x)
  {
    SumConcat(w, s, [x]);
    assert [x][1..] == [];
  }

  lemma SumSplit<T>(w: T -> nat, s: seq<T>, i: nat)
    requires i < |s|
    ensures Sum(w, s) == Sum(w, s[..i]) + w(s[i]) + Sum(w, s[i + 1..])
  {
    assert s == (s[..i] + [s[i]]) + s[i + 1..];
    SumConcat(w, s[..i] + [s[i]], s[i + 1..]);
    SumAppend(w, s[..i], s[i]);
  }

  lemma SumRemove<T>(w: T -> nat, s: seq<T>, i: nat)
    requires i < |s|
    ensures Sum(w, RemoveAt(s, i)) + w(s[i]) == Sum(w, s)
  {
    SumSplit(w, s, i);
    SumConcat(w, s[..i], s[i + 1..]);
  }

  lemma SumUpdate<T>(w: T -> nat, s: seq<T>, i: nat, y: T)
    requires i < |s|
    ensures Sum(w, s[i := y]) + w(s[i]) == Sum(w, s) + w(y)
  {
    SumSplit(w, s, i);
    SumSplit(w, s[i := y], i);
    assert s[i := y][..i] == s[..i] && s[i := y][i + 1..] == s[i + 1..];
  }

  /** The union, with multiplicities, of the bags of a sequence's elements. */
  ghost function Bag<T, B>(f: T -> multiset<B>, s: seq<T>): multiset<B> {
    if s == [] then multiset{} else f(s[0]) + Bag(f, s[1..])
  }

  lemma {:induction false} BagConcat<T, B>(f: T -> multiset<B>, a: seq<T>, b: seq<T>)
    ensures Bag(f, a + b) == Bag(f, a) + Bag(f, b)
  {
    if a == [] {
      assert a + b == b;
    } else {
      assert (a + b)[1..] == a[1..] + b;
      BagConcat(f, a[1..], b);
    }
  }

  lemma BagAppend<T, B>(f: T -> multiset<B>, s: seq<T>, x: T)
    ensures Bag(f, s + [x]) == Bag(f, s) + f(x)
  {
    BagConcat(f, s, [x]);
    assert [x][1..] == [];
  }

  lemma BagSplit<T, B>(f: T -> multiset<B>, s: seq<T>, i: nat)
    requires i < |s|
    ensures Bag(f, s) == Bag(f, s[..i]) + f(s[i]) + Bag(f, s[i + 1..])
  {
    assert s == (s[..i] + [s[i]]) + s[i + 1..];
    BagConcat(f, s[..i] + [s[i]], s[i + 1..]);
    BagAppend(f, s[..i], s[i]);
  }

  lemma BagRemove<T, B>(f: T -> multiset<B>, s: seq<T>, i: nat)
    requires i < |s|
    ensures Bag(f, RemoveAt(s, i)) + f(s[i]) == Bag(f, s)
  {
    BagSplit(f, s, i);
    BagConcat(f, s[..i], s[i + 1..]);
  }

  lemma BagUpdate<T, B>(f: T -> multiset<B>, s: seq<T>, i: nat, y: T)
    requires i < |s|
    ensures Bag(f, s[i := y]) + f(s[i]) == Bag(f, s) + f(y)
  {
    BagSplit(f, s, i);
    BagSplit(f, s[i := y], i);
    assert s[i := y][..i] == s[..i] && s[i := y][i + 1..] == s[i + 1..];
  }

  /** The union does not depend on the order. */
  lemma {:induction false} BagOfPermutation<T, B>(f: T -> multiset<B>, a: seq<T>, b: seq<T>)
    requires multiset(a) == multiset(b)
    ensures Bag(f, a) == Bag(f, b)
  {
    if a == [] {
      assert |multiset(b)| == |b|;
    } else {
      var x := a[0];
      assert x in multiset(b);
      var i :| 0 <= i < |b| && b[i] == x;
      var rest := RemoveAt(b, i);
      assert a == [x] + a[1..];
      assert b == b[..i] + [x] + b[i + 1..];
      assert multiset(a[1..]) == multiset(a) - multiset{x};
      assert multiset(rest) == multiset(b) - multiset{x};
      BagOfPermutation(f, a[1..], rest);
      BagRemove(f, b, i);
    }
  }

  lemma Cancel<T>(a: multiset<T>, b: multiset<T>, x: multiset<T>)
    requires a + x == b + x
    ensures a == b
  {
    forall c
      ensures a[c] == b[c]
    {
      assert (a + x)[c] == (b + x)[c];
    }
  }
}
