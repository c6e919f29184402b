/** The visualised array: a fixed-length sequence of (key, payload) slots, the
    exchange of two slots, and the replay of a recorded list of exchanges. The
    payload stands for the display colour; it is opaque and only travels with
    its key. */
module Visualised {

  /** One slot: the sort key and the payload that belongs to it. */
  datatype Entry<C> = Entry(key: int, payload: C)

  /** A recorded exchange of the slots at `first` and `second`. */
  datatype Swap = Swap(first: int, second: int)

  /** Non-decreasing by key (keys need not be distinct). */
  predicate Sorted<C>(a: seq<Entry<C>>) {
    forall i, j :: 0 <= i < j < |a| ==> a[i].key <= a[j].key
  }

  /** Both indices of `s` address a slot of an array of length `n`. */
  predicate InBounds(s: Swap, n: int) {
    0 <= s.first < n && 0 <= s.second < n
  }

  /** Every exchange of `swaps` stays inside the first `n` slots. */
  predicate Within(swaps: seq<Swap>, n: int) {
    forall k :: 0 <= k < |swaps| ==> InBounds(swaps[k], n)
  }

  /** Exchanges the slots at `i1` and `i2`; when they coincide nothing changes. */
  function Permutate<C>(a: seq<Entry<C>>, i1: int, i2: int): (r: seq<Entry<C>>)
    requires 0 <= i1 < |a| && 0 <= i2 < |a|
    ensures |r| == |a|
    ensures r[i1] == a[i2] && r[i2] == a[i1]
    ensures forall k :: 0 <= k < |a| && k != i1 && k != i2 ==> r[k] == a[k]
  {
    a[i1 := a[i2]][i2 := a[i1]]
  }

  /** An exchange neither adds nor loses an entry. */
  lemma PermutateMultiset<C>(a: seq<Entry<C>>, i1: int, i2: int)
    requires 0 <= i1 < |a| && 0 <= i2 < |a|
    ensures multiset(Permutate(a, i1, i2)) == multiset(a)
  {
  }

  /** The order of the two indices does not matter. */
  lemma PermutateSymmetric<C>(a: seq<Entry<C>>, i1: int, i2: int)
    requires 0 <= i1 < |a| && 0 <= i2 < |a|
    ensures Permutate(a, i1, i2) == Permutate(a, i2, i1)
  {
    assert forall k :: 0 <= k < |a| ==> Permutate(a, i1, i2)[k] == Permutate(a, i2, i1)[k];
  }

  /** Exchanging the same two slots twice restores the array. */
  lemma PermutateInvolution<C>(a: seq<Entry<C>>, i1: int, i2: int)
    requires 0 <= i1 < |a| && 0 <= i2 < |a|
    ensures Permutate(Permutate(a, i1, i2), i1, i2) == a
  {
    var b := Permutate(Permutate(a, i1, i2), i1, i2);
    assert forall k :: 0 <= k < |a| ==> b[k] == a[k];
  }

  function Apply<C>(a: seq<Entry<C>>, s: Swap): seq<Entry<C>>
    requires InBounds(s, |a|)
  {
    Permutate(a, s.first, s.second)
  }

  /** The array obtained by applying `swaps` to `a`, first to last. */
  function Replay<C>(a: seq<Entry<C>>, swaps: seq<Swap>): (r: seq<Entry<C>>)
    requires Within(swaps, |a|)
    ensures |r| == |a|
    decreases |swaps|
  {
    if swaps == [] then a
    else Replay(Apply(a, swaps[0]), swaps[1..])
  }

  /** Replaying any list of exchanges permutes the array. */
  lemma {:induction false} ReplayMultiset<C>(a: seq<Entry<C>>, swaps: seq<Swap>)
    requires Within(swaps, |a|)
    ensures multiset(Replay(a, swaps)) == multiset(a)
    decreases |swaps|
  {
    if swaps != [] {
      PermutateMultiset(a, swaps[0].first, swaps[0].second);
      ReplayMultiset(Apply(a, swaps[0]), swaps[1..]);
    }
  }

  /** Replaying two lists one after the other is replaying their concatenation. */
  lemma {:induction false} ReplayConcat<C>(a: seq<Entry<C>>, s1: seq<Swap>, s2: seq<Swap>)
    requires Within(s1, |a|) && Within(s2, |a|)
    ensures Within(s1 + s2, |a|)
    ensures Replay(a, s1 + s2) == Replay(Replay(a, s1), s2)
    decreases |s1|
  {
    if s1 != [] {
      assert (s1 + s2)[0] == s1[0];
      assert (s1 + s2)[1..] == s1[1..] + s2;
      ReplayConcat(Apply(a, s1[0]), s1[1..], s2);
    } else {
      assert s1 + s2 == s2;
    }
  }

  /** The in-place exchange the generators perform on their working copy. */
  method PermutateInPlace<C>(a: array<Entry<C>>, i1: int, i2: int)
    requires 0 <= i1 < a.Length && 0 <= i2 < a.Length
    modifies a
    ensures a[..] == Permutate(old(a[..]), i1, i2)
  {
    a[i1], a[i2] := a[i2], a[i1];
  }
}
