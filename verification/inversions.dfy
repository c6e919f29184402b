/** Disorder of a visualised array: its inversion count, and lists of
    exchanges each of which swaps an adjacent, strictly inverted pair. */
module Inversions {
  import opened Visualised

  /** Number of entries of `rest` whose key is strictly smaller than `x`'s. */
  function Exceeded<C>(x: Entry<C>, rest: seq<Entry<C>>): nat
    decreases |rest|
  {
    if rest == [] then 0
    else (if rest[0].key < x.key then 1 else 0) + Exceeded(x, rest[1..])
  }

  /** Number of index pairs i < j with a[i].key > a[j].key. */
  function InversionCount<C>(a: seq<Entry<C>>): nat
    decreases |a|
  {
    if a == [] then 0 else Exceeded(a[0], a[1..]) + InversionCount(a[1..])
  }

  /** `s` exchanges two neighbouring slots whose keys are strictly out of order. */
  predicate FixesInversion<C>(a: seq<Entry<C>>, s: Swap) {
    var lo := if s.first < s.second then s.first else s.second;
    && InBounds(s, |a|)
    && (s.second == s.first + 1 || s.first == s.second + 1)
    && a[lo].key > a[lo + 1].key
  }

  /** Every exchange of `swaps`, applied in order from `a`, fixes an inversion. */
  predicate Untangles<C>(a: seq<Entry<C>>, swaps: seq<Swap>)
    decreases |swaps|
  {
    swaps == [] || (FixesInversion(a, swaps[0]) && Untangles(Apply(a, swaps[0]), swaps[1..]))
  }

  lemma {:induction false} ExceededZero<C>(x: Entry<C>, rest: seq<Entry<C>>)
    ensures Exceeded(x, rest) == 0 <==> forall k :: 0 <= k < |rest| ==> x.key <= rest[k].key
    decreases |rest|
  {
    if rest != [] {
      ExceededZero(x, rest[1..]);
      assert forall k :: 1 <= k < |rest| ==> rest[1..][k - 1] == rest[k];
    }
  }

  lemma {:induction false} ExceededAll<C>(x: Entry<C>, rest: seq<Entry<C>>)
    requires forall k :: 0 <= k < |rest| ==> rest[k].key < x.key
    ensures Exceeded(x, rest) == |rest|
    decreases |rest|
  {
    if rest != [] {
      ExceededAll(x, rest[1..]);
    }
  }

  /** Exchanging two neighbours of `rest` does not change how many of them are below `x`. */
  lemma {:induction false} ExceededSwapInvariant<C>(x: Entry<C>, v: seq<Entry<C>>, lo: nat)
    requires lo + 1 < |v|
    ensures Exceeded(x, Permutate(v, lo, lo + 1)) == Exceeded(x, v)
    decreases lo
  {
    var w := Permutate(v, lo, lo + 1);
    if lo == 0 {
      assert w[1..][1..] == v[1..][1..];
    } else {
      assert w[1..] == Permutate(v[1..], lo - 1, lo);
      ExceededSwapInvariant(x, v[1..], lo - 1);
    }
  }

  /** Exchanging an adjacent, strictly inverted pair removes exactly one inversion. */
  lemma {:induction false} AdjacentSwapInversions<C>(a: seq<Entry<C>>, lo: nat)
    requires lo + 1 < |a| && a[lo].key > a[lo + 1].key
    ensures InversionCount(Permutate(a, lo, lo + 1)) + 1 == InversionCount(a)
    decreases lo
  {
    var b := Permutate(a, lo, lo + 1);
    if lo == 0 {
      assert b[1..][1..] == a[1..][1..];
    } else {
      assert b[1..] == Permutate(a[1..], lo - 1, lo);
      ExceededSwapInvariant(a[0], a[1..], lo - 1);
      AdjacentSwapInversions(a[1..], lo - 1);
    }
  }

  lemma FixesInversionDecrements<C>(a: seq<Entry<C>>, s: Swap)
    requires FixesInversion(a, s)
    ensures InversionCount(Apply(a, s)) + 1 == InversionCount(a)
  {
    if s.first < s.second {
      AdjacentSwapInversions(a, s.first);
    } else {
      PermutateSymmetric(a, s.first, s.second);
      AdjacentSwapInversions(a, s.second);
    }
  }

  /** A list that fixes an inversion at every step is as long as the
      inversions it removes, and stays inside the array. */
  lemma {:induction false} UntanglesCount<C>(a: seq<Entry<C>>, swaps: seq<Swap>)
    requires Untangles(a, swaps)
    ensures Within(swaps, |a|)
    ensures InversionCount(a) == |swaps| + InversionCount(Replay(a, swaps))
    decreases |swaps|
  {
    if swaps != [] {
      UntanglesCount(Apply(a, swaps[0]), swaps[1..]);
      FixesInversionDecrements(a, swaps[0]);
    }
  }

  lemma UntanglesCons<C>(a: seq<Entry<C>>, s: Swap, rest: seq<Swap>)
    requires FixesInversion(a, s) && Untangles(Apply(a, s), rest)
    ensures Untangles(a, [s] + rest)
  {
    var t := [s] + rest;
    assert t[0] == s && t[1..] == rest;
  }

  /** Two lists that each fix inversions, the second starting where the first
      ends, fix inversions when joined. */
  lemma {:induction false} UntanglesConcat<C>(a: seq<Entry<C>>, s1: seq<Swap>, s2: seq<Swap>)
    requires Untangles(a, s1) && Within(s1, |a|)
    requires Untangles(Replay(a, s1), s2)
    ensures Untangles(a, s1 + s2)
    decreases |s1|
  {
    if s1 == [] {
      assert s1 + s2 == s2;
    } else {
      var b := Apply(a, s1[0]);
      var rest := s1[1..] + s2;
      assert Untangles(b, rest) by {
        assert Within(s1[1..], |b|);
        assert Replay(a, s1) == Replay(b, s1[1..]);
        UntanglesConcat(b, s1[1..], s2);
      }
      UntanglesCons(a, s1[0], rest);
      assert s1 + s2 == [s1[0]] + rest;
    }
  }

  /** An array is sorted exactly when it has no inversion. */
  lemma {:induction false} SortedIffNoInversions<C>(a: seq<Entry<C>>)
    ensures Sorted(a) <==> InversionCount(a) == 0
    decreases |a|
  {
    if a != [] {
      SortedIffNoInversions(a[1..]);
      ExceededZero(a[0], a[1..]);
      if Sorted(a) {
        assert Sorted(a[1..]);
      }
      if InversionCount(a) == 0 {
        forall i, j | 0 <= i < j < |a|
          ensures a[i].key <= a[j].key
        {
          if i > 0 {
            assert a[1..][i - 1] == a[i] && a[1..][j - 1] == a[j];
          } else {
            assert a[1..][j - 1] == a[j];
          }
        }
      }
    }
  }

  /** A strictly decreasing array of length n has n(n-1)/2 inversions. */
  lemma {:induction false} DescendingInversions<C>(a: seq<Entry<C>>)
    requires forall i, j :: 0 <= i < j < |a| ==> a[i].key > a[j].key
    ensures 2 * InversionCount(a) == |a| * (|a| - 1)
    decreases |a|
  {
    if a != [] {
      ExceededAll(a[0], a[1..]);
      DescendingInversions(a[1..]);
    }
  }
}
