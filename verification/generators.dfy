/** The two swap-list generators. Each copies the array, sorts the copy by key
    with adjacent exchanges, and records every exchange it makes, in order.

    The pure functions follow the two nested loops of each generator, one
    function per loop; the methods are the loops themselves, running on a
    working-copy array, and are proved to return what the functions define. */
module Generators {
  import opened Visualised
  import opened Inversions

  /** The suffix after slot `i` is sorted. */
  predicate SortedAbove<C>(w: seq<Entry<C>>, i: int) {
    forall k, m :: 0 <= k && i < k < m < |w| ==> w[k].key <= w[m].key
  }

  /** No key at or before slot `i` exceeds a key after it. */
  predicate Partitioned<C>(w: seq<Entry<C>>, i: int) {
    forall k, m :: 0 <= k <= i < m < |w| ==> w[k].key <= w[m].key
  }

  /** Slot `j` holds a largest key of the prefix up to and including `j`. */
  predicate MaxAt<C>(w: seq<Entry<C>>, j: int)
    requires 0 <= j < |w|
  {
    forall k :: 0 <= k < j ==> w[k].key <= w[j].key
  }

  /** The first `n` slots are sorted. */
  predicate SortedPrefix<C>(w: seq<Entry<C>>, n: int) {
    forall k, m :: 0 <= k < m < n && m < |w| ==> w[k].key <= w[m].key
  }

  /** The prefix up to and including slot `i` is sorted except that the key at
      slot `j` may still be smaller than keys before it. */
  predicate SortedExcept<C>(w: seq<Entry<C>>, i: int, j: int) {
    forall k, m :: 0 <= k < m <= i && m < |w| && m != j ==> w[k].key <= w[m].key
  }

  /** Every exchange of `swaps` is an adjacent pair (j, j + step). */
  predicate Oriented(swaps: seq<Swap>, step: int) {
    forall k :: 0 <= k < |swaps| ==> swaps[k].second == swaps[k].first + step
  }

  // ---------- Bubble sort ----------

  /** Inner bubble loop for one value of `i`: `j` runs up to `i - 1`, and each
      strictly inverted pair (j, j + 1) is exchanged and recorded. */
  function BubblePass<C>(w: seq<Entry<C>>, i: int, j: int): (r: seq<Swap>)
    requires 0 <= j <= i < |w|
    ensures Within(r, i + 1)
    decreases i - j
  {
    if j == i then []
    else if w[j].key <= w[j + 1].key then BubblePass(w, i, j + 1)
    else [Swap(j, j + 1)] + BubblePass(Permutate(w, j, j + 1), i, j + 1)
  }

  /** Outer bubble loop: `i` runs from the given value down to 0 and there is
      no early exit when a pass exchanges nothing. */
  function BubblePasses<C>(w: seq<Entry<C>>, i: int): (r: seq<Swap>)
    requires -1 <= i < |w|
    ensures Within(r, |w|)
    decreases i + 1
  {
    if i < 0 then []
    else
      var pass := BubblePass(w, i, 0);
      pass + BubblePasses(Replay(w, pass), i - 1)
  }

  /** The exchanges a bubble sort of `a` records: adjacent pairs (j, j + 1),
      each strictly inverted when made, which sort `a` when replayed on it. */
  function BubbleSort<C>(a: seq<Entry<C>>): (queue: seq<Swap>)
    ensures Within(queue, |a|)
    ensures Oriented(queue, 1)
    ensures Untangles(a, queue)
    ensures Sorted(Replay(a, queue))
    ensures |queue| == InversionCount(a)
  {
    var queue := BubblePasses(a, |a| - 1);
    BubblePassesUntangle(a, |a| - 1);
    BubblePassesSorts(a, |a| - 1);
    UntanglesCount(a, queue);
    SortedIffNoInversions(Replay(a, queue));
    queue
  }

  /** Every exchange of an inner pass is (j, j + 1) and fixes an inversion. */
  lemma {:induction false} BubblePassUntangles<C>(w: seq<Entry<C>>, i: int, j: int)
    requires 0 <= j <= i < |w|
    ensures Oriented(BubblePass(w, i, j), 1)
    ensures Untangles(w, BubblePass(w, i, j))
    decreases i - j
  {
    if j < i {
      if w[j].key <= w[j + 1].key {
        BubblePassUntangles(w, i, j + 1);
      } else {
        var w' := Permutate(w, j, j + 1);
        BubblePassUntangles(w', i, j + 1);
        UntanglesCons(w, Swap(j, j + 1), BubblePass(w', i, j + 1));
      }
    }
  }

  /** Every exchange of the outer loop is (j, j + 1) and fixes an inversion. */
  lemma {:induction false} BubblePassesUntangle<C>(w: seq<Entry<C>>, i: int)
    requires -1 <= i < |w|
    ensures Oriented(BubblePasses(w, i), 1)
    ensures Untangles(w, BubblePasses(w, i))
    decreases i + 1
  {
    if i >= 0 {
      var pass := BubblePass(w, i, 0);
      var rest := BubblePasses(Replay(w, pass), i - 1);
      BubblePassUntangles(w, i, 0);
      BubblePassesUntangle(Replay(w, pass), i - 1);
      UntanglesConcat(w, pass, rest);
    }
  }

  /** Exchanging j and j + 1 below the top of the current pass keeps slot `j + 1`
      the largest so far and the prefix below the suffix. */
  lemma BubbleSwapKeeps<C>(w: seq<Entry<C>>, i: int, j: int)
    requires 0 <= j < i < |w|
    requires MaxAt(w, j) && w[j].key > w[j + 1].key
    ensures MaxAt(Permutate(w, j, j + 1), j + 1)
    ensures Partitioned(w, i) ==> Partitioned(Permutate(w, j, j + 1), i)
  {
  }

  /** One inner pass carries a largest key of the prefix to slot `i`, touches
      nothing after `i`, and keeps the prefix below the suffix. */
  lemma {:induction false} BubblePassRaisesMax<C>(w: seq<Entry<C>>, i: int, j: int)
    requires 0 <= j <= i < |w|
    requires MaxAt(w, j)
    ensures var v := Replay(w, BubblePass(w, i, j));
      && (forall m :: i < m < |w| ==> v[m] == w[m])
      && MaxAt(v, i)
      && (Partitioned(w, i) ==> Partitioned(v, i))
    decreases i - j
  {
    if j < i {
      if w[j].key <= w[j + 1].key {
        BubblePassRaisesMax(w, i, j + 1);
      } else {
        var w' := Permutate(w, j, j + 1);
        var rest := BubblePass(w', i, j + 1);
        assert ([Swap(j, j + 1)] + rest)[1..] == rest;
        BubbleSwapKeeps(w, i, j);
        BubblePassRaisesMax(w', i, j + 1);
      }
    }
  }

  /** The outer loop from `i` sorts any array whose suffix after `i` is sorted
      and lies above its prefix. */
  lemma {:induction false} BubblePassesSorts<C>(w: seq<Entry<C>>, i: int)
    requires -1 <= i < |w|
    requires SortedAbove(w, i) && Partitioned(w, i)
    ensures Sorted(Replay(w, BubblePasses(w, i)))
    decreases i + 1
  {
    if i >= 0 {
      var pass := BubblePass(w, i, 0);
      var v := Replay(w, pass);
      BubblePassRaisesMax(w, i, 0);
      assert SortedAbove(v, i - 1);
      assert Partitioned(v, i - 1);
      BubblePassesSorts(v, i - 1);
      ReplayConcat(w, pass, BubblePasses(v, i - 1));
    }
  }

  // ---------- Insertion sort ----------

  /** Inner insertion loop for one value of `i`: `j` walks from the given
      value down to 1, exchanging and recording each strictly inverted pair
      (j, j - 1). An in-order pair does not end the walk. */
  function InsertionWalk<C>(w: seq<Entry<C>>, j: int): (r: seq<Swap>)
    requires 0 <= j < |w|
    ensures Within(r, j + 1)
    decreases j
  {
    if j == 0 then []
    else if w[j - 1].key <= w[j].key then InsertionWalk(w, j - 1)
    else [Swap(j, j - 1)] + InsertionWalk(Permutate(w, j, j - 1), j - 1)
  }

  /** Outer insertion loop: `i` runs from the given value up to the last slot. */
  function InsertionPasses<C>(w: seq<Entry<C>>, i: int): (r: seq<Swap>)
    requires 0 <= i <= |w|
    ensures Within(r, |w|)
    decreases |w| - i
  {
    if i == |w| then []
    else
      var walk := InsertionWalk(w, i);
      walk + InsertionPasses(Replay(w, walk), i + 1)
  }

  /** The exchanges an insertion sort of `a` records: adjacent pairs (j, j - 1),
      each strictly inverted when made, which sort `a` when replayed on it. */
  function InsertionSort<C>(a: seq<Entry<C>>): (queue: seq<Swap>)
    ensures Within(queue, |a|)
    ensures Oriented(queue, -1)
    ensures Untangles(a, queue)
    ensures Sorted(Replay(a, queue))
    ensures |queue| == InversionCount(a)
  {
    var queue := InsertionPasses(a, 0);
    InsertionPassesUntangle(a, 0);
    InsertionPassesSorts(a, 0);
    UntanglesCount(a, queue);
    SortedIffNoInversions(Replay(a, queue));
    queue
  }

  /** Every exchange of an inner walk is (j, j - 1) and fixes an inversion. */
  lemma {:induction false} InsertionWalkUntangles<C>(w: seq<Entry<C>>, j: int)
    requires 0 <= j < |w|
    ensures Oriented(InsertionWalk(w, j), -1)
    ensures Untangles(w, InsertionWalk(w, j))
    decreases j
  {
    if j > 0 {
      if w[j - 1].key <= w[j].key {
        InsertionWalkUntangles(w, j - 1);
      } else {
        var w' := Permutate(w, j, j - 1);
        InsertionWalkUntangles(w', j - 1);
        UntanglesCons(w, Swap(j, j - 1), InsertionWalk(w', j - 1));
      }
    }
  }

  /** Every exchange of the outer loop is (j, j - 1) and fixes an inversion. */
  lemma {:induction false} InsertionPassesUntangle<C>(w: seq<Entry<C>>, i: int)
    requires 0 <= i <= |w|
    ensures Oriented(InsertionPasses(w, i), -1)
    ensures Untangles(w, InsertionPasses(w, i))
    decreases |w| - i
  {
    if i < |w| {
      var walk := InsertionWalk(w, i);
      var rest := InsertionPasses(Replay(w, walk), i + 1);
      InsertionWalkUntangles(w, i);
      InsertionPassesUntangle(Replay(w, walk), i + 1);
      UntanglesConcat(w, walk, rest);
    }
  }

  /** A walk that starts on a sorted prefix records nothing. */
  lemma {:induction false} InsertionWalkIdle<C>(w: seq<Entry<C>>, j: int)
    requires 0 <= j < |w|
    requires SortedPrefix(w, j + 1)
    ensures InsertionWalk(w, j) == []
    decreases j
  {
    if j > 0 {
      InsertionWalkIdle(w, j - 1);
    }
  }

  /** During outer iteration `i` the walk keeps `SortedExcept(w, i, j)` (see
      `InsertionWalkSorts`); once it meets an in-order pair there, the rest of
      it records nothing. */
  lemma InOrderPairEndsWalk<C>(w: seq<Entry<C>>, i: int, j: int)
    requires 0 < j <= i < |w|
    requires SortedExcept(w, i, j)
    requires w[j - 1].key <= w[j].key
    ensures InsertionWalk(w, j) == []
  {
    forall k, m | 0 <= k < m < j + 1
      ensures w[k].key <= w[m].key
    {
      if m == j && k < j - 1 {
        assert w[k].key <= w[j - 1].key;
      }
    }
    InsertionWalkIdle(w, j);
  }

  /** Exchanging the inverted pair (j, j - 1) moves the unplaced key one slot
      down and keeps the rest of the prefix sorted. */
  lemma InsertionSwapKeeps<C>(w: seq<Entry<C>>, i: int, j: int)
    requires 0 < j <= i < |w|
    requires SortedExcept(w, i, j) && w[j - 1].key > w[j].key
    ensures SortedExcept(Permutate(w, j, j - 1), i, j - 1)
  {
  }

  /** The walk from `j` finishes outer iteration `i`: the prefix up to and
      including `i` is sorted afterwards, and nothing after `i` moves. */
  lemma {:induction false} InsertionWalkSorts<C>(w: seq<Entry<C>>, i: int, j: int)
    requires 0 <= j <= i < |w|
    requires SortedExcept(w, i, j)
    ensures var v := Replay(w, InsertionWalk(w, j));
      && SortedPrefix(v, i + 1)
      && (forall m :: i < m < |w| ==> v[m] == w[m])
    decreases j
  {
    if j > 0 {
      if w[j - 1].key <= w[j].key {
        assert SortedExcept(w, i, j - 1);
        InsertionWalkSorts(w, i, j - 1);
      } else {
        var w' := Permutate(w, j, j - 1);
        var rest := InsertionWalk(w', j - 1);
        assert ([Swap(j, j - 1)] + rest)[1..] == rest;
        InsertionSwapKeeps(w, i, j);
        InsertionWalkSorts(w', i, j - 1);
      }
    }
  }

  /** The outer loop from `i` sorts any array whose first `i` slots are sorted. */
  lemma {:induction false} InsertionPassesSorts<C>(w: seq<Entry<C>>, i: int)
    requires 0 <= i <= |w|
    requires SortedPrefix(w, i)
    ensures Sorted(Replay(w, InsertionPasses(w, i)))
    decreases |w| - i
  {
    if i < |w| {
      var walk := InsertionWalk(w, i);
      var v := Replay(w, walk);
      InsertionWalkSorts(w, i, i);
      InsertionPassesSorts(v, i + 1);
      ReplayConcat(w, walk, InsertionPasses(v, i + 1));
    }
  }

  // ---------- Consequences for both generators ----------

  /** A generator records nothing exactly when its input is already sorted. */
  lemma SortedInputNoSwaps<C>(a: seq<Entry<C>>)
    ensures Sorted(a) <==> BubbleSort(a) == []
    ensures Sorted(a) <==> InsertionSort(a) == []
  {
    SortedIffNoInversions(a);
  }

  /** On the keys n, n - 1, ..., 1 each generator records n(n - 1)/2 exchanges. */
  lemma ReversedInputSwapCount<C>(a: seq<Entry<C>>)
    requires forall k :: 0 <= k < |a| ==> a[k].key == |a| - k
    ensures 2 * |BubbleSort(a)| == |a| * (|a| - 1)
    ensures 2 * |InsertionSort(a)| == |a| * (|a| - 1)
  {
    DescendingInversions(a);
  }

  /** Both generators record the same number of exchanges on every input. */
  lemma GeneratorsAgreeOnCount<C>(a: seq<Entry<C>>)
    ensures |BubbleSort(a)| == |InsertionSort(a)|
  {
  }

  /** The keys 3, 1, 4, 2: bubble sort records (0,1), (2,3), (1,2); insertion
      sort records (1,0), (3,2), (2,1); both replays give 1, 2, 3, 4. */
  lemma FourKeysExample()
    ensures var a := [Entry(3, 'a'), Entry(1, 'b'), Entry(4, 'c'), Entry(2, 'd')];
      && BubbleSort(a) == [Swap(0, 1), Swap(2, 3), Swap(1, 2)]
      && InsertionSort(a) == [Swap(1, 0), Swap(3, 2), Swap(2, 1)]
      && Replay(a, BubbleSort(a)) == [Entry(1, 'b'), Entry(2, 'd'), Entry(3, 'a'), Entry(4, 'c')]
      && Replay(a, InsertionSort(a)) == Replay(a, BubbleSort(a))
  {
    var p, q, r, t := Entry(3, 'a'), Entry(1, 'b'), Entry(4, 'c'), Entry(2, 'd');
    var a := [p, q, r, t];
    var sorted := [q, t, p, r];
    // Bubble sort: pass i = 3 exchanges (0,1) and (2,3); pass i = 2 exchanges (1,2).
    var b1, b2, b3 := [q, p, r, t], [q, p, t, r], sorted;
    assert Permutate(a, 0, 1) == b1;
    assert Permutate(b1, 2, 3) == b2;
    assert Permutate(b2, 1, 2) == b3;
    assert BubblePass(b2, 3, 3) == [];
    assert BubblePass(b1, 3, 2) == [Swap(2, 3)];
    assert BubblePass(b1, 3, 1) == [Swap(2, 3)];
    assert BubblePass(a, 3, 0) == [Swap(0, 1), Swap(2, 3)];
    assert Replay(b1, [Swap(2, 3)]) == b2;
    assert Replay(a, [Swap(0, 1), Swap(2, 3)]) == b2;
    assert BubblePass(b3, 2, 2) == [];
    assert BubblePass(b2, 2, 1) == [Swap(1, 2)];
    assert BubblePass(b2, 2, 0) == [Swap(1, 2)];
    assert Replay(b2, [Swap(1, 2)]) == b3;
    assert BubblePass(b3, 1, 1) == [];
    assert BubblePass(b3, 1, 0) == [];
    assert BubblePass(b3, 0, 0) == [];
    assert Replay(b3, []) == b3;
    assert BubblePasses(b3, -1) == [];
    assert BubblePasses(b3, 0) == [];
    assert BubblePasses(b3, 1) == [];
    assert BubblePasses(b2, 2) == [Swap(1, 2)];
    assert BubblePasses(a, 3) == [Swap(0, 1), Swap(2, 3), Swap(1, 2)];
    ReplayConcat(a, [Swap(0, 1), Swap(2, 3)], [Swap(1, 2)]);
    assert [Swap(0, 1), Swap(2, 3)] + [Swap(1, 2)] == [Swap(0, 1), Swap(2, 3), Swap(1, 2)];
    // Insertion sort: i = 1 exchanges (1,0); i = 3 exchanges (3,2) then (2,1).
    var c1, c2 := [q, p, r, t], [q, p, t, r];
    assert Permutate(a, 1, 0) == c1;
    assert Permutate(c1, 3, 2) == c2;
    assert Permutate(c2, 2, 1) == sorted;
    assert InsertionWalk(a, 0) == [];
    assert InsertionWalk(a, 1) == [Swap(1, 0)];
    assert Replay(a, [Swap(1, 0)]) == c1;
    assert InsertionWalk(c1, 0) == [];
    assert InsertionWalk(c1, 1) == [];
    assert InsertionWalk(c1, 2) == [];
    assert InsertionWalk(sorted, 0) == [];
    assert InsertionWalk(sorted, 1) == [];
    assert InsertionWalk(c2, 2) == [Swap(2, 1)];
    assert InsertionWalk(c1, 3) == [Swap(3, 2), Swap(2, 1)];
    assert Replay(c2, [Swap(2, 1)]) == sorted;
    assert Replay(c1, [Swap(3, 2), Swap(2, 1)]) == sorted;
    assert Replay(c1, []) == c1;
    assert InsertionPasses(sorted, 4) == [];
    assert InsertionPasses(c1, 3) == [Swap(3, 2), Swap(2, 1)];
    assert InsertionPasses(c1, 2) == [Swap(3, 2), Swap(2, 1)];
    assert InsertionPasses(a, 1) == [Swap(1, 0), Swap(3, 2), Swap(2, 1)];
    assert InsertionPasses(a, 0) == [Swap(1, 0), Swap(3, 2), Swap(2, 1)];
    ReplayConcat(a, [Swap(1, 0)], [Swap(3, 2), Swap(2, 1)]);
  }

  // ---------- The generators as loops over a working copy ----------

  /** One iteration of the inner bubble loop keeps the loop's relation to
      the whole pass: what is recorded plus what remains is the pass, and the
      remaining exchanges lead to the same array. */
  lemma BubbleStepKeeps<C>(queue: seq<Swap>, c: seq<Entry<C>>, i: int, j: int,
                           pass: seq<Swap>, passed: seq<Entry<C>>)
    requires 0 <= j < i < |c|
    requires queue + BubblePass(c, i, j) == pass
    requires Replay(c, BubblePass(c, i, j)) == passed
    ensures var inverted := c[j].key > c[j + 1].key;
      var queue' := if inverted then queue + [Swap(j, j + 1)] else queue;
      var c' := if inverted then Permutate(c, j, j + 1) else c;
      && queue' + BubblePass(c', i, j + 1) == pass
      && Replay(c', BubblePass(c', i, j + 1)) == passed
  {
    if c[j].key > c[j + 1].key {
      var c' := Permutate(c, j, j + 1);
      var rest := BubblePass(c', i, j + 1);
      assert BubblePass(c, i, j) == [Swap(j, j + 1)] + rest;
      assert ([Swap(j, j + 1)] + rest)[1..] == rest;
      assert queue + [Swap(j, j + 1)] + rest == queue + ([Swap(j, j + 1)] + rest);
    }
  }

  /** The inner bubble loop on the working copy: `j` runs from 0 up to
      `i - 1`, pushing each exchange it makes. */
  method BubbleInner<C>(copy: array<Entry<C>>, i: int, queue: seq<Swap>) returns (pushed: seq<Swap>)
    requires 0 <= i < copy.Length
    modifies copy
    ensures pushed == queue + BubblePass(old(copy[..]), i, 0)
    ensures copy[..] == Replay(old(copy[..]), BubblePass(old(copy[..]), i, 0))
  {
    ghost var start := copy[..];
    pushed := queue;
    var j := 0;
    while j < i
      invariant 0 <= j <= i
      invariant pushed + BubblePass(copy[..], i, j) == queue + BubblePass(start, i, 0)
      invariant Replay(copy[..], BubblePass(copy[..], i, j)) == Replay(start, BubblePass(start, i, 0))
      decreases i - j
    {
      BubbleStepKeeps(pushed, copy[..], i, j, queue + BubblePass(start, i, 0),
                      Replay(start, BubblePass(start, i, 0)));
      if copy[j].key > copy[j + 1].key {
        PermutateInPlace(copy, j, j + 1);
        pushed := pushed + [Swap(j, j + 1)];
      }
      j := j + 1;
    }
  }

  /** One iteration of the outer bubble loop keeps the loop's relation to the
      whole swap list. */
  lemma BubbleOuterKeeps<C>(queue: seq<Swap>, c: seq<Entry<C>>, i: int, total: seq<Swap>)
    requires 0 <= i < |c|
    requires queue + BubblePasses(c, i) == total
    ensures var pass := BubblePass(c, i, 0);
      (queue + pass) + BubblePasses(Replay(c, pass), i - 1) == total
  {
    var pass := BubblePass(c, i, 0);
    assert BubblePasses(c, i) == pass + BubblePasses(Replay(c, pass), i - 1);
  }

  /** The bubble-sort generator: a fresh queue, a copy of the snapshot sorted
      in place, every exchange pushed in order. */
  method GenerateBubbleSort<C>(snapshot: seq<Entry<C>>) returns (queue: seq<Swap>)
    ensures queue == BubbleSort(snapshot)
  {
    var copy := new Entry<C>[|snapshot|](k requires 0 <= k < |snapshot| => snapshot[k]);
    assert copy[..] == snapshot;
    queue := [];
    var i := |snapshot| - 1;
    while i >= 0
      invariant -1 <= i < copy.Length == |snapshot|
      invariant queue + BubblePasses(copy[..], i) == BubblePasses(snapshot, |snapshot| - 1)
      decreases i + 1
    {
      BubbleOuterKeeps(queue, copy[..], i, BubblePasses(snapshot, |snapshot| - 1));
      queue := BubbleInner(copy, i, queue);
      i := i - 1;
    }
    assert queue == BubblePasses(snapshot, |snapshot| - 1);
  }

  /** One iteration of the inner insertion loop keeps the loop's relation to
      the whole walk. */
  lemma InsertionStepKeeps<C>(queue: seq<Swap>, c: seq<Entry<C>>, j: int,
                              walk: seq<Swap>, walked: seq<Entry<C>>)
    requires 0 < j < |c|
    requires queue + InsertionWalk(c, j) == walk
    requires Replay(c, InsertionWalk(c, j)) == walked
    ensures var inverted := c[j - 1].key > c[j].key;
      var queue' := if inverted then queue + [Swap(j, j - 1)] else queue;
      var c' := if inverted then Permutate(c, j, j - 1) else c;
      && queue' + InsertionWalk(c', j - 1) == walk
      && Replay(c', InsertionWalk(c', j - 1)) == walked
  {
    if c[j - 1].key > c[j].key {
      var c' := Permutate(c, j, j - 1);
      var rest := InsertionWalk(c', j - 1);
      assert InsertionWalk(c, j) == [Swap(j, j - 1)] + rest;
      assert ([Swap(j, j - 1)] + rest)[1..] == rest;
      assert queue + [Swap(j, j - 1)] + rest == queue + ([Swap(j, j - 1)] + rest);
    }
  }

  /** One iteration of the outer insertion loop keeps the loop's relation to
      the whole swap list. */
  lemma InsertionOuterKeeps<C>(queue: seq<Swap>, c: seq<Entry<C>>, i: int, total: seq<Swap>)
    requires 0 <= i < |c|
    requires queue + InsertionPasses(c, i) == total
    ensures var walk := InsertionWalk(c, i);
      (queue + walk) + InsertionPasses(Replay(c, walk), i + 1) == total
  {
    var walk := InsertionWalk(c, i);
    assert InsertionPasses(c, i) == walk + InsertionPasses(Replay(c, walk), i + 1);
  }

  /** The inner insertion loop on the working copy: `j` walks from `i` down to
      1, pushing each exchange it makes. */
  method InsertionInner<C>(copy: array<Entry<C>>, i: int, queue: seq<Swap>) returns (pushed: seq<Swap>)
    requires 0 <= i < copy.Length
    modifies copy
    ensures pushed == queue + InsertionWalk(old(copy[..]), i)
    ensures copy[..] == Replay(old(copy[..]), InsertionWalk(old(copy[..]), i))
  {
    ghost var start := copy[..];
    pushed := queue;
    var j := i;
    while j > 0
      invariant 0 <= j <= i
      invariant pushed + InsertionWalk(copy[..], j) == queue + InsertionWalk(start, i)
      invariant Replay(copy[..], InsertionWalk(copy[..], j)) == Replay(start, InsertionWalk(start, i))
    {
      InsertionStepKeeps(pushed, copy[..], j, queue + InsertionWalk(start, i),
                         Replay(start, InsertionWalk(start, i)));
      if copy[j - 1].key > copy[j].key {
        PermutateInPlace(copy, j, j - 1);
        pushed := pushed + [Swap(j, j - 1)];
      }
      j := j - 1;
    }
  }

  /** The insertion-sort generator: a fresh queue, a copy of the snapshot
      sorted in place, every exchange pushed in order. */
  method GenerateInsertionSort<C>(snapshot: seq<Entry<C>>) returns (queue: seq<Swap>)
    ensures queue == InsertionSort(snapshot)
  {
    var copy := new Entry<C>[|snapshot|](k requires 0 <= k < |snapshot| => snapshot[k]);
    assert copy[..] == snapshot;
    queue := [];
    var i := 0;
    while i < |snapshot|
      invariant 0 <= i <= |snapshot| == copy.Length
      invariant queue + InsertionPasses(copy[..], i) == InsertionPasses(snapshot, 0)
    {
      InsertionOuterKeeps(queue, copy[..], i, InsertionPasses(snapshot, 0));
      queue := InsertionInner(copy, i, queue);
      i := i + 1;
    }
    assert queue == InsertionPasses(snapshot, 0);
  }
}
