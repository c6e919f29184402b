# Sorting visualiser core, modelled in Dafny

The visualiser shows an array of `(key, colour)` pairs as bands and animates a
sort by exchanging two slots per frame. Underneath the drawing there is a
small sequential core, and this project models it:

- `permutate`, which exchanges two slots of the array;
- the two swap-list generators, `generateBubbleSort` and
  `generateInsertionSort`. Each one copies the array and sorts the copy by
  key with adjacent exchanges. It records every exchange, in order, into a
  fresh queue;
- the initialisation loop, which sets up keys `1..n`;
- the event logic of the render loop. It holds the live array, the swap
  queue and the `shuffled` flag. Key 0 shuffles. Keys 1 and 2 generate a
  queue, but only while `shuffled` is set. Every frame pops one exchange and
  applies it. "SORTED!" is drawn when the queue is empty and `shuffled` is
  clear.

The array size `ARR_SIZE` (200) is generalised to any `n`. The colour is a
type parameter `C` that only travels with its key. Keys are unbounded
integers and need not be distinct: both generators compare with `<=`.

Files and modules:

- `visualised.dfy`, module `Visualised`: `Entry`, `Swap`, `Permutate`,
  `Sorted`, and `Replay` (applying a list of exchanges in order).
- `inversions.dfy`, module `Inversions`: the inversion count. It also defines
  `Untangles`, which says that every exchange of a list, at the moment it is
  made, swaps an adjacent pair whose keys are strictly out of order.
- `generators.dfy`, module `Generators`: each generator twice. There is a
  pure function per loop (`BubblePass`/`BubblePasses`,
  `InsertionWalk`/`InsertionPasses`). There is also the imperative version
  over a working-copy array (`GenerateBubbleSort`, `GenerateInsertionSort`),
  which is proved to return exactly what the functions define.
- `playback.dfy`, module `Playback`: the state machine (`HandleKey`, `Tick`,
  `Frame`, `Play`) and its invariant `WellFormed`.

The central facts:
- Replaying either generator's queue on the array it saw yields that array
  sorted, and the result is a permutation of it.
- The number of exchanges is the input's inversion count.
- The state machine keeps an invariant: whenever `shuffled` is clear,
  replaying the pending queue on the live array sorts it. So the banner is
  drawn only over a sorted array.

Two points of the code are easy to misread:
- An idealised insertion sort would stop at the first in-order pair. This
  code uses `continue` instead, so the walk always takes `j` down to 1.
  `InOrderPairEndsWalk` and `InsertionWalkIdle` prove that the extra
  iterations record nothing.
- Keys need not be unique. Both generators record exactly the inversion
  count of their input, so their counts are always equal
  (`GeneratorsAgreeOnCount`).

## Model

| member | source | states |
|---|---|---|
| Visualised.Permutate | src/Main.cpp:162-166 | the result has the same length, holds `a[i2]` at `i1` and `a[i1]` at `i2`, and every other slot is unchanged |
| Visualised.PermutateMultiset | src/Main.cpp:162-166 | an exchange preserves the multiset of entries |
| Visualised.PermutateInvolution | src/Main.cpp:162-166 | exchanging the same two slots twice restores the array |
| Visualised.PermutateSymmetric | src/Main.cpp:162-166 | `permutate(a, i1, i2)` and `permutate(a, i2, i1)` give the same array |
| Visualised.ReplayMultiset | src/Main.cpp:84 | applying any in-range list of exchanges one after another permutes the array |
| Visualised.ReplayConcat | src/Main.cpp:77-85 | replaying `s1 ++ s2` equals replaying `s1` and then `s2`, which lets a queue be consumed piecewise |
| Visualised.PermutateInPlace | src/Main.cpp:162-166 | the in-place exchange on the working copy has the effect `Permutate` describes |
| Inversions.AdjacentSwapInversions | src/Main.cpp:136-138 | exchanging an adjacent pair with a strictly larger key first removes exactly one inversion |
| Inversions.FixesInversionDecrements | src/Main.cpp:152-154 | the same for an exchange written in either orientation, `(j, j+1)` or `(j, j-1)` |
| Inversions.UntanglesCount | src/Main.cpp:136-139 | if every recorded exchange fixes an inversion, the list stays in bounds, and its length equals the inversions of the input minus those of the result |
| Inversions.SortedIffNoInversions | src/Main.cpp:136 | an array is non-decreasing by key exactly when it has no inversion |
| Inversions.DescendingInversions | src/Main.cpp:136 | a strictly decreasing array of length n has n(n-1)/2 inversions |
| Generators.BubblePass | src/Main.cpp:135-140 | the inner bubble loop for `i` only records exchanges of slots `0..i` |
| Generators.BubblePasses | src/Main.cpp:134-141 | the outer bubble loop records only in-range exchanges |
| Generators.BubblePassUntangles | src/Main.cpp:135-140 | every exchange of an inner pass has the form `(j, j+1)` and is strictly inverted when made |
| Generators.BubblePassesUntangle | src/Main.cpp:134-141 | the same for the whole outer loop |
| Generators.BubbleSwapKeeps | src/Main.cpp:136-138 | after exchanging an inverted `(j, j+1)`, slot `j+1` holds a largest key so far, and the prefix stays below the sorted suffix |
| Generators.BubblePassRaisesMax | src/Main.cpp:135-140 | after the pass for `i`: slot `i` holds a largest key of `0..i`, slots above `i` are untouched, and the prefix stays below the suffix |
| Generators.BubblePassesSorts | src/Main.cpp:134-141 | the outer loop from `i` sorts any array whose suffix above `i` is sorted and lies above the prefix |
| Generators.BubbleSort | src/Main.cpp:130-142 | the bubble queue holds only in-range pairs `(j, j+1)`, each strictly inverted when made; replaying it sorts the input; its length is the input's inversion count |
| Generators.InsertionWalk | src/Main.cpp:151-156 | the walk from `j` only records exchanges of slots `0..j` |
| Generators.InsertionPasses | src/Main.cpp:150-157 | the outer insertion loop records only in-range exchanges |
| Generators.InsertionWalkUntangles | src/Main.cpp:151-156 | every exchange of a walk has the form `(j, j-1)` and is strictly inverted when made |
| Generators.InsertionPassesUntangle | src/Main.cpp:150-157 | the same for the whole outer loop |
| Generators.InsertionWalkIdle | src/Main.cpp:151-152 | a walk over a sorted prefix records nothing; it only runs `continue` |
| Generators.InOrderPairEndsWalk | src/Main.cpp:152 | during outer iteration `i`, in any walk state that keeps the walk invariant (the prefix up to `i` sorted except at slot `j`), an in-order pair at `j` means no later iteration for the same `i` records an exchange |
| Generators.InsertionSwapKeeps | src/Main.cpp:152-155 | exchanging an inverted `(j, j-1)` moves the unplaced key one slot down, and the rest of the prefix stays sorted |
| Generators.InsertionWalkSorts | src/Main.cpp:150-157 | after outer iteration `i`, slots `0..i` are sorted and nothing above `i` has moved |
| Generators.InsertionPassesSorts | src/Main.cpp:150-157 | the outer loop from `i` sorts any array whose first `i` slots are sorted |
| Generators.InsertionSort | src/Main.cpp:146-158 | the insertion queue holds only in-range pairs `(j, j-1)`, each strictly inverted when made; replaying it sorts the input; its length is the input's inversion count |
| Generators.SortedInputNoSwaps | src/Main.cpp:130-158 | each generator returns an empty queue exactly when its input is already sorted |
| Generators.ReversedInputSwapCount | src/Main.cpp:130-158 | on keys n, n-1, ..., 1 each generator records n(n-1)/2 exchanges |
| Generators.GeneratorsAgreeOnCount | src/Main.cpp:130-158 | both generators record the same number of exchanges on every input |
| Generators.FourKeysExample | src/Main.cpp:130-158 | on keys 3,1,4,2, bubble records (0,1),(2,3),(1,2) and insertion records (1,0),(3,2),(2,1); both replays give 1,2,3,4, and the payloads stay with their keys |
| Generators.BubbleInner | src/Main.cpp:135-140 | the inner loop over the working copy pushes exactly `BubblePass` and leaves the copy as replaying it does |
| Generators.GenerateBubbleSort | src/Main.cpp:130-142 | the loops over a working copy, starting from an empty queue, return exactly `BubbleSort` of the snapshot |
| Generators.InsertionInner | src/Main.cpp:151-156 | the inner loop over the working copy pushes exactly `InsertionWalk` and leaves the copy as replaying it does |
| Generators.GenerateInsertionSort | src/Main.cpp:146-158 | the loops over a working copy, starting from an empty queue, return exactly `InsertionSort` of the snapshot |
| Playback.Init | src/Main.cpp:28-39 | slot `i` holds key `i+1` with its painted payload; the array is sorted, nothing is pending, the flag is clear, and the invariant holds |
| Playback.HandleKey | src/Main.cpp:49-70 | a key preserves the array's multiset and the invariant. A shuffle sets the flag and empties the queue. A generator key with the flag clear changes nothing. With the flag set it keeps the array, clears the flag and installs the bubble queue for key 1 and the insertion queue for key 2. That queue is in bounds, sorts the array and is as long as its inversion count |
| Playback.Tick | src/Main.cpp:77-85 | when an exchange is pending, a tick removes the front one from the queue and applies exactly it to the live array; with nothing pending it changes nothing; it preserves the multiset, the flag, the invariant, and the array the pending queue leads to |
| Playback.Frame | src/Main.cpp:45-95 | one frame preserves the array's multiset, keeps the queue in bounds and keeps the invariant |
| Playback.Play | src/Main.cpp:45-95 | any run of frames keeps the invariant and only permutes the array |
| Playback.BannerMeansSorted | src/Main.cpp:90-91 | whenever "SORTED!" is drawn on a well-formed state, the live array is sorted |
| Playback.BannerOnlyWhenSorted | src/Main.cpp:86-92 | in every frame of every run from the start state, the banner implies a sorted array, and the array is a permutation of the initial one |
| Playback.PlaybackFinishes | src/Main.cpp:77-91 | after a generator, one frame per pending exchange without keys empties the queue, leaves the array sorted and shows the banner |
| Playback.GenerateOnSortedShowsBanner | src/Main.cpp:58-69 | generating on an already-sorted shuffled array installs an empty queue and the banner shows at once |

## Left out

- Drawing (`drawVerticalBands`, `drawHorizontalBands`, `DrawText`, clearing the background), window set-up, the FPS title and `WinMain`. They are calls into the graphics library and contain no logic on the array or the queue.
- The highlighted "current swap" and the `(-1, -1)` sentinel. They are only passed to drawing. `Tick` pops the same front exchange that would be highlighted.
- The layout toggle `isVertical` (key SPACE). It only affects drawing, so `ToggleLayout` leaves the state unchanged.
- The colour gradient of the initialisation loop. It uses float arithmetic and a `uint8_t` truncation. The payload is a type parameter, and `Init` takes the painting function as a parameter.
- `std::random_shuffle`. It is a foreign, randomised library call. A shuffle event carries the in-range exchanges the environment performs. Every permutation is a product of exchanges, so any shuffle outcome can be expressed.
- Key polling (`GetKeyPressed`), `WindowShouldClose` and frame timing. Key presses are an abstract sequence of events, one per frame.
- Fixed-width integers. With 200 slots, keys lie in 1..200 and no index or key comes near `int` limits, so unbounded integers change nothing.
- The caller's array is never mutated by a generator. In the model this holds by construction: the snapshot is a value (`seq`), and the working copy is a fresh array.
