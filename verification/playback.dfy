/** The playback state machine of the render loop: the live array, the queue
    of pending exchanges and the `shuffled` flag, driven by one key event and
    one tick per frame. Drawing and the layout toggle have no effect here. */
module Playback {
  import opened Visualised
  import opened Inversions
  import opened Generators

  /** `live` is the array on screen; `queue` the exchanges still to play. */
  datatype State<C> = State(live: seq<Entry<C>>, queue: seq<Swap>, shuffled: bool)

  /** The key read at the start of a frame. `Shuffle` carries the exchanges
      the environment's random shuffle performs; `ToggleLayout` and `NoKey`
      leave the state alone. */
  datatype Key =
    | ToggleLayout
    | Shuffle(exchanges: seq<Swap>)
    | RunBubble
    | RunInsertion
    | NoKey

  /** A shuffle only exchanges slots of the array. */
  predicate KeyFits(k: Key, n: int) {
    k.Shuffle? ==> Within(k.exchanges, n)
  }

  /** The invariant of the loop: the queue addresses slots of the array, and
      unless a shuffle is waiting for a generator, playing the queue to its
      end leaves the array sorted. */
  predicate WellFormed<C>(s: State<C>) {
    && Within(s.queue, |s.live|)
    && (!s.shuffled ==> Sorted(Replay(s.live, s.queue)))
  }

  /** "SORTED!" is drawn when nothing is pending and no shuffle awaits a generator. */
  predicate Banner<C>(s: State<C>) {
    s.queue == [] && !s.shuffled
  }

  /** The start state: keys 1..n in order, each with the payload painted for
      its slot, nothing pending and not shuffled. */
  function Init<C>(n: nat, paint: nat -> C): (s: State<C>)
    ensures |s.live| == n
    ensures forall i :: 0 <= i < n ==> s.live[i] == Entry(i + 1, paint(i))
    ensures Sorted(s.live)
    ensures Banner(s) && WellFormed(s)
  {
    State(seq(n, (i: int) requires 0 <= i < n => Entry(i + 1, paint(i))), [], false)
  }

  /** Reacts to the key of one frame. A generator key only acts on a shuffled
      array; it then replaces the queue and clears the flag. */
  function HandleKey<C>(s: State<C>, k: Key): (r: State<C>)
    requires KeyFits(k, |s.live|)
    ensures |r.live| == |s.live|
    ensures multiset(r.live) == multiset(s.live)
    ensures Within(s.queue, |s.live|) ==> Within(r.queue, |r.live|)
    ensures WellFormed(s) ==> WellFormed(r)
    ensures k.Shuffle? ==> r.shuffled && r.queue == []
    ensures (k.RunBubble? || k.RunInsertion?) && !s.shuffled ==> r == s
    ensures k.RunBubble? && s.shuffled ==> r.queue == BubbleSort(s.live)
    ensures k.RunInsertion? && s.shuffled ==> r.queue == InsertionSort(s.live)
    ensures (k.RunBubble? || k.RunInsertion?) && s.shuffled ==>
              && r.live == s.live && !r.shuffled
              && Within(r.queue, |r.live|)
              && Sorted(Replay(r.live, r.queue))
              && |r.queue| == InversionCount(s.live)
    ensures (k.ToggleLayout? || k.NoKey?) ==> r == s
  {
    match k
    case Shuffle(exchanges) =>
      ReplayMultiset(s.live, exchanges);
      State(Replay(s.live, exchanges), [], true)
    case RunBubble =>
      if s.shuffled then State(s.live, BubbleSort(s.live), false) else s
    case RunInsertion =>
      if s.shuffled then State(s.live, InsertionSort(s.live), false) else s
    case ToggleLayout => s
    case NoKey => s
  }

  /** The draw step of a frame: when something is pending, the front exchange
      is popped and applied to the live array. */
  function Tick<C>(s: State<C>): (r: State<C>)
    requires Within(s.queue, |s.live|)
    ensures |r.live| == |s.live|
    ensures multiset(r.live) == multiset(s.live)
    ensures r.shuffled == s.shuffled
    ensures s.queue == [] ==> r == s
    ensures s.queue != [] ==>
              && r.queue == s.queue[1..]
              && r.live == Permutate(s.live, s.queue[0].first, s.queue[0].second)
    ensures Within(r.queue, |r.live|)
    ensures Replay(r.live, r.queue) == Replay(s.live, s.queue)
    ensures WellFormed(s) ==> WellFormed(r)
  {
    if s.queue == [] then s
    else
      PermutateMultiset(s.live, s.queue[0].first, s.queue[0].second);
      State(Apply(s.live, s.queue[0]), s.queue[1..], s.shuffled)
  }

  /** One iteration of the render loop. */
  function Frame<C>(s: State<C>, k: Key): (r: State<C>)
    requires KeyFits(k, |s.live|)
    requires Within(s.queue, |s.live|)
    ensures |r.live| == |s.live|
    ensures multiset(r.live) == multiset(s.live)
    ensures Within(r.queue, |r.live|)
    ensures WellFormed(s) ==> WellFormed(r)
  {
    Tick(HandleKey(s, k))
  }

  /** The state after one frame per key of `keys`. */
  function Play<C>(s: State<C>, keys: seq<Key>): (r: State<C>)
    requires forall k :: 0 <= k < |keys| ==> KeyFits(keys[k], |s.live|)
    requires WellFormed(s)
    ensures |r.live| == |s.live|
    ensures multiset(r.live) == multiset(s.live)
    ensures WellFormed(r)
    decreases |keys|
  {
    if keys == [] then s
    else Play(Frame(s, keys[0]), keys[1..])
  }

  /** When the banner is up, the live array is sorted. */
  lemma BannerMeansSorted<C>(s: State<C>)
    requires WellFormed(s) && Banner(s)
    ensures Sorted(s.live)
  {
  }

  /** In every frame of a run from the start state, the banner is drawn only
      over a sorted array, and the array is always a permutation of the start. */
  lemma BannerOnlyWhenSorted<C>(n: nat, paint: nat -> C, keys: seq<Key>, k: Key)
    requires forall i :: 0 <= i < |keys| ==> KeyFits(keys[i], n)
    requires KeyFits(k, n)
    ensures var drawn := HandleKey(Play(Init(n, paint), keys), k);
      && multiset(drawn.live) == multiset(Init(n, paint).live)
      && (Banner(drawn) ==> Sorted(drawn.live))
  {
    var drawn := HandleKey(Play(Init(n, paint), keys), k);
    if Banner(drawn) {
      BannerMeansSorted(drawn);
    }
  }

  /** Frames without a key drain the queue, one exchange per frame; after as
      many frames as there were pending exchanges, the array is sorted and
      the banner is up. */
  lemma {:induction false} PlaybackFinishes<C>(s: State<C>)
    requires WellFormed(s) && !s.shuffled
    ensures var r := Play(s, seq(|s.queue|, _ => NoKey));
      && r.live == Replay(s.live, s.queue)
      && Banner(r) && Sorted(r.live)
    decreases |s.queue|
  {
    var idle := seq(|s.queue|, _ => NoKey);
    if s.queue != [] {
      var next := Frame(s, NoKey);
      assert next == Tick(s);
      assert idle[1..] == seq(|next.queue|, _ => NoKey);
      PlaybackFinishes(next);
    }
  }

  /** Shuffling to an already sorted arrangement and then pressing a generator
      key shows the banner straight away. */
  lemma GenerateOnSortedShowsBanner<C>(s: State<C>, k: Key)
    requires s.shuffled && Sorted(s.live)
    requires k.RunBubble? || k.RunInsertion?
    ensures HandleKey(s, k).queue == []
    ensures Banner(HandleKey(s, k))
  {
    SortedInputNoSwaps(s.live);
  }
}
