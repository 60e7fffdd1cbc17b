/** The rotating quote (src/components/rotating-quote.tsx): the quotes are
    shuffled once with a Fisher–Yates shuffle, shown from the first, and
    advanced one step at a time, wrapping round at the end.

    `Math.random()` is the parameter `random`: `random(k)` is the value the
    k-th call returns, in `[0, 1)`. The timers that trigger the fade and the
    step are not modelled; their effects are the methods `Tick` and
    `FadeDone`. */
module RotatingQuote {
  import opened Wrappers

  datatype Quote = Quote(text: string, author: string)

  /** A value `Math.random()` can return. */
  type Fraction = r: real | 0.0 <= r < 1.0

  // ---------------------------------------------------------------------
  // The shuffle

  /** `Math.floor(r * (i + 1))`: an index from 0 to `i` for `r` in `[0, 1)`. */
  function Pick(r: Fraction, i: nat): (j: int)
    ensures 0 <= j <= i
  {
    ScaleBelow(r, i + 1);
    Scale(r, i + 1).Floor
  }

  /** `r * n`, written as `n` additions of `r` so that the shuffle's proofs
      stay in linear arithmetic; `ScaleIsProduct` shows it is the product. */
  function Scale(r: real, n: nat): real {
    if n == 0 then 0.0 else Scale(r, n - 1) + r
  }

  lemma {:induction false} ScaleIsProduct(r: real, n: nat)
    ensures Scale(r, n) == r * n as real
  {
    if n > 0 {
      ScaleIsProduct(r, n - 1);
      assert r * n as real == r * (n - 1) as real + r;
    }
  }

  lemma {:induction false} ScaleBelow(r: real, n: nat)
    requires 0.0 <= r < 1.0
    ensures 0.0 <= Scale(r, n) <= n as real
    ensures n > 0 ==> Scale(r, n) < n as real
  {
    if n > 0 {
      ScaleBelow(r, n - 1);
    }
  }

  /** Swaps the elements at `i` and `j`. */
  function Swap<T>(s: seq<T>, i: nat, j: nat): (r: seq<T>)
    requires i < |s| && j < |s|
    ensures |r| == |s| && r[i] == s[j] && r[j] == s[i]
  {
    s[i := s[j]][j := s[i]]
  }

  /** A swap leaves every other position as it was. */
  lemma SwapKeeps<T>(s: seq<T>, i: nat, j: nat)
    requires i < |s| && j < |s|
    ensures forall p :: 0 <= p < |s| && p != i && p != j ==> Swap(s, i, j)[p] == s[p]
  {
  }

  /** The shuffle's steps from position `i` down to 1, the first of them
      drawing the `k`-th random number. */
  function ShuffleFrom<T>(s: seq<T>, i: int, random: nat -> Fraction, k: nat): (r: seq<T>)
    requires i < |s|
    ensures |r| == |s|
    decreases i
  {
    if i <= 0 then s
    else ShuffleFrom(Swap(s, i, Pick(random(k), i)), i - 1, random, k + 1)
  }

  /** The whole shuffle: from the last position down to 1. */
  function Shuffle<T>(s: seq<T>, random: nat -> Fraction): seq<T>
  {
    ShuffleFrom(s, |s| - 1, random, 0)
  }

  /** A swap keeps the elements. */
  lemma SwapMultiset<T>(s: seq<T>, i: nat, j: nat)
    requires i < |s| && j < |s|
    ensures multiset(Swap(s, i, j)) == multiset(s)
  {
  }

  /** The steps from `i` down are a permutation that leaves every position
      above `i` as it was. */
  lemma {:induction false} ShuffleFromFacts<T>(s: seq<T>, i: int, random: nat -> Fraction, k: nat)
    requires i < |s|
    ensures multiset(ShuffleFrom(s, i, random, k)) == multiset(s)
    ensures forall p :: 0 <= p < |s| && i < p ==> ShuffleFrom(s, i, random, k)[p] == s[p]
    decreases i
  {
    if i > 0 {
      var t := Swap(s, i, Pick(random(k), i));
      SwapMultiset(s, i, Pick(random(k), i));
      SwapKeeps(s, i, Pick(random(k), i));
      ShuffleFromFacts(t, i - 1, random, k + 1);
    }
  }

  /** The shuffle is a permutation of its input. */
  lemma ShuffleIsPermutation<T>(s: seq<T>, random: nat -> Fraction)
    ensures |Shuffle(s, random)| == |s| && multiset(Shuffle(s, random)) == multiset(s)
  {
    ShuffleFromFacts(s, |s| - 1, random, 0);
  }

  /** `shuffleQuotes`: a copy of the quotes, shuffled in place from the
      last position down, each step swapping position `i` with a drawn
      position at most `i`. The input is left as it was. */
  method ShuffleQuotes(items: array<Quote>, random: nat -> Fraction) returns (shuffled: array<Quote>)
    ensures fresh(shuffled)
    ensures shuffled[..] == Shuffle(items[..], random)
    ensures multiset(shuffled[..]) == multiset(items[..])
  {
    shuffled := CopyOf(items);
    var i := shuffled.Length - 1;
    while i > 0
      invariant i < shuffled.Length == items.Length
      invariant ShuffleFrom(shuffled[..], i, random, shuffled.Length - 1 - i) == Shuffle(items[..], random)
    {
      var j := Pick(random(shuffled.Length - 1 - i), i);
      assert ShuffleFrom(shuffled[..], i, random, shuffled.Length - 1 - i)
          == ShuffleFrom(Swap(shuffled[..], i, j), i - 1, random, shuffled.Length - i);
      SwapAt(shuffled, i, j);
      i := i - 1;
    }
    ShuffleIsPermutation(items[..], random);
  }

  /** `[...items]`: a fresh array with the same elements. */
  method CopyOf<T>(items: array<T>) returns (copy: array<T>)
    ensures fresh(copy) && copy[..] == items[..]
  {
    copy := new T[items.Length](p requires 0 <= p < items.Length reads items => items[p]);
    assert copy[..] == items[..];
  }

  /** Swaps two elements of an array in place, through a temporary. */
  method SwapAt<T>(a: array<T>, i: nat, j: nat)
    requires i < a.Length && j < a.Length
    modifies a
    ensures a[..] == Swap(old(a[..]), i, j)
  {
    var tmp := a[i];
    a[i] := a[j];
    a[j] := tmp;
    assert a[..] == Swap(old(a[..]), i, j) by {
      forall p | 0 <= p < a.Length ensures a[p] == Swap(old(a[..]), i, j)[p] {
      }
    }
  }

  // ---------------------------------------------------------------------
  // The rotation

  /** `(current + 1) % length`. */
  function NextIndex(current: nat, length: nat): (r: nat)
    requires length > 0
    ensures r < length
  {
    (current + 1) % length
  }

  /** The index after `k` steps from `start`. */
  function Steps(start: nat, k: nat, length: nat): (r: nat)
    requires length > 0
    ensures r < length || (k == 0 && r == start)
  {
    if k == 0 then start else NextIndex(Steps(start, k - 1, length), length)
  }

  /** One step moves to the next index, and from the last back to 0. */
  lemma NextIndexStep(current: nat, length: nat)
    requires current < length
    ensures NextIndex(current, length) == if current + 1 < length then current + 1 else 0
  {
  }

  /** Before the end, `k` steps from `start` land on `start + k`. */
  lemma {:induction false} StepsUp(start: nat, k: nat, length: nat)
    requires start + k < length
    ensures Steps(start, k, length) == start + k
  {
    if k > 0 {
      StepsUp(start, k - 1, length);
      NextIndexStep(start + k - 1, length);
    }
  }

  /** Past the end, within one more round, `k` steps land on
      `start + k - length`. */
  lemma {:induction false} StepsWrap(start: nat, k: nat, length: nat)
    requires start < length && length - start <= k < 2 * length - start
    ensures Steps(start, k, length) == start + k - length
  {
    if k == length - start {
      StepsUp(start, k - 1, length);
      NextIndexStep(length - 1, length);
    } else {
      StepsWrap(start, k - 1, length);
      NextIndexStep(start + k - 1 - length, length);
    }
  }

  /** The number of steps from `start` forward to `target`, going round
      the end when `target` is behind `start`. */
  function Distance(start: nat, target: nat, length: nat): (k: nat)
    requires start < length && target < length
    ensures k < length
  {
    if target >= start then target - start else target + length - start
  }

  /** The rotation is a cycle: after `length` steps it is back where it
      started, and every index is reached, after `Distance` steps, before
      that. */
  lemma RotationCycles(start: nat, length: nat)
    requires start < length
    ensures Steps(start, length, length) == start
    ensures forall t :: 0 <= t < length ==> Steps(start, Distance(start, t, length), length) == t
  {
    StepsWrap(start, length, length);
    forall t | 0 <= t < length ensures Steps(start, Distance(start, t, length), length) == t {
      if t >= start {
        StepsUp(start, t - start, length);
      } else {
        StepsWrap(start, t + length - start, length);
      }
    }
  }

  /** The component's state: the shuffled quotes, the index shown, and
      whether the current quote is fading out. */
  class Rotator {
    var quotes: seq<Quote>
    var index: nat
    var isFading: bool

    /** The index is on a quote, or 0 when there are none. */
    predicate Valid()
      reads this
    {
      index < |quotes| || (quotes == [] && index == 0)
    }

    /** Nothing shown yet. */
    constructor ()
      ensures quotes == [] && index == 0 && !isFading && Valid()
    {
      quotes := [];
      index := 0;
      isFading := false;
    }

    /** The mount effect: the quotes are shuffled and shown from the first. */
    method Mount(all: array<Quote>, random: nat -> Fraction)
      modifies this
      ensures quotes == Shuffle(all[..], random) && multiset(quotes) == multiset(all[..])
      ensures index == 0 && isFading == old(isFading) && Valid()
    {
      var shuffled := ShuffleQuotes(all, random);
      quotes := shuffled[..];
      index := 0;
    }

    /** The interval: with more than one quote, start the fade; with one
        or none there is no rotation. */
    method Tick()
      modifies this
      ensures quotes == old(quotes) && index == old(index)
      ensures isFading == (old(isFading) || |quotes| > 1)
    {
      if |quotes| > 1 {
        isFading := true;
      }
    }

    /** The end of the fade: step to the next quote, wrapping round; no step
        on an empty list. */
    method FadeDone()
      requires Valid()
      modifies this
      ensures Valid() && quotes == old(quotes)
      ensures old(isFading) && |quotes| > 0 ==> index == NextIndex(old(index), |quotes|) && !isFading
      ensures !(old(isFading) && |quotes| > 0) ==> index == old(index) && isFading == old(isFading)
    {
      if isFading && |quotes| > 0 {
        index := NextIndex(index, |quotes|);
        isFading := false;
      }
    }

    /** The quote shown, if any. */
    function Current(): (r: Option<Quote>)
      requires Valid()
      reads this
      ensures r.Some? <==> quotes != []
      ensures r.Some? ==> r.value == quotes[index]
    {
      if index < |quotes| then Some(quotes[index]) else None
    }
  }
}
