/**
 * The rows drawn from the chain:
 * `np.random.randint(low=min(BurnIn, ChainLength//2), high=ChainLength, size=min(Samples, ChainLength))`.
 * Only the bounds and what a draw must satisfy are modelled, not the random source.
 */
module Sampling {

  /** The three arguments handed to `randint`. */
  datatype Bounds = Bounds(low: int, high: int, size: int)

  function Min(a: int, b: int): int
  {
    if a <= b then a else b
  }

  /**
   * The bounds from the burn-in and sample count on the command line and the
   * chain length (NAXIS2). The burn-in is honoured up to half the chain and
   * clamped there beyond it; the size is the requested count, at most the chain length.
   */
  function SampleBounds(burnIn: int, chainLength: nat, samples: int): (b: Bounds)
    ensures b.high == chainLength
    ensures b.size <= chainLength && b.size <= samples
    ensures samples <= chainLength ==> b.size == samples
    ensures samples >= chainLength ==> b.size == chainLength
    ensures burnIn <= chainLength / 2 ==> b.low == burnIn
    ensures burnIn > chainLength / 2 ==> b.low == chainLength / 2
    ensures chainLength >= 1 ==> b.low < b.high
    ensures burnIn >= 0 ==> 0 <= b.low
  {
    Bounds(Min(burnIn, chainLength / 2), chainLength, Min(samples, chainLength))
  }

  /**
   * The bounds on which `randint` does not raise ValueError: a size of 0 (which draws
   * nothing, whatever the range), or a positive size over a non-empty range (`low < high`).
   */
  predicate Drawable(b: Bounds)
  {
    b.size == 0 || (b.size > 0 && b.low < b.high)
  }

  /** What `randint` may return for these bounds: `size` integers, each in `[low, high)`. */
  predicate ValidSample(idx: seq<int>, b: Bounds)
  {
    |idx| == b.size && forall k :: 0 <= k < |idx| ==> b.low <= idx[k] < b.high
  }

  /**
   * With a non-empty chain, a non-negative burn-in and sample count, the draw succeeds,
   * takes no more rows than the chain has, and every drawn row lies in the chain
   * at or after the (clamped) burn-in.
   */
  lemma SampleWithinChain(burnIn: int, chainLength: nat, samples: int, idx: seq<int>)
    requires chainLength >= 1 && burnIn >= 0 && samples >= 0
    requires ValidSample(idx, SampleBounds(burnIn, chainLength, samples))
    ensures Drawable(SampleBounds(burnIn, chainLength, samples))
    ensures |idx| <= chainLength
    ensures forall k :: 0 <= k < |idx| ==> Min(burnIn, chainLength / 2) <= idx[k] < chainLength
    ensures forall k :: 0 <= k < |idx| ==> 0 <= idx[k]
  {
  }

  /**
   * An empty chain clamps the size to 0 for any non-negative sample count, so `randint`
   * returns an empty draw; it raises only when the sample count is negative.
   */
  lemma EmptyChainDrawsNothing(burnIn: int, samples: int)
    ensures Drawable(SampleBounds(burnIn, 0, samples)) <==> samples >= 0
    ensures samples >= 0 ==> SampleBounds(burnIn, 0, samples).size == 0
  {
  }

  /** A negative sample count gives a negative size: `randint` raises. */
  lemma NegativeSamplesNotDrawable(burnIn: int, chainLength: nat, samples: int)
    requires samples < 0
    ensures !Drawable(SampleBounds(burnIn, chainLength, samples))
  {
  }
}
