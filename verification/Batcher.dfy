/** The batch size that adapts to delivery latency, in 64-bit arithmetic. */
module Batching {
  const WRAP: nat := 0x1_0000_0000_0000_0000
  const HALF: nat := 0x8000_0000_0000_0000

  type Size = n: nat | n < WRAP

  const DEFAULT_TARGET: nat := 16_000_000

  /** What the caller asks for; the target is in nanoseconds. */
  datatype Options = Options(adaptive: bool, size: Size, minimum: Size, maximum: Size, target: int)

  datatype State = State(adaptive: bool, minimum: Size, maximum: Size, size: Size, target: nat) {
    predicate InRange() { 1 <= minimum <= size <= maximum }
  }

  function Min(a: nat, b: nat): nat { if b < a then b else a }

  function Max(a: nat, b: nat): nat { if a < b then b else a }

  function Start(o: Options): State {
    var size, minimum := Max(o.size, 1), Max(o.minimum, 1);
    var maximum := Max(Max(o.maximum, 1), minimum);
    var target := if o.target <= 0 then DEFAULT_TARGET else o.target;
    if o.adaptive then State(true, minimum, maximum, Max(minimum, Min(size, maximum)), target)
    else State(false, size, size, size, target)
  }

  /** After a delivery that took `elapsed` nanoseconds; doubling wraps at 64 bits. */
  function Recorded(b: State, elapsed: int): State {
    if b.adaptive && elapsed <= b.target / 2 then b.(size := Min(b.size * 2 % WRAP, b.maximum))
    else if b.adaptive && elapsed >= b.target * 2 then b.(size := Max(b.size / 2, b.minimum))
    else b
  }

  /** After the first `k` deliveries. */
  function After(b: State, latency: nat -> int, k: nat): State {
    if k == 0 then b else Recorded(After(b, latency, k - 1), latency(k - 1))
  }

  class AdaptiveResultBatcher {
    var adaptive: bool
    var minimumBatchSize: Size
    var maximumBatchSize: Size
    var batchSize: Size
    var targetDeliveryLatency: nat

    function Value(): State
      reads this
    {
      State(adaptive, minimumBatchSize, maximumBatchSize, batchSize, targetDeliveryLatency)
    }

    constructor (o: Options)
      ensures Value() == Start(o)
    {
      adaptive := o.adaptive;
      minimumBatchSize := Max(o.minimum, 1);
      maximumBatchSize := Max(o.maximum, 1);
      batchSize := Max(o.size, 1);
      targetDeliveryLatency := if o.target <= 0 then DEFAULT_TARGET else o.target;
      new;
      if !adaptive {
        minimumBatchSize := batchSize;
        maximumBatchSize := batchSize;
        return;
      }
      if maximumBatchSize < minimumBatchSize {
        maximumBatchSize := minimumBatchSize;
      }
      batchSize := if batchSize < minimumBatchSize then minimumBatchSize
                   else if maximumBatchSize < batchSize then maximumBatchSize else batchSize;
    }

    method RecordDeliveryLatency(elapsed: int)
      modifies this
      ensures Value() == Recorded(old(Value()), elapsed)
    {
      if !adaptive {
        return;
      }
      if elapsed <= targetDeliveryLatency / 2 {
        batchSize := Min(batchSize * 2 % WRAP, maximumBatchSize);
        return;
      }
      if elapsed >= targetDeliveryLatency * 2 {
        batchSize := Max(batchSize / 2, minimumBatchSize);
      }
    }
  }

  // ---- The size stays in range --------------------------------------------------------

  lemma RecordedKeepsRange(b: State, elapsed: int)
    requires b.InRange() && (b.adaptive ==> b.maximum < HALF)
    ensures var next := Recorded(b, elapsed);
      next.InRange() && next.minimum == b.minimum && next.maximum == b.maximum && next.adaptive == b.adaptive
  {}

  lemma {:induction false} RunKeepsRange(b: State, latency: nat -> int, k: nat)
    requires b.InRange() && (b.adaptive ==> b.maximum < HALF)
    ensures var after := After(b, latency, k);
      after.InRange() && after.minimum == b.minimum && after.maximum == b.maximum && after.adaptive == b.adaptive
  {
    hide Recorded, State.InRange;
    if k > 0 {
      RunKeepsRange(b, latency, k - 1);
      RecordedKeepsRange(After(b, latency, k - 1), latency(k - 1));
    }
  }

  /** From any options whose maximum is below half the 64-bit range, the size stays
      between the normalized minimum and maximum, and at least one, forever. */
  lemma StartKeepsRange(o: Options, latency: nat -> int, k: nat)
    requires o.adaptive ==> Max(o.maximum, o.minimum) < HALF
    ensures var after := After(Start(o), latency, k);
      after.InRange() && (o.adaptive ==>
        after.minimum == Max(o.minimum, 1) && after.maximum == Max(Max(o.maximum, 1), after.minimum))
  {
    RunKeepsRange(Start(o), latency, k);
  }

  ghost predicate AlwaysInRange(o: Options) {
    forall latency, k :: After(Start(o), latency, k).InRange()
  }

  /** The bound is exact: a larger maximum lets doubling wrap below the minimum. */
  lemma RangeHoldsExactlyBelowHalf(maximum: Size)
    requires maximum >= 1
    ensures maximum < HALF <==>
      forall o: Options | o.adaptive && o.minimum <= maximum && o.maximum == maximum :: AlwaysInRange(o)
  {
    if maximum < HALF {
      forall o: Options | o.adaptive && o.minimum <= maximum && o.maximum == maximum ensures AlwaysInRange(o) {
        forall latency, k ensures After(Start(o), latency, k).InRange() {
          StartKeepsRange(o, latency, k);
        }
      }
    } else {
      var o, fast := Options(true, maximum, maximum, maximum, 2), (_: nat) => 0;
      assert After(Start(o), fast, 0) == Start(o);
      assert After(Start(o), fast, 1) == Recorded(Start(o), 0);
      assert !After(Start(o), fast, 1).InRange();
      assert !AlwaysInRange(o);
    }
  }

  // ---- The size follows the latency ----------------------------------------------------

  ghost predicate Sound(b: State) { b.InRange() && b.adaptive && b.maximum < HALF }

  /** A slower delivery never leaves a larger size. */
  lemma SlowerIsNeverLarger(b: State, faster: int, slower: int)
    requires Sound(b) && faster <= slower
    ensures Recorded(b, faster).size >= Recorded(b, slower).size
  {}

  /** The size can move only if a delivery takes at most half or at least twice the target. */
  lemma OnTargetKeepsSize(b: State, elapsed: int)
    requires b.target < 2 * elapsed && elapsed < 2 * b.target
    ensures Recorded(b, elapsed) == b
  {}

  function Power2(k: nat): (p: nat)
    ensures p > 0
  {
    if k == 0 then 1 else 2 * Power2(k - 1)
  }

  ghost predicate Fast(b: State, latency: nat -> int, k: nat) {
    forall i :: 0 <= i < k ==> 2 * latency(i) <= b.target
  }

  ghost predicate Slow(b: State, latency: nat -> int, k: nat) {
    forall i :: 0 <= i < k ==> latency(i) >= 2 * b.target && 2 * latency(i) > b.target
  }

  lemma OneDoubling(b: State, wanted: nat, elapsed: int)
    requires Sound(b) && b.size == Min(wanted, b.maximum) && 2 * elapsed <= b.target
    ensures Recorded(b, elapsed) == b.(size := Min(2 * wanted, b.maximum))
  {}

  lemma OneHalving(b: State, wanted: nat, elapsed: int)
    requires Sound(b) && b.size == Max(wanted, b.minimum) && elapsed >= 2 * b.target && 2 * elapsed > b.target
    ensures Recorded(b, elapsed) == b.(size := Max(wanted / 2, b.minimum))
  {}

  /** Fast deliveries double the size until it is the maximum. */
  lemma {:induction false} FastRunDoubles(b: State, latency: nat -> int, k: nat)
    requires Sound(b) && Fast(b, latency, k)
    ensures After(b, latency, k) == b.(size := Min(b.size * Power2(k), b.maximum))
  {
    hide Recorded;
    if k > 0 {
      FastRunDoubles(b, latency, k - 1);
      TwiceTimes(b.size, k);
      WithinSize(b, b.size * Power2(k - 1));
      OneDoubling(After(b, latency, k - 1), b.size * Power2(k - 1), latency(k - 1));
    }
  }

  lemma WithinSize(b: State, wanted: nat)
    requires Sound(b) && wanted >= b.size
    ensures Sound(b.(size := Min(wanted, b.maximum)))
  {}

  lemma TwiceTimes(n: nat, k: nat)
    requires k > 0
    ensures n * Power2(k) == 2 * (n * Power2(k - 1)) && n * Power2(k - 1) >= n
  {
    assert n * (2 * Power2(k - 1)) == 2 * (n * Power2(k - 1));
  }

  function Halved(n: nat, k: nat): (q: nat)
    ensures q <= n
  {
    if k == 0 then n else Halved(n, k - 1) / 2
  }

  /** Halving `k` times is dividing by the power of two. */
  lemma {:induction false} HalvedMeans(n: nat, k: nat)
    ensures Halved(n, k) == n / Power2(k)
  {
    if k == 0 {
      assert Power2(0) == 1;
    } else {
      HalvedMeans(n, k - 1);
      DividedAgain(n, Power2(k - 1));
    }
  }

  /** Slow deliveries halve it until it is the minimum. */
  lemma {:induction false} SlowRunHalves(b: State, latency: nat -> int, k: nat)
    requires Sound(b) && Slow(b, latency, k)
    ensures After(b, latency, k) == b.(size := Max(Halved(b.size, k), b.minimum))
  {
    hide Recorded;
    if k > 0 {
      SlowRunHalves(b, latency, k - 1);
      OneHalving(After(b, latency, k - 1), Halved(b.size, k - 1), latency(k - 1));
    }
  }

  lemma DividedAgain(n: nat, d: nat)
    requires d > 0
    ensures n / d / 2 == n / (2 * d)
  {
    var q := n / d / 2;
    var r := n / d - 2 * q;
    assert n == d * (n / d) + n % d;
    assert d * (2 * q + r) == 2 * d * q + d * r;
    assert 0 <= d * r + n % d < 2 * d;
    QuotientUnique(n, 2 * d, q);
  }

  lemma QuotientUnique(n: nat, d: nat, q: nat)
    requires d > 0 && d * q <= n < d * q + d
    ensures n / d == q
  {
    var p := n / d;
    assert 0 - d < d * (p - q) < d;
    SmallMultiple(d, p - q);
  }

  lemma SmallMultiple(d: nat, k: int)
    requires 0 - d < d * k < d
    ensures k == 0
  {}

  /** Both bounds are reached within 64 deliveries, whatever they are. */
  lemma BoundsAreReached(b: State, latency: nat -> int, k: nat)
    requires Sound(b) && k >= 64
    ensures Fast(b, latency, k) ==> After(b, latency, k).size == b.maximum
    ensures Slow(b, latency, k) ==> After(b, latency, k).size == b.minimum
  {
    hide After, Power2, Halved, Fast, Slow;
    LargePower(k);
    if Fast(b, latency, k) {
      FastRunDoubles(b, latency, k);
      LargeFactor(b.size, Power2(k), b.maximum);
    }
    if Slow(b, latency, k) {
      SlowRunHalves(b, latency, k);
      HalvedMeans(b.size, k);
      LargeFactor(b.size, Power2(k), b.maximum);
    }
  }

  lemma LargeFactor(n: nat, p: nat, m: nat)
    requires 1 <= n <= m < p
    ensures n * p >= m && n / p == 0
  {
    assert n * p == p + (n - 1) * p;
  }

  lemma EightMore(k: nat)
    ensures Power2(k + 8) == 256 * Power2(k)
  {
    assert Power2(k + 4) == 2 * Power2(k + 3) == 4 * Power2(k + 2) == 8 * Power2(k + 1) == 16 * Power2(k);
    assert Power2(k + 8) == 2 * Power2(k + 7) == 4 * Power2(k + 6) == 8 * Power2(k + 5) == 16 * Power2(k + 4);
  }

  lemma {:induction false} LargePower(k: nat)
    requires k >= 64
    ensures Power2(k) >= WRAP
  {
    if k > 64 {
      LargePower(k - 1);
    } else {
      LargestPower();
    }
  }

  lemma LargestPower()
    ensures Power2(64) == WRAP
  {
    EightMore(0);
    EightMore(8);
    EightMore(16);
    EightMore(24);
    EightMore(32);
    EightMore(40);
    EightMore(48);
    EightMore(56);
  }

  /** The first size is the requested one, at least one, as near as the bounds allow. */
  lemma StartsNearRequest(o: Options)
    ensures Start(o).size >= 1
    ensures Start(o).target == if o.target > 0 then o.target else 16_000_000
    ensures !o.adaptive && o.size >= 1 ==> Start(o).size == o.size
    ensures o.adaptive && 1 <= o.minimum <= o.size <= o.maximum ==> Start(o).size == o.size
    ensures o.adaptive && 1 <= o.size < o.minimum <= o.maximum ==> Start(o).size == o.minimum
    ensures o.adaptive && 1 <= o.minimum <= o.maximum < o.size ==> Start(o).size == o.maximum
  {}

  /** Without adaptation the size never changes. */
  lemma {:induction false} FixedSizeStays(b: State, latency: nat -> int, k: nat)
    requires !b.adaptive
    ensures After(b, latency, k) == b
  {
    if k > 0 { FixedSizeStays(b, latency, k - 1); }
  }
}
