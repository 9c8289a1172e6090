/** Deterministic hash bucketing of the decision engine (the bucketing
    part of `makeDecision` in src/decision/services/DecisionService.py).
    The MurmurHash3 function is not modelled: it is a parameter of type
    `string -> Int32` wherever a bucket is computed. */
module Bucketing {
  import opened Common
  import opened Entities

  /** The bucketing scale: bucket values run from 1 to 10000 (0.01%). */
  const MaxTrafficVal: int := 10000

  /** The signed 32-bit result of the hash. */
  newtype Int32 = x: int | -0x8000_0000 <= x < 0x8000_0000

  function Abs(x: int): nat
  {
    if x < 0 then -x else x
  }

  /** The bucket a hash falls into: `|h| mod 10000 + 1`. */
  function BucketValue(h: Int32): (b: int)
    ensures 1 <= b <= MaxTrafficVal
  {
    Abs(h as int) % MaxTrafficVal + 1
  }

  /** Width of a variation's range on the bucketing scale. */
  function RangeLimit(v: Variation): int
  {
    v.traffic * 100
  }

  /** Total width of the first `k` variations' ranges. */
  function Cumulative(vs: seq<Variation>, k: nat): int
    requires k <= |vs|
  {
    if k == 0 then 0 else Cumulative(vs, k - 1) + RangeLimit(vs[k - 1])
  }

  /** Upper end of variation `j`'s range. */
  function Bound(vs: seq<Variation>, j: nat): int
    requires j < |vs|
  {
    Cumulative(vs, j + 1)
  }

  function SelectFrom(vs: seq<Variation>, b: int, i: nat): (r: Option<nat>)
    requires i <= |vs|
    ensures r.Some? ==> i <= r.value < |vs| && b <= Bound(vs, r.value)
    ensures r.Some? ==> forall j :: i <= j < r.value ==> Bound(vs, j) < b
    ensures r.None? ==> forall j :: i <= j < |vs| ==> Bound(vs, j) < b
    decreases |vs| - i
  {
    if i == |vs| then None
    else if b <= Bound(vs, i) then Some(i)
    else SelectFrom(vs, b, i + 1)
  }

  /** The variation a bucket value selects: the first, in list order,
      whose cumulative bound reaches `b`; none when no bound does. */
  function Select(vs: seq<Variation>, b: int): (r: Option<nat>)
    ensures r.Some? ==> r.value < |vs| && b <= Bound(vs, r.value)
    ensures r.Some? ==> forall j :: 0 <= j < r.value ==> Bound(vs, j) < b
    ensures r.None? ==> forall j :: 0 <= j < |vs| ==> Bound(vs, j) < b
  {
    SelectFrom(vs, b, 0)
  }

  /** The traffic-allocation loop: walks the variations accumulating
      range widths and stops at the first whose bound reaches `bucketVal`. */
  method ChooseVariation(vs: seq<Variation>, bucketVal: int) returns (chosen: Option<Variation>)
    ensures chosen.Some? <==> Select(vs, bucketVal).Some?
    ensures chosen.Some? ==> chosen.value == vs[Select(vs, bucketVal).value]
  {
    chosen := None;
    var cumulativeTraffic := 0;
    var i := 0;
    while i < |vs|
      invariant 0 <= i <= |vs|
      invariant cumulativeTraffic == Cumulative(vs, i)
      invariant forall j :: 0 <= j < i ==> Bound(vs, j) < bucketVal
    {
      var rangeLimit := RangeLimit(vs[i]);
      if bucketVal <= cumulativeTraffic + rangeLimit {
        chosen := Some(vs[i]);
        break;
      }
      cumulativeTraffic := cumulativeTraffic + rangeLimit;
      i := i + 1;
    }
    if chosen.Some? {
      SelectIsFirstCovering(vs, bucketVal, i);
    }
  }

  /** The first covering variation is the one `Select` picks. */
  lemma SelectIsFirstCovering(vs: seq<Variation>, b: int, i: nat)
    requires i < |vs| && b <= Bound(vs, i)
    requires forall j :: 0 <= j < i ==> Bound(vs, j) < b
    ensures Select(vs, b) == Some(i)
  {
  }

  /** The cumulative bound of the whole list is the traffic total on the
      bucketing scale. */
  lemma {:induction false} CumulativeIsScaledTotal(vs: seq<Variation>, k: nat)
    requires k <= |vs|
    ensures Cumulative(vs, k) == 100 * TrafficTotal(vs[..k])
  {
    if k > 0 {
      CumulativeIsScaledTotal(vs, k - 1);
      assert vs[..k][..k - 1] == vs[..k - 1];
    }
  }

  /** With non-negative traffic, bounds never decrease along the list. */
  lemma {:induction false} CumulativeMonotone(vs: seq<Variation>, j: nat, k: nat)
    requires j <= k <= |vs|
    requires forall v :: v in vs ==> v.traffic >= 0
    ensures Cumulative(vs, j) <= Cumulative(vs, k)
  {
    if j < k {
      CumulativeMonotone(vs, j, k - 1);
      assert vs[k - 1] in vs;
    }
  }

  /** Traffic summing to 100 leaves no bucket value undecided. */
  lemma FullAllocationAlwaysSelects(vs: seq<Variation>, b: int)
    requires TrafficTotal(vs) == 100
    requires 1 <= b <= MaxTrafficVal
    ensures Select(vs, b).Some?
  {
    CumulativeIsScaledTotal(vs, |vs|);
    assert vs[..|vs|] == vs;
    assert |vs| > 0;
    assert Bound(vs, |vs| - 1) == MaxTrafficVal;
  }

  /** Bucket values above the cumulative total of a short allocation
      select nothing: the experiment contributes no decision. */
  lemma UncoveredRemainderSelectsNothing(vs: seq<Variation>, b: int)
    requires forall v :: v in vs ==> v.traffic >= 0
    requires b > 100 * TrafficTotal(vs)
    ensures Select(vs, b).None?
  {
    CumulativeIsScaledTotal(vs, |vs|);
    assert vs[..|vs|] == vs;
    var r := Select(vs, b);
    if r.Some? {
      CumulativeMonotone(vs, r.value + 1, |vs|);
      assert false;
    }
  }

  /** With non-negative traffic, variation `i` is selected exactly by the
      bucket values in its range (Cumulative(i), Cumulative(i + 1)], whose
      width is its traffic times 100. */
  lemma SelectRange(vs: seq<Variation>, b: int, i: nat)
    requires forall v :: v in vs ==> v.traffic >= 0
    requires i < |vs| && b >= 1
    ensures Select(vs, b) == Some(i) <==> Cumulative(vs, i) < b <= Cumulative(vs, i + 1)
  {
    var r := Select(vs, b);
    if Cumulative(vs, i) < b <= Cumulative(vs, i + 1) {
      forall j | 0 <= j < i
        ensures Bound(vs, j) < b
      {
        CumulativeMonotone(vs, j + 1, i);
      }
      SelectIsFirstCovering(vs, b, i);
    }
    if r == Some(i) && i > 0 {
      assert Bound(vs, i - 1) < b;
    }
  }

  /** The cutover example: weights 30/70 send bucket 3000 to the first
      variation and bucket 3001 to the second. */
  lemma CutoverExample(a: Variation, b: Variation)
    requires a.traffic == 30 && b.traffic == 70
    ensures Select([a, b], 3000) == Some(0)
    ensures Select([a, b], 3001) == Some(1)
  {
    var vs := [a, b];
    assert Cumulative(vs, 1) == 3000;
    SelectRange(vs, 3000, 0);
    SelectRange(vs, 3001, 1);
  }

  /** The hash input `f"{endUserId}:{exp.id}"`. */
  function HashKey(endUserId: int, experimentId: int): string
  {
    IntToDecimal(endUserId) + ":" + IntToDecimal(experimentId)
  }

  /** The bucket value of a visitor in an experiment under `hash`. */
  function BucketOf(hash: string -> Int32, endUserId: int, experimentId: int): (b: int)
    ensures 1 <= b <= MaxTrafficVal
  {
    BucketValue(hash(HashKey(endUserId, experimentId)))
  }
}
