/**
  Which resource is scarce for this load (weight, floor, or neither), and the
  per-unit value K that orders the queue and scores candidates.
 */
module Coeff {
  import opened Wrappers
  import opened Domain

  /** The settings the mode detector reads. */
  datatype CoeffSettings = CoeffSettings(
    eps: real,                 // floor for every capacity divisor
    threshold: real,           // pressure at which a resource counts as scarce
    fillFloorDefault: real,    // floor fill factor when the vehicle gives none
    fillVolumeDefault: real)   // volume fill factor when the vehicle gives none

  predicate ValidSettings(s: CoeffSettings) {
    s.eps > 0.0
  }

  /** A unit's floor demand: its ratio when given and positive, else 1.0. */
  function EffectiveRatio(it: Item): (r: real)
    ensures r > 0.0
    ensures it.ratio.Some? && it.ratio.value > 0.0 ==> r == it.ratio.value
    ensures !(it.ratio.Some? && it.ratio.value > 0.0) ==> r == 1.0
  {
    if it.ratio.Some? && it.ratio.value > 0.0 then it.ratio.value else 1.0
  }

  function TotalWeight(items: seq<Item>): (t: real)
    ensures t >= 0.0
    decreases |items|
  {
    if items == [] then 0.0 else MaxR(0.0, items[0].weight) + TotalWeight(items[1..])
  }

  function TotalVolume(items: seq<Item>): (t: real)
    ensures t >= 0.0
    decreases |items|
  {
    if items == [] then 0.0 else items[0].Volume() + TotalVolume(items[1..])
  }

  function TotalFloorDemand(items: seq<Item>): (t: real)
    ensures t >= 0.0
    ensures items != [] ==> t > 0.0
    decreases |items|
  {
    if items == [] then 0.0 else EffectiveRatio(items[0]) + TotalFloorDemand(items[1..])
  }

  /** `n / d` is at most one when `0 <= n <= d` and `d > 0`. */
  lemma DivAtMostOne(n: real, d: real)
    requires 0.0 <= n <= d && d > 0.0
    ensures 0.0 <= n / d <= 1.0
  {
  }

  lemma DivNonNegative(n: real, d: real)
    requires n >= 0.0 && d > 0.0
    ensures n / d >= 0.0
  {
  }

  /** Pressure as the code computes it: demand over capacity, the capacity floored at `eps`. */
  function Pressure(demand: real, capacity: real, eps: real): (p: real)
    requires eps > 0.0
    ensures demand >= 0.0 ==> p >= 0.0
    ensures 0.0 <= demand <= capacity ==> p <= 1.0
  {
    var d := MaxR(capacity, eps);
    if demand >= 0.0 then DivNonNegative(demand, d); demand / d
    else demand / d
  }

  /** The weight capacity: the payload limit, else the total weight but at least 1. */
  function WeightCapacity(items: seq<Item>, v: Vehicle): real {
    if v.payloadMaxKg.Some? then v.payloadMaxKg.value else MaxR(TotalWeight(items), 1.0)
  }

  /** The floor capacity in standard pallet places: floor area times its fill factor (one place per square metre). */
  function FloorCapacity(v: Vehicle, s: CoeffSettings): real {
    v.innerWidth * v.innerLength * v.fillFactorFloor.GetOr(s.fillFloorDefault)
  }

  /** The volume capacity: hold volume times its fill factor. */
  function VolumeCapacity(v: Vehicle, s: CoeffSettings): real {
    v.innerWidth * v.innerLength * v.innerHeight * v.fillFactorVolume.GetOr(s.fillVolumeDefault)
  }

  function Clamp(lo: real, hi: real, x: real): real {
    MinR(hi, MaxR(lo, x))
  }

  /**
    Weight mode when weight pressure reaches the threshold and floor pressure
    does not; volume mode in the mirror case; otherwise mixed, with alpha the
    clamped difference of the two pressures. No units: mixed, zero pressures,
    alpha 0.5.
   */
  function DetectMode(items: seq<Item>, v: Vehicle, s: CoeffSettings): (d: ModeDecision)
    requires ValidSettings(s)
    ensures items == [] ==> d == ModeDecision(MixedMode, 0.0, 0.0, 0.0, Some(0.5))
    ensures d.weightPressure >= 0.0 && d.floorPressure >= 0.0
    ensures items != [] ==>
      (d.mode == WeightMode <==> d.weightPressure >= s.threshold && d.floorPressure < s.threshold)
    ensures items != [] ==>
      (d.mode == VolumeMode <==> d.floorPressure >= s.threshold && d.weightPressure < s.threshold)
    ensures d.mode != MixedMode <==> d.alpha.None?
    ensures d.alpha.Some? ==> 0.2 <= d.alpha.value <= 0.8
    ensures items != [] && d.mode == MixedMode ==>
      d.alpha == Some(Clamp(0.2, 0.8, (d.weightPressure - d.floorPressure + 1.0) / 2.0))
    ensures v.payloadMaxKg.None? ==> d.weightPressure <= 1.0
    ensures items != [] ==> d.weightPressure == Pressure(TotalWeight(items), WeightCapacity(items, v), s.eps)
    ensures items != [] ==> d.floorPressure == Pressure(TotalFloorDemand(items), FloorCapacity(v, s), s.eps)
    ensures items != [] ==> d.volumePressure == Pressure(TotalVolume(items), VolumeCapacity(v, s), s.eps)
  {
    if items == [] then ModeDecision(MixedMode, 0.0, 0.0, 0.0, Some(0.5))
    else
      var tw := TotalWeight(items);
      var tv := TotalVolume(items);
      var tf := TotalFloorDemand(items);
      var wp := Pressure(tw, WeightCapacity(items, v), s.eps);
      var fp := Pressure(tf, FloorCapacity(v, s), s.eps);
      var vp := Pressure(tv, VolumeCapacity(v, s), s.eps);
      if wp >= s.threshold && fp < s.threshold then ModeDecision(WeightMode, wp, fp, vp, None)
      else if fp >= s.threshold && wp < s.threshold then ModeDecision(VolumeMode, wp, fp, vp, None)
      else ModeDecision(MixedMode, wp, fp, vp, Some(Clamp(0.2, 0.8, (wp - fp + 1.0) / 2.0)))
  }

  /** The two pure values a blend of K mixes: weight times ratio, and volume times ratio. */
  function WeightValue(it: Item): real {
    MaxR(0.0, it.weight) * EffectiveRatio(it)
  }

  function VolumeValue(it: Item): real {
    it.Volume() * EffectiveRatio(it)
  }

  /** The source's inline volume, with the clamps written `max(0, x)`, is the unit's volume. */
  lemma InlineVolume(it: Item)
    ensures MaxR(0.0, it.width) * MaxR(0.0, it.length) * MaxR(0.0, it.height) == it.Volume()
  {
    assert MaxR(0.0, it.width) == MaxR(it.width, 0.0);
    assert MaxR(0.0, it.length) == MaxR(it.length, 0.0);
    assert MaxR(0.0, it.height) == MaxR(it.height, 0.0);
  }

  /** The unit's value K under a mode: weight-based, volume-based, or their alpha-blend (alpha 0.5 if unset). */
  function ComputeK(it: Item, md: ModeDecision): (k: real)
    ensures md.mode == WeightMode ==> k == WeightValue(it)
    ensures md.mode == VolumeMode ==> k == VolumeValue(it)
    ensures md.mode == MixedMode ==>
      var a := md.alpha.GetOr(0.5);
      k == a * WeightValue(it) + (1.0 - a) * VolumeValue(it)
  {
    var r := EffectiveRatio(it);
    var w := MaxR(0.0, it.weight);
    var vol := MaxR(0.0, it.width) * MaxR(0.0, it.length) * MaxR(0.0, it.height);
    InlineVolume(it);
    match md.mode
    case WeightMode => w * r
    case VolumeMode => vol * r
    case MixedMode =>
      var alpha := md.alpha.GetOr(0.5);
      alpha * (w * r) + (1.0 - alpha) * (vol * r)
  }

  lemma ProductNonNegative(a: real, b: real)
    requires a >= 0.0 && b >= 0.0
    ensures a * b >= 0.0
  {
  }

  /** A convex combination of two values lies between them. */
  lemma MixBetween(a: real, x: real, y: real)
    requires 0.0 <= a <= 1.0
    ensures MinR(x, y) <= a * x + (1.0 - a) * y <= MaxR(x, y)
  {
    ScaledMixBetween(a, x, y);
  }

  /** A product under a name, so that the blend proofs stay linear in the named products. */
  function Scale(c: real, u: real): real
  {
    c * u
  }

  /** MixBetween over named products: each end is split by the weight and each part is compared. */
  lemma ScaledMixBetween(a: real, x: real, y: real)
    requires 0.0 <= a <= 1.0
    ensures MinR(x, y) <= Scale(a, x) + Scale(1.0 - a, y) <= MaxR(x, y)
  {
    WeightSplits(a, x);
    WeightSplits(a, y);
    if x <= y {
      ScaleMonotone(a, x, y);
      ScaleMonotone(1.0 - a, x, y);
    } else {
      ScaleMonotone(a, y, x);
      ScaleMonotone(1.0 - a, y, x);
    }
  }

  /** A value is the sum of its two weighted parts. */
  lemma WeightSplits(a: real, x: real)
    ensures Scale(a, x) + Scale(1.0 - a, x) == x
  {
  }

  /** Scaling by a non-negative factor keeps the order. */
  lemma ScaleMonotone(c: real, u: real, v: real)
    requires c >= 0.0 && u <= v
    ensures Scale(c, u) <= Scale(c, v)
  {
    ProductNonNegative(c, v - u);
  }

  lemma ComputeKBounds(it: Item, md: ModeDecision)
    requires md.alpha.None? || 0.0 <= md.alpha.value <= 1.0
    ensures ComputeK(it, md) >= 0.0
    ensures md.mode == MixedMode ==>
      MinR(WeightValue(it), VolumeValue(it)) <= ComputeK(it, md) <= MaxR(WeightValue(it), VolumeValue(it))
  {
    var wv, vv := WeightValue(it), VolumeValue(it);
    assert wv >= 0.0 by { ProductNonNegative(MaxR(0.0, it.weight), EffectiveRatio(it)); }
    assert vv >= 0.0 by { ProductNonNegative(it.Volume(), EffectiveRatio(it)); }
    match md.mode
    case WeightMode =>
    case VolumeMode =>
    case MixedMode =>
      MixBetween(md.alpha.GetOr(0.5), wv, vv);
  }

  /** The detector's own decisions always carry an alpha in [0.2, 0.8] or none, so their K is never negative. */
  lemma DetectedKNonNegative(items: seq<Item>, v: Vehicle, s: CoeffSettings, it: Item)
    requires ValidSettings(s)
    ensures ComputeK(it, DetectMode(items, v, s)) >= 0.0
  {
    ComputeKBounds(it, DetectMode(items, v, s));
  }
}
