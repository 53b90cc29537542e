/**
  Zoning of the hold along its length (A at the head to D at the tail), the
  soft bonuses and penalties a candidate earns for its zone, the optional hard
  rule, and the queue key.
 */
module Policies {
  import opened Wrappers
  import opened Domain
  import opened ItemCatalog
  import opened Coeff

  /** Fractions of the hold length given to zones A, B, C and D. */
  datatype ZoneConfig = ZoneConfig(a: real, b: real, c: real, d: real)

  const DefaultZones := ZoneConfig(0.25, 0.25, 0.25, 0.25)

  datatype Zone = A | B | C | D

  function ZoneIndex(z: Zone): nat {
    match z
    case A => 0
    case B => 1
    case C => 2
    case D => 3
  }

  predicate HeadHalf(z: Zone) {
    z == A || z == B
  }

  /** Distance of a centre from the head wall. */
  function XFromHead(z: real, v: Vehicle): (x: real)
    ensures x == z + v.innerLength / 2.0
    ensures z == -v.innerLength / 2.0 ==> x == 0.0
  {
    z + v.innerLength / 2.0
  }

  /** The head distance clamped to `[0, L]`. */
  function ClampedX(z: real, v: Vehicle): real {
    var x := XFromHead(z, v);
    var x1 := if x < 0.0 then 0.0 else x;
    if x1 > v.innerLength then v.innerLength else x1
  }

  /** Where zone A ends, measured from the head wall. */
  function AEnd(v: Vehicle, cfg: ZoneConfig): real {
    v.innerLength * cfg.a
  }

  /** Where zone B ends. */
  function BEnd(v: Vehicle, cfg: ZoneConfig): real {
    AEnd(v, cfg) + v.innerLength * cfg.b
  }

  /** Where zone C ends; zone D runs from here to the tail. */
  function CEnd(v: Vehicle, cfg: ZoneConfig): real {
    BEnd(v, cfg) + v.innerLength * cfg.c
  }

  /**
    The zone of a centre: the first zone whose end the clamped head distance
    does not pass, so each boundary belongs to the zone nearer the head.
   */
  function ZoneForZ(z: real, v: Vehicle, cfg: ZoneConfig): (zone: Zone)
    ensures zone == A <==> ClampedX(z, v) <= AEnd(v, cfg)
    ensures zone == B <==> AEnd(v, cfg) < ClampedX(z, v) <= BEnd(v, cfg)
    ensures zone == C <==> AEnd(v, cfg) < ClampedX(z, v) && BEnd(v, cfg) < ClampedX(z, v) <= CEnd(v, cfg)
    ensures zone == D <==> (
      && ClampedX(z, v) > AEnd(v, cfg)
      && ClampedX(z, v) > BEnd(v, cfg)
      && ClampedX(z, v) > CEnd(v, cfg))
  {
    var l := v.innerLength;
    var x := ClampedX(z, v);
    var aEnd := l * cfg.a;
    var bEnd := aEnd + l * cfg.b;
    var cEnd := bEnd + l * cfg.c;
    if x <= aEnd then A
    else if x <= bEnd then B
    else if x <= cEnd then C
    else D
  }

  lemma ClampedXMonotone(z1: real, z2: real, v: Vehicle)
    requires z1 <= z2
    ensures ClampedX(z1, v) <= ClampedX(z2, v)
  {
  }

  /** Further from the head never means an earlier zone (for non-negative fractions). */
  lemma ZoneMonotone(z1: real, z2: real, v: Vehicle, cfg: ZoneConfig)
    requires z1 <= z2
    requires v.innerLength >= 0.0 && cfg.a >= 0.0 && cfg.b >= 0.0 && cfg.c >= 0.0
    ensures ZoneIndex(ZoneForZ(z1, v, cfg)) <= ZoneIndex(ZoneForZ(z2, v, cfg))
  {
    ClampedXMonotone(z1, z2, v);
  }

  /** With the default quarters, each zone is one quarter of the hold, in order from the head. */
  lemma DefaultZonesAreQuarters(z: real, v: Vehicle)
    requires v.innerLength > 0.0
    ensures ZoneForZ(z, v, DefaultZones) == A <==> ClampedX(z, v) <= v.innerLength / 4.0
    ensures ZoneForZ(z, v, DefaultZones) == B <==> v.innerLength / 4.0 < ClampedX(z, v) <= v.innerLength / 2.0
    ensures ZoneForZ(z, v, DefaultZones) == C <==> v.innerLength / 2.0 < ClampedX(z, v) <= 3.0 * v.innerLength / 4.0
    ensures ZoneForZ(z, v, DefaultZones) == D <==> ClampedX(z, v) > 3.0 * v.innerLength / 4.0
  {
  }

  /** The policy settings with the code's defaults; `None` for the mixed threshold means the weight one. */
  datatype PolicySettings = PolicySettings(
    hiWeightAbs: real,
    hiVolAbs: real,
    hiWeightAbsMixed: Option<real>,
    wHiAbBonus: real,
    wHiCdPenalty: real,
    wLoCdBonus: real,
    wLoAbPenalty: real,
    vBigAbcBonus: real,
    vBigDPenalty: real,
    vSmallCdBonus: real,
    bigFootprintM2: real,
    mHiAbBonus: real,
    mLoAbPenalty: real,
    oversizeBonus: real,
    boxAbPenalty: real,
    boxCdBonus: real,
    hardOversizeInD: bool,
    zones: ZoneConfig,
    classPriority: Option<map<ItemClassName, int>>)

  const DefaultPolicySettings := PolicySettings(
    700.0, 1.0, None,
    2.0, 3.0, 0.5, 0.5,
    1.0, 2.0, 0.5, 1.6,
    1.5, 0.5,
    0.8, 0.7, 1.5,
    false, DefaultZones, None)

  /** Every bonus and penalty coefficient is non-negative. */
  predicate NonNegativeCoefficients(ps: PolicySettings) {
    ps.wHiAbBonus >= 0.0 && ps.wHiCdPenalty >= 0.0 && ps.wLoCdBonus >= 0.0 && ps.wLoAbPenalty >= 0.0
    && ps.vBigAbcBonus >= 0.0 && ps.vBigDPenalty >= 0.0 && ps.vSmallCdBonus >= 0.0
    && ps.mHiAbBonus >= 0.0 && ps.mLoAbPenalty >= 0.0
    && ps.oversizeBonus >= 0.0 && ps.boxAbPenalty >= 0.0 && ps.boxCdBonus >= 0.0
  }

  /** Heavy (weight and mixed modes) or bulky (volume mode) by the configured thresholds. */
  function IsHighValue(it: Item, md: ModeDecision, ps: PolicySettings): (hi: bool)
    ensures md.mode == WeightMode ==> (hi <==> MaxR(0.0, it.weight) >= ps.hiWeightAbs)
    ensures md.mode == VolumeMode ==> (hi <==> it.Volume() >= ps.hiVolAbs)
    ensures md.mode == MixedMode && ps.hiWeightAbsMixed.None? ==> (hi <==> MaxR(0.0, it.weight) >= ps.hiWeightAbs)
    ensures md.mode == MixedMode && ps.hiWeightAbsMixed.Some? ==> (hi <==> MaxR(0.0, it.weight) >= ps.hiWeightAbsMixed.value)
  {
    var thrMixed := ps.hiWeightAbsMixed.GetOr(ps.hiWeightAbs);
    var w := MaxR(0.0, it.weight);
    var vol := MaxR(0.0, it.width) * MaxR(0.0, it.length) * MaxR(0.0, it.height);
    match md.mode
    case WeightMode => w >= ps.hiWeightAbs
    case VolumeMode => vol >= ps.hiVolAbs
    case MixedMode => w >= thrMixed
  }

  /** A pair of soft terms: `(bonus, penalty)`. */
  datatype Terms = Terms(bonus: real, penalty: real)

  /** The zone guidance of the current mode. */
  function ModeTerms(md: ModeDecision, hi: bool, zone: Zone, footprint: real, ps: PolicySettings): (t: Terms)
    ensures md.mode == WeightMode && hi ==> t == (if HeadHalf(zone) then Terms(ps.wHiAbBonus, 0.0) else Terms(0.0, ps.wHiCdPenalty))
    ensures md.mode == WeightMode && !hi ==> t == (if HeadHalf(zone) then Terms(0.0, ps.wLoAbPenalty) else Terms(ps.wLoCdBonus, 0.0))
    ensures md.mode == VolumeMode && footprint >= ps.bigFootprintM2 ==>
      t == (if zone != D then Terms(ps.vBigAbcBonus, 0.0) else Terms(0.0, ps.vBigDPenalty))
    ensures md.mode == VolumeMode && footprint < ps.bigFootprintM2 ==>
      t == (if HeadHalf(zone) then Terms(0.0, 0.0) else Terms(ps.vSmallCdBonus, 0.0))
    ensures md.mode == MixedMode ==>
      t == (if !HeadHalf(zone) then Terms(0.0, 0.0) else if hi then Terms(ps.mHiAbBonus, 0.0) else Terms(0.0, ps.mLoAbPenalty))
  {
    match md.mode
    case WeightMode =>
      if hi then (if zone == A || zone == B then Terms(ps.wHiAbBonus, 0.0) else Terms(0.0, ps.wHiCdPenalty))
      else (if zone == C || zone == D then Terms(ps.wLoCdBonus, 0.0) else Terms(0.0, ps.wLoAbPenalty))
    case VolumeMode =>
      if footprint >= ps.bigFootprintM2 then
        (if zone != D then Terms(ps.vBigAbcBonus, 0.0) else Terms(0.0, ps.vBigDPenalty))
      else
        (if zone == C || zone == D then Terms(ps.vSmallCdBonus, 0.0) else Terms(0.0, 0.0))
    case MixedMode =>
      var b := if hi && (zone == A || zone == B) then ps.mHiAbBonus else 0.0;
      var p := if !hi && (zone == A || zone == B) then ps.mLoAbPenalty else 0.0;
      Terms(b, p)
  }

  /** The class guidance: oversize earns a bonus; a box is penalised at the head and rewarded elsewhere. */
  function ClassTerms(cls: ItemClassName, zone: Zone, ps: PolicySettings): (t: Terms)
    ensures cls == OversizeClass ==> t == Terms(ps.oversizeBonus, 0.0)
    ensures cls == BoxClass ==> t == (if HeadHalf(zone) then Terms(0.0, ps.boxAbPenalty) else Terms(ps.boxCdBonus, 0.0))
    ensures cls == StandardClass || cls == OtherClass ==> t == Terms(0.0, 0.0)
  {
    var b := if cls == OversizeClass then ps.oversizeBonus else 0.0;
    if cls == BoxClass then
      (if zone == A || zone == B then Terms(b, ps.boxAbPenalty) else Terms(b + ps.boxCdBonus, 0.0))
    else Terms(b, 0.0)
  }

  /** A policy verdict: hard reasons (non-empty means forbidden), soft terms, and the tags. */
  datatype PolicyDecision = PolicyDecision(
    hardRejectReasons: seq<string>,
    zonePenalty: real,
    zoneBonus: real,
    zone: Zone,
    cls: ItemClassName,
    hi: bool)

  /** The soft and hard policy verdict for placing `it` as candidate `c`. */
  function EvaluateCandidatePolicy(it: Item, c: Candidate, v: Vehicle, md: ModeDecision,
                                   ps: PolicySettings, allowHardRules: bool): (pd: PolicyDecision)
    ensures pd.zone == ZoneForZ(c.z, v, ps.zones)
    ensures pd.cls == ItemClass(it, Some(v.innerWidth)) && pd.hi == IsHighValue(it, md, ps)
    ensures pd.zoneBonus == ModeTerms(md, pd.hi, pd.zone, it.width * it.length, ps).bonus + ClassTerms(pd.cls, pd.zone, ps).bonus
    ensures pd.zonePenalty == ModeTerms(md, pd.hi, pd.zone, it.width * it.length, ps).penalty + ClassTerms(pd.cls, pd.zone, ps).penalty
    ensures pd.hardRejectReasons == [] || pd.hardRejectReasons == ["oversize_in_D"]
    ensures pd.hardRejectReasons != [] <==>
      allowHardRules && ps.hardOversizeInD && pd.cls == OversizeClass && pd.zone == D
    ensures NonNegativeCoefficients(ps) ==> pd.zoneBonus >= 0.0 && pd.zonePenalty >= 0.0
  {
    var zone := ZoneForZ(c.z, v, ps.zones);
    var cls := ItemClass(it, Some(v.innerWidth));
    var hi := IsHighValue(it, md, ps);
    var mt := ModeTerms(md, hi, zone, it.width * it.length, ps);
    var ct := ClassTerms(cls, zone, ps);
    var hard := if allowHardRules && ps.hardOversizeInD && cls == OversizeClass && zone == D then ["oversize_in_D"] else [];
    PolicyDecision(hard, mt.penalty + ct.penalty, mt.bonus + ct.bonus, zone, cls, hi)
  }

  /** The net soft term a candidate earns. */
  function Net(pd: PolicyDecision): real {
    pd.zoneBonus - pd.zonePenalty
  }

  /**
    With the default settings, in weight mode a heavy unit always earns more
    at the head half of the hold than at the tail half, whatever its class.
   */
  lemma HeavyUnitPrefersHead(it: Item, c1: Candidate, c2: Candidate, v: Vehicle, md: ModeDecision)
    requires md.mode == WeightMode && MaxR(0.0, it.weight) >= DefaultPolicySettings.hiWeightAbs
    requires HeadHalf(ZoneForZ(c1.z, v, DefaultZones)) && !HeadHalf(ZoneForZ(c2.z, v, DefaultZones))
    ensures Net(EvaluateCandidatePolicy(it, c1, v, md, DefaultPolicySettings, false))
          > Net(EvaluateCandidatePolicy(it, c2, v, md, DefaultPolicySettings, false))
  {
  }

  /** The default class priorities: oversize, standard, other, box. */
  function DefaultClassPriority(cls: ItemClassName): int {
    match cls
    case OversizeClass => 0
    case StandardClass => 1
    case OtherClass => 2
    case BoxClass => 3
  }

  /**
    The queue key `(class priority, -K)`: earlier class first, then larger K.
    K is recomputed here exactly as the value function computes it.
   */
  function SortKeyForQueue(it: Item, v: Vehicle, md: ModeDecision, ps: PolicySettings): (key: (int, real))
    ensures key.1 == -ComputeK(it, md)
    ensures ps.classPriority.None? ==> key.0 == DefaultClassPriority(ItemClass(it, Some(v.innerWidth)))
    ensures ps.classPriority.Some? ==>
      key.0 == (var cls := ItemClass(it, Some(v.innerWidth));
                if cls in ps.classPriority.value then ps.classPriority.value[cls] else 99)
  {
    var cls := ItemClass(it, Some(v.innerWidth));
    var pr := if ps.classPriority.Some? then
        (if cls in ps.classPriority.value then ps.classPriority.value[cls] else 99)
      else DefaultClassPriority(cls);
    QueueKAgrees(it, md);
    (pr, -QueueK(it, md))
  }

  /** The ratio and volume as the queue key spells them out are the unit's own. */
  lemma InlineFactors(it: Item)
    ensures (if it.ratio.Some? && it.ratio.value > 0.0 then it.ratio.value else 1.0) == EffectiveRatio(it)
    ensures MaxR(0.0, it.width) * MaxR(0.0, it.length) * MaxR(0.0, it.height) == it.Volume()
  {
    assert MaxR(0.0, it.width) == MaxR(it.width, 0.0) && MaxR(0.0, it.length) == MaxR(it.length, 0.0);
    assert MaxR(0.0, it.height) == MaxR(it.height, 0.0);
  }

  /** K as the queue key computes it inline, without the value function. */
  function QueueK(it: Item, md: ModeDecision): real {
    var r := if it.ratio.Some? && it.ratio.value > 0.0 then it.ratio.value else 1.0;
    var w := MaxR(0.0, it.weight);
    var vol := MaxR(0.0, it.width) * MaxR(0.0, it.length) * MaxR(0.0, it.height);
    match md.mode
    case WeightMode => w * r
    case VolumeMode => vol * r
    case MixedMode =>
      var alpha := md.alpha.GetOr(0.5);
      alpha * (w * r) + (1.0 - alpha) * (vol * r)
  }

  /** The inline K of the queue key agrees with the value function in every mode. */
  lemma QueueKAgrees(it: Item, md: ModeDecision)
    ensures QueueK(it, md) == ComputeK(it, md)
  {
    InlineFactors(it);
    var r := EffectiveRatio(it);
    var w := MaxR(0.0, it.weight);
    var vol := it.Volume();
    assert QueueK(it, md) == match md.mode
      case WeightMode => w * r
      case VolumeMode => vol * r
      case MixedMode => md.alpha.GetOr(0.5) * (w * r) + (1.0 - md.alpha.GetOr(0.5)) * (vol * r);
  }

  /** Under the default priorities an oversize unit queues before any unit of another class. */
  lemma OversizeQueuesFirst(it1: Item, it2: Item, v: Vehicle, md: ModeDecision)
    requires ItemClass(it1, Some(v.innerWidth)) == OversizeClass
    requires ItemClass(it2, Some(v.innerWidth)) != OversizeClass
    ensures SortKeyForQueue(it1, v, md, DefaultPolicySettings).0 < SortKeyForQueue(it2, v, md, DefaultPolicySettings).0
  {
  }
}
