/**
  Axle loads by the lever rule on a two-axle beam, and the limit checks on
  payload and on each axle.
 */
module Axles {
  import opened Wrappers
  import opened Domain
  import opened PlacedItems
  import opened Bounds

  /** Axle positions closer than this count as one point: no axle model. */
  const AxleSpanEps := 1e-9
  /** Slack allowed over each configured limit. */
  const LimitEps := 1e-9

  /** Total weight of the placed units. */
  function SumWeights(placed: seq<PlacedItem>): real
    decreases |placed|
  {
    if placed == [] then 0.0 else placed[0].item.weight + SumWeights(placed[1..])
  }

  lemma {:induction false} SumWeightsAppend(placed: seq<PlacedItem>, p: PlacedItem)
    ensures SumWeights(placed + [p]) == SumWeights(placed) + p.item.weight
    decreases |placed|
  {
    if placed != [] {
      assert (placed + [p])[1..] == placed[1..] + [p];
      SumWeightsAppend(placed[1..], p);
    }
  }

  /** Both axle positions are known and distinct. */
  predicate HasAxleModel(v: Vehicle) {
    v.axleAPosFromHeadM.Some? && v.axleBPosFromHeadM.Some?
    && AbsR(v.axleBPosFromHeadM.value - v.axleAPosFromHeadM.value) >= AxleSpanEps
  }

  /** Distance of a unit's centre from the head wall. */
  function XFromHead(p: PlacedItem, v: Vehicle): real {
    p.z - (-v.innerLength / 2.0)
  }

  /** The share of a unit's weight that axle B carries: `w * (x - a) / (b - a)`. */
  function ShareB(p: PlacedItem, v: Vehicle): real
    requires HasAxleModel(v)
  {
    var a := v.axleAPosFromHeadM.value;
    var span := v.axleBPosFromHeadM.value - a;
    p.item.weight * (XFromHead(p, v) - a) / span
  }

  /** Axle A's total: each unit contributes its weight minus axle B's share. */
  function SumA(placed: seq<PlacedItem>, v: Vehicle): real
    requires HasAxleModel(v)
    decreases |placed|
  {
    if placed == [] then 0.0 else (placed[0].item.weight - ShareB(placed[0], v)) + SumA(placed[1..], v)
  }

  function SumB(placed: seq<PlacedItem>, v: Vehicle): real
    requires HasAxleModel(v)
    decreases |placed|
  {
    if placed == [] then 0.0 else ShareB(placed[0], v) + SumB(placed[1..], v)
  }

  /** Payload, and axle loads by the lever rule when there is an axle model (both zero otherwise). */
  function ComputeLoads(placed: seq<PlacedItem>, v: Vehicle): (l: AxleLoads)
    ensures l.payload == SumWeights(placed)
    ensures !HasAxleModel(v) ==> l.axleA == 0.0 && l.axleB == 0.0
    ensures HasAxleModel(v) ==> l.axleB == SumB(placed, v) && l.axleA == SumA(placed, v)
  {
    if !HasAxleModel(v) then AxleLoads(0.0, 0.0, SumWeights(placed))
    else AxleLoads(SumA(placed, v), SumB(placed, v), SumWeights(placed))
  }

  /** With an axle model, the two axles together carry exactly the payload. */
  lemma {:induction false} AxlesCarryPayload(placed: seq<PlacedItem>, v: Vehicle)
    requires HasAxleModel(v)
    ensures ComputeLoads(placed, v).axleA + ComputeLoads(placed, v).axleB == ComputeLoads(placed, v).payload
    decreases |placed|
  {
    if placed != [] {
      AxlesCarryPayload(placed[1..], v);
    }
  }

  /** A unit centred over axle A loads only A; one centred over axle B loads only B. */
  lemma LeverEndpoints(p: PlacedItem, v: Vehicle)
    requires HasAxleModel(v)
    ensures XFromHead(p, v) == v.axleAPosFromHeadM.value ==>
      ComputeLoads([p], v) == AxleLoads(p.item.weight, 0.0, p.item.weight)
    ensures XFromHead(p, v) == v.axleBPosFromHeadM.value ==>
      ComputeLoads([p], v) == AxleLoads(0.0, p.item.weight, p.item.weight)
  {
    var a := v.axleAPosFromHeadM.value;
    var span := v.axleBPosFromHeadM.value - a;
    assert [p][1..] == [];
    assert SumWeights([p]) == p.item.weight;
    assert SumB([p], v) == ShareB(p, v);
    assert SumA([p], v) == p.item.weight - ShareB(p, v);
    if XFromHead(p, v) == a {
      assert ShareB(p, v) == p.item.weight * 0.0 / span;
    }
    if XFromHead(p, v) == v.axleBPosFromHeadM.value {
      assert ShareB(p, v) == p.item.weight * span / span;
    }
  }

  /** The limit reasons, in order: payload, axle A, axle B; each only when configured and exceeded. */
  function CheckLoads(l: AxleLoads, v: Vehicle): (g: GateResult)
    ensures WellFormed(g)
    ensures ("payload_limit" in g.reasons) <==> (v.payloadMaxKg.Some? && l.payload > v.payloadMaxKg.value + LimitEps)
    ensures ("axleA_limit" in g.reasons) <==> (v.axleALimitKg.Some? && l.axleA > v.axleALimitKg.value + LimitEps)
    ensures ("axleB_limit" in g.reasons) <==> (v.axleBLimitKg.Some? && l.axleB > v.axleBLimitKg.value + LimitEps)
    ensures forall r :: r in g.reasons ==> r in ["payload_limit", "axleA_limit", "axleB_limit"]
    ensures v.payloadMaxKg.None? && v.axleALimitKg.None? && v.axleBLimitKg.None? ==> g.ok
  {
    var p := if v.payloadMaxKg.Some? && l.payload > v.payloadMaxKg.value + LimitEps then ["payload_limit"] else [];
    var a := if v.axleALimitKg.Some? && l.axleA > v.axleALimitKg.value + LimitEps then ["axleA_limit"] else [];
    var b := if v.axleBLimitKg.Some? && l.axleB > v.axleBLimitKg.value + LimitEps then ["axleB_limit"] else [];
    var reasons := p + a + b;
    GateResult(|reasons| == 0, reasons)
  }

  /** The load check with the candidate added to the placed units. */
  function WouldPassWithCandidate(placed: seq<PlacedItem>, c: Candidate, it: Item, v: Vehicle): (r: (GateResult, AxleLoads))
    ensures r.1.payload == SumWeights(placed) + it.weight
    ensures r.1 == ComputeLoads(placed + [PlacedFromCandidate(c, it)], v)
    ensures r.0 == CheckLoads(r.1, v)
  {
    var tmp := placed + [PlacedFromCandidate(c, it)];
    SumWeightsAppend(placed, PlacedFromCandidate(c, it));
    var loads := ComputeLoads(tmp, v);
    (CheckLoads(loads, v), loads)
  }
}
