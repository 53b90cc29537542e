/**
  The mutable state of one planning run, as an immutable record: the hold,
  the mode, the units by id, what is placed so far, the free floor, the
  last axle loads and the debug trail. Each operation returns the next state.
 */
module PlanStates {
  import opened Wrappers
  import opened Domain
  import opened Aabb
  import opened FreeRects
  import opened PlacedItems
  import opened Bounds
  import opened Axles

  datatype PlanState = PlanState(
    taskId: string,
    transportType: string,
    vehicle: Vehicle,
    mode: ModeDecision,
    debug: seq<DebugEvent>,
    itemsById: map<string, Item>,
    placed: seq<PlacedItem>,
    unplaced: seq<Item>,
    freeRects: seq<Rect>,
    loads: Option<AxleLoads>)

  /** A fresh state: nothing placed, no free rectangles yet, no loads. */
  function NewState(taskId: string, transportType: string, v: Vehicle, md: ModeDecision,
                    itemsById: map<string, Item>): (st: PlanState)
    ensures st.placed == [] && st.unplaced == [] && st.freeRects == [] && st.loads.None? && st.debug == []
    ensures st.vehicle == v && st.mode == md && st.itemsById == itemsById
  {
    PlanState(taskId, transportType, v, md, [], itemsById, [], [], [], None)
  }

  /** The footprint a candidate occupies on the floor. */
  function Footprint(c: Candidate): Rect {
    FloorRect(c.aabb)
  }

  /** The free floor becomes the hold's whole floor; nothing else changes. */
  function InitFreeRects(st: PlanState): (st': PlanState)
    ensures |st'.freeRects| == 1
    ensures st'.freeRects[0] == FloorRect(HoldBox(st.vehicle, 0.0))
    ensures st' == st.(freeRects := st'.freeRects)
  {
    st.(freeRects := InitForVehicle(st.vehicle))
  }

  /** Appends one event to the debug trail; the earlier trail and everything else are kept. */
  function Emit(st: PlanState, evt: string): (st': PlanState)
    ensures |st'.debug| == |st.debug| + 1 && st'.debug[..|st.debug|] == st.debug
    ensures st'.debug[|st.debug|].evt == evt
    ensures st' == st.(debug := st'.debug)
  {
    st.(debug := st.debug + [DebugEvent(evt)])
  }

  /**
    The three gates in order: inside the hold, clear of every placed unit,
    then the axle and payload limits with the candidate added. The first gate
    that fails supplies the reasons; a pass carries none.
   */
  function CanPlace(st: PlanState, c: Candidate): (g: GateResult)
    requires c.itemId in st.itemsById
    ensures WellFormed(g)
    ensures !CheckOob(c, st.vehicle).ok ==> g.reasons == ["oob"]
    ensures CheckOob(c, st.vehicle).ok && !CheckCollision(c, st.placed).ok ==> g.reasons == ["collision"]
    ensures CheckOob(c, st.vehicle).ok && CheckCollision(c, st.placed).ok ==>
      g.reasons == CheckLoads(ComputeLoads(st.placed + [PlacedFromCandidate(c, st.itemsById[c.itemId])], st.vehicle), st.vehicle).reasons
    ensures g.ok <==>
      (&& !OutOfBounds(c.aabb, st.vehicle, BoxEps)
       && (forall i :: 0 <= i < |st.placed| ==> !Intersects(c.aabb, st.placed[i].aabb, BoxEps))
       && CheckLoads(ComputeLoads(st.placed + [PlacedFromCandidate(c, st.itemsById[c.itemId])], st.vehicle), st.vehicle).ok)
  {
    var oob := CheckOob(c, st.vehicle);
    if !oob.ok then oob
    else
      var col := CheckCollision(c, st.placed);
      if !col.ok then col
      else
        var loads := WouldPassWithCandidate(st.placed, c, st.itemsById[c.itemId], st.vehicle);
        if !loads.0.ok then loads.0 else GateResult(true, [])
  }

  /**
    Commits a candidate: appends the placed unit, carves its footprint out of
    the free floor with tolerances `t`, and recomputes the loads.
   */
  function CommitWith(st: PlanState, c: Candidate, t: Tolerances): (st': PlanState)
    requires c.itemId in st.itemsById
    ensures st'.placed == st.placed + [PlacedFromCandidate(c, st.itemsById[c.itemId])]
    ensures st'.loads == Some(ComputeLoads(st'.placed, st.vehicle))
    ensures st'.loads.value.payload == SumWeights(st.placed) + st.itemsById[c.itemId].weight
    ensures st'.freeRects == Reserve(st.freeRects, Footprint(c), t)
    ensures st' == st.(placed := st'.placed, freeRects := st'.freeRects, loads := st'.loads)
  {
    var p := PlacedFromCandidate(c, st.itemsById[c.itemId]);
    var placed := st.placed + [p];
    SumWeightsAppend(st.placed, p);
    st.(placed := placed, freeRects := Reserve(st.freeRects, Footprint(c), t),
        loads := Some(ComputeLoads(placed, st.vehicle)))
  }

  /** Commit with the free-rectangle code's own tolerances. */
  function Commit(st: PlanState, c: Candidate): (st': PlanState)
    requires c.itemId in st.itemsById
    ensures st' == CommitWith(st, c, DefaultTolerances)
    ensures |st'.placed| == |st.placed| + 1 && st'.placed[..|st.placed|] == st.placed
  {
    CommitWith(st, c, DefaultTolerances)
  }

  /** The plan as it stands. */
  function Snapshot(st: PlanState): (res: PlanResult)
    ensures res.placed == st.placed && res.unplaced == st.unplaced && res.loads == st.loads
    ensures res.debug == st.debug && res.vehicle == st.vehicle && res.mode == st.mode
    ensures res.taskId == st.taskId && res.transportType == st.transportType
  {
    PlanResult(st.taskId, st.transportType, st.vehicle, st.mode, st.placed, st.unplaced, st.loads, st.debug)
  }

  // ---------------------------------------------------------------------------
  // Invariants kept by the gate-then-commit discipline
  // ---------------------------------------------------------------------------

  /** No two placed units overlap by more than the 1e-9 contact tolerance `BoxEps`. */
  predicate Disjoint(placed: seq<PlacedItem>) {
    forall i, j :: 0 <= i < |placed| && 0 <= j < |placed| && i != j ==>
      !Intersects(placed[i].aabb, placed[j].aabb, BoxEps)
  }

  /** Every placed footprint has positive area and is clear of every free rectangle. */
  predicate FreeClearOfPlaced(st: PlanState) {
    forall i :: 0 <= i < |st.placed| ==>
      StrictlyOrdered(FloorRect(st.placed[i].aabb)) && AllClear(st.freeRects, FloorRect(st.placed[i].aabb))
  }

  /** A candidate that passed the gates, once committed, leaves the placed units pairwise disjoint. */
  lemma CommitKeepsDisjoint(st: PlanState, c: Candidate, t: Tolerances)
    requires c.itemId in st.itemsById
    requires Disjoint(st.placed) && CanPlace(st, c).ok
    ensures Disjoint(CommitWith(st, c, t).placed)
  {
    var placed := CommitWith(st, c, t).placed;
    var n := |st.placed|;
    forall i, j | 0 <= i < |placed| && 0 <= j < |placed| && i != j
      ensures !Intersects(placed[i].aabb, placed[j].aabb, BoxEps)
    {
      if j == n {
        assert placed[i] == st.placed[i];
        IntersectsSymmetric(placed[i].aabb, c.aabb, BoxEps);
      } else if i == n {
        assert placed[j] == st.placed[j];
      } else {
        assert placed[i] == st.placed[i] && placed[j] == st.placed[j];
      }
    }
  }

  /** A candidate that passed the gates, once committed, leaves loads within every configured limit. */
  lemma CommitKeepsLoadsWithinLimits(st: PlanState, c: Candidate, t: Tolerances)
    requires c.itemId in st.itemsById
    requires CanPlace(st, c).ok
    ensures CheckLoads(CommitWith(st, c, t).loads.value, st.vehicle).ok
  {
  }

  /**
    With exact tolerances, committing a candidate of positive footprint keeps
    every placed footprint, the new one included, clear of the free floor.
   */
  lemma CommitKeepsFreeClear(st: PlanState, c: Candidate, t: Tolerances)
    requires c.itemId in st.itemsById
    requires Exact(t) && StrictlyOrdered(Footprint(c))
    requires FreeClearOfPlaced(st)
    ensures FreeClearOfPlaced(CommitWith(st, c, t))
  {
    var st' := CommitWith(st, c, t);
    var n := |st.placed|;
    forall i | 0 <= i < |st'.placed|
      ensures StrictlyOrdered(FloorRect(st'.placed[i].aabb)) && AllClear(st'.freeRects, FloorRect(st'.placed[i].aabb))
    {
      var w := FloorRect(st'.placed[i].aabb);
      if i == n {
        ReserveClear(st.freeRects, Footprint(c), t, w);
      } else {
        assert st'.placed[i] == st.placed[i];
        ReserveClear(st.freeRects, Footprint(c), t, w);
      }
    }
  }

  /** The fresh floor is clear of nothing yet placed, so the invariant starts true after initialisation. */
  lemma InitKeepsFreeClear(st: PlanState)
    requires st.placed == []
    ensures FreeClearOfPlaced(InitFreeRects(st)) && Disjoint(InitFreeRects(st).placed)
  {
  }

  /** In a hold with no limits configured, the gates reduce to the two geometric tests. */
  lemma NoLimitsOnlyGeometry(st: PlanState, c: Candidate)
    requires c.itemId in st.itemsById
    requires st.vehicle.payloadMaxKg.None? && st.vehicle.axleALimitKg.None? && st.vehicle.axleBLimitKg.None?
    ensures CanPlace(st, c).ok <==> CheckOob(c, st.vehicle).ok && CheckCollision(c, st.placed).ok
  {
  }
}
