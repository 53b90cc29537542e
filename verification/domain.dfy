/**
  The planner's records: floor rectangles and boxes, cargo units, vehicles,
  placement candidates, placed units, axle loads, the mode decision and the
  finished plan with its flattened export form.
 */
module Domain {
  import opened Wrappers

  /** A floor rectangle `(minX, maxX, minZ, maxZ)` in hold-centred coordinates. */
  datatype Rect = Rect(minX: real, maxX: real, minZ: real, maxZ: real)

  /** An axis-aligned bounding box. */
  datatype Box = Box(minX: real, maxX: real, minY: real, maxY: real, minZ: real, maxZ: real)

  /** The XZ footprint of a box. */
  function FloorRect(b: Box): Rect {
    Rect(b.minX, b.maxX, b.minZ, b.maxZ)
  }

  /**
    The hold: inner dimensions, optional payload limit, optional two-axle model
    (positions measured from the head end, and limits) and optional fill factors.
   */
  datatype Vehicle = Vehicle(
    innerWidth: real,
    innerLength: real,
    innerHeight: real,
    fillFactorFloor: Option<real>,
    fillFactorVolume: Option<real>,
    payloadMaxKg: Option<real>,
    axleALimitKg: Option<real>,
    axleBLimitKg: Option<real>,
    axleAPosFromHeadM: Option<real>,
    axleBPosFromHeadM: Option<real>)

  /** One cargo unit; lengths in metres, weight in kilograms, `ratio` its floor demand. */
  datatype Item = Item(
    id: string,
    taskId: Option<string>,
    routeId: Option<string>,
    transportType: Option<string>,
    dropContainerId: Option<string>,
    providerId: Option<string>,
    providerName: Option<string>,
    palletType: Option<string>,
    palletTypeNorm: Option<string>,
    width: real,
    length: real,
    height: real,
    weight: real,
    ratio: Option<real>,
    canBeBase: bool,
    canBeStacked: bool,
    status: string)
  {
    /** Floor area, with negative extents counted as zero. */
    function Footprint(): (a: real)
      ensures a >= 0.0
      ensures width <= 0.0 || length <= 0.0 ==> a == 0.0
      ensures width >= 0.0 && length >= 0.0 ==> a == width * length
    {
      MaxR(width, 0.0) * MaxR(length, 0.0)
    }

    /** Volume, with negative extents counted as zero. */
    function Volume(): (v: real)
      ensures v >= 0.0
      ensures v == Footprint() * MaxR(height, 0.0)
    {
      MaxR(width, 0.0) * MaxR(length, 0.0) * MaxR(height, 0.0)
    }
  }

  /** A unit with only its id given; every other field takes the record's default. */
  function NewItem(id: string): (it: Item)
    ensures it.id == id
    ensures it.width == 0.0 && it.length == 0.0 && it.height == 0.0 && it.weight == 0.0
    ensures it.ratio == Some(1.0) && it.status == "ok"
    ensures it.canBeBase && !it.canBeStacked
    ensures it.Footprint() == 0.0 && it.Volume() == 0.0
  {
    Item(id, None, None, None, None, None, None, None, None,
         0.0, 0.0, 0.0, 0.0, Some(1.0), true, false, "ok")
  }

  /** A value stored in a candidate's free-form metadata. */
  datatype MetaValue = MNone | MStr(s: string) | MInt(i: int) | MReal(r: real) | MRect(rect: Rect) | MPair(a: real, b: real)

  /** Python truthiness of a metadata value. */
  predicate Truthy(v: MetaValue) {
    match v
    case MNone => false
    case MStr(s) => s != ""
    case MInt(i) => i != 0
    case MReal(r) => r != 0.0
    case MRect(_) => true
    case MPair(_, _) => true
  }

  type Meta = map<string, MetaValue>

  /** A proposed placement of one unit: centre, rotation, extents, box, kind and metadata. */
  datatype Candidate = Candidate(
    itemId: string,
    x: real, y: real, z: real,
    rotationY: int,
    dx: real, dy: real, dz: real,
    aabb: Box,
    kind: string,
    meta: Meta)

  /** The pattern group a candidate belongs to: its truthy `patternId`, if any. */
  function PatternKey(c: Candidate): Option<MetaValue> {
    if "patternId" in c.meta && Truthy(c.meta["patternId"]) then Some(c.meta["patternId"]) else None
  }

  /** A committed unit with its pose and box. */
  datatype PlacedItem = PlacedItem(
    item: Item,
    x: real, y: real, z: real,
    rotationY: int,
    dims: (real, real, real),
    aabb: Box,
    corner: (real, real),
    status: string)

  datatype AxleLoads = AxleLoads(axleA: real, axleB: real, payload: real)

  datatype Mode = WeightMode | VolumeMode | MixedMode

  datatype ModeDecision = ModeDecision(
    mode: Mode,
    weightPressure: real,
    floorPressure: real,
    volumePressure: real,
    alpha: Option<real>)

  /** One entry of the debug trail; payloads are not modelled. */
  datatype DebugEvent = DebugEvent(evt: string)

  datatype PlanResult = PlanResult(
    taskId: string,
    transportType: string,
    vehicle: Vehicle,
    mode: ModeDecision,
    placed: seq<PlacedItem>,
    unplaced: seq<Item>,
    loads: Option<AxleLoads>,
    debug: seq<DebugEvent>)

  /** The exported shipping code: the drop-container id when it is non-empty, else the id. */
  function Sscc(it: Item): (s: string)
    ensures s == it.id || it.dropContainerId == Some(s)
    ensures s != "" <== it.id != ""
  {
    if it.dropContainerId.Some? && it.dropContainerId.value != "" then it.dropContainerId.value else it.id
  }

  datatype PlacedEntry = PlacedEntry(
    id: string, sscc: string,
    x: real, y: real, z: real,
    rotationY: int,
    dims: (real, real, real),
    aabb: Box,
    corner: (real, real),
    status: string,
    weight: real,
    ratio: Option<real>,
    palletType: Option<string>,
    palletTypeNorm: Option<string>)

  datatype UnplacedEntry = UnplacedEntry(
    id: string, sscc: string,
    dims: (real, real, real),
    weight: real,
    ratio: Option<real>,
    status: string)

  /** The flattened plan handed to callers. */
  datatype PlanRecord = PlanRecord(
    taskId: string,
    transportType: string,
    vehicle: Vehicle,
    mode: ModeDecision,
    placed: seq<PlacedEntry>,
    unplaced: seq<UnplacedEntry>,
    loads: Option<AxleLoads>,
    debug: seq<DebugEvent>)

  function PlacedEntryOf(p: PlacedItem): PlacedEntry {
    PlacedEntry(p.item.id, Sscc(p.item), p.x, p.y, p.z, p.rotationY, p.dims, p.aabb, p.corner,
                p.status, p.item.weight, p.item.ratio, p.item.palletType, p.item.palletTypeNorm)
  }

  function UnplacedEntryOf(it: Item): UnplacedEntry {
    UnplacedEntry(it.id, Sscc(it), (it.width, it.length, it.height), it.weight, it.ratio, "unplaced")
  }

  /** Flattens a plan: one entry per placed and per unplaced unit, in order. */
  function ToDict(res: PlanResult): (d: PlanRecord)
    ensures |d.placed| == |res.placed| && |d.unplaced| == |res.unplaced|
    ensures forall i :: 0 <= i < |res.placed| ==>
      d.placed[i].id == res.placed[i].item.id && d.placed[i].sscc == Sscc(res.placed[i].item)
      && d.placed[i].aabb == res.placed[i].aabb && d.placed[i].status == res.placed[i].status
    ensures forall i :: 0 <= i < |res.unplaced| ==>
      d.unplaced[i].id == res.unplaced[i].id && d.unplaced[i].sscc == Sscc(res.unplaced[i])
      && d.unplaced[i].status == "unplaced"
    ensures d.loads.None? <==> res.loads.None?
    ensures res.loads.Some? ==> d.loads == res.loads
    ensures d.mode == res.mode && d.debug == res.debug
  {
    PlanRecord(
      res.taskId, res.transportType, res.vehicle, res.mode,
      seq(|res.placed|, i requires 0 <= i < |res.placed| => PlacedEntryOf(res.placed[i])),
      seq(|res.unplaced|, i requires 0 <= i < |res.unplaced| => UnplacedEntryOf(res.unplaced[i])),
      res.loads,
      res.debug)
  }
}
