/**
  The floor candidates of one iteration: every template pack in the largest
  free rectangles, each pack under a fresh id, then every single placement of
  every unit at the corners of every rectangle it fits, in both rotations.
 */
module Generators {
  import opened Wrappers
  import opened Text
  import opened Ordering
  import opened Domain
  import opened Aabb
  import opened FreeRects
  import opened ItemCatalog
  import opened Patterns

  /** Slack when testing whether a footprint fits a rectangle. */
  const AnchorEps := 1e-9
  /** Only this many of the largest free rectangles are scanned. */
  const MaxScanRects: nat := 250

  /** The first occurrence of each point, in order; points already in `seen` are dropped. */
  function DedupFrom(pts: seq<(real, real)>, seen: set<(real, real)>): (r: seq<(real, real)>)
    ensures |r| <= |pts|
    ensures forall p :: p in r ==> p in pts && p !in seen
    ensures forall p :: p in pts ==> p in seen || p in r
    ensures forall i, j :: 0 <= i < j < |r| ==> r[i] != r[j]
    decreases |pts|
  {
    if pts == [] then []
    else if pts[0] in seen then DedupFrom(pts[1..], seen)
    else
      var rest := DedupFrom(pts[1..], seen + {pts[0]});
      assert forall p :: p in pts[1..] ==> p in pts;
      [pts[0]] + rest
  }

  /** The footprint's bottom-left corner at `p` keeps it inside `r`, up to `eps`. */
  predicate AnchorInside(p: (real, real), dx: real, dz: real, r: Rect, eps: real) {
    r.minX - eps <= p.0 && p.0 + dx <= r.maxX + eps && r.minZ - eps <= p.1 && p.1 + dz <= r.maxZ + eps
  }

  /**
    The distinct corner positions of a `dx x dz` footprint pushed into each
    corner of `r`; none when it does not fit.
   */
  function AnchorsForRect(r: Rect, dx: real, dz: real): (a: seq<(real, real)>)
    ensures r.maxX - dx < r.minX - AnchorEps || r.maxZ - dz < r.minZ - AnchorEps ==> a == []
    ensures |a| <= 4
    ensures forall i, j :: 0 <= i < j < |a| ==> a[i] != a[j]
    ensures forall p :: p in a ==> (p.0 == r.minX || p.0 == r.maxX - dx) && (p.1 == r.minZ || p.1 == r.maxZ - dz)
    ensures forall p :: p in a ==> AnchorInside(p, dx, dz, r, AnchorEps)
    ensures !(r.maxX - dx < r.minX - AnchorEps || r.maxZ - dz < r.minZ - AnchorEps) ==>
      forall x, z :: (x == r.minX || x == r.maxX - dx) && (z == r.minZ || z == r.maxZ - dz) ==> (x, z) in a
  {
    var x0 := r.minX;
    var x1 := r.maxX - dx;
    var z0 := r.minZ;
    var z1 := r.maxZ - dz;
    if x1 < x0 - AnchorEps || z1 < z0 - AnchorEps then []
    else
      var pts := [(x0, z0), (x1, z0), (x0, z1), (x1, z1)];
      DedupFrom(pts, {})
  }

  /** Slot starts for a template of depth `slotLen`: flush with either end of `rect`, or none if it is too short. */
  function ZAnchorsForLen(rect: Rect, slotLen: real): (zs: seq<real>)
    ensures (rect.maxZ - rect.minZ) + FitEps < slotLen ==> zs == []
    ensures (rect.maxZ - rect.minZ) + FitEps >= slotLen ==> zs == [rect.minZ, rect.maxZ - slotLen]
    ensures forall z :: z in zs ==> rect.minZ - FitEps <= z && z + slotLen <= rect.maxZ + FitEps
  {
    if (rect.maxZ - rect.minZ) + FitEps < slotLen then [] else [rect.minZ, rect.maxZ - slotLen]
  }

  /** The pack with `patternId` set to `pid` on every member; nothing else changes. */
  function AssignPatternId(pack: seq<Candidate>, pid: string): (r: seq<Candidate>)
    ensures |r| == |pack|
    ensures forall i :: 0 <= i < |r| ==> "patternId" in r[i].meta && r[i].meta["patternId"] == MStr(pid)
    ensures forall i :: 0 <= i < |r| ==> r[i].(meta := pack[i].meta) == pack[i]
    ensures forall i :: 0 <= i < |r| ==> r[i].meta.Keys == pack[i].meta.Keys + {"patternId"}
    ensures forall i, k :: 0 <= i < |r| && k in pack[i].meta && k != "patternId" ==> r[i].meta[k] == pack[i].meta[k]
  {
    seq(|pack|, i requires 0 <= i < |pack| => pack[i].(meta := pack[i].meta["patternId" := MStr(pid)]))
  }

  /** The id of the `n`-th pack: "p0", "p1", ... */
  function PackId(n: nat): (s: string)
    ensures |s| >= 2 && s[0] == 'p'
  {
    "p" + NatToString(n)
  }

  lemma PackIdInjective(m: nat, n: nat)
    requires PackId(m) == PackId(n)
    ensures m == n
  {
    assert PackId(m)[1..] == NatToString(m);
    assert PackId(n)[1..] == NatToString(n);
    NatToStringInjective(m, n);
  }

  /**
    A prefix of a list sorted by decreasing area keeps the largest entries:
    nothing left behind is larger than anything kept.
   */
  lemma {:induction false} PrefixKeepsLargest(sorted: seq<Rect>, n: nat, all: multiset<Rect>, rs: seq<Rect>)
    requires n <= |sorted| && rs == sorted[..n] && all == multiset(sorted)
    requires forall i, j :: 0 <= i < j < |sorted| ==> RectArea(sorted[i]) >= RectArea(sorted[j])
    ensures multiset(rs) <= all
    ensures forall r, q :: r in all - multiset(rs) && q in rs ==> RectArea(q) >= RectArea(r)
  {
    assert sorted == rs + sorted[n..];
    assert all == multiset(rs) + multiset(sorted[n..]);
    forall r, q | r in all - multiset(rs) && q in rs
      ensures RectArea(q) >= RectArea(r)
    {
      assert r in sorted[n..];
      var k :| 0 <= k < |sorted[n..]| && sorted[n..][k] == r;
      var i :| 0 <= i < n && rs[i] == q;
      assert sorted[i] == q && sorted[n + k] == r;
    }
  }

  /** Sorting key for largest first: Python's `key=rect_area, reverse=True` as an ascending key. */
  function AreaKey(r: Rect): (int, real) {
    (0, -RectArea(r))
  }

  /** Sorting by `AreaKey` keeps the rectangles and puts them in order of decreasing area. */
  lemma SortedByArea(free: seq<Rect>)
    ensures forall r :: r in SortBy(free, AreaKey) ==> r in free
    ensures var sorted := SortBy(free, AreaKey);
      forall i, j :: 0 <= i < j < |sorted| ==> RectArea(sorted[i]) >= RectArea(sorted[j])
  {
    var sorted := SortBy(free, AreaKey);
    forall r | r in sorted
      ensures r in free
    {
      assert r in multiset(sorted);
    }
    forall i, j | 0 <= i < j < |sorted|
      ensures RectArea(sorted[i]) >= RectArea(sorted[j])
    {
      assert KeyLe(AreaKey(sorted[i]), AreaKey(sorted[j]));
    }
  }

  /** The largest-first prefix of the free rectangles, with the facts the scan relies on. */
  lemma {:induction false} ScanPrefix(free: seq<Rect>)
    ensures var rs := Top(SortBy(free, AreaKey), MaxScanRects);
      && |rs| == Min(|free|, MaxScanRects)
      && multiset(rs) <= multiset(free)
      && (forall r :: r in rs ==> r in free)
      && (forall i, j :: 0 <= i < j < |rs| ==> RectArea(rs[i]) >= RectArea(rs[j]))
      && (forall r, q :: r in multiset(free) - multiset(rs) && q in rs ==> RectArea(q) >= RectArea(r))
  {
    var sorted := SortBy(free, AreaKey);
    SortedByArea(free);
    ScanPrefixOf(free, sorted, Top(sorted, MaxScanRects));
  }

  /** The facts of `ScanPrefix` for a given sorted list and its prefix. */
  lemma ScanPrefixOf(free: seq<Rect>, sorted: seq<Rect>, rs: seq<Rect>)
    requires multiset(sorted) == multiset(free) && |sorted| == |free|
    requires forall i, j :: 0 <= i < j < |sorted| ==> RectArea(sorted[i]) >= RectArea(sorted[j])
    requires |rs| == Min(|sorted|, MaxScanRects) && rs == sorted[..|rs|]
    ensures && |rs| == Min(|free|, MaxScanRects)
      && multiset(rs) <= multiset(free)
      && (forall r :: r in rs ==> r in free)
      && (forall i, j :: 0 <= i < j < |rs| ==> RectArea(rs[i]) >= RectArea(rs[j]))
      && (forall r, q :: r in multiset(free) - multiset(rs) && q in rs ==> RectArea(q) >= RectArea(r))
  {
    PrefixKeepsLargest(sorted, |rs|, multiset(free), rs);
    forall r | r in rs
      ensures r in free
    {
      assert r in multiset(rs);
    }
  }

  /**
    The scanned rectangles: the free ones by decreasing area (ties in list
    order), at most 250, and no free rectangle left out is larger than one
    kept.
   */
  function ScanRects(free: seq<Rect>): (rs: seq<Rect>)
    ensures |rs| == Min(|free|, MaxScanRects)
    ensures multiset(rs) <= multiset(free)
    ensures forall r :: r in rs ==> r in free
    ensures forall i, j :: 0 <= i < j < |rs| ==> RectArea(rs[i]) >= RectArea(rs[j])
    ensures forall r, q :: r in multiset(free) - multiset(rs) && q in rs ==> RectArea(q) >= RectArea(r)
  {
    ScanPrefix(free);
    Top(SortBy(free, AreaKey), MaxScanRects)
  }

  /** The units matching `f`, in order. */
  function Filter(items: seq<Item>, f: Item -> bool): (r: seq<Item>)
    ensures |r| <= |items|
    ensures forall it :: it in r <==> it in items && f(it)
    decreases |items|
  {
    if items == [] then []
    else
      var rest := Filter(items[1..], f);
      assert forall it :: it in items <==> it == items[0] || it in items[1..];
      if f(items[0]) then [items[0]] + rest else rest
  }

  /**
    Filtering keeps order: it distributes over concatenation and keeps or
    drops a single unit by the test, so the pools list the window's units in
    window order.
   */
  lemma {:induction false} FilterAppend(a: seq<Item>, b: seq<Item>, f: Item -> bool)
    ensures Filter(a + b, f) == Filter(a, f) + Filter(b, f)
    ensures |a| == 1 ==> Filter(a, f) == if f(a[0]) then a else []
    decreases |a|
  {
    if a == [] {
      assert a + b == b;
    } else {
      FilterAppend(a[1..], b, f);
      TailOfAppend(a, b);
      FilterUnfold(a + b, f);
      FilterUnfold(a, f);
      var h := if f(a[0]) then [a[0]] else [];
      ConsStep(Filter(a + b, f), Filter(a, f), h, Filter(a[1..], f), Filter(b, f));
      if |a| == 1 {
        assert a[1..] == [];
      }
    }
  }

  /** Dropping the head of a concatenation with a non-empty left part. */
  lemma TailOfAppend<T>(a: seq<T>, b: seq<T>)
    requires a != []
    ensures (a + b)[0] == a[0] && (a + b)[1..] == a[1..] + b
  {
  }

  /** Putting the same head in front of a concatenation and of its left part. */
  lemma ConsStep<T>(x: seq<T>, y: seq<T>, h: seq<T>, ra: seq<T>, rb: seq<T>)
    requires x == h + (ra + rb) && y == h + ra
    ensures x == y + rb
  {
  }

  /** One step of the filter: the first unit's verdict, then the rest. */
  lemma FilterUnfold(s: seq<Item>, f: Item -> bool)
    requires s != []
    ensures Filter(s, f) == (if f(s[0]) then [s[0]] else []) + Filter(s[1..], f)
  {
  }

  /** The four templates, scanned in this order in every rectangle. */
  datatype Template = Across3 | BigPlus80 | ThreePlus2 | ZigzagTemplate

  /** The slot depth each template needs. */
  function SlotLen(t: Template): real {
    match t
    case Across3 => 1.20
    case BigPlus80 => 1.20
    case ThreePlus2 => 2.00
    case ZigzagTemplate => 2.00
  }

  /** The packs of one template at one slot start (under the placeholder id "scan"). */
  function TemplatePacks(t: Template, r: Rect, std: seq<Item>, big: seq<Item>, z0: real): (ps: seq<seq<Candidate>>)
    ensures forall p :: p in ps ==> 2 <= |p| <= 5
  {
    match t
    case Across3 => Gen3Across(r, std, z0, "scan")
    case BigPlus80 => Gen140Plus80(r, big, std, z0, "scan")
    case ThreePlus2 => Gen3Plus2(r, std, z0, "scan")
    case ZigzagTemplate => GenZigzag(r, std, z0, "scan")
  }

  function AnchorPacks(t: Template, r: Rect, std: seq<Item>, big: seq<Item>, zs: seq<real>): (ps: seq<seq<Candidate>>)
    ensures forall p :: p in ps ==> 2 <= |p| <= 5
    decreases |zs|
  {
    if zs == [] then []
    else TemplatePacks(t, r, std, big, zs[0]) + AnchorPacks(t, r, std, big, zs[1..])
  }

  /** All packs of one rectangle: 3-across, 140+80, 3+2, zigzag, each at every slot start. */
  function RectPacks(r: Rect, std: seq<Item>, big: seq<Item>): (ps: seq<seq<Candidate>>)
    ensures forall p :: p in ps ==> 2 <= |p| <= 5
  {
    AnchorPacks(Across3, r, std, big, ZAnchorsForLen(r, SlotLen(Across3)))
    + AnchorPacks(BigPlus80, r, std, big, ZAnchorsForLen(r, SlotLen(BigPlus80)))
    + AnchorPacks(ThreePlus2, r, std, big, ZAnchorsForLen(r, SlotLen(ThreePlus2)))
    + AnchorPacks(ZigzagTemplate, r, std, big, ZAnchorsForLen(r, SlotLen(ZigzagTemplate)))
  }

  function AllPacks(rects: seq<Rect>, std: seq<Item>, big: seq<Item>): (ps: seq<seq<Candidate>>)
    ensures forall p :: p in ps ==> 2 <= |p| <= 5
    decreases |rects|
  {
    if rects == [] then [] else RectPacks(rects[0], std, big) + AllPacks(rects[1..], std, big)
  }

  /**
    Pack `i` gets the id `PackId(start + i)` on each of its members; the
    members keep their order, their poses and every other meta entry.
   */
  function NumberPacks(packs: seq<seq<Candidate>>, start: nat): (r: seq<seq<Candidate>>)
    ensures |r| == |packs|
    ensures forall i :: 0 <= i < |r| ==> |r[i]| == |packs[i]|
    ensures forall i, a :: 0 <= i < |r| && 0 <= a < |r[i]| ==>
      "patternId" in r[i][a].meta && r[i][a].meta["patternId"] == MStr(PackId(start + i))
    ensures forall i, a :: 0 <= i < |r| && 0 <= a < |r[i]| ==> r[i][a].(meta := packs[i][a].meta) == packs[i][a]
    ensures forall i, a, k :: 0 <= i < |r| && 0 <= a < |r[i]| && k in packs[i][a].meta && k != "patternId" ==>
      k in r[i][a].meta && r[i][a].meta[k] == packs[i][a].meta[k]
  {
    seq(|packs|, i requires 0 <= i < |packs| => AssignPatternId(packs[i], PackId(start + i)))
  }

  /** Members of different packs never share a pattern id, so grouping by id gives back the packs. */
  lemma NumberedPacksHaveDistinctIds(packs: seq<seq<Candidate>>, start: nat, i: nat, j: nat, a: nat, b: nat)
    requires i < |packs| && j < |packs|
    requires a < |packs[i]| && b < |packs[j]|
    requires NumberPacks(packs, start)[i][a].meta["patternId"] == NumberPacks(packs, start)[j][b].meta["patternId"]
    ensures i == j
  {
    var r: seq<seq<Candidate>> := NumberPacks(packs, start);
    assert r[i][a].meta["patternId"] == MStr(PackId(start + i));
    assert r[j][b].meta["patternId"] == MStr(PackId(start + j));
    PackIdInjective(start + i, start + j);
  }

  function Flatten(packs: seq<seq<Candidate>>): (r: seq<Candidate>)
    ensures forall p, c :: p in packs && c in p ==> c in r
    ensures forall c :: c in r ==> exists p :: p in packs && c in p
    decreases |packs|
  {
    if packs == [] then [] else packs[0] + Flatten(packs[1..])
  }

  /** A single placement: the footprint's corner at `(ax, az)`, standing on the floor. */
  function SingleCandidate(it: Item, rot: int, r: Rect, ax: real, az: real): (c: Candidate)
    ensures c.kind == "single" && c.itemId == it.id && c.rotationY == rot
    ensures (c.dx, c.dz) == SlotDims(it, rot) && c.dy == it.height
    ensures c.x == ax + c.dx / 2.0 && c.z == az + c.dz / 2.0 && c.y == 0.0
    ensures c.aabb.minX == ax && c.aabb.minZ == az && c.aabb.minY == 0.0 && c.aabb.maxY == it.height
    ensures c.aabb.maxX == ax + c.dx && c.aabb.maxZ == az + c.dz
    ensures PatternKey(c) == None
  {
    var (dx, dz) := SlotDims(it, rot);
    var dy := it.height;
    var x := ax + dx / 2.0;
    var z := az + dz / 2.0;
    Candidate(it.id, x, 0.0, z, rot, dx, dy, dz, FromCenter(x, dy / 2.0, z, dx, dy, dz), "single",
              map["rect" := MRect(r), "anchor" := MPair(ax, az)])
  }

  function AnchorSingles(it: Item, rot: int, r: Rect, anchors: seq<(real, real)>): seq<Candidate> {
    seq(|anchors|, i requires 0 <= i < |anchors| => SingleCandidate(it, rot, r, anchors[i].0, anchors[i].1))
  }

  /** A single placement that lies, up to the slack, inside one of `rects`. */
  predicate SingleIn(c: Candidate, it: Item, rects: seq<Rect>) {
    && "rect" in c.meta && c.meta["rect"].MRect?
    && (var r := c.meta["rect"].rect;
        && c == SingleCandidate(it, c.rotationY, r, c.aabb.minX, c.aabb.minZ)
        && (c.rotationY == 0 || c.rotationY == 90)
        && r in rects
        && AnchorInside((c.aabb.minX, c.aabb.minZ), c.dx, c.dz, r, AnchorEps))
  }

  /** The rectangle is wide and long enough, up to the slack, for a `dx x dz` footprint. */
  predicate RectFits(r: Rect, dx: real, dz: real) {
    !((r.maxX - r.minX) + AnchorEps < dx || (r.maxZ - r.minZ) + AnchorEps < dz)
  }

  /** `p` is a corner anchor of `r` for `it` at rotation `rot`, and the rectangle is large enough. */
  predicate Corner(it: Item, rot: int, r: Rect, p: (real, real)) {
    var (dx, dz) := SlotDims(it, rot);
    RectFits(r, dx, dz) && p in AnchorsForRect(r, dx, dz)
  }

  /** The placements at the anchors of one rectangle of `rects` lie inside it. */
  lemma HereInside(it: Item, rot: int, r: Rect, rects: seq<Rect>)
    requires rot == 0 || rot == 90
    requires r in rects
    ensures forall c :: c in AnchorSingles(it, rot, r, AnchorsForRect(r, SlotDims(it, rot).0, SlotDims(it, rot).1)) ==>
      SingleIn(c, it, rects)
  {
    var (dx, dz) := SlotDims(it, rot);
    var anchors := AnchorsForRect(r, dx, dz);
    var here := AnchorSingles(it, rot, r, anchors);
    forall c | c in here
      ensures SingleIn(c, it, rects)
    {
      var i :| 0 <= i < |here| && here[i] == c;
      assert anchors[i] in anchors;
    }
  }

  /** Placements inside the rectangles after the first lie inside the whole list. */
  lemma RestInside(it: Item, rects: seq<Rect>, rest: seq<Candidate>)
    requires rects != []
    requires forall c :: c in rest ==> SingleIn(c, it, rects[1..])
    ensures forall c :: c in rest ==> SingleIn(c, it, rects)
  {
    forall c | c in rest
      ensures SingleIn(c, it, rects)
    {
      assert c.meta["rect"].rect in rects[1..];
    }
  }

  /** Every corner placement of `it` at rotation `rot` over the rectangles wide and long enough. */
  function RectSingles(it: Item, rot: int, rects: seq<Rect>): (cs: seq<Candidate>)
    requires rot == 0 || rot == 90
    ensures forall c :: c in cs ==> SingleIn(c, it, rects)
    decreases |rects|
  {
    if rects == [] then []
    else
      var r := rects[0];
      var (dx, dz) := SlotDims(it, rot);
      var rest := RectSingles(it, rot, rects[1..]);
      RestInside(it, rects, rest);
      if !RectFits(r, dx, dz) then rest
      else
        HereInside(it, rot, r, rects);
        AnchorSingles(it, rot, r, AnchorsForRect(r, dx, dz)) + rest
  }

  /** Every corner anchor of every rectangle the footprint fits gives a placement. */
  lemma {:induction false} RectSinglesComplete(it: Item, rot: int, rects: seq<Rect>)
    requires rot == 0 || rot == 90
    ensures forall r, p :: r in rects && Corner(it, rot, r, p) ==> SingleCandidate(it, rot, r, p.0, p.1) in RectSingles(it, rot, rects)
    decreases |rects|
  {
    if rects != [] {
      var (dx, dz) := SlotDims(it, rot);
      var cs := RectSingles(it, rot, rects);
      var rest := RectSingles(it, rot, rects[1..]);
      RectSinglesComplete(it, rot, rects[1..]);
      forall r, p | r in rects && Corner(it, rot, r, p)
        ensures SingleCandidate(it, rot, r, p.0, p.1) in cs
      {
        if r == rects[0] {
          var anchors := AnchorsForRect(r, dx, dz);
          var here := AnchorSingles(it, rot, r, anchors);
          assert cs == here + rest;
          var i :| 0 <= i < |anchors| && anchors[i] == p;
          assert here[i] == SingleCandidate(it, rot, r, p.0, p.1);
        } else {
          assert r in rects[1..];
          assert SingleCandidate(it, rot, r, p.0, p.1) in rest;
        }
      }
    }
  }

  /**
    Every unit, in both rotations, over every scanned rectangle: each single
    is an anchored placement of a unit, and every anchored placement of
    every unit is there.
   */
  function Singles(items: seq<Item>, rects: seq<Rect>): (cs: seq<Candidate>)
    ensures forall c :: c in cs ==> PatternKey(c) == None && c.kind == "single"
    ensures forall c :: c in cs ==> exists k :: 0 <= k < |items| && SingleIn(c, items[k], rects)
    ensures forall k, rot, r, p :: 0 <= k < |items| && (rot == 0 || rot == 90) && r in rects && Corner(items[k], rot, r, p) ==>
      SingleCandidate(items[k], rot, r, p.0, p.1) in cs
  {
    SinglesSound(items, rects);
    SinglesComplete(items, rects);
    SinglesOf(items, rects)
  }

  /** The singles loop itself: unit by unit, rotation 0 then 90, rectangle by rectangle. */
  function SinglesOf(items: seq<Item>, rects: seq<Rect>): (cs: seq<Candidate>)
    ensures forall c :: c in cs ==> PatternKey(c) == None && c.kind == "single"
    decreases |items|
  {
    if items == [] then []
    else RectSingles(items[0], 0, rects) + RectSingles(items[0], 90, rects) + SinglesOf(items[1..], rects)
  }

  lemma {:induction false} SinglesSound(items: seq<Item>, rects: seq<Rect>)
    ensures forall c :: c in SinglesOf(items, rects) ==> exists k :: 0 <= k < |items| && SingleIn(c, items[k], rects)
    decreases |items|
  {
    if items != [] {
      var rest := SinglesOf(items[1..], rects);
      SinglesSound(items[1..], rects);
      forall c | c in SinglesOf(items, rects)
        ensures exists k :: 0 <= k < |items| && SingleIn(c, items[k], rects)
      {
        if c in rest {
          var k :| 0 <= k < |items[1..]| && SingleIn(c, items[1..][k], rects);
          assert items[1..][k] == items[k + 1];
        } else {
          assert SingleIn(c, items[0], rects);
        }
      }
    }
  }

  lemma {:induction false} SinglesComplete(items: seq<Item>, rects: seq<Rect>)
    ensures forall k, rot, r, p :: 0 <= k < |items| && (rot == 0 || rot == 90) && r in rects && Corner(items[k], rot, r, p) ==>
      SingleCandidate(items[k], rot, r, p.0, p.1) in SinglesOf(items, rects)
    decreases |items|
  {
    if items != [] {
      var cs := SinglesOf(items, rects);
      var rest := SinglesOf(items[1..], rects);
      SinglesComplete(items[1..], rects);
      RectSinglesComplete(items[0], 0, rects);
      RectSinglesComplete(items[0], 90, rects);
      forall k, rot, r, p | 0 <= k < |items| && (rot == 0 || rot == 90) && r in rects && Corner(items[k], rot, r, p)
        ensures SingleCandidate(items[k], rot, r, p.0, p.1) in cs
      {
        if k == 0 {
          if rot == 0 {
            assert SingleCandidate(items[0], 0, r, p.0, p.1) in RectSingles(items[0], 0, rects);
          } else {
            assert SingleCandidate(items[0], 90, r, p.0, p.1) in RectSingles(items[0], 90, rects);
          }
        } else {
          assert items[1..][k - 1] == items[k];
          assert SingleCandidate(items[k], rot, r, p.0, p.1) in rest;
        }
      }
    }
  }

  /** Every member of a pack under id `pid` carries that id. */
  lemma AssignedKeyed(pack: seq<Candidate>, pid: string, c: Candidate)
    requires c in AssignPatternId(pack, pid) && |pid| >= 1
    ensures PatternKey(c) == Some(MStr(pid))
  {
    var r := AssignPatternId(pack, pid);
    var a :| 0 <= a < |r| && r[a] == c;
  }

  /** Member `a` of numbered pack `i` carries the id of pack number `start + i`. */
  lemma NumberedMemberKeyed(packs: seq<seq<Candidate>>, start: nat, i: nat, a: nat)
    requires i < |packs| && a < |packs[i]|
    ensures PatternKey(NumberPacks(packs, start)[i][a]) == Some(MStr(PackId(start + i)))
  {
    assert NumberPacks(packs, start)[i][a].meta["patternId"] == MStr(PackId(start + i));
  }

  lemma NumberedMembersKeyed(packs: seq<seq<Candidate>>, start: nat)
    ensures forall c :: c in Flatten(NumberPacks(packs, start)) ==> PatternKey(c).Some?
  {
    var r := NumberPacks(packs, start);
    forall c | c in Flatten(r)
      ensures PatternKey(c).Some?
    {
      var p :| p in r && c in p;
      var i :| 0 <= i < |r| && r[i] == p;
      var a :| 0 <= a < |p| && p[a] == c;
      NumberedMemberKeyed(packs, start, i, a);
    }
  }

  /** The packs of every scanned rectangle, numbered "p0", "p1", ... in scan order. */
  function NumberedPacks(free: seq<Rect>, items: seq<Item>): seq<seq<Candidate>> {
    var rects := ScanRects(free);
    var std := Filter(items, (it: Item) => IsStandard80x120(it, SizeTolerance));
    var big := Filter(items, (it: Item) => Is140x120(it, SizeTolerance));
    NumberPacks(AllPacks(rects, std, big), 0)
  }

  /** The single placements over the scanned rectangles. */
  function SingleCandidates(free: seq<Rect>, items: seq<Item>): seq<Candidate> {
    Singles(items, ScanRects(free))
  }

  /**
    All floor candidates: the members of every numbered pack, pack after
    pack, then the single placements.
   */
  function GenerateFloorCandidates(free: seq<Rect>, items: seq<Item>): seq<Candidate> {
    Flatten(NumberedPacks(free, items)) + SingleCandidates(free, items)
  }

  /**
    The floor candidates hold every member of every numbered pack, and each
    one without a pattern id is a single placement.
   */
  lemma FloorCandidatesCover(free: seq<Rect>, items: seq<Item>)
    ensures forall p, c :: p in NumberedPacks(free, items) && c in p ==> c in GenerateFloorCandidates(free, items)
    ensures forall c :: c in GenerateFloorCandidates(free, items) && PatternKey(c).None? ==>
      c in SingleCandidates(free, items)
  {
    var rects := ScanRects(free);
    var std := Filter(items, (it: Item) => IsStandard80x120(it, SizeTolerance));
    var big := Filter(items, (it: Item) => Is140x120(it, SizeTolerance));
    NumberedMembersKeyed(AllPacks(rects, std, big), 0);
  }

  /** Every single placement among the floor candidates is one of a unit of the window. */
  lemma SinglesNameWindowUnits(free: seq<Rect>, items: seq<Item>, c: Candidate)
    requires c in GenerateFloorCandidates(free, items) && PatternKey(c).None?
    ensures exists it :: it in items && it.id == c.itemId
  {
    FloorCandidatesCover(free, items);
    var k :| 0 <= k < |items| && SingleIn(c, items[k], ScanRects(free));
    assert items[k] in items;
  }

  /** A single placement generated for the first `n` of a queue names a unit of the queue. */
  lemma SinglesNameQueuedUnits(free: seq<Rect>, queue: seq<Item>, n: int, c: Candidate)
    requires c in GenerateFloorCandidates(free, Top(queue, n)) && PatternKey(c).None?
    ensures exists it :: it in queue && it.id == c.itemId
  {
    SinglesNameWindowUnits(free, Top(queue, n), c);
    TopWithin(queue, n);
  }
}
