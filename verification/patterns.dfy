/**
  Multi-pallet templates laid out in a free rectangle: three standard pallets
  across, a 1.40 pallet beside a standard one, three-plus-two, and the
  reversed zigzag. Members are taken in queue order from the front of the
  pool, with a few fixed fallback index tuples instead of a search.
 */
module Patterns {
  import opened Wrappers
  import opened Domain
  import opened Aabb
  import opened ItemCatalog
  import opened PlacedItems

  /** How many of the front standard pallets the variants draw from. */
  const MaxPrefixStd: nat := 14
  /** How many of the front 1.40 pallets the variants draw from. */
  const MaxPrefixBig: nat := 10
  const MaxVariants3: nat := 6
  const MaxVariants5: nat := 8
  const MaxVariants140p80: nat := 20
  /** Slack when comparing a rectangle with a template's size. */
  const FitEps := 1e-9

  /** The first `min(n, |items|)` items, in order; none for `n <= 0`. */
  function Top<T>(items: seq<T>, n: int): (r: seq<T>)
    ensures n <= 0 ==> r == []
    ensures n > 0 ==> |r| == Min(|items|, n)
    ensures r == items[..|r|]
  {
    if n <= 0 then [] else items[..Min(|items|, n)]
  }

  /** The window holds only queued units. */
  lemma TopWithin<T>(items: seq<T>, n: int)
    ensures forall x :: x in Top(items, n) ==> x in items
  {
    var r := Top(items, n);
    forall x | x in r ensures x in items {
      var k :| 0 <= k < |r| && r[k] == x;
      assert items[k] == x;
    }
  }

  /** A 1.40 x 1.20 pallet, either way round. */
  predicate Is140x120(it: Item, tol: real) {
    MatchesEitherWay(it, 1.40, 1.20, tol)
  }

  /** No turn when the unit already lies `wantW` across and `wantL` along; a quarter turn otherwise. */
  function RotFor(it: Item, wantW: real, wantL: real): (rot: int)
    ensures rot == 0 || rot == 90
    ensures rot == 0 <==> Close(it.width, wantW, SizeTolerance) && Close(it.length, wantL, SizeTolerance)
  {
    if AbsR(it.width - wantW) <= SizeTolerance && AbsR(it.length - wantL) <= SizeTolerance then 0 else 90
  }

  /** Floor extents for a template rotation: any turn other than 0 swaps them. */
  function SlotDims(it: Item, rot: int): (d: (real, real))
    ensures rot == 0 ==> d == (it.width, it.length)
    ensures rot != 0 ==> d == (it.length, it.width)
  {
    if rot == 0 then (it.width, it.length) else (it.length, it.width)
  }

  /** A unit of the wanted size, either way round, ends up oriented to the slot. */
  lemma RotForOrients(it: Item, wantW: real, wantL: real)
    requires MatchesEitherWay(it, wantW, wantL, SizeTolerance)
    ensures Close(SlotDims(it, RotFor(it, wantW, wantL)).0, wantW, SizeTolerance)
    ensures Close(SlotDims(it, RotFor(it, wantW, wantL)).1, wantL, SizeTolerance)
  {
  }

  /** Builds a candidate standing on `y`; `kRank` is added as `None` unless the metadata has one. */
  function BuildCandidate(it: Item, x: real, y: real, z: real, rot: int, kind: string, meta: Meta): (c: Candidate)
    ensures c.itemId == it.id && (c.x, c.y, c.z) == (x, y, z) && c.rotationY == rot && c.kind == kind
    ensures (c.dx, c.dz) == SlotDims(it, rot) && c.dy == it.height
    ensures c.aabb.minY == y && c.aabb.maxY == y + it.height
    ensures c.aabb.minX == x - c.dx / 2.0 && c.aabb.maxX == x + c.dx / 2.0
    ensures c.aabb.minZ == z - c.dz / 2.0 && c.aabb.maxZ == z + c.dz / 2.0
    ensures c.meta.Keys == meta.Keys + {"kRank"}
    ensures forall k :: k in meta ==> c.meta[k] == meta[k]
    ensures "kRank" !in meta ==> c.meta["kRank"] == MNone
  {
    var (dx, dz) := if rot == 0 then (it.width, it.length) else (it.length, it.width);
    var dy := it.height;
    var box := FromCenter(x, y + dy / 2.0, z, dx, dy, dz);
    var meta2 := if "kRank" in meta then meta else meta["kRank" := MNone];
    Candidate(it.id, x, y, z, rot, dx, dy, dz, box, kind, meta2)
  }

  /** A template candidate, once accepted, becomes exactly the unit placed at that pose. */
  lemma BuildThenPlaceAgrees(it: Item, x: real, y: real, z: real, rot: int, kind: string, meta: Meta)
    requires rot == 0 || rot == 90
    ensures PlacedFromCandidate(BuildCandidate(it, x, y, z, rot, kind, meta), it) == FromItemAtPose(it, x, y, z, rot)
  {
  }

  // ---------------------------------------------------------------------------
  // Index-tuple variants
  // ---------------------------------------------------------------------------

  predicate AllBelow(t: seq<nat>, n: nat) {
    forall i :: 0 <= i < |t| ==> t[i] < n
  }

  predicate DistinctEntries(t: seq<nat>) {
    forall i, j :: 0 <= i < j < |t| ==> t[i] != t[j]
  }

  /** No two tuples use the same set of indices. */
  predicate DistinctKeys(ts: seq<seq<nat>>) {
    forall i, j :: 0 <= i < j < |ts| ==> multiset(ts[i]) != multiset(ts[j])
  }

  /** The index sets already taken (a tuple's sorted form is its multiset). */
  function Keys(ts: seq<seq<nat>>): set<multiset<nat>> {
    set t | t in ts :: multiset(t)
  }

  /** Keeping a tuple with a fresh index set adds its key and keeps the keys distinct. */
  lemma KeepStep(out: seq<seq<nat>>, seen: set<multiset<nat>>, s: seq<nat>)
    requires seen == Keys(out) && DistinctKeys(out) && multiset(s) !in seen
    ensures Keys(out + [s]) == seen + {multiset(s)}
    ensures DistinctKeys(out + [s])
  {
    var out' := out + [s];
    forall m | m in Keys(out')
      ensures m in seen + {multiset(s)}
    {
      var t :| t in out' && multiset(t) == m;
      if t != s {
        assert t in out;
      }
    }
    forall m | m in seen + {multiset(s)}
      ensures m in Keys(out')
    {
      if m == multiset(s) {
        assert s in out';
      } else {
        var t :| t in out && multiset(t) == m;
        assert t in out';
      }
    }
    forall i | 0 <= i < |out|
      ensures multiset(out'[i]) != multiset(s)
    {
      assert out[i] in out;
    }
  }

  /**
    Walks the candidate tuples in order: skips those with an index out of
    range or an index set already taken, and stops once `cap` are kept.
   */
  function SelectVariants(sets: seq<seq<nat>>, n: nat, cap: nat, seen: set<multiset<nat>>, out: seq<seq<nat>>): (r: seq<seq<nat>>)
    requires seen == Keys(out) && DistinctKeys(out) && |out| < cap
    requires forall t :: t in out ==> AllBelow(t, n)
    ensures |r| <= cap && |out| <= |r| && r[..|out|] == out
    ensures forall t :: t in r ==> AllBelow(t, n) && (t in out || t in sets)
    ensures DistinctKeys(r)
    ensures sets != [] && AllBelow(sets[0], n) && multiset(sets[0]) !in seen ==> |r| > |out| && r[|out|] == sets[0]
    decreases |sets|
  {
    if sets == [] then out
    else
      var s := sets[0];
      if AllBelow(s, n) then
        if multiset(s) in seen then SelectVariants(sets[1..], n, cap, seen, out)
        else
          var out' := out + [s];
          KeepStep(out, seen, s);
          if |out'| >= cap then out'
          else
            var r := SelectVariants(sets[1..], n, cap, seen + {multiset(s)}, out');
            assert r[..|out'|] == out';
            r
      else SelectVariants(sets[1..], n, cap, seen, out)
  }

  /** The trios tried, best first: always (0, 1, 2), then fallbacks that swap in later units. */
  function TrioSets(n: nat): seq<seq<nat>> {
    [[0, 1, 2]]
    + (if n >= 4 then [[0, 1, 3], [0, 2, 3], [1, 2, 3]] else [])
    + (if n >= 5 then [[0, 1, 4], [0, 2, 4]] else [])
  }

  /** The quintuples tried, best first: always (0..4), then fallbacks that swap in later units. */
  function QuintSets(n: nat): seq<seq<nat>> {
    [[0, 1, 2, 3, 4]]
    + (if n >= 6 then [[0, 1, 2, 3, 5], [0, 1, 2, 4, 5], [0, 1, 3, 4, 5]] else [])
    + (if n >= 7 then [[0, 2, 3, 4, 5], [1, 2, 3, 4, 5], [0, 1, 2, 3, 6], [0, 1, 2, 4, 6]] else [])
  }

  /** Strictly increasing entries, checked pairwise from the front. */
  predicate Increasing(t: seq<nat>)
    decreases |t|
  {
    |t| <= 1 || (t[0] < t[1] && Increasing(t[1..]))
  }

  lemma {:induction false} IncreasingDistinct(t: seq<nat>)
    requires Increasing(t)
    ensures DistinctEntries(t)
    ensures forall i :: 0 < i < |t| ==> t[0] < t[i]
    decreases |t|
  {
    if |t| > 1 {
      IncreasingDistinct(t[1..]);
      assert forall i :: 1 < i < |t| ==> t[1] < t[i] by {
        forall i | 1 < i < |t|
          ensures t[1] < t[i]
        {
          assert t[1..][i - 1] == t[i];
        }
      }
      forall i, j | 0 <= i < j < |t|
        ensures t[i] != t[j]
      {
        if i > 0 {
          assert t[1..][i - 1] == t[i] && t[1..][j - 1] == t[j];
        }
      }
    }
  }

  /** Every tuple has `k` strictly increasing entries. */
  predicate AllShaped(ts: seq<seq<nat>>, k: nat)
    decreases |ts|
  {
    ts == [] || (|ts[0]| == k && Increasing(ts[0]) && AllShaped(ts[1..], k))
  }

  lemma {:induction false} AllShapedMember(ts: seq<seq<nat>>, k: nat, t: seq<nat>)
    requires AllShaped(ts, k) && t in ts
    ensures |t| == k && DistinctEntries(t)
    decreases |ts|
  {
    if t == ts[0] {
      IncreasingDistinct(t);
    } else {
      assert t in ts[1..];
      AllShapedMember(ts[1..], k, t);
    }
  }

  lemma {:induction false} AllShapedAppend(a: seq<seq<nat>>, b: seq<seq<nat>>, k: nat)
    requires AllShaped(a, k) && AllShaped(b, k)
    ensures AllShaped(a + b, k)
    decreases |a|
  {
    if a == [] {
      assert a + b == b;
    } else {
      assert (a + b)[0] == a[0] && (a + b)[1..] == a[1..] + b;
      AllShapedAppend(a[1..], b, k);
    }
  }

  lemma TrioSetsShape(n: nat)
    ensures forall t :: t in TrioSets(n) ==> |t| == 3 && DistinctEntries(t)
  {
    var more: seq<seq<nat>> := if n >= 4 then [[0, 1, 3], [0, 2, 3], [1, 2, 3]] else [];
    var most: seq<seq<nat>> := if n >= 5 then [[0, 1, 4], [0, 2, 4]] else [];
    assert AllShaped([[0, 1, 2]], 3);
    assert AllShaped([[0, 1, 3], [0, 2, 3], [1, 2, 3]], 3);
    assert AllShaped([[0, 1, 4], [0, 2, 4]], 3);
    AllShapedAppend([[0, 1, 2]], more, 3);
    AllShapedAppend([[0, 1, 2]] + more, most, 3);
    forall t | t in TrioSets(n)
      ensures |t| == 3 && DistinctEntries(t)
    {
      AllShapedMember(TrioSets(n), 3, t);
    }
  }

  /** A first entry below the second, before an increasing rest, makes an increasing tuple. */
  lemma IncreasingCons(t: seq<nat>)
    requires |t| >= 2 && t[0] < t[1] && Increasing(t[1..])
    ensures Increasing(t)
  {
  }

  /** A quintuple with increasing entries is increasing. */
  lemma IncreasingFive(t: seq<nat>)
    requires |t| == 5 && t[0] < t[1] < t[2] < t[3] < t[4]
    ensures Increasing(t)
  {
    assert Increasing(t[4..]);
    assert t[3..][1..] == t[4..];
    IncreasingCons(t[3..]);
    assert t[2..][1..] == t[3..];
    IncreasingCons(t[2..]);
    assert t[1..][1..] == t[2..];
    IncreasingCons(t[1..]);
    IncreasingCons(t);
  }

  /** Each literal quintuple of the pool's index sets is increasing. */
  lemma QuintBlocksShaped(first: seq<seq<nat>>, more: seq<seq<nat>>, most: seq<seq<nat>>)
    requires first == [[0, 1, 2, 3, 4]]
    requires more == [[0, 1, 2, 3, 5], [0, 1, 2, 4, 5], [0, 1, 3, 4, 5]]
    requires most == [[0, 2, 3, 4, 5], [1, 2, 3, 4, 5], [0, 1, 2, 3, 6], [0, 1, 2, 4, 6]]
    ensures AllShaped(first, 5) && AllShaped(more, 5) && AllShaped(most, 5)
  {
    IncreasingFive(first[0]);
    IncreasingFive(more[0]);
    IncreasingFive(more[1]);
    IncreasingFive(more[2]);
    IncreasingFive(most[0]);
    IncreasingFive(most[1]);
    IncreasingFive(most[2]);
    IncreasingFive(most[3]);
    AllShapedOf(first, 5);
    AllShapedOf(more, 5);
    AllShapedOf(most, 5);
  }

  /** Tuples all of length `k` and increasing are shaped. */
  lemma {:induction false} AllShapedOf(ts: seq<seq<nat>>, k: nat)
    requires forall i :: 0 <= i < |ts| ==> |ts[i]| == k && Increasing(ts[i])
    ensures AllShaped(ts, k)
    decreases |ts|
  {
    if ts != [] {
      assert forall i :: 0 <= i < |ts[1..]| ==> ts[1..][i] == ts[i + 1];
      AllShapedOf(ts[1..], k);
    }
  }

  lemma QuintSetsShape(n: nat)
    ensures forall t :: t in QuintSets(n) ==> |t| == 5 && DistinctEntries(t)
  {
    var first: seq<seq<nat>> := [[0, 1, 2, 3, 4]];
    var more6: seq<seq<nat>> := [[0, 1, 2, 3, 5], [0, 1, 2, 4, 5], [0, 1, 3, 4, 5]];
    var most7: seq<seq<nat>> := [[0, 2, 3, 4, 5], [1, 2, 3, 4, 5], [0, 1, 2, 3, 6], [0, 1, 2, 4, 6]];
    QuintBlocksShaped(first, more6, most7);
    var more: seq<seq<nat>> := if n >= 6 then more6 else [];
    var most: seq<seq<nat>> := if n >= 7 then most7 else [];
    AllShapedAppend(first, more, 5);
    AllShapedAppend(first + more, most, 5);
    assert QuintSets(n) == first + more + most;
    forall t | t in QuintSets(n)
      ensures |t| == 5 && DistinctEntries(t)
    {
      AllShapedMember(QuintSets(n), 5, t);
    }
  }

  /** The index trios of a pool of `n` units. */
  function TrioIndices(n: nat): (r: seq<seq<nat>>)
    ensures n < 3 ==> r == []
    ensures n >= 3 ==> |r| >= 1 && r[0] == [0, 1, 2]
    ensures |r| <= MaxVariants3
    ensures forall t :: t in r ==> |t| == 3 && DistinctEntries(t) && AllBelow(t, n)
    ensures DistinctKeys(r)
  {
    TrioSetsShape(n);
    if n < 3 then []
    else
      var sets := TrioSets(n);
      assert sets[0] == [0, 1, 2] && AllBelow(sets[0], n);
      assert Keys([]) == {};
      SelectVariants(sets, n, MaxVariants3, {}, [])
  }

  /** The index quintuples of a pool of `n` units. */
  function QuintIndices(n: nat): (r: seq<seq<nat>>)
    ensures n < 5 ==> r == []
    ensures n >= 5 ==> |r| >= 1 && r[0] == [0, 1, 2, 3, 4]
    ensures |r| <= MaxVariants5
    ensures forall t :: t in r ==> |t| == 5 && DistinctEntries(t) && AllBelow(t, n)
    ensures DistinctKeys(r)
  {
    QuintSetsShape(n);
    if n < 5 then []
    else
      var sets := QuintSets(n);
      assert sets[0] == [0, 1, 2, 3, 4] && AllBelow(sets[0], n);
      assert Keys([]) == {};
      SelectVariants(sets, n, MaxVariants5, {}, [])
  }

  /** The units at the given indices, in tuple order. */
  function Pick(items: seq<Item>, idx: seq<nat>): (r: seq<Item>)
    requires AllBelow(idx, |items|)
    ensures |r| == |idx| && forall k :: 0 <= k < |idx| ==> r[k] == items[idx[k]]
  {
    seq(|idx|, k requires 0 <= k < |idx| => items[idx[k]])
  }

  /** Picking `0, 1, ..., k-1` takes the front `k` units. */
  lemma PickFront(items: seq<Item>, idx: seq<nat>)
    requires AllBelow(idx, |items|)
    requires forall k :: 0 <= k < |idx| ==> idx[k] == k
    ensures |idx| <= |items| && Pick(items, idx) == items[..|idx|]
  {
    if idx != [] {
      assert idx[|idx| - 1] < |items|;
    }
  }

  /** The units of each index tuple. */
  function PickAll(items: seq<Item>, idxs: seq<seq<nat>>): (r: seq<seq<Item>>)
    requires forall t :: t in idxs ==> AllBelow(t, |items|)
    ensures |r| == |idxs|
    ensures forall i :: 0 <= i < |r| ==> r[i] == Pick(items, idxs[i])
  {
    seq(|idxs|, i requires 0 <= i < |idxs| => Pick(items, idxs[i]))
  }

  /** A leading tuple `0, 1, ..., k-1` picks the front `k` units. */
  lemma PickAllFront(items: seq<Item>, idxs: seq<seq<nat>>)
    requires forall t :: t in idxs ==> AllBelow(t, |items|)
    requires |idxs| >= 1 && Iota(idxs[0])
    ensures |idxs[0]| <= |items| && PickAll(items, idxs)[0] == items[..|idxs[0]|]
  {
    PickFront(items, idxs[0]);
  }

  /** Tuples of `k` indices pick groups of `k` units. */
  lemma PickAllWidth(items: seq<Item>, idxs: seq<seq<nat>>, k: nat)
    requires forall t :: t in idxs ==> AllBelow(t, |items|) && |t| == k
    ensures forall v :: v in PickAll(items, idxs) ==> |v| == k
  {
    var r := PickAll(items, idxs);
    forall v | v in r
      ensures |v| == k
    {
      var i :| 0 <= i < |r| && r[i] == v;
      assert idxs[i] in idxs;
    }
  }

  /** `0, 1, ..., k-1` spelled out. */
  predicate Iota(t: seq<nat>) {
    forall j :: 0 <= j < |t| ==> t[j] == j
  }

  lemma IotaThree(t: seq<nat>)
    requires t == [0, 1, 2]
    ensures Iota(t)
  {
  }

  lemma IotaFive(t: seq<nat>)
    requires t == [0, 1, 2, 3, 4]
    ensures Iota(t)
  {
  }

  /** Up to six trios of distinct units, the front three first. */
  function VariantsTake3(items: seq<Item>): (r: seq<seq<Item>>)
    ensures |r| == |TrioIndices(|items|)| && |r| <= MaxVariants3
    ensures forall i :: 0 <= i < |r| ==> r[i] == Pick(items, TrioIndices(|items|)[i])
    ensures |items| < 3 ==> r == []
    ensures |items| >= 3 ==> r[0] == items[..3]
    ensures forall v :: v in r ==> |v| == 3
  {
    var idx := TrioIndices(|items|);
    PickAllWidth(items, idx, 3);
    if |items| >= 3 then
      IotaThree(idx[0]);
      PickAllFront(items, idx);
      PickAll(items, idx)
    else
      PickAll(items, idx)
  }

  /** Up to eight quintuples of distinct units, the front five first. */
  function VariantsTake5(items: seq<Item>): (r: seq<seq<Item>>)
    ensures |r| == |QuintIndices(|items|)| && |r| <= MaxVariants5
    ensures forall i :: 0 <= i < |r| ==> r[i] == Pick(items, QuintIndices(|items|)[i])
    ensures |items| < 5 ==> r == []
    ensures |items| >= 5 ==> r[0] == items[..5]
    ensures forall v :: v in r ==> |v| == 5
  {
    var idx := QuintIndices(|items|);
    PickAllWidth(items, idx, 5);
    if |items| >= 5 then
      IotaFive(idx[0]);
      PickAllFront(items, idx);
      PickAll(items, idx)
    else
      PickAll(items, idx)
  }

  // ---------------------------------------------------------------------------
  // Row layouts
  // ---------------------------------------------------------------------------

  /**
    One row of a template: `count` units oriented to `wantW x wantL`, rejected
    above `capDx x capDz`, laid from the rectangle's left edge every `pitch`,
    centred `zOffset` past the slot start.
   */
  datatype RowSpec = RowSpec(
    count: nat,
    wantW: real, wantL: real,
    capDx: real, capDz: real,
    pitch: real,
    zOffset: real,
    row: Option<int>,
    kBase: nat)

  /** A template: its name, the size of rectangle it needs, and its rows. */
  datatype PatternSpec = PatternSpec(name: string, width: real, depth: real, rows: seq<RowSpec>)

  const StdRow := RowSpec(3, 0.80, 1.20, 0.86, 1.26, 0.80, 0.60, None, 0)

  const ThreeAcross := PatternSpec("3across", 2.40, 1.20, [StdRow])

  const ThreePlusTwo := PatternSpec("3plus2", 2.40, 2.00, [
    RowSpec(3, 0.80, 1.20, 0.86, 1.26, 0.80, 0.60, Some(1), 0),
    RowSpec(2, 1.20, 0.80, 1.26, 0.86, 1.20, 1.60, Some(2), 3)])

  const Zigzag := PatternSpec("zigzag", 2.40, 2.00, [
    RowSpec(2, 1.20, 0.80, 1.26, 0.86, 1.20, 0.40, Some(1), 0),
    RowSpec(3, 0.80, 1.20, 0.86, 1.26, 0.80, 1.40, Some(2), 2)])

  function TotalCount(rows: seq<RowSpec>): nat {
    if rows == [] then 0 else rows[0].count + TotalCount(rows[1..])
  }

  lemma SpecCounts()
    ensures TotalCount(ThreeAcross.rows) == 3
    ensures TotalCount(ThreePlusTwo.rows) == 5 && TotalCount(Zigzag.rows) == 5
  {
    assert ThreePlusTwo.rows[1..][1..] == [];
    assert Zigzag.rows[1..][1..] == [];
  }

  /** The metadata of member `j` of a row. */
  function MemberMeta(name: string, pid: string, rect: Rect, z0: real, rs: RowSpec, j: nat): (m: Meta)
    ensures "patternId" in m && m["patternId"] == MStr(pid)
    ensures "kRank" in m && m["kRank"] == MInt(rs.kBase + j)
    ensures "pattern" in m && m["pattern"] == MStr(name)
  {
    var base := map["pattern" := MStr(name), "patternId" := MStr(pid), "rect" := MRect(rect),
                    "slotZ0" := MReal(z0), "idx" := MInt(j), "kRank" := MInt(rs.kBase + j)];
    if rs.row.Some? then base["row" := MInt(rs.row.value)] else base
  }

  /** The oriented footprint of a unit in a row's slot. */
  function RowDims(it: Item, rs: RowSpec): (real, real) {
    SlotDims(it, RotFor(it, rs.wantW, rs.wantL))
  }

  predicate Fits(it: Item, rs: RowSpec) {
    !(RowDims(it, rs).0 > rs.capDx || RowDims(it, rs).1 > rs.capDz)
  }

  predicate RowFits(members: seq<Item>, rs: RowSpec) {
    forall j :: 0 <= j < |members| ==> Fits(members[j], rs)
  }

  function Member(it: Item, j: nat, rs: RowSpec, name: string, rect: Rect, z0: real, pid: string): Candidate {
    var rot := RotFor(it, rs.wantW, rs.wantL);
    var d := SlotDims(it, rot);
    BuildCandidate(it, rect.minX + rs.pitch * j as real + d.0 / 2.0, 0.0, z0 + rs.zOffset, rot,
                   "pattern_" + name, MemberMeta(name, pid, rect, z0, rs, j))
  }

  /** Member `j` of row `rs` stands in its slot, within the row's size caps, and carries the pack id. */
  predicate SlotAt(c: Candidate, j: nat, rs: RowSpec, rect: Rect, z0: real, pid: string) {
    && c.aabb.minX == rect.minX + rs.pitch * j as real
    && c.x == rect.minX + rs.pitch * j as real + c.dx / 2.0
    && c.z == z0 + rs.zOffset && c.y == 0.0 && c.aabb.minY == 0.0
    && c.dx <= rs.capDx && c.dz <= rs.capDz
    && "patternId" in c.meta && c.meta["patternId"] == MStr(pid)
  }

  /** A whole row, each member in its slot. */
  predicate RowAt(row: seq<Candidate>, rs: RowSpec, rect: Rect, z0: real, pid: string) {
    |row| == rs.count && forall j :: 0 <= j < |row| ==> SlotAt(row[j], j, rs, rect, z0, pid)
  }

  /** The pack is its rows, one after the other. */
  predicate RowsPlaced(p: seq<Candidate>, rows: seq<RowSpec>, rect: Rect, z0: real, pid: string)
    decreases |rows|
  {
    if rows == [] then p == []
    else
      && rows[0].count <= |p|
      && RowAt(p[..rows[0].count], rows[0], rect, z0, pid)
      && RowsPlaced(p[rows[0].count..], rows[1..], rect, z0, pid)
  }

  function LayRow(members: seq<Item>, rs: RowSpec, name: string, rect: Rect, z0: real, pid: string): (r: seq<Candidate>)
    ensures |r| == |members|
    ensures forall j :: 0 <= j < |r| ==> r[j].itemId == members[j].id && (r[j].dx, r[j].dz) == RowDims(members[j], rs)
    ensures forall j :: 0 <= j < |r| ==> r[j].kind == "pattern_" + name
    ensures RowFits(members, rs) && |members| == rs.count ==> RowAt(r, rs, rect, z0, pid)
  {
    seq(|members|, j requires 0 <= j < |members| => Member(members[j], j, rs, name, rect, z0, pid))
  }

  function LayRows(members: seq<Item>, rows: seq<RowSpec>, name: string, rect: Rect, z0: real, pid: string): (r: seq<Candidate>)
    requires |members| == TotalCount(rows)
    ensures |r| == |members|
    ensures forall j :: 0 <= j < |r| ==> r[j].itemId == members[j].id
    decreases |rows|
  {
    if rows == [] then []
    else
      var c := rows[0].count;
      LayRow(members[..c], rows[0], name, rect, z0, pid) + LayRows(members[c..], rows[1..], name, rect, z0, pid)
  }

  predicate RowsFit(members: seq<Item>, rows: seq<RowSpec>)
    requires |members| == TotalCount(rows)
    decreases |rows|
  {
    rows == [] || (RowFits(members[..rows[0].count], rows[0]) && RowsFit(members[rows[0].count..], rows[1..]))
  }

  /** Laying out members that fit puts each one in its slot. */
  lemma {:induction false} LayRowsPlaced(v: seq<Item>, rows: seq<RowSpec>, name: string, rect: Rect, z0: real, pid: string)
    requires |v| == TotalCount(rows) && RowsFit(v, rows)
    ensures RowsPlaced(LayRows(v, rows, name, rect, z0, pid), rows, rect, z0, pid)
    decreases |rows|
  {
    if rows != [] {
      var c := rows[0].count;
      var row := LayRow(v[..c], rows[0], name, rect, z0, pid);
      var rest := LayRows(v[c..], rows[1..], name, rect, z0, pid);
      LayRowsPlaced(v[c..], rows[1..], name, rect, z0, pid);
      var p := LayRows(v, rows, name, rect, z0, pid);
      assert p[..c] == row && p[c..] == rest;
    }
  }

  /**
    Every variant whose members all fit their slots becomes one pack, laid
    out from that variant's units; the rest are dropped.
   */
  function PatternPacks(variants: seq<seq<Item>>, spec: PatternSpec, rect: Rect, z0: real, pid: string): (r: seq<seq<Candidate>>)
    requires forall v :: v in variants ==> |v| == TotalCount(spec.rows)
    ensures |r| <= |variants|
    ensures forall p :: p in r ==> |p| == TotalCount(spec.rows) && RowsPlaced(p, spec.rows, rect, z0, pid)
    ensures variants != [] && RowsFit(variants[0], spec.rows) ==>
      r != [] && r[0] == LayRows(variants[0], spec.rows, spec.name, rect, z0, pid)
    decreases |variants|
  {
    if variants == [] then []
    else
      var rest := PatternPacks(variants[1..], spec, rect, z0, pid);
      var v := variants[0];
      if RowsFit(v, spec.rows) then
        LayRowsPlaced(v, spec.rows, spec.name, rect, z0, pid);
        [LayRows(v, spec.rows, spec.name, rect, z0, pid)] + rest
      else rest
  }

  /** `p` is the pack laid out from variant `v`, whose members all fit. */
  predicate LaidFrom(p: seq<Candidate>, v: seq<Item>, spec: PatternSpec, rect: Rect, z0: real, pid: string) {
    |v| == TotalCount(spec.rows) && RowsFit(v, spec.rows) && p == LayRows(v, spec.rows, spec.name, rect, z0, pid)
  }

  /** The packs are exactly the layouts of the fitting variants. */
  lemma {:induction false} PatternPacksExact(variants: seq<seq<Item>>, spec: PatternSpec, rect: Rect, z0: real, pid: string)
    requires forall v :: v in variants ==> |v| == TotalCount(spec.rows)
    ensures forall p :: p in PatternPacks(variants, spec, rect, z0, pid) ==>
      exists v :: v in variants && LaidFrom(p, v, spec, rect, z0, pid)
    ensures forall v :: v in variants && RowsFit(v, spec.rows) ==>
      LayRows(v, spec.rows, spec.name, rect, z0, pid) in PatternPacks(variants, spec, rect, z0, pid)
    decreases |variants|
  {
    if variants != [] {
      var v, rest := variants[0], variants[1..];
      PatternPacksExact(rest, spec, rect, z0, pid);
      var r := PatternPacks(variants, spec, rect, z0, pid);
      var rr := PatternPacks(rest, spec, rect, z0, pid);
      assert r == if RowsFit(v, spec.rows) then [LayRows(v, spec.rows, spec.name, rect, z0, pid)] + rr else rr;
      forall p | p in r
        ensures exists w :: w in variants && LaidFrom(p, w, spec, rect, z0, pid)
      {
        if p in rr {
          var w :| w in rest && LaidFrom(p, w, spec, rect, z0, pid);
          assert w in variants;
        } else {
          assert LaidFrom(p, v, spec, rect, z0, pid);
        }
      }
      forall w | w in variants && RowsFit(w, spec.rows)
        ensures LayRows(w, spec.rows, spec.name, rect, z0, pid) in r
      {
        if w != v {
          assert w in rest;
        }
      }
    }
  }

  /** The rectangle is smaller than the template on either axis. */
  predicate TooSmall(rect: Rect, w: real, l: real) {
    (rect.maxX - rect.minX) + FitEps < w || (rect.maxZ - rect.minZ) + FitEps < l
  }

  // ---------------------------------------------------------------------------
  // The four templates
  // ---------------------------------------------------------------------------

  /** The variants of `k` units a template draws from its pool. */
  function Variants(pool: seq<Item>, k: nat): (r: seq<seq<Item>>)
    requires k == 3 || k == 5
    ensures forall v :: v in r ==> |v| == k
    ensures |pool| < k ==> r == []
    ensures |pool| >= k ==> r != [] && r[0] == pool[..k]
  {
    if k == 3 then VariantsTake3(pool) else VariantsTake5(pool)
  }

  /**
    A row template of `k` units in a rectangle: nothing when the rectangle is
    too small or fewer than `k` standard pallets are queued; otherwise one
    pack per fitting variant of the front of the queue, laid out from that
    variant's units.
   */
  function TemplatePacks(spec: PatternSpec, k: nat, rect: Rect, stdItems: seq<Item>, zAnchor: real, pid: string): (r: seq<seq<Candidate>>)
    requires (k == 3 || k == 5) && TotalCount(spec.rows) == k
    ensures TooSmall(rect, spec.width, spec.depth) || |stdItems| < k ==> r == []
    ensures |r| <= |Variants(Top(stdItems, MaxPrefixStd), k)|
    ensures forall p :: p in r ==> |p| == k && RowsPlaced(p, spec.rows, rect, zAnchor, pid)
    ensures !TooSmall(rect, spec.width, spec.depth) && |stdItems| >= k && RowsFit(stdItems[..k], spec.rows) ==>
      r != [] && r[0] == LayRows(stdItems[..k], spec.rows, spec.name, rect, zAnchor, pid)
    ensures forall p :: p in r ==>
      exists v :: v in Variants(Top(stdItems, MaxPrefixStd), k) && LaidFrom(p, v, spec, rect, zAnchor, pid)
    ensures !TooSmall(rect, spec.width, spec.depth) ==>
      forall v :: v in Variants(Top(stdItems, MaxPrefixStd), k) && |v| == k && RowsFit(v, spec.rows) ==>
        LayRows(v, spec.rows, spec.name, rect, zAnchor, pid) in r
  {
    if TooSmall(rect, spec.width, spec.depth) then []
    else
      var pool := Top(stdItems, MaxPrefixStd);
      if |pool| < k then []
      else
        assert pool[..k] == stdItems[..k];
        PatternPacksExact(Variants(pool, k), spec, rect, zAnchor, pid);
        PatternPacks(Variants(pool, k), spec, rect, zAnchor, pid)
  }

  /** Three standard pallets side by side across the hold, in one 1.20 slot. */
  function Gen3Across(rect: Rect, stdItems: seq<Item>, zAnchor: real, pid: string): (r: seq<seq<Candidate>>)
    ensures TooSmall(rect, 2.40, 1.20) || |stdItems| < 3 ==> r == []
    ensures |r| <= MaxVariants3
    ensures forall p :: p in r ==> |p| == 3 && RowsPlaced(p, ThreeAcross.rows, rect, zAnchor, pid)
    ensures !TooSmall(rect, 2.40, 1.20) && |stdItems| >= 3 && RowsFit(stdItems[..3], ThreeAcross.rows) ==>
      r != [] && r[0] == LayRows(stdItems[..3], ThreeAcross.rows, "3across", rect, zAnchor, pid)
    ensures forall p :: p in r ==>
      exists v :: v in VariantsTake3(Top(stdItems, MaxPrefixStd)) && LaidFrom(p, v, ThreeAcross, rect, zAnchor, pid)
    ensures !TooSmall(rect, 2.40, 1.20) ==>
      forall v :: v in VariantsTake3(Top(stdItems, MaxPrefixStd)) && |v| == 3 && RowsFit(v, ThreeAcross.rows) ==>
        LayRows(v, ThreeAcross.rows, "3across", rect, zAnchor, pid) in r
  {
    SpecCounts();
    TemplatePacks(ThreeAcross, 3, rect, stdItems, zAnchor, pid)
  }

  /** Three standard pallets across, then two turned ones behind them in a 0.80 slot. */
  function Gen3Plus2(rect: Rect, stdItems: seq<Item>, zAnchor: real, pid: string): (r: seq<seq<Candidate>>)
    ensures TooSmall(rect, 2.40, 2.00) || |stdItems| < 5 ==> r == []
    ensures |r| <= MaxVariants5
    ensures forall p :: p in r ==> |p| == 5 && RowsPlaced(p, ThreePlusTwo.rows, rect, zAnchor, pid)
    ensures !TooSmall(rect, 2.40, 2.00) && |stdItems| >= 5 && RowsFit(stdItems[..5], ThreePlusTwo.rows) ==>
      r != [] && r[0] == LayRows(stdItems[..5], ThreePlusTwo.rows, "3plus2", rect, zAnchor, pid)
    ensures forall p :: p in r ==>
      exists v :: v in VariantsTake5(Top(stdItems, MaxPrefixStd)) && LaidFrom(p, v, ThreePlusTwo, rect, zAnchor, pid)
    ensures !TooSmall(rect, 2.40, 2.00) ==>
      forall v :: v in VariantsTake5(Top(stdItems, MaxPrefixStd)) && |v| == 5 && RowsFit(v, ThreePlusTwo.rows) ==>
        LayRows(v, ThreePlusTwo.rows, "3plus2", rect, zAnchor, pid) in r
  {
    SpecCounts();
    TemplatePacks(ThreePlusTwo, 5, rect, stdItems, zAnchor, pid)
  }

  /** Two turned standard pallets first, then three across behind them. */
  function GenZigzag(rect: Rect, stdItems: seq<Item>, zAnchor: real, pid: string): (r: seq<seq<Candidate>>)
    ensures TooSmall(rect, 2.40, 2.00) || |stdItems| < 5 ==> r == []
    ensures |r| <= MaxVariants5
    ensures forall p :: p in r ==> |p| == 5 && RowsPlaced(p, Zigzag.rows, rect, zAnchor, pid)
    ensures !TooSmall(rect, 2.40, 2.00) && |stdItems| >= 5 && RowsFit(stdItems[..5], Zigzag.rows) ==>
      r != [] && r[0] == LayRows(stdItems[..5], Zigzag.rows, "zigzag", rect, zAnchor, pid)
    ensures forall p :: p in r ==>
      exists v :: v in VariantsTake5(Top(stdItems, MaxPrefixStd)) && LaidFrom(p, v, Zigzag, rect, zAnchor, pid)
    ensures !TooSmall(rect, 2.40, 2.00) ==>
      forall v :: v in VariantsTake5(Top(stdItems, MaxPrefixStd)) && |v| == 5 && RowsFit(v, Zigzag.rows) ==>
        LayRows(v, Zigzag.rows, "zigzag", rect, zAnchor, pid) in r
  {
    SpecCounts();
    TemplatePacks(Zigzag, 5, rect, stdItems, zAnchor, pid)
  }

  /**
    Slots are 0.80 apart but a member may be up to 0.86 wide, so two members
    of one pack can overlap: any standard pallet slightly wider than 0.80
    overlaps its neighbour in the next slot.
   */
  lemma AdjacentSlotsCanOverlap(it: Item, rect: Rect, z0: real, pid: string)
    requires 0.80 + 2.0 * BoxEps < it.width <= 0.83 && Close(it.length, 1.20, SizeTolerance)
    requires it.height > 2.0 * BoxEps
    ensures Fits(it, StdRow)
    ensures Intersects(Member(it, 0, StdRow, "3across", rect, z0, pid).aabb,
                       Member(it, 1, StdRow, "3across", rect, z0, pid).aabb, BoxEps)
  {
    assert RotFor(it, 0.80, 1.20) == 0;
    var a := Member(it, 0, StdRow, "3across", rect, z0, pid).aabb;
    var b := Member(it, 1, StdRow, "3across", rect, z0, pid).aabb;
    assert a.maxX == rect.minX + it.width && b.minX == rect.minX + 0.80;
    assert a.minY == 0.0 && a.maxY == it.height && b.minY == 0.0 && b.maxY == it.height;
    assert a.minZ == b.minZ && a.maxZ == b.maxZ && a.maxZ - a.minZ == it.length;
  }

  // ---------------------------------------------------------------------------
  // 140 + 80: a 1.40 pallet and a standard one side by side
  // ---------------------------------------------------------------------------

  function PairMeta(pid: string, rect: Rect, z0: real, role: string, kRank: nat): (m: Meta)
    ensures "patternId" in m && m["patternId"] == MStr(pid)
  {
    map["pattern" := MStr("140plus80"), "patternId" := MStr(pid), "rect" := MRect(rect),
        "slotZ0" := MReal(z0), "role" := MStr(role), "kRank" := MInt(kRank)]
  }

  function BigDims(bi: Item): (real, real) {
    SlotDims(bi, RotFor(bi, 1.40, 1.20))
  }

  function StdDims(si: Item): (real, real) {
    SlotDims(si, RotFor(si, 0.80, 1.20))
  }

  predicate BigFits(bi: Item) {
    !(BigDims(bi).0 > 1.46 || BigDims(bi).1 > 1.26)
  }

  /** The standard pallet fits its slot and, beside the big one, within the rectangle's width. */
  predicate StdFitsBeside(bi: Item, si: Item, rect: Rect) {
    && !(StdDims(si).0 > 0.86 || StdDims(si).1 > 1.26)
    && !(BigDims(bi).0 + StdDims(si).0 > (rect.maxX - rect.minX) + FitEps)
  }

  /** The big pallet against the left edge, the standard one right after it. */
  function PairPack(bi: Item, bIdx: nat, si: Item, sIdx: nat, rect: Rect, z0: real, pid: string): seq<Candidate> {
    var rb := RotFor(bi, 1.40, 1.20);
    var db := SlotDims(bi, rb);
    var rs := RotFor(si, 0.80, 1.20);
    var ds := SlotDims(si, rs);
    [BuildCandidate(bi, rect.minX + db.0 / 2.0, 0.0, z0 + 0.60, rb, "pattern_140plus80", PairMeta(pid, rect, z0, "big", bIdx)),
     BuildCandidate(si, rect.minX + db.0 + ds.0 / 2.0, 0.0, z0 + 0.60, rs, "pattern_140plus80", PairMeta(pid, rect, z0, "std", sIdx))]
  }

  /** A 140+80 pack: big from the left edge, standard starting where it ends, both inside the width. */
  predicate PairPlaced(p: seq<Candidate>, rect: Rect, z0: real, pid: string) {
    && |p| == 2
    && p[0].aabb.minX == rect.minX && p[1].aabb.minX == p[0].aabb.maxX
    && p[1].aabb.maxX <= rect.maxX + FitEps
    && p[0].dx <= 1.46 && p[0].dz <= 1.26 && p[1].dx <= 0.86 && p[1].dz <= 1.26
    && p[0].z == z0 + 0.60 && p[1].z == z0 + 0.60 && p[0].y == 0.0 && p[1].y == 0.0
    && "patternId" in p[0].meta && p[0].meta["patternId"] == MStr(pid)
    && "patternId" in p[1].meta && p[1].meta["patternId"] == MStr(pid)
  }

  lemma PairPackPlaced(bi: Item, bIdx: nat, si: Item, sIdx: nat, rect: Rect, z0: real, pid: string)
    requires BigFits(bi) && StdFitsBeside(bi, si, rect)
    ensures PairPlaced(PairPack(bi, bIdx, si, sIdx, rect, z0, pid), rect, z0, pid)
  {
  }

  /** `p` is the pack of big pallet `b` and standard pallet `sj` of the pools, both fitting. */
  predicate PairOf(p: seq<Candidate>, bigPool: seq<Item>, b: int, stdPool: seq<Item>, sj: int, rect: Rect, z0: real, pid: string) {
    && 0 <= b < |bigPool| && 0 <= sj < |stdPool|
    && BigFits(bigPool[b]) && StdFitsBeside(bigPool[b], stdPool[sj], rect)
    && p == PairPack(bigPool[b], b, stdPool[sj], sj, rect, z0, pid)
  }

  /** Everything in a prefix is in the whole. */
  lemma PrefixMembers<T>(a: seq<T>, r: seq<T>)
    requires |a| <= |r| && r[..|a|] == a
    ensures forall x :: x in a ==> x in r
  {
    forall x | x in a
      ensures x in r
    {
      var k :| 0 <= k < |a| && a[k] == x;
      assert r[k] == x;
    }
  }

  /** `p` is the pack of big pallet `bi` (index `bIdx`) and standard pallet `sj` of the pool, which fits beside it. */
  predicate PairWith(p: seq<Candidate>, bi: Item, bIdx: nat, stdPool: seq<Item>, sj: int, rect: Rect, z0: real, pid: string) {
    0 <= sj < |stdPool| && StdFitsBeside(bi, stdPool[sj], rect) && p == PairPack(bi, bIdx, stdPool[sj], sj, rect, z0, pid)
  }

  /** The inner loop over standard pallets for one big pallet; stops the whole scan at the cap. */
  function StdLoop(bi: Item, bIdx: nat, stdPool: seq<Item>, sIdx: nat, rect: Rect, z0: real, pid: string,
                   out: seq<seq<Candidate>>): (r: seq<seq<Candidate>>)
    requires sIdx <= |stdPool| && |out| < MaxVariants140p80 && BigFits(bi)
    requires forall p :: p in out ==> PairPlaced(p, rect, z0, pid)
    ensures |out| <= |r| <= MaxVariants140p80 && r[..|out|] == out
    ensures forall p :: p in r ==> PairPlaced(p, rect, z0, pid)
    ensures sIdx < |stdPool| && StdFitsBeside(bi, stdPool[sIdx], rect) ==>
      |r| > |out| && r[|out|] == PairPack(bi, bIdx, stdPool[sIdx], sIdx, rect, z0, pid)
    decreases |stdPool| - sIdx
  {
    if sIdx == |stdPool| then out
    else
      var si := stdPool[sIdx];
      if !StdFitsBeside(bi, si, rect) then StdLoop(bi, bIdx, stdPool, sIdx + 1, rect, z0, pid, out)
      else
        PairPackPlaced(bi, bIdx, si, sIdx, rect, z0, pid);
        var out' := out + [PairPack(bi, bIdx, si, sIdx, rect, z0, pid)];
        if |out'| >= MaxVariants140p80 then out'
        else
          var r := StdLoop(bi, bIdx, stdPool, sIdx + 1, rect, z0, pid, out');
          assert r[..|out|] == r[..|out'|][..|out|];
          r
  }

  /**
    The inner loop adds exactly the pairs of `bi` with the standard pallets
    from `sIdx` on that fit beside it, all of them unless the cap is reached.
   */
  lemma {:induction false} StdLoopExact(bi: Item, bIdx: nat, stdPool: seq<Item>, sIdx: nat, rect: Rect, z0: real, pid: string,
                                        out: seq<seq<Candidate>>)
    requires sIdx <= |stdPool| && |out| < MaxVariants140p80 && BigFits(bi)
    requires forall p :: p in out ==> PairPlaced(p, rect, z0, pid)
    ensures var r := StdLoop(bi, bIdx, stdPool, sIdx, rect, z0, pid, out);
      forall p :: p in r ==> (p in out || exists sj :: sIdx <= sj && PairWith(p, bi, bIdx, stdPool, sj, rect, z0, pid))
    ensures var r := StdLoop(bi, bIdx, stdPool, sIdx, rect, z0, pid, out);
      |r| < MaxVariants140p80 ==>
        forall sj :: sIdx <= sj < |stdPool| && StdFitsBeside(bi, stdPool[sj], rect) ==> PairPack(bi, bIdx, stdPool[sj], sj, rect, z0, pid) in r
    decreases |stdPool| - sIdx
  {
    if sIdx < |stdPool| {
      var si := stdPool[sIdx];
      var r := StdLoop(bi, bIdx, stdPool, sIdx, rect, z0, pid, out);
      if !StdFitsBeside(bi, si, rect) {
        StdLoopExact(bi, bIdx, stdPool, sIdx + 1, rect, z0, pid, out);
        StdStep(bi, bIdx, stdPool, sIdx, rect, z0, pid, out, out, r);
      } else {
        PairPackPlaced(bi, bIdx, si, sIdx, rect, z0, pid);
        var out' := out + [PairPack(bi, bIdx, si, sIdx, rect, z0, pid)];
        if |out'| >= MaxVariants140p80 {
          StdStep(bi, bIdx, stdPool, sIdx, rect, z0, pid, out, out', r);
        } else {
          StdLoopExact(bi, bIdx, stdPool, sIdx + 1, rect, z0, pid, out');
          StdStep(bi, bIdx, stdPool, sIdx, rect, z0, pid, out, out', r);
        }
      }
    }
  }

  /** One step of the inner loop keeps the soundness and completeness of the packs. */
  lemma StdStep(bi: Item, bIdx: nat, stdPool: seq<Item>, sIdx: nat, rect: Rect, z0: real, pid: string,
                out: seq<seq<Candidate>>, mid: seq<seq<Candidate>>, r: seq<seq<Candidate>>)
    requires sIdx < |stdPool|
    requires mid == if StdFitsBeside(bi, stdPool[sIdx], rect) then out + [PairPack(bi, bIdx, stdPool[sIdx], sIdx, rect, z0, pid)] else out
    requires |mid| <= |r| && r[..|mid|] == mid
    requires forall p :: p in r ==> (p in mid || exists sj :: sIdx + 1 <= sj && PairWith(p, bi, bIdx, stdPool, sj, rect, z0, pid))
    requires |r| < MaxVariants140p80 ==>
      forall sj :: sIdx + 1 <= sj < |stdPool| && StdFitsBeside(bi, stdPool[sj], rect) ==> PairPack(bi, bIdx, stdPool[sj], sj, rect, z0, pid) in r
    ensures r[..|out|] == out
    ensures forall p :: p in r ==> (p in out || exists sj :: sIdx <= sj && PairWith(p, bi, bIdx, stdPool, sj, rect, z0, pid))
    ensures |r| < MaxVariants140p80 ==>
      forall sj :: sIdx <= sj < |stdPool| && StdFitsBeside(bi, stdPool[sj], rect) ==> PairPack(bi, bIdx, stdPool[sj], sj, rect, z0, pid) in r
  {
    assert r[..|out|] == r[..|mid|][..|out|];
    PrefixMembers(mid, r);
    forall p | p in r && p !in out
      ensures exists sj :: sIdx <= sj && PairWith(p, bi, bIdx, stdPool, sj, rect, z0, pid)
    {
      if p in mid {
        assert PairWith(p, bi, bIdx, stdPool, sIdx, rect, z0, pid);
      } else {
        var sj :| sIdx + 1 <= sj && PairWith(p, bi, bIdx, stdPool, sj, rect, z0, pid);
        assert sIdx <= sj;
      }
    }
    if StdFitsBeside(bi, stdPool[sIdx], rect) {
      assert mid[|out|] == PairPack(bi, bIdx, stdPool[sIdx], sIdx, rect, z0, pid);
    }
  }

  /** The packs the inner loop adds for big pallet `bIdx` are pairs of that pallet. */
  lemma StdLoopPairs(bigPool: seq<Item>, bIdx: nat, stdPool: seq<Item>, rect: Rect, z0: real, pid: string, out: seq<seq<Candidate>>)
    requires bIdx < |bigPool| && |out| < MaxVariants140p80 && BigFits(bigPool[bIdx])
    requires forall p :: p in out ==> PairPlaced(p, rect, z0, pid)
    ensures forall p :: p in StdLoop(bigPool[bIdx], bIdx, stdPool, 0, rect, z0, pid, out) ==>
      (p in out || exists sj :: PairOf(p, bigPool, bIdx, stdPool, sj, rect, z0, pid))
  {
    var o := StdLoop(bigPool[bIdx], bIdx, stdPool, 0, rect, z0, pid, out);
    StdLoopExact(bigPool[bIdx], bIdx, stdPool, 0, rect, z0, pid, out);
    forall p | p in o && p !in out
      ensures exists sj :: PairOf(p, bigPool, bIdx, stdPool, sj, rect, z0, pid)
    {
      var sj :| 0 <= sj && PairWith(p, bigPool[bIdx], bIdx, stdPool, sj, rect, z0, pid);
      assert PairOf(p, bigPool, bIdx, stdPool, sj, rect, z0, pid);
    }
  }

  /** One step of the outer loop keeps the soundness and completeness of the packs. */
  lemma BigStep(bigPool: seq<Item>, bIdx: nat, stdPool: seq<Item>, rect: Rect, z0: real, pid: string,
                out: seq<seq<Candidate>>, o: seq<seq<Candidate>>, r: seq<seq<Candidate>>)
    requires bIdx < |bigPool| && BigFits(bigPool[bIdx])
    requires |out| <= |o| <= |r| && o[..|out|] == out && r[..|o|] == o
    requires forall p :: p in o ==> (p in out || exists sj :: PairOf(p, bigPool, bIdx, stdPool, sj, rect, z0, pid))
    requires |o| < MaxVariants140p80 ==>
      forall sj :: 0 <= sj < |stdPool| && StdFitsBeside(bigPool[bIdx], stdPool[sj], rect) ==>
        PairPack(bigPool[bIdx], bIdx, stdPool[sj], sj, rect, z0, pid) in o
    requires forall p :: p in r ==> (p in o ||
      exists b, sj :: bIdx + 1 <= b && PairOf(p, bigPool, b, stdPool, sj, rect, z0, pid))
    requires |r| < MaxVariants140p80 ==>
      forall b, sj :: bIdx + 1 <= b < |bigPool| && 0 <= sj < |stdPool| && BigFits(bigPool[b]) && StdFitsBeside(bigPool[b], stdPool[sj], rect) ==>
        PairPack(bigPool[b], b, stdPool[sj], sj, rect, z0, pid) in r
    ensures r[..|out|] == out
    ensures forall p :: p in r ==> (p in out ||
      exists b, sj :: bIdx <= b && PairOf(p, bigPool, b, stdPool, sj, rect, z0, pid))
    ensures |r| < MaxVariants140p80 ==>
      forall b, sj :: bIdx <= b < |bigPool| && 0 <= sj < |stdPool| && BigFits(bigPool[b]) && StdFitsBeside(bigPool[b], stdPool[sj], rect) ==>
        PairPack(bigPool[b], b, stdPool[sj], sj, rect, z0, pid) in r
  {
    assert r[..|out|] == r[..|o|][..|out|];
    PrefixMembers(o, r);
    forall p | p in r && p !in out
      ensures exists b, sj :: bIdx <= b && PairOf(p, bigPool, b, stdPool, sj, rect, z0, pid)
    {
      if p in o {
        var sj :| PairOf(p, bigPool, bIdx, stdPool, sj, rect, z0, pid);
        assert bIdx <= bIdx && PairOf(p, bigPool, bIdx, stdPool, sj, rect, z0, pid);
      } else {
        var b, sj :| bIdx + 1 <= b && PairOf(p, bigPool, b, stdPool, sj, rect, z0, pid);
        assert bIdx <= b;
      }
    }
  }

  /** The outer loop over big pallets, skipping those too large for their slot. */
  function BigLoop(bigPool: seq<Item>, bIdx: nat, stdPool: seq<Item>, rect: Rect, z0: real, pid: string,
                   out: seq<seq<Candidate>>): (r: seq<seq<Candidate>>)
    requires bIdx <= |bigPool| && |out| < MaxVariants140p80
    requires forall p :: p in out ==> PairPlaced(p, rect, z0, pid)
    ensures |out| <= |r| <= MaxVariants140p80 && r[..|out|] == out
    ensures forall p :: p in r ==> PairPlaced(p, rect, z0, pid)
    ensures bIdx < |bigPool| && BigFits(bigPool[bIdx]) && stdPool != [] && StdFitsBeside(bigPool[bIdx], stdPool[0], rect) ==>
      |r| > |out| && r[|out|] == PairPack(bigPool[bIdx], bIdx, stdPool[0], 0, rect, z0, pid)
    decreases |bigPool| - bIdx
  {
    if bIdx == |bigPool| then out
    else
      var bi := bigPool[bIdx];
      if !BigFits(bi) then BigLoop(bigPool, bIdx + 1, stdPool, rect, z0, pid, out)
      else
        var o := StdLoop(bi, bIdx, stdPool, 0, rect, z0, pid, out);
        if |o| >= MaxVariants140p80 then o
        else
          var r := BigLoop(bigPool, bIdx + 1, stdPool, rect, z0, pid, o);
          assert r[..|out|] == r[..|o|][..|out|];
          r
  }

  /**
    The outer loop adds exactly the fitting pairs of the big pallets from
    `bIdx` on, all of them unless the cap is reached.
   */
  lemma {:induction false} BigLoopExact(bigPool: seq<Item>, bIdx: nat, stdPool: seq<Item>, rect: Rect, z0: real, pid: string,
                                        out: seq<seq<Candidate>>)
    requires bIdx <= |bigPool| && |out| < MaxVariants140p80
    requires forall p :: p in out ==> PairPlaced(p, rect, z0, pid)
    ensures var r := BigLoop(bigPool, bIdx, stdPool, rect, z0, pid, out);
      forall p :: p in r ==> (p in out || exists b, sj :: bIdx <= b && PairOf(p, bigPool, b, stdPool, sj, rect, z0, pid))
    ensures var r := BigLoop(bigPool, bIdx, stdPool, rect, z0, pid, out);
      |r| < MaxVariants140p80 ==>
        forall b, sj :: bIdx <= b < |bigPool| && 0 <= sj < |stdPool| && BigFits(bigPool[b]) && StdFitsBeside(bigPool[b], stdPool[sj], rect) ==>
          PairPack(bigPool[b], b, stdPool[sj], sj, rect, z0, pid) in r
    decreases |bigPool| - bIdx
  {
    if bIdx < |bigPool| {
      var bi := bigPool[bIdx];
      var r := BigLoop(bigPool, bIdx, stdPool, rect, z0, pid, out);
      if !BigFits(bi) {
        BigLoopExact(bigPool, bIdx + 1, stdPool, rect, z0, pid, out);
        forall p | p in r && p !in out
          ensures exists b, sj :: bIdx <= b && PairOf(p, bigPool, b, stdPool, sj, rect, z0, pid)
        {
          var b, sj :| bIdx + 1 <= b && PairOf(p, bigPool, b, stdPool, sj, rect, z0, pid);
          assert bIdx <= b;
        }
      } else {
        var o := StdLoop(bi, bIdx, stdPool, 0, rect, z0, pid, out);
        StdLoopExact(bi, bIdx, stdPool, 0, rect, z0, pid, out);
        StdLoopPairs(bigPool, bIdx, stdPool, rect, z0, pid, out);
        if |o| >= MaxVariants140p80 {
          assert r == o;
          BigStep(bigPool, bIdx, stdPool, rect, z0, pid, out, o, o);
        } else {
          BigLoopExact(bigPool, bIdx + 1, stdPool, rect, z0, pid, o);
          BigStep(bigPool, bIdx, stdPool, rect, z0, pid, out, o, r);
        }
      }
    }
  }

  /**
    Every fitting (big, standard) pair in queue order, big first, up to 20
    packs; the best pair comes first when it fits.
   */
  function Gen140Plus80(rect: Rect, bigItems: seq<Item>, stdItems: seq<Item>, zAnchor: real, pid: string): (r: seq<seq<Candidate>>)
    ensures TooSmall(rect, 2.20, 1.20) || bigItems == [] || stdItems == [] ==> r == []
    ensures |r| <= MaxVariants140p80
    ensures forall p :: p in r ==> PairPlaced(p, rect, zAnchor, pid)
    ensures (!TooSmall(rect, 2.20, 1.20) && bigItems != [] && stdItems != []
             && BigFits(bigItems[0]) && StdFitsBeside(bigItems[0], stdItems[0], rect)) ==>
      r != [] && r[0] == PairPack(bigItems[0], 0, stdItems[0], 0, rect, zAnchor, pid)
    ensures forall p :: p in r ==>
      exists b, sj :: PairOf(p, Top(bigItems, MaxPrefixBig), b, Top(stdItems, MaxPrefixStd), sj, rect, zAnchor, pid)
    ensures !TooSmall(rect, 2.20, 1.20) && |r| < MaxVariants140p80 ==>
      forall b, sj ::
        (&& 0 <= b < |Top(bigItems, MaxPrefixBig)| && 0 <= sj < |Top(stdItems, MaxPrefixStd)|
         && BigFits(Top(bigItems, MaxPrefixBig)[b])
         && StdFitsBeside(Top(bigItems, MaxPrefixBig)[b], Top(stdItems, MaxPrefixStd)[sj], rect)) ==>
        PairPack(Top(bigItems, MaxPrefixBig)[b], b, Top(stdItems, MaxPrefixStd)[sj], sj, rect, zAnchor, pid) in r
  {
    if TooSmall(rect, 2.20, 1.20) then []
    else
      var bigPool := Top(bigItems, MaxPrefixBig);
      var stdPool := Top(stdItems, MaxPrefixStd);
      if bigPool == [] || stdPool == [] then []
      else
        BigLoopExact(bigPool, 0, stdPool, rect, zAnchor, pid, []);
        BigLoop(bigPool, 0, stdPool, rect, zAnchor, pid, [])
  }
}
