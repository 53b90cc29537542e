/**
  The pieces the packing loop is built from: grouping candidates by pattern
  id, the all-or-nothing gate of a pattern group, the policy term of a
  score, the reason bucket of a rejected pattern, and the geometric
  quality of a pattern.
 */
module PackerParts {
  import opened Wrappers
  import opened Text
  import opened Domain
  import opened Aabb
  import opened FreeRects
  import opened PlacedItems
  import opened Bounds
  import opened Axles
  import opened PlanStates
  import opened Objective
  import opened Policies

  // ---------------------------------------------------------------------------
  // Grouping by pattern id
  // ---------------------------------------------------------------------------

  /** Pattern groups in order of first appearance: the id and its members. */
  type Groups = seq<(MetaValue, seq<Candidate>)>

  /** The candidates carrying pattern id `k`, in input order. */
  function WithKey(cs: seq<Candidate>, k: MetaValue): (r: seq<Candidate>)
    ensures forall c :: c in r <==> c in cs && PatternKey(c) == Some(k)
    ensures |r| <= |cs|
    decreases |cs|
  {
    if cs == [] then []
    else (if PatternKey(cs[0]) == Some(k) then [cs[0]] else []) + WithKey(cs[1..], k)
  }

  lemma {:induction false} WithKeyAppend(cs: seq<Candidate>, c: Candidate, k: MetaValue)
    ensures WithKey(cs + [c], k) == WithKey(cs, k) + (if PatternKey(c) == Some(k) then [c] else [])
    decreases |cs|
  {
    if cs != [] {
      assert (cs + [c])[1..] == cs[1..] + [c];
      WithKeyAppend(cs[1..], c, k);
    }
  }

  lemma WithKeyAbsent(cs: seq<Candidate>, k: MetaValue)
    requires forall c :: c in cs ==> PatternKey(c) != Some(k)
    ensures WithKey(cs, k) == []
  {
  }

  /** Exactly the grouping of `cs`: distinct ids, each with all and only its candidates, none missing. */
  predicate GroupsOf(g: Groups, cs: seq<Candidate>) {
    && (forall i, j :: 0 <= i < j < |g| ==> g[i].0 != g[j].0)
    && (forall i :: 0 <= i < |g| ==> g[i].1 == WithKey(cs, g[i].0) && g[i].1 != [])
    && (forall c :: c in cs && PatternKey(c).Some? ==> exists i :: 0 <= i < |g| && g[i].0 == PatternKey(c).value)
  }

  /** The position of id `k` among the groups, or `|g|` when absent. */
  function FindGroup(g: Groups, k: MetaValue): (i: nat)
    ensures i <= |g|
    ensures i < |g| ==> g[i].0 == k
    ensures forall j :: 0 <= j < i ==> g[j].0 != k
    decreases |g|
  {
    if g == [] then 0 else if g[0].0 == k then 0 else 1 + FindGroup(g[1..], k)
  }

  /** One step of the grouping: append to the id's group, opening it when new; unkeyed candidates are skipped. */
  function AddCandidate(g: Groups, c: Candidate): Groups {
    match PatternKey(c)
    case None => g
    case Some(k) =>
      var i := FindGroup(g, k);
      if i < |g| then g[i := (k, g[i].1 + [c])] else g + [(k, [c])]
  }

  /** Each group of the extended grouping holds exactly its id's candidates, the new one included. */
  lemma AddCandidateMembers(g: Groups, pre: seq<Candidate>, c: Candidate, i: nat)
    requires GroupsOf(g, pre)
    requires i < |AddCandidate(g, c)|
    ensures AddCandidate(g, c)[i].1 == WithKey(pre + [c], AddCandidate(g, c)[i].0)
    ensures AddCandidate(g, c)[i].1 != []
  {
    var g' := AddCandidate(g, c);
    WithKeyAppend(pre, c, g'[i].0);
    if i == |g| {
      assert forall c' :: c' in pre ==> PatternKey(c') != Some(g'[i].0);
      WithKeyAbsent(pre, g'[i].0);
    }
  }

  /** Every keyed candidate seen so far, the new one included, has a group in the extended grouping. */
  lemma AddCandidateCovers(g: Groups, pre: seq<Candidate>, c: Candidate, c': Candidate)
    requires GroupsOf(g, pre)
    requires c' in pre + [c] && PatternKey(c').Some?
    ensures exists i :: 0 <= i < |AddCandidate(g, c)| && AddCandidate(g, c)[i].0 == PatternKey(c').value
  {
    var g' := AddCandidate(g, c);
    if c' in pre {
      var i :| 0 <= i < |g| && g[i].0 == PatternKey(c').value;
      assert g'[i].0 == g[i].0;
    } else {
      var i := FindGroup(g, PatternKey(c).value);
      assert g'[i].0 == PatternKey(c').value;
    }
  }

  lemma AddCandidateKeepsGroups(g: Groups, pre: seq<Candidate>, c: Candidate)
    requires GroupsOf(g, pre)
    ensures GroupsOf(AddCandidate(g, c), pre + [c])
  {
    var g' := AddCandidate(g, c);
    forall i | 0 <= i < |g'|
      ensures g'[i].1 == WithKey(pre + [c], g'[i].0) && g'[i].1 != []
    {
      AddCandidateMembers(g, pre, c, i);
    }
    forall c' | c' in pre + [c] && PatternKey(c').Some?
      ensures exists i :: 0 <= i < |g'| && g'[i].0 == PatternKey(c').value
    {
      AddCandidateCovers(g, pre, c, c');
    }
  }

  function GroupFrom(cs: seq<Candidate>, i: nat, acc: Groups): (g: Groups)
    requires i <= |cs| && GroupsOf(acc, cs[..i])
    ensures GroupsOf(g, cs)
    decreases |cs| - i
  {
    if i == |cs| then assert cs[..i] == cs; acc
    else
      AddCandidateKeepsGroups(acc, cs[..i], cs[i]);
      assert cs[..i] + [cs[i]] == cs[..i + 1];
      GroupFrom(cs, i + 1, AddCandidate(acc, cs[i]))
  }

  /** The candidates with a truthy pattern id, grouped by it; the others are dropped. */
  function GroupPatternCandidates(cs: seq<Candidate>): (g: Groups)
    ensures GroupsOf(g, cs)
  {
    GroupFrom(cs, 0, [])
  }

  /** Every group holds only candidates of the input that carry its id. */
  lemma GroupMembersFromInput(cs: seq<Candidate>, i: nat, c: Candidate)
    requires i < |GroupPatternCandidates(cs)| && c in GroupPatternCandidates(cs)[i].1
    ensures c in cs && PatternKey(c) == Some(GroupPatternCandidates(cs)[i].0)
  {
  }

  // ---------------------------------------------------------------------------
  // The gate of a whole pattern group
  // ---------------------------------------------------------------------------

  /** Some earlier member's box meets `b`. */
  function ClashesWithAny(b: Box, group: seq<Candidate>): (r: bool)
    ensures r <==> exists j :: 0 <= j < |group| && Intersects(b, group[j].aabb, BoxEps)
    decreases |group|
  {
    if group == [] then false
    else Intersects(b, group[0].aabb, BoxEps) || ClashesWithAny(b, group[1..])
  }

  /** Two members of the group overlap. */
  function InternalClash(group: seq<Candidate>): (r: bool)
    ensures r <==> exists i, j :: 0 <= j < i < |group| && Intersects(group[i].aabb, group[j].aabb, BoxEps)
    decreases |group|
  {
    if |group| < 2 then false
    else
      var n := |group| - 1;
      var earlier := group[..n];
      assert forall j :: 0 <= j < n ==> earlier[j] == group[j];
      InternalClash(earlier) || ClashesWithAny(group[n].aabb, earlier)
  }

  /** Each member in turn: in the hold, then clear of the placed units; the first failure reports. */
  function MemberGates(group: seq<Candidate>, v: Vehicle, placed: seq<PlacedItem>): (g: GateResult)
    ensures WellFormed(g)
    ensures g.ok <==> forall k :: 0 <= k < |group| ==> CheckOob(group[k], v).ok && CheckCollision(group[k], placed).ok
    ensures !g.ok ==> g.reasons == ["oob"] || g.reasons == ["collision"]
    decreases |group|
  {
    if group == [] then GateResult(true, [])
    else
      var oob := CheckOob(group[0], v);
      if !oob.ok then oob
      else
        var col := CheckCollision(group[0], placed);
        if !col.ok then col
        else
          var rest := MemberGates(group[1..], v, placed);
          assert forall k :: 1 <= k < |group| ==> group[k] == group[1..][k - 1];
          rest
  }

  predicate Known(group: seq<Candidate>, itemsById: map<string, Item>) {
    forall k :: 0 <= k < |group| ==> group[k].itemId in itemsById
  }

  /** The placed units the group would become, in order. */
  function PlaceAll(group: seq<Candidate>, itemsById: map<string, Item>): seq<PlacedItem>
    requires Known(group, itemsById)
  {
    seq(|group|, k requires 0 <= k < |group| && Known(group, itemsById) =>
      PlacedFromCandidate(group[k], itemsById[group[k].itemId]))
  }

  /**
    All or nothing: no two members overlap (reported first, as
    "pattern_internal_collision"), every member is in the hold and clear of
    the placed units, and the loads with the whole group added pass.
   */
  function CanCommitGroup(st: PlanState, group: seq<Candidate>): (g: GateResult)
    requires Known(group, st.itemsById)
    ensures WellFormed(g)
    ensures InternalClash(group) ==> g.reasons == ["pattern_internal_collision"]
    ensures g.ok <==>
      (&& !InternalClash(group)
       && (forall k :: 0 <= k < |group| ==>
             !OutOfBounds(group[k].aabb, st.vehicle, BoxEps)
             && forall i :: 0 <= i < |st.placed| ==> !Intersects(group[k].aabb, st.placed[i].aabb, BoxEps))
       && CheckLoads(ComputeLoads(st.placed + PlaceAll(group, st.itemsById), st.vehicle), st.vehicle).ok)
  {
    if InternalClash(group) then GateResult(false, ["pattern_internal_collision"])
    else
      var members := MemberGates(group, st.vehicle, st.placed);
      if !members.ok then members
      else CheckLoads(ComputeLoads(st.placed + PlaceAll(group, st.itemsById), st.vehicle), st.vehicle)
  }

  lemma PlaceAllCons(group: seq<Candidate>, itemsById: map<string, Item>)
    requires group != [] && Known(group, itemsById)
    ensures Known(group[1..], itemsById)
    ensures PlaceAll(group, itemsById)
      == [PlacedFromCandidate(group[0], itemsById[group[0].itemId])] + PlaceAll(group[1..], itemsById)
  {
    var a := PlaceAll(group, itemsById);
    var b := [PlacedFromCandidate(group[0], itemsById[group[0].itemId])] + PlaceAll(group[1..], itemsById);
    assert |a| == |b|;
    forall k | 0 <= k < |a| ensures a[k] == b[k] {
      if k > 0 {
        assert group[k] == group[1..][k - 1];
      }
    }
  }

  lemma ConcatAssoc<T>(a: seq<T>, b: seq<T>, c: seq<T>)
    ensures (a + b) + c == a + (b + c)
  {
  }

  /** Commits every member in order. */
  function CommitGroup(st: PlanState, group: seq<Candidate>, t: Tolerances): (st': PlanState)
    requires Known(group, st.itemsById)
    ensures st'.itemsById == st.itemsById && st'.vehicle == st.vehicle
    decreases |group|
  {
    if group == [] then st
    else
      var next := CommitWith(st, group[0], t);
      assert Known(group[1..], next.itemsById);
      CommitGroup(next, group[1..], t)
  }

  /**
    Committing a group appends its placed units in order and leaves the loads
    of the final placement; the trail, the mode and the unplaced list are kept.
   */
  lemma {:induction false} CommitGroupEffect(st: PlanState, group: seq<Candidate>, t: Tolerances)
    requires Known(group, st.itemsById)
    ensures CommitGroup(st, group, t).placed == st.placed + PlaceAll(group, st.itemsById)
    ensures group != [] ==> CommitGroup(st, group, t).loads == Some(ComputeLoads(CommitGroup(st, group, t).placed, st.vehicle))
    ensures group == [] ==> CommitGroup(st, group, t) == st
    ensures CommitGroup(st, group, t).unplaced == st.unplaced && CommitGroup(st, group, t).debug == st.debug
    ensures CommitGroup(st, group, t).mode == st.mode
    decreases |group|
  {
    if group != [] {
      var next := CommitWith(st, group[0], t);
      assert Known(group[1..], next.itemsById);
      CommitGroupEffect(next, group[1..], t);
      var r := CommitGroup(next, group[1..], t);
      var p0 := PlacedFromCandidate(group[0], st.itemsById[group[0].itemId]);
      PlaceAllCons(group, st.itemsById);
      assert r.placed == (st.placed + [p0]) + PlaceAll(group[1..], st.itemsById);
      ConcatAssoc(st.placed, [p0], PlaceAll(group[1..], st.itemsById));
    }
  }

  /** Boxes `p` stay pairwise disjoint when boxes `q`, disjoint among themselves and from `p`, are added. */
  lemma DisjointAppend(p: seq<PlacedItem>, q: seq<PlacedItem>)
    requires Disjoint(p) && Disjoint(q)
    requires forall i, k :: 0 <= i < |p| && 0 <= k < |q| ==> !Intersects(q[k].aabb, p[i].aabb, BoxEps)
    ensures Disjoint(p + q)
  {
    var all := p + q;
    var n := |p|;
    forall i, j | 0 <= i < |all| && 0 <= j < |all| && i != j
      ensures !Intersects(all[i].aabb, all[j].aabb, BoxEps)
    {
      if i < n && j < n {
        assert all[i] == p[i] && all[j] == p[j];
      } else if i >= n && j >= n {
        assert all[i] == q[i - n] && all[j] == q[j - n];
      } else if i >= n {
        assert all[i] == q[i - n] && all[j] == p[j];
      } else {
        assert all[j] == q[j - n] && all[i] == p[i];
        IntersectsSymmetric(q[j - n].aabb, p[i].aabb, BoxEps);
      }
    }
  }

  /** The members of a group without internal clash, once placed, are pairwise disjoint. */
  lemma NoClashDisjoint(group: seq<Candidate>, q: seq<PlacedItem>)
    requires |q| == |group| && forall k :: 0 <= k < |q| ==> q[k].aabb == group[k].aabb
    requires !InternalClash(group)
    ensures Disjoint(q)
  {
    forall i, j | 0 <= i < |q| && 0 <= j < |q| && i != j
      ensures !Intersects(q[i].aabb, q[j].aabb, BoxEps)
    {
      if i < j {
        IntersectsSymmetric(group[j].aabb, group[i].aabb, BoxEps);
      }
    }
  }

  /** A group that passed the gate, once committed, leaves the placed units pairwise disjoint. */
  lemma CommitGroupKeepsDisjoint(st: PlanState, group: seq<Candidate>, t: Tolerances)
    requires Known(group, st.itemsById)
    requires Disjoint(st.placed) && CanCommitGroup(st, group).ok
    ensures Disjoint(CommitGroup(st, group, t).placed)
  {
    var q := PlaceAll(group, st.itemsById);
    CommitGroupEffect(st, group, t);
    NoClashDisjoint(group, q);
    DisjointAppend(st.placed, q);
  }

  /** A non-empty group that passed the gate leaves the loads within every configured limit. */
  lemma CommitGroupWithinLimits(st: PlanState, group: seq<Candidate>, t: Tolerances)
    requires Known(group, st.itemsById)
    requires group != [] && CanCommitGroup(st, group).ok
    ensures CommitGroup(st, group, t).loads.Some?
    ensures CheckLoads(CommitGroup(st, group, t).loads.value, st.vehicle).ok
  {
    CommitGroupEffect(st, group, t);
  }

  /** A one-member group passes exactly when the member alone passes the single-candidate gates. */
  lemma SingletonGroupIsCanPlace(st: PlanState, c: Candidate)
    requires c.itemId in st.itemsById
    ensures Known([c], st.itemsById)
    ensures CanCommitGroup(st, [c]).ok <==> CanPlace(st, c).ok
  {
    assert PlaceAll([c], st.itemsById) == [PlacedFromCandidate(c, st.itemsById[c.itemId])];
  }

  // ---------------------------------------------------------------------------
  // Scores
  // ---------------------------------------------------------------------------

  /** Python's tuple `>` on scores: the first differing component decides. */
  predicate ScoreGt(a: Score, b: Score) {
    || a.count > b.count
    || (a.count == b.count && a.k > b.k)
    || (a.count == b.count && a.k == b.k && a.area > b.area)
    || (a.count == b.count && a.k == b.k && a.area == b.area && a.policy > b.policy)
  }

  /** `a` beats `b` before the policy component is looked at. */
  predicate BeatsBeforePolicy(a: Score, b: Score) {
    || a.count > b.count
    || (a.count == b.count && a.k > b.k)
    || (a.count == b.count && a.k == b.k && a.area > b.area)
  }

  /** Adds the weighted net policy term to the last component; the others are kept. */
  function ApplyPolicyToScore(sc: Score, pd: PolicyDecision, w: real): (r: Score)
    ensures r.count == sc.count && r.k == sc.k && r.area == sc.area
    ensures r.policy - sc.policy == w * (pd.zoneBonus - pd.zonePenalty)
  {
    sc.(policy := sc.policy + w * Net(pd))
  }

  /** The policy term only breaks ties: a score that already wins on count, K or area still wins. */
  lemma PolicyOnlyBreaksTies(a: Score, b: Score, pa: PolicyDecision, pb: PolicyDecision, w: real)
    requires BeatsBeforePolicy(a, b)
    ensures ScoreGt(ApplyPolicyToScore(a, pa, w), ApplyPolicyToScore(b, pb, w))
    ensures !ScoreGt(ApplyPolicyToScore(b, pb, w), ApplyPolicyToScore(a, pa, w))
  {
  }

  /** Among equal base scores, the larger net policy term wins (for a positive weight). */
  lemma PolicyDecidesTies(sc: Score, pa: PolicyDecision, pb: PolicyDecision, w: real)
    requires w > 0.0 && Net(pa) > Net(pb)
    ensures ScoreGt(ApplyPolicyToScore(sc, pa, w), ApplyPolicyToScore(sc, pb, w))
  {
    assert w * Net(pa) - w * Net(pb) == w * (Net(pa) - Net(pb));
    ProductPositive(w, Net(pa) - Net(pb));
  }

  lemma ProductPositive(a: real, b: real)
    requires a > 0.0 && b > 0.0
    ensures a * b > 0.0
  {
  }

  lemma ScoreGtTransitive(a: Score, b: Score, c: Score)
    requires ScoreGt(a, b) && ScoreGt(b, c)
    ensures ScoreGt(a, c)
  {
  }

  /** The order is total up to ties: what beats `b` beats anything `b` is not beaten by. */
  lemma ScoreGtNegTransitive(a: Score, b: Score, c: Score)
    requires ScoreGt(a, b) && !ScoreGt(c, b)
    ensures ScoreGt(a, c)
  {
  }

  // ---------------------------------------------------------------------------
  // Reason buckets of rejected patterns
  // ---------------------------------------------------------------------------

  /**
    The bucket a rejected pattern is counted in, by keyword of the joined,
    lower-cased reasons, first match wins: internal collision, out of
    bounds, collision, axles; "other" otherwise and "unknown" for none.
   */
  function PatReasonBucket(reasons: seq<string>): (b: string)
    ensures reasons == [] <==> b == "unknown"
    ensures reasons != [] ==>
      var s := Lower(Join(reasons, "|"));
      && (b == "internal_collision" <==> HasSubstring(s, "pattern_internal_collision"))
      && (b == "oob" <==>
            !HasSubstring(s, "pattern_internal_collision")
            && (HasSubstring(s, "oob") || HasSubstring(s, "out")))
      && (b == "collision" <==>
            !HasSubstring(s, "pattern_internal_collision") && !HasSubstring(s, "oob") && !HasSubstring(s, "out")
            && (HasSubstring(s, "collision") || HasSubstring(s, "intersect")))
      && (b == "other" <==>
            !HasSubstring(s, "pattern_internal_collision") && !HasSubstring(s, "oob") && !HasSubstring(s, "out")
            && !HasSubstring(s, "collision") && !HasSubstring(s, "intersect")
            && !HasSubstring(s, "axle") && !HasSubstring(s, "load") && !HasSubstring(s, "support"))
  {
    if reasons == [] then "unknown"
    else
      var s := Lower(Join(reasons, "|"));
      if HasSubstring(s, "pattern_internal_collision") then "internal_collision"
      else if HasSubstring(s, "oob") || HasSubstring(s, "out") then "oob"
      else if HasSubstring(s, "collision") || HasSubstring(s, "intersect") then "collision"
      else if HasSubstring(s, "axle") || HasSubstring(s, "load") || HasSubstring(s, "support") then "axles"
      else "other"
  }

  /** A pattern does not occur in a string lacking one of its characters. */
  lemma AbsentChar(s: string, pat: string, k: nat)
    requires k < |pat| && forall i :: 0 <= i < |s| ==> s[i] != pat[k]
    ensures !HasSubstring(s, pat)
  {
  }

  /** Lower-casing leaves a string without capital letters unchanged. */
  lemma LowerOfLower(s: string)
    requires forall i :: 0 <= i < |s| ==> 'a' <= s[i] <= 'z' || s[i] == '_'
    ensures Lower(s) == s
  {
  }

  /** A string standing alone contains itself. */
  lemma WholeSubstring(s: string)
    ensures HasSubstring(s, s)
  {
    SubstringOfConcat("", s, "");
    assert "" + s + "" == s;
  }

  /** A rejection whose one reason is a lower-case word is bucketed by that word alone. */
  lemma OneLowerReason(r: string)
    requires forall i :: 0 <= i < |r| ==> 'a' <= r[i] <= 'z' || r[i] == '_'
    ensures Lower(Join([r], "|")) == r
  {
    LowerOfLower(r);
  }

  /** A rejection carrying the internal-collision reason lands in its bucket, whatever else it carries. */
  lemma InternalClashBucket(reasons: seq<string>, k: nat)
    requires k < |reasons| && reasons[k] == "pattern_internal_collision"
    ensures PatReasonBucket(reasons) == "internal_collision"
  {
    var pic := reasons[k];
    JoinContains(reasons, "|", k);
    LowerKeepsSubstring(Join(reasons, "|"), pic);
    LowerOfLower(pic);
  }

  /** Each of the other geometric gates' reasons, alone, falls into the bucket of that gate. */
  lemma OobBucket(reasons: seq<string>, oob: string)
    requires oob == "oob" && reasons == [oob]
    ensures PatReasonBucket(reasons) == "oob"
  {
    OneLowerReason(oob);
    AbsentChar(oob, "pattern_internal_collision", 0);
    WholeSubstring(oob);
  }

  lemma CollisionBucket(reasons: seq<string>, col: string)
    requires col == "collision" && reasons == [col]
    ensures PatReasonBucket(reasons) == "collision"
  {
    OneLowerReason(col);
    AbsentChar(col, "pattern_internal_collision", 0);
    AbsentChar(col, "oob", 2);
    assert "out"[1] == 'u';
    AbsentChar(col, "out", 1);
    WholeSubstring(col);
  }

  // ---------------------------------------------------------------------------
  // Geometric quality of a pattern
  // ---------------------------------------------------------------------------

  /** Weights of density, touching sides and slack in a pattern's quality. */
  datatype QualityWeights = QualityWeights(density: real, touch: real, slack: real)

  const DefaultQualityWeights := QualityWeights(10.0, 0.6, 1.5)

  /** Gaps up to this count as touching the rectangle's side. */
  const TouchEps := 1e-3

  /** A bounding box of at most this area gives density zero. */
  const BboxAreaEps := 1e-9

  /** The starting bound of the bounding-box folds. */
  const FarAway := 1e18

  /** The covered area and the floor bounding box of a group, folded left to right. */
  datatype Extent = Extent(used: real, minX: real, maxX: real, minZ: real, maxZ: real)

  function ExtentFrom(group: seq<Candidate>, acc: Extent): (e: Extent)
    ensures e.minX <= acc.minX && e.maxX >= acc.maxX && e.minZ <= acc.minZ && e.maxZ >= acc.maxZ
    ensures forall k :: 0 <= k < |group| ==>
      e.minX <= group[k].aabb.minX && e.maxX >= group[k].aabb.maxX
      && e.minZ <= group[k].aabb.minZ && e.maxZ >= group[k].aabb.maxZ
    decreases |group|
  {
    if group == [] then acc
    else
      var a := group[0].aabb;
      var next := Extent(acc.used + group[0].dx * group[0].dz,
                         MinR(acc.minX, a.minX), MaxR(acc.maxX, a.maxX),
                         MinR(acc.minZ, a.minZ), MaxR(acc.maxZ, a.maxZ));
      var e := ExtentFrom(group[1..], next);
      assert forall k :: 1 <= k < |group| ==> group[k] == group[1..][k - 1];
      e
  }

  /** The floor area the members cover, Σ dx·dz. */
  function SumArea(group: seq<Candidate>): real
    decreases |group|
  {
    if group == [] then 0.0 else group[0].dx * group[0].dz + SumArea(group[1..])
  }

  /** Each bound of `e` is the starting bound or the bound of some member. */
  predicate Attained(e: Extent, acc: Extent, group: seq<Candidate>) {
    && (e.minX == acc.minX || exists k :: 0 <= k < |group| && e.minX == group[k].aabb.minX)
    && (e.maxX == acc.maxX || exists k :: 0 <= k < |group| && e.maxX == group[k].aabb.maxX)
    && (e.minZ == acc.minZ || exists k :: 0 <= k < |group| && e.minZ == group[k].aabb.minZ)
    && (e.maxZ == acc.maxZ || exists k :: 0 <= k < |group| && e.maxZ == group[k].aabb.maxZ)
  }

  /** The fold adds the members' area and takes each bound from the start or a member. */
  lemma {:induction false} ExtentFromExact(group: seq<Candidate>, acc: Extent)
    ensures ExtentFrom(group, acc).used == acc.used + SumArea(group)
    ensures Attained(ExtentFrom(group, acc), acc, group)
    decreases |group|
  {
    if group != [] {
      var a := group[0].aabb;
      var next := Extent(acc.used + group[0].dx * group[0].dz,
                         MinR(acc.minX, a.minX), MaxR(acc.maxX, a.maxX),
                         MinR(acc.minZ, a.minZ), MaxR(acc.maxZ, a.maxZ));
      ExtentFromExact(group[1..], next);
      var e := ExtentFrom(group, acc);
      assert e == ExtentFrom(group[1..], next);
      AttainedStep(e, acc, next, group);
    }
  }

  /** A bound attained in the tail, or at the head's step, is attained in the whole group. */
  lemma AttainedStep(e: Extent, acc: Extent, next: Extent, group: seq<Candidate>)
    requires group != []
    requires next.minX == MinR(acc.minX, group[0].aabb.minX) && next.maxX == MaxR(acc.maxX, group[0].aabb.maxX)
    requires next.minZ == MinR(acc.minZ, group[0].aabb.minZ) && next.maxZ == MaxR(acc.maxZ, group[0].aabb.maxZ)
    requires Attained(e, next, group[1..])
    ensures Attained(e, acc, group)
  {
    forall k | 0 <= k < |group[1..]|
      ensures group[1..][k] == group[k + 1]
    {
    }
  }

  /** The fold's starting point: nothing covered, bounds at ±1e18. */
  const StartExtent := Extent(0.0, FarAway, -FarAway, FarAway, -FarAway)

  /** The group's covered area, Σ dx·dz, and a bounding box covering every member. */
  function GroupExtent(group: seq<Candidate>): (e: Extent)
    ensures e.used == SumArea(group)
    ensures forall k :: 0 <= k < |group| ==>
      e.minX <= group[k].aabb.minX && e.maxX >= group[k].aabb.maxX
      && e.minZ <= group[k].aabb.minZ && e.maxZ >= group[k].aabb.maxZ
    ensures e.minX <= FarAway && e.maxX >= -FarAway && e.minZ <= FarAway && e.maxZ >= -FarAway
  {
    ExtentFromExact(group, StartExtent);
    ExtentFrom(group, StartExtent)
  }

  /**
    The bounding box is the tightest one: each side is a member's side,
    unless every member lies beyond the ±1e18 starting bound on that side.
   */
  lemma GroupExtentTight(group: seq<Candidate>)
    ensures Attained(GroupExtent(group), StartExtent, group)
  {
    ExtentFromExact(group, StartExtent);
  }

  /** The metrics of a pattern's quality. */
  datatype Packing = Packing(used: real, bboxArea: real, density: real, slack: real, touch: real, quality: real)

  /** The four gaps between a bounding box and the rectangle the pattern was built in, each at least zero. */
  function Gaps(e: Extent, r: Rect): (g: (real, real, real, real))
    ensures g.0 >= 0.0 && g.1 >= 0.0 && g.2 >= 0.0 && g.3 >= 0.0
  {
    (MaxR(0.0, e.minX - r.minX), MaxR(0.0, r.maxX - e.maxX),
     MaxR(0.0, e.minZ - r.minZ), MaxR(0.0, r.maxZ - e.maxZ))
  }

  function TouchCount(g: (real, real, real, real)): (t: nat)
    ensures t <= 4
  {
    (if g.0 <= TouchEps then 1 else 0) + (if g.1 <= TouchEps then 1 else 0)
    + (if g.2 <= TouchEps then 1 else 0) + (if g.3 <= TouchEps then 1 else 0)
  }

  /** The rectangle a group's first member was generated in, when it records one. */
  function GroupRect(group: seq<Candidate>): Option<Rect> {
    if group != [] && "rect" in group[0].meta && group[0].meta["rect"].MRect? then Some(group[0].meta["rect"].rect)
    else None
  }

  /**
    Density of the group in its bounding box, plus touching sides, minus the
    slack to the generating rectangle; zero and no metrics for no members.
   */
  function PackingQuality(group: seq<Candidate>, w: QualityWeights): (r: (real, Option<Packing>))
    ensures group == [] <==> r.1.None?
    ensures group == [] ==> r.0 == 0.0
    ensures r.1.Some? ==>
      var p := r.1.value;
      && r.0 == p.quality
      && p.bboxArea >= 0.0 && p.slack >= 0.0
      && 0.0 <= p.touch <= 4.0 && p.touch == p.touch.Floor as real
      && (p.bboxArea <= BboxAreaEps ==> p.density == 0.0)
      && (p.bboxArea > BboxAreaEps ==> p.density * p.bboxArea == p.used)
      && (GroupRect(group).None? ==> p.slack == 0.0 && p.touch == 0.0)
    ensures r.1.Some? ==>
      var p := r.1.value;
      var e := GroupExtent(group);
      && p.used == SumArea(group)
      && p.bboxArea == MaxR(0.0, e.maxX - e.minX) * MaxR(0.0, e.maxZ - e.minZ)
      && (p.slack, p.touch) == RectTerms(e, GroupRect(group))
    ensures r.1.Some? ==> r.1.value.quality == Blend(w, r.1.value)
  {
    if group == [] then (0.0, None)
    else
      var p := PackingOf(GroupExtent(group), GroupRect(group), w);
      (p.quality, Some(p))
  }

  /** The metrics of a bounding box `e` against the generating rectangle, if any. */
  function PackingOf(e: Extent, rect: Option<Rect>, w: QualityWeights): (p: Packing)
    ensures p.used == e.used
    ensures p.bboxArea == MaxR(0.0, e.maxX - e.minX) * MaxR(0.0, e.maxZ - e.minZ)
    ensures p.bboxArea >= 0.0
    ensures (p.slack, p.touch) == RectTerms(e, rect)
    ensures p.bboxArea <= BboxAreaEps ==> p.density == 0.0
    ensures p.bboxArea > BboxAreaEps ==> p.density * p.bboxArea == p.used
    ensures p.quality == Blend(w, p)
  {
    var area := MaxR(0.0, e.maxX - e.minX) * MaxR(0.0, e.maxZ - e.minZ);
    var density := Density(e.used, area);
    var st := RectTerms(e, rect);
    var q := Weighted(w, density, st.1, st.0);
    Packing(e.used, area, density, st.0, st.1, q)
  }

  /** The weighted quality: density and touching sides count for, slack against. */
  function Weighted(w: QualityWeights, density: real, touch: real, slack: real): real {
    w.density * density + w.touch * touch - w.slack * slack
  }

  function Blend(w: QualityWeights, p: Packing): real {
    Weighted(w, p.density, p.touch, p.slack)
  }

  /** Used area over bounding-box area, or zero for a degenerate box. */
  function Density(used: real, area: real): (d: real)
    ensures area <= BboxAreaEps ==> d == 0.0
    ensures area > BboxAreaEps ==> d * area == used
  {
    if area > BboxAreaEps then used / area else 0.0
  }

  /** Slack and touching sides against the generating rectangle; both zero without one. */
  function RectTerms(e: Extent, rect: Option<Rect>): (st: (real, real))
    ensures st.0 >= 0.0 && 0.0 <= st.1 <= 4.0 && st.1 == st.1.Floor as real
    ensures rect.None? ==> st == (0.0, 0.0)
    ensures rect.Some? ==>
      var g := Gaps(e, rect.value);
      st.0 == g.0 + g.1 + g.2 + g.3 && st.1 == TouchCount(g) as real
  {
    match rect
    case None => (0.0, 0.0)
    case Some(r) =>
      var g := Gaps(e, r);
      (g.0 + g.1 + g.2 + g.3, TouchCount(g) as real)
  }

  /**
    A group whose bounding box lies inside its rectangle has no slack exactly
    when the box reaches all four sides, and then touches all four.
   */
  lemma FlushPackingTouchesAllSides(group: seq<Candidate>, w: QualityWeights)
    requires GroupRect(group).Some?
    requires
      var e := GroupExtent(group);
      var r := GroupRect(group).value;
      r.minX <= e.minX && e.maxX <= r.maxX && r.minZ <= e.minZ && e.maxZ <= r.maxZ
    ensures
      var e := GroupExtent(group);
      var r := GroupRect(group).value;
      var p := PackingQuality(group, w).1.value;
      && (p.slack == 0.0 <==> e.minX == r.minX && e.maxX == r.maxX && e.minZ == r.minZ && e.maxZ == r.maxZ)
      && (p.slack == 0.0 ==> p.touch == 4.0)
  {
  }

  /** Every member's box lies within the group's bounding box. */
  lemma BoundingBoxCoversMembers(group: seq<Candidate>, k: nat)
    requires k < |group|
    ensures
      var e := GroupExtent(group);
      e.minX <= group[k].aabb.minX && group[k].aabb.maxX <= e.maxX
      && e.minZ <= group[k].aabb.minZ && group[k].aabb.maxZ <= e.maxZ
  {
  }
}
