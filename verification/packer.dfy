/**
  The greedy packing loop. Units are queued by class priority and value;
  each round takes a window of the queue, generates floor candidates,
  commits the best feasible pattern group if there is one, else the best
  feasible single, and otherwise marks every remaining unit unplaced.
 */
module Packer {
  import opened Wrappers
  import opened Ordering
  import opened Domain
  import opened Aabb
  import opened FreeRects
  import opened PlacedItems
  import opened Bounds
  import opened Axles
  import opened Coeff
  import opened Objective
  import opened Policies
  import opened Patterns
  import opened Generators
  import opened PlanStates
  import opened PackerParts

  /** The settings the loop reads. */
  datatype PackConfig = PackConfig(
    topN: int,                 // size of the window taken from the queue
    policyWeight: real,        // weight of the net policy term in a score
    rejectLogLimit: int,       // at most this many pattern rejections are logged per round
    quality: QualityWeights,
    coeff: CoeffSettings,
    policy: PolicySettings)

  // ---------------------------------------------------------------------------
  // Ids
  // ---------------------------------------------------------------------------

  function IdSet(items: seq<Item>): set<string> {
    set it | it in items :: it.id
  }

  function PlacedIds(placed: seq<PlacedItem>): set<string> {
    set p | p in placed :: p.item.id
  }

  function GroupIds(group: seq<Candidate>): set<string> {
    set c | c in group :: c.itemId
  }

  lemma IdSetCons(it: Item, items: seq<Item>)
    ensures IdSet([it] + items) == {it.id} + IdSet(items)
  {
    assert forall x :: x in [it] + items <==> x == it || x in items;
  }

  /** The units by id; of units sharing an id the last one wins. */
  function ItemsById(items: seq<Item>): (m: map<string, Item>)
    ensures m.Keys == IdSet(items)
    ensures forall k :: k in m ==> m[k].id == k && m[k] in items
    decreases |items|
  {
    if items == [] then map[]
    else
      var n := |items| - 1;
      var m := ItemsById(items[..n]);
      assert items == items[..n] + [items[n]];
      m[items[n].id := items[n]]
  }

  /** What removing the ids in `ids` from `items` leaves: `r`. */
  predicate RemovedFrom(r: seq<Item>, items: seq<Item>, ids: set<string>) {
    && IdSet(r) == IdSet(items) - ids
    && (forall it :: it in r ==> it in items)
    && |r| <= |items|
    && ((exists it :: it in items && it.id in ids) ==> |r| < |items|)
  }

  /** Removal from the tail extends to the whole queue, dropping or keeping the head. */
  lemma RemovedCons(items: seq<Item>, ids: set<string>, rest: seq<Item>)
    requires items != [] && RemovedFrom(rest, items[1..], ids)
    ensures items[0].id in ids ==> RemovedFrom(rest, items, ids)
    ensures items[0].id !in ids ==> RemovedFrom([items[0]] + rest, items, ids)
  {
    assert forall it :: it in items <==> it == items[0] || it in items[1..];
    IdSetCons(items[0], items[1..]);
    IdSetCons(items[0], rest);
    assert items == [items[0]] + items[1..];
  }

  /** The queue without the units whose ids are in `ids`. */
  function Without(items: seq<Item>, ids: set<string>): (r: seq<Item>)
    ensures IdSet(r) == IdSet(items) - ids
    ensures forall it :: it in r ==> it in items
    ensures |r| <= |items|
    ensures (exists it :: it in items && it.id in ids) ==> |r| < |items|
    decreases |items|
  {
    if items == [] then []
    else
      var rest := Without(items[1..], ids);
      RemovedCons(items, ids, rest);
      if items[0].id in ids then rest else [items[0]] + rest
  }

  /**
    Removal keeps queue order: it distributes over concatenation and keeps or
    drops a single unit by its id, so the next window is taken from the
    survivors in their queue order.
   */
  lemma {:induction false} WithoutAppend(a: seq<Item>, b: seq<Item>, ids: set<string>)
    ensures Without(a + b, ids) == Without(a, ids) + Without(b, ids)
    ensures |a| == 1 ==> Without(a, ids) == if a[0].id in ids then [] else a
    decreases |a|
  {
    if a == [] {
      assert a + b == b;
    } else {
      WithoutAppend(a[1..], b, ids);
      TailOfAppend(a, b);
      WithoutUnfold(a + b, ids);
      WithoutUnfold(a, ids);
      var h := if a[0].id in ids then [] else [a[0]];
      ConsStep(Without(a + b, ids), Without(a, ids), h, Without(a[1..], ids), Without(b, ids));
      if |a| == 1 {
        assert a[1..] == [];
      }
    }
  }

  /** One step of removal: the first unit unless its id is listed, then the rest. */
  lemma WithoutUnfold(s: seq<Item>, ids: set<string>)
    requires s != []
    ensures Without(s, ids) == (if s[0].id in ids then [] else [s[0]]) + Without(s[1..], ids)
  {
  }

  /** Every remaining unit, marked unplaced. */
  function MarkUnplaced(items: seq<Item>): (r: seq<Item>)
    ensures |r| == |items|
    ensures forall k :: 0 <= k < |items| ==> r[k] == items[k].(status := "unplaced")
    ensures IdSet(r) == IdSet(items)
  {
    var r := seq(|items|, k requires 0 <= k < |items| => items[k].(status := "unplaced"));
    assert forall it :: it in items ==> it.(status := "unplaced") in r by {
      forall it | it in items ensures it.(status := "unplaced") in r {
        var k :| 0 <= k < |items| && items[k] == it;
        assert r[k] == it.(status := "unplaced");
      }
    }
    r
  }

  // ---------------------------------------------------------------------------
  // Feasibility and scores
  // ---------------------------------------------------------------------------

  /** The policy verdict of a candidate, hard rules off. */
  function PolicyOf(st: PlanState, c: Candidate, cfg: PackConfig): PolicyDecision
    requires c.itemId in st.itemsById
  {
    EvaluateCandidatePolicy(st.itemsById[c.itemId], c, st.vehicle, st.mode, cfg.policy, false)
  }

  /** Some member draws a hard policy rejection. */
  predicate HardRejected(st: PlanState, group: seq<Candidate>, cfg: PackConfig)
    requires Known(group, st.itemsById)
  {
    exists k :: 0 <= k < |group| && PolicyOf(st, group[k], cfg).hardRejectReasons != []
  }

  /** A group every member of which is still queued, that passes the group gate and no hard rule. */
  predicate FeasibleGroup(st: PlanState, group: seq<Candidate>, remIds: set<string>, cfg: PackConfig) {
    && (forall k :: 0 <= k < |group| ==> group[k].itemId in remIds)
    && Known(group, st.itemsById)
    && CanCommitGroup(st, group).ok
    && !HardRejected(st, group, cfg)
  }

  /** A single placement that passes the gates and no hard rule. */
  predicate FeasibleSingle(st: PlanState, c: Candidate, cfg: PackConfig)
    requires c.itemId in st.itemsById
  {
    CanPlace(st, c).ok && PolicyOf(st, c, cfg).hardRejectReasons == []
  }

  /** A single's score: the base score with the weighted policy term. */
  function SingleScore(st: PlanState, c: Candidate, cfg: PackConfig): (s: Score)
    requires c.itemId in st.itemsById
    ensures s.count == 1 && s.k == ComputeK(st.itemsById[c.itemId], st.mode) && s.area == c.dx * c.dz
    ensures s.policy == cfg.policyWeight * Net(PolicyOf(st, c, cfg))
  {
    ApplyPolicyToScore(ScoreCandidate(st.itemsById, c, st.mode), PolicyOf(st, c, cfg), cfg.policyWeight)
  }

  /** A pattern's score after its leading 1: quality, then used area, then policy, then summed K. */
  datatype PatScore = PatScore(quality: real, used: real, policy: real, kSum: real)

  /** Python's tuple `>` on pattern scores. */
  predicate PatGt(a: PatScore, b: PatScore) {
    || a.quality > b.quality
    || (a.quality == b.quality && a.used > b.used)
    || (a.quality == b.quality && a.used == b.used && a.policy > b.policy)
    || (a.quality == b.quality && a.used == b.used && a.policy == b.policy && a.kSum > b.kSum)
  }

  lemma PatGtTransitive(a: PatScore, b: PatScore, c: PatScore)
    requires PatGt(a, b) && PatGt(b, c)
    ensures PatGt(a, c)
  {
  }

  /** The order is total up to ties: what beats `b` beats anything `b` is not beaten by. */
  lemma PatGtNegTransitive(a: PatScore, b: PatScore, c: PatScore)
    requires PatGt(a, b) && !PatGt(c, b)
    ensures PatGt(a, c)
  {
  }

  /** Summed K, used area and policy term of the members' single scores. */
  function MemberSums(st: PlanState, group: seq<Candidate>, cfg: PackConfig): (t: (real, real, real))
    requires Known(group, st.itemsById)
    decreases |group|
  {
    if group == [] then (0.0, 0.0, 0.0)
    else
      var s := SingleScore(st, group[0], cfg);
      assert Known(group[1..], st.itemsById);
      var rest := MemberSums(st, group[1..], cfg);
      (s.k + rest.0, s.area + rest.1, s.policy + rest.2)
  }

  function PatternScore(st: PlanState, group: seq<Candidate>, cfg: PackConfig): PatScore
    requires Known(group, st.itemsById)
  {
    var sums := MemberSums(st, group, cfg);
    PatScore(PackingQuality(group, cfg.quality).0, sums.1, sums.2, sums.0)
  }

  // ---------------------------------------------------------------------------
  // Best pattern and best single
  // ---------------------------------------------------------------------------

  /**
    The search for a best entry runs over a sequence of optional scores, one
    per group or candidate, absent where the group or candidate is not
    feasible; `best` is a maximum among the present entries of `opts[..n]`
    (none strictly greater), kept from the earliest index on ties.
   */
  predicate MaxOver<S>(opts: seq<Option<S>>, n: nat, gt: (S, S) -> bool, best: Option<nat>)
    requires n <= |opts|
  {
    && (best.None? <==> forall j :: 0 <= j < n ==> opts[j].None?)
    && (best.Some? ==>
          && best.value < n
          && opts[best.value].Some?
          && (forall j :: 0 <= j < n && opts[j].Some? ==> !gt(opts[j].value, opts[best.value].value))
          && (forall j :: 0 <= j < best.value && opts[j].Some? ==> gt(opts[best.value].value, opts[j].value)))
  }

  /**
    A strict weak order, as Python's comparison of score tuples is: `gt` is
    irreflexive and transitive, and whatever beats `b` beats everything
    that does not beat `b`.
   */
  ghost predicate StrictOrder<S(!new)>(gt: (S, S) -> bool) {
    && (forall a :: !gt(a, a))
    && (forall a, b, c :: gt(a, b) && gt(b, c) ==> gt(a, c))
    && (forall a, b, c :: gt(a, b) && !gt(c, b) ==> gt(a, c))
  }

  /** Python's running maximum: an entry replaces the best so far only when strictly greater. */
  function MaxFrom<S(!new)>(opts: seq<Option<S>>, i: nat, gt: (S, S) -> bool, best: Option<nat>): (r: Option<nat>)
    requires i <= |opts| && StrictOrder(gt) && MaxOver(opts, i, gt, best)
    ensures MaxOver(opts, |opts|, gt, r)
    decreases |opts| - i
  {
    if i == |opts| then best
    else if opts[i].None? then
      MaxFrom(opts, i + 1, gt, best)
    else if best.None? || gt(opts[i].value, opts[best.value].value) then
      MaxStep(opts, i, gt, best);
      MaxFrom(opts, i + 1, gt, Some(i))
    else
      MaxFrom(opts, i + 1, gt, best)
  }

  lemma MaxStep<S(!new)>(opts: seq<Option<S>>, i: nat, gt: (S, S) -> bool, best: Option<nat>)
    requires i < |opts| && StrictOrder(gt) && MaxOver(opts, i, gt, best) && opts[i].Some?
    requires best.None? || gt(opts[i].value, opts[best.value].value)
    ensures MaxOver(opts, i + 1, gt, Some(i))
  {
    forall j | 0 <= j < i && opts[j].Some?
      ensures gt(opts[i].value, opts[j].value)
    {
      assert best.Some?;
    }
  }

  /** `best` is a maximum among the feasible groups of the first `n`, or none is feasible. */
  predicate BestGroupOver(st: PlanState, groups: Groups, n: nat, remIds: set<string>, cfg: PackConfig,
                          best: Option<nat>)
    requires n <= |groups|
  {
    && (best.None? <==> forall j :: 0 <= j < n ==> !FeasibleGroup(st, groups[j].1, remIds, cfg))
    && (best.Some? ==>
          && best.value < n
          && FeasibleGroup(st, groups[best.value].1, remIds, cfg)
          && (forall j :: 0 <= j < n && FeasibleGroup(st, groups[j].1, remIds, cfg) ==>
               !PatGt(PatternScore(st, groups[j].1, cfg), PatternScore(st, groups[best.value].1, cfg)))
          && (forall j :: 0 <= j < best.value && FeasibleGroup(st, groups[j].1, remIds, cfg) ==>
               PatGt(PatternScore(st, groups[best.value].1, cfg), PatternScore(st, groups[j].1, cfg))))
  }

  /** Each group's pattern score, or nothing when the group is not feasible. */
  function GroupOptions(st: PlanState, groups: Groups, remIds: set<string>, cfg: PackConfig): (opts: seq<Option<PatScore>>)
    ensures |opts| == |groups|
    ensures forall j :: 0 <= j < |groups| ==>
      (opts[j].Some? <==> FeasibleGroup(st, groups[j].1, remIds, cfg))
    ensures forall j :: 0 <= j < |groups| && opts[j].Some? ==>
      Known(groups[j].1, st.itemsById) && opts[j].value == PatternScore(st, groups[j].1, cfg)
  {
    seq(|groups|, j requires 0 <= j < |groups| =>
      if FeasibleGroup(st, groups[j].1, remIds, cfg) then Some(PatternScore(st, groups[j].1, cfg)) else None)
  }

  lemma PatGtIsStrict()
    ensures StrictOrder((a, b) => PatGt(a, b))
  {
    forall a, b, c | PatGt(a, b) && PatGt(b, c) ensures PatGt(a, c) {
      PatGtTransitive(a, b, c);
    }
    forall a, b, c | PatGt(a, b) && !PatGt(c, b) ensures PatGt(a, c) {
      PatGtNegTransitive(a, b, c);
    }
  }

  /** The index of the best feasible pattern group, if any. */
  function BestGroup(st: PlanState, groups: Groups, remIds: set<string>, cfg: PackConfig): (r: Option<nat>)
    ensures BestGroupOver(st, groups, |groups|, remIds, cfg, r)
  {
    var opts := GroupOptions(st, groups, remIds, cfg);
    PatGtIsStrict();
    var r := MaxFrom(opts, 0, (a, b) => PatGt(a, b), None);
    assert BestGroupOver(st, groups, |groups|, remIds, cfg, r) by {
      if r.Some? {
        forall j | 0 <= j < |groups| && FeasibleGroup(st, groups[j].1, remIds, cfg)
          ensures !PatGt(PatternScore(st, groups[j].1, cfg), PatternScore(st, groups[r.value].1, cfg))
        {
          assert opts[j].Some?;
        }
        forall j | 0 <= j < r.value && FeasibleGroup(st, groups[j].1, remIds, cfg)
          ensures PatGt(PatternScore(st, groups[r.value].1, cfg), PatternScore(st, groups[j].1, cfg))
        {
          assert opts[j].Some?;
        }
      }
    }
    r
  }

  predicate SinglesKnown(st: PlanState, cands: seq<Candidate>) {
    forall k :: 0 <= k < |cands| && PatternKey(cands[k]).None? ==> cands[k].itemId in st.itemsById
  }

  /** An unkeyed candidate that is a feasible single. */
  predicate SingleOk(st: PlanState, cands: seq<Candidate>, j: nat, cfg: PackConfig)
    requires j < |cands| && SinglesKnown(st, cands)
  {
    PatternKey(cands[j]).None? && FeasibleSingle(st, cands[j], cfg)
  }

  /** `best` is a maximum among the feasible singles of the first `n` candidates. */
  predicate BestSingleOver(st: PlanState, cands: seq<Candidate>, n: nat, cfg: PackConfig, best: Option<nat>)
    requires n <= |cands| && SinglesKnown(st, cands)
  {
    && (best.None? <==> forall j :: 0 <= j < n ==> !SingleOk(st, cands, j, cfg))
    && (best.Some? ==>
          && best.value < n
          && SingleOk(st, cands, best.value, cfg)
          && (forall j :: 0 <= j < n && SingleOk(st, cands, j, cfg) ==>
               !ScoreGt(SingleScore(st, cands[j], cfg), SingleScore(st, cands[best.value], cfg)))
          && (forall j :: 0 <= j < best.value && SingleOk(st, cands, j, cfg) ==>
               ScoreGt(SingleScore(st, cands[best.value], cfg), SingleScore(st, cands[j], cfg))))
  }

  /** Each candidate's single score, or nothing when it is keyed or not feasible. */
  function SingleOptions(st: PlanState, cands: seq<Candidate>, cfg: PackConfig): (opts: seq<Option<Score>>)
    requires SinglesKnown(st, cands)
    ensures |opts| == |cands|
    ensures forall j :: 0 <= j < |cands| ==> (opts[j].Some? <==> SingleOk(st, cands, j, cfg))
    ensures forall j :: 0 <= j < |cands| && opts[j].Some? ==>
      cands[j].itemId in st.itemsById && opts[j].value == SingleScore(st, cands[j], cfg)
  {
    seq(|cands|, j requires 0 <= j < |cands| =>
      if SingleOk(st, cands, j, cfg) then Some(SingleScore(st, cands[j], cfg)) else None)
  }

  lemma ScoreGtIsStrict()
    ensures StrictOrder((a, b) => ScoreGt(a, b))
  {
    forall a, b, c | ScoreGt(a, b) && ScoreGt(b, c) ensures ScoreGt(a, c) {
      ScoreGtTransitive(a, b, c);
    }
    forall a, b, c | ScoreGt(a, b) && !ScoreGt(c, b) ensures ScoreGt(a, c) {
      ScoreGtNegTransitive(a, b, c);
    }
  }

  /** The index of the best feasible single among the candidates, if any. */
  function BestSingle(st: PlanState, cands: seq<Candidate>, cfg: PackConfig): (r: Option<nat>)
    requires SinglesKnown(st, cands)
    ensures BestSingleOver(st, cands, |cands|, cfg, r)
  {
    var opts := SingleOptions(st, cands, cfg);
    ScoreGtIsStrict();
    var r := MaxFrom(opts, 0, (a, b) => ScoreGt(a, b), None);
    assert BestSingleOver(st, cands, |cands|, cfg, r) by {
      if r.Some? {
        forall j | 0 <= j < |cands| && SingleOk(st, cands, j, cfg)
          ensures !ScoreGt(SingleScore(st, cands[j], cfg), SingleScore(st, cands[r.value], cfg))
        {
          assert opts[j].Some?;
        }
        forall j | 0 <= j < r.value && SingleOk(st, cands, j, cfg)
          ensures ScoreGt(SingleScore(st, cands[r.value], cfg), SingleScore(st, cands[j], cfg))
        {
          assert opts[j].Some?;
        }
      }
    }
    r
  }

  // ---------------------------------------------------------------------------
  // The debug trail of a round
  // ---------------------------------------------------------------------------

  /** One "pattern_rejected" event per rejected group while fewer than `limit` have been logged. */
  function RejectEvents(st: PlanState, groups: Groups, remIds: set<string>, cfg: PackConfig, logged: int): (es: seq<DebugEvent>)
    ensures forall k :: 0 <= k < |es| ==> es[k] == DebugEvent("pattern_rejected")
    ensures |es| <= |groups|
    decreases |groups|
  {
    if groups == [] then []
    else
      var rest := groups[1..];
      if FeasibleGroup(st, groups[0].1, remIds, cfg) then RejectEvents(st, rest, remIds, cfg, logged)
      else if logged < cfg.rejectLogLimit then
        [DebugEvent("pattern_rejected")] + RejectEvents(st, rest, remIds, cfg, logged + 1)
      else RejectEvents(st, rest, remIds, cfg, logged + 1)
  }

  /** The events of a round before its outcome. */
  function RoundEvents(st: PlanState, groups: Groups, remIds: set<string>, cfg: PackConfig): seq<DebugEvent> {
    [DebugEvent("candidates_generated")] + RejectEvents(st, groups, remIds, cfg, 0)
    + (if groups != [] then [DebugEvent("pattern_reject_summary")] else [])
  }

  // ---------------------------------------------------------------------------
  // One round
  // ---------------------------------------------------------------------------

  datatype Round = Round(st: PlanState, remaining: seq<Item>, done: bool)

  /**
    The window `remaining[:topN]` with Python's slice bound: the first `topN`
    units, or for a negative bound every unit but the last `-topN`.
   */
  function WindowOf(remaining: seq<Item>, cfg: PackConfig): (w: seq<Item>)
    ensures |w| <= |remaining| && w == remaining[..|w|]
    ensures cfg.topN >= 0 ==> |w| == Min(|remaining|, cfg.topN)
    ensures cfg.topN < 0 ==> |remaining| - |w| == Min(|remaining|, -cfg.topN)
  {
    if cfg.topN >= 0 then Top(remaining, cfg.topN)
    else if |remaining| + cfg.topN <= 0 then []
    else remaining[..|remaining| + cfg.topN]
  }

  /** Every unit of the window is a queued unit. */
  lemma WindowWithin(remaining: seq<Item>, cfg: PackConfig)
    ensures forall it :: it in WindowOf(remaining, cfg) ==> it in remaining
  {
    var w := WindowOf(remaining, cfg);
    forall it | it in w
      ensures it in remaining
    {
      var k :| 0 <= k < |w| && w[k] == it;
      assert remaining[k] == it;
    }
  }

  function RoundCandidates(st: PlanState, remaining: seq<Item>, cfg: PackConfig): seq<Candidate> {
    GenerateFloorCandidates(st.freeRects, WindowOf(remaining, cfg))
  }

  /** Every unkeyed candidate names a queued unit. */
  predicate SinglesQueued(cands: seq<Candidate>, remaining: seq<Item>) {
    forall k :: 0 <= k < |cands| && PatternKey(cands[k]).None? ==> cands[k].itemId in IdSet(remaining)
  }

  /** The single placements of a round name units of its window, hence of the queue. */
  lemma RoundSinglesQueued(st: PlanState, remaining: seq<Item>, cfg: PackConfig)
    ensures SinglesQueued(RoundCandidates(st, remaining, cfg), remaining)
  {
    var cands := RoundCandidates(st, remaining, cfg);
    forall k | 0 <= k < |cands| && PatternKey(cands[k]).None?
      ensures cands[k].itemId in IdSet(remaining)
    {
      SinglesNameWindowUnits(st.freeRects, WindowOf(remaining, cfg), cands[k]);
      WindowWithin(remaining, cfg);
    }
  }

  /** Commits a whole group and drops its units from the queue. */
  function PatternRound(st: PlanState, remaining: seq<Item>, group: seq<Candidate>, trail: seq<DebugEvent>): (r: Round)
    requires group != [] && Known(group, st.itemsById)
    requires forall k :: 0 <= k < |group| ==> group[k].itemId in IdSet(remaining)
    ensures !r.done && |r.remaining| < |remaining| && IdSet(r.remaining) <= IdSet(remaining)
    ensures Kept(st, r.st)
  {
    var st' := CommitGroup(st, group, DefaultTolerances);
    CommitGroupEffect(st, group, DefaultTolerances);
    assert group[0].itemId in IdSet(remaining);
    assert exists it :: it in remaining && it.id in GroupIds(group) by {
      var it :| it in remaining && it.id == group[0].itemId;
      assert group[0] in group;
    }
    Round(st'.(debug := st.debug + trail), Without(remaining, GroupIds(group)), false)
  }

  /** Commits one single and drops its unit from the queue. */
  function SingleRound(st: PlanState, remaining: seq<Item>, c: Candidate, trail: seq<DebugEvent>): (r: Round)
    requires c.itemId in st.itemsById && c.itemId in IdSet(remaining)
    ensures !r.done && |r.remaining| < |remaining| && IdSet(r.remaining) <= IdSet(remaining)
    ensures Kept(st, r.st)
  {
    var st' := Commit(st, c);
    assert exists it :: it in remaining && it.id in {c.itemId};
    Round(st'.(debug := st.debug + trail), Without(remaining, {c.itemId}), false)
  }

  /** Marks every queued unit unplaced and stops. */
  function ExhaustedRound(st: PlanState, remaining: seq<Item>, trail: seq<DebugEvent>): (r: Round)
    ensures r.done && r.st.placed == st.placed && r.st.unplaced == st.unplaced + MarkUnplaced(remaining)
    ensures Kept(st, r.st)
  {
    Round(st.(unplaced := st.unplaced + MarkUnplaced(remaining), debug := st.debug + trail), [], true)
  }

  /** What a round commits: a whole pattern group, one single, or nothing. */
  datatype Choice = PatternChoice(group: seq<Candidate>) | SingleChoice(c: Candidate) | NoChoice

  /** A choice the queue and the gates allow: its units are queued and known, and it passed the gate. */
  predicate Allowed(st: PlanState, remaining: seq<Item>, ch: Choice) {
    match ch
    case PatternChoice(g) =>
      && g != []
      && (forall k :: 0 <= k < |g| ==> g[k].itemId in IdSet(remaining))
      && Known(g, st.itemsById)
      && CanCommitGroup(st, g).ok
    case SingleChoice(c) => c.itemId in IdSet(remaining) && c.itemId in st.itemsById && CanPlace(st, c).ok
    case NoChoice => true
  }

  predicate PatternFeasibleIn(st: PlanState, cands: seq<Candidate>, remaining: seq<Item>, cfg: PackConfig) {
    var groups := GroupPatternCandidates(cands);
    exists j :: 0 <= j < |groups| && FeasibleGroup(st, groups[j].1, IdSet(remaining), cfg)
  }

  predicate SingleFeasibleIn(st: PlanState, cands: seq<Candidate>, cfg: PackConfig) {
    exists j :: 0 <= j < |cands| && PatternKey(cands[j]).None? && cands[j].itemId in st.itemsById
      && FeasibleSingle(st, cands[j], cfg)
  }

  /**
    The decision of a round: the best feasible pattern group wins over any
    single, a single is taken only when no group is feasible, and then the
    best feasible single; nothing is taken only when neither is.
   */
  function Choose(st: PlanState, remaining: seq<Item>, cands: seq<Candidate>, cfg: PackConfig): (ch: Choice)
    requires IdSet(remaining) <= st.itemsById.Keys && SinglesQueued(cands, remaining)
    ensures Allowed(st, remaining, ch)
    ensures ch.PatternChoice? <==> PatternFeasibleIn(st, cands, remaining, cfg)
    ensures ch.NoChoice? <==> !PatternFeasibleIn(st, cands, remaining, cfg) && !SingleFeasibleIn(st, cands, cfg)
    ensures ch.PatternChoice? ==> FeasibleGroup(st, ch.group, IdSet(remaining), cfg)
    ensures ch.SingleChoice? ==> ch.c in cands && FeasibleSingle(st, ch.c, cfg)
    ensures ch.PatternChoice? ==> forall g :: g in GroupPatternCandidates(cands) && FeasibleGroup(st, g.1, IdSet(remaining), cfg) ==>
      !PatGt(PatternScore(st, g.1, cfg), PatternScore(st, ch.group, cfg))
    ensures ch.SingleChoice? ==> forall c :: c in cands && PatternKey(c).None? && c.itemId in st.itemsById && FeasibleSingle(st, c, cfg) ==>
      !ScoreGt(SingleScore(st, c, cfg), SingleScore(st, ch.c, cfg))
  {
    var groups := GroupPatternCandidates(cands);
    var pat := BestGroup(st, groups, IdSet(remaining), cfg);
    var single := BestSingle(st, cands, cfg);
    if pat.Some? then PatternChoice(groups[pat.value].1)
    else if single.Some? then SingleChoice(cands[single.value])
    else NoChoice
  }

  /** The outcome of a choice: commit it and drop its units from the queue, or mark every queued unit unplaced. */
  function Apply(st: PlanState, remaining: seq<Item>, ch: Choice, events: seq<DebugEvent>): (r: Round)
    requires Allowed(st, remaining, ch)
    ensures !r.done ==> |r.remaining| < |remaining| && IdSet(r.remaining) <= IdSet(remaining)
    ensures r.done <==> ch.NoChoice?
    ensures Kept(st, r.st)
  {
    match ch
    case PatternChoice(g) => PatternRound(st, remaining, g, events + [DebugEvent("pattern_committed")])
    case SingleChoice(c) => SingleRound(st, remaining, c, events + [DebugEvent("candidate_chosen")])
    case NoChoice => ExhaustedRound(st, remaining, events + [DebugEvent("unplaced_all_remaining")])
  }

  /**
    One round over a non-empty queue and its candidates: the trail of the
    round, then the outcome of its choice.
   */
  function RoundOver(st: PlanState, remaining: seq<Item>, cands: seq<Candidate>, cfg: PackConfig): (r: Round)
    requires remaining != [] && IdSet(remaining) <= st.itemsById.Keys && SinglesQueued(cands, remaining)
    ensures !r.done ==> |r.remaining| < |remaining| && IdSet(r.remaining) <= IdSet(remaining)
    ensures Kept(st, r.st)
  {
    var groups := GroupPatternCandidates(cands);
    Apply(st, remaining, Choose(st, remaining, cands, cfg), RoundEvents(st, groups, IdSet(remaining), cfg))
  }

  /** One round over the candidates generated for the window of the queue. */
  function PackRound(st: PlanState, remaining: seq<Item>, cfg: PackConfig): (r: Round)
    requires remaining != [] && IdSet(remaining) <= st.itemsById.Keys
    ensures !r.done ==> |r.remaining| < |remaining| && IdSet(r.remaining) <= IdSet(remaining)
    ensures Kept(st, r.st)
  {
    RoundSinglesQueued(st, remaining, cfg);
    RoundOver(st, remaining, RoundCandidates(st, remaining, cfg), cfg)
  }

  // ---------------------------------------------------------------------------
  // What a round decides
  // ---------------------------------------------------------------------------

  predicate SomeFeasiblePattern(st: PlanState, remaining: seq<Item>, cfg: PackConfig) {
    PatternFeasibleIn(st, RoundCandidates(st, remaining, cfg), remaining, cfg)
  }

  predicate SomeFeasibleSingle(st: PlanState, remaining: seq<Item>, cfg: PackConfig) {
    SingleFeasibleIn(st, RoundCandidates(st, remaining, cfg), cfg)
  }

  lemma PatternWinsOver(st: PlanState, remaining: seq<Item>, cands: seq<Candidate>, cfg: PackConfig)
    requires remaining != [] && IdSet(remaining) <= st.itemsById.Keys && SinglesQueued(cands, remaining)
    requires PatternFeasibleIn(st, cands, remaining, cfg)
    ensures !RoundOver(st, remaining, cands, cfg).done
    ensures exists group ::
      (&& FeasibleGroup(st, group, IdSet(remaining), cfg)
       && RoundOver(st, remaining, cands, cfg).st.placed == st.placed + PlaceAll(group, st.itemsById)
       && RoundOver(st, remaining, cands, cfg).remaining == Without(remaining, GroupIds(group)))
  {
    var ch := Choose(st, remaining, cands, cfg);
    PatternApplied(st, remaining, ch.group, RoundEvents(st, GroupPatternCandidates(cands), IdSet(remaining), cfg));
  }

  /** Applying a pattern choice commits the whole group and drops its units from the queue. */
  lemma PatternApplied(st: PlanState, remaining: seq<Item>, g: seq<Candidate>, events: seq<DebugEvent>)
    requires Allowed(st, remaining, PatternChoice(g))
    ensures Apply(st, remaining, PatternChoice(g), events).st.placed == st.placed + PlaceAll(g, st.itemsById)
    ensures Apply(st, remaining, PatternChoice(g), events).remaining == Without(remaining, GroupIds(g))
  {
    CommitGroupEffect(st, g, DefaultTolerances);
  }

  /** When some pattern group is feasible, the round commits exactly one such group in full and nothing else. */
  lemma PatternWinsOverSingle(st: PlanState, remaining: seq<Item>, cfg: PackConfig)
    requires remaining != [] && IdSet(remaining) <= st.itemsById.Keys
    requires SomeFeasiblePattern(st, remaining, cfg)
    ensures !PackRound(st, remaining, cfg).done
    ensures exists group ::
      (&& FeasibleGroup(st, group, IdSet(remaining), cfg)
       && PackRound(st, remaining, cfg).st.placed == st.placed + PlaceAll(group, st.itemsById)
       && PackRound(st, remaining, cfg).remaining == Without(remaining, GroupIds(group)))
  {
    RoundSinglesQueued(st, remaining, cfg);
    PatternWinsOver(st, remaining, RoundCandidates(st, remaining, cfg), cfg);
  }

  lemma ExhaustionOver(st: PlanState, remaining: seq<Item>, cands: seq<Candidate>, cfg: PackConfig)
    requires remaining != [] && IdSet(remaining) <= st.itemsById.Keys && SinglesQueued(cands, remaining)
    requires !PatternFeasibleIn(st, cands, remaining, cfg) && !SingleFeasibleIn(st, cands, cfg)
    ensures RoundOver(st, remaining, cands, cfg).done
    ensures RoundOver(st, remaining, cands, cfg).st.placed == st.placed
    ensures RoundOver(st, remaining, cands, cfg).st.unplaced == st.unplaced + MarkUnplaced(remaining)
  {
    assert Choose(st, remaining, cands, cfg) == NoChoice;
  }

  /** Without a feasible pattern or single, the round stops, places nothing and marks every queued unit unplaced. */
  lemma ExhaustionMarksAllUnplaced(st: PlanState, remaining: seq<Item>, cfg: PackConfig)
    requires remaining != [] && IdSet(remaining) <= st.itemsById.Keys
    requires !SomeFeasiblePattern(st, remaining, cfg) && !SomeFeasibleSingle(st, remaining, cfg)
    ensures PackRound(st, remaining, cfg).done
    ensures PackRound(st, remaining, cfg).st.placed == st.placed
    ensures PackRound(st, remaining, cfg).st.unplaced == st.unplaced + MarkUnplaced(remaining)
  {
    RoundSinglesQueued(st, remaining, cfg);
    ExhaustionOver(st, remaining, RoundCandidates(st, remaining, cfg), cfg);
  }

  // ---------------------------------------------------------------------------
  // The loop and its invariant
  // ---------------------------------------------------------------------------

  /** Every placed box lies inside the hold widened by the 1e-9 tolerance `BoxEps`. */
  predicate InHold(placed: seq<PlacedItem>, v: Vehicle) {
    forall i :: 0 <= i < |placed| ==> !OutOfBounds(placed[i].aabb, v, BoxEps)
  }

  /** The ids of the known units name themselves. */
  predicate ConsistentIds(m: map<string, Item>) {
    forall k :: k in m ==> m[k].id == k
  }

  /** What holds between rounds: placed and queued ids split `all`, and the plan so far is feasible. */
  predicate LoopInv(st: PlanState, remaining: seq<Item>, all: set<string>) {
    && ConsistentIds(st.itemsById)
    && IdSet(remaining) <= st.itemsById.Keys
    && PlacedIds(st.placed) + IdSet(remaining) == all
    && PlacedIds(st.placed) !! IdSet(remaining)
    && st.unplaced == []
    && Disjoint(st.placed)
    && InHold(st.placed, st.vehicle)
    && (st.loads.Some? ==> CheckLoads(st.loads.value, st.vehicle).ok)
  }

  /** A finished plan: placed and unplaced ids split `all`, and the placement is feasible. */
  predicate Sound(st: PlanState, all: set<string>) {
    && PlacedIds(st.placed) + IdSet(st.unplaced) == all
    && PlacedIds(st.placed) !! IdSet(st.unplaced)
    && (forall u :: u in st.unplaced ==> u.status == "unplaced")
    && Disjoint(st.placed)
    && InHold(st.placed, st.vehicle)
    && (st.loads.Some? ==> CheckLoads(st.loads.value, st.vehicle).ok)
  }

  lemma PlacedIdsAppend(a: seq<PlacedItem>, b: seq<PlacedItem>)
    ensures PlacedIds(a + b) == PlacedIds(a) + PlacedIds(b)
  {
    assert forall p :: p in a + b <==> p in a || p in b;
  }

  /** The placed units of a group carry the ids its members name. */
  lemma PlaceAllIds(group: seq<Candidate>, m: map<string, Item>)
    requires Known(group, m) && ConsistentIds(m)
    ensures PlacedIds(PlaceAll(group, m)) == GroupIds(group)
  {
    var q := PlaceAll(group, m);
    forall id | id in GroupIds(group) ensures id in PlacedIds(q) {
      var c :| c in group && c.itemId == id;
      var k :| 0 <= k < |group| && group[k] == c;
      assert q[k] in q;
    }
  }

  lemma InHoldAppend(p: seq<PlacedItem>, q: seq<PlacedItem>, v: Vehicle)
    requires InHold(p, v) && InHold(q, v)
    ensures InHold(p + q, v)
  {
    forall i | 0 <= i < |p + q| ensures !OutOfBounds((p + q)[i].aabb, v, BoxEps) {
      if i >= |p| {
        assert (p + q)[i] == q[i - |p|];
      }
    }
  }

  /** The members of a group that passed the gate, once placed, lie inside the hold. */
  lemma PlaceAllInHold(st: PlanState, group: seq<Candidate>)
    requires Known(group, st.itemsById) && CanCommitGroup(st, group).ok
    ensures InHold(PlaceAll(group, st.itemsById), st.vehicle)
  {
  }

  lemma GroupCommitInHold(st: PlanState, group: seq<Candidate>, t: Tolerances)
    requires Known(group, st.itemsById) && CanCommitGroup(st, group).ok && InHold(st.placed, st.vehicle)
    ensures InHold(CommitGroup(st, group, t).placed, st.vehicle)
  {
    CommitGroupEffect(st, group, t);
    PlaceAllInHold(st, group);
    InHoldAppend(st.placed, PlaceAll(group, st.itemsById), st.vehicle);
  }

  lemma GroupIdsQueued(group: seq<Candidate>, remaining: seq<Item>)
    requires forall k :: 0 <= k < |group| ==> group[k].itemId in IdSet(remaining)
    ensures GroupIds(group) <= IdSet(remaining)
  {
    forall id | id in GroupIds(group) ensures id in IdSet(remaining) {
      var c :| c in group && c.itemId == id;
      var k :| 0 <= k < |group| && group[k] == c;
    }
  }

  /** The id bookkeeping of a commit: the committed ids move from the queue to the placed units. */
  lemma MoveIds(placed: set<string>, queued: set<string>, moved: set<string>, all: set<string>)
    requires placed + queued == all && placed !! queued && moved <= queued
    ensures (placed + moved) + (queued - moved) == all && (placed + moved) !! (queued - moved)
  {
  }

  /** Moving the unit ids of `q` from the queue to the placed units keeps the split of `all`. */
  lemma PlacedIdsMove(placed: seq<PlacedItem>, q: seq<PlacedItem>, remaining: seq<Item>, moved: set<string>,
                      all: set<string>)
    requires PlacedIds(placed) + IdSet(remaining) == all && PlacedIds(placed) !! IdSet(remaining)
    requires PlacedIds(q) == moved && moved <= IdSet(remaining)
    ensures PlacedIds(placed + q) + IdSet(Without(remaining, moved)) == all
    ensures PlacedIds(placed + q) !! IdSet(Without(remaining, moved))
  {
    PlacedIdsAppend(placed, q);
    MoveIds(PlacedIds(placed), IdSet(remaining), moved, all);
  }

  /** A committed group that passed the gate keeps the invariant. */
  lemma PatternRoundKeepsInv(st: PlanState, remaining: seq<Item>, all: set<string>, group: seq<Candidate>)
    requires LoopInv(st, remaining, all) && group != []
    requires forall k :: 0 <= k < |group| ==> group[k].itemId in IdSet(remaining)
    requires Known(group, st.itemsById) && CanCommitGroup(st, group).ok
    ensures LoopInv(CommitGroup(st, group, DefaultTolerances), Without(remaining, GroupIds(group)), all)
  {
    var q := PlaceAll(group, st.itemsById);
    CommitGroupEffect(st, group, DefaultTolerances);
    CommitGroupKeepsDisjoint(st, group, DefaultTolerances);
    CommitGroupWithinLimits(st, group, DefaultTolerances);
    GroupCommitInHold(st, group, DefaultTolerances);
    PlaceAllIds(group, st.itemsById);
    GroupIdsQueued(group, remaining);
    PlacedIdsMove(st.placed, q, remaining, GroupIds(group), all);
  }

  /** A placed single lies inside the hold and keeps the placement disjoint and within limits. */
  lemma SingleCommitFeasible(st: PlanState, c: Candidate)
    requires c.itemId in st.itemsById && CanPlace(st, c).ok
    requires Disjoint(st.placed) && InHold(st.placed, st.vehicle)
    ensures Disjoint(Commit(st, c).placed) && InHold(Commit(st, c).placed, st.vehicle)
    ensures CheckLoads(Commit(st, c).loads.value, st.vehicle).ok
  {
    CommitKeepsDisjoint(st, c, DefaultTolerances);
    CommitKeepsLoadsWithinLimits(st, c, DefaultTolerances);
    var p := PlacedFromCandidate(c, st.itemsById[c.itemId]);
    assert InHold([p], st.vehicle);
    InHoldAppend(st.placed, [p], st.vehicle);
  }

  /** A committed single that passed the gates keeps the invariant. */
  lemma SingleRoundKeepsInv(st: PlanState, remaining: seq<Item>, all: set<string>, c: Candidate)
    requires LoopInv(st, remaining, all)
    requires c.itemId in IdSet(remaining) && CanPlace(st, c).ok
    ensures LoopInv(Commit(st, c), Without(remaining, {c.itemId}), all)
  {
    var p := PlacedFromCandidate(c, st.itemsById[c.itemId]);
    SingleCommitFeasible(st, c);
    assert PlacedIds([p]) == {c.itemId};
    PlacedIdsMove(st.placed, [p], remaining, {c.itemId}, all);
  }

  /** Applying an allowed choice keeps the invariant, or stops with a sound plan. */
  lemma ApplyKeepsInv(st: PlanState, remaining: seq<Item>, all: set<string>, ch: Choice, events: seq<DebugEvent>)
    requires LoopInv(st, remaining, all) && Allowed(st, remaining, ch)
    ensures
      var r := Apply(st, remaining, ch, events);
      (r.done ==> Sound(r.st, all)) && (!r.done ==> LoopInv(r.st, r.remaining, all))
  {
    match ch
    case PatternChoice(g) =>
      PatternRoundKeepsInv(st, remaining, all, g);
    case SingleChoice(c) =>
      SingleRoundKeepsInv(st, remaining, all, c);
    case NoChoice =>
      assert Apply(st, remaining, ch, events).st.unplaced == MarkUnplaced(remaining);
  }

  lemma RoundOverKeepsInv(st: PlanState, remaining: seq<Item>, all: set<string>, cands: seq<Candidate>, cfg: PackConfig)
    requires remaining != [] && LoopInv(st, remaining, all) && SinglesQueued(cands, remaining)
    ensures
      var r := RoundOver(st, remaining, cands, cfg);
      (r.done ==> Sound(r.st, all)) && (!r.done ==> LoopInv(r.st, r.remaining, all))
  {
    var ch := Choose(st, remaining, cands, cfg);
    ApplyKeepsInv(st, remaining, all, ch, RoundEvents(st, GroupPatternCandidates(cands), IdSet(remaining), cfg));
  }

  /** A round keeps the invariant, or stops with a sound plan. */
  lemma RoundKeepsInv(st: PlanState, remaining: seq<Item>, all: set<string>, cfg: PackConfig)
    requires remaining != [] && LoopInv(st, remaining, all)
    ensures
      var r := PackRound(st, remaining, cfg);
      (r.done ==> Sound(r.st, all)) && (!r.done ==> LoopInv(r.st, r.remaining, all))
  {
    RoundSinglesQueued(st, remaining, cfg);
    RoundOverKeepsInv(st, remaining, all, RoundCandidates(st, remaining, cfg), cfg);
  }

  /** The hold, the mode and the unit index stay, and the trail only grows. */
  predicate Kept(st: PlanState, st': PlanState) {
    && st'.vehicle == st.vehicle && st'.mode == st.mode && st'.itemsById == st.itemsById
    && |st.debug| <= |st'.debug| && st'.debug[..|st.debug|] == st.debug
  }

  lemma KeptTransitive(a: PlanState, b: PlanState, c: PlanState)
    requires Kept(a, b) && Kept(b, c)
    ensures Kept(a, c)
  {
    assert c.debug[..|a.debug|] == c.debug[..|b.debug|][..|a.debug|];
  }

  /** Rounds until the queue is empty or exhausted. */
  function PackLoop(st: PlanState, remaining: seq<Item>, cfg: PackConfig, ghost all: set<string>): (res: PlanState)
    requires LoopInv(st, remaining, all)
    ensures Sound(res, all) && Kept(st, res)
    decreases |remaining|
  {
    if remaining == [] then st
    else
      RoundKeepsInv(st, remaining, all, cfg);
      var r := PackRound(st, remaining, cfg);
      if r.done then r.st
      else
        var res := PackLoop(r.st, r.remaining, cfg, all);
        KeptTransitive(st, r.st, res);
        res
  }

  /** The queue order: class priority, then higher K first. */
  function Queue(items: seq<Item>, v: Vehicle, md: ModeDecision, ps: PolicySettings): (q: seq<Item>)
    ensures SortedBy(q, (it: Item) => SortKeyForQueue(it, v, md, ps))
    ensures multiset(q) == multiset(items)
  {
    SortBy(items, (it: Item) => SortKeyForQueue(it, v, md, ps))
  }

  /** Units with equal queue keys, such as identical pallets, keep their input order. */
  lemma QueueStable(items: seq<Item>, v: Vehicle, md: ModeDecision, ps: PolicySettings, k: (int, real))
    ensures var key := (it: Item) => SortKeyForQueue(it, v, md, ps);
      KeyRun(Queue(items, v, md, ps), key, k) == KeyRun(items, key, k)
  {
    SortByStable(items, (it: Item) => SortKeyForQueue(it, v, md, ps), k);
  }

  lemma MultisetSameIds(a: seq<Item>, b: seq<Item>)
    requires multiset(a) == multiset(b)
    ensures IdSet(a) == IdSet(b)
  {
    assert forall it :: it in a <==> it in multiset(a);
    assert forall it :: it in b <==> it in multiset(b);
  }

  /**
    The whole run: detect the mode, start from the empty floor, queue the
    units, run the rounds, and return the plan.
   */
  function Pack(items: seq<Item>, v: Vehicle, taskId: string, transportType: string, cfg: PackConfig): (res: PlanResult)
    requires ValidSettings(cfg.coeff)
    ensures PlacedIds(res.placed) + IdSet(res.unplaced) == IdSet(items)
    ensures PlacedIds(res.placed) !! IdSet(res.unplaced)
    ensures forall u :: u in res.unplaced ==> u.status == "unplaced"
    ensures Disjoint(res.placed) && InHold(res.placed, v)
    ensures res.loads.Some? ==> CheckLoads(res.loads.value, v).ok
    ensures |res.debug| >= 1 && res.debug[0] == DebugEvent("mode_detected")
    ensures res.mode == DetectMode(items, v, cfg.coeff) && res.vehicle == v
  {
    var md := DetectMode(items, v, cfg.coeff);
    var st1 := Emit(InitFreeRects(NewState(taskId, transportType, v, md, ItemsById(items))), "mode_detected");
    var queue := Queue(items, v, md, cfg.policy);
    StartInv(items, queue, st1);
    Snapshot(PackLoop(st1, queue, cfg, IdSet(items)))
  }

  /** A fresh state indexing `items`, with a queue holding the same units, satisfies the loop invariant. */
  lemma StartInv(items: seq<Item>, queue: seq<Item>, st: PlanState)
    requires multiset(queue) == multiset(items)
    requires st.itemsById == ItemsById(items) && st.placed == [] && st.unplaced == [] && st.loads.None?
    ensures LoopInv(st, queue, IdSet(items))
  {
    MultisetSameIds(queue, items);
  }
}
