/** The rule engine of js/engine.js: a budget of points, a selection of
    purchased nodes, AND/OR prerequisites, a stage derived from the cost of
    the active principle nodes, and stat totals recomputed after every change.

    The pure part (a node table, a `Selection` snapshot and the functions
    over them) is the specification; the class `Engine` holds the mutable
    state and its methods are proved to follow those functions. */
module RuleEngine {
  import opened Types

  /** The node table: `byId` maps an id to its node (a later node with the
      same id replaces an earlier one, as in `new Map(entries)`), `order`
      lists the ids in the Map's iteration order (first insertion). */
  datatype Table = Table(byId: map<string, Node>, order: seq<string>)

  ghost predicate WellFormed(t: Table) {
    && Distinct(t.order)
    && (forall k :: k in t.byId <==> k in t.order)
    && (forall k | k in t.byId :: t.byId[k].id == k)
  }

  /** The state the engine's operations read and write. `active` keeps the
      insertion order of the JS Set; `stacks` is the per-node level map the
      host adds to the engine's state (absent means level 0). */
  datatype Selection = Selection(
    pointsMax: int,
    pointsSpent: int,
    active: seq<string>,
    stats: map<string, int>,
    stacks: map<string, int>)

  /** The payload `exportBuild` produces. */
  datatype Build = Build(pointsMax: int, pointsSpent: int, active: seq<string>, stats: map<string, int>)

  // ---------------------------------------------------------------------
  // Loading the dataset

  function ByIdOf(nodes: seq<Node>): (m: map<string, Node>)
    ensures forall n | n in nodes :: n.id in m
    ensures forall k | k in m :: m[k].id == k && m[k] in nodes
  {
    if nodes == [] then map[]
    else
      var init := nodes[..|nodes| - 1];
      assert nodes == init + [nodes[|nodes| - 1]];
      ByIdOf(init)[nodes[|nodes| - 1].id := nodes[|nodes| - 1]]
  }

  function OrderOf(nodes: seq<Node>): (o: seq<string>)
    ensures Distinct(o)
    ensures forall k :: k in o <==> k in ByIdOf(nodes)
  {
    if nodes == [] then []
    else
      var init := nodes[..|nodes| - 1];
      var o := OrderOf(init);
      var x := nodes[|nodes| - 1].id;
      ByIdOfStep(nodes);
      if x in o then o else DistinctAppend(o, x); o + [x]
  }

  lemma ByIdOfStep(nodes: seq<Node>)
    requires nodes != []
    ensures ByIdOf(nodes).Keys == ByIdOf(nodes[..|nodes| - 1]).Keys + {nodes[|nodes| - 1].id}
  {
  }

  /** The table `init` builds from the dataset's node list. */
  function TableOf(nodes: seq<Node>): (t: Table)
    ensures WellFormed(t)
    ensures forall n | n in nodes :: n.id in t.byId
    ensures forall k | k in t.byId :: t.byId[k] in nodes
  {
    Table(ByIdOf(nodes), OrderOf(nodes))
  }

  // ---------------------------------------------------------------------
  // Points

  /** `node.cost ?? 0` for an id; 0 for an id the table does not know. */
  function CostOf(t: Table, id: string): nat {
    if id in t.byId then t.byId[id].cost else 0
  }

  /** The summed cost of a list of ids. */
  function SumCost(t: Table, ids: seq<string>): nat {
    if ids == [] then 0 else SumCost(t, ids[..|ids| - 1]) + CostOf(t, ids[|ids| - 1])
  }

  /** The engine's own bookkeeping invariant: spent points are the cost of
      the active nodes. */
  ghost predicate SpentMatches(t: Table, s: Selection) {
    s.pointsSpent == SumCost(t, s.active)
  }

  lemma SumCostAppend(t: Table, ids: seq<string>, x: string)
    ensures SumCost(t, ids + [x]) == SumCost(t, ids) + CostOf(t, x)
  {
    assert (ids + [x])[..|ids + [x]| - 1] == ids;
  }

  /** Deleting an active id takes exactly its cost off the sum. */
  lemma {:induction false} SumCostRemove(t: Table, ids: seq<string>, x: string)
    requires Distinct(ids) && x in ids
    ensures SumCost(t, Remove(ids, x)) == SumCost(t, ids) - CostOf(t, x)
  {
    var init := ids[..|ids| - 1];
    var last := ids[|ids| - 1];
    assert ids == init + [last];
    if last == x {
      assert x !in init;
      RemoveAbsent(init, x);
    } else {
      assert x in init;
      SumCostRemove(t, init, x);
      SumCostAppend(t, Remove(init, x), last);
    }
  }

  /** The cost of a duplicate-free list of ids is at most that of any
      duplicate-free list holding all of them. */
  lemma {:induction false} SumCostSubset(t: Table, a: seq<string>, b: seq<string>)
    requires Distinct(a) && Distinct(b) && forall k | k in a :: k in b
    ensures SumCost(t, a) <= SumCost(t, b)
  {
    if a != [] {
      var init, x := a[..|a| - 1], a[|a| - 1];
      assert a == init + [x];
      SumCostRemove(t, b, x);
      SumCostSubset(t, init, Remove(b, x));
    }
  }

  // ---------------------------------------------------------------------
  // Stage (nenPointsFundamentais / nenStage)

  /** Tags whose nodes count towards PN. */
  const PRINCIPLES: set<string> := {"Ten", "Zetsu", "Ren", "Hatsu", "Fundamental"}

  predicate IsPrinciple(n: Node) {
    exists tg | tg in n.tags :: tg in PRINCIPLES
  }

  /** What one id adds to PN: its cost when it is a known node with a
      principle tag, 0 otherwise. */
  function PrincipleCost(t: Table, id: string): nat {
    if id in t.byId && IsPrinciple(t.byId[id]) then t.byId[id].cost else 0
  }

  /** PN: the summed cost of the listed nodes carrying a principle tag;
      ids the table does not know are skipped. */
  function PrinciplePoints(t: Table, ids: seq<string>): nat {
    if ids == [] then 0 else PrinciplePoints(t, ids[..|ids| - 1]) + PrincipleCost(t, ids[|ids| - 1])
  }

  lemma PrinciplePointsAppend(t: Table, ids: seq<string>, x: string)
    ensures PrinciplePoints(t, ids + [x]) == PrinciplePoints(t, ids) + PrincipleCost(t, x)
  {
    assert (ids + [x])[..|ids + [x]| - 1] == ids;
  }

  /** Deleting an active id takes exactly its share off PN. */
  lemma {:induction false} PrinciplePointsRemove(t: Table, ids: seq<string>, x: string)
    requires Distinct(ids) && x in ids
    ensures PrinciplePoints(t, Remove(ids, x)) == PrinciplePoints(t, ids) - PrincipleCost(t, x)
  {
    var init := ids[..|ids| - 1];
    var last := ids[|ids| - 1];
    assert ids == init + [last];
    if last == x {
      assert x !in init;
      RemoveAbsent(init, x);
    } else {
      assert x in init;
      PrinciplePointsRemove(t, init, x);
      PrinciplePointsAppend(t, Remove(init, x), last);
    }
  }

  /** More active nodes never give a smaller PN. */
  lemma {:induction false} PrinciplePointsSubset(t: Table, a: seq<string>, b: seq<string>)
    requires Distinct(a) && Distinct(b) && forall k | k in a :: k in b
    ensures PrinciplePoints(t, a) <= PrinciplePoints(t, b)
  {
    if a != [] {
      var init, x := a[..|a| - 1], a[|a| - 1];
      assert a == init + [x];
      PrinciplePointsRemove(t, b, x);
      PrinciplePointsSubset(t, init, Remove(b, x));
    }
  }

  /** PN never exceeds the cost of all the listed nodes. */
  lemma {:induction false} PrinciplePointsAtMostCost(t: Table, ids: seq<string>)
    ensures PrinciplePoints(t, ids) <= SumCost(t, ids)
  {
    if ids != [] {
      PrinciplePointsAtMostCost(t, ids[..|ids| - 1]);
    }
  }

  /** The engine's ranking of stage names (`stageOrder`); unknown names rank 0. */
  function StageRank(name: string): nat {
    if name == "Iniciante" then 1
    else if name == "Perito" then 2
    else if name == "Mestre" then 3
    else 0
  }

  /** The stage for a PN value: three tiers split at 10 and 31. */
  function NenStage(pn: int): (name: string)
    ensures name == "Mestre" <==> pn >= 31
    ensures name == "Perito" <==> 10 <= pn <= 30
    ensures name == "Iniciante" <==> pn <= 9
    ensures StageRank(name) >= 1
  {
    if pn >= 31 then "Mestre"
    else if pn >= 10 then "Perito"
    else "Iniciante"
  }

  /** A larger PN never gives a lower stage. */
  lemma NenStageMonotone(p: int, q: int)
    requires p <= q
    ensures StageRank(NenStage(p)) <= StageRank(NenStage(q))
  {
  }

  // ---------------------------------------------------------------------
  // Buying

  /** `hasAll`: every listed id is active; an empty list is satisfied. */
  predicate HasAll(active: seq<string>, reqs: seq<string>) {
    forall r | r in reqs :: r in active
  }

  /** `hasAny`: an empty list is satisfied, otherwise some listed id is active. */
  predicate HasAny(active: seq<string>, reqs: seq<string>) {
    reqs == [] || exists r | r in reqs :: r in active
  }

  /** Activating more nodes never breaks a satisfied prerequisite list. */
  lemma HasMonotone(a: seq<string>, b: seq<string>, reqs: seq<string>)
    requires forall k | k in a :: k in b
    ensures HasAll(a, reqs) ==> HasAll(b, reqs)
    ensures HasAny(a, reqs) ==> HasAny(b, reqs)
  {
  }

  /** The stage check of `canBuy`: no stage asked, or the current stage ranks
      at least as high as the one asked. */
  predicate StageMet(t: Table, s: Selection, n: Node) {
    n.reqStage == "" || StageRank(NenStage(PrinciplePoints(t, s.active))) >= StageRank(n.reqStage)
  }

  /** `canBuy`: six checks in a fixed order; the first that fails decides the
      reason. */
  function CanBuy(t: Table, s: Selection, id: string): (r: Check)
    ensures r == Fail(NodeNotFound) <==> id !in t.byId
    ensures r == Fail(AlreadyActive) <==> id in t.byId && id in s.active
    ensures r == Fail(InsufficientPoints) <==>
      id in t.byId && id !in s.active && s.pointsSpent + t.byId[id].cost > s.pointsMax
    ensures r == Fail(MissingRequiredAll) <==>
      id in t.byId && id !in s.active && s.pointsSpent + t.byId[id].cost <= s.pointsMax
      && !HasAll(s.active, t.byId[id].reqAll)
    ensures r == Fail(MissingRequiredAny) <==>
      id in t.byId && id !in s.active && s.pointsSpent + t.byId[id].cost <= s.pointsMax
      && HasAll(s.active, t.byId[id].reqAll) && !HasAny(s.active, t.byId[id].reqAny)
    ensures (r.Fail? && r.reason.StageTooLow?) <==>
      id in t.byId && id !in s.active && s.pointsSpent + t.byId[id].cost <= s.pointsMax
      && HasAll(s.active, t.byId[id].reqAll) && HasAny(s.active, t.byId[id].reqAny)
      && !StageMet(t, s, t.byId[id])
    ensures r.Fail? && r.reason.StageTooLow? ==> r.reason.stage == t.byId[id].reqStage
    ensures r.Fail? ==> r.reason in {NodeNotFound, AlreadyActive, InsufficientPoints,
                                     MissingRequiredAll, MissingRequiredAny} || r.reason.StageTooLow?
  {
    if id !in t.byId then Fail(NodeNotFound)
    else if id in s.active then Fail(AlreadyActive)
    else
      var n := t.byId[id];
      if s.pointsSpent + n.cost > s.pointsMax then Fail(InsufficientPoints)
      else if !HasAll(s.active, n.reqAll) then Fail(MissingRequiredAll)
      else if !HasAny(s.active, n.reqAny) then Fail(MissingRequiredAny)
      else if !StageMet(t, s, n) then Fail(StageTooLow(n.reqStage))
      else Ok
  }

  /** The state after a successful `buy`. */
  function AfterBuy(t: Table, s: Selection, id: string): Selection {
    var active' := s.active + [id];
    s.(active := active', pointsSpent := s.pointsSpent + CostOf(t, id), stats := StatsOf(t, active'))
  }

  /** `buy`: the `canBuy` verdict, and the new state (unchanged on failure). */
  function BuyStep(t: Table, s: Selection, id: string): (Check, Selection) {
    var r := CanBuy(t, s, id);
    if r.Ok? then (Ok, AfterBuy(t, s, id)) else (r, s)
  }

  /** A successful buy never takes the spent points over the cap. */
  lemma BuyWithinBudget(t: Table, s: Selection, id: string)
    requires BuyStep(t, s, id).0.Ok?
    ensures BuyStep(t, s, id).1.pointsSpent <= s.pointsMax
    ensures BuyStep(t, s, id).1.pointsMax == s.pointsMax
  {
  }

  lemma BuyKeepsSpent(t: Table, s: Selection, id: string)
    requires SpentMatches(t, s)
    ensures SpentMatches(t, BuyStep(t, s, id).1)
    ensures Distinct(s.active) ==> Distinct(BuyStep(t, s, id).1.active)
  {
    if BuyStep(t, s, id).0.Ok? {
      SumCostAppend(t, s.active, id);
    }
  }

  /** A node buyable in one selection stays buyable in any selection that
      holds at least those active nodes, still lacks this one and has room
      for its cost: prerequisites and the stage only get easier to meet. */
  lemma CanBuyFromLarger(t: Table, a: Selection, b: Selection, id: string)
    requires CanBuy(t, a, id).Ok?
    requires Distinct(a.active) && Distinct(b.active) && forall k | k in a.active :: k in b.active
    requires id !in b.active && b.pointsSpent + CostOf(t, id) <= b.pointsMax
    ensures CanBuy(t, b, id).Ok?
  {
    var n := t.byId[id];
    HasMonotone(a.active, b.active, n.reqAll);
    HasMonotone(a.active, b.active, n.reqAny);
    PrinciplePointsSubset(t, a.active, b.active);
    NenStageMonotone(PrinciplePoints(t, a.active), PrinciplePoints(t, b.active));
  }

  // ---------------------------------------------------------------------
  // Refunding

  /** The name of the first node, in table order, that is active and lists
      `id` among its prerequisites of either kind. */
  function FirstDependent(t: Table, active: seq<string>, ids: seq<string>, id: string): (d: Option<string>)
    ensures d.None? <==> forall k | k in ids && k in active && k in t.byId :: id !in Deps(t.byId[k])
    ensures d.Some? ==> exists k | k in ids && k in active && k in t.byId ::
                          id in Deps(t.byId[k]) && t.byId[k].name == d.value
  {
    if ids == [] then None
    else if ids[0] in active && ids[0] in t.byId && id in Deps(t.byId[ids[0]]) then Some(t.byId[ids[0]].name)
    else FirstDependent(t, active, ids[1..], id)
  }

  /** `canRefund`. */
  function CanRefund(t: Table, s: Selection, id: string): (r: Check)
    ensures r == Fail(NotActive) <==> id !in s.active
    ensures r.Fail? ==> r.reason.NotActive? || r.reason.DependencyExists?
  {
    if id !in s.active then Fail(NotActive)
    else match FirstDependent(t, s.active, t.order, id)
      case Some(name) => Fail(DependencyExists(name))
      case None => Ok
  }

  /** Refunding is blocked exactly when some active node still depends on the id. */
  lemma RefundBlockedIff(t: Table, s: Selection, id: string)
    requires WellFormed(t)
    ensures CanRefund(t, s, id).Ok? <==>
      id in s.active && forall k | k in s.active && k in t.byId :: id !in Deps(t.byId[k])
    ensures (CanRefund(t, s, id).Fail? && CanRefund(t, s, id).reason.DependencyExists?) <==>
      id in s.active && exists k | k in s.active && k in t.byId :: id in Deps(t.byId[k])
  {
  }

  /** The state after a successful `refund`. */
  function AfterRefund(t: Table, s: Selection, id: string): Selection {
    var active' := Remove(s.active, id);
    s.(active := active', pointsSpent := s.pointsSpent - CostOf(t, id), stats := StatsOf(t, active'))
  }

  function RefundStep(t: Table, s: Selection, id: string): (Check, Selection) {
    var r := CanRefund(t, s, id);
    if r.Ok? then (Ok, AfterRefund(t, s, id)) else (r, s)
  }

  /** A buy that goes through appends a known, inactive id that fits under
      the cap. */
  lemma BuyShape(t: Table, s: Selection, id: string)
    requires Distinct(s.active) && (forall k | k in s.active :: k in t.byId)
    requires CanBuy(t, s, id).Ok?
    ensures id in t.byId && CostOf(t, id) == t.byId[id].cost
    ensures s.pointsSpent + t.byId[id].cost <= s.pointsMax
    ensures Distinct(s.active + [id]) && (forall k | k in s.active + [id] :: k in t.byId)
    ensures BuyStep(t, s, id) == (Ok, AfterBuy(t, s, id))
  {
    DistinctAppend(s.active, id);
  }

  /** A refund that goes through removes a known id from a list that stays
      free of repeats and of unknown ids. */
  lemma RefundShape(t: Table, s: Selection, id: string)
    requires Distinct(s.active) && (forall k | k in s.active :: k in t.byId)
    requires CanRefund(t, s, id).Ok?
    ensures id in t.byId && CostOf(t, id) == t.byId[id].cost
    ensures Distinct(Remove(s.active, id)) && (forall k | k in Remove(s.active, id) :: k in t.byId)
    ensures RefundStep(t, s, id) == (Ok, AfterRefund(t, s, id))
  {
  }

  lemma RefundKeepsSpent(t: Table, s: Selection, id: string)
    requires SpentMatches(t, s) && Distinct(s.active)
    ensures SpentMatches(t, RefundStep(t, s, id).1)
    ensures Distinct(RefundStep(t, s, id).1.active)
  {
    if RefundStep(t, s, id).0.Ok? {
      SumCostRemove(t, s.active, id);
    }
  }

  /** A refund that follows a successful buy of the same id, if it succeeds,
      restores the state exactly. */
  lemma RefundUndoesBuy(t: Table, s: Selection, id: string)
    requires s.stats == StatsOf(t, s.active)
    requires BuyStep(t, s, id).0.Ok?
    requires RefundStep(t, BuyStep(t, s, id).1, id).0.Ok?
    ensures RefundStep(t, BuyStep(t, s, id).1, id).1 == s
  {
    RemoveAppended(s.active, id);
  }

  /** After a successful buy, the refund of the same id is blocked only by an
      active node that lists it, and by nothing else. */
  lemma RefundAfterBuy(t: Table, s: Selection, id: string)
    requires WellFormed(t)
    requires BuyStep(t, s, id).0.Ok?
    requires forall k | k in s.active && k in t.byId :: id !in Deps(t.byId[k])
    requires id !in Deps(t.byId[id])
    ensures RefundStep(t, BuyStep(t, s, id).1, id).0.Ok?
  {
    RefundBlockedIff(t, BuyStep(t, s, id).1, id);
  }

  // ---------------------------------------------------------------------
  // Any sequence of buys and refunds

  datatype Op = BuyOp(id: string) | RefundOp(id: string)

  function Apply(t: Table, s: Selection, op: Op): Selection {
    match op
    case BuyOp(id) => BuyStep(t, s, id).1
    case RefundOp(id) => RefundStep(t, s, id).1
  }

  function Run(t: Table, s: Selection, ops: seq<Op>): Selection
    decreases |ops|
  {
    if ops == [] then s else Run(t, Apply(t, s, ops[0]), ops[1..])
  }

  /** From a state where spent equals the cost of the active nodes (the
      state `init` and `reset` leave), every sequence of buys and refunds
      keeps it so. */
  lemma {:induction false} RunKeepsSpent(t: Table, s: Selection, ops: seq<Op>)
    requires SpentMatches(t, s) && Distinct(s.active)
    ensures SpentMatches(t, Run(t, s, ops)) && Distinct(Run(t, s, ops).active)
    decreases |ops|
  {
    if ops != [] {
      match ops[0] {
        case BuyOp(id) => BuyKeepsSpent(t, s, id);
        case RefundOp(id) => RefundKeepsSpent(t, s, id);
      }
      RunKeepsSpent(t, Apply(t, s, ops[0]), ops[1..]);
    }
  }

  // ---------------------------------------------------------------------
  // Stat totals (recomputeStats)

  /** One effect applied to the running totals: a stat starts at 0; "add"
      adds; "mul" multiplies and, when the product is 0, takes the value
      itself (`(agg||0) * value || value`); any other op changes nothing. */
  function ApplyEffect(agg: map<string, int>, e: Effect): map<string, int> {
    var cur := if e.stat in agg then agg[e.stat] else 0;
    if e.op == "add" then agg[e.stat := cur + e.value]
    else if e.op == "mul" then agg[e.stat := if cur * e.value != 0 then cur * e.value else e.value]
    else agg[e.stat := cur]
  }

  function ApplyEffects(agg: map<string, int>, effs: seq<Effect>): map<string, int> {
    if effs == [] then agg else ApplyEffect(ApplyEffects(agg, effs[..|effs| - 1]), effs[|effs| - 1])
  }

  function EffectsOf(t: Table, id: string): seq<Effect> {
    if id in t.byId then t.byId[id].effects else []
  }

  /** The totals of the listed nodes' effects, in list order. */
  function StatsOf(t: Table, ids: seq<string>): map<string, int> {
    if ids == [] then map[] else ApplyEffects(StatsOf(t, ids[..|ids| - 1]), EffectsOf(t, ids[|ids| - 1]))
  }

  /** Whether a stat is named by some effect of the listed nodes. */
  predicate Named(t: Table, ids: seq<string>, stat: string) {
    exists id, e | id in ids && e in EffectsOf(t, id) :: e.stat == stat
  }

  lemma {:induction false} ApplyEffectsKeys(agg: map<string, int>, effs: seq<Effect>, stat: string)
    ensures stat in ApplyEffects(agg, effs) <==> stat in agg || exists e | e in effs :: e.stat == stat
  {
    if effs != [] {
      var init := effs[..|effs| - 1];
      assert effs == init + [effs[|effs| - 1]];
      ApplyEffectsKeys(agg, init, stat);
    }
  }

  /** A stat has a total exactly when some active node's effect names it. */
  lemma {:induction false} StatsOfKeys(t: Table, ids: seq<string>, stat: string)
    ensures stat in StatsOf(t, ids) <==> Named(t, ids, stat)
  {
    if ids != [] {
      var init := ids[..|ids| - 1];
      var last := ids[|ids| - 1];
      assert ids == init + [last];
      StatsOfKeys(t, init, stat);
      ApplyEffectsKeys(StatsOf(t, init), EffectsOf(t, last), stat);
      if Named(t, ids, stat) && !Named(t, init, stat) {
        var id, e :| id in ids && e in EffectsOf(t, id) && e.stat == stat;
        assert id == last;
      }
    }
  }

  /** The sum of the values of the effects on `stat`. */
  function AddedValue(effs: seq<Effect>, stat: string): int {
    if effs == [] then 0
    else AddedValue(effs[..|effs| - 1], stat) + (if effs[|effs| - 1].stat == stat then effs[|effs| - 1].value else 0)
  }

  function AddedTotal(t: Table, ids: seq<string>, stat: string): int {
    if ids == [] then 0 else AddedTotal(t, ids[..|ids| - 1], stat) + AddedValue(EffectsOf(t, ids[|ids| - 1]), stat)
  }

  predicate OnlyAdds(effs: seq<Effect>, stat: string) {
    forall e | e in effs && e.stat == stat :: e.op == "add"
  }

  lemma {:induction false} ApplyEffectsAdds(agg: map<string, int>, effs: seq<Effect>, stat: string)
    requires OnlyAdds(effs, stat)
    ensures (if stat in ApplyEffects(agg, effs) then ApplyEffects(agg, effs)[stat] else 0)
         == (if stat in agg then agg[stat] else 0) + AddedValue(effs, stat)
  {
    if effs != [] {
      var init := effs[..|effs| - 1];
      assert effs == init + [effs[|effs| - 1]];
      ApplyEffectsAdds(agg, init, stat);
    }
  }

  /** A stat that only "add" effects touch totals the sum of their values
      (0 when none names it), whatever the order of the nodes. */
  lemma {:induction false} StatsOfAdds(t: Table, ids: seq<string>, stat: string)
    requires forall id | id in ids :: OnlyAdds(EffectsOf(t, id), stat)
    ensures (if stat in StatsOf(t, ids) then StatsOf(t, ids)[stat] else 0) == AddedTotal(t, ids, stat)
  {
    if ids != [] {
      var init := ids[..|ids| - 1];
      assert forall id | id in init :: id in ids;
      StatsOfAdds(t, init, stat);
      ApplyEffectsAdds(StatsOf(t, init), EffectsOf(t, ids[|ids| - 1]), stat);
    }
  }

  // ---------------------------------------------------------------------
  // Importing a build

  /** What every state the engine reaches by its own operations satisfies
      (`Engine.Valid` and `SpentMatches`), stated on a snapshot. */
  ghost predicate Sound(t: Table, s: Selection) {
    && Distinct(s.active)
    && (forall k | k in s.active :: k in t.byId)
    && s.stats == StatsOf(t, s.active)
    && SpentMatches(t, s)
  }

  /** The outcome of one pass of `importBuild`'s loop: the new state, the ids
      still wanted, and whether anything was bought. */
  datatype Pass = Pass(sel: Selection, want: set<string>, progressed: bool)

  /** One step of a pass: a still-wanted id is offered to `buy`, and leaves
      `want` when the buy goes through. */
  function Offer(t: Table, p: Pass, k: string): Pass {
    if k !in p.want then p
    else
      var b := BuyStep(t, p.sel, k);
      if b.0.Ok? then Pass(b.1, p.want - {k}, true) else p
  }

  /** One pass over `ids`, in order. */
  function PassStep(t: Table, s: Selection, want: set<string>, ids: seq<string>): Pass {
    if ids == [] then Pass(s, want, false)
    else Offer(t, PassStep(t, s, want, ids[..|ids| - 1]), ids[|ids| - 1])
  }

  /** A pass only takes ids out of `want`; it takes one out exactly when it
      buys something, and a pass that buys nothing changes nothing. */
  lemma {:induction false} PassShrinks(t: Table, s: Selection, want: set<string>, ids: seq<string>)
    ensures var p := PassStep(t, s, want, ids);
      && p.want <= want
      && (p.progressed ==> p.want < want)
      && (!p.progressed ==> p.want == want && p.sel == s)
  {
    if ids != [] {
      PassShrinks(t, s, want, ids[..|ids| - 1]);
    }
  }

  /** A pass that buys nothing found every wanted id of `ids` unbuyable. */
  lemma {:induction false} PassIdle(t: Table, s: Selection, want: set<string>, ids: seq<string>)
    ensures !PassStep(t, s, want, ids).progressed ==> forall k | k in ids && k in want :: CanBuy(t, s, k).Fail?
  {
    if ids != [] {
      var init, k := ids[..|ids| - 1], ids[|ids| - 1];
      assert ids == init + [k];
      PassIdle(t, s, want, init);
      PassShrinks(t, s, want, init);
    }
  }

  /** A pass keeps the state sound and the cap and stack levels as they
      were. */
  lemma {:induction false} PassSound(t: Table, s: Selection, want: set<string>, ids: seq<string>)
    requires Sound(t, s)
    ensures var p := PassStep(t, s, want, ids);
      Sound(t, p.sel) && p.sel.pointsMax == s.pointsMax && p.sel.stacks == s.stacks
  {
    if ids != [] {
      var init, k := ids[..|ids| - 1], ids[|ids| - 1];
      PassSound(t, s, want, init);
      var p := PassStep(t, s, want, init);
      if k in p.want && CanBuy(t, p.sel, k).Ok? {
        BuyShape(t, p.sel, k);
        BuyKeepsSpent(t, p.sel, k);
      }
    }
  }

  /** A pass only appends to `active`, and what it appends is exactly what it
      took out of `want`. */
  lemma {:induction false} PassAppends(t: Table, s: Selection, want: set<string>, ids: seq<string>)
    ensures var p := PassStep(t, s, want, ids);
      && s.active <= p.sel.active
      && (forall k | k in want - p.want :: k in p.sel.active)
      && (forall k | k in p.sel.active :: k in s.active || k in want - p.want)
  {
    if ids != [] {
      var init, k := ids[..|ids| - 1], ids[|ids| - 1];
      PassAppends(t, s, want, init);
      PassShrinks(t, s, want, init);
    }
  }

  /** `importBuild`'s loop from a state and a set of wanted ids: passes over
      the table order until nothing is wanted or a pass buys nothing. */
  function ImportFrom(t: Table, s: Selection, want: set<string>): Selection
    decreases |want|
  {
    if want == {} then s
    else
      var p := PassStep(t, s, want, t.order);
      PassShrinks(t, s, want, t.order);
      if !p.progressed then p.sel
      else
        SmallerSet(p.want, want);
        ImportFrom(t, p.sel, p.want)
  }

  /** `importBuild(obj)` on state `s`: reset, then the cap
      `obj.pointsMax ?? pointsMax` clamped at 0, then the loop over the set
      of requested ids. */
  function ImportResult(t: Table, s: Selection, payloadMax: Option<int>, payload: seq<string>): Selection {
    var cap := Clamp(if payloadMax.Some? then payloadMax.value else s.pointsMax);
    ImportFrom(t, Selection(cap, 0, [], map[], s.stacks), set k | k in payload)
  }

  /** The loop keeps the state sound and the cap and stack levels as they
      were; it only appends wanted ids to `active`; when it stops, every
      wanted id is active or cannot be bought. */
  lemma {:induction false} ImportFromSpec(t: Table, s: Selection, want: set<string>)
    requires WellFormed(t) && Sound(t, s)
    decreases |want|
    ensures var r := ImportFrom(t, s, want);
      && Sound(t, r)
      && r.pointsMax == s.pointsMax && r.stacks == s.stacks
      && s.active <= r.active
      && (forall k | k in r.active :: k in s.active || k in want)
      && (forall k | k in want :: k in r.active || CanBuy(t, r, k).Fail?)
  {
    if want != {} {
      var p := PassStep(t, s, want, t.order);
      PassShrinks(t, s, want, t.order);
      PassSound(t, s, want, t.order);
      PassAppends(t, s, want, t.order);
      PassIdle(t, s, want, t.order);
      if !p.progressed {
        forall k | k in want
          ensures CanBuy(t, s, k).Fail?
        {
          if k !in t.order {
            assert k !in t.byId;
          }
        }
      } else {
        SmallerSet(p.want, want);
        ImportFromSpec(t, p.sel, p.want);
        var r := ImportFrom(t, p.sel, p.want);
        forall k | k in want && k !in p.want
          ensures k in r.active
        {
          PrefixHas(p.sel.active, r.active, k);
        }
      }
    }
  }

  lemma PrefixHas(a: seq<string>, b: seq<string>, k: string)
    requires a <= b && k in a
    ensures k in b
  {
    var i :| 0 <= i < |a| && a[i] == k;
    assert b[i] == k;
  }

  /** What `importBuild` leaves: a sound state with the payload's cap (or the
      old one) clamped at 0 and the stack levels untouched, in which only
      requested ids are active and every requested id is active or cannot be
      bought. */
  lemma ImportResultSpec(t: Table, s: Selection, payloadMax: Option<int>, payload: seq<string>)
    requires WellFormed(t)
    ensures var r := ImportResult(t, s, payloadMax, payload);
      && Sound(t, r)
      && r.pointsMax == Clamp(if payloadMax.Some? then payloadMax.value else s.pointsMax)
      && r.stacks == s.stacks
      && (forall k | k in r.active :: k in payload)
      && (forall k | k in payload :: k in r.active || CanBuy(t, r, k).Fail?)
  {
    var cap := Clamp(if payloadMax.Some? then payloadMax.value else s.pointsMax);
    ImportFromSpec(t, Selection(cap, 0, [], map[], s.stacks), set k | k in payload);
  }

  /** The selection reached from nothing active under cap `cap` by buying
      the ids of `ord` one after another (a failed buy changes nothing). */
  function Bought(t: Table, cap: int, ord: seq<string>): Selection {
    if ord == [] then Selection(cap, 0, [], map[], map[])
    else BuyStep(t, Bought(t, cap, ord[..|ord| - 1]), ord[|ord| - 1]).1
  }

  /** Every buy along `ord` goes through: `ord` is an order in which a player
      could have bought those nodes under the cap. */
  predicate Purchases(t: Table, cap: int, ord: seq<string>) {
    ord == []
    || (Purchases(t, cap, ord[..|ord| - 1]) && CanBuy(t, Bought(t, cap, ord[..|ord| - 1]), ord[|ord| - 1]).Ok?)
  }

  /** Along a purchase order the active list is the order itself, free of
      repeats and of unknown ids, and the spent points are its summed cost,
      within the cap. */
  lemma {:induction false} BoughtFacts(t: Table, cap: int, ord: seq<string>)
    requires Purchases(t, cap, ord)
    ensures var b := Bought(t, cap, ord);
      && b.active == ord && Distinct(ord) && (forall k | k in ord :: k in t.byId)
      && b.pointsSpent == SumCost(t, ord) && b.pointsMax == cap
      && (ord != [] ==> SumCost(t, ord) <= cap)
  {
    if ord != [] {
      var init, k := ord[..|ord| - 1], ord[|ord| - 1];
      assert ord == init + [k];
      BoughtFacts(t, cap, init);
      BuyShape(t, Bought(t, cap, init), k);
    }
  }

  /** Every prefix of a purchase order is one, and its next id is buyable
      after it. */
  lemma {:induction false} PurchasesPrefix(t: Table, cap: int, ord: seq<string>, i: nat)
    requires Purchases(t, cap, ord) && i < |ord|
    ensures Purchases(t, cap, ord[..i]) && CanBuy(t, Bought(t, cap, ord[..i]), ord[i]).Ok?
    decreases |ord|
  {
    if i + 1 < |ord| {
      var init := ord[..|ord| - 1];
      assert init[..i] == ord[..i] && init[i] == ord[i];
      PurchasesPrefix(t, cap, init, i);
    } else {
      assert ord[..|ord| - 1] == ord[..i];
    }
  }

  /** A selection holding only ids of a purchase order `ord`, with a cap at
      least `ord`'s and every id of `ord` active or unbuyable in it, holds
      every id of `ord`: along `ord`, each next id is buyable there because
      all the ids bought before it are active there too. */
  lemma {:induction false} FixpointCovers(t: Table, cap: int, ord: seq<string>, f: Selection, i: nat)
    requires Purchases(t, cap, ord) && i <= |ord|
    requires Distinct(f.active) && SpentMatches(t, f) && cap <= f.pointsMax
    requires forall k | k in f.active :: k in ord
    requires forall k | k in ord :: k in f.active || CanBuy(t, f, k).Fail?
    ensures forall k | k in ord[..i] :: k in f.active
  {
    if i > 0 {
      FixpointCovers(t, cap, ord, f, i - 1);
      var k := ord[i - 1];
      assert ord[..i] == ord[..i - 1] + [k];
      if k !in f.active {
        PurchasesPrefix(t, cap, ord, i - 1);
        BoughtFacts(t, cap, ord[..i - 1]);
        RoomFor(t, cap, ord, f, k);
        CanBuyFromLarger(t, Bought(t, cap, ord[..i - 1]), f, k);
      }
    }
  }

  /** A selection of ids of a purchase order `ord`, under a cap at least
      `ord`'s, has room for any further id of `ord`: the two together cost
      no more than all of `ord`. */
  lemma RoomFor(t: Table, cap: int, ord: seq<string>, f: Selection, k: string)
    requires Purchases(t, cap, ord) && k in ord && k !in f.active
    requires Distinct(f.active) && SpentMatches(t, f) && cap <= f.pointsMax
    requires forall x | x in f.active :: x in ord
    ensures f.pointsSpent + CostOf(t, k) <= f.pointsMax
  {
    BoughtFacts(t, cap, ord);
    DistinctAppend(f.active, k);
    SumCostSubset(t, f.active + [k], ord);
    SumCostAppend(t, f.active, k);
  }

  /** Two duplicate-free lists of the same ids cost the same. */
  lemma SumCostSameIds(t: Table, a: seq<string>, b: seq<string>)
    requires Distinct(a) && Distinct(b) && forall k :: k in a <==> k in b
    ensures SumCost(t, a) == SumCost(t, b)
  {
    SumCostSubset(t, a, b);
    SumCostSubset(t, b, a);
  }

  /** The import loop from nothing active, under a cap at least that of a
      purchase order `ord`, with `ord`'s ids wanted, ends with exactly those
      ids active. */
  lemma ImportFromCovers(t: Table, s0: Selection, cap: int, ord: seq<string>)
    requires WellFormed(t) && Purchases(t, cap, ord)
    requires s0.active == [] && s0.pointsSpent == 0 && s0.stats == map[] && cap <= s0.pointsMax
    ensures var r := ImportFrom(t, s0, set k | k in ord);
      Distinct(r.active) && SpentMatches(t, r) && forall k :: k in r.active <==> k in ord
  {
    var want := set k | k in ord;
    ImportFromSpec(t, s0, want);
    var r := ImportFrom(t, s0, want);
    FixpointCovers(t, cap, ord, r, |ord|);
    assert ord[..|ord|] == ord;
  }

  /** `exportBuild` then `importBuild`: when the exported ids form a purchase
      order under the exported cap, importing cap and ids into any state
      makes exactly those ids active again, at the same spent points, however
      the table orders them. */
  lemma ImportRoundTrip(t: Table, s: Selection, cap: int, ord: seq<string>)
    requires WellFormed(t) && Purchases(t, cap, ord)
    ensures var r := ImportResult(t, s, Some(cap), ord);
      && (forall k :: k in r.active <==> k in ord)
      && r.pointsSpent == SumCost(t, ord)
      && r.pointsMax == Clamp(cap)
  {
    var s0 := Selection(Clamp(cap), 0, [], map[], s.stacks);
    ImportFromCovers(t, s0, cap, ord);
    ImportFromSpec(t, s0, set k | k in ord);
    BoughtFacts(t, cap, ord);
    SumCostSameIds(t, ImportFrom(t, s0, set k | k in ord).active, ord);
  }

  // ---------------------------------------------------------------------
  // The mutable engine

  function Clamp(v: int): (n: nat)
    ensures n >= v && (n == v || n == 0)
  {
    if v < 0 then 0 else v
  }

  lemma SmallerSet(a: set<string>, b: set<string>)
    requires a < b
    ensures |a| < |b|
  {
    assert b == a + (b - a);
    assert b - a != {};
  }

  class Engine {
    var pointsMax: int
    var pointsSpent: int
    var active: seq<string>
    var table: Table
    var stats: map<string, int>
    var stacks: map<string, int>

    /** The object invariant every operation keeps. The equation between
        spent points and active costs is not part of it: the host's stack
        levels add points without changing `active` (see SpentMatches and
        Host.Consistent). */
    ghost predicate Valid()
      reads this
    {
      && WellFormed(table)
      && Distinct(active)
      && (forall k | k in active :: k in table.byId)
      && stats == StatsOf(table, active)
    }

    function Sel(): Selection
      reads this
    {
      Selection(pointsMax, pointsSpent, active, stats, stacks)
    }

    /** `init`: load the cap (`ruleset.maxPoints ?? 0`) and the node table;
        nothing is active. */
    constructor (nodes: seq<Node>, maxPoints: Option<int>)
      ensures Valid()
      ensures table == TableOf(nodes)
      ensures pointsMax == (if maxPoints.Some? then maxPoints.value else 0)
      ensures pointsSpent == 0 && active == [] && stats == map[] && stacks == map[]
      ensures SpentMatches(table, Sel())
    {
      table := TableOf(nodes);
      pointsMax := if maxPoints.Some? then maxPoints.value else 0;
      pointsSpent := 0;
      active := [];
      stats := map[];
      stacks := map[];
      new;
      RecomputeStats();
    }

    /** `setPointsMax`: the cap becomes max(0, v); the selection is kept even
        when it now exceeds the cap. */
    method SetPointsMax(v: int)
      modifies this`pointsMax
      ensures pointsMax == Clamp(v)
      ensures old(Valid()) ==> Valid()
    {
      pointsMax := Clamp(v);
    }

    /** `reset`: nothing active, nothing spent, no totals; the cap and the
        stack levels are left as they are. */
    method Reset()
      requires Valid()
      modifies this`pointsSpent, this`active, this`stats
      ensures Valid() && SpentMatches(table, Sel())
      ensures pointsSpent == 0 && active == [] && stats == map[]
    {
      pointsSpent := 0;
      active := [];
      stats := map[];
    }

    /** `recomputeStats`: totals rebuilt from scratch over the active nodes. */
    method RecomputeStats()
      modifies this`stats
      ensures stats == StatsOf(table, active)
      ensures WellFormed(table) && Distinct(active) && (forall k | k in active :: k in table.byId) ==> Valid()
    {
      var agg: map<string, int> := map[];
      var i := 0;
      while i < |active|
        invariant 0 <= i <= |active|
        invariant agg == StatsOf(table, active[..i])
      {
        var effs := EffectsOf(table, active[i]);
        ghost var before := agg;
        var j := 0;
        while j < |effs|
          invariant 0 <= j <= |effs|
          invariant agg == ApplyEffects(before, effs[..j])
        {
          assert effs[..j + 1][..j] == effs[..j];
          agg := ApplyEffect(agg, effs[j]);
          j := j + 1;
        }
        assert effs[..j] == effs;
        assert active[..i + 1][..i] == active[..i];
        i := i + 1;
      }
      assert active[..i] == active;
      stats := agg;
    }

    /** `nenPointsFundamentais`: PN of the current selection. */
    method NenPoints() returns (pn: nat)
      ensures pn == PrinciplePoints(table, active)
    {
      pn := 0;
      var i := 0;
      while i < |active|
        invariant 0 <= i <= |active|
        invariant pn == PrinciplePoints(table, active[..i])
      {
        var id := active[i];
        assert active[..i + 1][..i] == active[..i];
        if id in table.byId && IsPrinciple(table.byId[id]) {
          pn := pn + table.byId[id].cost;
        }
        i := i + 1;
      }
      assert active[..i] == active;
    }

    /** `buy`: on success the id joins `active` and its cost is added;
        on failure nothing changes. */
    method Buy(id: string) returns (r: Check)
      requires Valid()
      modifies this`active, this`pointsSpent, this`stats
      ensures Valid()
      ensures (r, Sel()) == BuyStep(table, old(Sel()), id)
      ensures r.Ok? ==> pointsSpent <= pointsMax
    {
      var s0 := Sel();
      r := CanBuy(table, s0, id);
      if r.Fail? {
        return;
      }
      BuyShape(table, s0, id);
      ApplyBuy(id);
    }

    /** The state change of a buy that goes through. */
    method ApplyBuy(id: string)
      requires WellFormed(table) && Distinct(active + [id]) && (forall k | k in active + [id] :: k in table.byId)
      requires id in table.byId
      modifies this`active, this`pointsSpent, this`stats
      ensures Valid()
      ensures Sel() == AfterBuy(table, old(Sel()), id)
    {
      active := active + [id];
      pointsSpent := pointsSpent + table.byId[id].cost;
      RecomputeStats();
    }

    /** `refund`: on success the id leaves `active` and its cost is taken
        back; on failure nothing changes. */
    method Refund(id: string) returns (r: Check)
      requires Valid()
      modifies this`active, this`pointsSpent, this`stats
      ensures Valid()
      ensures (r, Sel()) == RefundStep(table, old(Sel()), id)
    {
      var s0 := Sel();
      r := CanRefund(table, s0, id);
      if r.Fail? {
        return;
      }
      RefundShape(table, s0, id);
      ApplyRefund(id);
    }

    /** The state change of a refund that goes through. */
    method ApplyRefund(id: string)
      requires WellFormed(table) && Distinct(Remove(active, id)) && (forall k | k in Remove(active, id) :: k in table.byId)
      requires id in table.byId
      modifies this`active, this`pointsSpent, this`stats
      ensures Valid()
      ensures Sel() == AfterRefund(table, old(Sel()), id)
    {
      active := Remove(active, id);
      pointsSpent := pointsSpent - table.byId[id].cost;
      RecomputeStats();
    }

    /** `exportBuild`. */
    function ExportBuild(): (b: Build)
      reads this
      requires Valid()
      ensures Distinct(b.active) && forall k | k in b.active :: k in table.byId
      ensures SpentMatches(table, Sel()) ==> b.pointsSpent == SumCost(table, b.active)
    {
      Build(pointsMax, pointsSpent, active, stats)
    }

    /** `importBuild`: reset, set the cap, then pass over the table again and
        again buying every still-wanted id, until a pass buys nothing. */
    method ImportBuild(payloadMax: Option<int>, payloadActive: seq<string>)
      requires Valid()
      modifies this`pointsMax, this`pointsSpent, this`active, this`stats
      ensures Valid() && SpentMatches(table, Sel())
      ensures Sel() == ImportResult(table, old(Sel()), payloadMax, payloadActive)
      ensures pointsMax == Clamp(if payloadMax.Some? then payloadMax.value else old(pointsMax))
      ensures forall k | k in active :: k in payloadActive
      ensures forall k | k in payloadActive :: k in active || CanBuy(table, Sel(), k).Fail?
    {
      Reset();
      SetPointsMax(if payloadMax.Some? then payloadMax.value else pointsMax);
      var want := set k | k in payloadActive;
      ghost var target := ImportResult(table, old(Sel()), payloadMax, payloadActive);
      assert ImportFrom(table, Sel(), want) == target;
      var progressed := true;
      while progressed && want != {}
        invariant Valid() && SpentMatches(table, Sel())
        invariant progressed ==> ImportFrom(table, Sel(), want) == target
        invariant !progressed ==> Sel() == target
        decreases |want| + (if progressed then 1 else 0)
      {
        ghost var before, want0 := Sel(), want;
        want, progressed := BuyPass(want);
        PassShrinks(table, before, want0, table.order);
        if progressed {
          SmallerSet(want, want0);
        }
      }
      ImportResultSpec(table, old(Sel()), payloadMax, payloadActive);
    }

    /** One pass of `importBuild`'s loop: offer every wanted id to `buy`, in
        table order; an id bought leaves `want`. */
    method BuyPass(want: set<string>) returns (left: set<string>, progressed: bool)
      requires Valid() && SpentMatches(table, Sel())
      modifies this`active, this`pointsSpent, this`stats
      ensures Valid() && SpentMatches(table, Sel())
      ensures Pass(Sel(), left, progressed) == PassStep(table, old(Sel()), want, table.order)
    {
      left, progressed := want, false;
      var ids := table.order;
      var j := 0;
      while j < |ids|
        invariant 0 <= j <= |ids|
        invariant Valid() && SpentMatches(table, Sel())
        invariant Pass(Sel(), left, progressed) == PassStep(table, old(Sel()), want, ids[..j])
      {
        var k := ids[j];
        ghost var p := Pass(Sel(), left, progressed);
        if k in left {
          var r := Buy(k);
          BuyKeepsSpent(table, p.sel, k);
          if r.Ok? {
            left := left - {k};
            progressed := true;
          }
        }
        assert Pass(Sel(), left, progressed) == Offer(table, p, k);
        assert ids[..j + 1][..j] == ids[..j];
        j := j + 1;
      }
      assert ids[..j] == ids;
    }
  }
}
