/** The host of js/app.js around the rule engine: it moves every node's
    stage requirement out of the engine's reach and checks it itself against
    a stage computed from ALL spent points, and it adds stack levels to
    stackable nodes, each extra level costing one point more than the last.

    As in the engine, step functions over a `Selection` are the
    specification, and methods on an `Engine` object are proved to follow
    them. */
module Host {
  import opened Types
  import opened RuleEngine
  import opened HostText

  // ---------------------------------------------------------------------
  // Loading: the stage requirement is moved to `_reqStage`

  /** A node whose `reqStage` is set gets it moved to `_reqStage`. */
  function MoveStage(n: Node): (m: Node)
    ensures m.reqStage == ""
    ensures n.reqStage != "" ==> m.hostReqStage == n.reqStage
    ensures n.reqStage == "" ==> m == n
    ensures m.(hostReqStage := n.hostReqStage, reqStage := n.reqStage) == n
  {
    if n.reqStage != "" then n.(hostReqStage := n.reqStage, reqStage := "") else n
  }

  /** The dataset after the loading loop, node by node. */
  function StripStages(nodes: seq<Node>): (r: seq<Node>)
    ensures |r| == |nodes|
    ensures forall i | 0 <= i < |r| :: r[i] == MoveStage(nodes[i])
    ensures forall m | m in r :: m.reqStage == ""
  {
    if nodes == [] then [] else [MoveStage(nodes[0])] + StripStages(nodes[1..])
  }

  /** With the stages moved out, the engine's own check never rejects a buy
      for the stage: that gate is entirely the host's. */
  lemma StrippedEngineNeverGatesStage(nodes: seq<Node>, s: Selection, id: string)
    ensures var r := CanBuy(TableOf(StripStages(nodes)), s, id);
            !(r.Fail? && r.reason.StageTooLow?)
  {
    var t := TableOf(StripStages(nodes));
    if id in t.byId {
      assert t.byId[id] in StripStages(nodes);
    }
  }

  // ---------------------------------------------------------------------
  // The host's stage: the overriding nenStage

  /** `stageFromPN`: the same three tiers as the engine's, split at 10 and 31. */
  function StageFromPN(pn: int): (name: string)
    ensures name == NenStage(pn)
  {
    if pn >= 31 then "Mestre"
    else if pn >= 10 then "Perito"
    else "Iniciante"
  }

  /** The overriding `Engine.nenStage`: PN is every spent point, not only
      the cost of the active principle nodes. */
  function HostStage(s: Selection): string {
    StageFromPN(s.pointsSpent)
  }

  /** The host's `stageOrder`: zero-based; unknown names rank 0 like
      Iniciante. */
  function HostStageRank(name: string): nat {
    if name == "Perito" then 1
    else if name == "Mestre" then 2
    else 0
  }

  /** The two rankings order the three stage names the same way, one apart;
      they part only on unknown names, which the engine ranks below
      Iniciante and the host ranks equal to it. */
  lemma StageRanksAgree(name: string)
    ensures name in {"Iniciante", "Perito", "Mestre"} ==> StageRank(name) == HostStageRank(name) + 1
    ensures name !in {"Iniciante", "Perito", "Mestre"} ==> StageRank(name) == 0 && HostStageRank(name) == HostStageRank("Iniciante")
  {
  }

  /** The host's PN counts every spent point, so under the host's invariant
      its stage is never below the one the engine would compute. */
  lemma HostStageAtLeastEngineStage(t: Table, s: Selection)
    requires Consistent(t, s)
    ensures HostStageRank(NenStage(PrinciplePoints(t, s.active))) <= HostStageRank(HostStage(s))
  {
    PrinciplePointsAtMostCost(t, s.active);
    SumCostAtMostSpentSum(t, s.active, s.stacks);
  }

  function Lookup(t: Table, id: string): Option<Node> {
    if id in t.byId then Some(t.byId[id]) else None
  }

  /** `hasRequiredStage`: no node or no `_reqStage` passes; otherwise the
      host's stage must rank at least as high as the one asked. */
  predicate HasRequiredStage(node: Option<Node>, s: Selection) {
    || node.None?
    || node.value.hostReqStage == ""
    || HostStageRank(HostStage(s)) >= HostStageRank(node.value.hostReqStage)
  }

  // ---------------------------------------------------------------------
  // The wrapped canBuy and buy

  /** The wrapped `Engine.canBuy`: the engine's verdict when it fails,
      otherwise the host's stage gate. */
  function HostCanBuy(t: Table, s: Selection, id: string): (r: Check)
    ensures CanBuy(t, s, id).Fail? ==> r == CanBuy(t, s, id)
    ensures CanBuy(t, s, id).Ok? ==> (r.Ok? <==> HasRequiredStage(Lookup(t, id), s))
    ensures CanBuy(t, s, id).Ok? && r.Fail? ==> r == Fail(StageTooLow(t.byId[id].hostReqStage))
  {
    var base := CanBuy(t, s, id);
    if base.Fail? then base
    else if !HasRequiredStage(Lookup(t, id), s) then Fail(StageTooLow(t.byId[id].hostReqStage))
    else Ok
  }

  /** The wrapped `Engine.buy`: the gate first, then the engine's buy. */
  function HostBuyStep(t: Table, s: Selection, id: string): (Check, Selection) {
    var gate := HostCanBuy(t, s, id);
    if gate.Fail? then (gate, s) else BuyStep(t, s, id)
  }

  /** The wrapped buy changes the state exactly when the wrapped check
      passes, and then as the engine's buy does. */
  lemma HostBuyFollowsGate(t: Table, s: Selection, id: string)
    ensures HostBuyStep(t, s, id).0 == HostCanBuy(t, s, id)
    ensures HostCanBuy(t, s, id).Ok? ==> HostBuyStep(t, s, id).1 == AfterBuy(t, s, id)
    ensures HostCanBuy(t, s, id).Fail? ==> HostBuyStep(t, s, id).1 == s
  {
  }

  // ---------------------------------------------------------------------
  // Stack levels

  /** `getStacks`: an absent level is 0. */
  function GetStacks(s: Selection, id: string): int {
    if id in s.stacks then s.stacks[id] else 0
  }

  /** `setStacks` on the level map: a level of 0 or less removes the entry. */
  function WithLevel(stacks: map<string, int>, id: string, n: int): (m: map<string, int>)
    ensures n <= 0 ==> id !in m
    ensures n > 0 ==> id in m && m[id] == n
    ensures forall k | k != id :: (k in m <==> k in stacks) && (k in m ==> m[k] == stacks[k])
  {
    if n <= 0 then stacks - {id} else stacks[id := n]
  }

  /** No level of 0 or less is ever stored. */
  lemma WithLevelKeepsPositive(stacks: map<string, int>, id: string, n: int)
    requires forall k | k in stacks :: stacks[k] > 0
    ensures forall k | k in WithLevel(stacks, id, n) :: WithLevel(stacks, id, n)[k] > 0
  {
  }

  /** `nextStackCost`: the base cost plus the levels already bought. */
  function NextStackCost(n: Node, s: Selection): int {
    n.cost + GetStacks(s, n.id)
  }

  /** `meetsRequirements`: the AND and OR prerequisites and the host's stage. */
  predicate MeetsRequirements(n: Node, s: Selection) {
    HasAll(s.active, n.reqAll) && HasAny(s.active, n.reqAny) && HasRequiredStage(Some(n), s)
  }

  /** `canBuyStack`. */
  predicate CanBuyStack(n: Node, s: Selection) {
    MeetsRequirements(n, s) && s.pointsMax - s.pointsSpent >= NextStackCost(n, s)
  }

  /** An extra level checks the same prerequisites as a first purchase of a
      node whose engine stage is stripped, only against a larger price and
      without the "already active" check. */
  lemma MeetsRequirementsMatchesGate(t: Table, s: Selection, id: string)
    requires id in t.byId && id !in s.active
    requires t.byId[id].reqStage == ""
    requires s.pointsSpent + t.byId[id].cost <= s.pointsMax
    ensures HostCanBuy(t, s, id).Ok? <==> MeetsRequirements(t.byId[id], s)
  {
  }

  /** `Engine.buyStack`. Unknown and non-stackable ids take the wrapped buy;
      level 0 buys the node and sets level 1; a higher level charges the
      next level's price and adds one level. */
  function BuyStackStep(t: Table, s: Selection, id: string): (Check, Selection) {
    if id !in t.byId || !IsStackable(t.byId[id]) then HostBuyStep(t, s, id)
    else if GetStacks(s, id) == 0 then FirstLevelStep(t, s, id)
    else ExtraLevelStep(t, s, id)
  }

  /** The first level of a stackable node: the wrapped buy, then level 1. */
  function FirstLevelStep(t: Table, s: Selection, id: string): (Check, Selection) {
    var (r, s1) := HostBuyStep(t, s, id);
    if r.Ok? then (r, s1.(stacks := WithLevel(s1.stacks, id, 1))) else (r, s1)
  }

  /** A further level: only the points and the level change. */
  function ExtraLevelStep(t: Table, s: Selection, id: string): (Check, Selection)
    requires id in t.byId
  {
    var n := t.byId[id];
    if !CanBuyStack(n, s) then (Fail(StackRejected), s)
    else (Ok, s.(pointsSpent := s.pointsSpent + NextStackCost(n, s), stacks := WithLevel(s.stacks, id, GetStacks(s, id) + 1)))
  }

  /** `Engine.refundStack`. Unknown and non-stackable ids take the engine's
      refund; level 0 has nothing to remove; above level 1 the last level's
      price is given back (never going below 0 spent); level 1 refunds the
      node itself and clears the level. */
  function RefundStackStep(t: Table, s: Selection, id: string): (Check, Selection) {
    if id !in t.byId || !IsStackable(t.byId[id]) then RefundStep(t, s, id)
    else if GetStacks(s, id) <= 0 then (Fail(NothingToRemove), s)
    else if GetStacks(s, id) > 1 then LevelDownStep(t, s, id)
    else LastLevelStep(t, s, id)
  }

  /** Giving back a level above the first: the last level's price, never
      going below 0 spent. */
  function LevelDownStep(t: Table, s: Selection, id: string): (Check, Selection)
    requires id in t.byId
  {
    var cur := GetStacks(s, id);
    var back := t.byId[id].cost + (cur - 1);
    (Ok, s.(pointsSpent := Clamp(s.pointsSpent - back), stacks := WithLevel(s.stacks, id, cur - 1)))
  }

  /** Giving back level 1: the engine's refund, then the level is cleared. */
  function LastLevelStep(t: Table, s: Selection, id: string): (Check, Selection) {
    var (r, s1) := RefundStep(t, s, id);
    if r.Ok? then (r, s1.(stacks := WithLevel(s1.stacks, id, 0))) else (r, s1)
  }

  // ---------------------------------------------------------------------
  // What the stack levels cost

  /** The points `k` levels of a node with base cost `base` cost in total:
      base, base + 1, ..., base + k - 1. */
  function TotalLevelCost(base: int, k: nat): int {
    if k == 0 then 0 else TotalLevelCost(base, k - 1) + base + k - 1
  }

  lemma {:induction false} TotalLevelCostClosedForm(base: int, k: nat)
    ensures 2 * TotalLevelCost(base, k) == k * (2 * base + k - 1)
  {
    if k > 0 {
      TotalLevelCostClosedForm(base, k - 1);
      assert (k - 1) * (2 * base + k - 2) + 2 * (base + k - 1) == k * (2 * base + k - 1);
    }
  }

  /** With a non-negative base, one level or more costs at least the last
      level's price, and so at least the base. */
  lemma {:induction false} TotalLevelCostAtLeastLast(base: nat, k: nat)
    requires k >= 1
    ensures TotalLevelCost(base, k) >= base + k - 1
  {
    if k > 1 {
      TotalLevelCostAtLeastLast(base, k - 1);
    }
  }

  /** The level the points of an active node pay for: its stack level, or 1
      for a node without one. */
  function PaidLevels(stacks: map<string, int>, id: string): nat {
    if id in stacks && stacks[id] >= 1 then stacks[id] else 1
  }

  function PaidFor(t: Table, stacks: map<string, int>, id: string): int {
    TotalLevelCost(CostOf(t, id), PaidLevels(stacks, id))
  }

  /** The points a selection with stack levels has spent. */
  function SpentSum(t: Table, ids: seq<string>, stacks: map<string, int>): int {
    if ids == [] then 0
    else SpentSum(t, ids[..|ids| - 1], stacks) + PaidFor(t, stacks, ids[|ids| - 1])
  }

  /** The host's invariant: the engine's table and selection, stack levels
      only on active stackable nodes and at least 1, and spent points equal
      to the price of every active node at its level. */
  ghost predicate Consistent(t: Table, s: Selection) {
    && WellFormed(t)
    && Distinct(s.active)
    && (forall k | k in s.active :: k in t.byId)
    && (forall k | k in s.stacks :: k in s.active && s.stacks[k] >= 1 && IsStackable(t.byId[k]))
    && s.pointsSpent == SpentSum(t, s.active, s.stacks)
  }

  lemma SpentSumAppend(t: Table, ids: seq<string>, x: string, stacks: map<string, int>)
    ensures SpentSum(t, ids + [x], stacks) == SpentSum(t, ids, stacks) + PaidFor(t, stacks, x)
  {
    assert (ids + [x])[..|ids + [x]| - 1] == ids;
  }

  /** Only the levels of the listed ids matter. */
  lemma {:induction false} SpentSumAgree(t: Table, ids: seq<string>, st1: map<string, int>, st2: map<string, int>)
    requires forall k | k in ids :: PaidLevels(st1, k) == PaidLevels(st2, k)
    ensures SpentSum(t, ids, st1) == SpentSum(t, ids, st2)
  {
    if ids != [] {
      assert forall k | k in ids[..|ids| - 1] :: k in ids;
      SpentSumAgree(t, ids[..|ids| - 1], st1, st2);
    }
  }

  /** Changing one listed id's level changes the sum by the difference of
      that id's price. */
  lemma {:induction false} SpentSumChange(t: Table, ids: seq<string>, x: string, st1: map<string, int>, st2: map<string, int>)
    requires Distinct(ids) && x in ids
    requires forall k | k in ids && k != x :: PaidLevels(st1, k) == PaidLevels(st2, k)
    ensures SpentSum(t, ids, st2) == SpentSum(t, ids, st1) - PaidFor(t, st1, x) + PaidFor(t, st2, x)
  {
    var init := ids[..|ids| - 1];
    var last := ids[|ids| - 1];
    assert ids == init + [last];
    assert forall k | k in init :: k in ids;
    if last == x {
      assert x !in init;
      SpentSumAgree(t, init, st1, st2);
    } else {
      SpentSumChange(t, init, x, st1, st2);
    }
  }

  /** Deleting a listed id takes its whole price off the sum. */
  lemma {:induction false} SpentSumRemove(t: Table, ids: seq<string>, x: string, stacks: map<string, int>)
    requires Distinct(ids) && x in ids
    ensures SpentSum(t, Remove(ids, x), stacks) == SpentSum(t, ids, stacks) - PaidFor(t, stacks, x)
  {
    var init := ids[..|ids| - 1];
    var last := ids[|ids| - 1];
    assert ids == init + [last];
    if last == x {
      assert x !in init;
      RemoveAbsent(init, x);
    } else {
      assert x in init;
      SpentSumRemove(t, init, x, stacks);
      SpentSumAppend(t, Remove(init, x), last, stacks);
    }
  }

  /** Without any stack level the host's sum is the engine's. */
  lemma {:induction false} SpentSumWithoutLevels(t: Table, ids: seq<string>)
    ensures SpentSum(t, ids, map[]) == SumCost(t, ids)
  {
    if ids != [] {
      SpentSumWithoutLevels(t, ids[..|ids| - 1]);
      assert TotalLevelCost(CostOf(t, ids[|ids| - 1]), 1) == CostOf(t, ids[|ids| - 1]);
    }
  }

  /** Levels only add to what the active nodes cost. */
  lemma {:induction false} SumCostAtMostSpentSum(t: Table, ids: seq<string>, stacks: map<string, int>)
    ensures SumCost(t, ids) <= SpentSum(t, ids, stacks)
  {
    if ids != [] {
      SumCostAtMostSpentSum(t, ids[..|ids| - 1], stacks);
      TotalLevelCostAtLeastLast(CostOf(t, ids[|ids| - 1]), PaidLevels(stacks, ids[|ids| - 1]));
    }
  }

  /** The sum is at least the price of any one listed id. */
  lemma {:induction false} SpentSumAtLeastOne(t: Table, ids: seq<string>, x: string, stacks: map<string, int>)
    requires x in ids
    ensures SpentSum(t, ids, stacks) >= PaidFor(t, stacks, x)
  {
    var init := ids[..|ids| - 1];
    var last := ids[|ids| - 1];
    assert ids == init + [last];
    SumCostAtMostSpentSum(t, init, stacks);
    TotalLevelCostAtLeastLast(CostOf(t, last), PaidLevels(stacks, last));
    if last != x {
      SpentSumAtLeastOne(t, init, x, stacks);
    }
  }

  // ---------------------------------------------------------------------
  // Properties of buyStack and refundStack

  /** The host's invariant holds after a fresh load (no levels, nothing
      spent) and after the engine's own import (no levels). */
  lemma ConsistentWithoutLevels(t: Table, s: Selection)
    requires WellFormed(t) && Distinct(s.active) && (forall k | k in s.active :: k in t.byId)
    requires s.stacks == map[] && SpentMatches(t, s)
    ensures Consistent(t, s)
  {
    SpentSumWithoutLevels(t, s.active);
  }

  /** A successful wrapped buy of a node without a level keeps the invariant. */
  lemma HostBuyKeepsConsistent(t: Table, s: Selection, id: string)
    requires Consistent(t, s)
    ensures Consistent(t, HostBuyStep(t, s, id).1)
  {
    if HostBuyStep(t, s, id).0.Ok? {
      assert id !in s.stacks;
      assert TotalLevelCost(CostOf(t, id), 1) == CostOf(t, id);
      SpentSumAppend(t, s.active, id, s.stacks);
    }
  }

  lemma FirstLevelKeepsConsistent(t: Table, s: Selection, id: string)
    requires Consistent(t, s) && id in t.byId && IsStackable(t.byId[id])
    ensures Consistent(t, FirstLevelStep(t, s, id).1)
  {
    var (r, s1) := HostBuyStep(t, s, id);
    if r.Ok? {
      assert id !in s.stacks;
      var st' := WithLevel(s1.stacks, id, 1);
      SpentSumAgree(t, s.active, s.stacks, st');
      assert TotalLevelCost(CostOf(t, id), 1) == CostOf(t, id);
      SpentSumAppend(t, s.active, id, st');
    }
  }

  /** What a successful extra level does to the selection. */
  lemma ExtraLevelOk(t: Table, s: Selection, id: string)
    requires WellFormed(t) && id in t.byId && id in s.stacks && s.stacks[id] >= 1
    requires ExtraLevelStep(t, s, id).0.Ok?
    ensures ExtraLevelStep(t, s, id).1
         == s.(pointsSpent := s.pointsSpent + t.byId[id].cost + s.stacks[id],
               stacks := s.stacks[id := s.stacks[id] + 1])
  {
    assert t.byId[id].id == id;
  }

  /** One more level costs the base plus the levels already paid for. */
  lemma PaidForNext(t: Table, st: map<string, int>, id: string)
    requires id in st && st[id] >= 1
    ensures PaidFor(t, st[id := st[id] + 1], id) == PaidFor(t, st, id) + CostOf(t, id) + st[id]
  {
  }

  lemma ExtraLevelKeepsConsistent(t: Table, s: Selection, id: string)
    requires Consistent(t, s) && id in t.byId && id in s.stacks
    ensures Consistent(t, ExtraLevelStep(t, s, id).1)
  {
    if ExtraLevelStep(t, s, id).0.Ok? {
      ExtraLevelOk(t, s, id);
      var st' := s.stacks[id := s.stacks[id] + 1];
      RaisedLevelSpent(t, s, id, st');
      RaisedLevelConsistent(t, s, id, st', s.pointsSpent + t.byId[id].cost + s.stacks[id]);
    }
  }

  /** One more level adds the price of that level to the spent sum. */
  lemma RaisedLevelSpent(t: Table, s: Selection, id: string, st': map<string, int>)
    requires Distinct(s.active) && id in s.active && id in t.byId && s.pointsSpent == SpentSum(t, s.active, s.stacks)
    requires id in s.stacks && s.stacks[id] >= 1 && st' == s.stacks[id := s.stacks[id] + 1]
    ensures SpentSum(t, s.active, st') == s.pointsSpent + t.byId[id].cost + s.stacks[id]
  {
    SpentSumChange(t, s.active, id, s.stacks, st');
    PaidForNext(t, s.stacks, id);
    var before, after := PaidFor(t, s.stacks, id), PaidFor(t, st', id);
    assert after == before + CostOf(t, id) + s.stacks[id];
    assert SpentSum(t, s.active, st') == s.pointsSpent - before + after;
  }

  lemma RaisedLevelConsistent(t: Table, s: Selection, id: string, st': map<string, int>, spent: int)
    requires Consistent(t, s) && id in s.stacks && st' == s.stacks[id := s.stacks[id] + 1]
    requires spent == SpentSum(t, s.active, st')
    ensures Consistent(t, s.(pointsSpent := spent, stacks := st'))
  {
  }

  /** `buyStack` keeps the host's invariant. */
  lemma BuyStackKeepsConsistent(t: Table, s: Selection, id: string)
    requires Consistent(t, s)
    ensures Consistent(t, BuyStackStep(t, s, id).1)
  {
    if id !in t.byId || !IsStackable(t.byId[id]) {
      HostBuyKeepsConsistent(t, s, id);
    } else if GetStacks(s, id) == 0 {
      FirstLevelKeepsConsistent(t, s, id);
    } else {
      ExtraLevelKeepsConsistent(t, s, id);
    }
  }

  /** Giving back the node itself, when it has level 1 or no level. */
  lemma LastLevelKeepsConsistent(t: Table, s: Selection, id: string)
    requires Consistent(t, s) && PaidLevels(s.stacks, id) == 1
    ensures Consistent(t, LastLevelStep(t, s, id).1)
  {
    var (r, s1) := RefundStep(t, s, id);
    if r.Ok? {
      var st' := WithLevel(s.stacks, id, 0);
      SpentSumRemove(t, s.active, id, s.stacks);
      SpentSumAgree(t, s1.active, s.stacks, st');
      assert TotalLevelCost(CostOf(t, id), 1) == CostOf(t, id);
    }
  }

  lemma LevelDownKeepsConsistent(t: Table, s: Selection, id: string)
    requires Consistent(t, s) && id in t.byId && GetStacks(s, id) > 1
    ensures Consistent(t, LevelDownStep(t, s, id).1)
  {
    var cur := GetStacks(s, id);
    SpentSumAtLeastOne(t, s.active, id, s.stacks);
    TotalLevelCostAtLeastLast(t.byId[id].cost, cur);
    SpentSumChange(t, s.active, id, s.stacks, LevelDownStep(t, s, id).1.stacks);
  }

  /** `refundStack` keeps the host's invariant. */
  lemma RefundStackKeepsConsistent(t: Table, s: Selection, id: string)
    requires Consistent(t, s)
    ensures Consistent(t, RefundStackStep(t, s, id).1)
  {
    if id !in t.byId || !IsStackable(t.byId[id]) {
      assert id !in s.stacks;
      LastLevelKeepsConsistent(t, s, id);
      assert RefundStep(t, s, id).1.stacks - {id} == RefundStep(t, s, id).1.stacks;
    } else if GetStacks(s, id) <= 0 {
    } else if GetStacks(s, id) > 1 {
      LevelDownKeepsConsistent(t, s, id);
    } else {
      LastLevelKeepsConsistent(t, s, id);
    }
  }

  /** `refundStack` takes a node out of the active set only through the
      engine's `refund`: the node was active and no active node lists it
      among its prerequisites. */
  lemma RefundStackGuarded(t: Table, s: Selection, id: string)
    requires WellFormed(t)
    ensures RefundStackStep(t, s, id).1.active != s.active ==>
              id in s.active && forall k | k in s.active && k in t.byId :: id !in Deps(t.byId[k])
  {
    RefundBlockedIff(t, s, id);
  }

  /** A successful `buyStack` never takes the spent points over the cap. */
  lemma BuyStackWithinBudget(t: Table, s: Selection, id: string)
    requires BuyStackStep(t, s, id).0.Ok?
    ensures BuyStackStep(t, s, id).1.pointsSpent <= s.pointsMax
    ensures BuyStackStep(t, s, id).1.pointsMax == s.pointsMax
  {
  }

  /** An extra level costs the base plus the current level, adds exactly one
      level and leaves the selection as it is. */
  lemma BuyStackExtraLevel(t: Table, s: Selection, id: string)
    requires Consistent(t, s)
    requires id in t.byId && IsStackable(t.byId[id]) && id in s.stacks
    requires BuyStackStep(t, s, id).0.Ok?
    ensures var s1 := BuyStackStep(t, s, id).1;
            && s1.active == s.active && s1.stats == s.stats
            && s1.pointsSpent == s.pointsSpent + t.byId[id].cost + s.stacks[id]
            && GetStacks(s1, id) == s.stacks[id] + 1
  {
  }

  lemma FirstLevelUndone(t: Table, s: Selection, id: string)
    requires Consistent(t, s) && s.stats == StatsOf(t, s.active)
    requires id in t.byId && GetStacks(s, id) == 0
    requires FirstLevelStep(t, s, id).0.Ok?
    ensures GetStacks(FirstLevelStep(t, s, id).1, id) == 1
    ensures LastLevelStep(t, FirstLevelStep(t, s, id).1, id).0.Ok? ==>
              LastLevelStep(t, FirstLevelStep(t, s, id).1, id).1 == s
  {
    assert id !in s.stacks;
    FirstLevelOk(t, s, id);
    UndoFirstLevel(t, s, FirstLevelStep(t, s, id).1, id);
  }

  /** A first level that goes through is the engine's buy plus level 1. */
  lemma FirstLevelOk(t: Table, s: Selection, id: string)
    requires id !in s.stacks && FirstLevelStep(t, s, id).0.Ok?
    ensures id !in s.active
    ensures FirstLevelStep(t, s, id).1 == AfterBuy(t, s, id).(stacks := s.stacks[id := 1])
  {
    HostBuyFollowsGate(t, s, id);
  }

  lemma UndoFirstLevel(t: Table, s: Selection, s1: Selection, id: string)
    requires id !in s.active && id !in s.stacks && s.stats == StatsOf(t, s.active)
    requires s1 == AfterBuy(t, s, id).(stacks := s.stacks[id := 1])
    ensures LastLevelStep(t, s1, id).0.Ok? ==> LastLevelStep(t, s1, id).1 == s
  {
    if RefundStep(t, s1, id).0.Ok? {
      LastLevelOk(t, s1, id);
      RefundAppended(t, s, s1, id);
      ClearAddedLevel(s.stacks, id);
    }
  }

  /** Refunding the id just appended restores the points, the active list
      and the stats from before. */
  lemma RefundAppended(t: Table, s: Selection, s1: Selection, id: string)
    requires id !in s.active && s.stats == StatsOf(t, s.active)
    requires s1.pointsMax == s.pointsMax && s1.active == s.active + [id]
    requires s1.pointsSpent == s.pointsSpent + CostOf(t, id)
    ensures AfterRefund(t, s1, id) == s.(stacks := s1.stacks)
  {
    RemoveAppended(s.active, id);
  }

  lemma ClearAddedLevel(stacks: map<string, int>, id: string)
    requires id !in stacks
    ensures WithLevel(stacks[id := 1], id, 0) == stacks
  {
    assert stacks[id := 1] - {id} == stacks;
  }

  /** A last level that goes through is the engine's refund with the level
      cleared. */
  lemma LastLevelOk(t: Table, s: Selection, id: string)
    requires RefundStep(t, s, id).0.Ok?
    ensures LastLevelStep(t, s, id).1 == AfterRefund(t, s, id).(stacks := WithLevel(s.stacks, id, 0))
  {
  }

  lemma ExtraLevelUndone(t: Table, s: Selection, id: string)
    requires Consistent(t, s)
    requires id in t.byId && id in s.stacks
    requires ExtraLevelStep(t, s, id).0.Ok?
    ensures GetStacks(ExtraLevelStep(t, s, id).1, id) > 1
    ensures LevelDownStep(t, ExtraLevelStep(t, s, id).1, id) == (Ok, s)
  {
    var cur := s.stacks[id];
    ExtraLevelOk(t, s, id);
    SumCostAtMostSpentSum(t, s.active, s.stacks);
    assert s.stacks[id := cur + 1][id := cur] == s.stacks;
  }

  /** After a successful `buyStack`, `refundStack` of the same id gives the
      state back exactly; after an extra level it cannot fail. */
  lemma RefundStackUndoesBuyStack(t: Table, s: Selection, id: string)
    requires Consistent(t, s) && s.stats == StatsOf(t, s.active)
    requires BuyStackStep(t, s, id).0.Ok?
    ensures id in t.byId && IsStackable(t.byId[id]) && id in s.stacks ==>
              RefundStackStep(t, BuyStackStep(t, s, id).1, id).0.Ok?
    ensures RefundStackStep(t, BuyStackStep(t, s, id).1, id).0.Ok? ==>
              RefundStackStep(t, BuyStackStep(t, s, id).1, id).1 == s
  {
    if id !in t.byId || !IsStackable(t.byId[id]) {
      if RefundStep(t, BuyStep(t, s, id).1, id).0.Ok? {
        RefundUndoesBuy(t, s, id);
      }
    } else if GetStacks(s, id) == 0 {
      FirstLevelUndone(t, s, id);
    } else {
      ExtraLevelUndone(t, s, id);
    }
  }

  /** The worked example of the stacking rule: a stackable node of base
      cost 2 under a cap of 20 costs 2, then 3, then 4; refunding the levels
      gives back 4, 3 and 2. */
  lemma StackingExample(n: Node)
    requires n.id == "aura" && n.cost == 2 && n.stackable
    requires n.reqAll == [] && n.reqAny == [] && n.reqStage == "" && n.hostReqStage == ""
    ensures var t := Table(map["aura" := n], ["aura"]);
            var s0 := Selection(20, 0, [], map[], map[]);
            var (r1, s1) := BuyStackStep(t, s0, "aura");
            var (r2, s2) := BuyStackStep(t, s1, "aura");
            var (r3, s3) := BuyStackStep(t, s2, "aura");
            var (r4, s4) := RefundStackStep(t, s3, "aura");
            var (r5, s5) := RefundStackStep(t, s4, "aura");
            var (r6, s6) := RefundStackStep(t, s5, "aura");
            && r1.Ok? && s1.pointsSpent == 2 && GetStacks(s1, "aura") == 1
            && r2.Ok? && s2.pointsSpent == 5 && GetStacks(s2, "aura") == 2
            && r3.Ok? && s3.pointsSpent == 9 && GetStacks(s3, "aura") == 3
            && r4.Ok? && s4.pointsSpent == 5 && GetStacks(s4, "aura") == 2
            && r5.Ok? && s5.pointsSpent == 2 && GetStacks(s5, "aura") == 1
            && r6.Ok? && s6.pointsSpent == 0 && GetStacks(s6, "aura") == 0 && s6.active == []
  {
    var t := Table(map["aura" := n], ["aura"]);
    var s0 := Selection(20, 0, [], map[], map[]);
    assert CanBuy(t, s0, "aura") == Ok;
    var s1 := BuyStackStep(t, s0, "aura").1;
    assert s1.active == ["aura"] && s1.pointsSpent == 2 && s1.stacks == map["aura" := 1];
    var s2 := BuyStackStep(t, s1, "aura").1;
    assert s2.pointsSpent == 5 && s2.stacks == map["aura" := 2];
    var s3 := BuyStackStep(t, s2, "aura").1;
    assert s3.pointsSpent == 9 && s3.stacks == map["aura" := 3];
    var s4 := RefundStackStep(t, s3, "aura").1;
    assert s4.pointsSpent == 5 && s4.stacks == map["aura" := 2];
    var s5 := RefundStackStep(t, s4, "aura").1;
    assert s5.pointsSpent == 2 && s5.stacks == map["aura" := 1] && s5.active == ["aura"];
    assert FirstDependent(t, s5.active, t.order, "aura") == None;
    assert Remove(["aura"], "aura") == [];
  }

  // ---------------------------------------------------------------------
  // The host's operations on the engine object

  /** `setStacks`. */
  method SetStacks(e: Engine, id: string, n: int)
    modifies e`stacks
    ensures e.stacks == WithLevel(old(e.stacks), id, n)
  {
    if n <= 0 {
      e.stacks := e.stacks - {id};
    } else {
      e.stacks := e.stacks[id := n];
    }
  }

  /** `reconcileStacksWithActive`: levels survive only for known, active nodes. */
  method ReconcileStacks(e: Engine)
    modifies e`stacks
    ensures e.stacks == map k | k in old(e.stacks) && k in e.table.byId && k in e.active :: old(e.stacks)[k]
  {
    var keys := e.stacks.Keys;
    while keys != {}
      invariant forall k :: k in e.stacks <==> k in old(e.stacks) && (k in keys || (k in e.table.byId && k in e.active))
      invariant forall k | k in e.stacks :: e.stacks[k] == old(e.stacks)[k]
      decreases keys
    {
      var k :| k in keys;
      if k !in e.table.byId || k !in e.active {
        e.stacks := e.stacks - {k};
      }
      keys := keys - {k};
    }
  }

  /** The wrapped `Engine.buy`. */
  method HostBuy(e: Engine, id: string) returns (r: Check)
    requires e.Valid()
    modifies e`active, e`pointsSpent, e`stats
    ensures e.Valid()
    ensures (r, e.Sel()) == HostBuyStep(e.table, old(e.Sel()), id)
  {
    var gate := HostCanBuy(e.table, e.Sel(), id);
    if gate.Fail? {
      return gate;
    }
    r := e.Buy(id);
  }

  /** `Engine.buyStack`. */
  method BuyStack(e: Engine, id: string) returns (r: Check)
    requires e.Valid()
    modifies e`active, e`pointsSpent, e`stats, e`stacks
    ensures e.Valid()
    ensures (r, e.Sel()) == BuyStackStep(e.table, old(e.Sel()), id)
  {
    var s0 := e.Sel();
    if id !in e.table.byId || !IsStackable(e.table.byId[id]) {
      r := HostBuy(e, id);
      return;
    }
    var node := e.table.byId[id];
    var cur := GetStacks(s0, id);
    if cur == 0 {
      r := HostBuy(e, id);
      if r.Ok? {
        SetStacks(e, id, 1);
      }
    } else {
      if !CanBuyStack(node, s0) {
        return Fail(StackRejected);
      }
      e.pointsSpent := e.pointsSpent + NextStackCost(node, s0);
      SetStacks(e, id, cur + 1);
      r := Ok;
    }
  }

  /** `Engine.refundStack`. */
  method RefundStack(e: Engine, id: string) returns (r: Check)
    requires e.Valid()
    modifies e`active, e`pointsSpent, e`stats, e`stacks
    ensures e.Valid()
    ensures (r, e.Sel()) == RefundStackStep(e.table, old(e.Sel()), id)
  {
    var s0 := e.Sel();
    if id !in e.table.byId || !IsStackable(e.table.byId[id]) {
      r := e.Refund(id);
      return;
    }
    var cur := GetStacks(s0, id);
    if cur <= 0 {
      return Fail(NothingToRemove);
    }
    if cur > 1 {
      var back := e.table.byId[id].cost + (cur - 1);
      e.pointsSpent := Clamp(e.pointsSpent - back);
      SetStacks(e, id, cur - 1);
      r := Ok;
    } else {
      r := e.Refund(id);
      if r.Ok? {
        SetStacks(e, id, 0);
      }
    }
  }
}
