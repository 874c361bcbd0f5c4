/** The column layout of js/layout.js, as functions of the node list: each
    node's column group, the order of the columns, the local depth of each
    node inside its group (a guarded fixed-point relaxation), the vertical
    offset that puts advanced groups below the basic ones, and the slot of a
    node inside its (group, row) bucket. Coordinates are mathematical reals.

    The coordinates are in LayoutGeometry; the method that computes them
    with loops is in LayoutCompute. */
module Layout {
  import opened Types

  /** The column groups, in column order. */
  const ORDER: seq<string> := ["Ten", "Zetsu", "Ren", "Hatsu", "Gyo", "Shu", "In", "En", "Ryu", "Ken", "Ko"]
  const BASIC: set<string> := {"Ten", "Zetsu", "Ren", "Hatsu"}
  const ADV: set<string> := {"Gyo", "Shu", "In", "En", "Ryu", "Ken", "Ko"}
  /** The group of a node without any tag from ORDER; its column comes last. */
  const OTHERS: string := "Outros"
  /** The relaxation's iteration guard. */
  const MAX_PASSES: nat := 200

  datatype Pos = Pos(x: real, y: real)

  // ---------------------------------------------------------------------
  // Groups and columns

  /** The first index of `x` in `s`, or |s| when absent. */
  function IndexIn(s: seq<string>, x: string): (r: nat)
    ensures r <= |s|
    ensures r < |s| <==> x in s
    ensures r < |s| ==> s[r] == x
  {
    if s == [] then 0 else if s[0] == x then 0 else 1 + IndexIn(s[1..], x)
  }

  /** The index found is the first one. */
  lemma {:induction false} IndexInFirst(s: seq<string>, x: string, k: nat)
    requires k < |s| && s[k] == x
    ensures IndexIn(s, x) <= k
  {
    if s[0] != x {
      IndexInFirst(s[1..], x, k - 1);
    }
  }

  lemma {:induction false} IndexInAppend(s: seq<string>, y: string, x: string)
    requires x in s
    ensures IndexIn(s + [y], x) == IndexIn(s, x)
  {
    assert (s + [y])[0] == s[0];
    if s[0] != x {
      assert (s + [y])[1..] == s[1..] + [y];
      IndexInAppend(s[1..], y, x);
    }
  }

  lemma IndexInAppended(s: seq<string>, y: string)
    requires y !in s
    ensures IndexIn(s + [y], y) == |s|
  {
    IndexInFirst(s + [y], y, |s|);
    assert forall k | 0 <= k < |s| :: (s + [y])[k] == s[k];
  }

  /** A group's place in the column order; "Outros" comes after all of ORDER. */
  function Rank(g: string): nat {
    IndexIn(ORDER, g)
  }

  lemma OrderDistinct()
    ensures Distinct(ORDER)
  {
  }

  lemma OthersLast()
    ensures OTHERS !in ORDER && Rank(OTHERS) == |ORDER|
  {
  }

  /** The index of the first entry of `order` among `tags`. */
  function FirstTagIndex(order: seq<string>, tags: seq<string>): (r: Option<nat>)
    ensures r.None? <==> forall j | 0 <= j < |order| :: order[j] !in tags
    ensures r.Some? ==> r.value < |order| && order[r.value] in tags
    ensures r.Some? ==> forall j | 0 <= j < r.value :: order[j] !in tags
  {
    if order == [] then None
    else if order[0] in tags then Some(0)
    else match FirstTagIndex(order[1..], tags)
      case None => None
      case Some(j) => Some(j + 1)
  }

  /** `groupOf`: the first group of ORDER the node is tagged with, else "Outros". */
  function GroupOf(n: Node): string {
    match FirstTagIndex(ORDER, n.tags)
    case None => OTHERS
    case Some(j) => ORDER[j]
  }

  /** A node's group is one of its tags from ORDER, the earliest in ORDER,
      and "Outros" exactly when it has none. */
  lemma GroupOfFirst(n: Node)
    ensures GroupOf(n) == OTHERS || (GroupOf(n) in ORDER && GroupOf(n) in n.tags)
    ensures GroupOf(n) == OTHERS <==> forall h | h in n.tags :: h !in ORDER
    ensures forall h | h in n.tags && h in ORDER :: Rank(GroupOf(n)) <= Rank(h)
  {
    OthersLast();
    match FirstTagIndex(ORDER, n.tags)
    case None =>
      assert forall h | h in n.tags :: h !in ORDER;
    case Some(j) =>
      IndexInFirst(ORDER, ORDER[j], j);
      forall h | h in n.tags && h in ORDER ensures Rank(h) >= j {
        assert ORDER[Rank(h)] == h;
      }
  }

  /** The nodes of one group, in input order (`byGroup.get(g)`). */
  function Members(nodes: seq<Node>, g: string): (r: seq<Node>)
    ensures forall n :: n in r <==> n in nodes && GroupOf(n) == g
    ensures |r| <= |nodes|
  {
    if nodes == [] then []
    else
      var init := nodes[..|nodes| - 1];
      var last := nodes[|nodes| - 1];
      assert nodes == init + [last];
      if GroupOf(last) == g then Members(init, g) + [last] else Members(init, g)
  }

  predicate Present(nodes: seq<Node>, g: string) {
    Members(nodes, g) != []
  }

  /** The entries of `order` that are groups with nodes, in order. */
  function ColumnsIn(order: seq<string>, nodes: seq<Node>): (cols: seq<string>)
    ensures forall g :: g in cols <==> g in order && Present(nodes, g)
  {
    if order == [] then []
    else
      var init := order[..|order| - 1];
      var last := order[|order| - 1];
      assert order == init + [last];
      if Present(nodes, last) then ColumnsIn(init, nodes) + [last] else ColumnsIn(init, nodes)
  }

  /** `cols` lists its entries in the order they have in `order`. */
  predicate FollowsOrder(order: seq<string>, cols: seq<string>) {
    forall i, j | 0 <= i < j < |cols| :: IndexIn(order, cols[i]) < IndexIn(order, cols[j])
  }

  lemma {:induction false} ColumnsInOrdered(order: seq<string>, nodes: seq<Node>)
    requires Distinct(order)
    ensures FollowsOrder(order, ColumnsIn(order, nodes))
  {
    if order != [] {
      var init := order[..|order| - 1];
      var last := order[|order| - 1];
      assert order == init + [last];
      assert last !in init;
      var prev := ColumnsIn(init, nodes);
      ColumnsInOrdered(init, nodes);
      forall x | x in prev ensures IndexIn(order, x) == IndexIn(init, x) < |init| {
        IndexInAppend(init, last, x);
      }
      IndexInAppended(init, last);
      var cols := ColumnsIn(order, nodes);
      forall i, j | 0 <= i < j < |cols| ensures IndexIn(order, cols[i]) < IndexIn(order, cols[j]) {
        assert cols[i] == prev[i] && prev[i] in prev;
        if j < |prev| {
          assert cols[j] == prev[j] && prev[j] in prev;
        } else {
          assert cols == prev + [last];
          assert cols[j] == last;
        }
      }
    }
  }

  /** The columns: the groups present, in ORDER order, then "Outros" if present. */
  function Columns(nodes: seq<Node>): (cols: seq<string>)
    ensures forall g :: g in cols <==> Present(nodes, g)
  {
    var known := ColumnsIn(ORDER, nodes);
    forall g | Present(nodes, g) ensures g == OTHERS || g in ORDER {
      GroupOfFirst(Members(nodes, g)[0]);
    }
    if Present(nodes, OTHERS) then known + [OTHERS] else known
  }

  lemma KnownColumnsOrdered(nodes: seq<Node>)
    ensures FollowsOrder(ORDER, ColumnsIn(ORDER, nodes))
  {
    OrderDistinct();
    ColumnsInOrdered(ORDER, nodes);
  }

  /** Appending a name that is not in `order` keeps the sequence in order. */
  lemma FollowsOrderAppend(order: seq<string>, known: seq<string>, extra: string)
    requires FollowsOrder(order, known)
    requires forall g | g in known :: g in order
    requires extra !in order
    ensures FollowsOrder(order, known + [extra])
  {
    var cols := known + [extra];
    forall i, j | 0 <= i < j < |cols| ensures IndexIn(order, cols[i]) < IndexIn(order, cols[j]) {
      assert cols[i] == known[i] && known[i] in known;
      if j < |known| {
        assert cols[j] == known[j];
      }
    }
  }

  /** Columns follow ORDER, with "Outros" after all of them. */
  lemma ColumnsOrdered(nodes: seq<Node>)
    ensures FollowsOrder(ORDER, Columns(nodes))
  {
    KnownColumnsOrdered(nodes);
    if Present(nodes, OTHERS) {
      OthersLast();
      FollowsOrderAppend(ORDER, ColumnsIn(ORDER, nodes), OTHERS);
    }
  }

  /** Each group has one column, and "Outros" is the last. */
  lemma ColumnsDistinct(nodes: seq<Node>)
    ensures Distinct(Columns(nodes))
    ensures OTHERS in Columns(nodes) ==> Columns(nodes)[|Columns(nodes)| - 1] == OTHERS
  {
    ColumnsOrdered(nodes);
    var cols := Columns(nodes);
    OthersLast();
    forall k | 0 <= k < |cols| - 1 ensures cols[k] != OTHERS {
      assert Rank(cols[k]) < Rank(cols[|cols| - 1]);
    }
  }

  function Max1(c: int): (m: int)
    ensures m >= 1 && m >= c
  {
    if c < 1 then 1 else c
  }

  /** The width divided among `count` columns (at least one). */
  function ColumnWidth(width: real, count: nat): real {
    width / (Max1(count) as real)
  }

  /** `colW`: one width shared by every column. */
  function ColW(nodes: seq<Node>, width: real): real {
    ColumnWidth(width, |Columns(nodes)|)
  }

  // ---------------------------------------------------------------------
  // Predecessors

  function IdsOf(ns: seq<Node>): (ids: seq<string>)
    ensures |ids| == |ns|
    ensures forall i | 0 <= i < |ns| :: ids[i] == ns[i].id
  {
    if ns == [] then [] else IdsOf(ns[..|ns| - 1]) + [ns[|ns| - 1].id]
  }

  predicate DistinctIds(ns: seq<Node>) {
    Distinct(IdsOf(ns))
  }

  /** No later node of the list has the same id as node i. */
  predicate LastWithId(ns: seq<Node>, i: nat)
    requires i < |ns|
  {
    forall j | i < j < |ns| :: ns[j].id != ns[i].id
  }

  /** `preds`: for each id, the AND and OR prerequisites of the last node
      with that id (a later entry replaces an earlier one, as in `new Map`). */
  function PredsOf(nodes: seq<Node>): map<string, seq<string>> {
    if nodes == [] then map[]
    else
      var last := nodes[|nodes| - 1];
      PredsOf(nodes[..|nodes| - 1])[last.id := Deps(last)]
  }

  /** Every node's id has an entry, and nothing else has. */
  lemma {:induction false} PredsOfKeys(nodes: seq<Node>)
    ensures forall k :: k in PredsOf(nodes) <==> k in IdsOf(nodes)
  {
    if nodes != [] {
      PredsOfKeys(nodes[..|nodes| - 1]);
      assert IdsOf(nodes) == IdsOf(nodes[..|nodes| - 1]) + [nodes[|nodes| - 1].id];
    }
  }

  /** The entry of an id is the prerequisites of the last node with it. */
  lemma {:induction false} PredsOfLast(nodes: seq<Node>, i: nat)
    requires i < |nodes| && LastWithId(nodes, i)
    ensures nodes[i].id in PredsOf(nodes) && PredsOf(nodes)[nodes[i].id] == Deps(nodes[i])
  {
    var init := nodes[..|nodes| - 1];
    if i < |init| {
      assert nodes[|nodes| - 1].id != nodes[i].id;
      assert init[i] == nodes[i];
      assert LastWithId(init, i);
      PredsOfLast(init, i);
    }
  }

  function PredsFor(preds: map<string, seq<string>>, id: string): seq<string> {
    if id in preds then preds[id] else []
  }

  // ---------------------------------------------------------------------
  // Local depth

  /** `depth.get(k) ?? 0`. */
  function DepthAt(depth: map<string, int>, k: string): int {
    if k in depth then depth[k] else 0
  }

  predicate NonNeg(depth: map<string, int>) {
    forall k | k in depth :: depth[k] >= 0
  }

  /** The predecessors that belong to the same group. */
  function InGroup(ps: seq<string>, gids: seq<string>): (r: seq<string>)
    ensures forall p :: p in r <==> p in ps && p in gids
  {
    if ps == [] then []
    else
      var init := ps[..|ps| - 1];
      var last := ps[|ps| - 1];
      assert ps == init + [last];
      if last in gids then InGroup(init, gids) + [last] else InGroup(init, gids)
  }

  function MaxDepth(depth: map<string, int>, pids: seq<string>): (m: int)
    requires pids != []
    ensures forall p | p in pids :: DepthAt(depth, p) <= m
    ensures exists p | p in pids :: DepthAt(depth, p) == m
  {
    if |pids| == 1 then DepthAt(depth, pids[0])
    else
      var init := pids[..|pids| - 1];
      var last := pids[|pids| - 1];
      assert pids == init + [last];
      var m0 := MaxDepth(depth, init);
      if DepthAt(depth, last) > m0 then DepthAt(depth, last) else m0
  }

  /** The depth one relaxation step gives a node: one more than its deepest
      in-group predecessor, or 1 when it has none in the group. */
  function NewDepth(depth: map<string, int>, ps: seq<string>, gids: seq<string>): (d: int)
    ensures forall p | p in ps && p in gids :: d > DepthAt(depth, p)
    ensures d == 1 || exists p | p in ps && p in gids :: d == DepthAt(depth, p) + 1
    ensures (forall p | p in ps :: p !in gids) ==> d == 1
    ensures NonNeg(depth) ==> d >= 1
  {
    var ig := InGroup(ps, gids);
    if ig == [] then 1
    else
      var m := MaxDepth(depth, ig);
      assert NonNeg(depth) ==> DepthAt(depth, ig[0]) >= 0;
      m + 1
  }

  /** What the relaxation of one group reads: its nodes in input order, the
      root's id, the ids of its nodes, and every node's predecessors. */
  datatype Group = Group(ns: seq<Node>, rootId: string, gids: seq<string>, preds: map<string, seq<string>>)

  /** One pass over the nodes `ns` in order; each new depth is visible to
      the nodes after it. Returns the depths and whether any changed. */
  function Pass(gr: Group, ns: seq<Node>, depth: map<string, int>): (map<string, int>, bool) {
    if ns == [] then (depth, false)
    else
      var (d0, ch0) := Pass(gr, ns[..|ns| - 1], depth);
      var n := ns[|ns| - 1];
      if n.id == gr.rootId then (d0, ch0)
      else
        var d := NewDepth(d0, PredsFor(gr.preds, n.id), gr.gids);
        if n.id in d0 && d0[n.id] == d then (d0, ch0) else (d0[n.id := d], true)
  }

  /** `while (changed && guard++ < 200)`: passes until one changes nothing or
      200 passes have run. Returns the depths and the last pass's flag. */
  function Relax(gr: Group, depth: map<string, int>, changed: bool, guard: nat): (map<string, int>, bool)
    decreases MAX_PASSES - guard
  {
    if changed && guard < MAX_PASSES then
      var (d', ch') := Pass(gr, gr.ns, depth);
      Relax(gr, d', ch', guard + 1)
    else (depth, changed)
  }

  /** The root keeps depth 0; every other depth is that of a node of the
      group and is at least 1. */
  ghost predicate DepthInv(gr: Group, d: map<string, int>) {
    && gr.rootId in d && d[gr.rootId] == 0
    && forall k | k in d :: k == gr.rootId || (k in gr.gids && d[k] >= 1)
  }

  predicate AllIn(gr: Group, d: map<string, int>) {
    forall n | n in gr.ns :: n.id in d
  }

  /** Every non-root node has the depth one more step would give it. */
  ghost predicate FixedPoint(gr: Group, d: map<string, int>) {
    forall n | n in gr.ns && n.id != gr.rootId ::
      n.id in d && d[n.id] == NewDepth(d, PredsFor(gr.preds, n.id), gr.gids)
  }

  lemma {:induction false} PassShape(gr: Group, ns: seq<Node>, depth: map<string, int>)
    requires forall n | n in ns :: n.id in gr.gids
    requires DepthInv(gr, depth)
    ensures DepthInv(gr, Pass(gr, ns, depth).0)
    ensures forall k | k in depth :: k in Pass(gr, ns, depth).0
    ensures forall n | n in ns :: n.id in Pass(gr, ns, depth).0
  {
    if ns != [] {
      var init := ns[..|ns| - 1];
      assert forall n | n in init :: n in ns;
      PassShape(gr, init, depth);
    }
  }

  /** A pass that reports no change left the depths as they were, and they
      are a fixed point for the nodes it visited. */
  lemma {:induction false} PassUnchanged(gr: Group, ns: seq<Node>, depth: map<string, int>)
    ensures !Pass(gr, ns, depth).1 ==> Pass(gr, ns, depth).0 == depth
    ensures !Pass(gr, ns, depth).1 ==>
      forall n | n in ns && n.id != gr.rootId ::
        n.id in depth && depth[n.id] == NewDepth(depth, PredsFor(gr.preds, n.id), gr.gids)
  {
    if ns != [] {
      var init := ns[..|ns| - 1];
      assert ns == init + [ns[|ns| - 1]];
      PassUnchanged(gr, init, depth);
    }
  }

  lemma {:induction false} RelaxShape(gr: Group, depth: map<string, int>, changed: bool, guard: nat)
    requires forall n | n in gr.ns :: n.id in gr.gids
    requires DepthInv(gr, depth)
    ensures DepthInv(gr, Relax(gr, depth, changed, guard).0)
    ensures (changed && guard < MAX_PASSES) || AllIn(gr, depth) ==> AllIn(gr, Relax(gr, depth, changed, guard).0)
    decreases MAX_PASSES - guard
  {
    if changed && guard < MAX_PASSES {
      PassShape(gr, gr.ns, depth);
      var (d', ch') := Pass(gr, gr.ns, depth);
      RelaxShape(gr, d', ch', guard + 1);
    }
  }

  /** When the loop stops because a pass changed nothing, the depths are a
      fixed point of the relaxation step. */
  lemma {:induction false} RelaxFixedPoint(gr: Group, depth: map<string, int>, guard: nat)
    ensures !Relax(gr, depth, true, guard).1 ==> FixedPoint(gr, Relax(gr, depth, true, guard).0)
    decreases MAX_PASSES - guard
  {
    if guard < MAX_PASSES {
      PassUnchanged(gr, gr.ns, depth);
      var (d', ch') := Pass(gr, gr.ns, depth);
      if ch' {
        RelaxFixedPoint(gr, d', guard + 1);
      }
    }
  }

  /** The index of the first node of type "principle", or |ns| when there
      is none. */
  function FirstPrinciple(ns: seq<Node>): (i: nat)
    ensures i <= |ns|
    ensures i < |ns| ==> ns[i].nodeType == "principle"
  {
    if ns == [] then 0 else if ns[0].nodeType == "principle" then 0 else 1 + FirstPrinciple(ns[1..])
  }

  /** No node before the one found is a principle. */
  lemma {:induction false} FirstPrincipleFirst(ns: seq<Node>, j: nat)
    requires j < FirstPrinciple(ns)
    ensures ns[j].nodeType != "principle"
  {
    if j > 0 {
      FirstPrincipleFirst(ns[1..], j - 1);
    }
  }

  /** The group's root (`groupNodes.find(n => n.type === "principle") ||
      groupNodes[0]`). */
  function RootOf(ns: seq<Node>): Node
    requires ns != []
  {
    var i := FirstPrinciple(ns);
    if i < |ns| then ns[i] else ns[0]
  }

  /** The root is the first principle of the group, or its first node when
      the group has no principle. */
  lemma RootOfChoice(ns: seq<Node>)
    requires ns != []
    ensures RootOf(ns) in ns
    ensures RootOf(ns).nodeType == "principle" || forall n | n in ns :: n.nodeType != "principle"
    ensures FirstPrinciple(ns) < |ns| ==>
              RootOf(ns) == ns[FirstPrinciple(ns)] && forall j | 0 <= j < FirstPrinciple(ns) :: ns[j].nodeType != "principle"
    ensures FirstPrinciple(ns) == |ns| ==> RootOf(ns) == ns[0]
  {
    var i := FirstPrinciple(ns);
    forall j | 0 <= j < i ensures ns[j].nodeType != "principle" {
      FirstPrincipleFirst(ns, j);
    }
    if i == |ns| {
      forall n | n in ns ensures n.nodeType != "principle" {
        var l :| 0 <= l < |ns| && ns[l] == n;
        FirstPrincipleFirst(ns, l);
      }
    }
  }

  function MakeGroup(nodes: seq<Node>, g: string): Group
    requires Present(nodes, g)
  {
    var ns := Members(nodes, g);
    Group(ns, RootOf(ns).id, IdsOf(ns), PredsOf(nodes))
  }

  /** The relaxation of group g from the root at depth 0. */
  function GroupRelax(nodes: seq<Node>, g: string): (map<string, int>, bool)
    requires Present(nodes, g)
  {
    var gr := MakeGroup(nodes, g);
    Relax(gr, map[gr.rootId := 0], true, 0)
  }

  function GroupDepth(nodes: seq<Node>, g: string): map<string, int>
    requires Present(nodes, g)
  {
    GroupRelax(nodes, g).0
  }

  /** The depths cover exactly the group's nodes; the root has depth 0 and
      every other node depth at least 1. */
  lemma GroupDepthShape(nodes: seq<Node>, g: string)
    requires Present(nodes, g)
    ensures forall k :: k in GroupDepth(nodes, g) <==> k in MakeGroup(nodes, g).gids
    ensures DepthInv(MakeGroup(nodes, g), GroupDepth(nodes, g))
  {
    var gr := MakeGroup(nodes, g);
    IdsOfCover(gr.ns);
    RelaxShape(gr, map[gr.rootId := 0], true, 0);
  }

  /** The ids listed for a sequence of nodes are exactly those nodes' ids. */
  lemma IdsOfCover(ns: seq<Node>)
    ensures forall n | n in ns :: n.id in IdsOf(ns)
    ensures forall k | k in IdsOf(ns) :: exists n | n in ns :: n.id == k
  {
    forall n | n in ns ensures n.id in IdsOf(ns) {
      var i :| 0 <= i < |ns| && ns[i] == n;
      assert IdsOf(ns)[i] == n.id;
    }
    forall k | k in IdsOf(ns) ensures exists n | n in ns :: n.id == k {
      var i :| 0 <= i < |ns| && IdsOf(ns)[i] == k;
      assert ns[i].id == k;
    }
  }

  /** If the relaxation stopped because a pass changed nothing, every
      non-root node sits one below its deepest in-group predecessor, or at
      depth 1 without one. */
  lemma GroupDepthSettled(nodes: seq<Node>, g: string)
    requires Present(nodes, g)
    ensures !GroupRelax(nodes, g).1 ==> FixedPoint(MakeGroup(nodes, g), GroupDepth(nodes, g))
  {
    var gr := MakeGroup(nodes, g);
    RelaxFixedPoint(gr, map[gr.rootId := 0], 0);
  }

  /** `Math.max(...depth.values())`: the largest depth of the group. */
  function GroupMax(nodes: seq<Node>, g: string): int
    requires Present(nodes, g)
  {
    var gr := MakeGroup(nodes, g);
    MaxDepth(GroupDepth(nodes, g), gr.gids)
  }

  /** The maximum is one of the depths, bounds all of them and is never
      negative. */
  lemma GroupMaxBounds(nodes: seq<Node>, g: string)
    requires Present(nodes, g)
    ensures GroupMax(nodes, g) >= 0
    ensures forall k | k in GroupDepth(nodes, g) :: GroupDepth(nodes, g)[k] <= GroupMax(nodes, g)
    ensures exists k | k in GroupDepth(nodes, g) :: GroupDepth(nodes, g)[k] == GroupMax(nodes, g)
  {
    GroupDepthShape(nodes, g);
    var gr := MakeGroup(nodes, g);
    RootOfChoice(gr.ns);
    assert gr.rootId in gr.gids by {
      var i :| 0 <= i < |gr.ns| && gr.ns[i] == RootOf(gr.ns);
      assert gr.gids[i] == gr.rootId;
    }
  }

  /** `groupMaxDepth`: the largest depth of each column. */
  function GroupMaxes(nodes: seq<Node>): (gm: map<string, int>)
    ensures forall g :: g in gm <==> Present(nodes, g)
  {
    map g | g in Columns(nodes) :: GroupMax(nodes, g)
  }

  // ---------------------------------------------------------------------
  // The vertical offset

  /** `groupMaxDepth.get(g) || 0`. */
  function MaxAt(gm: map<string, int>, g: string): int {
    if g in gm then gm[g] else 0
  }

  /** `basicMax`: 0, or the deepest of the basic groups among `gs`. */
  function BasicMaxOf(gs: seq<string>, gm: map<string, int>): (m: int)
    ensures m >= 0
    ensures forall g | g in gs && g in BASIC :: MaxAt(gm, g) <= m
    ensures m == 0 || exists g | g in gs && g in BASIC :: MaxAt(gm, g) == m
  {
    if gs == [] then 0
    else
      var init := gs[..|gs| - 1];
      var last := gs[|gs| - 1];
      assert gs == init + [last];
      var m0 := BasicMaxOf(init, gm);
      if last in BASIC && MaxAt(gm, last) > m0 then MaxAt(gm, last) else m0
  }

  function BasicMax(nodes: seq<Node>): int {
    BasicMaxOf(Columns(nodes), GroupMaxes(nodes))
  }

  /** `offsetForGroup`: advanced groups start one row below the deepest
      basic row; the others, "Outros" included, are not shifted. */
  function OffsetFor(basicMax: int, g: string): int {
    if g in ADV then basicMax + 1 else 0
  }

  function Offset(nodes: seq<Node>, g: string): int {
    OffsetFor(BasicMax(nodes), g)
  }

  /** `globalMaxDepth`: at least 1, and at least every group's deepest
      shifted row. */
  function GlobalMaxOf(gs: seq<string>, gm: map<string, int>, basicMax: int): (m: int)
    ensures m >= 1
    ensures forall g | g in gs :: MaxAt(gm, g) + OffsetFor(basicMax, g) <= m
    ensures m == 1 || exists g | g in gs :: MaxAt(gm, g) + OffsetFor(basicMax, g) == m
  {
    if gs == [] then 1
    else
      var init := gs[..|gs| - 1];
      var last := gs[|gs| - 1];
      assert gs == init + [last];
      var m0 := GlobalMaxOf(init, gm, basicMax);
      var here := MaxAt(gm, last) + OffsetFor(basicMax, last);
      if here > m0 then here else m0
  }

  function GlobalMax(nodes: seq<Node>): int {
    GlobalMaxOf(Columns(nodes), GroupMaxes(nodes), BasicMax(nodes))
  }

  lemma MemberPresent(nodes: seq<Node>, n: Node)
    requires n in nodes
    ensures Present(nodes, GroupOf(n)) && n in Members(nodes, GroupOf(n))
  {
  }

  /** The row of a node: its local depth plus its group's offset. */
  function Row(nodes: seq<Node>, n: Node): int
    requires n in nodes
  {
    MemberPresent(nodes, n);
    var g := GroupOf(n);
    DepthAt(GroupDepth(nodes, g), n.id) + Offset(nodes, g)
  }

  /** A node's depth never exceeds its group's maximum, and is never negative. */
  lemma DepthWithinGroup(nodes: seq<Node>, n: Node)
    requires n in nodes
    ensures Present(nodes, GroupOf(n))
    ensures 0 <= DepthAt(GroupDepth(nodes, GroupOf(n)), n.id) <= GroupMax(nodes, GroupOf(n))
  {
    MemberPresent(nodes, n);
    GroupDepthShape(nodes, GroupOf(n));
    GroupMaxBounds(nodes, GroupOf(n));
  }

  lemma BandsDisjoint()
    ensures forall g | g in BASIC :: g !in ADV
  {
  }

  lemma WithinBasicMax(nodes: seq<Node>, g: string)
    requires Present(nodes, g) && g in BASIC
    ensures GroupMax(nodes, g) <= BasicMax(nodes)
  {
    assert g in Columns(nodes);
    assert MaxAt(GroupMaxes(nodes), g) == GroupMax(nodes, g);
  }

  lemma WithinGlobalMax(nodes: seq<Node>, g: string)
    requires Present(nodes, g)
    ensures GroupMax(nodes, g) + Offset(nodes, g) <= GlobalMax(nodes)
  {
    assert g in Columns(nodes);
    assert MaxAt(GroupMaxes(nodes), g) == GroupMax(nodes, g);
  }

  /** Every row of an advanced group lies strictly below every row of a
      basic group. */
  lemma AdvancedRowsBelowBasic(nodes: seq<Node>, a: Node, b: Node)
    requires a in nodes && b in nodes
    requires GroupOf(a) in ADV && GroupOf(b) in BASIC
    ensures Row(nodes, a) > Row(nodes, b)
  {
    DepthWithinGroup(nodes, a);
    DepthWithinGroup(nodes, b);
    WithinBasicMax(nodes, GroupOf(b));
    BandsDisjoint();
  }

  /** "Outros" is in neither band and is never shifted. */
  lemma OthersNotShifted(nodes: seq<Node>)
    ensures OTHERS !in BASIC && OTHERS !in ADV && Offset(nodes, OTHERS) == 0
  {
  }

  /** The nodes of `ns` whose depth plus `off` is `d`, in order (`rows[d]`). */
  function RowOf(ns: seq<Node>, depth: map<string, int>, off: int, d: int): (r: seq<Node>)
    ensures |r| <= |ns|
  {
    if ns == [] then []
    else
      var init := ns[..|ns| - 1];
      var last := ns[|ns| - 1];
      if DepthAt(depth, last.id) + off == d then RowOf(init, depth, off, d) + [last]
      else RowOf(init, depth, off, d)
  }

  /** A row holds exactly the nodes whose shifted depth is d. */
  lemma {:induction false} RowOfMembers(ns: seq<Node>, depth: map<string, int>, off: int, d: int)
    ensures forall m :: m in RowOf(ns, depth, off, d) <==> m in ns && DepthAt(depth, m.id) + off == d
  {
    if ns != [] {
      var init := ns[..|ns| - 1];
      assert ns == init + [ns[|ns| - 1]];
      RowOfMembers(init, depth, off, d);
    }
  }

  /** The nodes sharing n's (group, row) bucket. */
  function RowMates(nodes: seq<Node>, n: Node): seq<Node>
    requires n in nodes
  {
    MemberPresent(nodes, n);
    var g := GroupOf(n);
    RowOf(Members(nodes, g), GroupDepth(nodes, g), Offset(nodes, g), Row(nodes, n))
  }

  /** The first slot holding the id. */
  function IdIndex(row: seq<Node>, id: string): (i: nat)
    ensures i <= |row|
    ensures i < |row| ==> row[i].id == id
  {
    if row == [] then 0 else if row[0].id == id then 0 else 1 + IdIndex(row[1..], id)
  }

  /** No earlier slot holds the id. */
  lemma {:induction false} IdIndexFirst(row: seq<Node>, id: string, k: nat)
    requires k < |row| && row[k].id == id
    ensures IdIndex(row, id) <= k
  {
    if row[0].id != id {
      IdIndexFirst(row[1..], id, k - 1);
    }
  }

  /** A node is found in its own bucket. */
  lemma InOwnRow(nodes: seq<Node>, n: Node)
    requires n in nodes
    ensures IdIndex(RowMates(nodes, n), n.id) < |RowMates(nodes, n)|
  {
    MemberPresent(nodes, n);
    var g := GroupOf(n);
    assert n in Members(nodes, g);
    FoundInRow(Members(nodes, g), GroupDepth(nodes, g), Offset(nodes, g), n, Row(nodes, n));
  }

  /** A node is found in the row of its own shifted depth. */
  lemma FoundInRow(ns: seq<Node>, depth: map<string, int>, off: int, n: Node, r: int)
    requires n in ns && DepthAt(depth, n.id) + off == r
    ensures IdIndex(RowOf(ns, depth, off, r), n.id) < |RowOf(ns, depth, off, r)|
  {
    var row := RowOf(ns, depth, off, r);
    RowOfMembers(ns, depth, off, r);
    var k :| 0 <= k < |row| && row[k] == n;
    IdIndexFirst(row, n.id, k);
  }
}
