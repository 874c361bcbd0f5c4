/** `Layout.compute` of js/layout.js as the loops it is written with: the
    grouping loop, the relaxation loop of each group, and the placement
    loops. Each method is proved to compute the functions of Layout and
    LayoutGeometry, and `Compute` to give every node its `PosOf`. */
module LayoutCompute {
  import opened Types
  import opened Layout
  import opened LayoutGeometry

  /** The ids of some nodes. */
  function IdSet(ns: seq<Node>): set<string> {
    set m | m in ns :: m.id
  }

  // ---------------------------------------------------------------------
  // Distinct ids

  lemma DistinctIdsAt(ns: seq<Node>)
    ensures DistinctIds(ns) <==> forall i, j | 0 <= i < j < |ns| :: ns[i].id != ns[j].id
  {
    var ids := IdsOf(ns);
    if DistinctIds(ns) {
      forall i, j | 0 <= i < j < |ns| ensures ns[i].id != ns[j].id {
        assert ids[i] != ids[j];
      }
    }
  }

  /** With distinct ids, a node is determined by its id. */
  lemma SameIdSameNode(ns: seq<Node>, a: Node, b: Node)
    requires DistinctIds(ns) && a in ns && b in ns && a.id == b.id
    ensures a == b
  {
    DistinctIdsAt(ns);
    var i :| 0 <= i < |ns| && ns[i] == a;
    var j :| 0 <= j < |ns| && ns[j] == b;
    assert ns[i].id == ns[j].id;
  }

  /** Distinct ids stay distinct when one more node with a new id is added. */
  lemma AppendDistinctIds(r: seq<Node>, x: Node)
    requires DistinctIds(r) && x.id !in IdSet(r)
    ensures DistinctIds(r + [x])
  {
    DistinctIdsAt(r);
    var s := r + [x];
    forall i, j | 0 <= i < j < |s| ensures s[i].id != s[j].id {
      if j == |r| {
        assert s[i] in r;
      } else {
        assert s[i] == r[i] && s[j] == r[j];
      }
    }
    DistinctIdsAt(s);
  }

  lemma InitDistinctIds(ns: seq<Node>)
    requires DistinctIds(ns) && ns != []
    ensures DistinctIds(ns[..|ns| - 1])
    ensures ns[|ns| - 1].id !in IdSet(ns[..|ns| - 1])
  {
    var init := ns[..|ns| - 1];
    DistinctIdsAt(ns);
    forall i, j | 0 <= i < j < |init| ensures init[i].id != init[j].id {
      assert init[i] == ns[i] && init[j] == ns[j];
    }
    DistinctIdsAt(init);
    forall m | m in init ensures m.id != ns[|ns| - 1].id {
      var i :| 0 <= i < |init| && init[i] == m;
      assert ns[i] == m;
    }
  }

  /** A group of nodes with distinct ids has distinct ids. */
  lemma {:induction false} MembersDistinctIds(ns: seq<Node>, g: string)
    requires DistinctIds(ns)
    ensures DistinctIds(Members(ns, g))
  {
    if ns != [] {
      var init := ns[..|ns| - 1];
      InitDistinctIds(ns);
      MembersDistinctIds(init, g);
      if GroupOf(ns[|ns| - 1]) == g {
        AppendDistinctIds(Members(init, g), ns[|ns| - 1]);
      }
    }
  }

  /** A row of nodes with distinct ids has distinct ids. */
  lemma {:induction false} RowDistinctIds(ns: seq<Node>, depth: map<string, int>, off: int, d: int)
    requires DistinctIds(ns)
    ensures DistinctIds(RowOf(ns, depth, off, d))
  {
    if ns != [] {
      var init := ns[..|ns| - 1];
      var last := ns[|ns| - 1];
      InitDistinctIds(ns);
      RowDistinctIds(init, depth, off, d);
      if DepthAt(depth, last.id) + off == d {
        RowOfMembers(init, depth, off, d);
        assert IdSet(RowOf(init, depth, off, d)) <= IdSet(init);
        AppendDistinctIds(RowOf(init, depth, off, d), last);
      }
    }
  }

  /** In a row with distinct ids, slot i is the slot of its own id. */
  lemma IdIndexDistinct(row: seq<Node>, i: nat)
    requires DistinctIds(row) && i < |row|
    ensures IdIndex(row, row[i].id) == i
    ensures LastWithId(row, i)
  {
    DistinctIdsAt(row);
    IdIndexFirst(row, row[i].id, i);
  }

  /** The first index of a sequence of distinct names holding its k-th entry is k. */
  lemma IndexInDistinct(s: seq<string>, k: nat)
    requires Distinct(s) && k < |s|
    ensures IndexIn(s, s[k]) == k
  {
    IndexInFirst(s, s[k], k);
  }

  // ---------------------------------------------------------------------
  // Grouping

  /** The `byGroup` loop: each node is appended to the list of its group. */
  method GroupNodes(nodes: seq<Node>) returns (byGroup: map<string, seq<Node>>)
    ensures forall g :: g in byGroup <==> Present(nodes, g)
    ensures forall g | g in byGroup :: byGroup[g] == Members(nodes, g)
  {
    byGroup := map[];
    for i := 0 to |nodes|
      invariant forall g :: g in byGroup <==> Present(nodes[..i], g)
      invariant forall g | g in byGroup :: byGroup[g] == Members(nodes[..i], g)
    {
      var n := nodes[i];
      var g := GroupOf(n);
      ghost var prev := byGroup;
      if g !in byGroup {
        byGroup := byGroup[g := []];
      }
      byGroup := byGroup[g := byGroup[g] + [n]];
      GroupedOneMore(nodes, i, prev, byGroup);
    }
    assert nodes[..|nodes|] == nodes;
  }

  /** One step of the grouping loop keeps it equal to the groups of the
      nodes seen so far. */
  lemma GroupedOneMore(nodes: seq<Node>, i: nat, prev: map<string, seq<Node>>, next: map<string, seq<Node>>)
    requires i < |nodes|
    requires forall g :: g in prev <==> Present(nodes[..i], g)
    requires forall g | g in prev :: prev[g] == Members(nodes[..i], g)
    requires next == prev[GroupOf(nodes[i]) := (if GroupOf(nodes[i]) in prev then prev[GroupOf(nodes[i])] else []) + [nodes[i]]]
    ensures forall g :: g in next <==> Present(nodes[..i + 1], g)
    ensures forall g | g in next :: next[g] == Members(nodes[..i + 1], g)
  {
    MembersSnoc(nodes, i);
    var h := GroupOf(nodes[i]);
    forall g ensures (g in next <==> Present(nodes[..i + 1], g)) && (g in next ==> next[g] == Members(nodes[..i + 1], g)) {
      if g == h {
        assert Members(nodes[..i + 1], g) != [];
      } else {
        assert Members(nodes[..i + 1], g) == Members(nodes[..i], g);
      }
    }
  }

  /** One more node joins its own group and no other. */
  lemma MembersSnoc(nodes: seq<Node>, i: nat)
    requires i < |nodes|
    ensures Members(nodes[..i + 1], GroupOf(nodes[i])) == Members(nodes[..i], GroupOf(nodes[i])) + [nodes[i]]
    ensures forall g | g != GroupOf(nodes[i]) :: Members(nodes[..i + 1], g) == Members(nodes[..i], g)
  {
    assert nodes[..i + 1][..i] == nodes[..i];
  }

  /** `ORDER.filter(g => byGroup.has(g))`. */
  function KeptIn(order: seq<string>, keys: set<string>): seq<string> {
    if order == [] then []
    else
      var init := order[..|order| - 1];
      var last := order[|order| - 1];
      if last in keys then KeptIn(init, keys) + [last] else KeptIn(init, keys)
  }

  /** Filtering by the keys of the grouping gives the present groups. */
  lemma {:induction false} KeptInColumns(order: seq<string>, nodes: seq<Node>, keys: set<string>)
    requires forall g :: g in keys <==> Present(nodes, g)
    ensures KeptIn(order, keys) == ColumnsIn(order, nodes)
  {
    if order != [] {
      KeptInColumns(order[..|order| - 1], nodes, keys);
    }
  }

  /** The column order built from the grouping: the filtered ORDER, then
      "Outros" if it has nodes. */
  function ColumnOrder(keys: set<string>): seq<string> {
    KeptIn(ORDER, keys) + (if OTHERS in keys then [OTHERS] else [])
  }

  lemma ColumnOrderIsColumns(nodes: seq<Node>, keys: set<string>)
    requires forall g :: g in keys <==> Present(nodes, g)
    ensures ColumnOrder(keys) == Columns(nodes)
  {
    KeptInColumns(ORDER, nodes, keys);
  }

  // ---------------------------------------------------------------------
  // Relaxation

  /** One `for (const n of groupNodes)` pass of the relaxation, in place on
      `depth`; `changed` is set when some depth is set or altered. */
  method RelaxPass(gr: Group, depth0: map<string, int>) returns (depth: map<string, int>, changed: bool)
    ensures (depth, changed) == Pass(gr, gr.ns, depth0)
  {
    depth := depth0;
    changed := false;
    for j := 0 to |gr.ns|
      invariant (depth, changed) == Pass(gr, gr.ns[..j], depth0)
    {
      PassSnoc(gr, gr.ns, j, depth0, depth, changed);
      var n := gr.ns[j];
      if n.id != gr.rootId {
        var ps := PredsFor(gr.preds, n.id);
        var d := NewDepth(depth, ps, gr.gids);
        if !(n.id in depth && depth[n.id] == d) {
          depth := depth[n.id := d];
          changed := true;
        }
      }
    }
    assert gr.ns[..|gr.ns|] == gr.ns;
  }

  /** A pass over one more node: the root is skipped, any other node gets
      the depth its predecessors give it, and a new or altered depth sets
      the flag. */
  lemma PassSnoc(gr: Group, ns: seq<Node>, j: nat, depth0: map<string, int>, dj: map<string, int>, chj: bool)
    requires j < |ns| && (dj, chj) == Pass(gr, ns[..j], depth0)
    ensures ns[j].id == gr.rootId ==> Pass(gr, ns[..j + 1], depth0) == (dj, chj)
    ensures ns[j].id != gr.rootId ==>
      var d := NewDepth(dj, PredsFor(gr.preds, ns[j].id), gr.gids);
      Pass(gr, ns[..j + 1], depth0) == if ns[j].id in dj && dj[ns[j].id] == d then (dj, chj) else (dj[ns[j].id := d], true)
  {
    assert ns[..j + 1][..j] == ns[..j];
  }

  /** `while (changed && guard++ < 200)`, from the root at depth 0. */
  method RelaxGroup(gr: Group) returns (depth: map<string, int>, changed: bool, passes: nat)
    ensures (depth, changed) == Relax(gr, map[gr.rootId := 0], true, 0)
    ensures 1 <= passes <= MAX_PASSES
    ensures changed ==> passes == MAX_PASSES
  {
    depth := map[gr.rootId := 0];
    changed := true;
    passes := 0;
    while changed && passes < MAX_PASSES
      invariant passes <= MAX_PASSES
      invariant Relax(gr, depth, changed, passes) == Relax(gr, map[gr.rootId := 0], true, 0)
      invariant passes == 0 ==> changed
      decreases MAX_PASSES - passes
    {
      passes := passes + 1;
      depth, changed := RelaxPass(gr, depth);
    }
  }

  /** The `for (const g of groups)` loop: the depths and the maximum depth
      of every column. */
  method GroupDepths(nodes: seq<Node>, groups: seq<string>, byGroup: map<string, seq<Node>>,
                     preds: map<string, seq<string>>)
    returns (groupDepths: map<string, map<string, int>>, groupMaxDepth: map<string, int>)
    requires preds == PredsOf(nodes)
    requires forall j | 0 <= j < |groups| ::
      Present(nodes, groups[j]) && groups[j] in byGroup && byGroup[groups[j]] == Members(nodes, groups[j])
    ensures forall j | 0 <= j < |groups| ::
      groups[j] in groupDepths && groupDepths[groups[j]] == GroupDepth(nodes, groups[j])
    ensures forall j | 0 <= j < |groups| ::
      groups[j] in groupMaxDepth && groupMaxDepth[groups[j]] == GroupMax(nodes, groups[j])
  {
    groupDepths := map[];
    groupMaxDepth := map[];
    ghost var depths := seq(|groups|, j requires 0 <= j < |groups| => GroupDepth(nodes, groups[j]));
    ghost var maxes := seq(|groups|, j requires 0 <= j < |groups| => GroupMax(nodes, groups[j]));
    for k := 0 to |groups|
      invariant Recorded(groupDepths, groups, depths, k)
      invariant Recorded(groupMaxDepth, groups, maxes, k)
    {
      var g := groups[k];
      var depth, maxDepth := ColumnDepth(nodes, g, byGroup[g], preds);
      RecordedStep(groupDepths, groups, depths, k);
      RecordedStep(groupMaxDepth, groups, maxes, k);
      groupDepths := groupDepths[g := depth];
      groupMaxDepth := groupMaxDepth[g := maxDepth];
    }
    DepthsRecorded(nodes, groups, groupDepths, depths);
    MaxesRecorded(nodes, groups, groupMaxDepth, maxes);
  }

  lemma DepthsRecorded(nodes: seq<Node>, groups: seq<string>, groupDepths: map<string, map<string, int>>,
                       depths: seq<map<string, int>>)
    requires forall j | 0 <= j < |groups| :: Present(nodes, groups[j])
    requires depths == seq(|groups|, j requires 0 <= j < |groups| => GroupDepth(nodes, groups[j]))
    requires Recorded(groupDepths, groups, depths, |groups|)
    ensures forall j | 0 <= j < |groups| ::
      groups[j] in groupDepths && groupDepths[groups[j]] == GroupDepth(nodes, groups[j])
  {
  }

  lemma MaxesRecorded(nodes: seq<Node>, groups: seq<string>, groupMaxDepth: map<string, int>, maxes: seq<int>)
    requires forall j | 0 <= j < |groups| :: Present(nodes, groups[j])
    requires maxes == seq(|groups|, j requires 0 <= j < |groups| => GroupMax(nodes, groups[j]))
    requires Recorded(groupMaxDepth, groups, maxes, |groups|)
    ensures forall j | 0 <= j < |groups| ::
      groups[j] in groupMaxDepth && groupMaxDepth[groups[j]] == GroupMax(nodes, groups[j])
  {
  }

  /** Keys 0..k-1 of `keys` are mapped to the matching entries of `vals`. */
  ghost predicate Recorded<V>(m: map<string, V>, keys: seq<string>, vals: seq<V>, k: nat)
    requires k <= |keys| == |vals|
  {
    forall j | 0 <= j < k :: keys[j] in m && m[keys[j]] == vals[j]
  }

  /** Recording key k keeps the earlier keys when a repeated key comes with
      the same value. */
  lemma RecordedStep<V>(m: map<string, V>, keys: seq<string>, vals: seq<V>, k: nat)
    requires k < |keys| == |vals| && Recorded(m, keys, vals, k)
    requires forall j | 0 <= j < k && keys[j] == keys[k] :: vals[j] == vals[k]
    ensures Recorded(m[keys[k] := vals[k]], keys, vals, k + 1)
  {
  }

  /** The body of the `for (const g of groups)` loop: the root is the first
      principle node, else the first node; the group is relaxed from it;
      the maximum is taken over the depths found. */
  method ColumnDepth(nodes: seq<Node>, g: string, groupNodes: seq<Node>, preds: map<string, seq<string>>)
    returns (depth: map<string, int>, maxDepth: int)
    requires Present(nodes, g) && groupNodes == Members(nodes, g) && preds == PredsOf(nodes)
    ensures depth == GroupDepth(nodes, g) && maxDepth == GroupMax(nodes, g)
  {
    var root := RootOf(groupNodes);
    var gr := Group(groupNodes, root.id, IdsOf(groupNodes), preds);
    var changed, passes;
    depth, changed, passes := RelaxGroup(gr);
    maxDepth := MaxDepth(depth, gr.gids);
  }

  // ---------------------------------------------------------------------
  // Placement

  /** The `rows` object of one group: its nodes by shifted depth, in order. */
  method BuildRows(members: seq<Node>, depth: map<string, int>, off: int) returns (rows: map<int, seq<Node>>)
    ensures forall d :: d in rows <==> RowOf(members, depth, off, d) != []
    ensures forall d | d in rows :: rows[d] == RowOf(members, depth, off, d)
  {
    rows := map[];
    for j := 0 to |members|
      invariant forall d :: d in rows <==> RowOf(members[..j], depth, off, d) != []
      invariant forall d | d in rows :: rows[d] == RowOf(members[..j], depth, off, d)
    {
      assert members[..j + 1][..j] == members[..j];
      var n := members[j];
      var d := DepthAt(depth, n.id) + off;
      if d !in rows {
        rows := rows[d := []];
      }
      rows := rows[d := rows[d] + [n]];
    }
    assert members[..|members|] == members;
  }

  /** The ids of the first i nodes of a row. */
  function IdsUpTo(row: seq<Node>, i: nat): set<string>
    requires i <= |row|
  {
    set j | 0 <= j < i :: row[j].id
  }

  /** No node after slot j and before slot i has the id of slot j. */
  predicate LastBefore(row: seq<Node>, j: nat, i: nat)
    requires j < i <= |row|
  {
    forall l | j < l < i :: row[l].id != row[j].id
  }

  lemma IdsUpToStep(row: seq<Node>, i: nat)
    requires i < |row|
    ensures IdsUpTo(row, i + 1) == IdsUpTo(row, i) + {row[i].id}
  {
    forall k | k in IdsUpTo(row, i + 1) ensures k in IdsUpTo(row, i) + {row[i].id} {
      var j :| 0 <= j < i + 1 && row[j].id == k;
      if j < i {
        assert k in IdsUpTo(row, i);
      }
    }
  }

  lemma IdsUpToAll(row: seq<Node>)
    ensures IdsUpTo(row, |row|) == IdSet(row)
  {
    forall k | k in IdSet(row) ensures k in IdsUpTo(row, |row|) {
      var m :| m in row && m.id == k;
      var j :| 0 <= j < |row| && row[j] == m;
    }
  }

  /** The `for (let i = 0; i < count; i++)` loop over one row: slot i is set
      at x = colCenterX + slot offset and y = (d + 1) * yGap; a later node
      with the same id overwrites an earlier one. */
  method PlaceRow(positions: map<string, Pos>, row: seq<Node>, colCenterX: real, span: real,
                  yGap: real, d: int)
    returns (placed: map<string, Pos>)
    ensures placed.Keys == positions.Keys + IdSet(row)
    ensures forall k | k in positions && k !in IdSet(row) :: placed[k] == positions[k]
    ensures forall i | 0 <= i < |row| && LastWithId(row, i) ::
      placed[row[i].id] == Pos(colCenterX + SlotX(i, |row|, span), (d + 1) as real * yGap)
  {
    placed := positions;
    var count := |row|;
    for i := 0 to count
      invariant RowUpTo(positions, placed, row, colCenterX, span, yGap, d, i)
    {
      var x := colCenterX + SlotX(i, count, span);
      var y := (d + 1) as real * yGap;
      ghost var prev := placed;
      placed := placed[row[i].id := Pos(x, y)];
      RowUpToStep(positions, prev, placed, row, colCenterX, span, yGap, d, i, Pos(x, y));
    }
    RowUpToEnd(positions, placed, row, colCenterX, span, yGap, d);
  }

  /** The position of slot i of a row of `count` nodes at depth d. */
  function SlotPos(colCenterX: real, span: real, yGap: real, d: int, i: nat, count: nat): Pos {
    Pos(colCenterX + SlotX(i, count, span), (d + 1) as real * yGap)
  }

  /** The row loop after slots 0..i-1: their ids are placed, other ids kept,
      and each slot not overwritten later so far holds its own position. */
  ghost predicate RowUpTo(positions: map<string, Pos>, placed: map<string, Pos>, row: seq<Node>,
                          colCenterX: real, span: real, yGap: real, d: int, i: nat)
  {
    && i <= |row|
    && placed.Keys == positions.Keys + IdsUpTo(row, i)
    && (forall k | k in positions && k !in IdsUpTo(row, i) :: placed[k] == positions[k])
    && RowSlots(placed, row, colCenterX, span, yGap, d, i)
  }

  ghost predicate RowSlots(placed: map<string, Pos>, row: seq<Node>,
                           colCenterX: real, span: real, yGap: real, d: int, i: nat)
    requires i <= |row|
  {
    forall j | 0 <= j < i && LastBefore(row, j, i) ::
      row[j].id in placed && placed[row[j].id] == SlotPos(colCenterX, span, yGap, d, j, |row|)
  }

  lemma RowUpToStep(positions: map<string, Pos>, prev: map<string, Pos>, placed: map<string, Pos>,
                    row: seq<Node>, colCenterX: real, span: real, yGap: real, d: int, i: nat, p: Pos)
    requires i < |row| && RowUpTo(positions, prev, row, colCenterX, span, yGap, d, i)
    requires p == SlotPos(colCenterX, span, yGap, d, i, |row|) && placed == prev[row[i].id := p]
    ensures RowUpTo(positions, placed, row, colCenterX, span, yGap, d, i + 1)
  {
    IdsUpToStep(row, i);
    RowSlotsStep(prev, placed, row, colCenterX, span, yGap, d, i, p);
  }

  lemma RowSlotsStep(prev: map<string, Pos>, placed: map<string, Pos>,
                     row: seq<Node>, colCenterX: real, span: real, yGap: real, d: int, i: nat, p: Pos)
    requires i < |row| && RowSlots(prev, row, colCenterX, span, yGap, d, i)
    requires p == SlotPos(colCenterX, span, yGap, d, i, |row|) && placed == prev[row[i].id := p]
    ensures RowSlots(placed, row, colCenterX, span, yGap, d, i + 1)
  {
    forall j | 0 <= j < i + 1 && LastBefore(row, j, i + 1)
      ensures row[j].id in placed && placed[row[j].id] == SlotPos(colCenterX, span, yGap, d, j, |row|)
    {
      if j < i {
        assert row[i].id != row[j].id;
        assert LastBefore(row, j, i);
      }
    }
  }

  lemma RowUpToEnd(positions: map<string, Pos>, placed: map<string, Pos>, row: seq<Node>,
                   colCenterX: real, span: real, yGap: real, d: int)
    requires RowUpTo(positions, placed, row, colCenterX, span, yGap, d, |row|)
    ensures placed.Keys == positions.Keys + IdSet(row)
    ensures forall k | k in positions && k !in IdSet(row) :: placed[k] == positions[k]
    ensures forall i | 0 <= i < |row| && LastWithId(row, i) ::
      placed[row[i].id] == Pos(colCenterX + SlotX(i, |row|, span), (d + 1) as real * yGap)
  {
    IdsUpToAll(row);
    forall i | 0 <= i < |row| && LastWithId(row, i)
      ensures placed[row[i].id] == Pos(colCenterX + SlotX(i, |row|, span), (d + 1) as real * yGap)
    {
      assert LastBefore(row, i, |row|);
    }
  }

  /** Where `compute` puts a member of a group, from that group's data: the
      slot of its id in its bucket, in column gi, on the band of its row. */
  function BucketPos(members: seq<Node>, depth: map<string, int>, off: int, gi: nat, colW: real,
                     yGap: real, m: Node): Pos
  {
    var r := DepthAt(depth, m.id) + off;
    var row := RowOf(members, depth, off, r);
    Pos(SlotCentre(gi, colW, IdIndex(row, m.id), |row|), (r + 1) as real * yGap)
  }

  /** The ids of the members whose shifted depth is below d: the rows
      placed so far. */
  function Below(members: seq<Node>, depth: map<string, int>, off: int, d: int): set<string> {
    set m | m in members && DepthAt(depth, m.id) + off < d :: m.id
  }

  lemma BelowStep(members: seq<Node>, depth: map<string, int>, off: int, d: int)
    ensures Below(members, depth, off, d + 1) == Below(members, depth, off, d) + IdSet(RowOf(members, depth, off, d))
    ensures IdSet(RowOf(members, depth, off, d)) <= IdSet(members)
  {
    var row := RowOf(members, depth, off, d);
    RowOfMembers(members, depth, off, d);
    forall k | k in Below(members, depth, off, d + 1)
      ensures k in Below(members, depth, off, d) + IdSet(row)
    {
      var m :| m in members && DepthAt(depth, m.id) + off < d + 1 && m.id == k;
      if DepthAt(depth, m.id) + off == d {
        assert m in row;
      }
    }
    forall k | k in IdSet(row) ensures k in Below(members, depth, off, d + 1) && k in IdSet(members) {
      var m :| m in row && m.id == k;
    }
  }

  /** With non-negative depths, no row lies above off. */
  lemma BelowNone(members: seq<Node>, depth: map<string, int>, off: int)
    requires forall m | m in members :: 0 <= DepthAt(depth, m.id)
    ensures Below(members, depth, off, off) == {}
  {
  }

  /** With the depths at most gmax, every row lies above off + gmax + 1. */
  lemma BelowAll(members: seq<Node>, depth: map<string, int>, off: int, gmax: int)
    requires forall m | m in members :: DepthAt(depth, m.id) <= gmax
    ensures Below(members, depth, off, off + gmax + 1) == IdSet(members)
  {
  }

  /** With distinct ids, each member whose shifted depth is below d has
      the slot of its bucket. */
  ghost predicate SlotsUpTo(placed: map<string, Pos>, members: seq<Node>, depth: map<string, int>,
                            off: int, gi: nat, colW: real, yGap: real, d: int)
  {
    DistinctIds(members) ==>
      forall m | m in members && DepthAt(depth, m.id) + off < d ::
        m.id in placed && placed[m.id] == BucketPos(members, depth, off, gi, colW, yGap, m)
  }

  /** Placing row d of a group puts each of its nodes in its own slot and
      leaves the rows above as they were. */
  lemma RowPlaced(members: seq<Node>, depth: map<string, int>, off: int, gi: nat, colW: real,
                  colCenterX: real, span: real, yGap: real,
                  d: int, row: seq<Node>, before: map<string, Pos>, after: map<string, Pos>)
    requires colCenterX == gi as real * colW + colW * 0.5 && span == colW * 0.65
    requires row == RowOf(members, depth, off, d)
    requires SlotsUpTo(before, members, depth, off, gi, colW, yGap, d)
    requires after.Keys == before.Keys + IdSet(row)
    requires forall k | k in before && k !in IdSet(row) :: after[k] == before[k]
    requires forall i | 0 <= i < |row| && LastWithId(row, i) ::
      after[row[i].id] == Pos(colCenterX + SlotX(i, |row|, span), (d + 1) as real * yGap)
    ensures SlotsUpTo(after, members, depth, off, gi, colW, yGap, d + 1)
  {
    if DistinctIds(members) {
      RowSlotsPlaced(members, depth, off, gi, colW, colCenterX, span, yGap, d, row, after);
      RowKeepsAbove(members, depth, off, d, row);
    }
  }

  /** Once every row is placed, every member has its slot. */
  lemma SlotsAll(placed: map<string, Pos>, members: seq<Node>, depth: map<string, int>,
                 off: int, gi: nat, colW: real, yGap: real, gmax: int)
    requires forall m | m in members :: DepthAt(depth, m.id) <= gmax
    requires SlotsUpTo(placed, members, depth, off, gi, colW, yGap, off + gmax + 1)
    ensures DistinctIds(members) ==>
      forall m | m in members :: m.id in placed && placed[m.id] == BucketPos(members, depth, off, gi, colW, yGap, m)
  {
  }

  /** A depth with no row adds no slot. */
  lemma SlotsSkip(placed: map<string, Pos>, members: seq<Node>, depth: map<string, int>,
                  off: int, gi: nat, colW: real, yGap: real, d: int)
    requires RowOf(members, depth, off, d) == []
    requires SlotsUpTo(placed, members, depth, off, gi, colW, yGap, d)
    ensures SlotsUpTo(placed, members, depth, off, gi, colW, yGap, d + 1)
  {
    RowOfMembers(members, depth, off, d);
  }

  /** Each node of row d gets the slot of its id. */
  lemma RowSlotsPlaced(members: seq<Node>, depth: map<string, int>, off: int, gi: nat, colW: real,
                       colCenterX: real, span: real, yGap: real,
                       d: int, row: seq<Node>, after: map<string, Pos>)
    requires colCenterX == gi as real * colW + colW * 0.5 && span == colW * 0.65
    requires DistinctIds(members) && row == RowOf(members, depth, off, d)
    requires IdSet(row) <= after.Keys
    requires forall i | 0 <= i < |row| && LastWithId(row, i) ::
      after[row[i].id] == Pos(colCenterX + SlotX(i, |row|, span), (d + 1) as real * yGap)
    ensures forall m | m in members && DepthAt(depth, m.id) + off == d ::
      m.id in after && after[m.id] == BucketPos(members, depth, off, gi, colW, yGap, m)
  {
    RowDistinctIds(members, depth, off, d);
    RowOfMembers(members, depth, off, d);
    forall m | m in members && DepthAt(depth, m.id) + off == d
      ensures m.id in after && after[m.id] == BucketPos(members, depth, off, gi, colW, yGap, m)
    {
      var i :| 0 <= i < |row| && row[i] == m;
      SlotPlaced(members, depth, off, gi, colW, colCenterX, span, yGap, d, row, after, i);
    }
  }

  /** The node in slot i of row d gets that slot. */
  lemma SlotPlaced(members: seq<Node>, depth: map<string, int>, off: int, gi: nat, colW: real,
                   colCenterX: real, span: real, yGap: real,
                   d: int, row: seq<Node>, after: map<string, Pos>, i: nat)
    requires colCenterX == gi as real * colW + colW * 0.5 && span == colW * 0.65
    requires DistinctIds(row) && row == RowOf(members, depth, off, d) && i < |row|
    requires DepthAt(depth, row[i].id) + off == d
    requires IdSet(row) <= after.Keys
    requires LastWithId(row, i) ==>
      row[i].id in after &&
      after[row[i].id] == Pos(colCenterX + SlotX(i, |row|, span), (d + 1) as real * yGap)
    ensures row[i].id in after && after[row[i].id] == BucketPos(members, depth, off, gi, colW, yGap, row[i])
  {
    IdIndexDistinct(row, i);
    BucketPosAt(members, depth, off, gi, colW, yGap, row[i], d);
    SlotCentreAt(gi, colW, i, |row|);
  }

  /** No node of an earlier row shares an id with row d. */
  lemma RowKeepsAbove(members: seq<Node>, depth: map<string, int>, off: int, d: int, row: seq<Node>)
    requires DistinctIds(members) && row == RowOf(members, depth, off, d)
    ensures forall m | m in members && DepthAt(depth, m.id) + off < d :: m.id !in IdSet(row)
  {
    RowOfMembers(members, depth, off, d);
    forall m | m in members && DepthAt(depth, m.id) + off < d ensures m.id !in IdSet(row) {
      forall m' | m' in row ensures m'.id != m.id {
        if m'.id == m.id {
          SameIdSameNode(members, m, m');
        }
      }
    }
  }

  lemma SlotCentreAt(gi: nat, colW: real, i: nat, count: nat)
    ensures SlotCentre(gi, colW, i, count) == gi as real * colW + colW * 0.5 + SlotX(i, count, colW * 0.65)
  {
  }

  lemma BucketPosAt(members: seq<Node>, depth: map<string, int>, off: int, gi: nat, colW: real,
                    yGap: real, m: Node, d: int)
    requires DepthAt(depth, m.id) + off == d
    ensures BucketPos(members, depth, off, gi, colW, yGap, m)
         == Pos(SlotCentre(gi, colW, IdIndex(RowOf(members, depth, off, d), m.id), |RowOf(members, depth, off, d)|),
                (d + 1) as real * yGap)
  {
    var r := DepthAt(depth, m.id) + off;
    assert RowOf(members, depth, off, r) == RowOf(members, depth, off, d);
  }

  /** Placing row d adds its ids to those of the rows above it. */
  lemma KeysStep(positions: map<string, Pos>, before: map<string, Pos>, after: map<string, Pos>,
                 members: seq<Node>, depth: map<string, int>, off: int, d: int, row: seq<Node>)
    requires row == RowOf(members, depth, off, d)
    requires before.Keys == positions.Keys + Below(members, depth, off, d)
    requires after.Keys == before.Keys + IdSet(row)
    ensures after.Keys == positions.Keys + Below(members, depth, off, d + 1)
  {
    BelowStep(members, depth, off, d);
  }

  /** A depth with no row adds no id. */
  lemma KeysSkip(positions: map<string, Pos>, placed: map<string, Pos>,
                 members: seq<Node>, depth: map<string, int>, off: int, d: int)
    requires RowOf(members, depth, off, d) == []
    requires placed.Keys == positions.Keys + Below(members, depth, off, d)
    ensures placed.Keys == positions.Keys + Below(members, depth, off, d + 1)
  {
    BelowStep(members, depth, off, d);
  }

  /** Placing a row of the group leaves the ids outside the group alone. */
  lemma KeptStep(positions: map<string, Pos>, before: map<string, Pos>, after: map<string, Pos>,
                 members: seq<Node>, depth: map<string, int>, off: int, d: int, row: seq<Node>)
    requires row == RowOf(members, depth, off, d)
    requires forall k | k in positions && k !in IdSet(members) :: k in before && before[k] == positions[k]
    requires after.Keys == before.Keys + IdSet(row)
    requires forall k | k in before && k !in IdSet(row) :: after[k] == before[k]
    ensures forall k | k in positions && k !in IdSet(members) :: k in after && after[k] == positions[k]
  {
    BelowStep(members, depth, off, d);
  }

  /** One group placed over `positions`: its ids are added, every other id
      keeps its position, and with distinct ids each member has the slot
      of its id in its bucket. */
  ghost predicate GroupPlaced(positions: map<string, Pos>, placed: map<string, Pos>, members: seq<Node>,
                              depth: map<string, int>, off: int, gi: nat, colW: real, yGap: real)
  {
    && placed.Keys == positions.Keys + IdSet(members)
    && (forall k | k in positions && k !in IdSet(members) :: placed[k] == positions[k])
    && (DistinctIds(members) ==>
          forall m | m in members :: placed[m.id] == BucketPos(members, depth, off, gi, colW, yGap, m))
  }

  /** The body of `groups.forEach((g, gi) => ...)` for one group: its rows
      visited in ascending order (the shifted depths lie in
      [off, off + gmax]); ids outside the group keep their positions. */
  method PlaceGroup(positions: map<string, Pos>, members: seq<Node>, depth: map<string, int>,
                    off: int, gmax: int, gi: nat, colW: real, yGap: real)
    returns (placed: map<string, Pos>)
    requires gmax >= 0
    requires forall m | m in members :: 0 <= DepthAt(depth, m.id) <= gmax
    ensures GroupPlaced(positions, placed, members, depth, off, gi, colW, yGap)
  {
    var colCenterX := gi as real * colW + colW * 0.5;
    var span := colW * 0.65;
    var rows := BuildRows(members, depth, off);
    placed := positions;
    PlacedStart(positions, members, depth, off, gi, colW, yGap);
    var d := off;
    while d <= off + gmax
      invariant off <= d <= off + gmax + 1
      invariant PlacedUpTo(positions, placed, members, depth, off, gi, colW, yGap, d)
    {
      placed := PlaceDepth(positions, placed, members, depth, off, gi, colW, colCenterX, span, yGap, rows, d);
      d := d + 1;
    }
    PlacedEnd(positions, placed, members, depth, off, gi, colW, yGap, gmax);
  }

  /** After the rows above d are placed: exactly the ids of those rows are
      added, every other id keeps its position, and (with distinct ids)
      each node of those rows has its bucket slot. */
  ghost predicate PlacedUpTo(positions: map<string, Pos>, placed: map<string, Pos>, members: seq<Node>,
                             depth: map<string, int>, off: int, gi: nat, colW: real, yGap: real, d: int)
  {
    && placed.Keys == positions.Keys + Below(members, depth, off, d)
    && (forall k | k in positions && k !in IdSet(members) :: k in placed && placed[k] == positions[k])
    && SlotsUpTo(placed, members, depth, off, gi, colW, yGap, d)
  }

  /** Nothing is placed before the first row. */
  lemma PlacedStart(positions: map<string, Pos>, members: seq<Node>, depth: map<string, int>,
                    off: int, gi: nat, colW: real, yGap: real)
    requires forall m | m in members :: 0 <= DepthAt(depth, m.id)
    ensures PlacedUpTo(positions, positions, members, depth, off, gi, colW, yGap, off)
  {
    BelowNone(members, depth, off);
  }

  /** After the last row every member is placed. */
  lemma PlacedEnd(positions: map<string, Pos>, placed: map<string, Pos>, members: seq<Node>,
                  depth: map<string, int>, off: int, gi: nat, colW: real, yGap: real, gmax: int)
    requires forall m | m in members :: DepthAt(depth, m.id) <= gmax
    requires PlacedUpTo(positions, placed, members, depth, off, gi, colW, yGap, off + gmax + 1)
    ensures GroupPlaced(positions, placed, members, depth, off, gi, colW, yGap)
  {
    BelowAll(members, depth, off, gmax);
    SlotsAll(placed, members, depth, off, gi, colW, yGap, gmax);
  }

  /** The callback of `Object.keys(rows).sort(...).forEach` for depth d:
      the row at d, if there is one, is placed. */
  method PlaceDepth(ghost positions: map<string, Pos>, placed0: map<string, Pos>, members: seq<Node>,
                    depth: map<string, int>, off: int, gi: nat, colW: real, colCenterX: real, span: real,
                    yGap: real, rows: map<int, seq<Node>>, d: int)
    returns (placed: map<string, Pos>)
    requires colCenterX == gi as real * colW + colW * 0.5 && span == colW * 0.65
    requires d in rows <==> RowOf(members, depth, off, d) != []
    requires d in rows ==> rows[d] == RowOf(members, depth, off, d)
    requires PlacedUpTo(positions, placed0, members, depth, off, gi, colW, yGap, d)
    ensures PlacedUpTo(positions, placed, members, depth, off, gi, colW, yGap, d + 1)
  {
    placed := placed0;
    if d in rows {
      var row := rows[d];
      placed := PlaceRow(placed, row, colCenterX, span, yGap, d);
      KeysStep(positions, placed0, placed, members, depth, off, d, row);
      KeptStep(positions, placed0, placed, members, depth, off, d, row);
      RowPlaced(members, depth, off, gi, colW, colCenterX, span, yGap, d, row, placed0, placed);
    } else {
      KeysSkip(positions, placed, members, depth, off, d);
      SlotsSkip(placed, members, depth, off, gi, colW, yGap, d);
    }
  }

  // ---------------------------------------------------------------------
  // The whole layout

  lemma {:induction false} BasicMaxOfAgree(gs: seq<string>, gm1: map<string, int>, gm2: map<string, int>)
    requires forall j | 0 <= j < |gs| :: MaxAt(gm1, gs[j]) == MaxAt(gm2, gs[j])
    ensures BasicMaxOf(gs, gm1) == BasicMaxOf(gs, gm2)
  {
    if gs != [] {
      var init := gs[..|gs| - 1];
      assert forall j | 0 <= j < |init| :: init[j] == gs[j];
      BasicMaxOfAgree(init, gm1, gm2);
    }
  }

  lemma {:induction false} GlobalMaxOfAgree(gs: seq<string>, gm1: map<string, int>, gm2: map<string, int>, b: int)
    requires forall j | 0 <= j < |gs| :: MaxAt(gm1, gs[j]) == MaxAt(gm2, gs[j])
    ensures GlobalMaxOf(gs, gm1, b) == GlobalMaxOf(gs, gm2, b)
  {
    if gs != [] {
      var init := gs[..|gs| - 1];
      assert forall j | 0 <= j < |init| :: init[j] == gs[j];
      GlobalMaxOfAgree(init, gm1, gm2, b);
    }
  }

  /** `basicMax` and `globalMaxDepth`, computed from the maxima found by the
      loop, are those of the layout. */
  lemma ComputedMaxes(nodes: seq<Node>, groups: seq<string>, gm: map<string, int>)
    requires groups == Columns(nodes)
    requires forall j | 0 <= j < |groups| :: groups[j] in gm && gm[groups[j]] == GroupMax(nodes, groups[j])
    ensures BasicMaxOf(groups, gm) == BasicMax(nodes)
    ensures GlobalMaxOf(groups, gm, BasicMaxOf(groups, gm)) == GlobalMax(nodes)
  {
    forall j | 0 <= j < |groups| ensures MaxAt(gm, groups[j]) == MaxAt(GroupMaxes(nodes), groups[j]) {
      assert groups[j] in Columns(nodes);
    }
    BasicMaxOfAgree(groups, gm, GroupMaxes(nodes));
    GlobalMaxOfAgree(groups, gm, GroupMaxes(nodes), BasicMax(nodes));
  }

  /** The depths of a column lie between 0 and its maximum. */
  lemma GroupBounds(nodes: seq<Node>, g: string)
    requires Present(nodes, g)
    ensures GroupMax(nodes, g) >= 0
    ensures forall m | m in Members(nodes, g) :: 0 <= DepthAt(GroupDepth(nodes, g), m.id) <= GroupMax(nodes, g)
  {
    GroupMaxBounds(nodes, g);
    forall m | m in Members(nodes, g) ensures 0 <= DepthAt(GroupDepth(nodes, g), m.id) <= GroupMax(nodes, g) {
      DepthWithinGroup(nodes, m);
    }
  }

  /** The ids of the nodes whose group is one of the first gi columns. */
  function IdsOfColumns(nodes: seq<Node>, groups: seq<string>, gi: nat): set<string> {
    set n | n in nodes && IndexIn(groups, GroupOf(n)) < gi :: n.id
  }

  /** After the first gi columns: exactly their ids are placed, and with
      distinct ids each of their nodes has its `PosOf`. */
  ghost predicate ComputedUpTo(nodes: seq<Node>, width: real, height: real, groups: seq<string>,
                               positions: map<string, Pos>, gi: nat)
  {
    && positions.Keys == IdsOfColumns(nodes, groups, gi)
    && (DistinctIds(nodes) ==>
          forall n | n in nodes && IndexIn(groups, GroupOf(n)) < gi ::
            n.id in positions && positions[n.id] == PosOf(nodes, width, height, n))
  }

  lemma ComputedNone(nodes: seq<Node>, width: real, height: real, groups: seq<string>)
    ensures ComputedUpTo(nodes, width, height, groups, map[], 0)
  {
  }

  /** Where a group's placement puts a node is the node's `PosOf`. */
  lemma BucketIsPosOf(nodes: seq<Node>, width: real, height: real, n: Node, r: int)
    requires n in nodes && r == Row(nodes, n)
    ensures Present(nodes, GroupOf(n))
    ensures BucketPos(Members(nodes, GroupOf(n)), GroupDepth(nodes, GroupOf(n)), Offset(nodes, GroupOf(n)),
                      IndexIn(Columns(nodes), GroupOf(n)), ColW(nodes, width),
                      Gap(GlobalMax(nodes), height), n)
         == PosOf(nodes, width, height, n)
  {
    MemberPresent(nodes, n);
    var g := GroupOf(n);
    var members, depth, off := Members(nodes, g), GroupDepth(nodes, g), Offset(nodes, g);
    var gi, colW := IndexIn(Columns(nodes), g), ColW(nodes, width);
    var gm := GlobalMax(nodes);
    var yGap := Gap(gm, height);
    BucketIsSlot(members, depth, off, gi, colW, n, r, gm, height);
    XIsSlot(nodes, width, n, r);
    var x := SlotCentre(gi, colW, IdIndex(RowOf(members, depth, off, r), n.id), |RowOf(members, depth, off, r)|);
    PosOfIs(nodes, width, height, n, x, BandY(r, gm, height));
    assert BucketPos(members, depth, off, gi, colW, yGap, n) == Pos(x, BandY(r, gm, height));
  }

  /** The x of a node is the slot of its id in the row r of its group. */
  lemma XIsSlot(nodes: seq<Node>, width: real, n: Node, r: int)
    requires n in nodes && r == Row(nodes, n)
    ensures X(nodes, width, n)
         == SlotCentre(IndexIn(Columns(nodes), GroupOf(n)), ColW(nodes, width),
                       IdIndex(RowOf(Members(nodes, GroupOf(n)), GroupDepth(nodes, GroupOf(n)), Offset(nodes, GroupOf(n)), r), n.id),
                       |RowOf(Members(nodes, GroupOf(n)), GroupDepth(nodes, GroupOf(n)), Offset(nodes, GroupOf(n)), r)|)
  {
  }

  /** A bucket position is the slot of the node in its row, on the band of
      that row. */
  lemma BucketIsSlot(members: seq<Node>, depth: map<string, int>, off: int, gi: nat, colW: real,
                     n: Node, r: int, g: int, height: real)
    requires r == DepthAt(depth, n.id) + off && g >= 0
    ensures BucketPos(members, depth, off, gi, colW, Gap(g, height), n)
         == Pos(SlotCentre(gi, colW, IdIndex(RowOf(members, depth, off, r), n.id), |RowOf(members, depth, off, r)|),
                BandY(r, g, height))
  {
    BucketPosAt(members, depth, off, gi, colW, Gap(g, height), n, r);
    BandYIs(r, g, height, Gap(g, height));
  }

  lemma BandYIs(r: int, g: int, height: real, yGap: real)
    requires g >= 0 && yGap == Gap(g, height)
    ensures BandY(r, g, height) == (r + 1) as real * yGap
  {
  }

  /** Column gi is group g, and the data its placement is given are that
      group's members, depths and offset, `colW` and `yGap`. */
  ghost predicate ColumnData(nodes: seq<Node>, width: real, height: real, gi: nat, g: string,
                             members: seq<Node>, depth: map<string, int>, off: int, colW: real, yGap: real)
  {
    && gi < |Columns(nodes)| && g == Columns(nodes)[gi] && Present(nodes, g)
    && members == Members(nodes, g) && depth == GroupDepth(nodes, g) && off == Offset(nodes, g)
    && colW == ColW(nodes, width) && GlobalMax(nodes) >= 0 && yGap == Gap(GlobalMax(nodes), height)
  }

  /** The nodes of column gi get their `PosOf`. */
  lemma ColumnNodePlaced(nodes: seq<Node>, width: real, height: real, gi: nat, g: string,
                         before: map<string, Pos>, after: map<string, Pos>, members: seq<Node>,
                         depth: map<string, int>, off: int, colW: real, yGap: real, n: Node)
    requires DistinctIds(nodes) && ColumnData(nodes, width, height, gi, g, members, depth, off, colW, yGap)
    requires n in nodes && IndexIn(Columns(nodes), GroupOf(n)) == gi
    requires GroupPlaced(before, after, members, depth, off, gi, colW, yGap)
    ensures n.id in after && after[n.id] == PosOf(nodes, width, height, n)
  {
    MembersDistinctIds(nodes, g);
    ColumnsDistinct(nodes);
    IndexInDistinct(Columns(nodes), gi);
    BucketIsPosOf(nodes, width, height, n, Row(nodes, n));
    assert n.id in IdSet(members);
  }

  /** The nodes of the earlier columns keep their positions. */
  lemma EarlierNodeKept(nodes: seq<Node>, groups: seq<string>, gi: nat, g: string, members: seq<Node>,
                        before: map<string, Pos>, after: map<string, Pos>, n: Node)
    requires DistinctIds(nodes) && Distinct(groups) && gi < |groups| && g == groups[gi]
    requires forall m | m in members :: m in nodes && GroupOf(m) == g
    requires n in nodes && IndexIn(groups, GroupOf(n)) < gi && n.id in before
    requires after.Keys == before.Keys + IdSet(members)
    requires forall k | k in before && k !in IdSet(members) :: after[k] == before[k]
    ensures n.id in after && after[n.id] == before[n.id]
  {
    IndexInDistinct(groups, gi);
    forall m | m in members ensures m.id != n.id {
      if m.id == n.id {
        SameIdSameNode(nodes, m, n);
      }
    }
  }

  /** The keys after column gi are those of the columns before it and its
      own nodes. */
  lemma IdsOfColumnsStep(nodes: seq<Node>, gi: nat)
    requires gi < |Columns(nodes)|
    ensures Present(nodes, Columns(nodes)[gi])
    ensures IdsOfColumns(nodes, Columns(nodes), gi + 1)
         == IdsOfColumns(nodes, Columns(nodes), gi) + IdSet(Members(nodes, Columns(nodes)[gi]))
  {
    var groups := Columns(nodes);
    var g := groups[gi];
    assert g in groups;
    ColumnsDistinct(nodes);
    IndexInDistinct(groups, gi);
    IdsOfColumnsGrow(nodes, groups, gi, Members(nodes, g));
  }

  /** Column gi's ids are those of its members: the nodes whose group sits
      at index gi. */
  lemma IdsOfColumnsGrow(nodes: seq<Node>, groups: seq<string>, gi: nat, members: seq<Node>)
    requires gi < |groups| && IndexIn(groups, groups[gi]) == gi && members == Members(nodes, groups[gi])
    ensures IdsOfColumns(nodes, groups, gi + 1) == IdsOfColumns(nodes, groups, gi) + IdSet(members)
  {
    forall k | k in IdsOfColumns(nodes, groups, gi + 1)
      ensures k in IdsOfColumns(nodes, groups, gi) + IdSet(members)
    {
      var n :| n in nodes && IndexIn(groups, GroupOf(n)) < gi + 1 && n.id == k;
      if IndexIn(groups, GroupOf(n)) == gi {
        assert n in members;
      }
    }
    forall k | k in IdSet(members) ensures k in IdsOfColumns(nodes, groups, gi + 1) {
      var m :| m in members && m.id == k;
    }
  }

  /** Placing column gi extends the layout by that column. */
  lemma PlacedGroup(nodes: seq<Node>, width: real, height: real, gi: nat, g: string,
                    before: map<string, Pos>, after: map<string, Pos>, members: seq<Node>,
                    depth: map<string, int>, off: int, colW: real, yGap: real)
    requires ColumnData(nodes, width, height, gi, g, members, depth, off, colW, yGap)
    requires ComputedUpTo(nodes, width, height, Columns(nodes), before, gi)
    requires GroupPlaced(before, after, members, depth, off, gi, colW, yGap)
    ensures ComputedUpTo(nodes, width, height, Columns(nodes), after, gi + 1)
  {
    IdsOfColumnsStep(nodes, gi);
    if DistinctIds(nodes) {
      ColumnPlaced(nodes, width, height, gi, g, before, after, members, depth, off, colW, yGap);
      EarlierKept(nodes, width, height, gi, g, before, after, members);
    }
  }

  /** The nodes of column gi get their `PosOf`. */
  lemma ColumnPlaced(nodes: seq<Node>, width: real, height: real, gi: nat, g: string,
                     before: map<string, Pos>, after: map<string, Pos>, members: seq<Node>,
                     depth: map<string, int>, off: int, colW: real, yGap: real)
    requires DistinctIds(nodes) && ColumnData(nodes, width, height, gi, g, members, depth, off, colW, yGap)
    requires GroupPlaced(before, after, members, depth, off, gi, colW, yGap)
    ensures forall n | n in nodes && IndexIn(Columns(nodes), GroupOf(n)) == gi ::
      n.id in after && after[n.id] == PosOf(nodes, width, height, n)
  {
    forall n | n in nodes && IndexIn(Columns(nodes), GroupOf(n)) == gi
      ensures n.id in after && after[n.id] == PosOf(nodes, width, height, n)
    {
      ColumnNodePlaced(nodes, width, height, gi, g, before, after, members, depth, off, colW, yGap, n);
    }
  }

  /** The nodes of the columns before gi keep their `PosOf`. */
  lemma EarlierKept(nodes: seq<Node>, width: real, height: real, gi: nat, g: string,
                    before: map<string, Pos>, after: map<string, Pos>, members: seq<Node>)
    requires DistinctIds(nodes) && gi < |Columns(nodes)| && g == Columns(nodes)[gi]
    requires members == Members(nodes, g)
    requires ComputedUpTo(nodes, width, height, Columns(nodes), before, gi)
    requires after.Keys == before.Keys + IdSet(members)
    requires forall k | k in before && k !in IdSet(members) :: after[k] == before[k]
    ensures forall n | n in nodes && IndexIn(Columns(nodes), GroupOf(n)) < gi ::
      n.id in after && after[n.id] == PosOf(nodes, width, height, n)
  {
    ColumnsDistinct(nodes);
    forall n | n in nodes && IndexIn(Columns(nodes), GroupOf(n)) < gi
      ensures n.id in after && after[n.id] == PosOf(nodes, width, height, n)
    {
      EarlierNodeKept(nodes, Columns(nodes), gi, g, members, before, after, n);
    }
  }

  /** After the last column every node is placed. */
  lemma ComputedAll(nodes: seq<Node>, width: real, height: real, positions: map<string, Pos>)
    requires ComputedUpTo(nodes, width, height, Columns(nodes), positions, |Columns(nodes)|)
    ensures positions.Keys == IdSet(nodes)
    ensures DistinctIds(nodes) ==> forall n | n in nodes :: positions[n.id] == PosOf(nodes, width, height, n)
  {
    forall n | n in nodes ensures IndexIn(Columns(nodes), GroupOf(n)) < |Columns(nodes)| {
      HasColumn(nodes, n);
    }
  }

  /** What `compute` has worked out before it places the columns: the
      grouping, each column's depths and maximum depth, `basicMax`, `colW`
      and `yGap`, each equal to its definition. */
  ghost predicate Prepared(nodes: seq<Node>, width: real, height: real, groups: seq<string>,
                           byGroup: map<string, seq<Node>>, groupDepths: map<string, map<string, int>>,
                           groupMaxDepth: map<string, int>, basicMax: int, colW: real, yGap: real)
  {
    && groups == Columns(nodes)
    && (forall g | g in byGroup :: byGroup[g] == Members(nodes, g))
    && (forall j | 0 <= j < |groups| ::
          Present(nodes, groups[j]) && groups[j] in byGroup && groups[j] in groupDepths && groups[j] in groupMaxDepth)
    && (forall j | 0 <= j < |groups| ::
          groupDepths[groups[j]] == GroupDepth(nodes, groups[j]) && groupMaxDepth[groups[j]] == GroupMax(nodes, groups[j]))
    && basicMax == BasicMax(nodes) && colW == ColW(nodes, width) && GlobalMax(nodes) >= 0
    && yGap == Gap(GlobalMax(nodes), height)
  }

  /** The values `compute` works out are those of the definitions. */
  lemma Prepare(nodes: seq<Node>, width: real, height: real, groups: seq<string>,
                byGroup: map<string, seq<Node>>, groupDepths: map<string, map<string, int>>,
                groupMaxDepth: map<string, int>, basicMax: int, globalMaxDepth: int, colW: real, yGap: real)
    requires forall g :: g in byGroup <==> Present(nodes, g)
    requires forall g | g in byGroup :: byGroup[g] == Members(nodes, g)
    requires groups == Columns(nodes)
    requires forall j | 0 <= j < |groups| ::
      groups[j] in groupDepths && groupDepths[groups[j]] == GroupDepth(nodes, groups[j])
    requires forall j | 0 <= j < |groups| ::
      groups[j] in groupMaxDepth && groupMaxDepth[groups[j]] == GroupMax(nodes, groups[j])
    requires basicMax == BasicMaxOf(groups, groupMaxDepth)
    requires globalMaxDepth == GlobalMaxOf(groups, groupMaxDepth, basicMax)
    requires colW == ColumnWidth(width, |groups|) && yGap == Gap(globalMaxDepth, height)
    ensures Prepared(nodes, width, height, groups, byGroup, groupDepths, groupMaxDepth, basicMax, colW, yGap)
  {
    ComputedMaxes(nodes, groups, groupMaxDepth);
    assert basicMax == BasicMax(nodes);
    assert |groups| == |Columns(nodes)|;
    assert colW == ColW(nodes, width);
    assert globalMaxDepth == GlobalMax(nodes);
    assert yGap == Gap(GlobalMax(nodes), height);
  }

  /** One turn of `groups.forEach((g, gi) => ...)`: column gi is placed. */
  method PlaceColumn(nodes: seq<Node>, width: real, height: real, groups: seq<string>,
                     byGroup: map<string, seq<Node>>, groupDepths: map<string, map<string, int>>,
                     groupMaxDepth: map<string, int>, basicMax: int, colW: real, yGap: real,
                     gi: nat, positions: map<string, Pos>)
    returns (placed: map<string, Pos>)
    requires Prepared(nodes, width, height, groups, byGroup, groupDepths, groupMaxDepth, basicMax, colW, yGap)
    requires gi < |groups| && ComputedUpTo(nodes, width, height, groups, positions, gi)
    ensures ComputedUpTo(nodes, width, height, groups, placed, gi + 1)
  {
    var g := groups[gi];
    var groupNodes := byGroup[g];
    var off := OffsetFor(basicMax, g);
    GroupBounds(nodes, g);
    placed := PlaceGroup(positions, groupNodes, groupDepths[g], off, groupMaxDepth[g], gi, colW, yGap);
    PlacedGroup(nodes, width, height, gi, g, positions, placed, groupNodes, groupDepths[g], off, colW, yGap);
  }

  /** `Layout.compute(nodes, width, height)`: every node's id gets a
      position, and with distinct ids every node gets the position the
      layout functions give it. */
  method Compute(nodes: seq<Node>, width: real, height: real) returns (positions: map<string, Pos>)
    ensures positions.Keys == IdSet(nodes)
    ensures DistinctIds(nodes) ==> forall n | n in nodes :: positions[n.id] == PosOf(nodes, width, height, n)
  {
    var byGroup := GroupNodes(nodes);
    var groups := ColumnOrder(byGroup.Keys);
    ColumnOrderIsColumns(nodes, byGroup.Keys);
    var colW := ColumnWidth(width, |groups|);
    var preds := PredsOf(nodes);
    var groupDepths, groupMaxDepth := GroupDepths(nodes, groups, byGroup, preds);
    var basicMax := BasicMaxOf(groups, groupMaxDepth);
    var globalMaxDepth := GlobalMaxOf(groups, groupMaxDepth, basicMax);
    var yGap := Gap(globalMaxDepth, height);
    Prepare(nodes, width, height, groups, byGroup, groupDepths, groupMaxDepth, basicMax, globalMaxDepth, colW, yGap);
    positions := map[];
    ComputedNone(nodes, width, height, groups);

    for gi := 0 to |groups|
      invariant ComputedUpTo(nodes, width, height, groups, positions, gi)
    {
      positions := PlaceColumn(nodes, width, height, groups, byGroup, groupDepths, groupMaxDepth, basicMax,
                               colW, yGap, gi, positions);
    }
    ComputedAll(nodes, width, height, positions);
  }
}
