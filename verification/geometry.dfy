/** The coordinates of js/layout.js: the y of a row (the height cut into
    equal bands), the x of a slot inside its column, and the bounds the
    drawing relies on. Coordinates are mathematical reals. */
module LayoutGeometry {
  import opened Types
  import opened Layout

  // Real arithmetic, stated on plain numbers so that each fact is proved
  // without the layout's definitions in view.

  lemma DivPos(a: real, b: real)
    requires a > 0.0 && b > 0.0
    ensures a / b > 0.0
  {
  }

  lemma ScaleStrict(a: real, b: real, k: real)
    requires a < b && k > 0.0
    ensures a * k < b * k
  {
  }

  /** `yGap`: the height cut into g + 2 equal bands. */
  function Gap(g: int, height: real): real
    requires g >= 0
  {
    height / (g + 2) as real
  }

  /** The y of row r when the height is cut into g + 2 equal bands. */
  function BandY(r: int, g: int, height: real): real
    requires g >= 0
  {
    (r + 1) as real * Gap(g, height)
  }

  /** Row r of g + 2 bands lies strictly inside (0, height). */
  lemma BandInside(r: int, g: int, height: real)
    requires 0 <= r <= g && height > 0.0
    ensures 0.0 < BandY(r, g, height) < height
  {
    var gap := height / (g + 2) as real;
    DivPos(height, (g + 2) as real);
    assert gap * (g + 2) as real == height;
    ScaleStrict(0.0, (r + 1) as real, gap);
    ScaleStrict((r + 1) as real, (g + 2) as real, gap);
  }

  /** Lower rows have larger y. */
  lemma BandIncreasing(r1: int, r2: int, g: int, height: real)
    requires r1 < r2 && g >= 0 && height > 0.0
    ensures BandY(r1, g, height) < BandY(r2, g, height)
  {
    DivPos(height, (g + 2) as real);
    ScaleStrict((r1 + 1) as real, (r2 + 1) as real, height / (g + 2) as real);
  }

  /** The x of a point `s` away from the centre of column gi. */
  function ColumnX(gi: nat, colW: real, s: real): real {
    gi as real * colW + colW * 0.5 + s
  }

  /** An offset of less than 0.65 / 2 column widths from a column's centre
      stays inside the column. */
  lemma InsideColumn(gi: nat, colW: real, s: real)
    requires colW > 0.0 && -(colW * 0.65) / 2.0 < s < (colW * 0.65) / 2.0
    ensures gi as real * colW < ColumnX(gi, colW, s) < (gi + 1) as real * colW
  {
    assert (gi + 1) as real * colW == gi as real * colW + colW;
  }

  /** With a positive height, advanced nodes are drawn strictly lower. */
  lemma AdvancedBelowBasic(nodes: seq<Node>, a: Node, b: Node, height: real)
    requires a in nodes && b in nodes && height > 0.0
    requires GroupOf(a) in ADV && GroupOf(b) in BASIC
    ensures Y(nodes, height, a) > Y(nodes, height, b)
  {
    AdvancedRowsBelowBasic(nodes, a, b);
    BandIncreasing(Row(nodes, b), Row(nodes, a), GlobalMax(nodes), height);
  }

  /** `y = (row + 1) * yGap`. */
  function Y(nodes: seq<Node>, height: real, n: Node): real
    requires n in nodes
  {
    BandY(Row(nodes, n), GlobalMax(nodes), height)
  }

  /** Every row is between 0 and globalMaxDepth, so with a positive height
      every y lies strictly inside (0, height). */
  lemma YInside(nodes: seq<Node>, height: real, n: Node)
    requires n in nodes
    ensures 0 <= Row(nodes, n) <= GlobalMax(nodes)
    ensures height > 0.0 ==> 0.0 < Y(nodes, height, n) < height
  {
    DepthWithinGroup(nodes, n);
    WithinGlobalMax(nodes, GroupOf(n));
    var r := Row(nodes, n);
    assert 0 <= r <= GlobalMax(nodes);
    if height > 0.0 {
      BandInside(r, GlobalMax(nodes), height);
    }
  }

  // ---------------------------------------------------------------------
  // Slots inside a row

  /** The x offset of slot i of a row of `count` nodes from the column centre. */
  function SlotX(i: nat, count: nat, span: real): real {
    (((i + 1) as real) - ((count + 1) as real) / 2.0) * (span / (Max1(count) as real))
  }

  /** Slots mirror each other around the column centre. */
  lemma SlotSymmetric(i: nat, count: nat, span: real)
    requires i < count
    ensures SlotX(count - 1 - i, count, span) == -SlotX(i, count, span)
  {
    var w := span / (count as real);
    assert ((count - i) as real) - ((count + 1) as real) / 2.0 == -(((i + 1) as real) - ((count + 1) as real) / 2.0);
  }

  /** The offsets of slots 0..k-1, summed. */
  function SlotSum(k: nat, count: nat, span: real): real {
    if k == 0 then 0.0 else SlotSum(k - 1, count, span) + SlotX(k - 1, count, span)
  }

  lemma {:induction false} SlotSumClosed(k: nat, count: nat, span: real)
    ensures SlotSum(k, count, span) == ((k * k - k * count) as real) / 2.0 * (span / (Max1(count) as real))
  {
    if k > 0 {
      SlotSumClosed(k - 1, count, span);
      SumStep(k, count, span / (Max1(count) as real));
    }
  }

  /** One more slot in the closed form of the sum. */
  lemma SumStep(k: int, c: int, w: real)
    ensures ((k - 1) * (k - 1) - (k - 1) * c) as real / 2.0 * w + ((k as real) - ((c + 1) as real) / 2.0) * w
            == ((k * k - k * c) as real) / 2.0 * w
  {
    var a := ((k - 1) * (k - 1) - (k - 1) * c) as real / 2.0;
    var b := (k as real) - ((c + 1) as real) / 2.0;
    assert (k - 1) * (k - 1) - (k - 1) * c == k * k - k * c - 2 * k + 1 + c;
    assert a + b == ((k * k - k * c) as real) / 2.0;
    Distribute(a, b, w);
  }

  lemma Distribute(a: real, b: real, w: real)
    ensures a * w + b * w == (a + b) * w
  {
  }

  /** The offsets of a full row sum to 0: the row is centred. */
  lemma SlotsCentred(count: nat, span: real)
    ensures SlotSum(count, count, span) == 0.0
  {
    SlotSumClosed(count, count, span);
  }

  /** Every slot lies strictly within half the span of the column centre. */
  lemma SlotWithinSpan(i: nat, count: nat, span: real)
    requires i < count && span > 0.0
    ensures -span / 2.0 < SlotX(i, count, span) < span / 2.0
  {
    var c := count as real;
    assert Max1(count) == count;
    var w := span / c;
    var f := ((i + 1) as real) - ((count + 1) as real) / 2.0;
    assert SlotX(i, count, span) == f * w;
    DivPos(span, c);
    HalfBand(f, c, w);
  }

  /** |f| <= (c - 1) / 2 and w > 0 put f * w strictly within c * w / 2. */
  lemma HalfBand(f: real, c: real, w: real)
    requires -(c - 1.0) / 2.0 <= f <= (c - 1.0) / 2.0 && w > 0.0
    ensures -(c * w) / 2.0 < f * w < (c * w) / 2.0
  {
    assert (c - 1.0) / 2.0 * w == (c * w) / 2.0 - w / 2.0;
    if f >= 0.0 {
      assert f * w <= (c - 1.0) / 2.0 * w;
    } else {
      assert f * w >= -(c - 1.0) / 2.0 * w;
    }
  }

  // ---------------------------------------------------------------------
  // Positions

  /** The x of a node: its slot in its (group, row) bucket, around the
      centre of its group's column; the slots spread over 0.65 of it. */
  function X(nodes: seq<Node>, width: real, n: Node): real
    requires n in nodes
  {
    var row := RowMates(nodes, n);
    SlotCentre(IndexIn(Columns(nodes), GroupOf(n)), ColW(nodes, width), IdIndex(row, n.id), |row|)
  }

  /** The x of slot i of `count` in column gi; the slots spread over 0.65
      of the column width. */
  function SlotCentre(gi: nat, colW: real, i: nat, count: nat): real {
    ColumnX(gi, colW, SlotX(i, count, colW * 0.65))
  }

  /** The position `compute` gives a node. */
  function PosOf(nodes: seq<Node>, width: real, height: real, n: Node): Pos
    requires n in nodes
  {
    Pos(X(nodes, width, n), Y(nodes, height, n))
  }

  lemma PosOfIs(nodes: seq<Node>, width: real, height: real, n: Node, x: real, y: real)
    requires n in nodes && X(nodes, width, n) == x && y == BandY(Row(nodes, n), GlobalMax(nodes), height)
    ensures PosOf(nodes, width, height, n) == Pos(x, y)
  {
  }

  /** Slot i of a row of `count` lies strictly inside column gi. */
  lemma SlotInsideColumn(gi: nat, colW: real, i: nat, count: nat)
    requires colW > 0.0 && i < count
    ensures gi as real * colW < SlotCentre(gi, colW, i, count) < (gi + 1) as real * colW
  {
    SlotWithinSpan(i, count, colW * 0.65);
    InsideColumn(gi, colW, SlotX(i, count, colW * 0.65));
  }

  lemma ColWPositive(nodes: seq<Node>, width: real)
    requires width > 0.0
    ensures ColW(nodes, width) > 0.0
  {
    DivPos(width, Max1(|Columns(nodes)|) as real);
  }

  /** A node's group has a column. */
  lemma HasColumn(nodes: seq<Node>, n: Node)
    requires n in nodes
    ensures IndexIn(Columns(nodes), GroupOf(n)) < |Columns(nodes)|
  {
    MemberPresent(nodes, n);
  }

  /** With a positive width every node lies strictly inside its own column
      (column gi spans [gi * colW, (gi + 1) * colW]): columns share one
      width and slots stay within 0.65 of it. */
  lemma XInsideColumn(nodes: seq<Node>, width: real, n: Node, gi: nat, colW: real)
    requires n in nodes && width > 0.0
    requires gi == IndexIn(Columns(nodes), GroupOf(n)) && colW == ColW(nodes, width)
    ensures gi as real * colW < X(nodes, width, n) < (gi + 1) as real * colW
  {
    ColWPositive(nodes, width);
    InOwnRow(nodes, n);
    SlotInsideColumn(gi, colW, IdIndex(RowMates(nodes, n), n.id), |RowMates(nodes, n)|);
  }
}
