/**
 * Where a plan's boxes go: `layout` of `src/features/query-plan/layout.ts`,
 * with coordinates as reals.
 */
module PlanLayout {
  import opened Basics
  import opened Chars

  datatype Measured = Measured(rows: real, loops: real)

  /** Of a plan's node what the layout reads; `cteName` is its `CTE Name` detail, when that is a text. */
  datatype PlanNode = PlanNode(operation: string, role: Option<string>, cteName: Option<string>,
                               estimatedRows: real, actual: Option<Measured>, children: seq<PlanNode>)

  const WIDTH := 208
  const HEIGHT := 66
  const GAP_X := 24
  const GAP_Y := 52
  const STEP := WIDTH + GAP_X
  const ROW := HEIGHT + GAP_Y

  datatype Spot = Spot(x: real, y: int, depth: nat)

  datatype Edge = Edge(from: nat, to: nat, rows: real)

  datatype Link = Link(from: nat, to: nat)

  datatype Layout = Layout(spots: seq<Spot>, edges: seq<Edge>, ctes: seq<Link>, width: int, height: int)

  /** `/^CTE (.+)$/`: the name of the CTE whose own plan a node is. */
  function CteOf(role: Option<string>): Option<string> {
    if role.Some? && |role.value| > 4 && role.value[..4] == "CTE " && OneLine(role.value[4..])
    then Some(role.value[4..])
    else None
  }

  function Flowed(node: PlanNode): real {
    if node.actual.Some? then node.actual.value.rows * node.actual.value.loops else node.estimatedRows
  }

  // ---- the plan as the table lists it: depth first ----

  datatype Row = Row(node: PlanNode, depth: nat)

  function Rows(node: PlanNode, depth: nat): (rows: seq<Row>)
    ensures rows != [] && rows[0] == Row(node, depth)
    decreases node
  {
    [Row(node, depth)] + RowsOfAll(node.children, depth + 1)
  }

  function RowsOfAll(nodes: seq<PlanNode>, depth: nat): seq<Row>
    decreases nodes
  {
    if nodes == [] then [] else Rows(nodes[0], depth) + RowsOfAll(nodes[1..], depth)
  }

  function Leaves(node: PlanNode): (count: nat)
    ensures count > 0
    decreases node
  {
    if node.children == [] then 1 else LeavesOfAll(node.children)
  }

  function LeavesOfAll(nodes: seq<PlanNode>): (count: nat)
    ensures nodes != [] ==> count > 0
    decreases nodes
  {
    if nodes == [] then 0 else Leaves(nodes[0]) + LeavesOfAll(nodes[1..])
  }

  function Largest(a: nat, b: nat): nat {
    if a < b then b else a
  }

  function Deepest(node: PlanNode, depth: nat): (deepest: nat)
    ensures depth <= deepest
    decreases node
  {
    Largest(depth, DeepestOfAll(node.children, depth + 1, depth))
  }

  /** The deepest under any of the nodes, or `least` when that is deeper. */
  function DeepestOfAll(nodes: seq<PlanNode>, depth: nat, least: nat): (deepest: nat)
    ensures least <= deepest
    decreases nodes
  {
    if nodes == [] then least else DeepestOfAll(nodes[1..], depth, Largest(least, Deepest(nodes[0], depth)))
  }

  // ---- where each box goes ----

  /** How far right a node's box is: `first` is the column of its first leaf. */
  function Across(node: PlanNode, first: nat): real
    decreases node
  {
    if node.children == [] then (first * STEP) as real
    else (AcrossFirst(node.children, first) + AcrossLast(node.children, first)) / 2.0
  }

  function AcrossFirst(nodes: seq<PlanNode>, first: nat): real
    requires nodes != []
    decreases nodes
  {
    Across(nodes[0], first)
  }

  function AcrossLast(nodes: seq<PlanNode>, first: nat): real
    requires nodes != []
    decreases nodes
  {
    if |nodes| == 1 then Across(nodes[0], first) else AcrossLast(nodes[1..], first + Leaves(nodes[0]))
  }

  function Spots(node: PlanNode, depth: nat, first: nat): (spots: seq<Spot>)
    ensures spots != [] && spots[0] == Spot(Across(node, first), depth * ROW, depth)
    decreases node
  {
    [Spot(Across(node, first), depth * ROW, depth)] + SpotsOfAll(node.children, depth + 1, first)
  }

  function SpotsOfAll(nodes: seq<PlanNode>, depth: nat, first: nat): seq<Spot>
    decreases nodes
  {
    if nodes == [] then []
    else Spots(nodes[0], depth, first) + SpotsOfAll(nodes[1..], depth, first + Leaves(nodes[0]))
  }

  // ---- no two boxes overlap ----

  predicate Overlap(a: Spot, b: Spot) {
    && a.x < b.x + WIDTH as real && b.x < a.x + WIDTH as real
    && a.y < b.y + HEIGHT && b.y < a.y + HEIGHT
  }

  /** In a row's own place down, and within some columns across. */
  ghost predicate Within(s: Spot, first: nat, leaves: int, depth: nat) {
    && s.y == s.depth * ROW && depth <= s.depth
    && (first * STEP) as real <= s.x <= ((first + leaves - 1) * STEP) as real
  }

  /** Left of, a whole column apart, where on the same row. */
  ghost predicate Apart(a: Spot, b: Spot) {
    a.depth == b.depth ==> a.x + STEP as real <= b.x
  }

  ghost predicate AllWithin(spots: seq<Spot>, first: nat, leaves: int, depth: nat) {
    forall i :: 0 <= i < |spots| ==> Within(spots[i], first, leaves, depth)
  }

  ghost predicate AllApart(spots: seq<Spot>) {
    forall i, j :: 0 <= i < j < |spots| ==> Apart(spots[i], spots[j])
  }

  lemma {:induction false} AcrossWithin(node: PlanNode, first: nat)
    ensures (first * STEP) as real <= Across(node, first) <= ((first + Leaves(node) - 1) * STEP) as real
    decreases node
  {
    if node.children != [] {
      AcrossLastWithin(node.children, first);
      AcrossWithin(node.children[0], first);
    }
  }

  lemma {:induction false} AcrossLastWithin(nodes: seq<PlanNode>, first: nat)
    requires nodes != []
    ensures (first * STEP) as real <= AcrossLast(nodes, first) <= ((first + LeavesOfAll(nodes) - 1) * STEP) as real
    decreases nodes
  {
    if |nodes| == 1 {
      AcrossWithin(nodes[0], first);
    } else {
      AcrossLastWithin(nodes[1..], first + Leaves(nodes[0]));
    }
  }

  lemma Widen(spots: seq<Spot>, first: nat, leaves: int, depth: nat, before: nat, more: int, above: nat)
    requires AllWithin(spots, first, leaves, depth)
    requires before <= first && first + leaves <= before + more && above <= depth
    ensures AllWithin(spots, before, more, above)
  {
    assert (first + leaves - 1) * STEP <= (before + more - 1) * STEP;
  }

  lemma SideBySide(left: seq<Spot>, right: seq<Spot>, first: nat, leaves: nat, more: int, depth: nat)
    requires AllWithin(left, first, leaves, depth) && AllApart(left)
    requires AllWithin(right, first + leaves, more, depth) && AllApart(right)
    ensures AllApart(left + right)
  {
    forall i, j | 0 <= i < j < |left + right|
      ensures Apart((left + right)[i], (left + right)[j])
    {
      if i < |left| && j >= |left| {
        assert Within(left[i], first, leaves, depth) && Within(right[j - |left|], first + leaves, more, depth);
      }
    }
  }

  lemma {:induction false} BoxesApart(node: PlanNode, depth: nat, first: nat)
    ensures AllWithin(Spots(node, depth, first), first, Leaves(node), depth) && AllApart(Spots(node, depth, first))
    decreases node
  {
    AcrossWithin(node, first);
    BoxesOfAllApart(node.children, depth + 1, first);
    var below := SpotsOfAll(node.children, depth + 1, first);
    var spots := Spots(node, depth, first);
    if node.children != [] {
      Widen(below, first, LeavesOfAll(node.children), depth + 1, first, Leaves(node), depth);
    }
    forall i, j | 0 <= i < j < |spots|
      ensures Apart(spots[i], spots[j])
    {
      assert Within(below[j - 1], first, LeavesOfAll(node.children), depth + 1);
    }
  }

  lemma {:induction false} BoxesOfAllApart(nodes: seq<PlanNode>, depth: nat, first: nat)
    ensures AllWithin(SpotsOfAll(nodes, depth, first), first, LeavesOfAll(nodes), depth)
    ensures AllApart(SpotsOfAll(nodes, depth, first))
    decreases nodes
  {
    if nodes != [] {
      var mine, more := Leaves(nodes[0]), LeavesOfAll(nodes[1..]);
      var left, right := Spots(nodes[0], depth, first), SpotsOfAll(nodes[1..], depth, first + mine);
      BoxesApart(nodes[0], depth, first);
      BoxesOfAllApart(nodes[1..], depth, first + mine);
      SideBySide(left, right, first, mine, more, depth);
      Widen(left, first, mine, depth, first, mine + more, depth);
      Widen(right, first + mine, more, depth, first, mine + more, depth);
    }
  }

  /** However a plan branches, no two of its boxes overlap. */
  lemma NoTwoBoxesOverlap(root: PlanNode, i: nat, j: nat)
    requires i < j < |Spots(root, 0, 0)|
    ensures !Overlap(Spots(root, 0, 0)[i], Spots(root, 0, 0)[j])
  {
    var spots := Spots(root, 0, 0);
    BoxesApart(root, 0, 0);
    assert Apart(spots[i], spots[j]);
    assert Within(spots[i], 0, Leaves(root), 0) && Within(spots[j], 0, Leaves(root), 0);
    if spots[i].depth < spots[j].depth {
      assert spots[i].y + ROW <= spots[j].y;
    } else if spots[j].depth < spots[i].depth {
      assert spots[j].y + ROW <= spots[i].y;
    }
  }

  lemma {:induction false} DeepestBounds(node: PlanNode, depth: nat, first: nat)
    ensures forall s <- Spots(node, depth, first) :: s.depth <= Deepest(node, depth)
    decreases node
  {
    DeepestOfAllBounds(node.children, depth + 1, first, depth);
  }

  lemma {:induction false} DeepestOfAllBounds(nodes: seq<PlanNode>, depth: nat, first: nat, least: nat)
    ensures forall s <- SpotsOfAll(nodes, depth, first) :: s.depth <= DeepestOfAll(nodes, depth, least)
    decreases nodes
  {
    if nodes != [] {
      var further := Largest(least, Deepest(nodes[0], depth));
      DeepestBounds(nodes[0], depth, first);
      DeepestOfAllBounds(nodes[1..], depth, first + Leaves(nodes[0]), further);
      assert further <= DeepestOfAll(nodes[1..], depth, further);
    }
  }

  function Width(leaves: nat): int {
    Largest(1, leaves) * STEP - GAP_X
  }

  function Height(deepest: nat): int {
    (deepest + 1) * ROW - GAP_Y
  }

  /** Every box lies inside the graph's width and height. */
  lemma BoxesInside(root: PlanNode, i: nat)
    requires i < |Spots(root, 0, 0)|
    ensures var s := Spots(root, 0, 0)[i];
      && 0.0 <= s.x && s.x + WIDTH as real <= Width(Leaves(root)) as real
      && 0 <= s.y && s.y + HEIGHT <= Height(Deepest(root, 0))
  {
    var s := Spots(root, 0, 0)[i];
    BoxesApart(root, 0, 0);
    DeepestBounds(root, 0, 0);
    assert Within(s, 0, Leaves(root), 0);
    assert s in Spots(root, 0, 0);
    assert s.depth * ROW <= Deepest(root, 0) * ROW;
  }

  // ---- boxes are the table's rows ----

  function Size(node: PlanNode): (size: nat)
    ensures size > 0
    decreases node
  {
    1 + SizeOfAll(node.children)
  }

  function SizeOfAll(nodes: seq<PlanNode>): nat
    decreases nodes
  {
    if nodes == [] then 0 else Size(nodes[0]) + SizeOfAll(nodes[1..])
  }

  lemma {:induction false} RowsSize(node: PlanNode, depth: nat)
    ensures |Rows(node, depth)| == Size(node)
    decreases node
  {
    RowsOfAllSize(node.children, depth + 1);
  }

  lemma {:induction false} RowsOfAllSize(nodes: seq<PlanNode>, depth: nat)
    ensures |RowsOfAll(nodes, depth)| == SizeOfAll(nodes)
    decreases nodes
  {
    if nodes != [] {
      RowsSize(nodes[0], depth);
      RowsOfAllSize(nodes[1..], depth);
    }
  }

  ghost predicate SameDepths(rows: seq<Row>, spots: seq<Spot>) {
    |rows| == |spots| && forall i :: 0 <= i < |rows| ==> rows[i].depth == spots[i].depth
  }

  /** There is a box for each row of the table, in its order and as deep. */
  lemma {:induction false} SpotsAreTheRows(node: PlanNode, depth: nat, first: nat)
    ensures SameDepths(Rows(node, depth), Spots(node, depth, first))
    decreases node
  {
    SpotsOfAllAreTheRows(node.children, depth + 1, first);
  }

  lemma {:induction false} SpotsOfAllAreTheRows(nodes: seq<PlanNode>, depth: nat, first: nat)
    ensures SameDepths(RowsOfAll(nodes, depth), SpotsOfAll(nodes, depth, first))
    decreases nodes
  {
    if nodes != [] {
      SpotsAreTheRows(nodes[0], depth, first);
      SpotsOfAllAreTheRows(nodes[1..], depth, first + Leaves(nodes[0]));
    }
  }

  // ---- where the leaves are ----

  predicate IsLeaf(row: Row) {
    row.node.children == []
  }

  /** How many leaves the first rows have. */
  function LeavesIn(rows: seq<Row>): nat {
    if rows == [] then 0 else LeavesIn(rows[..|rows| - 1]) + if IsLeaf(rows[|rows| - 1]) then 1 else 0
  }

  lemma {:induction false} LeavesInConcat(a: seq<Row>, b: seq<Row>)
    ensures LeavesIn(a + b) == LeavesIn(a) + LeavesIn(b)
  {
    hide IsLeaf;
    if b == [] {
      assert a + b == a;
    } else {
      assert (a + b)[..|a + b| - 1] == a + b[..|b| - 1];
      LeavesInConcat(a, b[..|b| - 1]);
    }
  }

  lemma LeavesInOne(row: Row)
    ensures LeavesIn([row]) == if IsLeaf(row) then 1 else 0
  {
    assert [row][..0] == [];
  }

  lemma {:induction false} LeavesAreCounted(node: PlanNode, depth: nat)
    ensures LeavesIn(Rows(node, depth)) == Leaves(node)
    decreases node
  {
    LeavesInConcat([Row(node, depth)], RowsOfAll(node.children, depth + 1));
    LeavesInOne(Row(node, depth));
    LeavesOfAllAreCounted(node.children, depth + 1);
  }

  lemma {:induction false} LeavesOfAllAreCounted(nodes: seq<PlanNode>, depth: nat)
    ensures LeavesIn(RowsOfAll(nodes, depth)) == LeavesOfAll(nodes)
    decreases nodes
  {
    if nodes != [] {
      LeavesAreCounted(nodes[0], depth);
      LeavesOfAllAreCounted(nodes[1..], depth);
      LeavesInConcat(Rows(nodes[0], depth), RowsOfAll(nodes[1..], depth));
    }
  }

  /** A leaf's box is in the column after those of the leaves before it, `first` columns in. */
  ghost predicate LeafInColumn(rows: seq<Row>, spots: seq<Spot>, i: nat, first: nat)
    requires i < |rows|
  {
    IsLeaf(rows[i]) ==> i < |spots| && spots[i].x == ((first + LeavesIn(rows[..i])) * 232) as real
  }

  ghost predicate LeavesInColumns(rows: seq<Row>, spots: seq<Spot>, first: nat) {
    |rows| == |spots| && forall i :: 0 <= i < |rows| ==> LeafInColumn(rows, spots, i, first)
  }

  lemma ColumnsJoin(a: seq<Row>, x: seq<Spot>, b: seq<Row>, y: seq<Spot>, first: nat)
    requires LeavesInColumns(a, x, first) && LeavesInColumns(b, y, first + LeavesIn(a))
    ensures LeavesInColumns(a + b, x + y, first)
  {
    hide IsLeaf, LeavesIn;
    forall i | 0 <= i < |a + b|
      ensures LeafInColumn(a + b, x + y, i, first)
    {
      if i < |a| {
        assert (a + b)[..i] == a[..i] && LeafInColumn(a, x, i, first);
      } else {
        assert (a + b)[..i] == a + b[..i - |a|];
        LeavesInConcat(a, b[..i - |a|]);
        assert LeafInColumn(b, y, i - |a|, first + LeavesIn(a));
      }
    }
  }

  lemma {:induction false} ColumnsOf(node: PlanNode, depth: nat, first: nat)
    ensures LeavesInColumns(Rows(node, depth), Spots(node, depth, first), first)
    decreases node
  {
    hide LeavesIn;
    var own, spot := [Row(node, depth)], [Spot(Across(node, first), depth * ROW, depth)];
    LeavesInOne(own[0]);
    assert own[..0] == [] && LeavesIn([]) == 0 by { NoLeaves(); }
    assert LeavesInColumns(own, spot, first);
    if node.children == [] {
      assert Rows(node, depth) == own && Spots(node, depth, first) == spot;
    } else {
      ColumnsOfAll(node.children, depth + 1, first);
      ColumnsJoin(own, spot, RowsOfAll(node.children, depth + 1), SpotsOfAll(node.children, depth + 1, first), first);
    }
  }

  lemma NoLeaves()
    ensures LeavesIn([]) == 0
  {}

  lemma {:induction false} ColumnsOfAll(nodes: seq<PlanNode>, depth: nat, first: nat)
    ensures LeavesInColumns(RowsOfAll(nodes, depth), SpotsOfAll(nodes, depth, first), first)
    decreases nodes
  {
    hide LeavesIn, Rows, Spots;
    if nodes != [] {
      ColumnsOf(nodes[0], depth, first);
      LeavesAreCounted(nodes[0], depth);
      ColumnsOfAll(nodes[1..], depth, first + Leaves(nodes[0]));
      ColumnsJoin(Rows(nodes[0], depth), Spots(nodes[0], depth, first),
                  RowsOfAll(nodes[1..], depth), SpotsOfAll(nodes[1..], depth, first + Leaves(nodes[0])), first);
    }
  }

  /**
   * The leaves stand side by side, a column of their own each, in the order the
   * table lists them; every row down is its depth; and the graph is just as wide
   * as its leaves' columns.
   */
  lemma LeavesAreSideBySide(root: PlanNode, i: nat)
    requires i < |Rows(root, 0)|
    ensures var rows, spots := Rows(root, 0), Spots(root, 0, 0);
      && |spots| == |rows| && spots[i].y == rows[i].depth * 118 && spots[i].depth == rows[i].depth
      && (IsLeaf(rows[i]) ==> spots[i].x == (LeavesIn(rows[..i]) * 232) as real)
      && Width(Leaves(root)) == LeavesIn(rows) * 232 - 24
  {
    ColumnsOf(root, 0, 0);
    SpotsAreTheRows(root, 0, 0);
    BoxesApart(root, 0, 0);
    LeavesAreCounted(root, 0);
    assert LeafInColumn(Rows(root, 0), Spots(root, 0, 0), i, 0);
    assert Within(Spots(root, 0, 0)[i], 0, Leaves(root), 0);
  }

  /** And just as high as its deepest row. */
  lemma {:induction false} DeepestIsThere(node: PlanNode, depth: nat)
    ensures exists row <- Rows(node, depth) :: row.depth == Deepest(node, depth)
    decreases node
  {
    DeepestOfAllIsThere(node.children, depth + 1, depth);
    if Deepest(node, depth) == depth {
      assert Rows(node, depth)[0] in Rows(node, depth);
    } else {
      var row :| row in RowsOfAll(node.children, depth + 1) && row.depth == Deepest(node, depth);
      assert row in Rows(node, depth);
    }
  }

  lemma {:induction false} DeepestOfAllIsThere(nodes: seq<PlanNode>, depth: nat, least: nat)
    ensures var deepest := DeepestOfAll(nodes, depth, least);
      deepest == least || exists row <- RowsOfAll(nodes, depth) :: row.depth == deepest
    decreases nodes
  {
    if nodes != [] {
      var further := Largest(least, Deepest(nodes[0], depth));
      DeepestIsThere(nodes[0], depth);
      DeepestOfAllIsThere(nodes[1..], depth, further);
      var deepest := DeepestOfAll(nodes, depth, least);
      if deepest != least {
        if deepest == further {
          var row :| row in Rows(nodes[0], depth) && row.depth == deepest;
          assert row in RowsOfAll(nodes, depth);
        } else {
          var row :| row in RowsOfAll(nodes[1..], depth) && row.depth == deepest;
          assert row in RowsOfAll(nodes, depth);
        }
      }
    }
  }

  /** A node is a CTE's own plan when its role is `CTE ` and the CTE's name, in one line. */
  lemma CteOfExactly(role: Option<string>, name: string)
    ensures CteOf(role) == Some(name) <==> role == Some("CTE " + name) && name != "" && OneLine(name)
  {
    assert ("CTE " + name)[..4] == "CTE " && ("CTE " + name)[4..] == name;
    if CteOf(role) == Some(name) {
      assert role.value == role.value[..4] + role.value[4..];
    }
  }
}
