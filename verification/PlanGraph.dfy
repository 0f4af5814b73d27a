/**
 * The walk that lays a plan out, pushing boxes, lines and CTEs as it goes
 * (`layout` and `place` of `src/features/query-plan/layout.ts`), and what the
 * graph it leaves says of the plan.
 */
module PlanGraph {
  import opened Basics
  import opened PlanLayout
  import opened PlanEdges

  // ---- each parent is centred over its first and last child ----

  ghost predicate SpotsAt(all: seq<Spot>, index: nat, part: seq<Spot>) {
    index + |part| <= |all| && all[index..index + |part|] == part
  }

  lemma SpotsAtParts(all: seq<Spot>, index: nat, a: seq<Spot>, b: seq<Spot>)
    requires SpotsAt(all, index, a + b)
    ensures SpotsAt(all, index, a) && SpotsAt(all, index + |a|, b)
  {
    var part := all[index..index + |a + b|];
    assert part[..|a|] == a && part[|a|..] == b;
    assert all[index..index + |a|] == part[..|a|];
    assert all[index + |a|..index + |a| + |b|] == part[|a|..];
  }

  /** Where the last of some nodes has its box, the first of them having it at `at`. */
  function LastAt(nodes: seq<PlanNode>, at: nat): nat
    requires nodes != []
  {
    if |nodes| == 1 then at else LastAt(nodes[1..], at + Size(nodes[0]))
  }

  /** The first and the last of the rows indented right under row `i`. */
  ghost predicate Outermost(rows: seq<Row>, i: int, a: int, b: int) {
    && IsParent(rows, i, a) && IsParent(rows, i, b)
    && forall j :: IsParent(rows, i, j) ==> a <= j <= b
  }

  ghost predicate Midway(rows: seq<Row>, spots: seq<Spot>, i: nat, a: nat, b: nat) {
    i < |spots| && Outermost(rows, i, a, b) && a < |spots| && b < |spots| && spots[i].x == (spots[a].x + spots[b].x) / 2.0
  }

  /** The box at `i` is a leaf's, or midway between its first child's and its last child's. */
  ghost predicate Centred(rows: seq<Row>, spots: seq<Spot>, i: nat) {
    i < |rows| && (rows[i].node.children != [] ==> exists a: nat, b: nat :: Midway(rows, spots, i, a, b))
  }

  /** The row at `end`, if there is one, is no part of what is at `depth` before it. */
  ghost predicate EndsAt(rows: seq<Row>, end: nat, depth: nat) {
    end < |rows| ==> rows[end].depth <= depth
  }

  lemma {:induction false} LastIsThere(all: seq<Spot>, nodes: seq<PlanNode>, at: nat, depth: nat, first: nat)
    requires nodes != [] && SpotsAt(all, at, SpotsOfAll(nodes, depth, first))
    ensures at < |all| && all[at].x == AcrossFirst(nodes, first)
    ensures LastAt(nodes, at) < |all| && all[LastAt(nodes, at)].x == AcrossLast(nodes, first)
    decreases |nodes|
  {
    var mine := Spots(nodes[0], depth, first);
    var more := SpotsOfAll(nodes[1..], depth, first + Leaves(nodes[0]));
    SpotsAtParts(all, at, mine, more);
    assert all[at] == all[at..at + |mine|][0];
    if |nodes| > 1 {
      SpotsSize(nodes[0], depth, first);
      LastIsThere(all, nodes[1..], at + Size(nodes[0]), depth, first + Leaves(nodes[0]));
    }
  }

  lemma SpotsSize(node: PlanNode, depth: nat, first: nat)
    ensures |Spots(node, depth, first)| == Size(node)
  {
    SpotsAreTheRows(node, depth, first);
    RowsSize(node, depth);
  }

  lemma {:induction false} LastIsAChild(rows: seq<Row>, nodes: seq<PlanNode>, i: nat, at: nat, depth: nat)
    requires nodes != [] && At(rows, at, RowsOfAll(nodes, depth + 1)) && i < at && i < |rows| && rows[i].depth == depth
    requires DeeperBetween(rows, i + 1, at, depth + 1)
    ensures IsParent(rows, i, at) && IsParent(rows, i, LastAt(nodes, at))
    decreases |nodes|
  {
    AtParts(rows, at, Rows(nodes[0], depth + 1), RowsOfAll(nodes[1..], depth + 1));
    AtDeeper(rows, at, nodes[0], depth + 1);
    RowsSize(nodes[0], depth + 1);
    if |nodes| > 1 {
      LastIsAChild(rows, nodes[1..], i, at + Size(nodes[0]), depth);
    }
  }

  /** What follows the last of some nodes, among their rows, is under it. */
  lemma {:induction false} UnderTheLast(rows: seq<Row>, nodes: seq<PlanNode>, at: nat, depth: nat)
    requires nodes != [] && At(rows, at, RowsOfAll(nodes, depth))
    ensures DeeperBetween(rows, LastAt(nodes, at) + 1, at + SizeOfAll(nodes), depth + 1)
    decreases |nodes|
  {
    RowsSize(nodes[0], depth);
    AtParts(rows, at, Rows(nodes[0], depth), RowsOfAll(nodes[1..], depth));
    if |nodes| > 1 {
      UnderTheLast(rows, nodes[1..], at + Size(nodes[0]), depth);
    } else {
      var under := RowsOfAll(nodes[0].children, depth + 1);
      AtParts(rows, at, [Row(nodes[0], depth)], under);
      RowsOfAllAreDeeper(nodes[0].children, depth + 1);
      forall k | at + 1 <= k < at + Size(nodes[0])
        ensures rows[k].depth >= depth + 1
      {
        assert rows[k] == rows[at + 1..at + 1 + |under|][k - at - 1];
        assert under[k - at - 1] in under;
      }
    }
  }

  lemma NoneAfterTheLast(rows: seq<Row>, i: nat, last: nat, end: nat, depth: nat, j: int)
    requires i < end && DeeperBetween(rows, last + 1, end, depth + 2) && EndsAt(rows, end, depth)
    requires IsParent(rows, i, j) && rows[i].depth == depth
    ensures j <= last
  {}

  lemma ChildrenLie(rows: seq<Row>, node: PlanNode, index: nat, depth: nat)
    requires At(rows, index, Rows(node, depth)) && node.children != [] && EndsAt(rows, index + Size(node), depth)
    ensures Outermost(rows, index, index + 1, LastAt(node.children, index + 1))
  {
    AtParts(rows, index, [Row(node, depth)], RowsOfAll(node.children, depth + 1));
    assert rows[index] == rows[index..index + 1][0];
    LastIsAChild(rows, node.children, index, index + 1, depth);
    UnderTheLast(rows, node.children, index + 1, depth + 1);
    forall j | IsParent(rows, index, j)
      ensures j <= LastAt(node.children, index + 1)
    {
      NoneAfterTheLast(rows, index, LastAt(node.children, index + 1), index + Size(node), depth, j);
    }
  }

  lemma {:induction false} CentredUnder(rows: seq<Row>, spots: seq<Spot>, node: PlanNode, index: nat, depth: nat, first: nat)
    requires At(rows, index, Rows(node, depth)) && SpotsAt(spots, index, Spots(node, depth, first))
    requires EndsAt(rows, index + Size(node), depth)
    ensures forall i: nat :: index <= i < index + Size(node) ==> Centred(rows, spots, i)
    decreases node
  {
    hide Outermost;
    var box := Spot(Across(node, first), depth * ROW, depth);
    AtParts(rows, index, [Row(node, depth)], RowsOfAll(node.children, depth + 1));
    SpotsAtParts(spots, index, [box], SpotsOfAll(node.children, depth + 1, first));
    assert rows[index] == rows[index..index + 1][0] && spots[index] == spots[index..index + 1][0];
    if node.children != [] {
      LastIsThere(spots, node.children, index + 1, depth + 1, first);
      ChildrenLie(rows, node, index, depth);
      assert Midway(rows, spots, index, index + 1, LastAt(node.children, index + 1));
    }
    assert Centred(rows, spots, index);
    CentredUnderAll(rows, spots, node.children, index + 1, depth + 1, first);
  }

  lemma {:induction false} CentredUnderAll(rows: seq<Row>, spots: seq<Spot>, nodes: seq<PlanNode>, at: nat, depth: nat, first: nat)
    requires At(rows, at, RowsOfAll(nodes, depth)) && SpotsAt(spots, at, SpotsOfAll(nodes, depth, first))
    requires EndsAt(rows, at + SizeOfAll(nodes), depth)
    ensures forall i: nat :: at <= i < at + SizeOfAll(nodes) ==> Centred(rows, spots, i)
    decreases nodes
  {
    hide Centred;
    if nodes != [] {
      var next := at + Size(nodes[0]);
      var further := first + Leaves(nodes[0]);
      AtParts(rows, at, Rows(nodes[0], depth), RowsOfAll(nodes[1..], depth));
      SpotsAtParts(spots, at, Spots(nodes[0], depth, first), SpotsOfAll(nodes[1..], depth, further));
      RowsSize(nodes[0], depth);
      SpotsSize(nodes[0], depth, first);
      if |nodes| > 1 {
        AtParts(rows, next, Rows(nodes[1], depth), RowsOfAll(nodes[2..], depth));
        AtDeeper(rows, next, nodes[1], depth);
      }
      CentredUnder(rows, spots, nodes[0], at, depth, first);
      CentredUnderAll(rows, spots, nodes[1..], next, depth, further);
    }
  }

  /** Every node with inputs is centred over the first and the last of the rows that are its inputs. */
  lemma ParentsAreCentred(root: PlanNode, i: nat)
    requires i < |Rows(root, 0)|
    ensures |Spots(root, 0, 0)| == |Rows(root, 0)|
    ensures Centred(Rows(root, 0), Spots(root, 0, 0), i)
  {
    var rows, spots := Rows(root, 0), Spots(root, 0, 0);
    SpotsAreTheRows(root, 0, 0);
    RowsSize(root, 0);
    assert At(rows, 0, rows) && SpotsAt(spots, 0, spots);
    CentredUnder(rows, spots, root, 0, 0, 0);
  }

  // ---- CTEs ----

  predicate ScansCte(node: PlanNode) {
    node.operation == "CTE Scan" && node.cteName.Some?
  }

  /** The CTEs' own plans by name, the last of a name kept. */
  function BodiesFrom(rows: seq<Row>, at: nat, bodies: map<string, nat>): map<string, nat> {
    if rows == [] then bodies
    else
      var cte := CteOf(rows[0].node.role);
      BodiesFrom(rows[1..], at + 1, if cte.Some? then bodies[cte.value := at] else bodies)
  }

  /** The scans of a CTE, in order, with the name of what each reads. */
  function ScansFrom(rows: seq<Row>, at: nat): seq<(nat, string)> {
    if rows == [] then []
    else (if ScansCte(rows[0].node) then [(at, rows[0].node.cteName.value)] else []) + ScansFrom(rows[1..], at + 1)
  }

  /** `scans.flatMap`: a scan of a CTE that has no plan here is left out. */
  function LinksOf(scans: seq<(nat, string)>, bodies: map<string, nat>): seq<Link> {
    if scans == [] then []
    else (if scans[0].1 in bodies then [Link(bodies[scans[0].1], scans[0].0)] else []) + LinksOf(scans[1..], bodies)
  }

  lemma {:induction false} BodiesConcat(a: seq<Row>, b: seq<Row>, at: nat, bodies: map<string, nat>)
    ensures BodiesFrom(a + b, at, bodies) == BodiesFrom(b, at + |a|, BodiesFrom(a, at, bodies))
  {
    if a == [] {
      assert a + b == b;
    } else {
      var cte := CteOf(a[0].node.role);
      assert (a + b)[1..] == a[1..] + b;
      BodiesConcat(a[1..], b, at + 1, if cte.Some? then bodies[cte.value := at] else bodies);
    }
  }

  lemma {:induction false} ScansConcat(a: seq<Row>, b: seq<Row>, at: nat)
    ensures ScansFrom(a + b, at) == ScansFrom(a, at) + ScansFrom(b, at + |a|)
  {
    if a == [] {
      assert a + b == b;
    } else {
      hide ScansCte;
      var mine: seq<(nat, string)> := if ScansCte(a[0].node) then [(at, a[0].node.cteName.value)] else [];
      assert (a + b)[1..] == a[1..] + b;
      ScansConcat(a[1..], b, at + 1);
      Associates(mine, ScansFrom(a[1..], at + 1), ScansFrom(b, at + |a|));
    }
  }

  /** Row `i` is the last whose node is the plan of the CTE named. */
  ghost predicate IsBody(rows: seq<Row>, i: int, name: string) {
    && 0 <= i < |rows| && CteOf(rows[i].node.role) == Option.Some(name)
    && (forall k :: i < k < |rows| ==> CteOf(rows[k].node.role) != Option.Some(name))
  }

  lemma {:induction false} BodiesAreTheLast(rows: seq<Row>, at: nat, bodies: map<string, nat>, name: string)
    ensures var found := BodiesFrom(rows, at, bodies);
      if exists i :: IsBody(rows, i, name) then name in found && IsBody(rows, found[name] - at, name)
      else (name in found <==> name in bodies) && (name in bodies ==> found[name] == bodies[name])
    decreases |rows|
  {
    if rows == [] {
      assert BodiesFrom(rows, at, bodies) == bodies;
    } else {
      var cte, tail := CteOf(rows[0].node.role), rows[1..];
      var more := if cte.Some? then bodies[cte.value := at] else bodies;
      BodiesAreTheLast(tail, at + 1, more, name);
      BodyBelow(rows, name);
    }
  }

  /** The last row of a name is in the tail when the tail has one, and else may be the first row. */
  lemma BodyBelow(rows: seq<Row>, name: string)
    requires rows != []
    ensures forall i :: IsBody(rows[1..], i, name) ==> IsBody(rows, i + 1, name)
    ensures forall i :: IsBody(rows, i, name) && i > 0 ==> IsBody(rows[1..], i - 1, name)
    ensures (forall i :: !IsBody(rows[1..], i, name)) ==>
      (IsBody(rows, 0, name) <==> CteOf(rows[0].node.role) == Option.Some(name))
  {
    var tail := rows[1..];
    forall i | IsBody(tail, i, name)
      ensures IsBody(rows, i + 1, name)
    {
      assert forall k :: i + 1 < k < |rows| ==> rows[k] == tail[k - 1];
    }
    forall i | IsBody(rows, i, name) && i > 0
      ensures IsBody(tail, i - 1, name)
    {
      assert forall k :: i - 1 < k < |tail| ==> tail[k] == rows[k + 1];
    }
    if forall i :: !IsBody(tail, i, name) {
      NoBodyNoRow(tail, name, |tail|);
      assert forall k :: 0 < k < |rows| ==> rows[k] == tail[k - 1];
    }
  }

  lemma {:induction false} NoBodyNoRow(rows: seq<Row>, name: string, from: nat)
    requires from <= |rows| && (forall i :: !IsBody(rows, i, name))
    requires forall k :: from <= k < |rows| ==> CteOf(rows[k].node.role) != Option.Some(name)
    ensures forall k :: 0 <= k < |rows| ==> CteOf(rows[k].node.role) != Option.Some(name)
    decreases from
  {
    if from > 0 {
      assert !IsBody(rows, from - 1, name);
      NoBodyNoRow(rows, name, from - 1);
    }
  }

  lemma {:induction false} ScansAreTheRows(rows: seq<Row>, at: nat, to: int, name: string)
    ensures (to, name) in ScansFrom(rows, at) <==>
      at <= to < at + |rows| && ScansCte(rows[to - at].node) && rows[to - at].node.cteName.value == name
    decreases |rows|
  {
    if rows != [] {
      ScansAreTheRows(rows[1..], at + 1, to, name);
    }
  }

  lemma {:induction false} LinksAreTheScans(scans: seq<(nat, string)>, bodies: map<string, nat>, from: nat, to: nat)
    ensures Link(from, to) in LinksOf(scans, bodies) <==>
      exists name :: (to, name) in scans && name in bodies && bodies[name] == from
  {
    if scans != [] {
      LinksAreTheScans(scans[1..], bodies, from, to);
      assert scans == [scans[0]] + scans[1..];
      if scans[0].0 == to && scans[0].1 in bodies && bodies[scans[0].1] == from {
        assert (to, scans[0].1) in scans;
      }
    }
  }

  /** A scan is joined to a CTE's plan exactly when that is the plan, the last one, of the CTE it reads. */
  lemma LinksJoinScansToTheirCte(root: PlanNode, from: nat, to: nat)
    ensures var rows := Rows(root, 0);
      Link(from, to) in LinksOf(ScansFrom(rows, 0), BodiesFrom(rows, 0, map[])) <==>
        to < |rows| && ScansCte(rows[to].node) && IsBody(rows, from, rows[to].node.cteName.value)
  {
    var rows := Rows(root, 0);
    var scans, bodies := ScansFrom(rows, 0), BodiesFrom(rows, 0, map[]);
    LinksAreTheScans(scans, bodies, from, to);
    forall name
      ensures (to, name) in scans <==> to < |rows| && ScansCte(rows[to].node) && rows[to].node.cteName.value == name
      ensures name in bodies && bodies[name] == from <==> IsBody(rows, from, name)
    {
      ScansAreTheRows(rows, 0, to, name);
      BodiesAreTheLast(rows, 0, map[], name);
      if IsBody(rows, from, name) {
        OneBody(rows, from, bodies[name], name);
      }
    }
  }

  lemma OneBody(rows: seq<Row>, i: int, j: int, name: string)
    requires IsBody(rows, i, name) && IsBody(rows, j, name)
    ensures i == j
  {}

  // ---- the walk ----

  /** The indexes of the boxes of some nodes, the first of them at `at`. */
  function Indexes(nodes: seq<PlanNode>, at: nat): seq<nat> {
    if nodes == [] then [] else [at] + Indexes(nodes[1..], at + Size(nodes[0]))
  }

  lemma {:induction false} IndexesEnds(nodes: seq<PlanNode>, at: nat)
    ensures |Indexes(nodes, at)| == |nodes|
    ensures nodes != [] ==> Indexes(nodes, at)[0] == at && Indexes(nodes, at)[|nodes| - 1] == LastAt(nodes, at)
  {
    if nodes != [] {
      IndexesEnds(nodes[1..], at + Size(nodes[0]));
    }
  }

  /** The lists, the maps and the counters the walk changes. */
  class Walk {
    var spots: seq<Spot>
    var edges: seq<Edge>
    var bodies: map<string, nat>
    var scans: seq<(nat, string)>
    var leaves: nat
    var deepest: nat

    constructor ()
      ensures spots == [] && edges == [] && bodies == map[] && scans == [] && leaves == 0 && deepest == 0
    {
      spots, edges, bodies, scans, leaves, deepest := [], [], map[], [], 0, 0;
    }

    /** What `place` does before it goes to the children. */
    method Enter(node: PlanNode, depth: nat) returns (index: nat)
      modifies this
      ensures index == |old(spots)| && spots == old(spots) + [Spot(0.0, depth * ROW, depth)]
      ensures edges == old(edges) && leaves == old(leaves) && deepest == Largest(old(deepest), depth)
      ensures bodies == BodiesFrom([Row(node, depth)], index, old(bodies))
      ensures scans == old(scans) + ScansFrom([Row(node, depth)], index)
    {
      index := |spots|;
      spots := spots + [Spot(0.0, depth * ROW, depth)];
      deepest := Largest(deepest, depth);
      var name := CteOf(node.role);
      if name.Some? {
        bodies := bodies[name.value := index];
      }
      if ScansCte(node) {
        scans := scans + [(index, node.cteName.value)];
      }
    }

    /** A leaf takes the next column; any other is put midway over its children. */
    method Settle(node: PlanNode, depth: nat, index: nat, children: seq<nat>, ghost before: seq<Spot>, ghost first: nat)
      requires spots == before + ([Spot(0.0, depth * ROW, depth)] + SpotsOfAll(node.children, depth + 1, first))
      requires index == |before| && children == Indexes(node.children, index + 1)
      requires leaves == first + LeavesOfAll(node.children)
      modifies `spots, `leaves
      ensures spots == before + Spots(node, depth, first) && leaves == first + Leaves(node)
    {
      IndexesEnds(node.children, index + 1);
      ghost var below := SpotsOfAll(node.children, depth + 1, first);
      assert spots[index..] == [Spot(0.0, depth * ROW, depth)] + below;
      if |children| == 0 {
        spots := spots[index := spots[index].(x := (leaves * STEP) as real)];
        leaves := leaves + 1;
      } else {
        assert SpotsAt(spots, index + 1, below) by {
          assert spots[index + 1..] == spots[index..][1..] == below;
          assert spots[index + 1..index + 1 + |below|] == spots[index + 1..];
        }
        LastIsThere(spots, node.children, index + 1, depth + 1, first);
        spots := spots[index := spots[index].(x := (spots[children[0]].x + spots[children[|children| - 1]].x) / 2.0)];
      }
      assert spots[index] == Spot(Across(node, first), depth * ROW, depth);
      assert spots == before + ([spots[index]] + below);
    }

    method PushEdges(node: PlanNode, index: nat, children: seq<nat>)
      requires children == Indexes(node.children, index + 1)
      modifies `edges
      ensures edges == old(edges) + OwnEdges(node.children, index, index + 1)
    {
      IndexesEnds(node.children, index + 1);
      ghost var at: nat := index + 1;
      assert node.children[0..] == node.children && children[0..] == children;
      for i := 0 to |node.children|
        invariant |children| == |node.children| && children[i..] == Indexes(node.children[i..], at)
        invariant edges + OwnEdges(node.children[i..], index, at)
               == old(edges) + OwnEdges(node.children, index, index + 1)
      {
        var line := Edge(children[i], index, Flowed(node.children[i]));
        assert children[i] == children[i..][0];
        assert node.children[i..][1..] == node.children[i + 1..] && children[i..][1..] == children[i + 1..];
        at := at + Size(node.children[i]);
        Associates(edges, [line], OwnEdges(node.children[i + 1..], index, at));
        edges := edges + [line];
      }
    }

    method Place(node: PlanNode, depth: nat) returns (index: nat)
      modifies this
      ensures index == |old(spots)| && spots == old(spots) + Spots(node, depth, old(leaves))
      ensures edges == old(edges) + Edges(node, index)
      ensures leaves == old(leaves) + Leaves(node) && deepest == Largest(old(deepest), Deepest(node, depth))
      ensures bodies == BodiesFrom(Rows(node, depth), index, old(bodies))
      ensures scans == old(scans) + ScansFrom(Rows(node, depth), index)
      decreases node, 1
    {
      hide Spots, SpotsOfAll, BodiesFrom, ScansFrom, Leaves, Rows, RowsOfAll;
      index := Enter(node, depth);
      ghost var box := Spot(0.0, depth * ROW, depth);
      assert |spots| == index + 1;
      var children := PlaceAll(node.children, depth + 1);
      Associates(old(spots), [box], SpotsOfAll(node.children, depth + 1, old(leaves)));
      Settle(node, depth, index, children, old(spots), old(leaves));
      Associates(old(edges), EdgesOfAll(node.children, index + 1), OwnEdges(node.children, index, index + 1));
      PushEdges(node, index, children);
      WalkedRows(node, depth, index, old(bodies), old(scans));
      DeepestJoins(node.children, depth + 1, old(deepest), depth);
    }

    method PlaceAll(nodes: seq<PlanNode>, depth: nat) returns (indexes: seq<nat>)
      modifies this
      ensures indexes == Indexes(nodes, |old(spots)|)
      ensures spots == old(spots) + SpotsOfAll(nodes, depth, old(leaves))
      ensures edges == old(edges) + EdgesOfAll(nodes, |old(spots)|)
      ensures leaves == old(leaves) + LeavesOfAll(nodes) && deepest == DeepestOfAll(nodes, depth, old(deepest))
      ensures bodies == BodiesFrom(RowsOfAll(nodes, depth), |old(spots)|, old(bodies))
      ensures scans == old(scans) + ScansFrom(RowsOfAll(nodes, depth), |old(spots)|)
      decreases nodes, 0
    {
      hide Spots, BodiesFrom, ScansFrom, Leaves, Rows, Edges, Deepest, Indexes;
      hide SpotsOfAll, EdgesOfAll, LeavesOfAll, DeepestOfAll, RowsOfAll;
      ghost var at := |spots|;
      if nodes == [] {
        NothingWalked(depth, at, leaves, deepest, bodies);
        return [];
      }
      WalkedFirst(nodes, depth, at, leaves, deepest);
      var first := Place(nodes[0], depth);
      SpotsSize(nodes[0], depth, old(leaves));
      var rest := PlaceAll(nodes[1..], depth);
      indexes := [first] + rest;
      ghost var next := at + Size(nodes[0]);
      Associates(old(spots), Spots(nodes[0], depth, old(leaves)), SpotsOfAll(nodes[1..], depth, old(leaves) + Leaves(nodes[0])));
      Associates(old(edges), Edges(nodes[0], at), EdgesOfAll(nodes[1..], next));
      WalkedMore(nodes, depth, at, old(bodies), old(scans));
    }
  }

  lemma {:induction false} DeepestJoins(nodes: seq<PlanNode>, depth: nat, a: nat, b: nat)
    ensures DeepestOfAll(nodes, depth, Largest(a, b)) == Largest(a, DeepestOfAll(nodes, depth, b))
    decreases |nodes|
  {
    if nodes != [] {
      var d := Deepest(nodes[0], depth);
      assert Largest(Largest(a, b), d) == Largest(a, Largest(b, d));
      DeepestJoins(nodes[1..], depth, a, Largest(b, d));
    }
  }

  lemma NothingWalked(depth: nat, at: nat, leaves: nat, deepest: nat, bodies: map<string, nat>)
    ensures Indexes([], at) == [] && SpotsOfAll([], depth, leaves) == [] && EdgesOfAll([], at) == []
    ensures LeavesOfAll([]) == 0 && DeepestOfAll([], depth, deepest) == deepest && RowsOfAll([], depth) == []
    ensures BodiesFrom([], at, bodies) == bodies && ScansFrom([], at) == []
  {}

  /** What some nodes leave, by the first of them and the rest. */
  lemma WalkedFirst(nodes: seq<PlanNode>, depth: nat, at: nat, leaves: nat, deepest: nat)
    requires nodes != []
    ensures var first, rest := nodes[0], nodes[1..];
      && Indexes(nodes, at) == [at] + Indexes(rest, at + Size(first))
      && SpotsOfAll(nodes, depth, leaves)
         == Spots(first, depth, leaves) + SpotsOfAll(rest, depth, leaves + Leaves(first))
      && EdgesOfAll(nodes, at) == Edges(first, at) + EdgesOfAll(rest, at + Size(first))
      && LeavesOfAll(nodes) == Leaves(first) + LeavesOfAll(rest)
      && DeepestOfAll(nodes, depth, deepest) == DeepestOfAll(rest, depth, Largest(deepest, Deepest(first, depth)))
  {
    hide Size, Spots, Leaves, Edges, Deepest;
  }

  /** What a node and then its children leave in the maps is what its rows say. */
  lemma WalkedRows(node: PlanNode, depth: nat, index: nat, bodies: map<string, nat>, scans: seq<(nat, string)>)
    ensures var own, below := [Row(node, depth)], RowsOfAll(node.children, depth + 1);
      && BodiesFrom(Rows(node, depth), index, bodies) == BodiesFrom(below, index + 1, BodiesFrom(own, index, bodies))
      && scans + ScansFrom(Rows(node, depth), index) == scans + ScansFrom(own, index) + ScansFrom(below, index + 1)
  {
    hide BodiesFrom, ScansFrom;
    var own, below := [Row(node, depth)], RowsOfAll(node.children, depth + 1);
    BodiesConcat(own, below, index, bodies);
    ScansConcat(own, below, index);
    Associates(scans, ScansFrom(own, index), ScansFrom(below, index + 1));
  }

  lemma WalkedMore(nodes: seq<PlanNode>, depth: nat, at: nat, bodies: map<string, nat>, scans: seq<(nat, string)>)
    requires nodes != []
    ensures var next, mine, more := at + Size(nodes[0]), Rows(nodes[0], depth), RowsOfAll(nodes[1..], depth);
      && BodiesFrom(RowsOfAll(nodes, depth), at, bodies) == BodiesFrom(more, next, BodiesFrom(mine, at, bodies))
      && scans + ScansFrom(RowsOfAll(nodes, depth), at) == scans + ScansFrom(mine, at) + ScansFrom(more, next)
  {
    hide BodiesFrom, ScansFrom, Rows;
    var mine, more := Rows(nodes[0], depth), RowsOfAll(nodes[1..], depth);
    RowsSize(nodes[0], depth);
    BodiesConcat(mine, more, at, bodies);
    ScansConcat(mine, more, at);
    Associates(scans, ScansFrom(mine, at), ScansFrom(more, at + Size(nodes[0])));
  }

  method LinkUp(scans: seq<(nat, string)>, bodies: map<string, nat>) returns (ctes: seq<Link>)
    ensures ctes == LinksOf(scans, bodies)
  {
    ctes := [];
    assert scans[0..] == scans;
    for i := 0 to |scans|
      invariant ctes + LinksOf(scans[i..], bodies) == LinksOf(scans, bodies)
    {
      assert scans[i..][1..] == scans[i + 1..];
      if scans[i].1 in bodies {
        Associates(ctes, [Link(bodies[scans[i].1], scans[i].0)], LinksOf(scans[i + 1..], bodies));
        ctes := ctes + [Link(bodies[scans[i].1], scans[i].0)];
      }
    }
  }

  method LayOut(root: PlanNode) returns (laid: Layout)
    ensures laid.spots == Spots(root, 0, 0) && laid.edges == Edges(root, 0)
    ensures laid.ctes == LinksOf(ScansFrom(Rows(root, 0), 0), BodiesFrom(Rows(root, 0), 0, map[]))
    ensures laid.width == Width(Leaves(root)) && laid.height == Height(Deepest(root, 0))
  {
    var walk := new Walk();
    var index := walk.Place(root, 0);
    assert walk.spots == Spots(root, 0, 0) && walk.edges == Edges(root, 0);
    assert walk.scans == ScansFrom(Rows(root, 0), 0);
    assert walk.deepest == Deepest(root, 0);
    var ctes := LinkUp(walk.scans, walk.bodies);
    return Layout(walk.spots, walk.edges, ctes, Width(walk.leaves), Height(walk.deepest));
  }
}
