/**
 * The lines of a plan's graph: which boxes `PlanLayout` joins, told from the
 * depths the table shows alone.
 */
module PlanEdges {
  import opened PlanLayout

  /** The lines under a node whose box is at `index`, in the order they are pushed. */
  function Edges(node: PlanNode, index: nat): seq<Edge>
    decreases node
  {
    EdgesOfAll(node.children, index + 1) + OwnEdges(node.children, index, index + 1)
  }

  function EdgesOfAll(nodes: seq<PlanNode>, at: nat): seq<Edge>
    decreases nodes
  {
    if nodes == [] then [] else Edges(nodes[0], at) + EdgesOfAll(nodes[1..], at + Size(nodes[0]))
  }

  /** From each child, the first of them at `at`, up to its parent. */
  function OwnEdges(nodes: seq<PlanNode>, to: nat, at: nat): seq<Edge> {
    if nodes == [] then []
    else [Edge(at, to, Flowed(nodes[0]))] + OwnEdges(nodes[1..], to, at + Size(nodes[0]))
  }

  /** Row `i` is what row `j` is indented under: the nearest above that is one less deep. */
  ghost predicate IsParent(rows: seq<Row>, i: int, j: int) {
    && 0 <= i < j < |rows| && rows[i].depth + 1 == rows[j].depth
    && (forall k :: i < k < j ==> rows[k].depth >= rows[j].depth)
  }

  lemma OneParent(rows: seq<Row>, i: int, other: int, j: int)
    requires IsParent(rows, i, j) && IsParent(rows, other, j)
    ensures i == other
  {}

  // ---- a subtree's rows within all of them ----

  ghost predicate At(all: seq<Row>, index: nat, part: seq<Row>) {
    index + |part| <= |all| && all[index..index + |part|] == part
  }

  lemma AtParts(all: seq<Row>, index: nat, a: seq<Row>, b: seq<Row>)
    requires At(all, index, a + b)
    ensures At(all, index, a) && At(all, index + |a|, b)
  {
    var part := all[index..index + |a + b|];
    assert part[..|a|] == a && part[|a|..] == b;
    assert all[index..index + |a|] == part[..|a|];
    assert all[index + |a|..index + |a| + |b|] == part[|a|..];
  }

  lemma {:induction false} RowsAreDeeper(node: PlanNode, depth: nat)
    ensures forall r <- Rows(node, depth) :: r.depth >= depth
    decreases node
  {
    RowsOfAllAreDeeper(node.children, depth + 1);
  }

  lemma {:induction false} RowsOfAllAreDeeper(nodes: seq<PlanNode>, depth: nat)
    ensures forall r <- RowsOfAll(nodes, depth) :: r.depth >= depth
    decreases nodes
  {
    if nodes != [] {
      RowsAreDeeper(nodes[0], depth);
      RowsOfAllAreDeeper(nodes[1..], depth);
    }
  }

  /** Rows a node hands up: those of each loop, over all its loops, where it was run, and the estimate where it was not. */
  ghost predicate HandsUp(node: PlanNode, rows: real) {
    match node.actual
    case Some(measured) => rows == measured.rows * measured.loops
    case None => rows == node.estimatedRows
  }

  /** Joins a row below `from` to its parent, and says how many rows it hands up. */
  ghost predicate Right(all: seq<Row>, e: Edge, from: nat, to: nat) {
    from <= e.from < to && IsParent(all, e.to, e.from) && e.rows == Flowed(all[e.from].node)
  }

  ghost predicate AllRight(all: seq<Row>, edges: seq<Edge>, from: nat, to: nat) {
    forall e <- edges :: Right(all, e, from, to)
  }

  ghost predicate Covers(edges: seq<Edge>, from: nat, to: nat) {
    forall j {:trigger Leads(edges, j)} :: from <= j < to ==> Leads(edges, j)
  }

  ghost predicate Leads(edges: seq<Edge>, j: int) {
    exists e <- edges :: e.from == j
  }

  /** What has been said of the rows between a node and its next child. */
  ghost predicate DeeperBetween(all: seq<Row>, from: int, to: int, depth: nat) {
    0 <= from <= to <= |all| && forall k :: from <= k < to ==> all[k].depth >= depth
  }

  lemma AtDeeper(all: seq<Row>, index: nat, node: PlanNode, depth: nat)
    requires At(all, index, Rows(node, depth))
    ensures DeeperBetween(all, index, index + Size(node), depth)
    ensures all[index] == Row(node, depth)
  {
    RowsAreDeeper(node, depth);
    RowsSize(node, depth);
    var rows := Rows(node, depth);
    forall k | index <= k < index + Size(node)
      ensures all[k].depth >= depth
    {
      assert all[k] == all[index..index + |rows|][k - index];
      assert rows[k - index] in rows;
    }
    assert all[index] == all[index..index + |rows|][0];
  }

  lemma {:induction false} OwnEdgesRight(all: seq<Row>, nodes: seq<PlanNode>, to: nat, at: nat, depth: nat)
    requires At(all, at, RowsOfAll(nodes, depth + 1)) && to < at && to < |all| && all[to].depth == depth
    requires DeeperBetween(all, to + 1, at, depth + 1)
    ensures AllRight(all, OwnEdges(nodes, to, at), at, at + SizeOfAll(nodes))
    ensures |OwnEdges(nodes, to, at)| == |nodes|
    decreases |nodes|
  {
    if nodes != [] {
      var next := at + Size(nodes[0]);
      RowsSize(nodes[0], depth + 1);
      AtParts(all, at, Rows(nodes[0], depth + 1), RowsOfAll(nodes[1..], depth + 1));
      AtDeeper(all, at, nodes[0], depth + 1);
      OwnEdgesRight(all, nodes[1..], to, next, depth);
      var rest := OwnEdges(nodes[1..], to, next);
      forall e | e in OwnEdges(nodes, to, at)
        ensures Right(all, e, at, at + SizeOfAll(nodes))
      {
        if e in rest {
          assert Right(all, e, next, next + SizeOfAll(nodes[1..]));
        }
      }
    }
  }

  lemma {:induction false} EdgesRight(all: seq<Row>, node: PlanNode, index: nat, depth: nat)
    requires At(all, index, Rows(node, depth))
    ensures AllRight(all, Edges(node, index), index + 1, index + Size(node))
    ensures |Edges(node, index)| == Size(node) - 1
    decreases node
  {
    AtParts(all, index, [Row(node, depth)], RowsOfAll(node.children, depth + 1));
    AtDeeper(all, index, node, depth);
    OwnEdgesRight(all, node.children, index, index + 1, depth);
    EdgesOfAllRight(all, node.children, index + 1, depth + 1);
  }

  lemma {:induction false} EdgesOfAllRight(all: seq<Row>, nodes: seq<PlanNode>, at: nat, depth: nat)
    requires At(all, at, RowsOfAll(nodes, depth))
    ensures AllRight(all, EdgesOfAll(nodes, at), at, at + SizeOfAll(nodes))
    ensures |EdgesOfAll(nodes, at)| == SizeOfAll(nodes) - |nodes|
    decreases nodes
  {
    if nodes != [] {
      var next := at + Size(nodes[0]);
      RowsSize(nodes[0], depth);
      AtParts(all, at, Rows(nodes[0], depth), RowsOfAll(nodes[1..], depth));
      EdgesRight(all, nodes[0], at, depth);
      EdgesOfAllRight(all, nodes[1..], next, depth);
      var mine, rest := Edges(nodes[0], at), EdgesOfAll(nodes[1..], next);
      forall e | e in mine + rest
        ensures Right(all, e, at, at + SizeOfAll(nodes))
      {
        if e in mine {
          assert Right(all, e, at + 1, next);
        } else {
          assert Right(all, e, next, next + SizeOfAll(nodes[1..]));
        }
      }
    }
  }

  // ---- every row but the first has its line ----

  lemma {:induction false} EdgesCover(node: PlanNode, index: nat)
    ensures Covers(Edges(node, index), index + 1, index + Size(node))
    decreases node
  {
    ChildrenCovered(node.children, index, index + 1);
  }

  /** Each row under a list of children has its line: a child's own, or one within the child. */
  lemma {:induction false} ChildrenCovered(nodes: seq<PlanNode>, to: nat, at: nat)
    ensures Covers(EdgesOfAll(nodes, at) + OwnEdges(nodes, to, at), at, at + SizeOfAll(nodes))
    decreases nodes
  {
    if nodes != [] {
      var next := at + Size(nodes[0]);
      EdgesCover(nodes[0], at);
      ChildrenCovered(nodes[1..], to, next);
      CoverJoined(Edges(nodes[0], at), EdgesOfAll(nodes[1..], next), Edge(at, to, Flowed(nodes[0])),
                  OwnEdges(nodes[1..], to, next), at, next, at + SizeOfAll(nodes));
    }
  }

  lemma CoverJoined(mine: seq<Edge>, inside: seq<Edge>, first: Edge, own: seq<Edge>, at: nat, next: nat, end: nat)
    requires Covers(mine, at + 1, next) && Covers(inside + own, next, end) && first.from == at
    ensures Covers(mine + inside + ([first] + own), at, end)
  {
    var all := mine + inside + ([first] + own);
    forall j {:trigger Leads(all, j)} | at <= j < end
      ensures Leads(all, j)
    {
      if j == at {
        assert first in all;
      } else if j < next {
        assert Leads(mine, j);
        var e: Edge :| e in mine && e.from == j;
        assert e in all;
      } else {
        assert Leads(inside + own, j);
        var e: Edge :| e in inside + own && e.from == j;
        assert e in all;
      }
    }
  }

  /**
   * The lines are exactly those from each row to the row it is indented under:
   * one for every row but the first, with the rows that one hands up.
   */
  lemma EdgesAreTheParents(root: PlanNode)
    ensures var rows, edges := Rows(root, 0), Edges(root, 0);
      && |edges| == |rows| - 1
      && (forall e <- edges :: IsParent(rows, e.to, e.from) && HandsUp(rows[e.from].node, e.rows))
      && (forall i, j :: IsParent(rows, i, j) ==>
           exists e <- edges :: e.from == j && e.to == i)
  {
    var rows, edges := Rows(root, 0), Edges(root, 0);
    RowsSize(root, 0);
    assert At(rows, 0, rows);
    EdgesRight(rows, root, 0, 0);
    EdgesCover(root, 0);
    forall e | e in edges
      ensures IsParent(rows, e.to, e.from) && HandsUp(rows[e.from].node, e.rows)
    {
      assert Right(rows, e, 1, Size(root));
    }
    forall i, j | IsParent(rows, i, j)
      ensures exists e <- edges :: e.from == j && e.to == i
    {
      assert Leads(edges, j);
      var e :| e in edges && e.from == j;
      OneParent(rows, e.to, i, j);
    }
  }
}
