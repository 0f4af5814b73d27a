/**
 * How a plan's time is shared out among its nodes: `wallMs`, `processesUnder`,
 * `collectCtes`, `node` and `measured` of `src/features/query-plan/plan.ts`,
 * with times as reals. The counts PostgreSQL writes are naturals.
 */
module PlanTimes {
  import opened Basics
  import PlanLayout

  /** Of a plan's JSON what the times are read from. */
  datatype RawNode = RawNode(nodeType: string, subplan: Option<string>, cteName: Option<string>, rows: Option<real>,
                             time: Option<real>, loops: Option<nat>, workers: Option<nat>, plans: seq<RawNode>)

  datatype Measured = Measured(rows: real, loops: nat, totalMs: real, selfMs: real)

  /** What is shown of a node: what it took, and its children. */
  datatype Timed = Timed(actual: Option<Measured>, children: seq<Timed>)

  /** How many processes run a node, where a `Gather` above says. */
  type Processes = p: Option<nat> | p.None? || p.value > 0 witness None

  function WallMs(raw: RawNode, processes: Processes): Option<real> {
    if raw.loops.None? then None
    else if raw.time.None? || raw.loops.value == 0 then Some(0.0)
    else
      var alongside := if processes.None? then 1
                       else if raw.loops.value < processes.value then raw.loops.value else processes.value;
      Some(Share(raw.time.value, raw.loops.value, alongside))
  }

  /** All of a node's loops, so many at a time. */
  function Share(time: real, loops: nat, alongside: nat): real
    requires alongside > 0
  {
    time * loops as real / alongside as real
  }

  predicate StartsWithGather(nodeType: string) {
    |nodeType| >= 6 && nodeType[..6] == "Gather"
  }

  function ProcessesUnder(raw: RawNode, processes: Processes): Processes {
    if StartsWithGather(raw.nodeType)
    then Some((if raw.workers.Some? then raw.workers.value else 0) + 1)
    else processes
  }

  function TotalMs(raw: RawNode, processes: Processes): real {
    if WallMs(raw, processes).Some? then WallMs(raw, processes).value else 0.0
  }

  function CteOf(raw: RawNode): Option<string> {
    PlanLayout.CteOf(raw.subplan)
  }

  // ---- the CTEs' own plans, and what scans them ----

  datatype Body = Body(name: string, totalMs: real)

  /** The CTEs defined at a node and under it, depth first, with how long each took. */
  function Bodies(raw: RawNode, processes: Processes): seq<Body>
    decreases raw
  {
    (if CteOf(raw).Some? then [Body(CteOf(raw).value, TotalMs(raw, processes))] else [])
    + BodiesOfAll(raw.plans, ProcessesUnder(raw, processes))
  }

  function BodiesOfAll(raws: seq<RawNode>, processes: Processes): seq<Body>
    decreases raws
  {
    if raws == [] then [] else Bodies(raws[0], processes) + BodiesOfAll(raws[1..], processes)
  }

  /** `ctes` after the bodies are written into it, a later one over an earlier one of its name. */
  function Recorded(bodies: seq<Body>, ctes: map<string, real>): map<string, real> {
    if bodies == [] then ctes
    else Recorded(bodies[1..], ctes[bodies[0].name := bodies[0].totalMs])
  }

  lemma {:induction false} RecordedConcat(a: seq<Body>, b: seq<Body>, ctes: map<string, real>)
    ensures Recorded(a + b, ctes) == Recorded(b, Recorded(a, ctes))
  {
    if a == [] {
      assert a + b == b;
    } else {
      assert (a + b)[1..] == a[1..] + b;
      RecordedConcat(a[1..], b, ctes[a[0].name := a[0].totalMs]);
    }
  }

  /** The map of CTE times, filled as the plan is walked. */
  class CteTimes {
    var times: map<string, real>

    constructor ()
      ensures times == map[]
    {
      times := map[];
    }

    method Collect(raw: RawNode, processes: Processes)
      modifies this
      ensures times == Recorded(Bodies(raw, processes), old(times))
      decreases raw
    {
      var mine := if CteOf(raw).Some? then [Body(CteOf(raw).value, TotalMs(raw, processes))] else [];
      var under := ProcessesUnder(raw, processes);
      RecordedConcat(mine, BodiesOfAll(raw.plans, under), times);
      if CteOf(raw).Some? {
        times := times[CteOf(raw).value := TotalMs(raw, processes)];
      }
      for i := 0 to |raw.plans|
        invariant Recorded(BodiesOfAll(raw.plans[i..], under), times)
                  == Recorded(Bodies(raw, processes), old(times))
      {
        assert raw.plans[i..][1..] == raw.plans[i + 1..];
        RecordedConcat(Bodies(raw.plans[i], under), BodiesOfAll(raw.plans[i + 1..], under), times);
        Collect(raw.plans[i], under);
      }
    }
  }

  /** What a CTE's scan is given for the time its CTE took. */
  function Looked(ctes: map<string, real>, name: string): real {
    if name in ctes then ctes[name] else 0.0
  }

  /** The name of the CTE a scan reads, the empty one where the plan gives none. */
  function Scanned(raw: RawNode): string {
    if raw.cteName.Some? then raw.cteName.value else ""
  }

  /** What the CTE a node scans took, nothing when it scans none. */
  function Deducted(raw: RawNode, ctes: map<string, real>): real {
    if raw.nodeType != "CTE Scan" then 0.0
    else Looked(ctes, Scanned(raw))
  }

  function InputsOf(raws: seq<RawNode>, under: Processes): real {
    if raws == [] then 0.0
    else (if CteOf(raws[0]).Some? then 0.0 else TotalMs(raws[0], under)) + InputsOf(raws[1..], under)
  }

  function InputsMs(raw: RawNode, processes: Processes, ctes: map<string, real>): real {
    InputsOf(raw.plans, ProcessesUnder(raw, processes)) + Deducted(raw, ctes)
  }

  function MeasuredOf(raw: RawNode, processes: Processes, ctes: map<string, real>): Option<Measured> {
    if raw.rows.None? || raw.loops.None? || WallMs(raw, processes).None? then None
    else
      var left := TotalMs(raw, processes) - InputsMs(raw, processes, ctes);
      Some(Measured(raw.rows.value, raw.loops.value, TotalMs(raw, processes), if left < 0.0 then 0.0 else left))
  }

  method Measure(raw: RawNode, processes: Processes, under: Processes, ctes: map<string, real>)
    returns (measured: Option<Measured>)
    requires under == ProcessesUnder(raw, processes)
    ensures measured == MeasuredOf(raw, processes, ctes)
  {
    var total := WallMs(raw, processes);
    if raw.rows.None? || raw.loops.None? || total.None? {
      return None;
    }
    var inputsMs := 0.0;
    for i := 0 to |raw.plans|
      invariant inputsMs + InputsOf(raw.plans[i..], under) == InputsOf(raw.plans, under)
    {
      assert raw.plans[i..][1..] == raw.plans[i + 1..];
      var child := raw.plans[i];
      if CteOf(child).Some? {
        continue;
      }
      var wall := WallMs(child, under);
      inputsMs := inputsMs + (if wall.Some? then wall.value else 0.0);
    }
    if raw.nodeType == "CTE Scan" {
      var name := if raw.cteName.Some? then raw.cteName.value else "";
      inputsMs := inputsMs + (if name in ctes then ctes[name] else 0.0);
    }
    var left := total.value - inputsMs;
    return Some(Measured(raw.rows.value, raw.loops.value, total.value, if left < 0.0 then 0.0 else left));
  }

  function NodeOf(raw: RawNode, processes: Processes, ctes: map<string, real>): Timed
    decreases raw
  {
    Timed(MeasuredOf(raw, processes, ctes), NodesOf(raw.plans, ProcessesUnder(raw, processes), ctes))
  }

  function NodesOf(raws: seq<RawNode>, processes: Processes, ctes: map<string, real>): seq<Timed>
    decreases raws
  {
    if raws == [] then [] else [NodeOf(raws[0], processes, ctes)] + NodesOf(raws[1..], processes, ctes)
  }

  /** Reads a plan's times, its CTEs' first. */
  method ReadPlan(root: RawNode) returns (timed: Timed)
    ensures timed == NodeOf(root, None, Recorded(Bodies(root, None), map[]))
  {
    var ctes := new CteTimes();
    ctes.Collect(root, None);
    timed := NodeOf(root, None, ctes.times);
  }

  // ---- where the time goes ----

  function SelfMs(timed: Timed): real {
    if timed.actual.Some? then timed.actual.value.selfMs else 0.0
  }

  /** All self times shown. */
  function SelfSum(timed: Timed): real
    decreases timed
  {
    SelfMs(timed) + SelfSumOfAll(timed.children)
  }

  function SelfSumOfAll(timeds: seq<Timed>): real
    decreases timeds
  {
    if timeds == [] then 0.0 else SelfSum(timeds[0]) + SelfSumOfAll(timeds[1..])
  }

  /** What the floor at zero adds to a node's self time. */
  function Floored(raw: RawNode, processes: Processes, ctes: map<string, real>): real {
    var left := TotalMs(raw, processes) - InputsMs(raw, processes, ctes);
    if left < 0.0 then -left else 0.0
  }

  function FlooredSum(raw: RawNode, processes: Processes, ctes: map<string, real>): (sum: real)
    ensures sum >= 0.0
    decreases raw
  {
    Floored(raw, processes, ctes) + FlooredSumOfAll(raw.plans, ProcessesUnder(raw, processes), ctes)
  }

  function FlooredSumOfAll(raws: seq<RawNode>, processes: Processes, ctes: map<string, real>): (sum: real)
    ensures sum >= 0.0
    decreases raws
  {
    if raws == [] then 0.0
    else FlooredSum(raws[0], processes, ctes) + FlooredSumOfAll(raws[1..], processes, ctes)
  }

  function BodySum(bodies: seq<Body>): real {
    if bodies == [] then 0.0 else bodies[0].totalMs + BodySum(bodies[1..])
  }

  /** The names of the CTEs scanned at a node and under it. */
  function Scans(raw: RawNode): seq<string>
    decreases raw
  {
    (if raw.nodeType == "CTE Scan" then [Scanned(raw)] else [])
    + ScansOfAll(raw.plans)
  }

  function ScansOfAll(raws: seq<RawNode>): seq<string>
    decreases raws
  {
    if raws == [] then [] else Scans(raws[0]) + ScansOfAll(raws[1..])
  }

  function LookedSum(names: seq<string>, ctes: map<string, real>): real {
    if names == [] then 0.0 else Looked(ctes, names[0]) + LookedSum(names[1..], ctes)
  }

  ghost predicate AllMeasured(raw: RawNode)
    decreases raw
  {
    raw.rows.Some? && raw.loops.Some? && forall child <- raw.plans :: AllMeasured(child)
  }

  lemma {:induction false} BodySumConcat(a: seq<Body>, b: seq<Body>)
    ensures BodySum(a + b) == BodySum(a) + BodySum(b)
  {
    if a == [] {
      assert a + b == b;
    } else {
      assert (a + b)[1..] == a[1..] + b;
      BodySumConcat(a[1..], b);
    }
  }

  lemma {:induction false} LookedSumConcat(a: seq<string>, b: seq<string>, ctes: map<string, real>)
    ensures LookedSum(a + b, ctes) == LookedSum(a, ctes) + LookedSum(b, ctes)
  {
    if a == [] {
      assert a + b == b;
    } else {
      assert (a + b)[1..] == a[1..] + b;
      LookedSumConcat(a[1..], b, ctes);
    }
  }

  /** The totals of the CTEs under a node, its own aside when it is one. */
  function BodiesUnder(raw: RawNode, processes: Processes): seq<Body> {
    BodiesOfAll(raw.plans, ProcessesUnder(raw, processes))
  }

  /**
   * No time is lost or made: what the nodes are given is what the root took
   * and its CTEs took, less what was taken from the CTEs' scans, and more only
   * by what the floor keeps from being negative.
   */
  lemma {:induction false} TimeIsConserved(raw: RawNode, processes: Processes, ctes: map<string, real>)
    requires AllMeasured(raw)
    ensures SelfSum(NodeOf(raw, processes, ctes))
            == TotalMs(raw, processes) + BodySum(BodiesUnder(raw, processes)) - LookedSum(Scans(raw), ctes)
               + FlooredSum(raw, processes, ctes)
    decreases raw
  {
    var under := ProcessesUnder(raw, processes);
    TimesAreConserved(raw.plans, under, ctes);
    var own := if raw.nodeType == "CTE Scan" then [Scanned(raw)] else [];
    LookedSumConcat(own, ScansOfAll(raw.plans), ctes);
    assert LookedSum(own, ctes) == Deducted(raw, ctes);
  }

  lemma {:induction false} TimesAreConserved(raws: seq<RawNode>, under: Processes, ctes: map<string, real>)
    requires forall raw <- raws :: AllMeasured(raw)
    ensures SelfSumOfAll(NodesOf(raws, under, ctes))
            == InputsOf(raws, under) + BodySum(BodiesOfAll(raws, under)) - LookedSum(ScansOfAll(raws), ctes)
               + FlooredSumOfAll(raws, under, ctes)
    decreases raws
  {
    if raws != [] {
      var raw := raws[0];
      TimeIsConserved(raw, under, ctes);
      TimesAreConserved(raws[1..], under, ctes);
      var mine := if CteOf(raw).Some? then [Body(CteOf(raw).value, TotalMs(raw, under))] else [];
      BodySumConcat(mine, BodiesUnder(raw, under));
      assert BodySum(mine) == if CteOf(raw).Some? then TotalMs(raw, under) else 0.0;
      BodySumConcat(Bodies(raw, under), BodiesOfAll(raws[1..], under));
      LookedSumConcat(Scans(raw), ScansOfAll(raws[1..]), ctes);
      assert NodesOf(raws, under, ctes)[1..] == NodesOf(raws[1..], under, ctes);
    }
  }

  // ---- when each CTE is scanned once ----

  function NamesOf(bodies: seq<Body>): (names: seq<string>)
    ensures |names| == |bodies|
    ensures forall k :: 0 <= k < |bodies| ==> names[k] == bodies[k].name
  {
    seq(|bodies|, k requires 0 <= k < |bodies| => bodies[k].name)
  }

  ghost predicate Distinct(bodies: seq<Body>) {
    forall i, j :: 0 <= i < j < |bodies| ==> bodies[i].name != bodies[j].name
  }

  /** Body `k` is the last of its name. */
  ghost predicate IsLast(bodies: seq<Body>, k: nat) {
    k < |bodies| && forall j :: k < j < |bodies| ==> bodies[j].name != bodies[k].name
  }

  /** What a name is recorded with: what its last body took, and else what it was before. */
  lemma {:induction false} RecordedIsTheLast(bodies: seq<Body>, ctes: map<string, real>)
    ensures forall k :: 0 <= k < |bodies| && IsLast(bodies, k) ==>
              bodies[k].name in Recorded(bodies, ctes) && Recorded(bodies, ctes)[bodies[k].name] == bodies[k].totalMs
    ensures forall name :: name !in NamesOf(bodies) ==> Same(Recorded(bodies, ctes), ctes, name)
  {
    if bodies != [] {
      var rest, first := bodies[1..], ctes[bodies[0].name := bodies[0].totalMs];
      RecordedIsTheLast(rest, first);
      forall name | name !in NamesOf(bodies)
        ensures Same(Recorded(bodies, ctes), ctes, name)
      {
        assert NamesOf(bodies)[0] != name;
        forall k | 0 <= k < |rest|
          ensures NamesOf(rest)[k] != name
        {
          assert NamesOf(bodies)[k + 1] == NamesOf(rest)[k];
        }
        assert Same(Recorded(rest, first), first, name);
      }
      forall k | 0 <= k < |bodies| && IsLast(bodies, k)
        ensures bodies[k].name in Recorded(bodies, ctes) && Recorded(bodies, ctes)[bodies[k].name] == bodies[k].totalMs
      {
        if k == 0 {
          assert bodies[0].name !in NamesOf(rest) by {
            assert forall j :: 0 <= j < |rest| ==> rest[j] == bodies[j + 1];
          }
          assert Same(Recorded(rest, first), first, bodies[0].name);
        } else {
          assert IsLast(rest, k - 1) by {
            assert forall j :: 0 <= j < |rest| ==> rest[j] == bodies[j + 1];
          }
        }
      }
    }
  }

  ghost predicate Same(a: map<string, real>, b: map<string, real>, name: string) {
    (name in a <==> name in b) && (name in a ==> a[name] == b[name])
  }

  lemma {:induction false} LookedUpBodies(bodies: seq<Body>, ctes: map<string, real>)
    requires forall k :: 0 <= k < |bodies| ==> Looked(ctes, bodies[k].name) == bodies[k].totalMs
    ensures LookedSum(NamesOf(bodies), ctes) == BodySum(bodies)
  {
    if bodies != [] {
      LookedUpBodies(bodies[1..], ctes);
      assert NamesOf(bodies)[1..] == NamesOf(bodies[1..]);
    }
  }

  lemma {:induction false} LookedSumPermutes(a: seq<string>, b: seq<string>, ctes: map<string, real>)
    requires multiset(a) == multiset(b)
    ensures LookedSum(a, ctes) == LookedSum(b, ctes)
  {
    if a == [] {
      assert |b| == |multiset(b)| == 0;
    } else {
      assert a[0] in multiset(b);
      var k :| 0 <= k < |b| && b[k] == a[0];
      assert a == [a[0]] + a[1..];
      LookedSumWithout(b, k, ctes);
      LookedSumPermutes(a[1..], b[..k] + b[k + 1..], ctes);
    }
  }

  lemma LookedSumWithout(b: seq<string>, k: nat, ctes: map<string, real>)
    requires k < |b|
    ensures multiset(b[..k] + b[k + 1..]) == multiset(b) - multiset{b[k]}
    ensures LookedSum(b, ctes) == Looked(ctes, b[k]) + LookedSum(b[..k] + b[k + 1..], ctes)
  {
    assert b == b[..k] + ([b[k]] + b[k + 1..]);
    assert ([b[k]] + b[k + 1..])[1..] == b[k + 1..];
    LookedSumConcat(b[..k], b[k + 1..], ctes);
    LookedSumConcat(b[..k], [b[k]] + b[k + 1..], ctes);
  }

  /** What is shown at the CTEs' own plans: the plan and what is shown of it, walked together. */
  function ShownBodies(raw: RawNode, timed: Timed): seq<Body>
    decreases raw
  {
    (if CteOf(raw).Some? && timed.actual.Some? then [Body(CteOf(raw).value, timed.actual.value.totalMs)] else [])
    + ShownBodiesOfAll(raw.plans, timed.children)
  }

  function ShownBodiesOfAll(raws: seq<RawNode>, timeds: seq<Timed>): seq<Body>
    decreases raws
  {
    if raws == [] || timeds == [] then []
    else ShownBodies(raws[0], timeds[0]) + ShownBodiesOfAll(raws[1..], timeds[1..])
  }

  /** The times collected before anything is shown are the totals then shown, workers and all. */
  lemma {:induction false} BodiesAreShown(raw: RawNode, processes: Processes, ctes: map<string, real>)
    requires AllMeasured(raw)
    ensures ShownBodies(raw, NodeOf(raw, processes, ctes)) == Bodies(raw, processes)
    decreases raw
  {
    BodiesOfAllAreShown(raw.plans, ProcessesUnder(raw, processes), ctes);
  }

  lemma {:induction false} BodiesOfAllAreShown(raws: seq<RawNode>, under: Processes, ctes: map<string, real>)
    requires forall raw <- raws :: AllMeasured(raw)
    ensures ShownBodiesOfAll(raws, NodesOf(raws, under, ctes)) == BodiesOfAll(raws, under)
    decreases raws
  {
    if raws != [] {
      BodiesAreShown(raws[0], under, ctes);
      BodiesOfAllAreShown(raws[1..], under, ctes);
      assert NodesOf(raws, under, ctes)[1..] == NodesOf(raws[1..], under, ctes);
    }
  }

  /** `timed` is what is shown of `raw` where `shown` is shown of `root`. */
  ghost predicate ShownOf(root: RawNode, shown: Timed, raw: RawNode, timed: Timed)
    decreases root
  {
    || (raw == root && timed == shown)
    || exists i :: 0 <= i < |root.plans| && i < |shown.children|
                   && ShownOf(root.plans[i], shown.children[i], raw, timed)
  }

  /** The totals shown at a node's inputs, without the CTEs defined there. */
  function ShownInputs(raws: seq<RawNode>, timeds: seq<Timed>): real {
    if raws == [] || timeds == [] then 0.0
    else (if CteOf(raws[0]).Some? || timeds[0].actual.None? then 0.0 else timeds[0].actual.value.totalMs)
         + ShownInputs(raws[1..], timeds[1..])
  }

  lemma {:induction false} InputsAreShown(raws: seq<RawNode>, under: Processes, ctes: map<string, real>)
    requires forall raw <- raws :: AllMeasured(raw)
    ensures ShownInputs(raws, NodesOf(raws, under, ctes)) == InputsOf(raws, under)
  {
    if raws != [] {
      InputsAreShown(raws[1..], under, ctes);
      assert AllMeasured(raws[0]) && NodesOf(raws, under, ctes)[0] == NodeOf(raws[0], under, ctes);
      assert NodesOf(raws, under, ctes)[1..] == NodesOf(raws[1..], under, ctes);
    }
  }

  lemma {:induction false} NodesAt(raws: seq<RawNode>, under: Processes, ctes: map<string, real>, i: nat)
    requires i < |raws|
    ensures |NodesOf(raws, under, ctes)| == |raws| && NodesOf(raws, under, ctes)[i] == NodeOf(raws[i], under, ctes)
  {
    if i > 0 {
      NodesAt(raws[1..], under, ctes, i - 1);
    } else if |raws| > 1 {
      NodesAt(raws[1..], under, ctes, 0);
    }
  }

  /** Whatever is shown of a node is so under some number of processes. */
  lemma {:induction false} ShownUnder(root: RawNode, processes: Processes, ctes: map<string, real>, raw: RawNode, timed: Timed)
    returns (at: Processes)
    requires AllMeasured(root) && ShownOf(root, NodeOf(root, processes, ctes), raw, timed)
    ensures AllMeasured(raw) && timed == NodeOf(raw, at, ctes)
    decreases root
  {
    var shown := NodeOf(root, processes, ctes);
    if raw == root && timed == shown {
      return processes;
    }
    var i :| 0 <= i < |root.plans| && i < |shown.children| && ShownOf(root.plans[i], shown.children[i], raw, timed);
    NodesAt(root.plans, ProcessesUnder(root, processes), ctes, i);
    at := ShownUnder(root.plans[i], ProcessesUnder(root, processes), ctes, raw, timed);
  }

  /**
   * A CTE's scan is relieved of just the total shown at the plan of the CTE it
   * names, the last of the name, under parallel workers too: with it and its
   * inputs' totals taken off, what is left of its own total is its self time.
   */
  lemma ScansAreGivenWhatIsShown(root: RawNode, k: nat, scan: RawNode, timed: Timed)
    requires AllMeasured(root)
    requires var shown := NodeOf(root, None, Recorded(Bodies(root, None), map[]));
      && IsLast(ShownBodies(root, shown), k) && ShownOf(root, shown, scan, timed)
      && scan.nodeType == "CTE Scan" && Scanned(scan) == ShownBodies(root, shown)[k].name
    ensures var ctes := Recorded(Bodies(root, None), map[]);
      var body := ShownBodies(root, NodeOf(root, None, ctes))[k];
      && Deducted(scan, ctes) == body.totalMs
      && timed.actual.Some?
      && var left := timed.actual.value.totalMs - ShownInputs(scan.plans, timed.children) - body.totalMs;
      && timed.actual.value.selfMs == (if left < 0.0 then 0.0 else left)
  {
    var ctes := Recorded(Bodies(root, None), map[]);
    BodiesAreShown(root, None, ctes);
    RecordedIsTheLast(Bodies(root, None), map[]);
    var at := ShownUnder(root, None, ctes, scan, timed);
    InputsAreShown(scan.plans, ProcessesUnder(scan, at), ctes);
  }

  /** And any other node's self time is what its inputs' totals leave of its own, or a scan's whose CTE has no plan here. */
  lemma SelfIsWhatInputsLeave(root: RawNode, raw: RawNode, timed: Timed)
    requires AllMeasured(root)
    requires var shown := NodeOf(root, None, Recorded(Bodies(root, None), map[]));
      && ShownOf(root, shown, raw, timed)
      && (raw.nodeType == "CTE Scan" ==> Scanned(raw) !in NamesOf(ShownBodies(root, shown)))
    ensures timed.actual.Some?
    ensures var left := timed.actual.value.totalMs - ShownInputs(raw.plans, timed.children);
      timed.actual.value.selfMs == (if left < 0.0 then 0.0 else left)
  {
    var ctes := Recorded(Bodies(root, None), map[]);
    BodiesAreShown(root, None, ctes);
    RecordedIsTheLast(Bodies(root, None), map[]);
    assert raw.nodeType == "CTE Scan" ==> Same(ctes, map[], Scanned(raw));
    var at := ShownUnder(root, None, ctes, raw, timed);
    InputsAreShown(raw.plans, ProcessesUnder(raw, at), ctes);
  }

  // ---- how long a node took ----

  /**
   * `timed` is what is shown of `raw` where `shown` is shown of `root`, and
   * `gather` is the nearest node above it that gathers from workers: one in
   * `root`, or else what there is `above`.
   */
  ghost predicate ShownBelow(root: RawNode, shown: Timed, above: Option<RawNode>,
                             raw: RawNode, timed: Timed, gather: Option<RawNode>)
    decreases root
  {
    || (raw == root && timed == shown && gather == above)
    || exists i :: 0 <= i < |root.plans| && i < |shown.children|
                   && ShownBelow(root.plans[i], shown.children[i], if "Gather" <= root.nodeType then Some(root) else above,
                                 raw, timed, gather)
  }

  /** The processes that ran what a node gathers from: the workers it launched, and its own. */
  function Launched(gather: Option<RawNode>): Processes {
    if gather.None? then None
    else Some(1 + if gather.value.workers.Some? then gather.value.workers.value else 0)
  }

  /**
   * So long the wall clock saw a node at work, its time being per loop: all its
   * loops one after another where no other process ran them, one loop where
   * each had a process of its own, and else a share of them to each process.
   */
  predicate IsWallTime(raw: RawNode, gather: Option<RawNode>, totalMs: real) {
    if raw.loops.None? || raw.loops.value == 0 || raw.time.None? then totalMs == 0.0
    else if gather.None? then totalMs == raw.time.value * raw.loops.value as real
    else if raw.loops.value <= Launched(gather).value then totalMs == raw.time.value
    else totalMs * Launched(gather).value as real == raw.time.value * raw.loops.value as real
  }

  lemma {:induction false} ShownUnderTheGather(root: RawNode, processes: Processes, ctes: map<string, real>,
                                               above: Option<RawNode>, raw: RawNode, timed: Timed,
                                               gather: Option<RawNode>)
    requires processes == Launched(above)
    requires ShownBelow(root, NodeOf(root, processes, ctes), above, raw, timed, gather)
    ensures timed == NodeOf(raw, Launched(gather), ctes)
    decreases root
  {
    var shown := NodeOf(root, processes, ctes);
    if !(raw == root && timed == shown && gather == above) {
      var nearest := if "Gather" <= root.nodeType then Some(root) else above;
      var i :| 0 <= i < |root.plans| && i < |shown.children|
               && ShownBelow(root.plans[i], shown.children[i], nearest, raw, timed, gather);
      NodesAt(root.plans, ProcessesUnder(root, processes), ctes, i);
      assert Launched(nearest) == ProcessesUnder(root, processes);
      ShownUnderTheGather(root.plans[i], ProcessesUnder(root, processes), ctes, nearest, raw, timed, gather);
    }
  }

  lemma AlongsideIsWallTime(raw: RawNode, gather: Option<RawNode>)
    requires raw.loops.Some?
    ensures WallMs(raw, Launched(gather)).Some? && IsWallTime(raw, gather, WallMs(raw, Launched(gather)).value)
  {
    hide Share;
    if raw.time.Some? && raw.loops.value > 0 {
      var time, loops := raw.time.value, raw.loops.value;
      if gather.None? {
        OneAtATime(time, loops);
      } else if loops <= Launched(gather).value {
        AllAtOnce(time, loops);
      } else {
        SoManyAtATime(time, loops, Launched(gather).value);
      }
    }
  }

  lemma OneAtATime(time: real, loops: nat)
    ensures Share(time, loops, 1) == time * loops as real
  {}

  lemma AllAtOnce(time: real, loops: nat)
    requires loops > 0
    ensures Share(time, loops, loops) == time
  {}

  lemma SoManyAtATime(time: real, loops: nat, alongside: nat)
    requires alongside > 0
    ensures Share(time, loops, alongside) * alongside as real == time * loops as real
  {}

  /** Every node is shown with its inputs, its counts, and the time the wall clock saw it take. */
  lemma TotalsAreWallTime(root: RawNode, raw: RawNode, timed: Timed, gather: Option<RawNode>)
    requires var shown := NodeOf(root, None, Recorded(Bodies(root, None), map[]));
      ShownBelow(root, shown, None, raw, timed, gather)
    ensures |timed.children| == |raw.plans|
    ensures timed.actual.Some? <==> raw.rows.Some? && raw.loops.Some?
    ensures timed.actual.Some? ==>
              && timed.actual.value.rows == raw.rows.value && timed.actual.value.loops == raw.loops.value
              && IsWallTime(raw, gather, timed.actual.value.totalMs)
  {
    hide IsWallTime, WallMs;
    var ctes := Recorded(Bodies(root, None), map[]);
    ShownUnderTheGather(root, None, ctes, None, raw, timed, gather);
    if raw.plans != [] {
      NodesAt(raw.plans, ProcessesUnder(raw, Launched(gather)), ctes, 0);
    }
    if raw.loops.Some? {
      AlongsideIsWallTime(raw, gather);
    } else {
      NoLoopsNoTime(raw, Launched(gather));
    }
  }

  lemma NoLoopsNoTime(raw: RawNode, processes: Processes)
    requires raw.loops.None?
    ensures WallMs(raw, processes).None?
  {}

  /** Some node's inputs took longer than it did. */
  ghost predicate FloorActs(raw: RawNode, processes: Processes, ctes: map<string, real>)
    decreases raw
  {
    || TotalMs(raw, processes) < InputsMs(raw, processes, ctes)
    || exists child <- raw.plans :: FloorActs(child, ProcessesUnder(raw, processes), ctes)
  }

  lemma {:induction false} FloorAddsTime(raw: RawNode, processes: Processes, ctes: map<string, real>)
    ensures FlooredSum(raw, processes, ctes) > 0.0 <==> FloorActs(raw, processes, ctes)
    decreases raw
  {
    FloorsAddTime(raw.plans, ProcessesUnder(raw, processes), ctes);
  }

  lemma {:induction false} FloorsAddTime(raws: seq<RawNode>, processes: Processes, ctes: map<string, real>)
    ensures FlooredSumOfAll(raws, processes, ctes) > 0.0
            <==> exists raw <- raws :: FloorActs(raw, processes, ctes)
    decreases raws
  {
    if raws != [] {
      FloorAddsTime(raws[0], processes, ctes);
      FloorsAddTime(raws[1..], processes, ctes);
      assert forall raw :: raw in raws <==> raw == raws[0] || raw in raws[1..];
    }
  }

  /** Each CTE under the root is scanned once, and no two have one name. */
  ghost predicate EachScannedOnce(root: RawNode) {
    && CteOf(root).None? && Distinct(Bodies(root, None))
    && multiset(Scans(root)) == multiset(NamesOf(Bodies(root, None)))
  }

  /**
   * The self times of a plan whose CTEs are scanned once each add up to what the
   * root took: exactly when no node's inputs took longer than the node, and
   * otherwise to more.
   */
  lemma SharesMakeTheTotal(root: RawNode)
    requires AllMeasured(root) && EachScannedOnce(root)
    ensures var sum := SelfSum(NodeOf(root, None, Recorded(Bodies(root, None), map[])));
      && sum >= TotalMs(root, None)
      && (sum == TotalMs(root, None) <==> !FloorActs(root, None, Recorded(Bodies(root, None), map[])))
  {
    var bodies := Bodies(root, None);
    var ctes := Recorded(bodies, map[]);
    TimeIsConserved(root, None, ctes);
    assert bodies == BodiesUnder(root, None);
    RecordedIsTheLast(bodies, map[]);
    assert forall k :: 0 <= k < |bodies| ==> IsLast(bodies, k);
    LookedUpBodies(bodies, ctes);
    LookedSumPermutes(Scans(root), NamesOf(bodies), ctes);
    FloorAddsTime(root, None, ctes);
  }
}
