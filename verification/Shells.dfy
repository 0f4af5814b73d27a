/**
 * The commands kept beside connections: their registry
 * (`src-tauri/src/shell/mod.rs`), the life of a run (`ShellRun` of
 * `src-tauri/src/shell/session.rs`), and starting and stopping one
 * (`src-tauri/src/app/shell.rs`), over every interleaving of any number of
 * starts, stops and watchers.
 */
module Shells {
  import opened Basics

  type Id = string

  /** A run's own id, new for every spawn. */
  type Run = nat

  // ---- the registry ----

  type Table = map<Id, Run>

  function Inserted(t: Table, id: Id, run: Run): Table {
    if id in t then t else t[id := run]
  }

  /** Without the run, where it is the one the table has. */
  function RemovedRun(t: Table, id: Id, run: Run): Table {
    if id in t && t[id] == run then t - {id} else t
  }

  class ShellRegistry {
    var running: Table

    constructor ()
      ensures running == map[]
    {
      running := map[];
    }

    method Insert(id: Id, run: Run) returns (inserted: bool)
      modifies this
      ensures running == Inserted(old(running), id, run) && inserted == (id !in old(running))
      ensures running == if id in old(running) then old(running) else old(running)[id := run]
    {
      if id in running {
        return false;
      }
      running := running[id := run];
      inserted := true;
    }

    method RemoveRun(id: Id, run: Run) returns (removed: Option<Run>)
      modifies this
      ensures running == RemovedRun(old(running), id, run)
      ensures removed == if id in old(running) && old(running)[id] == run then Some(run) else None
      ensures running == if removed.Some? then old(running) - {id} else old(running)
    {
      if id in running && running[id] == run {
        running := running - {id};
        removed := Some(run);
        assert id !in running;
      } else {
        removed := None;
      }
    }

    method TakeAll() returns (runs: set<Run>)
      modifies this
      ensures running == map[] && runs == old(running).Values
    {
      runs := running.Values;
      running := map[];
    }
  }

  // ---- runs and those who stop them ----

  /** How far a run has come: `Reaped` is once the shell is gone, `Left` once its watcher took it out. */
  datatype Stage = Spawned | Refused | Registered | Watched | Reaped | Left | Announced

  datatype Command = Command(id: Id, stage: Stage)

  /** A call of `stop_command`: what it found, and how far it has come. */
  datatype Stopper = Asking(run: Run) | Waiting(run: Run) | Woken(run: Run) | Returned(run: Run) | FoundNone

  datatype State = State(runs: map<Run, Command>, registry: Table, stoppers: map<nat, Stopper>,
                         announced: seq<Run>, quitting: bool)

  datatype Step =
    | Spawn(run: Run, id: Id)
    | Insert(run: Run)
    | Watch(run: Run)
    | Reap(run: Run)                  // ended on its own, or killed
    | Leave(run: Run)                 // the watcher's `remove_run`
    | Announce(run: Run)
    | StopFinds(caller: nat, id: Id)  // `get`
    | StopAsks(caller: nat)           // the watcher is told, where there is one to tell
    | StopWakes(caller: nat)          // the run is reaped
    | StopRemoves(caller: nat)        // the caller's `remove_run`, and its return
    | Quit

  const START := State(map[], map[], map[], [], false)

  function Moved(s: State, run: Run, stage: Stage): State
    requires run in s.runs
  {
    s.(runs := s.runs[run := s.runs[run].(stage := stage)])
  }

  predicate AtStage(s: State, run: Run, stage: Stage) {
    run in s.runs && s.runs[run].stage == stage
  }

  predicate IsReaped(s: State, run: Run) {
    run in s.runs && (s.runs[run].stage.Reaped? || s.runs[run].stage.Left? || s.runs[run].stage.Announced?)
  }

  predicate Enabled(s: State, step: Step) {
    match step
    case Spawn(run, _) => run !in s.runs
    case Insert(run) => AtStage(s, run, Spawned)
    case Watch(run) => AtStage(s, run, Registered)
    case Reap(run) => AtStage(s, run, Watched)
    case Leave(run) => AtStage(s, run, Reaped)
    case Announce(run) => AtStage(s, run, Left)
    case StopFinds(caller, _) => caller !in s.stoppers
    case StopAsks(caller) => caller in s.stoppers && s.stoppers[caller].Asking?
    case StopWakes(caller) =>
      caller in s.stoppers && s.stoppers[caller].Waiting? && IsReaped(s, s.stoppers[caller].run)
    case StopRemoves(caller) =>
      caller in s.stoppers && s.stoppers[caller].Woken? && s.stoppers[caller].run in s.runs
    case Quit => true
  }

  function After(s: State, step: Step): State
    requires Enabled(s, step)
  {
    match step
    case Spawn(run, id) => s.(runs := s.runs[run := Command(id, Spawned)])
    case Insert(run) =>
      var id := s.runs[run].id;
      Moved(s, run, if id in s.registry then Refused else Registered).(registry := Inserted(s.registry, id, run))
    case Watch(run) => Moved(s, run, Watched)
    case Reap(run) => Moved(s, run, Reaped)
    case Leave(run) => Moved(s, run, Left).(registry := RemovedRun(s.registry, s.runs[run].id, run))
    case Announce(run) => Moved(s, run, Announced).(announced := s.announced + [run])
    case StopFinds(caller, id) =>
      s.(stoppers := s.stoppers[caller := if id in s.registry then Asking(s.registry[id]) else FoundNone])
    case StopAsks(caller) => s.(stoppers := s.stoppers[caller := Waiting(s.stoppers[caller].run)])
    case StopWakes(caller) => s.(stoppers := s.stoppers[caller := Woken(s.stoppers[caller].run)])
    case StopRemoves(caller) =>
      var run := s.stoppers[caller].run;
      s.(stoppers := s.stoppers[caller := Returned(run)], registry := RemovedRun(s.registry, s.runs[run].id, run))
    case Quit => s.(registry := map[], quitting := true)
  }

  ghost predicate IsRun(states: seq<State>, steps: seq<Step>) {
    && |states| == |steps| + 1 && states[0] == START
    && forall i :: 0 <= i < |steps| ==> Next(states[i], states[i + 1], steps[i])
  }

  predicate Next(s: State, t: State, step: Step) {
    Enabled(s, step) && t == After(s, step)
  }

  // ---- what every run keeps ----

  predicate Holds(s: State, id: Id) {
    id in s.registry
    ==> s.registry[id] in s.runs && s.runs[s.registry[id]].id == id
        && s.runs[s.registry[id]].stage in {Registered, Watched, Reaped}
  }

  /** A run that is up, and not the app's last, is the one its connection has. */
  predicate IsTheOne(s: State, run: Run) {
    run in s.runs && s.runs[run].stage in {Registered, Watched} && !s.quitting
    ==> s.runs[run].id in s.registry && s.registry[s.runs[run].id] == run
  }

  /** A run announces its end once, when it has come to that. */
  predicate SaidOnce(s: State, run: Run) {
    multiset(s.announced)[run] == if AtStage(s, run, Announced) then 1 else 0
  }

  predicate IsGone(s: State, run: Run) {
    IsReaped(s, run) && !(s.runs[run].id in s.registry && s.registry[s.runs[run].id] == run)
  }

  predicate StopsWell(s: State, caller: nat) {
    caller in s.stoppers ==>
      match s.stoppers[caller]
      case Asking(run) => run in s.runs
      case Waiting(run) => run in s.runs
      case Woken(run) => IsReaped(s, run)
      case Returned(run) => IsGone(s, run)
      case FoundNone => true
  }

  ghost predicate Inv(s: State) {
    && (forall id :: Holds(s, id)) && (forall run :: IsTheOne(s, run))
    && (forall run :: SaidOnce(s, run)) && (forall caller :: StopsWell(s, caller))
  }

  lemma HoldsNext(s: State, t: State, step: Step, id: Id)
    requires Inv(s) && Next(s, t, step)
    ensures Holds(t, id)
  {
    assert Holds(s, id);
    if step.Leave? || step.StopRemoves? {
      var run := if step.Leave? then step.run else s.stoppers[step.caller].run;
      assert Holds(s, s.runs[run].id);
    }
  }

  lemma IsTheOneNext(s: State, t: State, step: Step, run: Run)
    requires Inv(s) && Next(s, t, step)
    ensures IsTheOne(t, run)
  {
    assert IsTheOne(s, run);
    if step.StopRemoves? {
      assert StopsWell(s, step.caller);
    }
  }

  lemma SaidOnceNext(s: State, t: State, step: Step, run: Run)
    requires Inv(s) && Next(s, t, step)
    ensures SaidOnce(t, run)
  {
    assert SaidOnce(s, run);
  }

  lemma StopsWellNext(s: State, t: State, step: Step, caller: nat)
    requires Inv(s) && Next(s, t, step)
    ensures StopsWell(t, caller)
  {
    assert StopsWell(s, caller);
    if step.StopFinds? {
      assert Holds(s, step.id);
    }
  }

  lemma NextInv(s: State, t: State, step: Step)
    requires Inv(s) && Next(s, t, step)
    ensures Inv(t)
  {
    hide Inv, Next, Holds, IsTheOne, SaidOnce, StopsWell;
    forall id ensures Holds(t, id) { HoldsNext(s, t, step, id); }
    forall run ensures IsTheOne(t, run) { IsTheOneNext(s, t, step, run); }
    forall run ensures SaidOnce(t, run) { SaidOnceNext(s, t, step, run); }
    forall caller ensures StopsWell(t, caller) { StopsWellNext(s, t, step, caller); }
    InvIs(t);
  }

  lemma InvIs(t: State)
    requires (forall id :: Holds(t, id)) && (forall run :: IsTheOne(t, run))
    requires (forall run :: SaidOnce(t, run)) && (forall caller :: StopsWell(t, caller))
    ensures Inv(t)
  {}

  lemma {:induction false} RunInv(states: seq<State>, steps: seq<Step>, i: nat)
    requires IsRun(states, steps) && i < |states|
    ensures Inv(states[i])
  {
    if i > 0 {
      hide Next, Inv;
      RunInv(states, steps, i - 1);
      NextInv(states[i - 1], states[i], steps[i - 1]);
    }
  }

  /** Until the app quits, a connection has no two commands up. */
  lemma OneCommandToAConnection(states: seq<State>, steps: seq<Step>, i: nat, a: Run, b: Run)
    requires IsRun(states, steps) && i < |states| && !states[i].quitting
    requires a in states[i].runs && b in states[i].runs && states[i].runs[a].id == states[i].runs[b].id
    requires states[i].runs[a].stage in {Registered, Watched} && states[i].runs[b].stage in {Registered, Watched}
    ensures a == b
    ensures states[i].runs[a].id in states[i].registry && states[i].registry[states[i].runs[a].id] == a
  {
    RunInv(states, steps, i);
    assert IsTheOne(states[i], a) && IsTheOne(states[i], b);
  }

  /** A stop that has returned leaves the run it found gone: its shell reaped, and not registered, then and ever after. */
  lemma StoppedIsGone(states: seq<State>, steps: seq<Step>, i: nat, caller: nat)
    requires IsRun(states, steps) && i < |states|
    requires caller in states[i].stoppers && states[i].stoppers[caller].Returned?
    ensures IsGone(states[i], states[i].stoppers[caller].run)
  {
    RunInv(states, steps, i);
    assert StopsWell(states[i], caller);
  }

  /** No end is said twice, none but of a run that is over, and none while the run is registered. */
  lemma EndsAreSaidOnce(states: seq<State>, steps: seq<Step>, i: nat, run: Run)
    requires IsRun(states, steps) && i < |states|
    ensures multiset(states[i].announced)[run] <= 1
    ensures run in states[i].announced <==> AtStage(states[i], run, Announced)
    ensures run in states[i].announced ==> IsGone(states[i], run)
  {
    RunInv(states, steps, i);
    assert SaidOnce(states[i], run);
    assert run in states[i].announced <==> run in multiset(states[i].announced);
    if run in states[i].announced {
      assert Holds(states[i], states[i].runs[run].id);
    }
  }

  // ---- a command left alone runs, and stops when it is told to ----

  ghost predicate Leads(s: State, steps: seq<Step>, t: State)
    decreases |steps|
  {
    if steps == [] then s == t
    else Enabled(s, steps[0]) && Leads(After(s, steps[0]), steps[1..], t)
  }

  /** With nothing else running for the connection, a start undisturbed ends with its run watched and registered. */
  lemma UndisturbedRuns(s: State, run: Run, id: Id) returns (t: State)
    requires run !in s.runs && id !in s.registry
    ensures Leads(s, [Spawn(run, id), Insert(run), Watch(run)], t)
    ensures AtStage(t, run, Watched) && t.registry == s.registry[id := run] && t.quitting == s.quitting
  {
    var spawned := After(s, Spawn(run, id));
    var inserted := After(spawned, Insert(run));
    t := After(inserted, Watch(run));
    assert Leads(inserted, [Watch(run)], t);
    assert [Insert(run), Watch(run)][1..] == [Watch(run)];
    assert Leads(spawned, [Insert(run), Watch(run)], t);
    assert [Spawn(run, id), Insert(run), Watch(run)][1..] == [Insert(run), Watch(run)];
  }

  /** And a stop undisturbed finds it, waits for it, and leaves the connection free. */
  lemma UndisturbedStops(s: State, run: Run, caller: nat) returns (t: State)
    requires AtStage(s, run, Watched) && caller !in s.stoppers
    requires s.runs[run].id in s.registry && s.registry[s.runs[run].id] == run
    ensures var id := s.runs[run].id;
      && Leads(s, [StopFinds(caller, id), StopAsks(caller), Reap(run), StopWakes(caller), StopRemoves(caller)], t)
      && t.registry == s.registry - {id} && t.stoppers == s.stoppers[caller := Returned(run)] && IsReaped(t, run)
  {
    var id := s.runs[run].id;
    var found := After(s, StopFinds(caller, id));
    var asked := After(found, StopAsks(caller));
    var reaped := After(asked, Reap(run));
    var woken := After(reaped, StopWakes(caller));
    t := After(woken, StopRemoves(caller));
    var d, c, b, a := [StopRemoves(caller)], [StopWakes(caller), StopRemoves(caller)],
                      [Reap(run), StopWakes(caller), StopRemoves(caller)],
                      [StopAsks(caller), Reap(run), StopWakes(caller), StopRemoves(caller)];
    assert c[1..] == d && b[1..] == c && a[1..] == b;
    assert Leads(woken, d, t);
    assert Leads(reaped, c, t);
    assert Leads(asked, b, t);
    assert Leads(found, a, t);
    assert [StopFinds(caller, id), StopAsks(caller), Reap(run), StopWakes(caller), StopRemoves(caller)][1..] == a;
  }
}
