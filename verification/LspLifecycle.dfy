/**
 * The life of language servers: starts, stops, reads that end, any number of
 * each at once, over the table of `Registries.LspRegistry`
 * (`src-tauri/src/app/lsp.rs`, `src-tauri/src/lsp/session.rs`).
 *
 * A start asks for the counter, starts a process, and hands it in; a stop takes
 * servers out of the table and then stops them; what reads a server's
 * output takes it out when the output ends. Each of these lock sections is one
 * atomic step.
 */
module LspLifecycle {
  import opened Basics
  import opened Registries

  /** What a call in progress has in hand. `overtaken` remembers a stop since the counter was read. */
  datatype Hand =
    | Counted(id: Id, stops: nat, overtaken: bool)
    | Holding(id: Id, stops: nat, overtaken: bool, server: Server)
    | AboutToListen(server: Server)
    | AboutToStop(servers: set<Server>)

  /** Where a started server is. */
  datatype Place = WithStart(p: nat) | Registered | WithStopper(p: nat) | Over

  datatype Notice = Ended(id: Id, serial: nat)

  datatype State = State(
    table: Servers,
    calls: map<nat, Hand>,
    /** Servers whose output is being read. */
    readers: set<Server>,
    notices: seq<Notice>,
    /** Every server started, and where it is: what the steps say happened to it. */
    places: map<Server, Place>)

  ghost predicate Init(s: State) {
    s == State(Servers(map[], map[]), map[], {}, [], map[])
  }

  datatype Step =
    | Ask(p: nat, id: Id)
    | StartProcess(p: nat, server: Server)
    | FailToStart(p: nat)
    | HandIn(p: nat)
    | Listen(p: nat)
    | Remove(p: nat, id: Id)
    | TakeAll(p: nat)
    | StopOne(p: nat, server: Server)
    | Finish(p: nat)
    | OutputEnds(server: Server)

  function Moved(places: map<Server, Place>, servers: set<Server>, place: Place): map<Server, Place> {
    map v | v in places.Keys + servers :: if v in servers then place else places[v]
  }

  function Overtaken(calls: map<nat, Hand>, ids: set<Id>): map<nat, Hand> {
    map p | p in calls ::
      match calls[p]
      case Counted(id, stops, overtaken) => Counted(id, stops, overtaken || id in ids)
      case Holding(id, stops, overtaken, server) => Holding(id, stops, overtaken || id in ids, server)
      case other => other
  }

  ghost predicate StartStep(s: State, t: State, step: Step) {
    match step
    case Ask(p, id) =>
      && p !in s.calls
      && t == s.(table := AfterAsking(s.table, id),
                 calls := s.calls[p := Counted(id, Count(s.table.stops, id), false)])
    case StartProcess(p, server) =>
      && p in s.calls && s.calls[p].Counted? && server.connection == s.calls[p].id
      // Every server's id is new.
      && (forall v <- s.places :: v.serial != server.serial)
      && var c := s.calls[p];
         t == s.(calls := s.calls[p := Holding(c.id, c.stops, c.overtaken, server)],
                 places := s.places[server := WithStart(p)])
    case FailToStart(p) =>
      && p in s.calls && (s.calls[p].Counted? || s.calls[p].Holding?)
      // A server dropped before it was handed in is killed.
      && t == s.(calls := s.calls - {p},
                 places := if s.calls[p].Holding? then s.places[s.calls[p].server := Over] else s.places)
    case HandIn(p) =>
      && p in s.calls && s.calls[p].Holding?
      && var c := s.calls[p];
         var kept := Inserted(s.table, c.server, c.stops);
         var mine := kept == Option.Some(c.server);
         t == s.(table := AfterInserting(s.table, c.server, c.stops),
                 calls := s.calls[p := if mine then AboutToListen(c.server) else AboutToStop({c.server})],
                 places := s.places[c.server := if mine then Registered else WithStopper(p)])
    case Listen(p) =>
      && p in s.calls && s.calls[p].AboutToListen?
      && t == s.(calls := s.calls - {p}, readers := s.readers + {s.calls[p].server})
    case _ => false
  }

  ghost predicate StopStep(s: State, t: State, step: Step) {
    match step
    case Remove(p, id) =>
      && p !in s.calls
      && var taken := if id in s.table.running then {s.table.running[id]} else {};
         t == s.(table := AfterRemoving(s.table, id),
                 calls := Overtaken(s.calls, {id})[p := AboutToStop(taken)],
                 places := Moved(s.places, taken, WithStopper(p)))
    case TakeAll(p) =>
      && p !in s.calls
      && t == s.(table := AfterTakingAll(s.table),
                 calls := Overtaken(s.calls, s.table.stops.Keys)[p := AboutToStop(s.table.running.Values)],
                 places := Moved(s.places, s.table.running.Values, WithStopper(p)))
    case StopOne(p, server) =>
      && p in s.calls && s.calls[p].AboutToStop? && server in s.calls[p].servers
      && t == s.(calls := s.calls[p := AboutToStop(s.calls[p].servers - {server})],
                 places := s.places[server := Over])
    case Finish(p) =>
      && p in s.calls && s.calls[p] == AboutToStop({})
      && t == s.(calls := s.calls - {p})
    case OutputEnds(server) =>
      && server in s.readers
      && var id := server.connection;
         var table := AfterLeaving(s.table, id, server.serial);
         && t == s.(table := table,
                    readers := s.readers - {server},
                    // Nothing is said where another server is registered by now.
                    notices := if id in table.running then s.notices else s.notices + [Ended(id, server.serial)],
                    // Out of the table nothing keeps it, and it is killed.
                    places := if table == s.table then s.places else s.places[server := Over])
    case _ => false
  }

  ghost predicate Next(s: State, t: State, step: Step) {
    StartStep(s, t, step) || StopStep(s, t, step)
  }

  ghost predicate Run(states: seq<State>, steps: seq<Step>) {
    && |states| == |steps| + 1 && Init(states[0])
    && forall i :: 0 <= i < |steps| ==> Next(states[i], states[i + 1], steps[i])
  }

  // ---- the invariant ----

  ghost predicate InStart(s: State, server: Server, p: nat) {
    p in s.calls && s.calls[p].Holding? && s.calls[p].server == server
  }

  ghost predicate InRegistry(s: State, server: Server) {
    server.connection in s.table.running && s.table.running[server.connection] == server
  }

  ghost predicate InStopper(s: State, server: Server, p: nat) {
    p in s.calls && s.calls[p].AboutToStop? && server in s.calls[p].servers
  }

  /** What the steps say of a server is where it really is. */
  ghost predicate PlaceHolds(s: State, server: Server, place: Place) {
    match place
    case WithStart(p) => InStart(s, server, p)
    case Registered => InRegistry(s, server)
    case WithStopper(p) => InStopper(s, server, p)
    case Over => true
  }

  ghost predicate PlacesHold(s: State) {
    forall v <- s.places :: PlaceHolds(s, v, s.places[v])
  }

  ghost predicate RunningPlaced(s: State) {
    forall id <- s.table.running :: s.table.running[id].connection == id
      && s.table.running[id] in s.places && s.places[s.table.running[id]] == Registered
  }

  /** What a call has in hand is nowhere else. */
  ghost predicate HandPlaced(s: State, p: nat, c: Hand) {
    && (c.Holding? ==> c.server in s.places && s.places[c.server] == WithStart(p))
    && (c.AboutToStop? ==> forall v <- c.servers :: v in s.places && s.places[v] == WithStopper(p))
  }

  ghost predicate Placed(s: State) {
    PlacesHold(s) && RunningPlaced(s) && (forall p <- s.calls :: HandPlaced(s, p, s.calls[p]))
  }

  ghost predicate Numbered(s: State) {
    && (forall v <- s.places, w <- s.places :: v.serial == w.serial ==> v == w)
    && s.readers <= s.places.Keys
    && (forall p <- s.calls :: s.calls[p].AboutToListen? ==> s.calls[p].server in s.places)
  }

  ghost predicate CountedWell(s: State, c: Hand) {
    c.Counted? || c.Holding? ==>
      && c.id in s.table.stops && c.stops <= s.table.stops[c.id]
      && (c.overtaken ==> c.stops < s.table.stops[c.id])
      && (c.Holding? ==> c.server.connection == c.id)
  }

  ghost predicate Inv(s: State) {
    Placed(s) && Numbered(s) && (forall p <- s.calls :: CountedWell(s, s.calls[p]))
  }

  lemma StartStepPlacesHold(s: State, t: State, step: Step)
    requires Inv(s) && StartStep(s, t, step)
    ensures PlacesHold(t)
  {
    hide CountedWell;
  }

  lemma StartStepRunningPlaced(s: State, t: State, step: Step)
    requires Inv(s) && StartStep(s, t, step)
    ensures RunningPlaced(t)
  {
    hide CountedWell;
  }

  lemma StartStepHandsPlaced(s: State, t: State, step: Step)
    requires Inv(s) && StartStep(s, t, step)
    ensures forall p <- t.calls :: HandPlaced(t, p, t.calls[p])
  {
    hide CountedWell;
  }

  lemma StopStepPlacesHold(s: State, t: State, step: Step)
    requires Inv(s) && StopStep(s, t, step)
    ensures PlacesHold(t)
  {
    hide CountedWell;
  }

  lemma StopStepRunningPlaced(s: State, t: State, step: Step)
    requires Inv(s) && StopStep(s, t, step)
    ensures RunningPlaced(t)
  {
    hide CountedWell;
  }

  lemma StopStepHandsPlaced(s: State, t: State, step: Step)
    requires Inv(s) && StopStep(s, t, step)
    ensures forall p <- t.calls :: HandPlaced(t, p, t.calls[p])
  {
    hide CountedWell;
  }

  lemma StepNumbered(s: State, t: State, step: Step)
    requires Inv(s) && Next(s, t, step)
    ensures Numbered(t)
  {}

  lemma StepCounted(s: State, t: State, step: Step)
    requires Inv(s) && Next(s, t, step)
    ensures forall p <- t.calls :: CountedWell(t, t.calls[p])
  {}

  lemma NextInv(s: State, t: State, step: Step)
    requires Inv(s) && Next(s, t, step)
    ensures Inv(t)
  {
    hide PlacesHold, RunningPlaced, HandPlaced, CountedWell, Numbered, StartStep, StopStep;
    StepNumbered(s, t, step);
    StepCounted(s, t, step);
    if StartStep(s, t, step) {
      StartStepPlacesHold(s, t, step);
      StartStepRunningPlaced(s, t, step);
      StartStepHandsPlaced(s, t, step);
    } else {
      StopStepPlacesHold(s, t, step);
      StopStepRunningPlaced(s, t, step);
      StopStepHandsPlaced(s, t, step);
    }
  }

  lemma {:induction false} RunInv(states: seq<State>, steps: seq<Step>, i: nat)
    requires Run(states, steps) && i < |states|
    ensures Inv(states[i])
  {
    hide Next, Inv;
    if i == 0 {
      assert Inv(states[0]) by { InitInv(states[0]); }
    } else {
      RunInv(states, steps, i - 1);
      NextInv(states[i - 1], states[i], steps[i - 1]);
    }
  }

  lemma InitInv(s: State)
    requires Init(s)
    ensures Inv(s)
  {}

  // ---- what holds over whole runs ----

  /**
   * Every started server is in exactly one place: with its one unfinished
   * start, in the registry, with the one call about to stop it, or over.
   */
  lemma ExactlyOnePlace(states: seq<State>, steps: seq<Step>, i: nat, server: Server)
    requires Run(states, steps) && i < |states| && server in states[i].places
    ensures var s, place := states[i], states[i].places[server];
      && (forall p :: InStart(s, server, p) <==> place == WithStart(p))
      && (InRegistry(s, server) <==> place == Registered)
      && (forall p :: InStopper(s, server, p) <==> place == WithStopper(p))
  {
    RunInv(states, steps, i);
    var s := states[i];
    assert PlaceHolds(s, server, s.places[server]);
    forall p
      ensures InStart(s, server, p) ==> s.places[server] == WithStart(p)
      ensures InStopper(s, server, p) ==> s.places[server] == WithStopper(p)
    {
      assert p in s.calls ==> HandPlaced(s, p, s.calls[p]);
    }
  }

  /** And once nothing is in progress, it is registered or over: none is left running unseen. */
  lemma NoneIsLost(states: seq<State>, steps: seq<Step>, i: nat, server: Server)
    requires Run(states, steps) && i < |states| && server in states[i].places && states[i].calls == map[]
    ensures InRegistry(states[i], server) || states[i].places[server] == Over
  {
    ExactlyOnePlace(states, steps, i, server);
  }

  /** Stopping every server overtakes every start in progress, wherever it is. */
  lemma TakingAllOvertakesEveryStart(states: seq<State>, steps: seq<Step>, i: nat, p: nat)
    requires Run(states, steps) && i < |steps| && steps[i].TakeAll? && p in states[i].calls
    ensures p in states[i + 1].calls
    ensures states[i + 1].calls[p].Counted? || states[i + 1].calls[p].Holding? ==> states[i + 1].calls[p].overtaken
    ensures states[i + 1].table.running == map[]
  {
    RunInv(states, steps, i);
    assert CountedWell(states[i], states[i].calls[p]);
    assert Next(states[i], states[i + 1], steps[i]);
  }

  /** Not registered, and no start that could still register it. */
  ghost predicate Barred(s: State, server: Server) {
    && server in s.places && s.places[server] != Registered
    && (s.places[server].WithStart? ==>
          var p := s.places[server].p;
          p in s.calls && s.calls[p].Holding? && s.calls[p].server == server && s.calls[p].overtaken)
  }

  lemma StaysBarred(s: State, t: State, step: Step, server: Server)
    requires Inv(s) && Next(s, t, step) && Barred(s, server)
    ensures Barred(t, server)
  {
    hide PlacesHold, Numbered;
    if step.HandIn? {
      assert CountedWell(s, s.calls[step.p]) && HandPlaced(s, step.p, s.calls[step.p]);
    } else if step.FailToStart? || step.StopOne? {
      assert HandPlaced(s, step.p, s.calls[step.p]);
    }
  }

  /**
   * A server whose start was overtaken by a stop of its connection, or of every
   * server, is never registered afterwards.
   */
  lemma {:induction false} OvertakenIsNeverRegistered(states: seq<State>, steps: seq<Step>, i: nat, j: nat, p: nat)
    requires Run(states, steps) && i <= j < |states|
    requires p in states[i].calls && states[i].calls[p].Holding? && states[i].calls[p].overtaken
    ensures !InRegistry(states[j], states[i].calls[p].server)
  {
    BarredFrom(states, steps, i, j, p);
    ExactlyOnePlace(states, steps, j, states[i].calls[p].server);
  }

  lemma {:induction false} BarredFrom(states: seq<State>, steps: seq<Step>, i: nat, j: nat, p: nat)
    requires Run(states, steps) && i <= j < |states|
    requires p in states[i].calls && states[i].calls[p].Holding? && states[i].calls[p].overtaken
    ensures Barred(states[j], states[i].calls[p].server)
    decreases j - i
  {
    hide Next, PlacesHold, RunningPlaced, Numbered, CountedWell;
    if i == j {
      RunInv(states, steps, i);
      assert HandPlaced(states[i], p, states[i].calls[p]);
    } else {
      BarredFrom(states, steps, i, j - 1, p);
      RunInv(states, steps, j - 1);
      StaysBarred(states[j - 1], states[j], steps[j - 1], states[i].calls[p].server);
    }
  }

  /**
   * A server whose output ends evicts nothing but itself, and its end is said
   * exactly when the connection is then left without a server.
   */
  lemma EndingSpeaksForItself(states: seq<State>, steps: seq<Step>, i: nat)
    requires Run(states, steps) && i < |steps| && steps[i].OutputEnds?
    ensures var s, t, server := states[i], states[i + 1], steps[i].server;
      && !InRegistry(t, server)
      && (forall other <- s.places :: other != server ==> (InRegistry(t, other) <==> InRegistry(s, other)))
      && (t.notices == s.notices + [Ended(server.connection, server.serial)]
          <==> server.connection !in t.table.running)
      && (server.connection in t.table.running ==> t.notices == s.notices)
  {
    RunInv(states, steps, i);
    var s, t, server := states[i], states[i + 1], steps[i].server;
    assert Next(s, t, steps[i]);
    assert server in s.places;
    var id := server.connection;
    assert id in s.table.running && s.table.running[id].serial == server.serial ==> s.table.running[id] == server;
    assert |s.notices| != |s.notices + [Ended(id, server.serial)]|;
  }

  // ---- what nothing disturbs ends well ----

  ghost predicate Leads(states: seq<State>, steps: seq<Step>, s: State, t: State) {
    && |states| == |steps| + 1 && states[0] == s && states[|steps|] == t
    && forall i :: 0 <= i < |steps| ==> Next(states[i], states[i + 1], steps[i])
  }

  lemma LeadsOn(states: seq<State>, steps: seq<Step>, s: State, t: State, u: State, step: Step)
    requires Leads(states, steps, s, t) && Next(t, u, step)
    ensures Leads(states + [u], steps + [step], s, u)
  {
    hide Next;
  }

  lemma NoSteps(s: State)
    ensures Leads([s], [], s, s)
  {}

  /** A start's count and process, before it is handed in. */
  lemma StartLeads(s: State, p: nat, server: Server) returns (states: seq<State>, steps: seq<Step>, t: State)
    requires p !in s.calls && forall v <- s.places :: v.serial != server.serial
    ensures Leads(states, steps, s, t)
    ensures t == s.(table := AfterAsking(s.table, server.connection),
                    calls := s.calls[p := Holding(server.connection, Count(s.table.stops, server.connection), false, server)],
                    places := s.places[server := WithStart(p)])
  {
    hide Leads;
    var id := server.connection;
    var stops := Count(s.table.stops, id);
    var asked := s.(table := AfterAsking(s.table, id), calls := s.calls[p := Counted(id, stops, false)]);
    t := s.(table := AfterAsking(s.table, id), calls := s.calls[p := Holding(id, stops, false, server)],
            places := s.places[server := WithStart(p)]);
    NoSteps(s);
    assert Next(s, asked, Ask(p, id));
    LeadsOn([s], [], s, s, asked, Ask(p, id));
    assert asked.calls[p := Holding(id, stops, false, server)] == t.calls;
    assert Next(asked, t, StartProcess(p, server));
    LeadsOn([s] + [asked], [] + [Ask(p, id)], s, asked, t, StartProcess(p, server));
    states, steps := [s] + [asked] + [t], [] + [Ask(p, id)] + [StartProcess(p, server)];
  }

  lemma CountStays(table: Servers, id: Id)
    ensures var asked := AfterAsking(table, id);
      Count(asked.stops, id) == Count(table.stops, id) && asked.running == table.running
  {}

  /** A start of a server that nothing else disturbs ends with it registered and its output read, where none was. */
  lemma UndisturbedStarts(s: State, p: nat, server: Server) returns (states: seq<State>, steps: seq<Step>, t: State)
    requires p !in s.calls && (forall v <- s.places :: v.serial != server.serial)
    requires server.connection !in s.table.running
    ensures Leads(states, steps, s, t)
    ensures t.table.running == s.table.running[server.connection := server]
    ensures t.calls == s.calls && t.readers == s.readers + {server} && t.notices == s.notices
    ensures t.places == s.places[server := Registered]
  {
    hide Leads;
    var id, held := server.connection, s;
    states, steps, held := StartLeads(s, p, server);
    CountStays(s.table, id);
    var stops := Count(s.table.stops, id);
    var handed := held.(table := AfterInserting(held.table, server, stops),
                        calls := held.calls[p := AboutToListen(server)],
                        places := held.places[server := Registered]);
    assert Next(held, handed, HandIn(p));
    LeadsOn(states, steps, s, held, handed, HandIn(p));
    states, steps := states + [handed], steps + [HandIn(p)];
    t := handed.(calls := handed.calls - {p}, readers := handed.readers + {server});
    assert Next(handed, t, Listen(p));
    LeadsOn(states, steps, s, handed, t, Listen(p));
    states, steps := states + [t], steps + [Listen(p)];
    assert t.calls == s.calls;
    assert t.places == s.places[server := Registered];
  }

  /** And where there was one it is kept, and the new one is stopped. */
  lemma SecondStartGivesWay(s: State, p: nat, server: Server) returns (states: seq<State>, steps: seq<Step>, t: State)
    requires p !in s.calls && (forall v <- s.places :: v.serial != server.serial)
    requires server.connection in s.table.running && s.table.running[server.connection] in s.places
    ensures Leads(states, steps, s, t)
    ensures t.table.running == s.table.running && t.calls == s.calls && t.readers == s.readers
    ensures t.notices == s.notices && t.places == s.places[server := Over]
  {
    hide Leads;
    var id, held := server.connection, s;
    states, steps, held := StartLeads(s, p, server);
    CountStays(s.table, id);
    var handed := held.(calls := held.calls[p := AboutToStop({server})], places := held.places[server := WithStopper(p)]);
    assert Inserted(held.table, server, Count(s.table.stops, id)) == Option.Some(s.table.running[id]);
    assert Next(held, handed, HandIn(p));
    LeadsOn(states, steps, s, held, handed, HandIn(p));
    states, steps := states + [handed], steps + [HandIn(p)];
    var rest := StopsAll(handed, p, {server});
    LeadsJoin(states, steps, s, handed, rest.0, rest.1, rest.2);
    states, steps, t := states + rest.0[1..], steps + rest.1, rest.2;
    assert t.calls == s.calls;
    assert t.places == s.places[server := Over];
  }

  lemma LeadsJoin(states: seq<State>, steps: seq<Step>, s: State, t: State, more: seq<State>, after: seq<Step>, u: State)
    requires Leads(states, steps, s, t) && Leads(more, after, t, u)
    ensures Leads(states + more[1..], steps + after, s, u)
  {
    hide Next;
    var all, does := states + more[1..], steps + after;
    forall i | 0 <= i < |does|
      ensures Next(all[i], all[i + 1], does[i])
    {
      if i >= |steps| {
        assert all[i] == more[i - |steps|] && all[i + 1] == more[i - |steps| + 1];
        assert Next(more[i - |steps|], more[i - |steps| + 1], after[i - |steps|]);
      } else {
        assert Next(states[i], states[i + 1], steps[i]);
      }
    }
  }

  /** Stopping what a call has in hand, one after another, and its end. */
  lemma {:induction false} StopsAll(s: State, p: nat, servers: set<Server>)
    returns (run: (seq<State>, seq<Step>, State))
    requires p in s.calls && s.calls[p] == AboutToStop(servers)
    ensures Leads(run.0, run.1, s, run.2) && run.0 != []
    ensures run.2.table == s.table && run.2.readers == s.readers && run.2.notices == s.notices
    ensures run.2.calls == s.calls - {p} && run.2.places == Moved(s.places, servers, Over)
    decreases |servers|
  {
    hide Leads, StartStep, StopStep, Moved;
    NoSteps(s);
    if servers == {} {
      var t := s.(calls := s.calls - {p});
      NoneLeftToStop(s, t, p);
      LeadsOn([s], [], s, s, t, Finish(p));
      run := ([s] + [t], [] + [Finish(p)], t);
    } else {
      var v :| v in servers;
      var t := s.(calls := s.calls[p := AboutToStop(servers - {v})], places := s.places[v := Over]);
      OneLessToStop(s, t, p, servers, v);
      LeadsOn([s], [], s, s, t, StopOne(p, v));
      var more := StopsAll(t, p, servers - {v});
      LeadsJoin([s] + [t], [] + [StopOne(p, v)], s, t, more.0, more.1, more.2);
      run := ([s] + [t] + more.0[1..], [] + [StopOne(p, v)] + more.1, more.2);
    }
  }

  lemma NoneLeftToStop(s: State, t: State, p: nat)
    requires p in s.calls && s.calls[p] == AboutToStop({}) && t == s.(calls := s.calls - {p})
    ensures Next(s, t, Finish(p)) && t.places == Moved(s.places, {}, Over)
  {
    hide StartStep;
  }

  lemma OneLessToStop(s: State, t: State, p: nat, servers: set<Server>, v: Server)
    requires p in s.calls && s.calls[p] == AboutToStop(servers) && v in servers
    requires t == s.(calls := s.calls[p := AboutToStop(servers - {v})], places := s.places[v := Over])
    ensures Next(s, t, StopOne(p, v)) && t.calls - {p} == s.calls - {p}
    ensures Moved(t.places, servers - {v}, Over) == Moved(s.places, servers, Over)
  {
    hide StartStep;
  }

  /** A stop of a connection that nothing else disturbs ends with no server of it, and the one there was over. */
  lemma UndisturbedStops(s: State, p: nat, id: Id) returns (states: seq<State>, steps: seq<Step>, t: State)
    requires p !in s.calls
    ensures Leads(states, steps, s, t)
    ensures t.table.running == s.table.running - {id} && t.calls == Overtaken(s.calls, {id})
    ensures t.places == if id in s.table.running then s.places[s.table.running[id] := Over] else s.places
  {
    hide Leads;
    var taken := if id in s.table.running then {s.table.running[id]} else {};
    var removed := s.(table := AfterRemoving(s.table, id),
                      calls := Overtaken(s.calls, {id})[p := AboutToStop(taken)],
                      places := Moved(s.places, taken, WithStopper(p)));
    NoSteps(s);
    assert Next(s, removed, Remove(p, id));
    LeadsOn([s], [], s, s, removed, Remove(p, id));
    var rest := StopsAll(removed, p, taken);
    LeadsJoin([s] + [removed], [] + [Remove(p, id)], s, removed, rest.0, rest.1, rest.2);
    states, steps, t := [s] + [removed] + rest.0[1..], [] + [Remove(p, id)] + rest.1, rest.2;
    assert t.calls == Overtaken(s.calls, {id});
    assert t.places == if id in s.table.running then s.places[s.table.running[id] := Over] else s.places;
  }
}
