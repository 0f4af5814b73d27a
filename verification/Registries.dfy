/**
 * What the app keeps per connection while it runs, each table behind one lock:
 * open sessions (`src-tauri/src/drivers/session.rs`), what tables hold
 * (`src-tauri/src/app/completion.rs`) and language servers
 * (`src-tauri/src/lsp/mod.rs`). Work that takes time happens outside the lock,
 * and a counter per connection says whether an invalidation overtook it.
 *
 * Every lock section is a function on the table, and a method that does it in
 * place.
 */
module Registries {
  import opened Basics

  type Id = string

  /** A connection's row; what a driver makes of the details is not part of this model. */
  datatype Config = Postgres(details: string) | BigQuery(details: string)

  /** What something was opened with: the row, and the password where the row asks for one. */
  datatype Credentials = Credentials(config: Config, secret: Option<string>)

  datatype Whose = Reader | Agent

  /** An open session; `serial` is new for every one opened. */
  datatype Session = Session(serial: nat, with: Credentials)

  function Count(counts: map<Id, nat>, id: Id): nat {
    if id in counts then counts[id] else 0
  }

  // ---- sessions ----

  datatype Sessions = Sessions(open: map<(Id, Whose), Session>, closes: map<Id, nat>)

  /** The second lock section of `get`: nothing when a close overtook the opening, else whoever landed first. */
  function Landed(table: Sessions, id: Id, whose: Whose, closes: nat, session: Session): Option<Session> {
    if Count(table.closes, id) != closes then None
    else if (id, whose) in table.open then Some(table.open[(id, whose)])
    else Some(session)
  }

  function AfterLanding(table: Sessions, id: Id, whose: Whose, closes: nat, session: Session): Sessions {
    if Count(table.closes, id) != closes || (id, whose) in table.open then table
    else table.(open := table.open[(id, whose) := session])
  }

  function AfterDropping(table: Sessions, id: Id, whose: Whose): Sessions {
    table.(open := table.open - {(id, whose)})
  }

  function AfterClosing(table: Sessions, id: Id): Sessions {
    Sessions(map k | k in table.open && k.0 != id :: table.open[k],
             table.closes[id := Count(table.closes, id) + 1])
  }

  class SessionRegistry {
    var open: map<(Id, Whose), Session>
    var closes: map<Id, nat>

    function Table(): Sessions
      reads this
    {
      Sessions(open, closes)
    }

    constructor ()
      ensures Table() == Sessions(map[], map[])
    {
      open, closes := map[], map[];
    }

    /** The first lock section of `get`. */
    method Asked(id: Id, whose: Whose) returns (found: Option<Session>, before: nat)
      ensures found == if (id, whose) in open then Some(open[(id, whose)]) else None
      ensures before == Count(closes, id)
    {
      found := if (id, whose) in open then Some(open[(id, whose)]) else None;
      before := Count(closes, id);
    }

    method Land(id: Id, whose: Whose, before: nat, session: Session) returns (landed: Option<Session>)
      modifies this
      ensures landed == Landed(old(Table()), id, whose, before, session)
      ensures Table() == AfterLanding(old(Table()), id, whose, before, session)
      ensures landed.Some? <==> Count(closes, id) == before
      ensures landed.Some? ==>
                open == old(open)[(id, whose) := landed.value]
                && landed.value == if (id, whose) in old(open) then old(open)[(id, whose)] else session
      ensures (landed.None? ==> open == old(open)) && closes == old(closes)
    {
      if Count(closes, id) != before {
        return None;
      }
      if (id, whose) !in open {
        open := open[(id, whose) := session];
      }
      return Some(open[(id, whose)]);
    }

    method DropOne(id: Id, whose: Whose)
      modifies this
      ensures Table() == AfterDropping(old(Table()), id, whose)
      ensures (id, whose) !in open && closes == old(closes)
      ensures forall k: (Id, Whose) :: k != (id, whose) ==> (k in open <==> k in old(open)) && (k in open ==> open[k] == old(open)[k])
    {
      open := open - {(id, whose)};
    }

    method Close(id: Id)
      modifies this
      ensures Table() == AfterClosing(old(Table()), id)
      ensures forall whose :: (id, whose) !in open
      ensures forall k: (Id, Whose) :: k.0 != id ==> (k in open <==> k in old(open)) && (k in open ==> open[k] == old(open)[k])
      ensures closes == old(closes)[id := Count(old(closes), id) + 1]
    {
      open := map k | k in open && k.0 != id :: open[k];
      closes := closes[id := Count(closes, id) + 1];
    }
  }

  // ---- what tables hold ----

  type TablePath = (string, string, string)

  /** What a table was found to hold, or that it was not there, and the session that answered. */
  datatype Known = Known(columns: Option<seq<string>>, answerer: Session)

  datatype Catalog = Catalog(tables: map<Id, map<TablePath, Known>>, forgotten: map<Id, nat>)

  function TablesOf(catalog: Catalog, id: Id): map<TablePath, Known> {
    if id in catalog.tables then catalog.tables[id] else map[]
  }

  function AfterLearning(catalog: Catalog, id: Id, generation: nat, path: TablePath, known: Known): Catalog {
    if Count(catalog.forgotten, id) != generation then catalog
    else catalog.(tables := catalog.tables[id := TablesOf(catalog, id)[path := known]])
  }

  /** What a connection's table is known to hold. */
  function Told(catalog: Catalog, id: Id, path: TablePath): Option<Known> {
    if path in TablesOf(catalog, id) then Some(TablesOf(catalog, id)[path]) else None
  }

  lemma LearnedIsTold(catalog: Catalog, id: Id, generation: nat, path: TablePath, known: Known)
    ensures var after := AfterLearning(catalog, id, generation, path, known);
      && (forall other, p ::
            Told(after, other, p)
            == if Count(catalog.forgotten, id) == generation && other == id && p == path then Some(known)
               else Told(catalog, other, p))
      && after.forgotten == catalog.forgotten
  {}

  /** What the answers to a list of questions leave, each learned in turn. */
  function AfterLearningAll(catalog: Catalog, id: Id, generation: nat, learned: seq<(TablePath, Known)>): Catalog
    decreases |learned|
  {
    if learned == [] then catalog
    else AfterLearningAll(AfterLearning(catalog, id, generation, learned[0].0, learned[0].1), id, generation, learned[1..])
  }

  /** Nothing told before is lost, and everything learned is told, while the connection is not forgotten. */
  lemma {:induction false} AllLearnedIsTold(catalog: Catalog, id: Id, generation: nat, learned: seq<(TablePath, Known)>)
    requires Count(catalog.forgotten, id) == generation
    ensures var after := AfterLearningAll(catalog, id, generation, learned);
      && (forall p :: Told(catalog, id, p).Some? ==> Told(after, id, p).Some?)
      && (forall k :: 0 <= k < |learned| ==> Told(after, id, learned[k].0).Some?)
      && after.forgotten == catalog.forgotten
    decreases |learned|
  {
    hide AfterLearning, Told;
    if learned != [] {
      LearnedIsTold(catalog, id, generation, learned[0].0, learned[0].1);
      var next := AfterLearning(catalog, id, generation, learned[0].0, learned[0].1);
      AllLearnedIsTold(next, id, generation, learned[1..]);
      forall k | 0 <= k < |learned|
        ensures Told(AfterLearningAll(catalog, id, generation, learned), id, learned[k].0).Some?
      {
        if k > 0 {
          assert learned[1..][k - 1] == learned[k];
        } else {
          assert Told(next, id, learned[0].0).Some?;
        }
      }
    }
  }

  function AfterForgetting(catalog: Catalog, id: Id): Catalog {
    Catalog(catalog.tables - {id}, catalog.forgotten[id := Count(catalog.forgotten, id) + 1])
  }

  class Catalogs {
    var tables: map<Id, map<TablePath, Known>>
    var forgotten: map<Id, nat>

    function Table(): Catalog
      reads this
    {
      Catalog(tables, forgotten)
    }

    constructor ()
      ensures Table() == Catalog(map[], map[])
    {
      tables, forgotten := map[], map[];
    }

    method Generation(id: Id) returns (generation: nat)
      ensures generation == Count(forgotten, id)
    {
      generation := Count(forgotten, id);
    }

    method Learn(id: Id, generation: nat, path: TablePath, known: Known) returns (kept: bool)
      modifies this
      ensures kept <==> old(Count(forgotten, id)) == generation
      ensures kept ==> Told(Table(), id, path) == Some(known)
      ensures forall other, p :: !kept || other != id || p != path ==> Told(Table(), other, p) == Told(old(Table()), other, p)
      ensures forgotten == old(forgotten)
      ensures Table() == AfterLearning(old(Table()), id, generation, path, known)
    {
      ghost var before := Table();
      LearnedIsTold(before, id, generation, path, known);
      if Count(forgotten, id) != generation {
        return false;
      }
      if id !in tables {
        tables := tables[id := map[]];
      }
      tables := tables[id := tables[id][path := known]];
      return true;
    }

    method Forget(id: Id)
      modifies this
      ensures Table() == AfterForgetting(old(Table()), id)
      ensures forall p :: Told(Table(), id, p) == None
      ensures forall other, p :: other != id ==> Told(Table(), other, p) == Told(old(Table()), other, p)
      ensures forgotten == old(forgotten)[id := Count(old(forgotten), id) + 1]
    {
      tables := tables - {id};
      forgotten := forgotten[id := Count(forgotten, id) + 1];
    }
  }

  // ---- language servers ----

  /** A started language server; `serial` is new for every start. */
  datatype Server = Server(connection: Id, serial: nat, with: Credentials)

  datatype Servers = Servers(running: map<Id, Server>, stops: map<Id, nat>)

  /** `before_starting` records the connection, so that stopping every server counts against it. */
  function AfterAsking(table: Servers, id: Id): Servers {
    table.(stops := table.stops[id := Count(table.stops, id)])
  }

  function Inserted(table: Servers, server: Server, stops: nat): Option<Server> {
    if Count(table.stops, server.connection) != stops then None
    else if server.connection in table.running then Some(table.running[server.connection])
    else Some(server)
  }

  function AfterInserting(table: Servers, server: Server, stops: nat): Servers {
    if Count(table.stops, server.connection) != stops || server.connection in table.running then table
    else table.(running := table.running[server.connection := server])
  }

  function AfterRemoving(table: Servers, id: Id): Servers {
    Servers(table.running - {id}, table.stops[id := Count(table.stops, id) + 1])
  }

  function AfterLeaving(table: Servers, id: Id, serial: nat): Servers {
    if id in table.running && table.running[id].serial == serial
    then table.(running := table.running - {id}) else table
  }

  function AfterTakingAll(table: Servers): Servers {
    Servers(map[], map id | id in table.stops :: table.stops[id] + 1)
  }

  class LspRegistry {
    var running: map<Id, Server>
    var stops: map<Id, nat>

    function Table(): Servers
      reads this
    {
      Servers(running, stops)
    }

    constructor ()
      ensures Table() == Servers(map[], map[])
    {
      running, stops := map[], map[];
    }

    method Get(id: Id) returns (found: Option<Server>)
      ensures found == if id in running then Some(running[id]) else None
    {
      found := if id in running then Some(running[id]) else None;
    }

    method BeforeStarting(id: Id) returns (before: nat)
      modifies this
      ensures before == old(Count(stops, id))
      ensures Table() == AfterAsking(old(Table()), id)
      ensures stops == old(stops)[id := before] && running == old(running)
    {
      if id !in stops {
        stops := stops[id := 0];
      }
      before := stops[id];
    }

    method Insert(server: Server, before: nat) returns (kept: Option<Server>)
      modifies this
      ensures kept == Inserted(old(Table()), server, before)
      ensures Table() == AfterInserting(old(Table()), server, before)
      ensures kept.Some? <==> Count(stops, server.connection) == before
      ensures kept.Some? ==>
                running == old(running)[server.connection := kept.value]
                && kept.value == if server.connection in old(running) then old(running)[server.connection] else server
      ensures (kept.None? ==> running == old(running)) && stops == old(stops)
    {
      if Count(stops, server.connection) != before {
        return None;
      }
      if server.connection !in running {
        running := running[server.connection := server];
      }
      return Some(running[server.connection]);
    }

    method Remove(id: Id) returns (removed: Option<Server>)
      modifies this
      ensures removed == if id in old(running) then Some(old(running)[id]) else None
      ensures Table() == AfterRemoving(old(Table()), id)
      ensures id !in running && stops == old(stops)[id := Count(old(stops), id) + 1]
      ensures forall k :: k != id ==> (k in running <==> k in old(running)) && (k in running ==> running[k] == old(running)[k])
    {
      stops := stops[id := Count(stops, id) + 1];
      removed := if id in running then Some(running[id]) else None;
      running := running - {id};
    }

    /** Says that no server is registered once it is done, and takes out none but the one named. */
    method RemoveSession(id: Id, serial: nat) returns (leftWithout: bool)
      modifies this
      ensures Table() == AfterLeaving(old(Table()), id, serial)
      ensures leftWithout <==> id !in running
      ensures id in running <==> id in old(running) && old(running)[id].serial != serial
      ensures id in running ==> running[id] == old(running)[id]
      ensures stops == old(stops)
      ensures forall k :: k != id ==> (k in running <==> k in old(running)) && (k in running ==> running[k] == old(running)[k])
    {
      if id in running {
        if running[id].serial == serial {
          running := running - {id};
          return true;
        }
        return false;
      }
      return true;
    }

    method TakeAll() returns (taken: set<Server>)
      modifies this
      ensures taken == old(running.Values)
      ensures Table() == AfterTakingAll(old(Table()))
      ensures running == map[] && stops.Keys == old(stops).Keys
      ensures forall id :: id in stops ==> stops[id] == old(stops)[id] + 1
    {
      taken := running.Values;
      running := map[];
      stops := map id | id in stops :: stops[id] + 1;
    }
  }
}
