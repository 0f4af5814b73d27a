/**
 * Nothing stale is kept: saving and deleting connections, opening sessions,
 * completing statements and starting language servers, each by any number of
 * callers at once, over the three tables of `Registries`.
 *
 * Every lock section, read of a row, read of a secret, write of a secret and
 * commit of a row is one atomic step, and any step of any caller may come
 * next. A save or a delete writes the connection's secret and row in any order
 * and any number of times, so a failed write that got half-way is one of its
 * runs; then it closes the sessions, stops the server and forgets the catalogue
 * (`src-tauri/src/app/connections.rs`).
 */
module Freshness {
  import opened Basics
  import opened Registries

  /** How far a save or a delete is: writing, or which invalidations are done. */
  datatype Stage = Writing | Closed | Stopped {
    function Rank(): nat {
      match this case Writing => 0 case Closed => 1 case Stopped => 2
    }
  }

  /**
   * A save or a delete. `wrote` says it has written something. One saving a new
   * connection has an id nobody else knows, and until its row is committed it
   * may fail without invalidating anything.
   */
  datatype Writer = Writer(id: Id, stage: Stage, wrote: bool, isNew: bool, committed: bool)

  /** Where a call that wants a session is. */
  datatype Progress =
    | Asking
    | Reading(closes: nat)
    | ReadRow(closes: nat, config: Config)
    | Ready(closes: nat, session: Session)
    | Holding(session: Session)

  /** A call for a session; a completion first read the catalogue's `generation`. */
  datatype Call = Call(id: Id, whose: Whose, generation: Option<nat>, progress: Progress)

  /** Where a start of a language server is. */
  datatype Starting =
    | Counted(stops: nat)
    | StartReadRow(stops: nat, config: Config)
    | Started(stops: nat, server: Server)

  datatype Start = Start(id: Id, progress: Starting)

  /** What is stored and who is writing it; `known` are the connections that have had a row. */
  datatype Store = Store(rows: map<Id, Config>, secrets: map<Id, string>, known: set<Id>, writers: map<nat, Writer>)

  datatype State = State(
    store: Store,
    sessions: Sessions,
    catalog: Catalog,
    servers: Servers,
    calls: map<nat, Call>,
    starts: map<nat, Start>)

  ghost predicate Init(s: State) {
    && s.store.rows.Keys <= s.store.known && s.store.writers == map[]
    && s.sessions == Sessions(map[], map[]) && s.catalog == Catalog(map[], map[])
    && s.servers == Servers(map[], map[])
    && s.calls == map[] && s.starts == map[]
  }

  // ---- steps ----

  datatype Step =
    | BeginWrite(p: nat, id: Id)
    | BeginNew(p: nat, id: Id)
    | WriteSecret(p: nat, secret: Option<string>)
    | CommitRow(p: nat, row: Option<Config>)
    | FailNew(p: nat)
    | CloseSessions(p: nat)
    | StopServer(p: nat)
    | Forget(p: nat)
    | BeginCall(p: nat, id: Id, whose: Whose)
    | BeginCompletion(p: nat, id: Id)
    | AskForSession(p: nat)
    | FindRow(p: nat)
    | FindSecret(p: nat, serial: nat)
    | LandSession(p: nat)
    | LearnTable(p: nat, path: TablePath, columns: Option<seq<string>>)
    | AskAgain(p: nat)
    | EndCall(p: nat)
    | DropSession(id: Id, whose: Whose)
    | BeginStart(p: nat, id: Id)
    | FindStartRow(p: nat)
    | FindStartSecret(p: nat, serial: nat)
    | InsertServer(p: nat)
    | EndStart(p: nat)
    | RemoveServer(id: Id)
    | LeaveServer(id: Id, serial: nat)
    | TakeAllServers

  function WithSecret(secrets: map<Id, string>, id: Id, secret: Option<string>): map<Id, string> {
    if secret.Some? then secrets[id := secret.value] else secrets - {id}
  }

  function WithRow(rows: map<Id, Config>, id: Id, row: Option<Config>): map<Id, Config> {
    if row.Some? then rows[id := row.value] else rows - {id}
  }

  /** What opening with a row asks of the secrets: PostgreSQL's password, and of BigQuery nothing. */
  function CredentialsFor(config: Config, secrets: map<Id, string>, id: Id): Option<Credentials> {
    if config.BigQuery? then Some(Credentials(config, Option.None))
    else if id in secrets then Some(Credentials(config, Option.Some(secrets[id])))
    else Option.None
  }

  /** What a writer's step does to what is stored. */
  ghost predicate StoreStep(a: Store, b: Store, step: Step) {
    match step
    case BeginWrite(p, id) =>
      && p !in a.writers
      && b == a.(writers := a.writers[p := Writer(id, Writing, false, false, false)])
    case BeginNew(p, id) =>
      && p !in a.writers && id !in a.known && (forall q <- a.writers :: a.writers[q].id != id)
      && b == a.(writers := a.writers[p := Writer(id, Writing, false, true, false)])
    case WriteSecret(p, secret) =>
      && p in a.writers && a.writers[p].stage == Writing
      && b == a.(secrets := WithSecret(a.secrets, a.writers[p].id, secret),
                 writers := a.writers[p := a.writers[p].(wrote := true)])
    case CommitRow(p, row) =>
      && p in a.writers && a.writers[p].stage == Writing
      // Only a new connection's row is inserted; any other is updated or deleted.
      && (if a.writers[p].isNew then row.Some? else a.writers[p].id in a.rows)
      && b == a.(rows := WithRow(a.rows, a.writers[p].id, row),
                 known := a.known + {a.writers[p].id},
                 writers := a.writers[p := a.writers[p].(wrote := true, committed := true)])
    case FailNew(p) =>
      && p in a.writers && a.writers[p].isNew && !a.writers[p].committed
      && b == a.(writers := a.writers - {p})
    case CloseSessions(p) =>
      && p in a.writers && a.writers[p].stage == Writing
      && b == a.(writers := a.writers[p := a.writers[p].(stage := Closed)])
    case StopServer(p) =>
      && p in a.writers && a.writers[p].stage == Closed
      && b == a.(writers := a.writers[p := a.writers[p].(stage := Stopped)])
    case Forget(p) =>
      && p in a.writers && a.writers[p].stage == Stopped
      && b == a.(writers := a.writers - {p})
    case _ => false
  }

  ghost predicate WriterStep(s: State, t: State, step: Step) {
    && StoreStep(s.store, t.store, step)
    && match step
       case CloseSessions(p) =>
         t == s.(store := t.store, sessions := AfterClosing(s.sessions, s.store.writers[p].id))
       case StopServer(p) =>
         t == s.(store := t.store, servers := AfterRemoving(s.servers, s.store.writers[p].id))
       case Forget(p) =>
         t == s.(store := t.store, catalog := AfterForgetting(s.catalog, s.store.writers[p].id))
       case _ => t == s.(store := t.store)
  }

  ghost predicate CallAt(s: State, p: nat, progress: Progress) {
    p in s.calls && s.calls[p].progress == progress
  }

  ghost predicate CallStep(s: State, t: State, step: Step) {
    match step
    case BeginCall(p, id, whose) =>
      && p !in s.calls
      && t == s.(calls := s.calls[p := Call(id, whose, Option.None, Asking)])
    case BeginCompletion(p, id) =>
      && p !in s.calls
      && t == s.(calls := s.calls[p := Call(id, Reader, Option.Some(Count(s.catalog.forgotten, id)), Asking)])
    case AskForSession(p) =>
      && CallAt(s, p, Asking)
      && var c := s.calls[p];
         var next := if (c.id, c.whose) in s.sessions.open
                     then Holding(s.sessions.open[(c.id, c.whose)])
                     else Reading(Count(s.sessions.closes, c.id));
         t == s.(calls := s.calls[p := c.(progress := next)])
    case FindRow(p) =>
      && p in s.calls && s.calls[p].progress.Reading? && s.calls[p].id in s.store.rows
      && var c := s.calls[p];
         t == s.(calls := s.calls[p := c.(progress := ReadRow(c.progress.closes, s.store.rows[c.id]))])
    case FindSecret(p, serial) =>
      && p in s.calls && s.calls[p].progress.ReadRow?
      && var c := s.calls[p];
         var with := CredentialsFor(c.progress.config, s.store.secrets, c.id);
         && with.Some?
         && t == s.(calls := s.calls[p := c.(progress := Ready(c.progress.closes, Session(serial, with.value)))])
    case LandSession(p) =>
      && p in s.calls && s.calls[p].progress.Ready?
      && var c := s.calls[p];
         var landed := Landed(s.sessions, c.id, c.whose, c.progress.closes, c.progress.session);
         // Overtaken, it goes round again.
         var next := if landed.Some? then Holding(landed.value) else Asking;
         t == s.(sessions := AfterLanding(s.sessions, c.id, c.whose, c.progress.closes, c.progress.session),
                 calls := s.calls[p := c.(progress := next)])
    case LearnTable(p, path, columns) =>
      && p in s.calls && s.calls[p].progress.Holding? && s.calls[p].generation.Some?
      && var c := s.calls[p];
         t == s.(catalog := AfterLearning(s.catalog, c.id, c.generation.value, path,
                                          Known(columns, c.progress.session)))
    case AskAgain(p) =>
      && p in s.calls && s.calls[p].progress.Holding? && s.calls[p].generation.Some?
      && t == s.(calls := s.calls[p := s.calls[p].(progress := Asking)])
    case EndCall(p) =>
      t == s.(calls := s.calls - {p})
    case DropSession(id, whose) =>
      t == s.(sessions := AfterDropping(s.sessions, id, whose))
    case _ => false
  }

  ghost predicate ServerStep(s: State, t: State, step: Step) {
    match step
    case BeginStart(p, id) =>
      && p !in s.starts
      && t == s.(servers := AfterAsking(s.servers, id),
                 starts := s.starts[p := Start(id, Counted(Count(s.servers.stops, id)))])
    case FindStartRow(p) =>
      && p in s.starts && s.starts[p].progress.Counted? && s.starts[p].id in s.store.rows
      && var c := s.starts[p];
         t == s.(starts := s.starts[p := c.(progress := StartReadRow(c.progress.stops, s.store.rows[c.id]))])
    case FindStartSecret(p, serial) =>
      && p in s.starts && s.starts[p].progress.StartReadRow?
      && var c := s.starts[p];
         var with := CredentialsFor(c.progress.config, s.store.secrets, c.id);
         && with.Some?
         && t == s.(starts := s.starts[p := c.(progress := Started(c.progress.stops, Server(c.id, serial, with.value)))])
    case InsertServer(p) =>
      && p in s.starts && s.starts[p].progress.Started?
      && t == s.(servers := AfterInserting(s.servers, s.starts[p].progress.server, s.starts[p].progress.stops),
                 starts := s.starts - {p})
    case EndStart(p) =>
      t == s.(starts := s.starts - {p})
    case RemoveServer(id) =>
      t == s.(servers := AfterRemoving(s.servers, id))
    case LeaveServer(id, serial) =>
      t == s.(servers := AfterLeaving(s.servers, id, serial))
    case TakeAllServers =>
      t == s.(servers := AfterTakingAll(s.servers))
    case _ => false
  }

  ghost predicate Next(s: State, t: State, step: Step) {
    WriterStep(s, t, step) || CallStep(s, t, step) || ServerStep(s, t, step)
  }

  /** A run: any states, each reached from the one before by some step. */
  ghost predicate Run(states: seq<State>, steps: seq<Step>) {
    && |states| == |steps| + 1 && Init(states[0])
    && forall i :: 0 <= i < |steps| ==> Next(states[i], states[i + 1], steps[i])
  }

  // ---- the invariant ----

  ghost predicate Current(s: Store, id: Id, with: Credentials) {
    && id in s.rows && with.config == s.rows[id]
    && (with.config.Postgres? ==> id in s.secrets && with.secret == Option.Some(s.secrets[id]))
  }

  /** Someone has written this connection and not got past `rank` of its invalidations. */
  ghost predicate Dirty(s: Store, id: Id, rank: nat) {
    exists p <- s.writers :: s.writers[p].id == id && s.writers[p].wrote && s.writers[p].stage.Rank() <= rank
  }

  /** Opened from what is stored now, or about to be invalidated by whoever changed that. */
  ghost predicate Good(s: Store, id: Id, with: Credentials, rank: nat) {
    id in s.known && (Current(s, id, with) || Dirty(s, id, rank))
  }

  ghost predicate GoodRow(s: Store, id: Id, config: Config, rank: nat) {
    id in s.known && ((id in s.rows && s.rows[id] == config) || Dirty(s, id, rank))
  }

  ghost predicate GoodCall(s: State, c: Call) {
    && (c.generation.Some? ==> c.generation.value <= Count(s.catalog.forgotten, c.id))
    && match c.progress
       case Asking => true
       case Reading(closes) => closes <= Count(s.sessions.closes, c.id)
       case ReadRow(closes, config) =>
         && c.id in s.store.known && closes <= Count(s.sessions.closes, c.id)
         && (closes == Count(s.sessions.closes, c.id) ==> GoodRow(s.store, c.id, config, 0))
       case Ready(closes, session) =>
         && c.id in s.store.known && closes <= Count(s.sessions.closes, c.id)
         && (closes == Count(s.sessions.closes, c.id) ==> Good(s.store, c.id, session.with, 0))
       case Holding(session) =>
         && c.id in s.store.known
         && (c.generation == Option.Some(Count(s.catalog.forgotten, c.id)) ==> Good(s.store, c.id, session.with, 2))
  }

  ghost predicate GoodStart(s: State, c: Start) {
    match c.progress
    case Counted(stops) => stops <= Count(s.servers.stops, c.id) && c.id in s.servers.stops
    case StartReadRow(stops, config) =>
      && c.id in s.store.known && stops <= Count(s.servers.stops, c.id) && c.id in s.servers.stops
      && (stops == Count(s.servers.stops, c.id) ==> GoodRow(s.store, c.id, config, 1))
    case Started(stops, server) =>
      && c.id == server.connection && c.id in s.store.known && stops <= Count(s.servers.stops, c.id)
      && c.id in s.servers.stops
      && (stops == Count(s.servers.stops, c.id) ==> Good(s.store, c.id, server.with, 1))
  }

  ghost predicate GoodWriters(s: Store) {
    && s.rows.Keys <= s.known
    && (forall p <- s.writers :: s.writers[p].isNew && !s.writers[p].committed ==> s.writers[p].id !in s.known)
    && (forall p <- s.writers, q <- s.writers :: p != q && s.writers[p].isNew && !s.writers[p].committed ==>
         s.writers[q].id != s.writers[p].id || !s.writers[q].isNew)
  }

  ghost predicate GoodSessions(s: State) {
    forall k <- s.sessions.open :: Good(s.store, k.0, s.sessions.open[k].with, 0)
  }

  ghost predicate GoodCatalog(s: State) {
    forall id <- s.catalog.tables, path: TablePath :: path in s.catalog.tables[id] ==>
      Good(s.store, id, s.catalog.tables[id][path].answerer.with, 2)
  }

  ghost predicate GoodServers(s: State) {
    forall id <- s.servers.running ::
      s.servers.running[id].connection == id && Good(s.store, id, s.servers.running[id].with, 1)
  }

  ghost predicate Inv(s: State) {
    && GoodWriters(s.store) && GoodSessions(s) && GoodCatalog(s) && GoodServers(s)
    && (forall p <- s.calls :: GoodCall(s, s.calls[p]))
    && (forall p <- s.starts :: GoodStart(s, s.starts[p]))
  }

  // ---- what a writer's step may spoil ----

  /** Everything good stays good, save what of connection `id` was to be invalidated next. */
  ghost predicate Keeps(a: Store, b: Store, id: Id, rank: int) {
    && a.known <= b.known
    && (forall other: Id, with: Credentials, r: nat {:trigger Good(b, other, with, r)} ::
         r <= 2 && Good(a, other, with, r) && (other != id || r != rank) ==> Good(b, other, with, r))
    && (forall other: Id, config: Config, r: nat {:trigger GoodRow(b, other, config, r)} ::
         r <= 2 && GoodRow(a, other, config, r) && (other != id || r != rank) ==> GoodRow(b, other, config, r))
  }

  /** The connection a step invalidates for, and the rank of the invalidation it makes. */
  function Spoils(a: Store, step: Step): (Id, int) {
    match step
    case CloseSessions(p) => (if p in a.writers then a.writers[p].id else "", 0)
    case StopServer(p) => (if p in a.writers then a.writers[p].id else "", 1)
    case Forget(p) => (if p in a.writers then a.writers[p].id else "", 2)
    case _ => ("", -1)
  }

  lemma DirtyKept(a: Store, b: Store, id: Id, r: nat, p: nat)
    requires Dirty(a, id, r)
    requires forall q <- a.writers :: q != p ==> q in b.writers && b.writers[q] == a.writers[q]
    requires p in a.writers && a.writers[p].id == id && a.writers[p].wrote && a.writers[p].stage.Rank() <= r ==>
      p in b.writers && b.writers[p].id == id && b.writers[p].wrote && b.writers[p].stage.Rank() <= r
    ensures Dirty(b, id, r)
  {
    var q :| q in a.writers && a.writers[q].id == id && a.writers[q].wrote && a.writers[q].stage.Rank() <= r;
    assert q in b.writers;
  }

  lemma BeginKeeps(a: Store, b: Store, step: Step)
    requires StoreStep(a, b, step) && GoodWriters(a) && (step.BeginWrite? || step.BeginNew? || step.FailNew?)
    ensures Keeps(a, b, "", -1)
  {
    forall id, r: nat | id in a.known && Dirty(a, id, r)
      ensures Dirty(b, id, r)
    {
      DirtyKept(a, b, id, r, step.p);
    }
  }

  lemma WriteKeeps(a: Store, b: Store, step: Step)
    requires StoreStep(a, b, step) && (step.WriteSecret? || step.CommitRow?)
    ensures Keeps(a, b, "", -1)
  {
    var id := a.writers[step.p].id;
    assert step.p in b.writers && b.writers[step.p].wrote;
    assert forall r: nat {:trigger Dirty(b, id, r)} :: Dirty(b, id, r);
    forall other, r: nat | Dirty(a, other, r)
      ensures Dirty(b, other, r)
    {
      DirtyKept(a, b, other, r, step.p);
    }
    assert forall other :: other != id ==>
      && (other in a.rows <==> other in b.rows) && (other in a.rows ==> a.rows[other] == b.rows[other])
      && (other in a.secrets <==> other in b.secrets) && (other in a.secrets ==> a.secrets[other] == b.secrets[other]);
    forall other, with, r: nat | Good(a, other, with, r)
      ensures Good(b, other, with, r)
    {
      assert other == id ==> Dirty(b, id, r);
    }
    forall other, config, r: nat | GoodRow(a, other, config, r)
      ensures GoodRow(b, other, config, r)
    {
      assert other == id ==> Dirty(b, id, r);
    }
  }

  lemma InvalidateKeeps(a: Store, b: Store, step: Step)
    requires StoreStep(a, b, step) && (step.CloseSessions? || step.StopServer? || step.Forget?)
    ensures Keeps(a, b, Spoils(a, step).0, Spoils(a, step).1)
  {
    var (id, rank) := Spoils(a, step);
    forall other, r: nat | r <= 2 && Dirty(a, other, r) && (other != id || r != rank)
      ensures Dirty(b, other, r)
    {
      DirtyKept(a, b, other, r, step.p);
    }
  }

  lemma StoreStepKeeps(a: Store, b: Store, step: Step)
    requires StoreStep(a, b, step) && GoodWriters(a)
    ensures Keeps(a, b, Spoils(a, step).0, Spoils(a, step).1) && GoodWriters(b)
  {
    hide Good, GoodRow, Dirty, Current;
    if step.BeginWrite? || step.BeginNew? || step.FailNew? {
      BeginKeeps(a, b, step);
    } else if step.WriteSecret? || step.CommitRow? {
      WriteKeeps(a, b, step);
    } else {
      InvalidateKeeps(a, b, step);
    }
  }

  // ---- every step keeps the invariant ----

  lemma WriterStepInv(s: State, t: State, step: Step)
    requires Inv(s) && WriterStep(s, t, step)
    ensures Inv(t)
  {
    hide Good, GoodRow, StoreStep, GoodWriters;
    StoreStepKeeps(s.store, t.store, step);
    SpoiledIsRemoved(s, t, step);
    WriterStepCalls(s, t, step);
    WriterStepStarts(s, t, step);
  }

  lemma SpoiledIsRemoved(s: State, t: State, step: Step)
    requires Inv(s) && WriterStep(s, t, step) && Keeps(s.store, t.store, Spoils(s.store, step).0, Spoils(s.store, step).1)
    ensures GoodSessions(t) && GoodCatalog(t) && GoodServers(t)
  {
    hide Good, GoodRow, GoodWriters;
  }

  lemma WriterStepCalls(s: State, t: State, step: Step)
    requires Inv(s) && WriterStep(s, t, step) && Keeps(s.store, t.store, Spoils(s.store, step).0, Spoils(s.store, step).1)
    ensures forall p <- t.calls :: GoodCall(t, t.calls[p])
  {
    hide GoodCall, Keeps, StoreStep, AfterClosing, AfterRemoving, AfterForgetting, Spoils;
    hide GoodWriters, GoodSessions, GoodCatalog, GoodServers, GoodStart;
    forall p <- t.calls
      ensures GoodCall(t, t.calls[p])
    {
      assert GoodCall(s, s.calls[p]);
      WriterStepCall(s, t, step, s.calls[p]);
    }
  }

  lemma WriterStepCall(s: State, t: State, step: Step, c: Call)
    requires GoodCall(s, c) && WriterStep(s, t, step)
    requires Keeps(s.store, t.store, Spoils(s.store, step).0, Spoils(s.store, step).1)
    ensures GoodCall(t, c)
  {
    hide Good, GoodRow;
  }

  lemma WriterStepStarts(s: State, t: State, step: Step)
    requires Inv(s) && WriterStep(s, t, step) && Keeps(s.store, t.store, Spoils(s.store, step).0, Spoils(s.store, step).1)
    ensures forall p <- t.starts :: GoodStart(t, t.starts[p])
  {
    hide GoodStart, Keeps, StoreStep, AfterClosing, AfterRemoving, AfterForgetting, Spoils;
    hide GoodWriters, GoodSessions, GoodCatalog, GoodServers, GoodCall;
    forall p <- t.starts
      ensures GoodStart(t, t.starts[p])
    {
      assert GoodStart(s, s.starts[p]);
      WriterStepStart(s, t, step, s.starts[p]);
    }
  }

  lemma WriterStepStart(s: State, t: State, step: Step, c: Start)
    requires GoodStart(s, c) && WriterStep(s, t, step)
    requires Keeps(s.store, t.store, Spoils(s.store, step).0, Spoils(s.store, step).1)
    ensures GoodStart(t, c)
  {
    hide Good, GoodRow;
  }

  lemma CallFrame(s: State, t: State, c: Call)
    requires GoodCall(s, c) && t.store == s.store
    requires t.sessions.closes == s.sessions.closes && t.catalog.forgotten == s.catalog.forgotten
    ensures GoodCall(t, c)
  {}

  lemma StartFrame(s: State, t: State, c: Start)
    requires GoodStart(s, c) && t.store == s.store && t.servers.stops == s.servers.stops
    ensures GoodStart(t, c)
  {}

  lemma DirtyLater(s: Store, id: Id)
    ensures Dirty(s, id, 0) ==> Dirty(s, id, 2)
  {}

  lemma RowsAreKnown(s: Store)
    requires GoodWriters(s)
    ensures s.rows.Keys <= s.known
  {}

  /** The call a step is about is good afterwards. */
  lemma SteppedCall(s: State, t: State, step: Step)
    requires Inv(s) && CallStep(s, t, step) && !step.EndCall? && !step.DropSession?
    ensures step.p in t.calls && GoodCall(t, t.calls[step.p])
  {
    hide GoodWriters, GoodStart, GoodServers, GoodCatalog, Dirty;
    RowsAreKnown(s.store);
    if step.p in s.calls {
      assert GoodCall(s, s.calls[step.p]);
      DirtyLater(s.store, s.calls[step.p].id);
    }
    if step.FindSecret? {
      FoundSecret(s, step.p);
    }
  }

  /** The secret read now, with a row that is the current one, makes current credentials. */
  lemma FoundSecret(s: State, p: nat)
    requires p in s.calls && s.calls[p].progress.ReadRow? && GoodCall(s, s.calls[p])
    requires CredentialsFor(s.calls[p].progress.config, s.store.secrets, s.calls[p].id).Some?
    ensures var c := s.calls[p];
      c.progress.closes == Count(s.sessions.closes, c.id) ==>
        Good(s.store, c.id, CredentialsFor(c.progress.config, s.store.secrets, c.id).value, 0)
  {}

  lemma CallStepTables(s: State, t: State, step: Step)
    requires Inv(s) && CallStep(s, t, step)
    ensures GoodSessions(t) && GoodCatalog(t)
    ensures t.store == s.store && t.sessions.closes == s.sessions.closes && t.catalog.forgotten == s.catalog.forgotten
    ensures t.servers == s.servers && t.starts == s.starts
  {
    hide GoodWriters, GoodStart, GoodServers, Good, GoodRow;
    if step.LandSession? || step.LearnTable? {
      assert GoodCall(s, s.calls[step.p]);
    }
  }

  lemma CallStepInv(s: State, t: State, step: Step)
    requires Inv(s) && CallStep(s, t, step)
    ensures Inv(t)
  {
    hide GoodCall, GoodStart, GoodWriters, Good, GoodRow, GoodSessions, GoodCatalog;
    CallStepTables(s, t, step);
    forall p <- t.calls
      ensures GoodCall(t, t.calls[p])
    {
      if p in s.calls && s.calls[p] == t.calls[p] {
        CallFrame(s, t, s.calls[p]);
      } else {
        SteppedCall(s, t, step);
      }
    }
    forall p <- t.starts
      ensures GoodStart(t, t.starts[p])
    {
      StartFrame(s, t, s.starts[p]);
    }
  }

  lemma SteppedStart(s: State, t: State, step: Step)
    requires Inv(s) && ServerStep(s, t, step) && (step.BeginStart? || step.FindStartRow? || step.FindStartSecret?)
    ensures step.p in t.starts && GoodStart(t, t.starts[step.p])
  {
    hide GoodWriters, GoodCall, GoodSessions, GoodCatalog, Dirty;
    RowsAreKnown(s.store);
    if step.p in s.starts {
      assert GoodStart(s, s.starts[step.p]);
    }
  }

  /** A start nobody stepped: the counter it read is still in the table, and no lower there. */
  lemma OtherStart(s: State, t: State, step: Step, c: Start)
    requires ServerStep(s, t, step) && GoodStart(s, c)
    ensures GoodStart(t, c)
  {
    hide Good, GoodRow;
  }

  lemma ServerStepServers(s: State, t: State, step: Step)
    requires Inv(s) && ServerStep(s, t, step)
    ensures GoodServers(t)
    ensures t.store == s.store && t.sessions == s.sessions && t.catalog == s.catalog && t.calls == s.calls
  {
    hide GoodWriters, GoodCall, GoodSessions, GoodCatalog, Good, GoodRow;
    if step.InsertServer? {
      assert GoodStart(s, s.starts[step.p]);
    }
  }

  lemma ServerStepInv(s: State, t: State, step: Step)
    requires Inv(s) && ServerStep(s, t, step)
    ensures Inv(t)
  {
    hide GoodCall, GoodStart, GoodWriters, Good, GoodRow, GoodServers;
    ServerStepServers(s, t, step);
    forall p <- t.calls
      ensures GoodCall(t, t.calls[p])
    {
      CallFrame(s, t, s.calls[p]);
    }
    forall p <- t.starts
      ensures GoodStart(t, t.starts[p])
    {
      if p in s.starts && s.starts[p] == t.starts[p] {
        OtherStart(s, t, step, s.starts[p]);
      } else {
        SteppedStart(s, t, step);
      }
    }
  }

  // ---- over whole runs ----

  lemma {:induction false} RunInv(states: seq<State>, steps: seq<Step>, i: nat)
    requires Run(states, steps) && i < |states|
    ensures Inv(states[i])
  {
    hide Good;
    if i > 0 {
      RunInv(states, steps, i - 1);
      var s, t, step := states[i - 1], states[i], steps[i - 1];
      NextInv(s, t, step);
    }
  }

  lemma NextInv(s: State, t: State, step: Step)
    requires Inv(s) && Next(s, t, step)
    ensures Inv(t)
  {
    hide Inv, WriterStep, CallStep, ServerStep;
    if WriterStep(s, t, step) {
      WriterStepInv(s, t, step);
    } else if CallStep(s, t, step) {
      CallStepInv(s, t, step);
    } else {
      ServerStepInv(s, t, step);
    }
  }

  /** No save or delete of the connection is between its first write and its last invalidation. */
  ghost predicate Quiet(s: State, id: Id) {
    forall p <- s.store.writers :: s.store.writers[p].id == id ==> !s.store.writers[p].wrote
  }

  /**
   * In every run, whenever nobody is half-way through changing a connection,
   * every open session and the language server were opened from its current
   * row and secret, and everything remembered of its tables was answered by
   * such a session.
   */
  lemma NothingStaleIsKept(states: seq<State>, steps: seq<Step>, i: nat, id: Id)
    requires Run(states, steps) && i < |states| && Quiet(states[i], id)
    ensures forall whose :: (id, whose) in states[i].sessions.open ==>
      Current(states[i].store, id, states[i].sessions.open[(id, whose)].with)
    ensures id in states[i].servers.running ==> Current(states[i].store, id, states[i].servers.running[id].with)
    ensures forall path: TablePath :: id in states[i].catalog.tables && path in states[i].catalog.tables[id] ==>
      Current(states[i].store, id, states[i].catalog.tables[id][path].answerer.with)
  {
    hide Current;
    var s := states[i];
    RunInv(states, steps, i);
    assert forall r: nat {:trigger Dirty(s.store, id, r)} :: !Dirty(s.store, id, r);
    forall whose | (id, whose) in s.sessions.open
      ensures Current(s.store, id, s.sessions.open[(id, whose)].with)
    {
      assert Good(s.store, (id, whose).0, s.sessions.open[(id, whose)].with, 0);
    }
    assert id in s.servers.running ==> Good(s.store, id, s.servers.running[id].with, 1);
    forall path: TablePath | id in s.catalog.tables && path in s.catalog.tables[id]
      ensures Current(s.store, id, s.catalog.tables[id][path].answerer.with)
    {
      assert Good(s.store, id, s.catalog.tables[id][path].answerer.with, 2);
    }
  }

  // ---- and a session nothing disturbs is opened ----

  ghost predicate Leads(states: seq<State>, steps: seq<Step>, s: State, t: State) {
    && |states| == |steps| + 1 && states[0] == s && states[|steps|] == t
    && forall i :: 0 <= i < |steps| ==> Next(states[i], states[i + 1], steps[i])
  }

  lemma LeadsOn(states: seq<State>, steps: seq<Step>, s: State, t: State, u: State, step: Step)
    requires Leads(states, steps, s, t) && CallStep(t, u, step)
    ensures Leads(states + [u], steps + [step], s, u)
  {
    hide WriterStep, CallStep, ServerStep;
    assert Next(t, u, step);
    hide Next;
  }

  /** What a call has come to, the rest of the state aside. */
  function AtProgress(s: State, p: nat, progress: Progress): State
    requires p in s.calls
  {
    s.(calls := s.calls[p := s.calls[p].(progress := progress)])
  }

  lemma Begins(s: State, p: nat, id: Id, whose: Whose)
    requires p !in s.calls
    ensures CallStep(s, s.(calls := s.calls[p := Call(id, whose, Option.None, Asking)]), BeginCall(p, id, whose))
  {}

  lemma FindsOpen(s: State, p: nat)
    requires CallAt(s, p, Asking) && (s.calls[p].id, s.calls[p].whose) in s.sessions.open
    ensures CallStep(s, AtProgress(s, p, Holding(s.sessions.open[(s.calls[p].id, s.calls[p].whose)])), AskForSession(p))
  {}

  lemma FindsNone(s: State, p: nat)
    requires CallAt(s, p, Asking) && (s.calls[p].id, s.calls[p].whose) !in s.sessions.open
    ensures CallStep(s, AtProgress(s, p, Reading(Count(s.sessions.closes, s.calls[p].id))), AskForSession(p))
  {}

  lemma ReadsRow(s: State, p: nat, closes: nat)
    requires CallAt(s, p, Reading(closes)) && s.calls[p].id in s.store.rows
    ensures CallStep(s, AtProgress(s, p, ReadRow(closes, s.store.rows[s.calls[p].id])), FindRow(p))
  {}

  lemma ReadsSecret(s: State, p: nat, serial: nat, closes: nat, config: Config)
    requires CallAt(s, p, ReadRow(closes, config)) && CredentialsFor(config, s.store.secrets, s.calls[p].id).Some?
    ensures var session := Session(serial, CredentialsFor(config, s.store.secrets, s.calls[p].id).value);
      CallStep(s, AtProgress(s, p, Ready(closes, session)), FindSecret(p, serial))
  {}

  lemma Lands(s: State, p: nat, closes: nat, session: Session)
    requires CallAt(s, p, Ready(closes, session))
    requires closes == Count(s.sessions.closes, s.calls[p].id)
    requires (s.calls[p].id, s.calls[p].whose) !in s.sessions.open
    ensures var sessions := AfterLanding(s.sessions, s.calls[p].id, s.calls[p].whose, closes, session);
      && CallStep(s, AtProgress(s, p, Holding(session)).(sessions := sessions), LandSession(p))
      && (s.calls[p].id, s.calls[p].whose) in sessions.open
      && sessions.open[(s.calls[p].id, s.calls[p].whose)] == session
  {}

  /** A session not open is opened: the row is read, the secret is read, and nothing overtakes it. */
  lemma UndisturbedLands(s: State, p: nat, serial: nat) returns (states: seq<State>, steps: seq<Step>, t: State)
    requires CallAt(s, p, Asking) && (s.calls[p].id, s.calls[p].whose) !in s.sessions.open
    requires s.calls[p].id in s.store.rows
    requires CredentialsFor(s.store.rows[s.calls[p].id], s.store.secrets, s.calls[p].id).Some?
    ensures Leads(states, steps, s, t) && t.store == s.store && t.catalog == s.catalog
    ensures p in t.calls && t.calls[p].id == s.calls[p].id && t.calls[p].generation == s.calls[p].generation
    ensures var id, whose := s.calls[p].id, s.calls[p].whose;
      && (id, whose) in t.sessions.open && CallAt(t, p, Holding(t.sessions.open[(id, whose)]))
      && t.sessions.open[(id, whose)].with == CredentialsFor(s.store.rows[id], s.store.secrets, id).value
  {
    hide Leads, CallStep, CredentialsFor, AfterLanding;
    var c := s.calls[p];
    var closes, config := Count(s.sessions.closes, c.id), s.store.rows[c.id];
    var session := Session(serial, CredentialsFor(config, s.store.secrets, c.id).value);
    NoSteps(s);
    FindsNone(s, p);
    var asked := AtProgress(s, p, Reading(closes));
    LeadsOn([s], [], s, s, asked, AskForSession(p));
    states, steps := [s] + [asked], [] + [AskForSession(p)];
    ReadsRow(asked, p, closes);
    var read := AtProgress(asked, p, ReadRow(closes, config));
    LeadsOn(states, steps, s, asked, read, FindRow(p));
    states, steps := states + [read], steps + [FindRow(p)];
    ReadsSecret(read, p, serial, closes, config);
    var ready := AtProgress(read, p, Ready(closes, session));
    LeadsOn(states, steps, s, read, ready, FindSecret(p, serial));
    states, steps := states + [ready], steps + [FindSecret(p, serial)];
    Lands(ready, p, closes, session);
    t := AtProgress(ready, p, Holding(session)).(sessions := AfterLanding(s.sessions, c.id, c.whose, closes, session));
    LeadsOn(states, steps, s, ready, t, LandSession(p));
    states, steps := states + [t], steps + [LandSession(p)];
  }

  lemma NoSteps(s: State)
    ensures Leads([s], [], s, s)
  {}

  /**
   * From any state, a call for a session of a connection with a row, and with a
   * password where the row asks for one, gets one if nothing disturbs it: the
   * one that is open, or else one of what is stored.
   */
  lemma UndisturbedOpens(s: State, p: nat, id: Id, whose: Whose, serial: nat)
    returns (begun: State, states: seq<State>, steps: seq<Step>, t: State)
    requires p !in s.calls && id in s.store.rows
    requires CredentialsFor(s.store.rows[id], s.store.secrets, id).Some?
    ensures Next(s, begun, BeginCall(p, id, whose)) && Leads(states, steps, begun, t) && t.store == s.store
    ensures (id, whose) in t.sessions.open && CallAt(t, p, Holding(t.sessions.open[(id, whose)]))
    ensures if (id, whose) in s.sessions.open
            then t.sessions.open[(id, whose)] == s.sessions.open[(id, whose)]
            else t.sessions.open[(id, whose)].with == CredentialsFor(s.store.rows[id], s.store.secrets, id).value
  {
    hide Leads, WriterStep, CallStep, ServerStep, CredentialsFor;
    begun := s.(calls := s.calls[p := Call(id, whose, Option.None, Asking)]);
    Begins(s, p, id, whose);
    if (id, whose) in s.sessions.open {
      t := AtProgress(begun, p, Holding(s.sessions.open[(id, whose)]));
      NoSteps(begun);
      FindsOpen(begun, p);
      LeadsOn([begun], [], begun, begun, t, AskForSession(p));
      states, steps := [begun] + [t], [] + [AskForSession(p)];
    } else {
      states, steps, t := UndisturbedLands(begun, p, serial);
    }
  }

  // ---- and so is a server started, and a table learned ----

  lemma LeadsOnServing(states: seq<State>, steps: seq<Step>, s: State, t: State, u: State, step: Step)
    requires Leads(states, steps, s, t) && ServerStep(t, u, step)
    ensures Leads(states + [u], steps + [step], s, u)
  {
    hide WriterStep, CallStep, ServerStep;
    assert Next(t, u, step);
    hide Next;
  }

  /** What a start has come to, the rest of the state aside. */
  function AtStart(s: State, p: nat, id: Id, progress: Starting): State {
    s.(starts := s.starts[p := Start(id, progress)])
  }

  lemma StartReadsRow(s: State, p: nat, id: Id, stops: nat)
    requires p in s.starts && s.starts[p] == Start(id, Counted(stops)) && id in s.store.rows
    ensures ServerStep(s, AtStart(s, p, id, StartReadRow(stops, s.store.rows[id])), FindStartRow(p))
  {}

  lemma StartReadsSecret(s: State, p: nat, id: Id, stops: nat, config: Config, serial: nat)
    requires p in s.starts && s.starts[p] == Start(id, StartReadRow(stops, config))
    requires CredentialsFor(config, s.store.secrets, id).Some?
    ensures var server := Server(id, serial, CredentialsFor(config, s.store.secrets, id).value);
      ServerStep(s, AtStart(s, p, id, Started(stops, server)), FindStartSecret(p, serial))
  {}

  lemma StartInserts(s: State, p: nat, server: Server, stops: nat) returns (t: State)
    requires p in s.starts && s.starts[p] == Start(server.connection, Started(stops, server))
    requires stops == Count(s.servers.stops, server.connection) && server.connection !in s.servers.running
    ensures ServerStep(s, t, InsertServer(p)) && t.store == s.store && t.starts == s.starts - {p}
    ensures t.servers.running == s.servers.running[server.connection := server]
  {
    t := s.(servers := AfterInserting(s.servers, server, stops), starts := s.starts - {p});
  }

  /**
   * From any state, a start of a server for a connection with a row and what
   * the row asks for, and without a server, registers one of what is stored if
   * nothing disturbs it.
   */
  lemma UndisturbedServes(s: State, p: nat, id: Id, serial: nat)
    returns (states: seq<State>, steps: seq<Step>, t: State)
    requires p !in s.starts && id in s.store.rows && id !in s.servers.running
    requires CredentialsFor(s.store.rows[id], s.store.secrets, id).Some?
    ensures Leads(states, steps, s, t) && t.store == s.store && t.starts == s.starts
    ensures t.servers.running
            == s.servers.running[id := Server(id, serial, CredentialsFor(s.store.rows[id], s.store.secrets, id).value)]
  {
    hide Leads, CredentialsFor, AfterInserting;
    var stops, config := Count(s.servers.stops, id), s.store.rows[id];
    var server := Server(id, serial, CredentialsFor(config, s.store.secrets, id).value);
    var begun := AtStart(s.(servers := AfterAsking(s.servers, id)), p, id, Counted(stops));
    assert ServerStep(s, begun, BeginStart(p, id));
    hide ServerStep;
    NoSteps(s);
    LeadsOnServing([s], [], s, s, begun, BeginStart(p, id));
    states, steps := [s] + [begun], [] + [BeginStart(p, id)];
    StartReadsRow(begun, p, id, stops);
    var read := AtStart(begun, p, id, StartReadRow(stops, config));
    LeadsOnServing(states, steps, s, begun, read, FindStartRow(p));
    states, steps := states + [read], steps + [FindStartRow(p)];
    StartReadsSecret(read, p, id, stops, config, serial);
    var started := AtStart(read, p, id, Started(stops, server));
    LeadsOnServing(states, steps, s, read, started, FindStartSecret(p, serial));
    states, steps := states + [started], steps + [FindStartSecret(p, serial)];
    t := StartInserts(started, p, server, stops);
    LeadsOnServing(states, steps, s, started, t, InsertServer(p));
    states, steps := states + [t], steps + [InsertServer(p)];
    assert t.starts == s.starts;
  }

  lemma LearnsNow(s: State, p: nat, session: Session, path: TablePath, columns: Option<seq<string>>) returns (t: State)
    requires CallAt(s, p, Holding(session))
    requires s.calls[p].generation == Option.Some(Count(s.catalog.forgotten, s.calls[p].id))
    ensures CallStep(s, t, LearnTable(p, path, columns)) && t.store == s.store
    ensures Told(t.catalog, s.calls[p].id, path) == Option.Some(Known(columns, session))
  {
    var c := s.calls[p];
    t := s.(catalog := AfterLearning(s.catalog, c.id, c.generation.value, path, Known(columns, session)));
    LearnedIsTold(s.catalog, c.id, c.generation.value, path, Known(columns, session));
  }

  /** What a completion learns with a session of what is stored is remembered if nothing disturbs it. */
  lemma UndisturbedLearns(s: State, p: nat, id: Id, serial: nat, path: TablePath, columns: Option<seq<string>>)
    returns (begun: State, states: seq<State>, steps: seq<Step>, t: State)
    requires p !in s.calls && id in s.store.rows && (id, Reader) !in s.sessions.open
    requires CredentialsFor(s.store.rows[id], s.store.secrets, id).Some?
    ensures Next(s, begun, BeginCompletion(p, id)) && Leads(states, steps, begun, t) && t.store == s.store
    ensures var told := Told(t.catalog, id, path);
      && told.Some? && told.value.columns == columns
      && told.value.answerer.with == CredentialsFor(s.store.rows[id], s.store.secrets, id).value
  {
    hide Leads, CredentialsFor, Told, AfterLanding;
    begun := s.(calls := s.calls[p := Call(id, Reader, Option.Some(Count(s.catalog.forgotten, id)), Asking)]);
    assert CallStep(s, begun, BeginCompletion(p, id));
    hide CallStep;
    var held;
    states, steps, held := UndisturbedLands(begun, p, serial);
    var session := held.sessions.open[(id, Reader)];
    t := LearnsNow(held, p, session, path, columns);
    LeadsOn(states, steps, begun, held, t, LearnTable(p, path, columns));
    states, steps := states + [t], steps + [LearnTable(p, path, columns)];
  }
}
