/** What the schema tree's rows show, and that no two have one id. */
module TreeRowsProofs {
  import opened Basics
  import opened ShardGroups
  import opened TreeRows

  // ---- which tables are shown ----

  type Place = (string, string)

  function TableOf(row: Row): seq<Place> {
    if row.shown.TableRow? then [(row.shown.schema, row.shown.name)] else []
  }

  /** The tables rows are for, by schema and name. */
  function TablesIn(rows: seq<Row>): seq<Place> {
    if rows == [] then [] else TableOf(rows[0]) + TablesIn(rows[1..])
  }

  lemma {:induction false} TablesInConcat(a: seq<Row>, b: seq<Row>)
    ensures TablesIn(a + b) == TablesIn(a) + TablesIn(b)
  {
    if a == [] {
      assert a + b == b;
    } else {
      assert (a + b)[1..] == a[1..] + b;
      TablesInConcat(a[1..], b);
      Associates(TableOf(a[0]), TablesIn(a[1..]), TablesIn(b));
    }
  }

  lemma {:induction false} NoTablesIn(rows: seq<Row>)
    requires forall row <- rows :: !row.shown.TableRow?
    ensures TablesIn(rows) == []
  {
    if rows != [] {
      assert forall row <- rows[1..] :: row in rows;
      NoTablesIn(rows[1..]);
    }
  }

  function PlacesOf(schema: string, tables: seq<Table>): (places: seq<Place>)
    ensures |places| == |tables|
  {
    seq(|tables|, i requires 0 <= i < |tables| => (schema, tables[i].name))
  }

  lemma TableRowsShow(schema: string, table: Table, indent: nat, v: View)
    ensures TablesIn(RowsOfTable(schema, table, indent, v)) == [(schema, table.name)]
  {
    var rows := RowsOfTable(schema, table, indent, v);
    NoTablesIn(rows[1..]);
    assert TableOf(rows[0]) + [] == [(schema, table.name)];
  }

  lemma {:induction false} TablesRowsShow(schema: string, tables: seq<Table>, indent: nat, v: View)
    ensures TablesIn(RowsOfTables(schema, tables, indent, v)) == PlacesOf(schema, tables)
  {
    hide RowsOfTable, TablesIn;
    if tables == [] {
      assert TablesIn([]) == [] by { NoTablesIn([]); }
    } else {
      TableRowsShow(schema, tables[0], indent, v);
      TablesRowsShow(schema, tables[1..], indent, v);
      TablesInConcat(RowsOfTable(schema, tables[0], indent, v), RowsOfTables(schema, tables[1..], indent, v));
      assert PlacesOf(schema, tables) == [(schema, tables[0].name)] + PlacesOf(schema, tables[1..]);
    }
  }

  lemma GroupRowsShow(schema: string, group: Group, v: View)
    requires Filters(v)
    ensures TablesIn(RowsOfGroup(schema, group, v)) == PlacesOf(schema, Tables(group))
  {
    hide RowsOfTable, RowsOfTables;
    match group
    case One(table) =>
      TableRowsShow(schema, table, 1, v);
    case Set(prefix, shards) =>
      TablesRowsShow(schema, shards, 2, v);
      var rows := RowsOfGroup(schema, group, v);
      assert rows[1..] == RowsOfTables(schema, shards, 2, v);
      assert TableOf(rows[0]) + PlacesOf(schema, shards) == PlacesOf(schema, shards);
  }

  /** The tables of some groups, from the first. */
  function Flat(groups: seq<Group>): seq<Table> {
    if groups == [] then [] else Tables(groups[0]) + Flat(groups[1..])
  }

  lemma {:induction false} FlatIsAll(groups: seq<Group>)
    ensures Flat(groups) == AllTables(groups)
  {
    if groups != [] {
      var n := |groups| - 1;
      FlatIsAll(groups[1..]);
      FlatIsAll(groups[..n]);
      if n == 0 {
        assert groups[..0] == [] && groups[1..] == [];
        assert Flat(groups) == Tables(groups[0]) == AllTables(groups);
      } else {
        FlatJoins(groups[..n], groups[n]);
        assert groups[..n] + [groups[n]] == groups;
      }
    }
  }

  lemma {:induction false} FlatJoins(groups: seq<Group>, last: Group)
    ensures Flat(groups + [last]) == Flat(groups) + Tables(last)
  {
    if groups == [] {
      assert [last][1..] == [];
    } else {
      assert (groups + [last])[1..] == groups[1..] + [last];
      FlatJoins(groups[1..], last);
    }
  }

  lemma {:induction false} GroupsRowsShow(schema: string, groups: seq<Group>, v: View)
    requires Filters(v)
    ensures TablesIn(RowsOfGroups(schema, groups, v)) == PlacesOf(schema, Flat(groups))
  {
    hide RowsOfGroup, Tables, TablesIn;
    if groups == [] {
      assert TablesIn([]) == [] by { NoTablesIn([]); }
    } else {
      GroupRowsShow(schema, groups[0], v);
      GroupsRowsShow(schema, groups[1..], v);
      TablesInConcat(RowsOfGroup(schema, groups[0], v), RowsOfGroups(schema, groups[1..], v));
      assert PlacesOf(schema, Flat(groups))
          == PlacesOf(schema, Tables(groups[0])) + PlacesOf(schema, Flat(groups[1..]));
    }
  }

  lemma {:induction false} FolderRowsShowNone(schema: string, folders: seq<Folder>, v: View)
    requires forall f <- folders :: forall row <- f.rows :: !row.shown.TableRow?
    ensures TablesIn(RowsOfFolders(schema, folders, v)) == []
  {
    if folders == [] {
    } else {
      var mine := RowsOfFolder(schema, folders[0], v);
      forall row | row in mine
        ensures !row.shown.TableRow?
      {
        assert folders[0] in folders;
        assert row == mine[0] || row in folders[0].rows;
      }
      NoTablesIn(mine);
      assert forall f <- folders[1..] :: f in folders;
      FolderRowsShowNone(schema, folders[1..], v);
      TablesInConcat(mine, RowsOfFolders(schema, folders[1..], v));
    }
  }

  lemma {:induction false} TypesShowNoTables(schema: string, types: seq<UserType>, v: View)
    ensures forall row <- RowsOfTypes(schema, types, v) :: !row.shown.TableRow?
  {
    if types != [] {
      TypesShowNoTables(schema, types[1..], v);
    }
  }

  lemma FoldersShowNoTables(schema: Schema, v: View)
    ensures forall f <- Held(Folders(schema, v)) :: forall row <- f.rows :: !row.shown.TableRow?
  {
    hide RoutinesShown, NamesShown, TypesShown, RowsOfTypes;
    TypesShowNoTables(schema.name, TypesShown(schema.types, v), v);
    var folders := Folders(schema, v);
    HeldAreFolders(folders);
    forall f | f in folders
      ensures forall row <- f.rows :: !row.shown.TableRow?
    {}
  }

  lemma {:induction false} HeldAreFolders(folders: seq<Folder>)
    ensures forall f <- Held(folders) :: f in folders && f.count > 0
  {
    if folders != [] {
      HeldAreFolders(folders[1..]);
    }
  }

  // ---- narrowing ----

  lemma {:induction false} MatchingConcat(a: seq<Table>, b: seq<Table>, v: View)
    ensures Matching(a + b, v) == Matching(a, v) + Matching(b, v)
  {
    hide Named;
    if b == [] {
      assert a + b == a;
    } else {
      var n := |b| - 1;
      assert (a + b)[..|a| + n] == a + b[..n];
      MatchingConcat(a, b[..n], v);
    }
  }

  lemma {:induction false} NarrowedHoldTheMatching(groups: seq<Group>, v: View)
    ensures AllTables(NarrowedAll(groups, v)) == Matching(AllTables(groups), v)
  {
    hide Named, Matching;
    if groups == [] {
      MatchingNone(v);
    } else {
      var n := |groups| - 1;
      NarrowedHoldTheMatching(groups[..n], v);
      MatchingConcat(AllTables(groups[..n]), Tables(groups[n]), v);
      NarrowedHolds(NarrowedAll(groups[..n], v), groups[n], v);
    }
  }

  lemma MatchingNone(v: View)
    ensures Matching([], v) == []
  {}

  lemma MatchingOne(table: Table, v: View)
    ensures Matching([table], v) == if Named(v, table.name) then [table] else []
  {
    assert [table][..0] == [];
  }

  lemma NarrowedHolds(before: seq<Group>, group: Group, v: View)
    ensures AllTables(before + Narrowed(group, v)) == AllTables(before) + Matching(Tables(group), v)
  {
    hide Named, Matching;
    if group.One? {
      MatchingOne(group.table, v);
    }
    if Narrowed(group, v) == [] {
      assert before + [] == before;
    } else {
      OneMoreAfter(before, Narrowed(group, v)[0]);
    }
  }

  /** A table matches as often as it is there. */
  lemma {:induction false} MatchingCounts(tables: seq<Table>, v: View, t: Table)
    ensures multiset(Matching(tables, v))[t] == if Named(v, t.name) then multiset(tables)[t] else 0
  {
    hide Named;
    if tables != [] {
      var n := |tables| - 1;
      assert tables == tables[..n] + [tables[n]];
      MatchingCounts(tables[..n], v, t);
    }
  }

  lemma MatchingPermutes(a: seq<Table>, b: seq<Table>, v: View)
    requires multiset(a) == multiset(b)
    ensures multiset(Matching(a, v)) == multiset(Matching(b, v))
  {
    hide Named, Matching;
    forall t
      ensures multiset(Matching(a, v))[t] == multiset(Matching(b, v))[t]
    {
      MatchingCounts(a, v, t);
      MatchingCounts(b, v, t);
    }
  }

  lemma {:induction false} PlacesPermute(schema: string, a: seq<Table>, b: seq<Table>)
    requires multiset(a) == multiset(b)
    ensures multiset(PlacesOf(schema, a)) == multiset(PlacesOf(schema, b))
  {
    hide PlacesOf;
    if a == [] {
      assert |b| == |multiset(b)| == 0;
      assert b == a;
    } else {
      var k := FindIn(b, a[0], a);
      SameWithout(a, b, k);
      PlacesPermute(schema, a[1..], b[..k] + b[k + 1..]);
      PlacesTakenOut(schema, a, 0);
      PlacesTakenOut(schema, b, k);
      assert a[..0] + a[1..] == a[1..];
    }
  }

  lemma FindIn<T>(b: seq<T>, t: T, a: seq<T>) returns (k: nat)
    requires multiset(a) == multiset(b) && t in a
    ensures k < |b| && b[k] == t
  {
    assert t in multiset(b);
    k :| 0 <= k < |b| && b[k] == t;
  }

  lemma SameWithout<T>(a: seq<T>, b: seq<T>, k: nat)
    requires multiset(a) == multiset(b) && a != [] && k < |b| && b[k] == a[0]
    ensures multiset(a[1..]) == multiset(b[..k] + b[k + 1..])
  {
    TakenOut(b, k);
    TakenOut(a, 0);
    assert a[..0] + a[1..] == a[1..];
  }

  lemma TakenOut<T>(b: seq<T>, k: nat)
    requires k < |b|
    ensures multiset(b[..k] + b[k + 1..]) == multiset(b) - multiset{b[k]}
  {
    assert b == b[..k] + ([b[k]] + b[k + 1..]);
  }

  lemma PlacesTakenOut(schema: string, b: seq<Table>, k: nat)
    requires k < |b|
    ensures multiset(PlacesOf(schema, b))
            == multiset(PlacesOf(schema, b[..k] + b[k + 1..])) + multiset{(schema, b[k].name)}
  {
    var all := PlacesOf(schema, b);
    TakenOut(all, k);
    assert all[..k] + all[k + 1..] == PlacesOf(schema, b[..k] + b[k + 1..]);
    assert all[k] in multiset(all);
  }

  /** The tables that match, schema by schema. */
  function MatchingPlaces(schemas: seq<Schema>, v: View): seq<Place> {
    if schemas == [] then []
    else PlacesOf(schemas[0].name, Matching(schemas[0].tables, v)) + MatchingPlaces(schemas[1..], v)
  }

  lemma ShownAreTheMatching(schema: Schema, v: View)
    ensures multiset(AllTables(GroupsShown(schema, v))) == multiset(Matching(schema.tables, v))
  {
    hide GroupsOf, Matching, NarrowedAll, AllTables;
    FoldingKeepsTheTables(schema.tables);
    NarrowedHoldTheMatching(GroupsOf(schema.tables), v);
    MatchingPermutes(AllTables(GroupsOf(schema.tables)), schema.tables, v);
  }

  lemma SchemaRowsShow(schema: Schema, v: View)
    requires Filters(v)
    ensures multiset(TablesIn(RowsOfSchema(schema, v))) == multiset(PlacesOf(schema.name, Matching(schema.tables, v)))
  {
    hide GroupsShown, Matching, AllTables, Folders, Held, RowsOfFolders, RowsOfGroups, CountHeld, TablesIn;
    var groups, held := GroupsShown(schema, v), Held(Folders(schema, v));
    var folders, tables := RowsOfFolders(schema.name, held, v), RowsOfGroups(schema.name, groups, v);
    ShownAreTheMatching(schema, v);
    FlatIsAll(groups);
    PlacesPermute(schema.name, Flat(groups), Matching(schema.tables, v));
    if groups == [] && held == [] {
      NoTablesIn([]);
      assert Flat(groups) == [];
      assert PlacesOf(schema.name, Flat(groups)) == [];
      assert RowsOfSchema(schema, v) == [];
    } else {
      var row := RowsOfSchema(schema, v)[0];
      FoldersShowNoTables(schema, v);
      FolderRowsShowNone(schema.name, held, v);
      GroupsRowsShow(schema.name, groups, v);
      NoTablesIn([row]);
      TablesInConcat(folders, tables);
      TablesInConcat([row], folders + tables);
      assert RowsOfSchema(schema, v) == [row] + (folders + tables);
      assert [] + ([] + TablesIn(tables)) == TablesIn(tables);
    }
  }

  /** With a filter, the tables shown are exactly those that match, each as often as it is there. */
  lemma {:induction false} FilterIsExact(schemas: seq<Schema>, v: View)
    requires Filters(v)
    ensures multiset(TablesIn(RowsOfSchemas(schemas, v))) == multiset(MatchingPlaces(schemas, v))
  {
    hide RowsOfSchema, Matching;
    if schemas == [] {
    } else {
      SchemaRowsShow(schemas[0], v);
      FilterIsExact(schemas[1..], v);
      TablesInConcat(RowsOfSchema(schemas[0], v), RowsOfSchemas(schemas[1..], v));
    }
  }
}
