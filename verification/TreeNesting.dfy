/** Each row of the schema tree stands under the row of what it belongs to, which is open. */
module TreeNesting {
  import opened Basics
  import Shards
  import opened ShardGroups
  import opened TreeRows
  import TreeRowsProofs
  import TreeShown

  /** `row` is for a part of what `owner` is for, one step in, and `owner` says it is open. */
  ghost predicate Belongs(owner: Row, row: Row) {
    row.indent == owner.indent + 1 && Holds(owner.id, owner.shown, row.id, row.shown)
  }

  ghost predicate Holds(owner: Id, says: Shown, id: Id, shown: Shown) {
    match says
    case SchemaRow(schema, _, open) =>
      open &&
      (match shown
       case TableRow(s, name, _) => s == schema && id == Parts(["table", schema, name])
       case ShardsRow(s, prefix, _, _) => s == schema && id == Parts(["shards", schema, prefix])
       case FolderRow(title, _, _) =>
         (title == "Routines" && id == Parts(["folder", schema, "routines"]))
         || (title == "Sequences" && id == Parts(["folder", schema, "sequences"]))
         || (title == "Types" && id == Parts(["folder", schema, "types"]))
       case _ => false)
    case ShardsRow(schema, prefix, _, open) =>
      open && shown.TableRow? && shown.schema == schema && id == Parts(["table", schema, shown.name])
      && Shards.ShardPrefix(shown.name) == Some(prefix)
    case TableRow(schema, table, open) =>
      open &&
      (match shown
       case ColumnRow(name) => id == Parts(["column", schema, table, name])
       case FolderRow(title, _, _) => title == "Indexes" && id == Parts(["indexes", schema, table])
       case NoteRow(_) => id == Parts(["indexes", schema, table]) || (id.Noted? && id.table == ["table", schema, table])
       case _ => false)
    case FolderRow(title, _, open) =>
      open && owner.Parts? && |owner.parts| == 3 &&
      (match shown
       case IndexRow(name) => title == "Indexes" && id == Parts(["index", owner.parts[1], owner.parts[2], name])
       case RoutineRow(schema, name, arguments) =>
         title == "Routines" && schema == owner.parts[1] && id == Parts(["routine", schema, name, arguments])
       case SequenceRow(name) => title == "Sequences" && id == Parts(["sequence", owner.parts[1], name])
       case TypeRow(name, _) => title == "Types" && id == Parts(["type", owner.parts[1], name])
       case _ => false)
    case TypeRow(name, unfolded) =>
      unfolded == Some(true) && owner.Parts? && |owner.parts| == 3
      && shown.MemberRow? && id == Parts(["member", owner.parts[1], name, shown.name])
    case _ => false
  }

  /** From `j` up to `i`, nothing stands less far in than row `i`. */
  ghost predicate NothingBetween(rows: seq<Row>, j: int, i: nat)
    requires -1 <= j < i < |rows|
  {
    forall m :: j < m < i ==> rows[m].indent >= rows[i].indent
  }

  ghost predicate UnderRow(rows: seq<Row>, j: nat, i: nat)
    requires j < i < |rows|
  {
    Belongs(rows[j], rows[i]) && NothingBetween(rows, j, i)
  }

  /** Row `i` stands under one of those before it: the nearest less far in is of what it belongs to. */
  ghost predicate StandsUnder(rows: seq<Row>, i: nat)
    requires i < |rows|
  {
    exists j :: 0 <= j < i && UnderRow(rows, j, i)
  }

  ghost predicate Stands(owner: Row, rows: seq<Row>, i: nat)
    requires i < |rows|
  {
    && rows[i].indent > owner.indent
    && ((Belongs(owner, rows[i]) && NothingBetween(rows, -1, i)) || StandsUnder(rows, i))
  }

  /** Rows that stand under `owner`, or under one another. */
  ghost predicate Nest(owner: Row, rows: seq<Row>) {
    forall i :: 0 <= i < |rows| ==> Stands(owner, rows, i)
  }

  ghost predicate StandsInTree(rows: seq<Row>, i: nat)
    requires i < |rows|
  {
    if rows[i].shown.SchemaRow? then rows[i].indent == 0 && rows[i].id == Parts(["schema", rows[i].shown.name])
    else StandsUnder(rows, i)
  }

  // ---- putting nests together ----

  lemma StandsStill(rows: seq<Row>, more: seq<Row>, shift: nat, i: nat)
    requires i < |rows| && shift + |rows| <= |more| && more[shift..shift + |rows|] == rows && StandsUnder(rows, i)
    ensures StandsUnder(more, shift + i)
  {
    hide Belongs;
    var j :| 0 <= j < i && UnderRow(rows, j, i);
    assert more[shift + j] == rows[j] && more[shift + i] == rows[i];
    forall m | shift + j < m < shift + i
      ensures more[m].indent >= more[shift + i].indent
    {
      assert more[m] == rows[m - shift];
    }
    assert UnderRow(more, shift + j, shift + i);
  }

  lemma StandsOnAfter(owner: Row, before: seq<Row>, rows: seq<Row>, i: nat)
    requires i < |rows| && Stands(owner, rows, i) && Nest(owner, before)
    ensures Stands(owner, before + rows, |before| + i)
  {
    hide Belongs;
    var all := before + rows;
    assert all[|before| + i] == rows[i];
    if StandsUnder(rows, i) {
      StandsStill(rows, all, |before|, i);
    } else {
      forall m | 0 <= m < |before| + i
        ensures all[m].indent >= rows[i].indent
      {
        if m < |before| {
          assert Stands(owner, before, m) && rows[i].indent == owner.indent + 1 by { BelongsOneIn(owner, rows[i]); }
        } else {
          assert all[m] == rows[m - |before|];
        }
      }
    }
  }

  lemma BelongsOneIn(owner: Row, row: Row)
    requires Belongs(owner, row)
    ensures row.indent == owner.indent + 1
  {}

  lemma NestsJoin(owner: Row, a: seq<Row>, b: seq<Row>)
    requires Nest(owner, a) && Nest(owner, b)
    ensures Nest(owner, a + b)
  {
    hide Belongs, Stands;
    forall i | 0 <= i < |a + b|
      ensures Stands(owner, a + b, i)
    {
      if i < |a| {
        StandsBefore(owner, a, b, i);
      } else {
        StandsOnAfter(owner, a, b, i - |a|);
      }
    }
  }

  lemma StandsBefore(owner: Row, a: seq<Row>, b: seq<Row>, i: nat)
    requires i < |a| && Stands(owner, a, i)
    ensures Stands(owner, a + b, i)
  {
    hide Belongs;
    if StandsUnder(a, i) {
      StandsStill(a, a + b, 0, i);
    }
  }

  /** A row with what stands under it stands under its own owner. */
  lemma HeadNests(owner: Row, head: Row, under: seq<Row>)
    requires Belongs(owner, head) && Nest(head, under)
    ensures Nest(owner, [head] + under)
  {
    hide Holds;
    var all := [head] + under;
    forall i | 0 <= i < |all|
      ensures Stands(owner, all, i)
    {
      if i > 0 {
        StandsUnderHead(head, under, i - 1);
        assert all[i] == under[i - 1];
      }
    }
  }

  lemma StandsUnderHead(head: Row, under: seq<Row>, i: nat)
    requires i < |under| && Stands(head, under, i)
    ensures StandsUnder([head] + under, i + 1)
  {
    hide Belongs;
    var all := [head] + under;
    assert all[1..1 + |under|] == under;
    if StandsUnder(under, i) {
      StandsStill(under, all, 1, i);
    } else {
      forall m | 0 < m < i + 1
        ensures all[m].indent >= all[i + 1].indent
      {
        assert all[m] == under[m - 1];
      }
      assert UnderRow(all, 0, i + 1);
    }
  }

  /** Rows that all belong to one. */
  lemma AllBelong(owner: Row, rows: seq<Row>)
    requires forall i :: 0 <= i < |rows| ==> Belongs(owner, rows[i])
    ensures Nest(owner, rows)
  {
    hide Holds;
    forall i | 0 <= i < |rows|
      ensures Stands(owner, rows, i)
    {
      assert NothingBetween(rows, -1, i);
    }
  }

  // ---- what each function makes nests ----

  lemma IndexesNest(owner: Row, schema: string, table: string, v: View)
    requires owner.shown == TableRow(schema, table, true)
    ensures Nest(owner, IndexRows(schema, table, owner.indent + 1, v))
  {
    hide Nest;
    var rows := IndexRows(schema, table, owner.indent + 1, v);
    var state := v.indexesOf(schema, table);
    if state.Read? && state.names != [] && Parts(["indexes", schema, table]) in v.expanded {
      AllBelong(rows[0], rows[1..]);
      HeadNests(owner, rows[0], rows[1..]);
      assert rows == [rows[0]] + rows[1..];
    } else {
      AllBelong(owner, rows);
    }
  }

  lemma UnderTableNests(owner: Row, schema: string, table: string, v: View)
    requires owner.shown == TableRow(schema, table, true)
    ensures Nest(owner, UnderTable(schema, table, owner.indent + 1, v))
  {
    hide Nest, IndexRows;
    var state := v.columnsOf(schema, table);
    if state.Read? && state.names != [] {
      var columns := ColumnRows(schema, table, state.names, owner.indent + 1);
      AllBelong(owner, columns);
      IndexesNest(owner, schema, table, v);
      NestsJoin(owner, columns, IndexRows(schema, table, owner.indent + 1, v));
    } else {
      AllBelong(owner, UnderTable(schema, table, owner.indent + 1, v));
    }
  }

  lemma TableNests(owner: Row, schema: string, table: Table, v: View)
    requires Holds(owner.id, owner.shown, TableId(schema, table.name), TableRow(schema, table.name, true))
    ensures Nest(owner, RowsOfTable(schema, table, owner.indent + 1, v))
  {
    hide Nest, UnderTable;
    var rows := RowsOfTable(schema, table, owner.indent + 1, v);
    if TableId(schema, table.name) in v.expanded {
      UnderTableNests(rows[0], schema, table.name, v);
    } else {
      AllBelong(rows[0], []);
    }
    HeadNests(owner, rows[0], rows[1..]);
    assert rows == [rows[0]] + rows[1..];
  }

  lemma {:induction false} TablesNest(owner: Row, schema: string, tables: seq<Table>, v: View)
    requires forall t <- tables :: Holds(owner.id, owner.shown, TableId(schema, t.name), TableRow(schema, t.name, true))
    ensures Nest(owner, RowsOfTables(schema, tables, owner.indent + 1, v))
  {
    hide Nest, RowsOfTable, Holds;
    if tables == [] {
      AllBelong(owner, []);
    } else {
      assert forall t <- tables[1..] :: t in tables;
      TableNests(owner, schema, tables[0], v);
      TablesNest(owner, schema, tables[1..], v);
      NestsJoin(owner, RowsOfTable(schema, tables[0], owner.indent + 1, v),
                RowsOfTables(schema, tables[1..], owner.indent + 1, v));
    }
  }

  /** A set's shards carry its prefix. */
  ghost predicate CarryThePrefix(group: Group) {
    group.Set? ==> forall t <- group.shards :: PrefixOf(t) == Some(group.prefix)
  }

  lemma GroupNests(owner: Row, schema: string, group: Group, v: View)
    requires owner.indent == 0 && owner.shown.SchemaRow? && owner.shown.name == schema && owner.shown.expanded
    requires CarryThePrefix(group)
    ensures Nest(owner, RowsOfGroup(schema, group, v))
  {
    hide Nest, RowsOfTable, RowsOfTables;
    match group
    case One(table) =>
      TableNests(owner, schema, table, v);
    case Set(prefix, shards) =>
      var rows := RowsOfGroup(schema, group, v);
      if rows[0].shown.expanded {
        forall t | t in shards
          ensures Holds(rows[0].id, rows[0].shown, TableId(schema, t.name), TableRow(schema, t.name, true))
        {
          assert PrefixOf(t) == Some(prefix);
        }
        TablesNest(rows[0], schema, shards, v);
        assert rows[1..] == RowsOfTables(schema, shards, 2, v);
      } else {
        AllBelong(rows[0], []);
        assert rows[1..] == [];
      }
      HeadNests(owner, rows[0], rows[1..]);
      assert rows == [rows[0]] + rows[1..];
  }

  lemma {:induction false} GroupsNest(owner: Row, schema: string, groups: seq<Group>, v: View)
    requires owner.indent == 0 && owner.shown.SchemaRow? && owner.shown.name == schema && owner.shown.expanded
    requires forall g <- groups :: CarryThePrefix(g)
    ensures Nest(owner, RowsOfGroups(schema, groups, v))
  {
    hide Nest, RowsOfGroup, CarryThePrefix;
    if groups == [] {
      AllBelong(owner, []);
    } else {
      GroupNests(owner, schema, groups[0], v);
      GroupsNest(owner, schema, groups[1..], v);
      NestsJoin(owner, RowsOfGroup(schema, groups[0], v), RowsOfGroups(schema, groups[1..], v));
    }
  }

  lemma TypeNests(owner: Row, schema: string, t: UserType, v: View)
    requires owner.indent == 1 && owner.shown.FolderRow? && owner.shown.title == "Types" && owner.shown.expanded
    requires owner.id == Parts(["folder", schema, "types"])
    ensures Nest(owner, RowsOfType(schema, t, v))
  {
    hide Nest;
    var rows := RowsOfType(schema, t, v);
    AllBelong(rows[0], rows[1..]);
    HeadNests(owner, rows[0], rows[1..]);
    assert rows == [rows[0]] + rows[1..];
  }

  lemma {:induction false} TypesNest(owner: Row, schema: string, types: seq<UserType>, v: View)
    requires owner.indent == 1 && owner.shown.FolderRow? && owner.shown.title == "Types" && owner.shown.expanded
    requires owner.id == Parts(["folder", schema, "types"])
    ensures Nest(owner, RowsOfTypes(schema, types, v))
  {
    hide Nest, RowsOfType;
    if types == [] {
      AllBelong(owner, []);
    } else {
      TypeNests(owner, schema, types[0], v);
      TypesNest(owner, schema, types[1..], v);
      NestsJoin(owner, RowsOfType(schema, types[0], v), RowsOfTypes(schema, types[1..], v));
    }
  }

  ghost predicate IsFolderOf(schema: string, folder: Folder, v: View) {
    || (folder.key == "routines" && folder.title == "Routines"
        && exists routines :: folder.rows == RoutineRows(schema, routines))
    || (folder.key == "sequences" && folder.title == "Sequences"
        && exists names :: folder.rows == SequenceRows(schema, names))
    || (folder.key == "types" && folder.title == "Types"
        && exists types :: folder.rows == RowsOfTypes(schema, types, v))
  }

  lemma FolderNests(owner: Row, schema: string, folder: Folder, v: View)
    requires owner.indent == 0 && owner.shown.SchemaRow? && owner.shown.name == schema && owner.shown.expanded
    requires IsFolderOf(schema, folder, v)
    ensures Nest(owner, RowsOfFolder(schema, folder, v))
  {
    hide Nest, RowsOfTypes;
    var rows := RowsOfFolder(schema, folder, v);
    if !rows[0].shown.expanded {
      AllBelong(rows[0], []);
    } else if folder.key == "types" {
      var types :| folder.rows == RowsOfTypes(schema, types, v);
      TypesNest(rows[0], schema, types, v);
    } else {
      AllBelong(rows[0], folder.rows);
    }
    assert rows == [rows[0]] + rows[1..];
    assert rows[1..] == if rows[0].shown.expanded then folder.rows else [];
    HeadNests(owner, rows[0], rows[1..]);
  }

  lemma {:induction false} FoldersNest(owner: Row, schema: string, folders: seq<Folder>, v: View)
    requires owner.indent == 0 && owner.shown.SchemaRow? && owner.shown.name == schema && owner.shown.expanded
    requires forall f <- folders :: IsFolderOf(schema, f, v)
    ensures Nest(owner, RowsOfFolders(schema, folders, v))
  {
    hide Nest, RowsOfFolder, IsFolderOf;
    if folders == [] {
      AllBelong(owner, []);
    } else {
      FolderNests(owner, schema, folders[0], v);
      FoldersNest(owner, schema, folders[1..], v);
      NestsJoin(owner, RowsOfFolder(schema, folders[0], v), RowsOfFolders(schema, folders[1..], v));
    }
  }

  lemma HeldAreFolders(schema: Schema, v: View)
    ensures forall f <- Held(Folders(schema, v)) :: IsFolderOf(schema.name, f, v)
  {
    hide RoutineRows, SequenceRows, RowsOfTypes, RoutinesShown, NamesShown, TypesShown;
    TreeRowsProofs.HeldAreFolders(Folders(schema, v));
  }

  lemma {:induction false} NarrowedCarry(groups: seq<Group>, v: View)
    requires forall g <- groups :: CarryThePrefix(g)
    ensures forall g <- NarrowedAll(groups, v) :: CarryThePrefix(g)
  {
    hide PrefixOf, Matching, Named;
    if groups != [] {
      var n := |groups| - 1;
      NarrowedCarry(groups[..n], v);
      assert CarryThePrefix(groups[n]);
      if groups[n].Set? {
        TreeShown.MatchingAreTables(groups[n].shards, v);
      }
    }
  }

  lemma ShownCarry(schema: Schema, v: View)
    ensures forall g <- GroupsShown(schema, v) :: CarryThePrefix(g)
  {
    hide GroupsOf, NarrowedAll, PrefixOf, Descending, ShardsOf, Folds;
    FoldingKeepsTheTables(schema.tables);
    NarrowedCarry(GroupsOf(schema.tables), v);
  }

  lemma SchemaNests(schema: Schema, v: View)
    requires RowsOfSchema(schema, v) != []
    ensures var rows := RowsOfSchema(schema, v);
      && rows[0].shown.SchemaRow? && rows[0].indent == 0 && rows[0].id == Parts(["schema", rows[0].shown.name])
      && Nest(rows[0], rows[1..])
  {
    hide Nest, RowsOfFolders, RowsOfGroups, Folders, Held, GroupsShown, CountHeld, CountTables, IsFolderOf,
         CarryThePrefix;
    var groups, held := GroupsShown(schema, v), Held(Folders(schema, v));
    var rows := RowsOfSchema(schema, v);
    var owner := rows[0];
    if owner.shown.expanded {
      var folders, tables := RowsOfFolders(schema.name, held, v), RowsOfGroups(schema.name, groups, v);
      HeldAreFolders(schema, v);
      ShownCarry(schema, v);
      FoldersNest(owner, schema.name, held, v);
      GroupsNest(owner, schema.name, groups, v);
      NestsJoin(owner, folders, tables);
      assert rows[1..] == folders + tables;
    } else {
      AllBelong(owner, []);
      assert rows[1..] == [];
    }
  }

  lemma NoSchemaUnder(owner: Row, rows: seq<Row>, i: nat)
    requires i < |rows| && Stands(owner, rows, i)
    ensures !rows[i].shown.SchemaRow?
  {}

  ghost predicate AllStand(rows: seq<Row>) {
    forall i :: 0 <= i < |rows| ==> StandsInTree(rows, i)
  }

  lemma SchemaStands(schema: Schema, v: View)
    ensures AllStand(RowsOfSchema(schema, v))
  {
    hide RowsOfSchema, StandsUnder, Stands;
    var rows := RowsOfSchema(schema, v);
    forall i | 0 <= i < |rows|
      ensures StandsInTree(rows, i)
    {
      SchemaNests(schema, v);
      if i > 0 {
        assert [rows[0]] + rows[1..] == rows;
        assert Stands(rows[0], rows[1..], i - 1);
        NoSchemaUnder(rows[0], rows[1..], i - 1);
        StandsUnderHead(rows[0], rows[1..], i - 1);
      }
    }
  }

  lemma AllStandJoin(a: seq<Row>, b: seq<Row>)
    requires AllStand(a) && AllStand(b)
    ensures AllStand(a + b)
  {
    hide StandsUnder;
    forall i | 0 <= i < |a + b|
      ensures StandsInTree(a + b, i)
    {
      if i < |a| {
        assert StandsInTree(a, i);
        if !a[i].shown.SchemaRow? {
          StandsStill(a, a + b, 0, i);
        }
      } else {
        assert StandsInTree(b, i - |a|);
        if !b[i - |a|].shown.SchemaRow? {
          StandsStill(b, a + b, |a|, i - |a|);
        }
      }
    }
  }

  /** Each schema's row is outermost, and the nearest row less far in above any other is of what it belongs to. */
  lemma {:induction false} EachStandsUnderItsOwner(schemas: seq<Schema>, v: View)
    ensures AllStand(RowsOfSchemas(schemas, v))
  {
    hide RowsOfSchema, StandsInTree;
    if schemas != [] {
      SchemaStands(schemas[0], v);
      EachStandsUnderItsOwner(schemas[1..], v);
      AllStandJoin(RowsOfSchema(schemas[0], v), RowsOfSchemas(schemas[1..], v));
    }
  }
}
