/** The schema tree's rows come in order: what stands under one row, as the catalogue lists it. */
module TreeOrder {
  import opened Basics
  import opened ShardGroups
  import opened TreeRows
  import TreeRowsProofs
  import opened TreeShown

  /** The ids of the rows so far in, in order. */
  function Siblings(rows: seq<Row>, indent: nat): seq<Id> {
    if rows == [] then []
    else (if rows[0].indent == indent then [rows[0].id] else []) + Siblings(rows[1..], indent)
  }

  lemma {:induction false} SiblingsJoin(a: seq<Row>, b: seq<Row>, indent: nat)
    ensures Siblings(a + b, indent) == Siblings(a, indent) + Siblings(b, indent)
  {
    if a == [] {
      assert a + b == b;
    } else {
      assert (a + b)[1..] == a[1..] + b;
      SiblingsJoin(a[1..], b, indent);
      Associates(if a[0].indent == indent then [a[0].id] else [], Siblings(a[1..], indent), Siblings(b, indent));
    }
  }

  lemma SiblingsOfOne(row: Row, indent: nat)
    ensures Siblings([row], indent) == if row.indent == indent then [row.id] else []
  {
    assert [row][1..] == [];
  }

  lemma {:induction false} NoSiblings(rows: seq<Row>, indent: nat)
    requires forall row <- rows :: row.indent != indent
    ensures Siblings(rows, indent) == []
  {
    if rows != [] {
      assert rows[0] in rows && forall row <- rows[1..] :: row in rows;
      NoSiblings(rows[1..], indent);
    }
  }

  /** Ids for names, in the names' order. */
  function NamedIds(under: seq<string>, names: seq<string>): seq<Id> {
    if names == [] then [] else [Parts(under + [names[0]])] + NamedIds(under, names[1..])
  }

  lemma {:induction false} SiblingsOfNames(rows: seq<Row>, under: seq<string>, names: seq<string>, indent: nat)
    requires |rows| == |names|
    requires forall i :: 0 <= i < |rows| ==> rows[i].indent == indent && rows[i].id == Parts(under + [names[i]])
    ensures Siblings(rows, indent) == NamedIds(under, names)
  {
    if rows != [] {
      SiblingsOfNames(rows[1..], under, names[1..], indent);
    }
  }

  // ---- under a table ----

  /** Under an open table: its columns in order and then the folder of its indexes, or else one note. */
  lemma ColumnsAreInOrder(schema: string, table: string, indent: nat, v: View)
    requires v.columnsOf(schema, table).Read? && v.columnsOf(schema, table).names != []
    ensures var names, indexes := v.columnsOf(schema, table).names, v.indexesOf(schema, table);
      Siblings(UnderTable(schema, table, indent, v), indent)
      == NamedIds(["column", schema, table], names)
         + (if indexes.Failed? || (indexes.Read? && indexes.names != []) then [Parts(["indexes", schema, table])] else [])
  {
    hide Siblings, NamedIds;
    var names := v.columnsOf(schema, table).names;
    var columns, under := ColumnRows(schema, table, names, indent), IndexRows(schema, table, indent, v);
    SiblingsOfNames(columns, ["column", schema, table], names, indent);
    SiblingsJoin(columns, under, indent);
    if under == [] {
      NoSiblings(under, indent);
    } else {
      SiblingsOfOne(under[0], indent);
      NoSiblings(under[1..], indent);
      SiblingsJoin([under[0]], under[1..], indent);
      assert under == [under[0]] + under[1..];
      assert [under[0].id] + [] == [under[0].id];
    }
  }

  lemma IndexesAreInOrder(schema: string, table: string, indent: nat, v: View)
    requires v.indexesOf(schema, table).Read? && Parts(["indexes", schema, table]) in v.expanded
    ensures Siblings(IndexRows(schema, table, indent, v), indent + 1)
            == NamedIds(["index", schema, table], v.indexesOf(schema, table).names)
  {
    hide Siblings, NamedIds;
    var names := v.indexesOf(schema, table).names;
    if names == [] {
      NoSiblings([], indent + 1);
      assert NamedIds(["index", schema, table], []) == [] by { NoNames(["index", schema, table]); }
    } else {
      var rows := IndexRows(schema, table, indent, v);
      var under := IndexNameRows(schema, table, names, indent + 1);
      assert rows == [rows[0]] + under;
      SiblingsOfNames(under, ["index", schema, table], names, indent + 1);
      SiblingsOfOne(rows[0], indent + 1);
      SiblingsJoin([rows[0]], under, indent + 1);
      assert [] + Siblings(under, indent + 1) == Siblings(under, indent + 1);
    }
  }

  lemma NoNames(under: seq<string>)
    ensures NamedIds(under, []) == []
  {}

  ghost predicate Deeper(rows: seq<Row>, indent: nat) {
    forall row <- rows :: row.indent > indent
  }

  lemma IndexRowsAreDeep(schema: string, table: string, indent: nat, v: View)
    ensures forall row <- IndexRows(schema, table, indent, v) :: row.indent >= indent
  {}

  lemma UnderTableIsDeep(schema: string, table: string, indent: nat, v: View)
    ensures forall row <- UnderTable(schema, table, indent, v) :: row.indent >= indent
  {
    hide IndexRows;
    IndexRowsAreDeep(schema, table, indent, v);
  }

  lemma TableIsOneRow(schema: string, table: Table, indent: nat, v: View)
    ensures var rows := RowsOfTable(schema, table, indent, v);
      rows != [] && rows[0].indent == indent && rows[0].id == Parts(["table", schema, table.name])
      && Deeper(rows[1..], indent)
  {
    hide UnderTable;
    UnderTableIsDeep(schema, table.name, indent + 1, v);
  }

  lemma HeadAlone(rows: seq<Row>, indent: nat)
    requires rows != [] && rows[0].indent == indent && Deeper(rows[1..], indent)
    ensures Siblings(rows, indent) == [rows[0].id]
  {
    NoSiblings(rows[1..], indent);
  }

  // ---- a set's shards, and the groups ----

  function TableIds(schema: string, tables: seq<Table>): seq<Id> {
    if tables == [] then [] else [Parts(["table", schema, tables[0].name])] + TableIds(schema, tables[1..])
  }

  /** Shards one after another, in the set's order. */
  lemma {:induction false} ShardsAreInOrder(schema: string, tables: seq<Table>, indent: nat, v: View)
    ensures Siblings(RowsOfTables(schema, tables, indent, v), indent) == TableIds(schema, tables)
  {
    hide RowsOfTable, Siblings;
    if tables == [] {
      NoSiblings([], indent);
    } else {
      TableIsOneRow(schema, tables[0], indent, v);
      HeadAlone(RowsOfTable(schema, tables[0], indent, v), indent);
      ShardsAreInOrder(schema, tables[1..], indent, v);
      SiblingsJoin(RowsOfTable(schema, tables[0], indent, v), RowsOfTables(schema, tables[1..], indent, v), indent);
    }
  }

  lemma {:induction false} TablesAreDeep(schema: string, tables: seq<Table>, indent: nat, v: View)
    requires indent > 0
    ensures Deeper(RowsOfTables(schema, tables, indent, v), indent - 1)
  {
    hide RowsOfTable;
    if tables != [] {
      TableIsOneRow(schema, tables[0], indent, v);
      TablesAreDeep(schema, tables[1..], indent, v);
    }
  }

  function GroupId(schema: string, group: Group): Id {
    match group
    case One(table) => Parts(["table", schema, table.name])
    case Set(prefix, _) => Parts(["shards", schema, prefix])
  }

  function GroupIds(schema: string, groups: seq<Group>): seq<Id> {
    if groups == [] then [] else [GroupId(schema, groups[0])] + GroupIds(schema, groups[1..])
  }

  lemma GroupIsOneRow(schema: string, group: Group, v: View)
    ensures Siblings(RowsOfGroup(schema, group, v), 1) == [GroupId(schema, group)]
  {
    hide RowsOfTable, RowsOfTables, Siblings;
    match group
    case One(table) =>
      TableIsOneRow(schema, table, 1, v);
      HeadAlone(RowsOfTable(schema, table, 1, v), 1);
    case Set(prefix, shards) =>
      var rows := RowsOfGroup(schema, group, v);
      TablesAreDeep(schema, shards, 2, v);
      assert Deeper(rows[1..], 1) by {
        assert rows[1..] == RowsOfTables(schema, shards, 2, v) || rows[1..] == [];
      }
      HeadAlone(rows, 1);
  }

  lemma {:induction false} GroupsAreInOrder(schema: string, groups: seq<Group>, v: View)
    ensures Siblings(RowsOfGroups(schema, groups, v), 1) == GroupIds(schema, groups)
  {
    hide RowsOfGroup, Siblings;
    if groups == [] {
      NoSiblings([], 1);
    } else {
      GroupIsOneRow(schema, groups[0], v);
      GroupsAreInOrder(schema, groups[1..], v);
      SiblingsJoin(RowsOfGroup(schema, groups[0], v), RowsOfGroups(schema, groups[1..], v), 1);
    }
  }

  /** A table of the group matches. */
  ghost predicate GroupMatches(group: Group, v: View) {
    exists table <- Tables(group) :: Matches(v, table.name)
  }

  /** Of some groups, those with a match, in order. */
  ghost function MatchingGroupIds(schema: string, groups: seq<Group>, v: View): seq<Id> {
    if groups == [] then []
    else
      MatchingGroupIds(schema, groups[..|groups| - 1], v)
      + if GroupMatches(groups[|groups| - 1], v) then [GroupId(schema, groups[|groups| - 1])] else []
  }

  lemma {:induction false} GroupIdsJoin(schema: string, a: seq<Group>, b: seq<Group>)
    ensures GroupIds(schema, a + b) == GroupIds(schema, a) + GroupIds(schema, b)
  {
    hide GroupId;
    if a == [] {
      assert a + b == b;
    } else {
      assert (a + b)[1..] == a[1..] + b;
      GroupIdsJoin(schema, a[1..], b);
      Associates([GroupId(schema, a[0])], GroupIds(schema, a[1..]), GroupIds(schema, b));
    }
  }

  lemma {:induction false} SomeMatch(tables: seq<Table>, v: View)
    ensures TreeRows.Matching(tables, v) != [] <==> exists table <- tables :: Matches(v, table.name)
  {
    hide Named, Matches;
    if tables != [] {
      var n := |tables| - 1;
      SomeMatch(tables[..n], v);
      NamedMatches(v, tables[n].name);
      assert tables == tables[..n] + [tables[n]];
    }
  }

  lemma NarrowedIds(schema: string, group: Group, v: View)
    ensures GroupIds(schema, Narrowed(group, v)) == if GroupMatches(group, v) then [GroupId(schema, group)] else []
  {
    hide Named, Matches, TreeRows.Matching;
    var narrowed := Narrowed(group, v);
    match group
    case One(table) =>
      NamedMatches(v, table.name);
      assert forall t <- Tables(group) :: t == table;
      assert table in Tables(group);
      assert narrowed != [] ==> narrowed[1..] == [];
    case Set(prefix, shards) =>
      SomeMatch(shards, v);
      assert narrowed != [] ==> narrowed[1..] == [];
  }

  lemma {:induction false} NarrowedKeepTheOrder(schema: string, groups: seq<Group>, v: View)
    ensures GroupIds(schema, NarrowedAll(groups, v)) == MatchingGroupIds(schema, groups, v)
  {
    hide Narrowed, GroupMatches, GroupId, GroupIds;
    if groups == [] {
      assert GroupIds(schema, []) == [] by { NoGroupIds(schema); }
    } else {
      var n := |groups| - 1;
      NarrowedKeepTheOrder(schema, groups[..n], v);
      GroupIdsJoin(schema, NarrowedAll(groups[..n], v), Narrowed(groups[n], v));
      NarrowedIds(schema, groups[n], v);
    }
  }

  lemma NoGroupIds(schema: string)
    ensures GroupIds(schema, []) == []
  {}

  // ---- the folders ----

  function FolderIds(schema: string, folders: seq<Folder>): seq<Id> {
    if folders == [] then [] else [Parts(["folder", schema, folders[0].key])] + FolderIds(schema, folders[1..])
  }

  lemma {:induction false} FoldersAreInOrder(schema: string, folders: seq<Folder>, v: View)
    requires forall f <- folders :: Deeper(f.rows, 1)
    ensures Siblings(RowsOfFolders(schema, folders, v), 1) == FolderIds(schema, folders)
  {
    hide Siblings;
    if folders == [] {
      NoSiblings([], 1);
    } else {
      var rows := RowsOfFolder(schema, folders[0], v);
      assert folders[0] in folders && forall f <- folders[1..] :: f in folders;
      assert rows[1..] == folders[0].rows || rows[1..] == [];
      HeadAlone(rows, 1);
      FoldersAreInOrder(schema, folders[1..], v);
      SiblingsJoin(rows, RowsOfFolders(schema, folders[1..], v), 1);
    }
  }

  lemma {:induction false} TypesAreDeep(schema: string, types: seq<UserType>, v: View)
    ensures Deeper(RowsOfTypes(schema, types, v), 1)
  {
    if types != [] {
      TypesAreDeep(schema, types[1..], v);
    }
  }

  lemma FoldersAreDeep(schema: Schema, v: View)
    ensures forall f <- Held(Folders(schema, v)) :: Deeper(f.rows, 1)
  {
    hide RoutinesShown, NamesShown, TypesShown, RowsOfTypes;
    TypesAreDeep(schema.name, TypesShown(schema.types, v), v);
    TreeRowsProofs.HeldAreFolders(Folders(schema, v));
    forall f | f in Folders(schema, v)
      ensures Deeper(f.rows, 1)
    {}
  }

  /** The folders that hold something, in their order. */
  ghost function HeldIds(schema: Schema, v: View): seq<Id> {
    (if RoutineIds(schema.name, schema.routines, v) == multiset{} then []
     else [Parts(["folder", schema.name, "routines"])])
    + (if SequenceIds(schema.name, schema.sequences, v) == multiset{} then []
       else [Parts(["folder", schema.name, "sequences"])])
    + (if TypeIds(schema.name, schema.types, v) == multiset{} then []
       else [Parts(["folder", schema.name, "types"])])
  }

  lemma HeldOfThree(schema: string, a: Folder, b: Folder, c: Folder)
    ensures FolderIds(schema, Held([a, b, c]))
            == (if a.count == 0 then [] else [Parts(["folder", schema, a.key])])
               + (if b.count == 0 then [] else [Parts(["folder", schema, b.key])])
               + (if c.count == 0 then [] else [Parts(["folder", schema, c.key])])
  {
    assert [a, b, c][1..] == [b, c] && [b, c][1..] == [c] && [c][1..] == [];
    HeldFirst(schema, a, [b, c]);
    HeldFirst(schema, b, [c]);
    HeldFirst(schema, c, []);
  }

  lemma HeldFirst(schema: string, a: Folder, rest: seq<Folder>)
    ensures FolderIds(schema, Held([a] + rest))
            == (if a.count == 0 then [] else [Parts(["folder", schema, a.key])]) + FolderIds(schema, Held(rest))
  {
    var all := [a] + rest;
    assert all[1..] == rest;
    if a.count > 0 {
      assert Held(all)[1..] == Held(rest);
    } else {
      assert Held(all) == Held(rest);
    }
  }

  lemma HeldAreInOrder(schema: Schema, v: View)
    ensures FolderIds(schema.name, Held(Folders(schema, v))) == HeldIds(schema, v)
  {
    hide RoutineIds, SequenceIds, TypeIds, MemberIds, RoutinesShown, NamesShown, TypesShown, Ids, RoutineRows,
         SequenceRows, RowsOfTypes, Held, FolderIds;
    var folders := Folders(schema, v);
    RoutinesAreShown(schema.name, schema.routines, v, ANote);
    SequencesAreShown(schema.name, schema.sequences, v, ANote);
    TypesAreShown(schema.name, schema.types, v, ANote);
    HeldOfThree(schema.name, folders[0], folders[1], folders[2]);
    assert folders == [folders[0], folders[1], folders[2]];
  }

  /**
   * Under an open schema come its folders that hold something, routines,
   * sequences and types, and then its tables and sets with a match, in the order
   * of their groups.
   */
  lemma SchemaIsInOrder(schema: Schema, v: View)
    ensures Siblings(RowsOfSchema(schema, v), 1)
            == if IsOpen(v, ["schema", schema.name])
               then HeldIds(schema, v) + MatchingGroupIds(schema.name, GroupsOf(schema.tables), v) else []
  {
    hide Siblings, RowsOfFolders, RowsOfGroups, Folders, Held, CountHeld, CountTables, GroupsOf, NarrowedAll, HeldIds,
         MatchingGroupIds, GroupIds, FolderIds;
    var groups, held := GroupsShown(schema, v), Held(Folders(schema, v));
    var folders, tables := RowsOfFolders(schema.name, held, v), RowsOfGroups(schema.name, groups, v);
    var rows := RowsOfSchema(schema, v);
    var open := IsOpen(v, ["schema", schema.name]);
    FoldersAreDeep(schema, v);
    FoldersAreInOrder(schema.name, held, v);
    HeldAreInOrder(schema, v);
    GroupsAreInOrder(schema.name, groups, v);
    NarrowedKeepTheOrder(schema.name, GroupsOf(schema.tables), v);
    SiblingsJoin(folders, tables, 1);
    NoSiblings([], 1);
    if Filters(v) && groups == [] && held == [] {
      NothingToShow(schema.name, v);
      assert folders + tables == [];
    } else {
      var under := if open then folders + tables else [];
      assert rows == [rows[0]] + under;
      SiblingsOfOne(rows[0], 1);
      SiblingsJoin([rows[0]], under, 1);
      assert [] + Siblings(under, 1) == Siblings(under, 1);
    }
  }
}
