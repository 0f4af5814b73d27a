/**
 * The schema tree laid out as flat rows (`tableRows`, `indexRows`, `folders`
 * and `treeRows` of `src/features/schema-tree/rows.ts`): what a row shows
 * besides its name and count is left out.
 */
module TreeRows {
  import opened Basics
  import opened Chars
  import opened ShardGroups

  /** A row's id: its parts, which JSON keeps apart, or a table's with what is noted under it. */
  datatype Id = Parts(parts: seq<string>) | Noted(table: seq<string>, what: string)

  datatype Shown =
    | SchemaRow(name: string, items: nat, expanded: bool)
    | FolderRow(title: string, count: nat, expanded: bool)
    | ShardsRow(schema: string, prefix: string, shards: nat, expanded: bool)
    | TableRow(schema: string, name: string, expanded: bool)
    | ColumnRow(name: string)
    | RoutineRow(schema: string, name: string, arguments: string)
    | SequenceRow(name: string)
    | TypeRow(name: string, unfolded: Option<bool>)
    | IndexRow(name: string)
    | MemberRow(name: string)
    | NoteRow(text: string)

  datatype Row = Row(id: Id, indent: nat, shown: Shown)

  datatype Routine = Routine(name: string, arguments: string)

  datatype UserType = UserType(name: string, members: seq<string>)

  datatype Schema = Schema(name: string, tables: seq<Table>, routines: seq<Routine>, sequences: seq<string>,
                           types: seq<UserType>)

  /** Columns or indexes, by name, which are read on demand. */
  datatype Known = Reading | Failed(message: string) | Read(names: seq<string>)

  /** What the reader has opened and filters by, trimmed and in lower case, and what is known of tables. */
  datatype View = View(expanded: set<Id>, needle: string, lower: string -> string,
                       columnsOf: (string, string) -> Known, indexesOf: (string, string) -> Known)

  predicate Includes(text: string, part: string) {
    exists i :: 0 <= i <= |text| && StartsWith(text, part, i)
  }

  predicate Named(v: View, name: string) {
    v.needle == "" || Includes(v.lower(name), v.needle)
  }

  predicate Filters(v: View) {
    v.needle != ""
  }

  // ---- a table's rows ----

  function TableId(schema: string, table: string): Id {
    Parts(["table", schema, table])
  }

  function ColumnRows(schema: string, table: string, names: seq<string>, indent: nat): (rows: seq<Row>)
    ensures |rows| == |names|
  {
    seq(|names|, i requires 0 <= i < |names| =>
      Row(Parts(["column", schema, table, names[i]]), indent, ColumnRow(names[i])))
  }

  function IndexNameRows(schema: string, table: string, names: seq<string>, indent: nat): (rows: seq<Row>)
    ensures |rows| == |names|
  {
    seq(|names|, i requires 0 <= i < |names| =>
      Row(Parts(["index", schema, table, names[i]]), indent, IndexRow(names[i])))
  }

  function IndexRows(schema: string, table: string, indent: nat, v: View): seq<Row> {
    var id := Parts(["indexes", schema, table]);
    match v.indexesOf(schema, table)
    case Reading => []
    case Failed(message) => [Row(id, indent, NoteRow("Indexes: " + message))]
    case Read(names) =>
      if names == [] then []
      else
        [Row(id, indent, FolderRow("Indexes", |names|, id in v.expanded))]
        + if id in v.expanded then IndexNameRows(schema, table, names, indent + 1) else []
  }

  /** What is under an open table. */
  function UnderTable(schema: string, table: string, indent: nat, v: View): seq<Row> {
    var parts := ["table", schema, table];
    match v.columnsOf(schema, table)
    case Reading => [Row(Noted(parts, "reading"), indent, NoteRow("Reading the columns\U{2026}"))]
    case Failed(message) => [Row(Noted(parts, "failed"), indent, NoteRow(message))]
    case Read(names) =>
      if names == [] then [Row(Noted(parts, "none"), indent, NoteRow("No columns."))]
      else ColumnRows(schema, table, names, indent) + IndexRows(schema, table, indent, v)
  }

  function RowsOfTable(schema: string, table: Table, indent: nat, v: View): seq<Row> {
    var id := TableId(schema, table.name);
    [Row(id, indent, TableRow(schema, table.name, id in v.expanded))]
    + if id in v.expanded then UnderTable(schema, table.name, indent + 1, v) else []
  }

  function RowsOfTables(schema: string, tables: seq<Table>, indent: nat, v: View): seq<Row> {
    if tables == [] then []
    else RowsOfTable(schema, tables[0], indent, v) + RowsOfTables(schema, tables[1..], indent, v)
  }

  // ---- a group's ----

  function ShardsId(schema: string, prefix: string): Id {
    Parts(["shards", schema, prefix])
  }

  function RowsOfGroup(schema: string, group: Group, v: View): seq<Row> {
    match group
    case One(table) => RowsOfTable(schema, table, 1, v)
    case Set(prefix, shards) =>
      var open := Filters(v) || ShardsId(schema, prefix) in v.expanded;
      [Row(ShardsId(schema, prefix), 1, ShardsRow(schema, prefix, |shards|, open))]
      + if open then RowsOfTables(schema, shards, 2, v) else []
  }

  function RowsOfGroups(schema: string, groups: seq<Group>, v: View): seq<Row> {
    if groups == [] then []
    else RowsOfGroup(schema, groups[0], v) + RowsOfGroups(schema, groups[1..], v)
  }

  function Matching(tables: seq<Table>, v: View): seq<Table> {
    if tables == [] then []
    else Matching(tables[..|tables| - 1], v)
         + if Named(v, tables[|tables| - 1].name) then [tables[|tables| - 1]] else []
  }

  /** A group with the tables that match alone; a set stays one even of a single table, and one of none goes. */
  function Narrowed(group: Group, v: View): seq<Group> {
    match group
    case One(table) => if Named(v, table.name) then [group] else []
    case Set(prefix, shards) =>
      if Matching(shards, v) == [] then [] else [Set(prefix, Matching(shards, v))]
  }

  function NarrowedAll(groups: seq<Group>, v: View): seq<Group> {
    if groups == [] then []
    else NarrowedAll(groups[..|groups| - 1], v) + Narrowed(groups[|groups| - 1], v)
  }

  function GroupsShown(schema: Schema, v: View): seq<Group> {
    NarrowedAll(GroupsOf(schema.tables), v)
  }

  function CountTables(groups: seq<Group>): nat {
    if groups == [] then 0
    else (if groups[0].One? then 1 else |groups[0].shards|) + CountTables(groups[1..])
  }

  // ---- the folders ----

  datatype Folder = Folder(key: string, title: string, count: nat, rows: seq<Row>)

  function RoutinesShown(routines: seq<Routine>, v: View): seq<Routine> {
    if routines == [] then []
    else (if Named(v, routines[0].name) then [routines[0]] else []) + RoutinesShown(routines[1..], v)
  }

  function RoutineRows(schema: string, routines: seq<Routine>): (rows: seq<Row>)
    ensures |rows| == |routines|
  {
    seq(|routines|, i requires 0 <= i < |routines| =>
      Row(Parts(["routine", schema, routines[i].name, routines[i].arguments]), 2,
          RoutineRow(schema, routines[i].name, routines[i].arguments)))
  }

  function NamesShown(names: seq<string>, v: View): seq<string> {
    if names == [] then [] else (if Named(v, names[0]) then [names[0]] else []) + NamesShown(names[1..], v)
  }

  function SequenceRows(schema: string, names: seq<string>): (rows: seq<Row>)
    ensures |rows| == |names|
  {
    seq(|names|, i requires 0 <= i < |names| => Row(Parts(["sequence", schema, names[i]]), 2, SequenceRow(names[i])))
  }

  function TypesShown(types: seq<UserType>, v: View): seq<UserType> {
    if types == [] then [] else (if Named(v, types[0].name) then [types[0]] else []) + TypesShown(types[1..], v)
  }

  function MemberRows(schema: string, owner: string, names: seq<string>): (rows: seq<Row>)
    ensures |rows| == |names|
  {
    seq(|names|, i requires 0 <= i < |names| => Row(Parts(["member", schema, owner, names[i]]), 3, MemberRow(names[i])))
  }

  function RowsOfType(schema: string, t: UserType, v: View): seq<Row> {
    var id := Parts(["type", schema, t.name]);
    var expandable := t.members != [];
    var open := expandable && id in v.expanded;
    [Row(id, 2, TypeRow(t.name, if expandable then Some(open) else None))]
    + if open then MemberRows(schema, t.name, t.members) else []
  }

  function RowsOfTypes(schema: string, types: seq<UserType>, v: View): seq<Row> {
    if types == [] then [] else RowsOfType(schema, types[0], v) + RowsOfTypes(schema, types[1..], v)
  }

  function Folders(schema: Schema, v: View): seq<Folder> {
    var routines := RoutinesShown(schema.routines, v);
    var sequences := NamesShown(schema.sequences, v);
    var types := TypesShown(schema.types, v);
    [Folder("routines", "Routines", |routines|, RoutineRows(schema.name, routines)),
     Folder("sequences", "Sequences", |sequences|, SequenceRows(schema.name, sequences)),
     Folder("types", "Types", |types|, RowsOfTypes(schema.name, types, v))]
  }

  function Held(folders: seq<Folder>): seq<Folder> {
    if folders == [] then [] else (if folders[0].count > 0 then [folders[0]] else []) + Held(folders[1..])
  }

  function CountHeld(folders: seq<Folder>, from: nat): nat {
    if folders == [] then from else CountHeld(folders[1..], from + folders[0].count)
  }

  function RowsOfFolder(schema: string, folder: Folder, v: View): seq<Row> {
    var id := Parts(["folder", schema, folder.key]);
    var open := Filters(v) || id in v.expanded;
    [Row(id, 1, FolderRow(folder.title, folder.count, open))] + if open then folder.rows else []
  }

  function RowsOfFolders(schema: string, folders: seq<Folder>, v: View): seq<Row> {
    if folders == [] then [] else RowsOfFolder(schema, folders[0], v) + RowsOfFolders(schema, folders[1..], v)
  }

  // ---- the tree's ----

  function SchemaId(schema: string): Id {
    Parts(["schema", schema])
  }

  function RowsOfSchema(schema: Schema, v: View): seq<Row> {
    var groups := GroupsShown(schema, v);
    var held := Held(Folders(schema, v));
    if Filters(v) && groups == [] && held == [] then []
    else
      var open := Filters(v) || SchemaId(schema.name) in v.expanded;
      [Row(SchemaId(schema.name), 0, SchemaRow(schema.name, CountHeld(held, CountTables(groups)), open))]
      + if open then RowsOfFolders(schema.name, held, v) + RowsOfGroups(schema.name, groups, v) else []
  }

  function RowsOfSchemas(schemas: seq<Schema>, v: View): seq<Row> {
    if schemas == [] then [] else RowsOfSchema(schemas[0], v) + RowsOfSchemas(schemas[1..], v)
  }

  method PushFolders(rows: seq<Row>, schema: string, held: seq<Folder>, v: View) returns (more: seq<Row>)
    ensures more == rows + RowsOfFolders(schema, held, v)
  {
    more := rows;
    ghost var left := RowsOfFolders(schema, held, v);
    for i := 0 to |held|
      invariant left == RowsOfFolders(schema, held[i..], v)
      invariant more + left == rows + RowsOfFolders(schema, held, v)
    {
      var folder := held[i];
      var id := Parts(["folder", schema, folder.key]);
      var open := Filters(v) || id in v.expanded;
      var row := Row(id, 1, FolderRow(folder.title, folder.count, open));
      assert held[i..][1..] == held[i + 1..];
      left := RowsOfFolders(schema, held[i + 1..], v);
      Associates(more, RowsOfFolder(schema, folder, v), left);
      Associates(more, [row], folder.rows);
      more := more + [row];
      if open {
        more := more + folder.rows;
      }
    }
  }

  method PushGroups(rows: seq<Row>, schema: string, groups: seq<Group>, v: View) returns (more: seq<Row>)
    ensures more == rows + RowsOfGroups(schema, groups, v)
  {
    more := rows;
    ghost var left := RowsOfGroups(schema, groups, v);
    for i := 0 to |groups|
      invariant left == RowsOfGroups(schema, groups[i..], v)
      invariant more + left == rows + RowsOfGroups(schema, groups, v)
    {
      assert groups[i..][1..] == groups[i + 1..];
      left := RowsOfGroups(schema, groups[i + 1..], v);
      Associates(more, RowsOfGroup(schema, groups[i], v), left);
      more := PushGroup(more, schema, groups[i], v);
    }
  }

  method PushGroup(rows: seq<Row>, schema: string, group: Group, v: View) returns (more: seq<Row>)
    ensures more == rows + RowsOfGroup(schema, group, v)
  {
    hide RowsOfTable;
    if group.One? {
      return rows + RowsOfTable(schema, group.table, 1, v);
    }
    var id := ShardsId(schema, group.prefix);
    var open := Filters(v) || id in v.expanded;
    var row := Row(id, 1, ShardsRow(schema, group.prefix, |group.shards|, open));
    more := rows + [row];
    if open {
      ghost var left := RowsOfTables(schema, group.shards, 2, v);
      Associates(rows, [row], left);
      for i := 0 to |group.shards|
        invariant left == RowsOfTables(schema, group.shards[i..], 2, v)
        invariant more + left == rows + RowsOfGroup(schema, group, v)
      {
        assert group.shards[i..][1..] == group.shards[i + 1..];
        left := RowsOfTables(schema, group.shards[i + 1..], 2, v);
        Associates(more, RowsOfTable(schema, group.shards[i], 2, v), left);
        more := more + RowsOfTable(schema, group.shards[i], 2, v);
      }
    }
  }

  method PushSchema(rows: seq<Row>, schema: Schema, v: View) returns (more: seq<Row>)
    ensures more == rows + RowsOfSchema(schema, v)
  {
    hide RowsOfFolders, RowsOfGroups, Folders, GroupsShown, Held, CountHeld, CountTables;
    var groups := GroupsShown(schema, v);
    var held := Held(Folders(schema, v));
    if Filters(v) && groups == [] && held == [] {
      return rows;
    }
    var open := Filters(v) || SchemaId(schema.name) in v.expanded;
    var items := CountHeld(held, CountTables(groups));
    var row := Row(SchemaId(schema.name), 0, SchemaRow(schema.name, items, open));
    more := rows + [row];
    if open {
      ghost var folders, tables := RowsOfFolders(schema.name, held, v), RowsOfGroups(schema.name, groups, v);
      Associates(rows, [row], folders + tables);
      Associates(more, folders, tables);
      more := PushFolders(more, schema.name, held, v);
      more := PushGroups(more, schema.name, groups, v);
    }
  }

  /** The tree's rows. */
  method LayOutRows(schemas: seq<Schema>, v: View) returns (rows: seq<Row>)
    ensures rows == RowsOfSchemas(schemas, v)
  {
    hide RowsOfSchema;
    rows := [];
    ghost var left := RowsOfSchemas(schemas, v);
    for i := 0 to |schemas|
      invariant left == RowsOfSchemas(schemas[i..], v)
      invariant rows + left == RowsOfSchemas(schemas, v)
    {
      assert schemas[i..][1..] == schemas[i + 1..];
      left := RowsOfSchemas(schemas[i + 1..], v);
      Associates(rows, RowsOfSchema(schemas[i], v), left);
      rows := PushSchema(rows, schemas[i], v);
    }
  }
}
