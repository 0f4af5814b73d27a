/** No two rows of the schema tree have one id, where no two names in one place are one. */
module TreeIds {
  import opened Basics
  import opened ShardGroups
  import opened TreeRows
  import opened TreeRowsProofs

  ghost predicate Unique(rows: seq<Row>) {
    forall i, j :: 0 <= i < j < |rows| ==> rows[i].id != rows[j].id
  }

  ghost predicate Distinct<T>(names: seq<T>) {
    forall i, j :: 0 <= i < j < |names| ==> names[i] != names[j]
  }

  /** What an id is an id of a part of. */
  datatype Key =
    | OfSchema(schema: string)
    | OfFolder(schema: string, key: string)
    | OfRoutines(schema: string)
    | OfSequences(schema: string)
    | OfType(schema: string, name: string)
    | OfShards(schema: string, prefix: string)
    | OfTable(schema: string, table: string)
    | OfNothing

  function KeyOfParts(p: seq<string>): Key {
    if |p| < 2 then OfNothing
    else if p[0] == "schema" then OfSchema(p[1])
    else if p[0] == "routine" then OfRoutines(p[1])
    else if p[0] == "sequence" then OfSequences(p[1])
    else if |p| < 3 then OfNothing
    else if p[0] == "folder" then OfFolder(p[1], p[2])
    else if p[0] == "type" || p[0] == "member" then OfType(p[1], p[2])
    else if p[0] == "shards" then OfShards(p[1], p[2])
    else OfTable(p[1], p[2])
  }

  function KeyOf(id: Id): Key {
    if id.Parts? then KeyOfParts(id.parts) else KeyOfParts(id.table)
  }

  ghost predicate KeyedBy(rows: seq<Row>, keys: set<Key>) {
    forall row <- rows :: KeyOf(row.id) in keys
  }

  lemma UniqueJoins(a: seq<Row>, b: seq<Row>)
    requires Unique(a) && Unique(b) && forall x <- a, y <- b :: x.id != y.id
    ensures Unique(a + b)
  {}

  lemma KeyedJoin(a: seq<Row>, b: seq<Row>, x: set<Key>, y: set<Key>)
    requires Unique(a) && Unique(b) && KeyedBy(a, x) && KeyedBy(b, y) && x !! y
    ensures Unique(a + b) && KeyedBy(a + b, x + y)
  {
    hide KeyOf;
    forall r, t | r in a && t in b
      ensures r.id != t.id
    {
      assert KeyOf(r.id) in x && KeyOf(t.id) in y;
    }
    UniqueJoins(a, b);
  }

  // ---- a table ----

  ghost predicate KnownApart(v: View) {
    forall schema, table ::
      && (v.columnsOf(schema, table).Read? ==> Distinct(v.columnsOf(schema, table).names))
      && (v.indexesOf(schema, table).Read? ==> Distinct(v.indexesOf(schema, table).names))
  }

  lemma IndexRowsApart(schema: string, table: string, indent: nat, v: View)
    requires KnownApart(v)
    ensures Unique(IndexRows(schema, table, indent, v))
    ensures KeyedBy(IndexRows(schema, table, indent, v), {OfTable(schema, table)})
    ensures forall row <- IndexRows(schema, table, indent, v) ::
              row.id.Parts? && |row.id.parts| >= 1 && row.id.parts[0] in {"index", "indexes"}
  {
    var state := v.indexesOf(schema, table);
    if state.Read? && state.names != [] {
      var rows := IndexNameRows(schema, table, state.names, indent + 1);
      forall i, j | 0 <= i < j < |rows|
        ensures rows[i].id != rows[j].id
      {
        assert rows[i].id.parts[3] == state.names[i] && rows[j].id.parts[3] == state.names[j];
      }
    }
  }

  lemma UnderTableApart(schema: string, table: string, indent: nat, v: View)
    requires KnownApart(v)
    ensures Unique(UnderTable(schema, table, indent, v))
    ensures KeyedBy(UnderTable(schema, table, indent, v), {OfTable(schema, table)})
    ensures forall row <- UnderTable(schema, table, indent, v) :: row.id != TableId(schema, table)
  {
    hide IndexRows;
    var state := v.columnsOf(schema, table);
    if state.Read? && state.names != [] {
      var rows := ColumnRows(schema, table, state.names, indent);
      forall i, j | 0 <= i < j < |rows|
        ensures rows[i].id != rows[j].id
      {
        assert rows[i].id.parts[3] == state.names[i] && rows[j].id.parts[3] == state.names[j];
      }
      IndexRowsApart(schema, table, indent, v);
      forall x, y | x in rows && y in IndexRows(schema, table, indent, v)
        ensures x.id != y.id
      {
        assert x.id.parts[0] == "column";
      }
      UniqueJoins(rows, IndexRows(schema, table, indent, v));
    }
  }

  lemma TableApart(schema: string, table: Table, indent: nat, v: View)
    requires KnownApart(v)
    ensures Unique(RowsOfTable(schema, table, indent, v))
    ensures KeyedBy(RowsOfTable(schema, table, indent, v), {OfTable(schema, table.name)})
  {
    hide UnderTable;
    UnderTableApart(schema, table.name, indent + 1, v);
    var rows := RowsOfTable(schema, table, indent, v);
    UniqueJoins([rows[0]], rows[1..]);
    assert rows == [rows[0]] + rows[1..];
  }

  function TableKeys(schema: string, tables: seq<Table>): set<Key> {
    set t <- tables :: OfTable(schema, t.name)
  }

  lemma KeysAfterFirst(schema: string, tables: seq<Table>)
    requires tables != [] && Distinct(PlacesOf(schema, tables))
    ensures OfTable(schema, tables[0].name) !in TableKeys(schema, tables[1..])
    ensures TableKeys(schema, tables) == {OfTable(schema, tables[0].name)} + TableKeys(schema, tables[1..])
    ensures Distinct(PlacesOf(schema, tables[1..]))
  {
    var places := PlacesOf(schema, tables);
    assert PlacesOf(schema, tables[1..]) == places[1..];
    forall k | 0 <= k < |tables| - 1
      ensures tables[1..][k].name != tables[0].name
    {
      assert places[0] != places[k + 1];
    }
    assert tables == [tables[0]] + tables[1..];
  }

  lemma {:induction false} TablesApart(schema: string, tables: seq<Table>, indent: nat, v: View)
    requires KnownApart(v) && Distinct(PlacesOf(schema, tables))
    ensures Unique(RowsOfTables(schema, tables, indent, v))
    ensures KeyedBy(RowsOfTables(schema, tables, indent, v), TableKeys(schema, tables))
  {
    hide RowsOfTable, TableKeys, KeyOf, KnownApart, PlacesOf;
    if tables == [] {
    } else {
      TableApart(schema, tables[0], indent, v);
      KeysAfterFirst(schema, tables);
      TablesApart(schema, tables[1..], indent, v);
      KeyedJoin(RowsOfTable(schema, tables[0], indent, v), RowsOfTables(schema, tables[1..], indent, v),
                {OfTable(schema, tables[0].name)}, TableKeys(schema, tables[1..]));
    }
  }

  // ---- the groups ----

  function GroupKeys(schema: string, group: Group): set<Key> {
    TableKeys(schema, Tables(group)) + if group.Set? then {OfShards(schema, group.prefix)} else {}
  }

  lemma GroupApart(schema: string, group: Group, v: View)
    requires KnownApart(v) && Distinct(PlacesOf(schema, Tables(group)))
    ensures Unique(RowsOfGroup(schema, group, v))
    ensures KeyedBy(RowsOfGroup(schema, group, v), GroupKeys(schema, group))
  {
    hide RowsOfTable, KnownApart, PlacesOf;
    match group
    case One(table) =>
      TableApart(schema, table, 1, v);
      assert table in Tables(group);
    case Set(prefix, shards) =>
      hide RowsOfTables;
      TablesApart(schema, shards, 2, v);
      var rows := RowsOfGroup(schema, group, v);
      assert KeyedBy([rows[0]], {OfShards(schema, prefix)});
      KeyedJoin([rows[0]], rows[1..], {OfShards(schema, prefix)}, TableKeys(schema, shards));
      assert rows == [rows[0]] + rows[1..];
  }

  function GroupsKeys(schema: string, groups: seq<Group>): set<Key> {
    if groups == [] then {} else GroupKeys(schema, groups[0]) + GroupsKeys(schema, groups[1..])
  }

  lemma {:induction false} GroupsKeysAre(schema: string, groups: seq<Group>)
    ensures forall key <- GroupsKeys(schema, groups) ::
              key in TableKeys(schema, Flat(groups))
              || exists k :: 0 <= k < |groups| && groups[k].Set? && key == OfShards(schema, groups[k].prefix)
  {
    if groups != [] {
      GroupsKeysAre(schema, groups[1..]);
      forall key | key in GroupsKeys(schema, groups)
        ensures key in TableKeys(schema, Flat(groups))
                || exists k :: 0 <= k < |groups| && groups[k].Set? && key == OfShards(schema, groups[k].prefix)
      {
        if key in GroupsKeys(schema, groups[1..]) && key !in TableKeys(schema, Flat(groups)) {
          var k :| 0 <= k < |groups| - 1 && groups[1..][k].Set? && key == OfShards(schema, groups[1..][k].prefix);
          assert groups[k + 1] == groups[1..][k];
        }
      }
    }
  }

  lemma PlacesJoin(schema: string, a: seq<Table>, b: seq<Table>)
    requires Distinct(PlacesOf(schema, a + b))
    ensures Distinct(PlacesOf(schema, a)) && Distinct(PlacesOf(schema, b))
    ensures TableKeys(schema, a) !! TableKeys(schema, b)
  {
    var places := PlacesOf(schema, a + b);
    assert PlacesOf(schema, a) == places[..|a|] && PlacesOf(schema, b) == places[|a|..];
    forall i, j | 0 <= i < |a| && 0 <= j < |b|
      ensures a[i].name != b[j].name
    {
      assert places[i] != places[|a| + j];
    }
  }

  lemma GroupKeysApart(schema: string, groups: seq<Group>)
    requires groups != [] && DistinctSets(groups) && Distinct(PlacesOf(schema, Flat(groups)))
    ensures GroupKeys(schema, groups[0]) !! GroupsKeys(schema, groups[1..])
  {
    hide PlacesOf, Tables;
    PlacesJoin(schema, Tables(groups[0]), Flat(groups[1..]));
    GroupsKeysAre(schema, groups[1..]);
    forall key | key in GroupKeys(schema, groups[0])
      ensures key !in GroupsKeys(schema, groups[1..])
    {
      if key.OfShards? {
        forall k | 0 <= k < |groups| - 1 && groups[1..][k].Set?
          ensures key != OfShards(schema, groups[1..][k].prefix)
        {
          assert groups[k + 1] == groups[1..][k];
        }
      }
    }
  }

  lemma {:induction false} GroupsApart(schema: string, groups: seq<Group>, v: View)
    requires KnownApart(v) && DistinctSets(groups) && Distinct(PlacesOf(schema, Flat(groups)))
    ensures Unique(RowsOfGroups(schema, groups, v))
    ensures KeyedBy(RowsOfGroups(schema, groups, v), GroupsKeys(schema, groups))
  {
    hide RowsOfGroup, KeyOf, KnownApart, PlacesOf, GroupKeys, Tables;
    if groups == [] {
    } else {
      PlacesJoin(schema, Tables(groups[0]), Flat(groups[1..]));
      GroupApart(schema, groups[0], v);
      GroupsApart(schema, groups[1..], v);
      GroupKeysApart(schema, groups);
      KeyedJoin(RowsOfGroup(schema, groups[0], v), RowsOfGroups(schema, groups[1..], v),
                GroupKeys(schema, groups[0]), GroupsKeys(schema, groups[1..]));
    }
  }

  // ---- what the filter leaves is as distinct ----

  lemma {:induction false} MatchingStaysDistinct(schema: string, tables: seq<Table>, v: View)
    requires Distinct(PlacesOf(schema, tables))
    ensures Distinct(PlacesOf(schema, Matching(tables, v)))
    ensures forall t <- Matching(tables, v) :: t in tables
  {
    hide Named;
    if tables != [] {
      var n := |tables| - 1;
      var places := PlacesOf(schema, tables);
      assert PlacesOf(schema, tables[..n]) == places[..n];
      MatchingStaysDistinct(schema, tables[..n], v);
      var before := Matching(tables[..n], v);
      forall i | 0 <= i < |before|
        ensures before[i].name != tables[n].name
      {
        assert before[i] in tables[..n];
        var j :| 0 <= j < n && tables[j] == before[i];
        assert places[j] != places[n];
      }
      assert PlacesOf(schema, Matching(tables, v))[..|before|] == PlacesOf(schema, before);
    }
  }

  lemma {:induction false} CountIsOnce<T>(a: seq<T>)
    ensures Distinct(a) <==> forall x :: multiset(a)[x] <= 1
  {
    if a != [] {
      var n := |a| - 1;
      assert a == a[..n] + [a[n]];
      CountIsOnce(a[..n]);
      if Distinct(a) {
        assert a[n] !in a[..n];
        assert multiset(a[..n])[a[n]] == 0;
      }
      if forall x :: multiset(a)[x] <= 1 {
        assert forall x :: multiset(a[..n])[x] <= multiset(a)[x];
        assert multiset(a)[a[n]] == multiset(a[..n])[a[n]] + 1;
        assert a[n] !in multiset(a[..n]);
        assert a[n] !in a[..n];
      }
    }
  }

  lemma {:induction false} NarrowedStaysDistinct(groups: seq<Group>, v: View)
    requires DistinctSets(groups)
    ensures DistinctSets(NarrowedAll(groups, v))
    ensures forall g <- NarrowedAll(groups, v) :: g.Set? ==>
              exists k :: 0 <= k < |groups| && groups[k].Set? && groups[k].prefix == g.prefix
  {
    hide Named, Matching;
    if groups != [] {
      var n := |groups| - 1;
      NarrowedStaysDistinct(groups[..n], v);
      var before, last := NarrowedAll(groups[..n], v), Narrowed(groups[n], v);
      forall i | 0 <= i < |before| && before[i].Set? && last != [] && last[0].Set?
        ensures before[i].prefix != last[0].prefix
      {
        assert before[i] in before;
      }
    }
  }

  lemma ShownGroupsDistinct(schema: Schema, v: View)
    requires Distinct(PlacesOf(schema.name, schema.tables))
    ensures DistinctSets(GroupsShown(schema, v))
    ensures Distinct(PlacesOf(schema.name, Flat(GroupsShown(schema, v))))
  {
    hide GroupsOf, Matching, NarrowedAll, AllTables, PlacesOf, DistinctSets;
    var groups := GroupsShown(schema, v);
    FoldingKeepsTheTables(schema.tables);
    NarrowedStaysDistinct(GroupsOf(schema.tables), v);
    ShownAreTheMatching(schema, v);
    FlatIsAll(groups);
    MatchingStaysDistinct(schema.name, schema.tables, v);
    PlacesPermute(schema.name, Flat(groups), Matching(schema.tables, v));
    CountIsOnce(PlacesOf(schema.name, Flat(groups)));
    CountIsOnce(PlacesOf(schema.name, Matching(schema.tables, v)));
  }

  // ---- the folders ----

  function TypeNames(types: seq<UserType>): (names: seq<string>)
    ensures |names| == |types|
  {
    seq(|types|, i requires 0 <= i < |types| => types[i].name)
  }

  ghost predicate TypesApart(types: seq<UserType>) {
    Distinct(TypeNames(types)) && forall t <- types :: Distinct(t.members)
  }

  lemma FirstIsNotLater<T>(s: seq<T>)
    requires s != [] && Distinct(s)
    ensures s[0] !in s[1..] && Distinct(s[1..])
  {}

  lemma JoinsFirst<T>(first: T, rest: seq<T>)
    requires Distinct(rest) && first !in rest
    ensures Distinct([first] + rest)
  {}

  lemma {:induction false} RoutinesStayDistinct(routines: seq<Routine>, v: View)
    requires Distinct(routines)
    ensures Distinct(RoutinesShown(routines, v)) && forall r <- RoutinesShown(routines, v) :: r in routines
  {
    hide Named;
    if routines != [] {
      RoutinesStayDistinct(routines[1..], v);
      FirstIsNotLater(routines);
      JoinsFirst(routines[0], RoutinesShown(routines[1..], v));
      assert !Named(v, routines[0].name) ==> RoutinesShown(routines, v) == RoutinesShown(routines[1..], v);
    }
  }

  lemma {:induction false} NamesStayDistinct(names: seq<string>, v: View)
    requires Distinct(names)
    ensures Distinct(NamesShown(names, v)) && forall n <- NamesShown(names, v) :: n in names
  {
    hide Named;
    if names != [] {
      NamesStayDistinct(names[1..], v);
      FirstIsNotLater(names);
      JoinsFirst(names[0], NamesShown(names[1..], v));
      assert !Named(v, names[0]) ==> NamesShown(names, v) == NamesShown(names[1..], v);
    }
  }

  lemma TypesAfterFirst(types: seq<UserType>)
    requires types != [] && TypesApart(types)
    ensures TypesApart(types[1..]) && forall t <- types[1..] :: t.name != types[0].name
  {
    var names := TypeNames(types);
    assert TypeNames(types[1..]) == names[1..];
    forall k | 0 <= k < |types| - 1
      ensures types[1..][k].name != types[0].name
    {
      assert names[0] != names[k + 1];
    }
  }

  lemma {:induction false} TypesStayApart(types: seq<UserType>, v: View)
    requires TypesApart(types)
    ensures TypesApart(TypesShown(types, v)) && forall t <- TypesShown(types, v) :: t in types
  {
    hide Named;
    if types != [] {
      TypesAfterFirst(types);
      TypesStayApart(types[1..], v);
      var rest := TypesShown(types[1..], v);
      if Named(v, types[0].name) {
        assert TypesShown(types, v) == [types[0]] + rest;
        assert TypeNames(TypesShown(types, v)) == [types[0].name] + TypeNames(rest);
        forall k | 0 <= k < |rest|
          ensures rest[k].name != types[0].name
        {
          assert rest[k] in rest;
        }
      } else {
        assert TypesShown(types, v) == rest;
      }
    }
  }

  lemma TypeApart(schema: string, t: UserType, v: View)
    requires Distinct(t.members)
    ensures Unique(RowsOfType(schema, t, v)) && KeyedBy(RowsOfType(schema, t, v), {OfType(schema, t.name)})
  {
    var rows := RowsOfType(schema, t, v);
    var members := MemberRows(schema, t.name, t.members);
    forall i, j | 0 <= i < j < |members|
      ensures members[i].id != members[j].id
    {
      assert members[i].id.parts[3] == t.members[i] && members[j].id.parts[3] == t.members[j];
    }
    forall y | y in members
      ensures y.id != rows[0].id
    {
      assert y.id.parts[0] == "member";
    }
    UniqueJoins([rows[0]], members);
  }

  function TypeKeys(schema: string, types: seq<UserType>): set<Key> {
    set t <- types :: OfType(schema, t.name)
  }

  lemma {:induction false} TypesRowsApart(schema: string, types: seq<UserType>, v: View)
    requires TypesApart(types)
    ensures Unique(RowsOfTypes(schema, types, v)) && KeyedBy(RowsOfTypes(schema, types, v), TypeKeys(schema, types))
  {
    hide RowsOfType, KeyOf, TypesApart;
    if types == [] {
    } else {
      assert Distinct(types[0].members) by { FirstType(types); }
      TypeApart(schema, types[0], v);
      TypesAfterFirst(types);
      TypesRowsApart(schema, types[1..], v);
      KeyedJoin(RowsOfType(schema, types[0], v), RowsOfTypes(schema, types[1..], v),
                {OfType(schema, types[0].name)}, TypeKeys(schema, types[1..]));
      assert TypeKeys(schema, types) == {OfType(schema, types[0].name)} + TypeKeys(schema, types[1..]);
    }
  }

  lemma FirstType(types: seq<UserType>)
    requires types != [] && TypesApart(types)
    ensures Distinct(types[0].members)
  {}

  lemma RoutineRowsApart(schema: string, routines: seq<Routine>)
    requires Distinct(routines)
    ensures Unique(RoutineRows(schema, routines)) && KeyedBy(RoutineRows(schema, routines), {OfRoutines(schema)})
  {
    var rows := RoutineRows(schema, routines);
    forall i, j | 0 <= i < j < |rows|
      ensures rows[i].id != rows[j].id
    {
      assert routines[i] != routines[j];
      assert rows[i].id.parts[2] == routines[i].name && rows[j].id.parts[2] == routines[j].name;
      assert rows[i].id.parts[3] == routines[i].arguments && rows[j].id.parts[3] == routines[j].arguments;
    }
  }

  lemma SequenceRowsApart(schema: string, names: seq<string>)
    requires Distinct(names)
    ensures Unique(SequenceRows(schema, names)) && KeyedBy(SequenceRows(schema, names), {OfSequences(schema)})
  {
    var rows := SequenceRows(schema, names);
    forall i, j | 0 <= i < j < |rows|
      ensures rows[i].id != rows[j].id
    {
      assert rows[i].id.parts[2] == names[i] && rows[j].id.parts[2] == names[j];
    }
  }

  /** A schema's names, each distinct where it is kept. */
  ghost predicate NamesApart(schema: Schema) {
    && Distinct(PlacesOf(schema.name, schema.tables)) && Distinct(schema.routines)
    && Distinct(schema.sequences) && TypesApart(schema.types)
  }

  /** What a folder's rows are keyed by, and the row of the folder itself. */
  function FolderKeys(schema: string, key: string, types: seq<UserType>): set<Key> {
    {OfFolder(schema, key)}
    + if key == "routines" then {OfRoutines(schema)}
      else if key == "sequences" then {OfSequences(schema)}
      else TypeKeys(schema, types)
  }

  ghost predicate FolderIsApart(schema: string, folder: Folder, types: seq<UserType>) {
    && folder.key in {"routines", "sequences", "types"} && Unique(folder.rows)
    && KeyedBy(folder.rows, FolderKeys(schema, folder.key, types) - {OfFolder(schema, folder.key)})
  }

  lemma FoldersAreApart(schema: Schema, v: View)
    requires NamesApart(schema)
    ensures forall f <- Folders(schema, v) :: FolderIsApart(schema.name, f, TypesShown(schema.types, v))
    ensures Folders(schema, v)[0].key == "routines" && Folders(schema, v)[1].key == "sequences"
    ensures Folders(schema, v)[2].key == "types"
  {
    hide KeyOf, Named, RoutinesShown, NamesShown, TypesShown, RoutineRows, SequenceRows, RowsOfTypes;
    RoutinesStayDistinct(schema.routines, v);
    RoutineRowsApart(schema.name, RoutinesShown(schema.routines, v));
    NamesStayDistinct(schema.sequences, v);
    SequenceRowsApart(schema.name, NamesShown(schema.sequences, v));
    TypesStayApart(schema.types, v);
    TypesRowsApart(schema.name, TypesShown(schema.types, v), v);
  }

  lemma FolderApart(schema: string, folder: Folder, types: seq<UserType>, v: View)
    requires FolderIsApart(schema, folder, types)
    ensures Unique(RowsOfFolder(schema, folder, v))
    ensures KeyedBy(RowsOfFolder(schema, folder, v), FolderKeys(schema, folder.key, types))
  {
    var rows := RowsOfFolder(schema, folder, v);
    assert KeyedBy([rows[0]], {OfFolder(schema, folder.key)});
    hide KeyOf;
    var keys := FolderKeys(schema, folder.key, types) - {OfFolder(schema, folder.key)};
    KeyedJoin([rows[0]], rows[1..], {OfFolder(schema, folder.key)}, keys);
    assert rows == [rows[0]] + rows[1..];
  }

  function FoldersKeys(schema: string, folders: seq<Folder>, types: seq<UserType>): set<Key> {
    if folders == [] then {}
    else FolderKeys(schema, folders[0].key, types) + FoldersKeys(schema, folders[1..], types)
  }

  function KeysOfFolders(folders: seq<Folder>): (keys: seq<string>)
    ensures |keys| == |folders|
  {
    seq(|folders|, i requires 0 <= i < |folders| => folders[i].key)
  }

  ghost predicate KeyOfOne(schema: string, folders: seq<Folder>, types: seq<UserType>, key: Key) {
    exists k :: 0 <= k < |folders| && key in FolderKeys(schema, folders[k].key, types)
  }

  lemma KeyOfLater(schema: string, folders: seq<Folder>, types: seq<UserType>, key: Key)
    requires folders != [] && KeyOfOne(schema, folders[1..], types, key)
    ensures KeyOfOne(schema, folders, types, key)
  {
    hide FolderKeys;
    var rest := folders[1..];
    var k :| 0 <= k < |rest| && key in FolderKeys(schema, rest[k].key, types);
    assert folders[k + 1] == rest[k];
  }

  lemma {:induction false} FoldersKeysAre(schema: string, folders: seq<Folder>, types: seq<UserType>)
    ensures forall key <- FoldersKeys(schema, folders, types) :: KeyOfOne(schema, folders, types, key)
  {
    hide FolderKeys;
    if folders != [] {
      FoldersKeysAre(schema, folders[1..], types);
      forall key | key in FoldersKeys(schema, folders, types)
        ensures KeyOfOne(schema, folders, types, key)
      {
        if key in FolderKeys(schema, folders[0].key, types) {
          assert KeyOfOne(schema, folders, types, key);
        } else {
          KeyOfLater(schema, folders, types, key);
        }
      }
    }
  }

  lemma OtherFolderOtherKeys(schema: string, a: string, b: string, types: seq<UserType>)
    requires a != b && a in {"routines", "sequences", "types"} && b in {"routines", "sequences", "types"}
    ensures FolderKeys(schema, a, types) !! FolderKeys(schema, b, types)
  {}

  lemma {:induction false} AllFoldersApart(schema: string, folders: seq<Folder>, types: seq<UserType>, v: View)
    requires Distinct(KeysOfFolders(folders)) && forall f <- folders :: FolderIsApart(schema, f, types)
    ensures Unique(RowsOfFolders(schema, folders, v))
    ensures KeyedBy(RowsOfFolders(schema, folders, v), FoldersKeys(schema, folders, types))
  {
    hide KeyOf, FolderKeys, RowsOfFolder;
    if folders == [] {
    } else {
      var first, rest := folders[0], folders[1..];
      assert KeysOfFolders(rest) == KeysOfFolders(folders)[1..];
      assert forall f <- rest :: f in folders;
      FolderApart(schema, first, types, v);
      AllFoldersApart(schema, rest, types, v);
      FoldersKeysAre(schema, rest, types);
      forall k | 0 <= k < |rest|
        ensures FolderKeys(schema, first.key, types) !! FolderKeys(schema, rest[k].key, types)
      {
        assert KeysOfFolders(folders)[0] != KeysOfFolders(folders)[k + 1];
        assert rest[k] in folders;
        OtherFolderOtherKeys(schema, first.key, rest[k].key, types);
      }
      KeyedJoin(RowsOfFolder(schema, first, v), RowsOfFolders(schema, rest, v),
                FolderKeys(schema, first.key, types), FoldersKeys(schema, rest, types));
    }
  }

  // ---- a schema, and the tree ----

  function SchemaOf(key: Key): Option<string> {
    if key.OfNothing? then None else Some(key.schema)
  }

  ghost predicate InSchema(rows: seq<Row>, schema: string) {
    forall row <- rows :: SchemaOf(KeyOf(row.id)) == Some(schema)
  }

  lemma {:induction false} HeldStayDistinct(folders: seq<Folder>)
    requires Distinct(KeysOfFolders(folders))
    ensures Distinct(KeysOfFolders(Held(folders))) && forall f <- Held(folders) :: f in folders
  {
    if folders != [] {
      var rest := folders[1..];
      assert KeysOfFolders(rest) == KeysOfFolders(folders)[1..];
      HeldStayDistinct(rest);
      forall f | f in Held(rest)
        ensures f.key != folders[0].key
      {
        var k :| 0 <= k < |rest| && rest[k] == f;
        assert KeysOfFolders(folders)[0] != KeysOfFolders(folders)[k + 1];
      }
      var keys := KeysOfFolders(Held(rest));
      assert forall k :: 0 <= k < |keys| ==> Held(rest)[k] in Held(rest);
      if folders[0].count > 0 {
        assert KeysOfFolders(Held(folders)) == [folders[0].key] + keys;
      } else {
        assert Held(folders) == Held(rest);
      }
    }
  }

  lemma HeldFoldersApart(schema: Schema, v: View)
    requires NamesApart(schema)
    ensures Distinct(KeysOfFolders(Held(Folders(schema, v))))
    ensures forall f <- Held(Folders(schema, v)) :: FolderIsApart(schema.name, f, TypesShown(schema.types, v))
  {
    hide NamesApart, FolderIsApart, Folders, Held, TypesShown;
    FoldersAreApart(schema, v);
    var folders := Folders(schema, v);
    assert |folders| == 3 by { ThreeFolders(schema, v); }
    HeldStayDistinct(folders);
  }

  lemma ThreeFolders(schema: Schema, v: View)
    ensures |Folders(schema, v)| == 3
  {}

  predicate OfAFolder(key: Key) {
    key.OfFolder? || key.OfRoutines? || key.OfSequences? || key.OfType?
  }

  lemma {:induction false} FoldersKeysLie(schema: string, folders: seq<Folder>, types: seq<UserType>)
    ensures forall key <- FoldersKeys(schema, folders, types) :: OfAFolder(key) && key.schema == schema
  {
    if folders != [] {
      FoldersKeysLie(schema, folders[1..], types);
    }
  }

  lemma {:induction false} GroupsKeysLie(schema: string, groups: seq<Group>)
    ensures forall key <- GroupsKeys(schema, groups) :: (key.OfTable? || key.OfShards?) && key.schema == schema
  {
    if groups != [] {
      GroupsKeysLie(schema, groups[1..]);
    }
  }

  lemma SchemaApart(schema: Schema, v: View)
    requires KnownApart(v) && NamesApart(schema)
    ensures Unique(RowsOfSchema(schema, v)) && InSchema(RowsOfSchema(schema, v), schema.name)
  {
    hide KnownApart, GroupsShown, Folders, Held, TypesShown, RowsOfFolders, RowsOfGroups, CountHeld, CountTables;
    hide PlacesOf, FolderIsApart, FoldersKeys, GroupsKeys, DistinctSets, KeysOfFolders;
    var groups, held, types := GroupsShown(schema, v), Held(Folders(schema, v)), TypesShown(schema.types, v);
    var folders, tables := RowsOfFolders(schema.name, held, v), RowsOfGroups(schema.name, groups, v);
    ShownGroupsDistinct(schema, v);
    GroupsApart(schema.name, groups, v);
    HeldFoldersApart(schema, v);
    AllFoldersApart(schema.name, held, types, v);
    FoldersKeysLie(schema.name, held, types);
    GroupsKeysLie(schema.name, groups);
    var x, y := FoldersKeys(schema.name, held, types), GroupsKeys(schema.name, groups);
    KeyedJoin(folders, tables, x, y);
    SchemaRowsApart(schema, v, folders + tables, x + y);
  }

  lemma SchemaRowsApart(schema: Schema, v: View, under: seq<Row>, keys: set<Key>)
    requires under == RowsOfFolders(schema.name, Held(Folders(schema, v)), v)
                      + RowsOfGroups(schema.name, GroupsShown(schema, v), v)
    requires Unique(under) && KeyedBy(under, keys)
    requires forall key <- keys :: !key.OfSchema? && SchemaOf(key) == Some(schema.name)
    ensures Unique(RowsOfSchema(schema, v)) && InSchema(RowsOfSchema(schema, v), schema.name)
  {
    hide GroupsShown, Folders, Held, RowsOfFolders, RowsOfGroups, CountHeld, CountTables;
    var rows := RowsOfSchema(schema, v);
    if rows != [] {
      assert KeyOf(rows[0].id) == OfSchema(schema.name);
      if |rows| > 1 {
        assert rows[1..] == under;
        KeyedJoin([rows[0]], under, {OfSchema(schema.name)}, keys);
        assert rows == [rows[0]] + under;
        forall row | row in rows
          ensures SchemaOf(KeyOf(row.id)) == Some(schema.name)
        {
          assert row == rows[0] || row in under;
        }
      }
    }
  }

  function SchemaNames(schemas: seq<Schema>): (names: seq<string>)
    ensures |names| == |schemas|
  {
    seq(|schemas|, i requires 0 <= i < |schemas| => schemas[i].name)
  }

  ghost predicate AllNamesApart(schemas: seq<Schema>) {
    Distinct(SchemaNames(schemas)) && forall schema <- schemas :: NamesApart(schema)
  }

  lemma {:induction false} RowsAreOfSchemas(schemas: seq<Schema>, v: View)
    requires KnownApart(v) && AllNamesApart(schemas)
    ensures Unique(RowsOfSchemas(schemas, v))
    ensures forall row <- RowsOfSchemas(schemas, v) ::
              SchemaOf(KeyOf(row.id)).Some? && SchemaOf(KeyOf(row.id)).value in SchemaNames(schemas)
  {
    hide KnownApart, NamesApart, RowsOfSchema, KeyOf, SchemaOf;
    if schemas == [] {
    } else {
      var rest := schemas[1..];
      assert schemas[0] in schemas;
      SchemaApart(schemas[0], v);
      assert SchemaNames(rest) == SchemaNames(schemas)[1..];
      assert forall schema <- rest :: schema in schemas;
      FirstIsNotLater(SchemaNames(schemas));
      RowsAreOfSchemas(rest, v);
      UniqueJoins(RowsOfSchema(schemas[0], v), RowsOfSchemas(rest, v));
      forall row | row in RowsOfSchemas(schemas, v)
        ensures SchemaOf(KeyOf(row.id)).Some? && SchemaOf(KeyOf(row.id)).value in SchemaNames(schemas)
      {
        assert row in RowsOfSchema(schemas[0], v) || row in RowsOfSchemas(rest, v);
        assert SchemaNames(schemas)[0] == schemas[0].name;
      }
    }
  }

  /**
   * However the tree is opened and filtered, and whatever is known of its
   * tables: where names are distinct in the place they are kept, so are ids.
   */
  lemma NoTwoRowsHaveOneId(schemas: seq<Schema>, v: View)
    requires KnownApart(v) && AllNamesApart(schemas)
    ensures Unique(RowsOfSchemas(schemas, v))
  {
    RowsAreOfSchemas(schemas, v);
  }
}
