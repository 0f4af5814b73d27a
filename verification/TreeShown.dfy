/**
 * What the schema tree shows, for every view: each kind of row exactly as
 * often as what it is for is there to be shown, and each row under what it
 * belongs to.
 */
module TreeShown {
  import opened Basics
  import Chars
  import opened ShardGroups
  import opened TreeRows
  import opened TreeRowsProofs
  import TreeIds

  datatype Kind =
    | ASchema | AFolder | ASet | ATable | AColumn | ARoutine | ASequence | AType | AnIndex | AMember | ANote

  function KindOf(shown: Shown): Kind {
    match shown
    case SchemaRow(_, _, _) => ASchema
    case FolderRow(_, _, _) => AFolder
    case ShardsRow(_, _, _, _) => ASet
    case TableRow(_, _, _) => ATable
    case ColumnRow(_) => AColumn
    case RoutineRow(_, _, _) => ARoutine
    case SequenceRow(_) => ASequence
    case TypeRow(_, _) => AType
    case IndexRow(_) => AnIndex
    case MemberRow(_) => AMember
    case NoteRow(_) => ANote
  }

  /** The ids of the rows of a kind, each as often as it is there. */
  function Ids(rows: seq<Row>, kind: Kind): multiset<Id> {
    if rows == [] then multiset{}
    else (if KindOf(rows[0].shown) == kind then multiset{rows[0].id} else multiset{}) + Ids(rows[1..], kind)
  }

  // ---- what there is to show ----

  ghost predicate Around(text: string, before: string, part: string, after: string) {
    text == before + part + after
  }

  /** A name matches when there is no filter, or the filter is somewhere in it. */
  ghost predicate Matches(v: View, name: string) {
    v.needle == "" || exists before, after :: Around(v.lower(name), before, v.needle, after)
  }

  /** A table's prefix is also another's. */
  ghost predicate HasPeer(tables: seq<Table>, i: nat)
    requires i < |tables|
  {
    && PrefixOf(tables[i]).Some?
    && exists j :: 0 <= j < |tables| && j != i && PrefixOf(tables[j]) == PrefixOf(tables[i])
  }

  predicate IsOpen(v: View, id: seq<string>) {
    Filters(v) || Parts(id) in v.expanded
  }

  /** A table of an open schema has its row when it matches and, folded into a set, the set is open. */
  ghost predicate IsShown(schema: Schema, i: nat, v: View)
    requires i < |schema.tables|
  {
    var table := schema.tables[i];
    && Matches(v, table.name)
    && (HasPeer(schema.tables, i) ==> IsOpen(v, ["shards", schema.name, PrefixOf(table).value]))
  }

  ghost function TablesShown(schema: Schema, n: nat, v: View): seq<Table>
    requires n <= |schema.tables|
  {
    if n == 0 then []
    else TablesShown(schema, n - 1, v) + if IsShown(schema, n - 1, v) then [schema.tables[n - 1]] else []
  }

  function NameIds(under: seq<string>, names: seq<string>): multiset<Id> {
    if names == [] then multiset{} else multiset{Parts(under + [names[0]])} + NameIds(under, names[1..])
  }

  /** The rows of a kind that a table's row and what is open under it make. */
  function OfTable(schema: string, table: Table, v: View, kind: Kind): multiset<Id> {
    var id := ["table", schema, table.name];
    var columns, indexes := v.columnsOf(schema, table.name), v.indexesOf(schema, table.name);
    var open := Parts(id) in v.expanded;
    var listed := open && columns.Read? && columns.names != [];
    var indexed := listed && indexes.Read? && indexes.names != [];
    match kind
    case ATable => multiset{Parts(id)}
    case AColumn => if listed then NameIds(["column", schema, table.name], columns.names) else multiset{}
    case AnIndex =>
      if indexed && Parts(["indexes", schema, table.name]) in v.expanded
      then NameIds(["index", schema, table.name], indexes.names) else multiset{}
    case AFolder => if indexed then multiset{Parts(["indexes", schema, table.name])} else multiset{}
    case ANote =>
      if !open then multiset{}
      else if columns.Reading? then multiset{Noted(id, "reading")}
      else if columns.Failed? then multiset{Noted(id, "failed")}
      else if columns.names == [] then multiset{Noted(id, "none")}
      else if indexes.Failed? then multiset{Parts(["indexes", schema, table.name])}
      else multiset{}
    case _ => multiset{}
  }

  function OfTables(schema: string, tables: seq<Table>, v: View, kind: Kind): multiset<Id> {
    if tables == [] then multiset{} else OfTable(schema, tables[0], v, kind) + OfTables(schema, tables[1..], v, kind)
  }

  ghost function RoutineIds(schema: string, routines: seq<Routine>, v: View): multiset<Id> {
    if routines == [] then multiset{}
    else
      (if Matches(v, routines[0].name)
       then multiset{Parts(["routine", schema, routines[0].name, routines[0].arguments])} else multiset{})
      + RoutineIds(schema, routines[1..], v)
  }

  ghost function SequenceIds(schema: string, names: seq<string>, v: View): multiset<Id> {
    if names == [] then multiset{}
    else
      (if Matches(v, names[0]) then multiset{Parts(["sequence", schema, names[0]])} else multiset{})
      + SequenceIds(schema, names[1..], v)
  }

  ghost function TypeIds(schema: string, types: seq<UserType>, v: View): multiset<Id> {
    if types == [] then multiset{}
    else
      (if Matches(v, types[0].name) then multiset{Parts(["type", schema, types[0].name])} else multiset{})
      + TypeIds(schema, types[1..], v)
  }

  /** The members of each type that matches and is expanded. */
  ghost function MemberIds(schema: string, types: seq<UserType>, v: View): multiset<Id> {
    if types == [] then multiset{}
    else
      (if Matches(v, types[0].name) && Parts(["type", schema, types[0].name]) in v.expanded
       then NameIds(["member", schema, types[0].name], types[0].members) else multiset{})
      + MemberIds(schema, types[1..], v)
  }

  /** The rows of a kind of a folder and what it holds: the folder when it holds something, that when it is open. */
  ghost function OfRoutines(schema: Schema, v: View, kind: Kind): multiset<Id> {
    var id, routines := ["folder", schema.name, "routines"], RoutineIds(schema.name, schema.routines, v);
    if kind.AFolder? && routines != multiset{} then multiset{Parts(id)}
    else if kind.ARoutine? && IsOpen(v, id) then routines
    else multiset{}
  }

  ghost function OfSequences(schema: Schema, v: View, kind: Kind): multiset<Id> {
    var id, sequences := ["folder", schema.name, "sequences"], SequenceIds(schema.name, schema.sequences, v);
    if kind.AFolder? && sequences != multiset{} then multiset{Parts(id)}
    else if kind.ASequence? && IsOpen(v, id) then sequences
    else multiset{}
  }

  ghost function OfTypes(schema: Schema, v: View, kind: Kind): multiset<Id> {
    var id, types := ["folder", schema.name, "types"], TypeIds(schema.name, schema.types, v);
    if kind.AFolder? && types != multiset{} then multiset{Parts(id)}
    else if kind.AType? && IsOpen(v, id) then types
    else if kind.AMember? && IsOpen(v, id) then MemberIds(schema.name, schema.types, v)
    else multiset{}
  }

  /** The rows of a kind that an open schema's folders make. */
  ghost function OfFolders(schema: Schema, v: View, kind: Kind): multiset<Id> {
    OfRoutines(schema, v, kind) + OfSequences(schema, v, kind) + OfTypes(schema, v, kind)
  }

  /** Something of a schema matches. */
  ghost predicate HasMatch(schema: Schema, v: View) {
    || (exists table <- schema.tables :: Matches(v, table.name))
    || (exists routine <- schema.routines :: Matches(v, routine.name))
    || (exists name <- schema.sequences :: Matches(v, name))
    || (exists t <- schema.types :: Matches(v, t.name))
  }

  /** What a schema's rows of a kind, but those of sets, are for. */
  ghost function OfSchema(schema: Schema, v: View, kind: Kind): multiset<Id> {
    if kind.ASchema? then
      if !Filters(v) || HasMatch(schema, v) then multiset{Parts(["schema", schema.name])} else multiset{}
    else if !IsOpen(v, ["schema", schema.name]) then multiset{}
    else
      OfFolders(schema, v, kind)
      + OfTables(schema.name, TablesShown(schema, |schema.tables|, v), v, kind)
  }

  ghost function OfSchemas(schemas: seq<Schema>, v: View, kind: Kind): multiset<Id> {
    if schemas == [] then multiset{} else OfSchema(schemas[0], v, kind) + OfSchemas(schemas[1..], v, kind)
  }

  // ---- reading ids off rows ----

  lemma {:induction false} IdsJoin(a: seq<Row>, b: seq<Row>, kind: Kind)
    ensures Ids(a + b, kind) == Ids(a, kind) + Ids(b, kind)
  {
    hide KindOf;
    if a == [] {
      assert a + b == b;
    } else {
      assert (a + b)[1..] == a[1..] + b;
      IdsJoin(a[1..], b, kind);
    }
  }

  lemma IdsOfOne(row: Row, kind: Kind)
    ensures Ids([row], kind) == if KindOf(row.shown) == kind then multiset{row.id} else multiset{}
  {
    assert [row][1..] == [];
  }

  /** Rows of one kind, for names under one id. */
  lemma {:induction false} IdsOfNames(rows: seq<Row>, under: seq<string>, names: seq<string>, mine: Kind, kind: Kind)
    requires |rows| == |names|
    requires forall i :: 0 <= i < |rows| ==> KindOf(rows[i].shown) == mine && rows[i].id == Parts(under + [names[i]])
    ensures Ids(rows, kind) == if kind == mine then NameIds(under, names) else multiset{}
  {
    hide KindOf;
    if rows != [] {
      IdsOfNames(rows[1..], under, names[1..], mine, kind);
    }
  }

  lemma NamedMatches(v: View, name: string)
    ensures Named(v, name) <==> Matches(v, name)
  {
    var text, part := v.lower(name), v.needle;
    if part != "" {
      if Includes(text, part) {
        var i :| 0 <= i <= |text| && Chars.StartsWith(text, part, i);
        assert Around(text, text[..i], part, text[i + |part|..]);
      }
      if Matches(v, name) {
        var before, after :| Around(text, before, part, after);
        assert text[|before|..|before| + |part|] == part;
        assert Chars.StartsWith(text, part, |before|);
      }
    }
  }

  // ---- a table's rows ----

  lemma ColumnIds(schema: string, table: string, names: seq<string>, indent: nat, kind: Kind)
    ensures Ids(ColumnRows(schema, table, names, indent), kind)
            == if kind.AColumn? then NameIds(["column", schema, table], names) else multiset{}
  {
    IdsOfNames(ColumnRows(schema, table, names, indent), ["column", schema, table], names, AColumn, kind);
  }

  lemma IndexIds(schema: string, table: string, names: seq<string>, indent: nat, kind: Kind)
    ensures Ids(IndexNameRows(schema, table, names, indent), kind)
            == if kind.AnIndex? then NameIds(["index", schema, table], names) else multiset{}
  {
    IdsOfNames(IndexNameRows(schema, table, names, indent), ["index", schema, table], names, AnIndex, kind);
  }

  lemma IndexesShown(schema: string, table: string, indent: nat, v: View, kind: Kind)
    ensures var id, state := Parts(["indexes", schema, table]), v.indexesOf(schema, table);
      Ids(IndexRows(schema, table, indent, v), kind) ==
      if state.Failed? then if kind.ANote? then multiset{id} else multiset{}
      else if state.Reading? || state.names == [] then multiset{}
      else if kind.AFolder? then multiset{id}
      else if kind.AnIndex? && id in v.expanded then NameIds(["index", schema, table], state.names)
      else multiset{}
  {
    hide Ids, NameIds, IndexNameRows;
    var state := v.indexesOf(schema, table);
    NoIds(kind);
    if state.Failed? {
      IdsOfOne(IndexRows(schema, table, indent, v)[0], kind);
    } else if state.Read? && state.names != [] {
      SomeIndexesShown(schema, table, indent, v, kind);
    }
  }

  lemma SomeIndexesShown(schema: string, table: string, indent: nat, v: View, kind: Kind)
    requires var state := v.indexesOf(schema, table); state.Read? && state.names != []
    ensures var id := Parts(["indexes", schema, table]);
      Ids(IndexRows(schema, table, indent, v), kind) ==
      if kind.AFolder? then multiset{id}
      else if kind.AnIndex? && id in v.expanded then NameIds(["index", schema, table], v.indexesOf(schema, table).names)
      else multiset{}
  {
    hide Ids, NameIds, IndexNameRows;
    var id, names := Parts(["indexes", schema, table]), v.indexesOf(schema, table).names;
    var head := Row(id, indent, FolderRow("Indexes", |names|, id in v.expanded));
    var rest := if id in v.expanded then IndexNameRows(schema, table, names, indent + 1) else [];
    assert IndexRows(schema, table, indent, v) == [head] + rest;
    IdsOfOne(head, kind);
    NoIds(kind);
    IndexIds(schema, table, names, indent + 1, kind);
    IdsJoin([head], rest, kind);
  }

  lemma NoIds(kind: Kind)
    ensures Ids([], kind) == multiset{}
  {}

  /** What is under an open table, whose columns are known and some. */
  lemma ListedShown(schema: string, table: Table, indent: nat, v: View, kind: Kind)
    requires Parts(["table", schema, table.name]) in v.expanded
    requires var columns := v.columnsOf(schema, table.name); columns.Read? && columns.names != []
    ensures Ids(UnderTable(schema, table.name, indent, v), kind)
            == if kind.ATable? then multiset{} else OfTable(schema, table, v, kind)
  {
    hide Ids, IndexRows, NameIds, ColumnRows;
    var names := v.columnsOf(schema, table.name).names;
    ColumnIds(schema, table.name, names, indent, kind);
    IndexesShown(schema, table.name, indent, v, kind);
    IdsJoin(ColumnRows(schema, table.name, names, indent), IndexRows(schema, table.name, indent, v), kind);
  }

  lemma UnlistedShown(schema: string, table: Table, indent: nat, v: View, kind: Kind)
    requires Parts(["table", schema, table.name]) in v.expanded
    requires var columns := v.columnsOf(schema, table.name); !columns.Read? || columns.names == []
    ensures Ids(UnderTable(schema, table.name, indent, v), kind)
            == if kind.ATable? then multiset{} else OfTable(schema, table, v, kind)
  {
    hide Ids, IndexRows, NameIds, ColumnRows;
    var under := UnderTable(schema, table.name, indent, v);
    assert |under| == 1 && under == [under[0]] && under[0].shown.NoteRow?;
    IdsOfOne(under[0], kind);
    if kind.ANote? {
      assert Ids(under, kind) == multiset{under[0].id};
    } else {
      assert Ids(under, kind) == multiset{};
    }
  }

  lemma TableShown(schema: string, table: Table, indent: nat, v: View, kind: Kind)
    ensures Ids(RowsOfTable(schema, table, indent, v), kind) == OfTable(schema, table, v, kind)
  {
    hide Ids, UnderTable, NameIds;
    var rows := RowsOfTable(schema, table, indent, v);
    var columns := v.columnsOf(schema, table.name);
    IdsOfOne(rows[0], kind);
    if TableId(schema, table.name) in v.expanded {
      IdsJoin([rows[0]], UnderTable(schema, table.name, indent + 1, v), kind);
      if columns.Read? && columns.names != [] {
        ListedShown(schema, table, indent + 1, v, kind);
      } else {
        UnlistedShown(schema, table, indent + 1, v, kind);
      }
    } else {
      assert rows == [rows[0]];
    }
  }

  lemma {:induction false} TablesAreShown(schema: string, tables: seq<Table>, indent: nat, v: View, kind: Kind)
    ensures Ids(RowsOfTables(schema, tables, indent, v), kind) == OfTables(schema, tables, v, kind)
  {
    hide RowsOfTable, OfTable;
    if tables != [] {
      TableShown(schema, tables[0], indent, v, kind);
      TablesAreShown(schema, tables[1..], indent, v, kind);
      IdsJoin(RowsOfTable(schema, tables[0], indent, v), RowsOfTables(schema, tables[1..], indent, v), kind);
    }
  }

  // ---- the groups' ----

  /** The tables of the groups that are open: a table alone always is. */
  function InOpen(schema: string, group: Group, v: View): seq<Table> {
    if group.One? || IsOpen(v, ["shards", schema, group.prefix]) then Tables(group) else []
  }

  function InAllOpen(schema: string, groups: seq<Group>, v: View): seq<Table> {
    if groups == [] then [] else InOpen(schema, groups[0], v) + InAllOpen(schema, groups[1..], v)
  }

  function SetIds(schema: string, groups: seq<Group>): multiset<Id> {
    if groups == [] then multiset{}
    else
      (if groups[0].Set? then multiset{Parts(["shards", schema, groups[0].prefix])} else multiset{})
      + SetIds(schema, groups[1..])
  }

  lemma GroupShown(schema: string, group: Group, v: View, kind: Kind)
    ensures Ids(RowsOfGroup(schema, group, v), kind)
            == (if kind.ASet? then SetIds(schema, [group]) else multiset{})
               + OfTables(schema, InOpen(schema, group, v), v, kind)
  {
    hide Ids, RowsOfTable, RowsOfTables, OfTable;
    assert [group][1..] == [];
    match group
    case One(table) =>
      TableShown(schema, table, 1, v, kind);
      assert [table][1..] == [];
    case Set(prefix, shards) =>
      var rows := RowsOfGroup(schema, group, v);
      IdsOfOne(rows[0], kind);
      NoIds(kind);
      TablesAreShown(schema, shards, 2, v, kind);
      IdsJoin([rows[0]], rows[1..], kind);
      assert rows == [rows[0]] + rows[1..];
      if !IsOpen(v, ["shards", schema, prefix]) {
        assert rows[1..] == [];
      } else {
        assert rows[1..] == RowsOfTables(schema, shards, 2, v);
      }
  }

  lemma {:induction false} OfTablesJoin(schema: string, a: seq<Table>, b: seq<Table>, v: View, kind: Kind)
    ensures OfTables(schema, a + b, v, kind) == OfTables(schema, a, v, kind) + OfTables(schema, b, v, kind)
  {
    hide OfTable;
    if a == [] {
      assert a + b == b;
    } else {
      assert (a + b)[1..] == a[1..] + b;
      OfTablesJoin(schema, a[1..], b, v, kind);
    }
  }

  lemma {:induction false} GroupsAreShown(schema: string, groups: seq<Group>, v: View, kind: Kind)
    ensures Ids(RowsOfGroups(schema, groups, v), kind)
            == (if kind.ASet? then SetIds(schema, groups) else multiset{})
               + OfTables(schema, InAllOpen(schema, groups, v), v, kind)
  {
    hide RowsOfGroup, InOpen, OfTable, OfTables, Ids;
    if groups == [] {
      NoIds(kind);
      assert OfTables(schema, [], v, kind) == multiset{} by { NoTablesMake(schema, v, kind); }
    } else {
      GroupShown(schema, groups[0], v, kind);
      GroupsAreShown(schema, groups[1..], v, kind);
      IdsJoin(RowsOfGroup(schema, groups[0], v), RowsOfGroups(schema, groups[1..], v), kind);
      OfTablesJoin(schema, InOpen(schema, groups[0], v), InAllOpen(schema, groups[1..], v), v, kind);
      assert [groups[0]][1..] == [];
    }
  }

  lemma NoTablesMake(schema: string, v: View, kind: Kind)
    ensures OfTables(schema, [], v, kind) == multiset{}
  {}

  // ---- the order of the tables does not matter ----

  lemma OfTablesTakenOut(schema: string, tables: seq<Table>, k: nat, v: View, kind: Kind)
    requires k < |tables|
    ensures OfTables(schema, tables, v, kind)
            == OfTables(schema, tables[..k] + tables[k + 1..], v, kind) + OfTable(schema, tables[k], v, kind)
  {
    hide OfTable, OfTables;
    var before, after := tables[..k], tables[k + 1..];
    assert tables == before + ([tables[k]] + after);
    OfTablesJoin(schema, before, [tables[k]] + after, v, kind);
    OfTablesJoin(schema, [tables[k]], after, v, kind);
    OfTablesJoin(schema, before, after, v, kind);
    OfTablesOne(schema, tables[k], v, kind);
  }

  lemma OfTablesOne(schema: string, table: Table, v: View, kind: Kind)
    ensures OfTables(schema, [table], v, kind) == OfTable(schema, table, v, kind)
  {
    hide OfTable;
    assert [table][1..] == [];
  }

  lemma {:induction false} OfTablesPermute(schema: string, a: seq<Table>, b: seq<Table>, v: View, kind: Kind)
    requires multiset(a) == multiset(b)
    ensures OfTables(schema, a, v, kind) == OfTables(schema, b, v, kind)
  {
    hide OfTable, OfTables;
    if a == [] {
      assert |b| == |multiset(b)| == 0;
      assert b == a;
    } else {
      var k := FindIn(b, a[0], a);
      SameWithout(a, b, k);
      OfTablesPermute(schema, a[1..], b[..k] + b[k + 1..], v, kind);
      OfTablesTakenOut(schema, a, 0, v, kind);
      OfTablesTakenOut(schema, b, k, v, kind);
      assert a[..0] + a[1..] == a[1..];
    }
  }

  // ---- a table folds when it has a peer ----

  lemma {:induction false} OneOfThePrefix(tables: seq<Table>, m: nat, i: nat, prefix: string)
    requires i < m <= |tables| && PrefixOf(tables[i]) == Some(prefix)
    ensures |ShardsOf(tables, m, prefix)| >= 1
  {
    hide PrefixOf;
    if i < m - 1 {
      OneOfThePrefix(tables, m - 1, i, prefix);
    }
  }

  lemma {:induction false} TwoOfThePrefix(tables: seq<Table>, m: nat, i: nat, j: nat, prefix: string)
    requires i < j < m <= |tables| && PrefixOf(tables[i]) == PrefixOf(tables[j]) == Some(prefix)
    ensures |ShardsOf(tables, m, prefix)| >= 2
  {
    hide PrefixOf;
    if j < m - 1 {
      TwoOfThePrefix(tables, m - 1, i, j, prefix);
    } else {
      OneOfThePrefix(tables, m - 1, i, prefix);
    }
  }

  lemma {:induction false} AnotherOfThePrefix(tables: seq<Table>, m: nat, i: nat, prefix: string) returns (j: nat)
    requires m <= |tables| && |ShardsOf(tables, m, prefix)| >= if i < m then 2 else 1
    ensures j < m && j != i && PrefixOf(tables[j]) == Some(prefix)
  {
    hide PrefixOf;
    if PrefixOf(tables[m - 1]) == Some(prefix) && m - 1 != i {
      j := m - 1;
    } else {
      j := AnotherOfThePrefix(tables, m - 1, i, prefix);
    }
  }

  lemma FoldsWithAPeer(tables: seq<Table>, i: nat)
    requires i < |tables|
    ensures Folds(tables, tables[i]) <==> HasPeer(tables, i)
  {
    hide PrefixOf, ShardsOf;
    if Folds(tables, tables[i]) {
      var j := AnotherOfThePrefix(tables, |tables|, i, PrefixOf(tables[i]).value);
    }
    if HasPeer(tables, i) {
      var j :| 0 <= j < |tables| && j != i && PrefixOf(tables[j]) == PrefixOf(tables[i]);
      TwoOfThePrefix(tables, |tables|, if i < j then i else j, if i < j then j else i, PrefixOf(tables[i]).value);
    }
  }

  // ---- the tables of the open groups are those shown ----

  /** A table's group is open: it is alone, or its set is. */
  predicate GroupIsOpen(schema: Schema, table: Table, v: View) {
    Folds(schema.tables, table) ==> IsOpen(v, ["shards", schema.name, PrefixOf(table).value])
  }

  /** A table alone does not fold, and those of a set fold into it. */
  ghost predicate Rightly(tables: seq<Table>, group: Group) {
    if group.One? then !Folds(tables, group.table)
    else forall t <- group.shards :: PrefixOf(t) == Some(group.prefix) && Folds(tables, t)
  }

  lemma InOpenCounts(schema: Schema, group: Group, v: View, t: Table)
    requires Rightly(schema.tables, group)
    ensures multiset(InOpen(schema.name, group, v))[t]
            == if GroupIsOpen(schema, t, v) then multiset(Tables(group))[t] else 0
  {
    hide Folds, PrefixOf;
    if t in Tables(group) {
    } else {
      assert multiset(Tables(group))[t] == 0;
    }
  }

  lemma {:induction false} InAllOpenCounts(schema: Schema, groups: seq<Group>, v: View, t: Table)
    requires forall g <- groups :: Rightly(schema.tables, g)
    ensures multiset(InAllOpen(schema.name, groups, v))[t]
            == if GroupIsOpen(schema, t, v) then multiset(Flat(groups))[t] else 0
  {
    hide Rightly, GroupIsOpen, InOpen, Tables;
    if groups != [] {
      InOpenCounts(schema, groups[0], v, t);
      InAllOpenCounts(schema, groups[1..], v, t);
    }
  }

  lemma WholeSetIsRightly(tables: seq<Table>, group: Group)
    requires if group.Set? then IsWholeSet(tables, group) else !Folds(tables, group.table)
    ensures Rightly(tables, group)
  {
    hide PrefixOf, ShardsOf, Descending;
    if group.Set? {
      assert |multiset(group.shards)| == |multiset(ShardsOf(tables, |tables|, group.prefix))|;
    }
  }

  lemma {:induction false} MatchingAreTables(tables: seq<Table>, v: View)
    ensures forall t <- TreeRows.Matching(tables, v) :: t in tables
  {
    hide Named;
    if tables != [] {
      MatchingAreTables(tables[..|tables| - 1], v);
    }
  }

  lemma {:induction false} NarrowedAreRightly(tables: seq<Table>, groups: seq<Group>, v: View)
    requires forall g <- groups :: Rightly(tables, g)
    ensures forall g <- NarrowedAll(groups, v) :: Rightly(tables, g)
  {
    hide Folds, PrefixOf, TreeRows.Matching, Named;
    if groups != [] {
      var n := |groups| - 1;
      NarrowedAreRightly(tables, groups[..n], v);
      assert Rightly(tables, groups[n]);
      if groups[n].Set? {
        MatchingAreTables(groups[n].shards, v);
      }
    }
  }

  lemma ShownAreRightly(schema: Schema, v: View)
    ensures forall g <- GroupsShown(schema, v) :: Rightly(schema.tables, g)
  {
    hide GroupsOf, Rightly, NarrowedAll, IsWholeSet, Folds;
    FoldingKeepsTheTables(schema.tables);
    forall g | g in GroupsOf(schema.tables)
      ensures Rightly(schema.tables, g)
    {
      WholeSetIsRightly(schema.tables, g);
    }
    NarrowedAreRightly(schema.tables, GroupsOf(schema.tables), v);
  }

  lemma ShownWhenOpen(schema: Schema, i: nat, v: View)
    requires i < |schema.tables|
    ensures IsShown(schema, i, v) <==> Named(v, schema.tables[i].name) && GroupIsOpen(schema, schema.tables[i], v)
  {
    hide Named, Matches, Folds, HasPeer, PrefixOf, IsOpen;
    FoldsWithAPeer(schema.tables, i);
    NamedMatches(v, schema.tables[i].name);
  }

  lemma OneMoreCounted(tables: seq<Table>, last: Table, t: Table)
    ensures multiset(tables + [last])[t] == multiset(tables)[t] + if t == last then 1 else 0
    ensures multiset(tables + [])[t] == multiset(tables)[t]
  {
    assert tables + [] == tables;
  }

  lemma TablesShownStep(schema: Schema, n: nat, v: View)
    requires n < |schema.tables|
    ensures TablesShown(schema, n + 1, v)
            == TablesShown(schema, n, v) + if IsShown(schema, n, v) then [schema.tables[n]] else []
    ensures schema.tables[..n + 1] == schema.tables[..n] + [schema.tables[n]]
  {
    hide IsShown;
  }

  lemma {:induction false} TablesShownCount(schema: Schema, n: nat, v: View, t: Table)
    requires n <= |schema.tables|
    ensures multiset(TablesShown(schema, n, v))[t]
            == if Named(v, t.name) && GroupIsOpen(schema, t, v) then multiset(schema.tables[..n])[t] else 0
  {
    hide Named, GroupIsOpen, IsShown, TablesShown;
    if n == 0 {
      assert TablesShown(schema, 0, v) == [] by { NoneShownYet(schema, v); }
    } else {
      var last := schema.tables[n - 1];
      TablesShownCount(schema, n - 1, v, t);
      TablesShownStep(schema, n - 1, v);
      ShownWhenOpen(schema, n - 1, v);
      OneMoreCounted(schema.tables[..n - 1], last, t);
      OneMoreCounted(TablesShown(schema, n - 1, v), last, t);
    }
  }

  lemma NoneShownYet(schema: Schema, v: View)
    ensures TablesShown(schema, 0, v) == []
  {}

  /** However the tables are grouped, those of the open groups are those that are to be shown. */
  lemma OpenGroupsHoldTheShown(schema: Schema, v: View)
    ensures multiset(InAllOpen(schema.name, GroupsShown(schema, v), v))
            == multiset(TablesShown(schema, |schema.tables|, v))
  {
    hide GroupsShown, InAllOpen, TablesShown, TreeRows.Matching, Rightly, GroupIsOpen, Named, Flat, AllTables;
    var groups, tables := GroupsShown(schema, v), schema.tables;
    ShownAreRightly(schema, v);
    ShownAreTheMatching(schema, v);
    FlatIsAll(groups);
    forall t
      ensures multiset(InAllOpen(schema.name, groups, v))[t] == multiset(TablesShown(schema, |tables|, v))[t]
    {
      InAllOpenCounts(schema, groups, v, t);
      MatchingCounts(tables, v, t);
      TablesShownCount(schema, |tables|, v, t);
      assert tables[..|tables|] == tables;
    }
  }

  // ---- the folders' rows ----

  lemma RoutineFirst(schema: string, routine: Routine, rest: seq<Routine>, kind: Kind)
    ensures Ids(RoutineRows(schema, [routine] + rest), kind)
            == (if kind.ARoutine? then multiset{Parts(["routine", schema, routine.name, routine.arguments])}
                else multiset{})
               + Ids(RoutineRows(schema, rest), kind)
  {
    hide Ids;
    var rows := RoutineRows(schema, [routine] + rest);
    assert rows == [rows[0]] + RoutineRows(schema, rest);
    IdsOfOne(rows[0], kind);
    IdsJoin([rows[0]], RoutineRows(schema, rest), kind);
  }

  lemma {:induction false} RoutinesAreShown(schema: string, routines: seq<Routine>, v: View, kind: Kind)
    ensures Ids(RoutineRows(schema, RoutinesShown(routines, v)), kind)
            == if kind.ARoutine? then RoutineIds(schema, routines, v) else multiset{}
    ensures |RoutinesShown(routines, v)| == |RoutineIds(schema, routines, v)|
  {
    hide Named, Matches, RoutineRows, Ids;
    if routines == [] {
      NoRoutines(schema, kind);
    } else {
      NamedMatches(v, routines[0].name);
      var rest := RoutinesShown(routines[1..], v);
      RoutinesAreShown(schema, routines[1..], v, kind);
      RoutineFirst(schema, routines[0], rest, kind);
      assert RoutinesShown(routines, v) == if Named(v, routines[0].name) then [routines[0]] + rest else rest;
    }
  }

  lemma NoRoutines(schema: string, kind: Kind)
    ensures Ids(RoutineRows(schema, []), kind) == multiset{}
  {}

  lemma SequenceFirst(schema: string, name: string, rest: seq<string>, kind: Kind)
    ensures Ids(SequenceRows(schema, [name] + rest), kind)
            == (if kind.ASequence? then multiset{Parts(["sequence", schema, name])} else multiset{})
               + Ids(SequenceRows(schema, rest), kind)
  {
    hide Ids;
    var rows := SequenceRows(schema, [name] + rest);
    assert rows == [rows[0]] + SequenceRows(schema, rest);
    IdsOfOne(rows[0], kind);
    IdsJoin([rows[0]], SequenceRows(schema, rest), kind);
  }

  lemma NoSequences(schema: string, kind: Kind)
    ensures Ids(SequenceRows(schema, []), kind) == multiset{}
  {}

  lemma {:induction false} SequencesAreShown(schema: string, names: seq<string>, v: View, kind: Kind)
    ensures Ids(SequenceRows(schema, NamesShown(names, v)), kind)
            == if kind.ASequence? then SequenceIds(schema, names, v) else multiset{}
    ensures |NamesShown(names, v)| == |SequenceIds(schema, names, v)|
  {
    hide Named, Matches, SequenceRows, Ids;
    if names == [] {
      NoSequences(schema, kind);
    } else {
      NamedMatches(v, names[0]);
      var rest := NamesShown(names[1..], v);
      SequencesAreShown(schema, names[1..], v, kind);
      SequenceFirst(schema, names[0], rest, kind);
      assert NamesShown(names, v) == if Named(v, names[0]) then [names[0]] + rest else rest;
    }
  }

  lemma TypeShown(schema: string, t: UserType, v: View, kind: Kind)
    ensures Ids(RowsOfType(schema, t, v), kind)
            == if kind.AType? then multiset{Parts(["type", schema, t.name])}
               else if kind.AMember? && Parts(["type", schema, t.name]) in v.expanded
               then NameIds(["member", schema, t.name], t.members)
               else multiset{}
  {
    hide Ids;
    var rows := RowsOfType(schema, t, v);
    IdsOfOne(rows[0], kind);
    if t.members != [] && Parts(["type", schema, t.name]) in v.expanded {
      var under := MemberRows(schema, t.name, t.members);
      IdsOfNames(under, ["member", schema, t.name], t.members, AMember, kind);
      IdsJoin([rows[0]], under, kind);
    } else {
      assert rows == [rows[0]];
    }
  }

  lemma {:induction false} TypesAreShown(schema: string, types: seq<UserType>, v: View, kind: Kind)
    ensures Ids(RowsOfTypes(schema, TypesShown(types, v), v), kind)
            == if kind.AType? then TypeIds(schema, types, v)
               else if kind.AMember? then MemberIds(schema, types, v) else multiset{}
    ensures |TypesShown(types, v)| == |TypeIds(schema, types, v)|
  {
    hide Named, Matches, RowsOfType, Ids;
    if types == [] {
      NoIds(kind);
    } else {
      NamedMatches(v, types[0].name);
      var all, rest := TypesShown(types, v), TypesShown(types[1..], v);
      TypesAreShown(schema, types[1..], v, kind);
      if Named(v, types[0].name) {
        assert all[1..] == rest;
        TypeShown(schema, types[0], v, kind);
        IdsJoin(RowsOfType(schema, types[0], v), RowsOfTypes(schema, rest, v), kind);
      } else {
        assert all == rest;
      }
    }
  }

  /** What a folder with something in it makes: its row, and what it holds when it is open. */
  function OfFolder(schema: string, folder: Folder, v: View, kind: Kind): multiset<Id> {
    if folder.count == 0 then multiset{}
    else
      (if kind.AFolder? then multiset{Parts(["folder", schema, folder.key])} else multiset{})
      + if IsOpen(v, ["folder", schema, folder.key]) then Ids(folder.rows, kind) else multiset{}
  }

  function OfAllFolders(schema: string, folders: seq<Folder>, v: View, kind: Kind): multiset<Id> {
    if folders == [] then multiset{}
    else OfFolder(schema, folders[0], v, kind) + OfAllFolders(schema, folders[1..], v, kind)
  }

  lemma FolderShown(schema: string, folder: Folder, v: View, kind: Kind)
    requires folder.count > 0
    ensures Ids(RowsOfFolder(schema, folder, v), kind) == OfFolder(schema, folder, v, kind)
  {
    hide Ids;
    var rows := RowsOfFolder(schema, folder, v);
    IdsOfOne(rows[0], kind);
    IdsJoin([rows[0]], rows[1..], kind);
    NoIds(kind);
    assert rows == [rows[0]] + rows[1..];
    assert rows[1..] == if IsOpen(v, ["folder", schema, folder.key]) then folder.rows else [];
  }

  lemma {:induction false} HeldAreShown(schema: string, folders: seq<Folder>, v: View, kind: Kind)
    ensures Ids(RowsOfFolders(schema, Held(folders), v), kind) == OfAllFolders(schema, folders, v, kind)
  {
    hide Ids, RowsOfFolder, OfFolder;
    if folders == [] {
      NoIds(kind);
    } else {
      var rest := Held(folders[1..]);
      HeldAreShown(schema, folders[1..], v, kind);
      if folders[0].count > 0 {
        assert Held(folders)[1..] == rest;
        FolderShown(schema, folders[0], v, kind);
        IdsJoin(RowsOfFolder(schema, folders[0], v), RowsOfFolders(schema, rest, v), kind);
      } else {
        assert Held(folders) == rest;
        NothingHeld(schema, folders[0], v, kind);
      }
    }
  }

  lemma NothingHeld(schema: string, folder: Folder, v: View, kind: Kind)
    requires folder.count == 0
    ensures OfFolder(schema, folder, v, kind) == multiset{}
  {}

  lemma OfThreeFolders(schema: string, a: Folder, b: Folder, c: Folder, v: View, kind: Kind)
    ensures OfAllFolders(schema, [a, b, c], v, kind)
            == OfFolder(schema, a, v, kind) + OfFolder(schema, b, v, kind) + OfFolder(schema, c, v, kind)
  {
    hide OfFolder;
    assert [a, b, c][1..] == [b, c] && [b, c][1..] == [c] && [c][1..] == [];
    assert OfAllFolders(schema, [c], v, kind) == OfFolder(schema, c, v, kind);
    assert OfAllFolders(schema, [b, c], v, kind) == OfFolder(schema, b, v, kind) + OfFolder(schema, c, v, kind);
  }

  lemma RoutinesFolderShown(schema: Schema, v: View, kind: Kind)
    ensures OfFolder(schema.name, Folders(schema, v)[0], v, kind) == OfRoutines(schema, v, kind)
  {
    hide RoutineIds, RoutinesShown, RoutineRows, Ids, NamesShown, TypesShown, RowsOfTypes, SequenceRows;
    RoutinesAreShown(schema.name, schema.routines, v, kind);
    NoRoutines(schema.name, kind);
  }

  lemma SequencesFolderShown(schema: Schema, v: View, kind: Kind)
    ensures OfFolder(schema.name, Folders(schema, v)[1], v, kind) == OfSequences(schema, v, kind)
  {
    hide SequenceIds, RoutinesShown, RoutineRows, Ids, NamesShown, TypesShown, RowsOfTypes, SequenceRows;
    SequencesAreShown(schema.name, schema.sequences, v, kind);
    NoSequences(schema.name, kind);
  }

  lemma TypesFolderShown(schema: Schema, v: View, kind: Kind)
    ensures OfFolder(schema.name, Folders(schema, v)[2], v, kind) == OfTypes(schema, v, kind)
  {
    hide TypeIds, MemberIds, RoutinesShown, RoutineRows, Ids, NamesShown, TypesShown, RowsOfTypes, SequenceRows;
    var types := TypesShown(schema.types, v);
    TypesAreShown(schema.name, schema.types, v, kind);
    if types == [] {
      NoTypes(schema.name, v, kind);
    }
  }

  lemma NoTypes(schema: string, v: View, kind: Kind)
    ensures Ids(RowsOfTypes(schema, [], v), kind) == multiset{}
  {}

  /** What the folders hold is shown, each kind exactly. */
  lemma FoldersAreShown(schema: Schema, v: View, kind: Kind)
    ensures Ids(RowsOfFolders(schema.name, Held(Folders(schema, v)), v), kind) == OfFolders(schema, v, kind)
  {
    hide Ids, RowsOfFolders, Folders, Held, OfFolder, OfAllFolders, OfRoutines, OfSequences, OfTypes;
    var folders := Folders(schema, v);
    assert |folders| == 3 && folders == [folders[0], folders[1], folders[2]] by { ThreeFolders(schema, v); }
    HeldAreShown(schema.name, folders, v, kind);
    OfThreeFolders(schema.name, folders[0], folders[1], folders[2], v, kind);
    RoutinesFolderShown(schema, v, kind);
    SequencesFolderShown(schema, v, kind);
    TypesFolderShown(schema, v, kind);
  }

  lemma ThreeFolders(schema: Schema, v: View)
    ensures |Folders(schema, v)| == 3
  {}

  // ---- whether a schema has anything to show ----

  lemma {:induction false} NoRoutineMatches(schema: string, routines: seq<Routine>, v: View)
    ensures RoutineIds(schema, routines, v) == multiset{} <==> forall routine <- routines :: !Matches(v, routine.name)
  {
    hide Matches;
    if routines != [] {
      NoRoutineMatches(schema, routines[1..], v);
      assert routines == [routines[0]] + routines[1..];
    }
  }

  lemma {:induction false} NoSequenceMatches(schema: string, names: seq<string>, v: View)
    ensures SequenceIds(schema, names, v) == multiset{} <==> forall name <- names :: !Matches(v, name)
  {
    hide Matches;
    if names != [] {
      NoSequenceMatches(schema, names[1..], v);
      assert names == [names[0]] + names[1..];
    }
  }

  lemma {:induction false} NoTypeMatches(schema: string, types: seq<UserType>, v: View)
    ensures TypeIds(schema, types, v) == multiset{} <==> forall t <- types :: !Matches(v, t.name)
  {
    hide Matches;
    if types != [] {
      NoTypeMatches(schema, types[1..], v);
      assert types == [types[0]] + types[1..];
    }
  }

  lemma NoFolderMatches(schema: Schema, v: View)
    ensures Held(Folders(schema, v)) == [] <==>
      && (forall routine <- schema.routines :: !Matches(v, routine.name))
      && (forall name <- schema.sequences :: !Matches(v, name))
      && (forall t <- schema.types :: !Matches(v, t.name))
  {
    hide RoutineIds, SequenceIds, TypeIds, MemberIds, RoutinesShown, NamesShown, TypesShown, Matches;
    hide Ids, RoutineRows, SequenceRows, RowsOfTypes, Held;
    var folders := Folders(schema, v);
    NoRoutineMatches(schema.name, schema.routines, v);
    NoSequenceMatches(schema.name, schema.sequences, v);
    NoTypeMatches(schema.name, schema.types, v);
    RoutinesAreShown(schema.name, schema.routines, v, ANote);
    SequencesAreShown(schema.name, schema.sequences, v, ANote);
    TypesAreShown(schema.name, schema.types, v, ANote);
    HoldsNothing(folders[0], folders[1], folders[2]);
    assert folders == [folders[0], folders[1], folders[2]];
  }

  lemma HoldsNothing(a: Folder, b: Folder, c: Folder)
    ensures Held([a, b, c]) == [] <==> a.count == 0 && b.count == 0 && c.count == 0
  {
    assert [a, b, c][1..] == [b, c] && [b, c][1..] == [c] && [c][1..] == [];
    assert Held([c]) == [] <==> c.count == 0;
    assert Held([b, c]) == [] <==> b.count == 0 && c.count == 0;
  }

  lemma {:induction false} NarrowedAreSome(groups: seq<Group>, v: View)
    ensures forall g <- NarrowedAll(groups, v) :: Tables(g) != []
  {
    hide TreeRows.Matching, Named;
    if groups != [] {
      NarrowedAreSome(groups[..|groups| - 1], v);
    }
  }

  lemma NoTableMatches(schema: Schema, v: View)
    ensures GroupsShown(schema, v) == [] <==> forall table <- schema.tables :: !Matches(v, table.name)
  {
    hide GroupsOf, NarrowedAll, Tables, TreeRows.Matching, Matches, Named;
    var groups, tables := GroupsShown(schema, v), schema.tables;
    var all := AllTables(groups);
    ShownAreTheMatching(schema, v);
    NarrowedAreSome(GroupsOf(tables), v);
    assert groups != [] ==> all != [] by {
      if groups != [] {
        assert groups[|groups| - 1] in groups;
      }
    }
    if table :| table in tables && Matches(v, table.name) {
      NamedMatches(v, table.name);
      MatchingCounts(tables, v, table);
      assert table in multiset(tables) && multiset(all)[table] > 0;
      assert all != [];
    } else if all != [] {
      var table := all[0];
      assert multiset(all)[table] > 0;
      NamedMatches(v, table.name);
      MatchingCounts(tables, v, table);
      assert table in multiset(tables);
    }
  }

  // ---- the schemas' rows ----

  lemma OpenSchemaShown(schema: Schema, v: View, kind: Kind)
    requires IsOpen(v, ["schema", schema.name]) && !kind.ASchema? && !kind.ASet?
    ensures Ids(RowsOfFolders(schema.name, Held(Folders(schema, v)), v)
                + RowsOfGroups(schema.name, GroupsShown(schema, v), v), kind) == OfSchema(schema, v, kind)
  {
    hide Ids, RowsOfFolders, RowsOfGroups, Folders, Held, OfFolders, OfTables, TablesShown, InAllOpen, GroupsShown;
    hide HasMatch;
    var groups, held := GroupsShown(schema, v), Held(Folders(schema, v));
    FoldersAreShown(schema, v, kind);
    GroupsAreShown(schema.name, groups, v, kind);
    OpenGroupsHoldTheShown(schema, v);
    OfTablesPermute(schema.name, InAllOpen(schema.name, groups, v), TablesShown(schema, |schema.tables|, v), v, kind);
    IdsJoin(RowsOfFolders(schema.name, held, v), RowsOfGroups(schema.name, groups, v), kind);
  }

  lemma NothingToShow(schema: string, v: View)
    ensures RowsOfFolders(schema, [], v) + RowsOfGroups(schema, [], v) == []
  {}

  lemma SchemaShown(schema: Schema, v: View, kind: Kind)
    requires !kind.ASet?
    ensures Ids(RowsOfSchema(schema, v), kind) == OfSchema(schema, v, kind)
  {
    hide Ids, RowsOfFolders, RowsOfGroups, Folders, Held, OfFolders, OfTables, TablesShown, GroupsShown, CountHeld,
         CountTables;
    var groups, held := GroupsShown(schema, v), Held(Folders(schema, v));
    var open := IsOpen(v, ["schema", schema.name]);
    var rows := RowsOfSchema(schema, v);
    NoTableMatches(schema, v);
    NoFolderMatches(schema, v);
    assert groups == [] && held == [] <==> !HasMatch(schema, v);
    NoIds(kind);
    if open && !kind.ASchema? {
      OpenSchemaShown(schema, v, kind);
    }
    if Filters(v) && groups == [] && held == [] {
      NothingToShow(schema.name, v);
    } else {
      var under := if open then RowsOfFolders(schema.name, held, v) + RowsOfGroups(schema.name, groups, v) else [];
      assert rows == [rows[0]] + under;
      IdsOfOne(rows[0], kind);
      IdsJoin([rows[0]], under, kind);
      if kind.ASchema? && open {
        NoSchemasUnder(schema, v);
      }
    }
  }

  lemma NoSchemasUnder(schema: Schema, v: View)
    ensures Ids(RowsOfFolders(schema.name, Held(Folders(schema, v)), v)
                + RowsOfGroups(schema.name, GroupsShown(schema, v), v), ASchema) == multiset{}
  {
    hide Ids, RowsOfFolders, RowsOfGroups, Folders, Held, OfTables, InAllOpen, GroupsShown;
    var groups, held := GroupsShown(schema, v), Held(Folders(schema, v));
    FoldersAreShown(schema, v, ASchema);
    GroupsAreShown(schema.name, groups, v, ASchema);
    NoSchemasOfTables(schema.name, InAllOpen(schema.name, groups, v), v);
    IdsJoin(RowsOfFolders(schema.name, held, v), RowsOfGroups(schema.name, groups, v), ASchema);
  }

  lemma {:induction false} NoSchemasOfTables(schema: string, tables: seq<Table>, v: View)
    ensures OfTables(schema, tables, v, ASchema) == multiset{}
  {
    if tables != [] {
      NoSchemasOfTables(schema, tables[1..], v);
    }
  }

  /**
   * For every view, filtered or not: the rows of each kind, but those of sets,
   * are exactly what there is of it to show, each as often as it is there.
   */
  lemma {:induction false} EachIsShown(schemas: seq<Schema>, v: View, kind: Kind)
    requires !kind.ASet?
    ensures Ids(RowsOfSchemas(schemas, v), kind) == OfSchemas(schemas, v, kind)
  {
    hide Ids, RowsOfSchema, OfSchema;
    if schemas == [] {
      NoIds(kind);
    } else {
      SchemaShown(schemas[0], v, kind);
      EachIsShown(schemas[1..], v, kind);
      IdsJoin(RowsOfSchema(schemas[0], v), RowsOfSchemas(schemas[1..], v), kind);
    }
  }

  // ---- the sets' rows ----

  /** A table of the prefix that is folded and matches. */
  ghost predicate MatchesInSet(schema: Schema, prefix: string, i: nat, v: View)
    requires i < |schema.tables|
  {
    && HasPeer(schema.tables, i) && PrefixOf(schema.tables[i]) == Some(prefix)
    && Matches(v, schema.tables[i].name)
  }

  lemma {:induction false} SetIdsCount(schema: string, groups: seq<Group>, prefix: string)
    requires DistinctSets(groups)
    ensures SetIds(schema, groups)[Parts(["shards", schema, prefix])]
            == if exists g <- groups :: g.Set? && g.prefix == prefix then 1 else 0
  {
    if groups != [] {
      var rest := groups[1..];
      assert groups == [groups[0]] + rest;
      assert DistinctSets(rest) by {
        forall i, j | 0 <= i < j < |rest| && rest[i].Set? && rest[j].Set?
          ensures rest[i].prefix != rest[j].prefix
        {
          assert rest[i] == groups[i + 1] && rest[j] == groups[j + 1];
        }
      }
      SetIdsCount(schema, rest, prefix);
      if groups[0].Set? && groups[0].prefix == prefix {
        forall g | g in rest && g.Set?
          ensures g.prefix != prefix
        {
          var j :| 0 <= j < |rest| && rest[j] == g;
          assert groups[j + 1] == g;
        }
      } else {
        assert forall g <- groups :: g == groups[0] || g in rest;
      }
    }
  }

  lemma {:induction false} GroupOfTable(groups: seq<Group>, t: Table) returns (g: Group)
    requires t in AllTables(groups)
    ensures g in groups && t in Tables(g)
  {
    var n := |groups| - 1;
    if t in Tables(groups[n]) {
      g := groups[n];
    } else {
      g := GroupOfTable(groups[..n], t);
    }
  }

  lemma {:induction false} TableOfGroup(groups: seq<Group>, g: Group, t: Table)
    requires g in groups && t in Tables(g)
    ensures t in AllTables(groups)
  {
    var n := |groups| - 1;
    if g != groups[n] {
      TableOfGroup(groups[..n], g, t);
    }
  }

  lemma SetHasAMatch(schema: Schema, v: View, prefix: string)
    ensures (exists g <- GroupsShown(schema, v) :: g.Set? && g.prefix == prefix)
       <==> (exists i :: 0 <= i < |schema.tables| && MatchesInSet(schema, prefix, i, v))
  {
    hide GroupsShown, AllTables, TreeRows.Matching, Matches, Named, HasPeer, Folds, PrefixOf;
    var groups, tables := GroupsShown(schema, v), schema.tables;
    ShownAreRightly(schema, v);
    ShownAreTheMatching(schema, v);
    if g :| g in groups && g.Set? && g.prefix == prefix {
      GroupIsSome(schema, v, g);
      var t := Tables(g)[0];
      TableOfGroup(groups, g, t);
      MatchingCounts(tables, v, t);
      assert t in multiset(AllTables(groups)) && t in multiset(tables);
      var i :| 0 <= i < |tables| && tables[i] == t;
      assert Rightly(tables, g);
      FoldsWithAPeer(tables, i);
      NamedMatches(v, t.name);
      assert MatchesInSet(schema, prefix, i, v);
    }
    if i :| 0 <= i < |tables| && MatchesInSet(schema, prefix, i, v) {
      var t := tables[i];
      NamedMatches(v, t.name);
      MatchingCounts(tables, v, t);
      assert t in multiset(tables) && t in multiset(AllTables(groups));
      var g := GroupOfTable(groups, t);
      FoldsWithAPeer(tables, i);
      assert Rightly(tables, g);
    }
  }

  lemma GroupIsSome(schema: Schema, v: View, g: Group)
    requires g in GroupsShown(schema, v)
    ensures Tables(g) != []
  {
    hide GroupsOf, NarrowedAll, Tables;
    NarrowedAreSome(GroupsOf(schema.tables), v);
  }

  lemma {:induction false} NoSetsOfTables(schema: string, tables: seq<Table>, v: View)
    ensures OfTables(schema, tables, v, ASet) == multiset{}
  {
    if tables != [] {
      NoSetsOfTables(schema, tables[1..], v);
    }
  }

  /** A set has one row, in an open schema, just when a table folded into it matches. */
  lemma SetsAreShown(schema: Schema, v: View, prefix: string)
    ensures Ids(RowsOfSchema(schema, v), ASet)[Parts(["shards", schema.name, prefix])]
            == if && IsOpen(v, ["schema", schema.name])
                  && exists i :: 0 <= i < |schema.tables| && MatchesInSet(schema, prefix, i, v) then 1 else 0
  {
    hide Ids, RowsOfFolders, RowsOfGroups, Folders, Held, OfTables, GroupsShown, CountHeld, CountTables, InAllOpen,
         SetIds, MatchesInSet, DistinctSets;
    var groups, held := GroupsShown(schema, v), Held(Folders(schema, v));
    var rows := RowsOfSchema(schema, v);
    SetHasAMatch(schema, v, prefix);
    NoIds(ASet);
    if Filters(v) && groups == [] && held == [] {
      assert !exists g <- groups :: g.Set? && g.prefix == prefix;
    } else {
      var open := IsOpen(v, ["schema", schema.name]);
      var folders, tables := RowsOfFolders(schema.name, held, v), RowsOfGroups(schema.name, groups, v);
      var under := if open then folders + tables else [];
      assert rows == [rows[0]] + under;
      IdsOfOne(rows[0], ASet);
      IdsJoin([rows[0]], under, ASet);
      IdsJoin(folders, tables, ASet);
      FoldersAreShown(schema, v, ASet);
      GroupsAreShown(schema.name, groups, v, ASet);
      NoSetsOfTables(schema.name, InAllOpen(schema.name, groups, v), v);
      assert DistinctSets(groups) by { SetsStayDistinct(schema, v); }
      SetIdsCount(schema.name, groups, prefix);
    }
  }

  lemma SetsStayDistinct(schema: Schema, v: View)
    ensures DistinctSets(GroupsShown(schema, v))
  {
    hide GroupsOf, NarrowedAll, DistinctSets, IsWholeSet, Folds;
    FoldingKeepsTheTables(schema.tables);
    TreeIds.NarrowedStaysDistinct(GroupsOf(schema.tables), v);
  }

  // ---- what a schema's row counts ----

  ghost function TablesMatching(tables: seq<Table>, v: View): nat {
    if tables == [] then 0
    else TablesMatching(tables[..|tables| - 1], v) + if Matches(v, tables[|tables| - 1].name) then 1 else 0
  }

  lemma {:induction false} MatchingAreCounted(tables: seq<Table>, v: View)
    ensures |TreeRows.Matching(tables, v)| == TablesMatching(tables, v)
  {
    hide Matches, Named;
    if tables != [] {
      MatchingAreCounted(tables[..|tables| - 1], v);
      NamedMatches(v, tables[|tables| - 1].name);
    }
  }

  lemma {:induction false} CountIsOfFlat(groups: seq<Group>)
    ensures CountTables(groups) == |Flat(groups)|
  {
    if groups != [] {
      CountIsOfFlat(groups[1..]);
    }
  }

  lemma HeldCount(folders: seq<Folder>, from: nat)
    requires |folders| == 3
    ensures CountHeld(Held(folders), from) == from + folders[0].count + folders[1].count + folders[2].count
  {
    var a, b, c := folders[0], folders[1], folders[2];
    assert folders == [a, b, c] && folders[1..] == [b, c] && [b, c][1..] == [c] && [c][1..] == [];
    HeldCounts([], from);
    HeldCounts([c], from + a.count + b.count);
    HeldCounts([b, c], from + a.count);
    HeldCounts(folders, from);
  }

  lemma HeldCounts(folders: seq<Folder>, from: nat)
    ensures CountHeld(Held(folders), from)
            == if folders == [] then from else CountHeld(Held(folders[1..]), from + folders[0].count)
  {
    if folders != [] && folders[0].count > 0 {
      assert Held(folders)[1..] == Held(folders[1..]);
    } else if folders != [] {
      assert Held(folders) == Held(folders[1..]);
    }
  }

  /** A schema's row counts all of it that matches, and says whether it is open. */
  lemma ItemsAreCounted(schema: Schema, v: View)
    requires !Filters(v) || HasMatch(schema, v)
    ensures RowsOfSchema(schema, v) != []
    ensures RowsOfSchema(schema, v)[0].shown == SchemaRow(
        schema.name,
        TablesMatching(schema.tables, v) + |RoutineIds(schema.name, schema.routines, v)|
        + |SequenceIds(schema.name, schema.sequences, v)| + |TypeIds(schema.name, schema.types, v)|,
        IsOpen(v, ["schema", schema.name]))
  {
    hide RowsOfFolders, RowsOfGroups, Held, GroupsShown, CountHeld, CountTables, Ids, RoutineIds, SequenceIds, TypeIds,
         MemberIds, RoutineRows, SequenceRows, RowsOfTypes, RoutinesShown, NamesShown, TypesShown, TreeRows.Matching,
         Flat, AllTables;
    var groups, folders := GroupsShown(schema, v), Folders(schema, v);
    NoTableMatches(schema, v);
    NoFolderMatches(schema, v);
    assert groups == [] && Held(folders) == [] <==> !HasMatch(schema, v);
    HeldCount(folders, CountTables(groups));
    CountIsOfFlat(groups);
    FlatIsAll(groups);
    ShownAreTheMatching(schema, v);
    assert |Flat(groups)| == |multiset(AllTables(groups))| == |TreeRows.Matching(schema.tables, v)|;
    MatchingAreCounted(schema.tables, v);
    RoutinesAreShown(schema.name, schema.routines, v, ANote);
    SequencesAreShown(schema.name, schema.sequences, v, ANote);
    TypesAreShown(schema.name, schema.types, v, ANote);
  }
}
