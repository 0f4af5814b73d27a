/** Sets of shards, each folded where it first appears (`shardGroups` of `src/features/schema-tree/rows.ts`). */
module ShardGroups {
  import opened Basics
  import Chars
  import opened Shards

  datatype TableKind = Plain | View | MaterializedView | ForeignTable

  datatype Table = Table(name: string, kind: TableKind, comment: Option<string>)

  datatype Group = One(table: Table) | Set(prefix: string, shards: seq<Table>)

  function PrefixOf(table: Table): Option<string> {
    if table.kind.Plain? then ShardPrefix(table.name) else None
  }

  // ---- what the groups are ----

  /** Of the first `m` tables, those of a prefix. */
  function ShardsOf(tables: seq<Table>, m: nat, prefix: string): seq<Table>
    requires m <= |tables|
  {
    if m == 0 then []
    else ShardsOf(tables, m - 1, prefix)
         + (if PrefixOf(tables[m - 1]) == Some(prefix) then [tables[m - 1]] else [])
  }

  /** A table is folded when another has its prefix too. */
  predicate Folds(tables: seq<Table>, table: Table) {
    PrefixOf(table).Some? && |ShardsOf(tables, |tables|, PrefixOf(table).value)| >= 2
  }

  predicate IsFirst(tables: seq<Table>, i: nat)
    requires i < |tables|
  {
    forall j :: 0 <= j < i ==> PrefixOf(tables[j]) != PrefixOf(tables[i])
  }

  /** The groups of the first `n` tables, each set with what the first `m` have of it. */
  function GroupsUpTo(tables: seq<Table>, n: nat, m: nat): seq<Group>
    requires n <= |tables| && m <= |tables|
  {
    if n == 0 then []
    else GroupsUpTo(tables, n - 1, m) + GroupAt(tables, n - 1, m)
  }

  function GroupAt(tables: seq<Table>, i: nat, m: nat): seq<Group>
    requires i < |tables| && m <= |tables|
  {
    var table := tables[i];
    if !Folds(tables, table) then [One(table)]
    else if IsFirst(tables, i) then [Set(PrefixOf(table).value, ShardsOf(tables, m, PrefixOf(table).value))]
    else []
  }

  /** Sorts after: two shards of one prefix by their names. */
  predicate Newer(a: Table, b: Table) {
    PrefixOf(a).Some? && PrefixOf(b).Some? && SortsAfter(a.name, b.name)
  }

  function Inserted(table: Table, shards: seq<Table>): seq<Table> {
    if shards == [] || !Newer(shards[0], table) then [table] + shards
    else [shards[0]] + Inserted(table, shards[1..])
  }

  /** A stable sort, the newest first. */
  function NewestFirst(shards: seq<Table>): seq<Table> {
    if shards == [] then [] else Inserted(shards[0], NewestFirst(shards[1..]))
  }

  function Arranged(group: Group): Group {
    if group.Set? then group.(shards := NewestFirst(group.shards)) else group
  }

  function ArrangedAll(groups: seq<Group>): (arranged: seq<Group>)
    ensures |arranged| == |groups|
    ensures forall k :: 0 <= k < |groups| ==> arranged[k] == Arranged(groups[k])
  {
    seq(|groups|, k requires 0 <= k < |groups| => Arranged(groups[k]))
  }

  function GroupsOf(tables: seq<Table>): seq<Group> {
    ArrangedAll(GroupsUpTo(tables, |tables|, |tables|))
  }

  // ---- the loops ----

  ghost predicate Counted(tables: seq<Table>, m: nat, counts: map<string, nat>)
    requires m <= |tables|
  {
    forall prefix :: |ShardsOf(tables, m, prefix)| == if prefix in counts then counts[prefix] else 0
  }

  function CountedOn(counts: map<string, nat>, prefix: Option<string>): map<string, nat> {
    if prefix.None? then counts
    else counts[prefix.value := (if prefix.value in counts then counts[prefix.value] else 0) + 1]
  }

  lemma CountedNext(tables: seq<Table>, m: nat, counts: map<string, nat>)
    requires m < |tables| && Counted(tables, m, counts)
    ensures Counted(tables, m + 1, CountedOn(counts, PrefixOf(tables[m])))
  {
    hide PrefixOf, ShardsOf;
    var more := CountedOn(counts, PrefixOf(tables[m]));
    forall prefix
      ensures |ShardsOf(tables, m + 1, prefix)| == if prefix in more then more[prefix] else 0
    {
      OneMoreShard(tables, m, prefix);
    }
  }

  lemma OneMoreShard(tables: seq<Table>, m: nat, prefix: string)
    requires m < |tables|
    ensures ShardsOf(tables, m + 1, prefix)
            == ShardsOf(tables, m, prefix) + (if PrefixOf(tables[m]) == Some(prefix) then [tables[m]] else [])
  {}

  method Count(tables: seq<Table>) returns (counts: map<string, nat>)
    ensures Counted(tables, |tables|, counts)
  {
    counts := map[];
    assert Counted(tables, 0, counts);
    for i := 0 to |tables|
      invariant Counted(tables, i, counts)
    {
      hide Counted, PrefixOf;
      var prefix := PrefixOf(tables[i]);
      CountedNext(tables, i, counts);
      if prefix.Some? {
        counts := counts[prefix.value := (if prefix.value in counts then counts[prefix.value] else 0) + 1];
      }
    }
  }

  ghost predicate IsSet(groups: seq<Group>, k: nat, prefix: string) {
    k < |groups| && groups[k].Set? && groups[k].prefix == prefix
  }

  /** Where the sets started so far are, of the first `n` tables. */
  ghost predicate StartedAt(tables: seq<Table>, n: nat, groups: seq<Group>, started: map<string, nat>)
    requires n <= |tables|
  {
    && (forall prefix <- started :: IsSet(groups, started[prefix], prefix))
    && (forall j :: 0 <= j < n && Folds(tables, tables[j]) ==> PrefixOf(tables[j]).value in started)
    && (forall prefix <- started :: exists j :: 0 <= j < n && PrefixOf(tables[j]) == Some(prefix))
  }

  ghost predicate DistinctSets(groups: seq<Group>) {
    forall i, j :: 0 <= i < j < |groups| && groups[i].Set? && groups[j].Set? ==> groups[i].prefix != groups[j].prefix
  }

  /** No two sets have one prefix, and each is that of a table. */
  lemma {:induction false} SetsAreDistinct(tables: seq<Table>, n: nat, m: nat)
    requires n <= |tables| && m <= |tables|
    ensures DistinctSets(GroupsUpTo(tables, n, m))
    ensures forall g <- GroupsUpTo(tables, n, m) :: g.Set? ==>
              exists j :: 0 <= j < n && Folds(tables, tables[j]) && PrefixOf(tables[j]) == Some(g.prefix)
    ensures forall g <- GroupsUpTo(tables, n, m) :: g.Set? ==> g.shards == ShardsOf(tables, m, g.prefix)
  {
    hide ShardsOf, PrefixOf;
    if n > 0 {
      SetsAreDistinct(tables, n - 1, m);
      var before, last := GroupsUpTo(tables, n - 1, m), GroupAt(tables, n - 1, m);
      forall i | 0 <= i < |before| && before[i].Set? && last != [] && last[0].Set?
        ensures before[i].prefix != last[0].prefix
      {
        assert before[i] in before;
      }
    }
  }

  /** One more table shown is added to its set and changes no other group. */
  lemma {:induction false} OneMoreShown(tables: seq<Table>, n: nat, m: nat, k: nat)
    requires n <= |tables| && m < |tables| && k < |GroupsUpTo(tables, n, m)|
    ensures |GroupsUpTo(tables, n, m + 1)| == |GroupsUpTo(tables, n, m)|
    ensures var g := GroupsUpTo(tables, n, m)[k];
      GroupsUpTo(tables, n, m + 1)[k]
      == if g.Set? && PrefixOf(tables[m]) == Some(g.prefix) then g.(shards := g.shards + [tables[m]]) else g
  {
    hide PrefixOf, Folds, IsFirst;
    SameLength(tables, n, m);
    if n > 0 {
      SameLength(tables, n - 1, m);
      if k < |GroupsUpTo(tables, n - 1, m)| {
        OneMoreShown(tables, n - 1, m, k);
      }
    }
  }

  lemma {:induction false} SameLength(tables: seq<Table>, n: nat, m: nat)
    requires n <= |tables| && m < |tables|
    ensures |GroupsUpTo(tables, n, m + 1)| == |GroupsUpTo(tables, n, m)|
  {
    hide PrefixOf, Folds, IsFirst, ShardsOf;
    if n > 0 {
      SameLength(tables, n - 1, m);
    }
  }

  lemma {:induction false} NoneShown(tables: seq<Table>, m: nat, prefix: string)
    requires m <= |tables| && forall j :: 0 <= j < m ==> PrefixOf(tables[j]) != Some(prefix)
    ensures ShardsOf(tables, m, prefix) == []
  {
    hide PrefixOf;
    if m > 0 {
      NoneShown(tables, m - 1, prefix);
    }
  }

  /** With table `n` shown, a group is as it was, but for the set it is of. */
  ghost predicate ShownIn(tables: seq<Table>, n: nat, was: seq<Group>, now: seq<Group>)
    requires n < |tables|
  {
    |now| == |was| && forall k :: 0 <= k < |was| ==> ShownAt(tables[n], was[k], now[k])
  }

  predicate ShownAt(table: Table, was: Group, now: Group) {
    now == if was.Set? && PrefixOf(table) == Some(was.prefix) then was.(shards := was.shards + [table]) else was
  }

  lemma ShownNext(tables: seq<Table>, n: nat)
    requires n < |tables|
    ensures ShownIn(tables, n, GroupsUpTo(tables, n, n), GroupsUpTo(tables, n, n + 1))
    ensures GroupsUpTo(tables, n + 1, n + 1) == GroupsUpTo(tables, n, n + 1) + GroupAt(tables, n, n + 1)
  {
    hide GroupAt, PrefixOf;
    SameLength(tables, n, n);
    forall k | 0 <= k < |GroupsUpTo(tables, n, n)|
      ensures ShownAt(tables[n], GroupsUpTo(tables, n, n)[k], GroupsUpTo(tables, n, n + 1)[k])
    {
      OneMoreShown(tables, n, n, k);
    }
  }

  lemma LoneNext(tables: seq<Table>, n: nat)
    requires n < |tables| && !Folds(tables, tables[n])
    ensures GroupsUpTo(tables, n + 1, n + 1) == GroupsUpTo(tables, n, n) + [One(tables[n])]
  {
    hide PrefixOf, GroupsUpTo, ShardsOf;
    var was, now := GroupsUpTo(tables, n, n), GroupsUpTo(tables, n, n + 1);
    ShownNext(tables, n);
    SetsAreDistinct(tables, n, n);
    forall k | 0 <= k < |was|
      ensures now[k] == was[k]
    {
      assert was[k] in was;
      assert ShownAt(tables[n], was[k], now[k]);
    }
    assert now == was;
  }

  lemma FirstNext(tables: seq<Table>, n: nat)
    requires n < |tables| && Folds(tables, tables[n]) && IsFirst(tables, n)
    ensures GroupsUpTo(tables, n + 1, n + 1)
            == GroupsUpTo(tables, n, n) + [Set(PrefixOf(tables[n]).value, [tables[n]])]
  {
    hide PrefixOf, GroupsUpTo;
    var was, now := GroupsUpTo(tables, n, n), GroupsUpTo(tables, n, n + 1);
    ShownNext(tables, n);
    SetsAreDistinct(tables, n, n);
    NoneShown(tables, n, PrefixOf(tables[n]).value);
    OneMoreShard(tables, n, PrefixOf(tables[n]).value);
    assert ShardsOf(tables, n + 1, PrefixOf(tables[n]).value) == [tables[n]];
    forall k | 0 <= k < |was|
      ensures now[k] == was[k]
    {
      assert was[k] in was;
      assert ShownAt(tables[n], was[k], now[k]);
    }
    assert now == was;
  }

  lemma LaterNext(tables: seq<Table>, n: nat, k: nat)
    requires n < |tables| && Folds(tables, tables[n]) && !IsFirst(tables, n)
    requires IsSet(GroupsUpTo(tables, n, n), k, PrefixOf(tables[n]).value)
    ensures var was := GroupsUpTo(tables, n, n);
      GroupsUpTo(tables, n + 1, n + 1) == was[k := was[k].(shards := was[k].shards + [tables[n]])]
  {
    hide PrefixOf, GroupsUpTo, ShardsOf;
    var was, now := GroupsUpTo(tables, n, n), GroupsUpTo(tables, n, n + 1);
    ShownNext(tables, n);
    SetsAreDistinct(tables, n, n);
    forall j | 0 <= j < |was|
      ensures now[j] == was[k := was[k].(shards := was[k].shards + [tables[n]])][j]
    {
      assert ShownAt(tables[n], was[j], now[j]);
    }
    assert now == was[k := was[k].(shards := was[k].shards + [tables[n]])];
  }

  /** Two passes over the tables, counting prefixes and then grouping, and a sort of each set. */
  method Fold(tables: seq<Table>) returns (groups: seq<Group>)
    ensures groups == GroupsOf(tables)
  {
    hide PrefixOf, GroupsUpTo, ShardsOf;
    var counts := Count(tables);
    groups := [];
    var started: map<string, nat> := map[];
    assert GroupsUpTo(tables, 0, 0) == [] by { NoGroups(tables); }
    for i := 0 to |tables|
      invariant groups == GroupsUpTo(tables, i, i)
      invariant StartedAt(tables, i, groups, started)
    {
      var table := tables[i];
      var prefix := PrefixOf(table);
      if prefix.None? || prefix.value !in counts || counts[prefix.value] < 2 {
        LoneNext(tables, i);
        groups := groups + [One(table)];
      } else if prefix.value in started {
        var k := started[prefix.value];
        LaterNext(tables, i, k);
        groups := groups[k := Set(prefix.value, groups[k].shards + [table])];
      } else {
        FirstNext(tables, i);
        started := started[prefix.value := |groups|];
        groups := groups + [Set(prefix.value, [table])];
      }
    }
    ghost var folded := groups;
    for k := 0 to |groups|
      invariant |groups| == |folded|
      invariant forall j :: 0 <= j < |folded| ==> groups[j] == if j < k then Arranged(folded[j]) else folded[j]
    {
      if groups[k].Set? {
        groups := groups[k := groups[k].(shards := NewestFirst(groups[k].shards))];
      }
    }
    assert groups == ArrangedAll(folded);
  }

  lemma NoGroups(tables: seq<Table>)
    ensures GroupsUpTo(tables, 0, 0) == []
  {}

  // ---- what the groups keep of the tables ----

  function Tables(group: Group): seq<Table> {
    if group.One? then [group.table] else group.shards
  }

  function AllTables(groups: seq<Group>): seq<Table> {
    if groups == [] then [] else AllTables(groups[..|groups| - 1]) + Tables(groups[|groups| - 1])
  }

  lemma LastGroup(groups: seq<Group>)
    requires groups != []
    ensures multiset(AllTables(groups))
            == multiset(AllTables(groups[..|groups| - 1])) + multiset(Tables(groups[|groups| - 1]))
  {}

  lemma {:induction false} OneMoreIn(groups: seq<Group>, k: nat, table: Table)
    requires k < |groups| && groups[k].Set?
    ensures multiset(AllTables(groups[k := groups[k].(shards := groups[k].shards + [table])]))
            == multiset(AllTables(groups)) + multiset{table}
  {
    hide AllTables;
    var n := |groups| - 1;
    var more := groups[k := groups[k].(shards := groups[k].shards + [table])];
    LastGroup(groups);
    LastGroup(more);
    if k < n {
      OneMoreIn(groups[..n], k, table);
      assert more[..n] == groups[..n][k := groups[k].(shards := groups[k].shards + [table])];
    } else {
      assert more[..n] == groups[..n];
    }
  }

  lemma OneMoreAfter(groups: seq<Group>, group: Group)
    ensures AllTables(groups + [group]) == AllTables(groups) + Tables(group)
  {
    assert (groups + [group])[..|groups|] == groups;
  }

  lemma {:induction false} GroupsHoldTheTables(tables: seq<Table>, n: nat)
    requires n <= |tables|
    ensures multiset(AllTables(GroupsUpTo(tables, n, n))) == multiset(tables[..n])
  {
    hide PrefixOf, GroupsUpTo, ShardsOf, AllTables;
    if n == 0 {
      NoGroups(tables);
      assert AllTables([]) == [] by { NoTables(); }
    } else {
      var was, table := GroupsUpTo(tables, n - 1, n - 1), tables[n - 1];
      GroupsHoldTheTables(tables, n - 1);
      assert tables[..n] == tables[..n - 1] + [table];
      if !Folds(tables, table) {
        LoneNext(tables, n - 1);
        OneMoreAfter(was, One(table));
      } else if IsFirst(tables, n - 1) {
        FirstNext(tables, n - 1);
        OneMoreAfter(was, Set(PrefixOf(table).value, [table]));
      } else {
        var k := SetOf(tables, n - 1);
        LaterNext(tables, n - 1, k);
        OneMoreIn(was, k, table);
      }
    }
  }

  lemma NoTables()
    ensures AllTables([]) == []
  {}

  /** A folded table that is not the first of its prefix has a set to go to. */
  lemma {:induction false} SetOf(tables: seq<Table>, n: nat) returns (k: nat)
    requires n < |tables| && Folds(tables, tables[n]) && !IsFirst(tables, n)
    ensures IsSet(GroupsUpTo(tables, n, n), k, PrefixOf(tables[n]).value)
  {
    hide PrefixOf, ShardsOf, GroupsUpTo;
    var j := FirstOf(tables, n);
    FirstNext(tables, j);
    k := |GroupsUpTo(tables, j, j)|;
    SetStays(tables, j + 1, n, k);
  }

  /** Where a table's prefix first appears. */
  lemma {:induction false} FirstOf(tables: seq<Table>, n: nat) returns (j: nat)
    requires n < |tables| && !IsFirst(tables, n)
    ensures j < n && PrefixOf(tables[j]) == PrefixOf(tables[n]) && IsFirst(tables, j)
  {
    hide PrefixOf;
    j :| 0 <= j < n && PrefixOf(tables[j]) == PrefixOf(tables[n]);
    if !IsFirst(tables, j) {
      j := FirstOf(tables, j);
    }
  }

  lemma {:induction false} SetStays(tables: seq<Table>, n: nat, m: nat, k: nat)
    requires n <= m <= |tables| && k < |GroupsUpTo(tables, n, n)| && GroupsUpTo(tables, n, n)[k].Set?
    ensures IsSet(GroupsUpTo(tables, m, m), k, GroupsUpTo(tables, n, n)[k].prefix)
    decreases m - n
  {
    hide PrefixOf, ShardsOf, GroupsUpTo, GroupAt;
    if n < m {
      ShownNext(tables, n);
      assert ShownAt(tables[n], GroupsUpTo(tables, n, n)[k], GroupsUpTo(tables, n, n + 1)[k]);
      SetStays(tables, n + 1, m, k);
    }
  }

  // ---- sorting keeps the shards and puts the newest first ----

  ghost predicate AllShards(shards: seq<Table>) {
    forall t <- shards :: PrefixOf(t).Some?
  }

  predicate NotNewer(b: Table, a: Table) {
    PrefixOf(a).Some? && PrefixOf(b).Some? && DayNumber(b.name) <= DayNumber(a.name)
  }

  ghost predicate Descending(shards: seq<Table>) {
    forall i, j :: 0 <= i < j < |shards| ==> NotNewer(shards[j], shards[i])
  }

  lemma NewerByDay(a: Table, b: Table)
    requires PrefixOf(a).Some? && PrefixOf(b).Some?
    ensures Newer(a, b) <==> !NotNewer(a, b)
  {
    NamesSortAsDays(a.name, b.name);
  }

  lemma {:induction false} InsertedKeeps(table: Table, shards: seq<Table>)
    ensures multiset(Inserted(table, shards)) == multiset(shards) + multiset{table}
  {
    hide Newer;
    if shards != [] {
      assert shards == [shards[0]] + shards[1..];
      InsertedKeeps(table, shards[1..]);
    }
  }

  lemma NotNewerIsAnOrder(a: Table, b: Table, c: Table)
    requires NotNewer(b, a) && NotNewer(c, b)
    ensures NotNewer(c, a)
  {}

  lemma {:induction false} InsertedDescends(table: Table, shards: seq<Table>)
    requires PrefixOf(table).Some? && AllShards(shards) && Descending(shards)
    ensures Descending(Inserted(table, shards))
  {
    hide Newer, NotNewer, PrefixOf;
    if shards == [] {
    } else {
      var head, rest := shards[0], shards[1..];
      assert head in shards;
      NewerByDay(head, table);
      NewerOtherwise(head, table);
      if Newer(head, table) {
        assert AllShards(rest) by { assert forall t <- rest :: t in shards; }
        assert Descending(rest);
        InsertedDescends(table, rest);
        InsertedKeeps(table, rest);
        var more := Inserted(table, rest);
        forall j | 0 <= j < |more|
          ensures NotNewer(more[j], head)
        {
          assert more[j] in multiset(more);
          if more[j] != table {
            assert more[j] in rest;
            var k :| 0 <= k < |rest| && rest[k] == more[j];
            assert shards[k + 1] == more[j];
          }
        }
      } else {
        forall j | 0 <= j < |shards|
          ensures NotNewer(shards[j], table)
        {
          if j > 0 {
            NotNewerIsAnOrder(table, head, shards[j]);
          }
        }
      }
    }
  }

  lemma NewerOtherwise(a: Table, b: Table)
    requires PrefixOf(a).Some? && PrefixOf(b).Some?
    ensures NotNewer(a, b) || NotNewer(b, a)
  {}

  lemma {:induction false} SortedDescends(shards: seq<Table>)
    requires AllShards(shards)
    ensures multiset(NewestFirst(shards)) == multiset(shards)
    ensures Descending(NewestFirst(shards)) && AllShards(NewestFirst(shards))
  {
    hide PrefixOf, NotNewer, Inserted;
    if shards != [] {
      assert shards == [shards[0]] + shards[1..];
      assert AllShards(shards[1..]) by { assert forall t <- shards[1..] :: t in shards; }
      SortedDescends(shards[1..]);
      InsertedKeeps(shards[0], NewestFirst(shards[1..]));
      InsertedDescends(shards[0], NewestFirst(shards[1..]));
      forall t | t in NewestFirst(shards)
        ensures PrefixOf(t).Some?
      {
        assert t in multiset(NewestFirst(shards));
        assert t in shards;
      }
    }
  }

  lemma {:induction false} ShardsAreOfThePrefix(tables: seq<Table>, m: nat, prefix: string)
    requires m <= |tables|
    ensures forall t <- ShardsOf(tables, m, prefix) :: PrefixOf(t) == Some(prefix)
  {
    hide PrefixOf;
    if m > 0 {
      ShardsAreOfThePrefix(tables, m - 1, prefix);
    }
  }

  lemma {:induction false} LonersDoNotFold(tables: seq<Table>, n: nat, m: nat)
    requires n <= |tables| && m <= |tables|
    ensures forall g <- GroupsUpTo(tables, n, m) :: g.One? ==> !Folds(tables, g.table)
  {
    hide Folds;
    if n > 0 {
      LonersDoNotFold(tables, n - 1, m);
    }
  }

  /** A set has all the tables of its prefix, two at least, the newest first. */
  ghost predicate IsWholeSet(tables: seq<Table>, g: Group)
    requires g.Set?
  {
    && |g.shards| >= 2 && multiset(g.shards) == multiset(ShardsOf(tables, |tables|, g.prefix))
    && (forall t <- g.shards :: PrefixOf(t) == Some(g.prefix)) && Descending(g.shards)
  }

  /**
   * Folding loses no table and makes none; a set is all of a prefix of two
   * tables or more, each prefix's once, and every other table is alone.
   */
  lemma FoldingKeepsTheTables(tables: seq<Table>)
    ensures multiset(AllTables(GroupsOf(tables))) == multiset(tables)
    ensures DistinctSets(GroupsOf(tables))
    ensures forall g <- GroupsOf(tables) :: if g.Set? then IsWholeSet(tables, g) else !Folds(tables, g.table)
  {
    hide GroupsUpTo, ShardsOf, AllTables, NewestFirst, DayNumber;
    var groups := GroupsUpTo(tables, |tables|, |tables|);
    GroupsHoldTheTables(tables, |tables|);
    assert tables[..|tables|] == tables;
    SetsAreDistinct(tables, |tables|, |tables|);
    LonersDoNotFold(tables, |tables|, |tables|);
    forall k | 0 <= k < |groups|
      ensures multiset(Tables(Arranged(groups[k]))) == multiset(Tables(groups[k]))
      ensures var g := Arranged(groups[k]); if g.Set? then IsWholeSet(tables, g) else !Folds(tables, g.table)
    {
      assert groups[k] in groups;
      if groups[k].Set? {
        SetIsWhole(tables, groups[k]);
      }
    }
    ArrangingKeeps(groups);
  }

  lemma SetIsWhole(tables: seq<Table>, g: Group)
    requires g.Set? && g.shards == ShardsOf(tables, |tables|, g.prefix) && |g.shards| >= 2
    ensures IsWholeSet(tables, Arranged(g)) && multiset(Arranged(g).shards) == multiset(g.shards)
  {
    hide PrefixOf, ShardsOf, NewestFirst;
    ShardsAreOfThePrefix(tables, |tables|, g.prefix);
    SortedDescends(g.shards);
    var sorted := NewestFirst(g.shards);
    assert |sorted| == |multiset(sorted)| == |g.shards|;
    forall t | t in sorted
      ensures PrefixOf(t) == Some(g.prefix)
    {
      assert t in multiset(sorted);
      assert t in g.shards;
    }
  }

  lemma {:induction false} ArrangingKeeps(groups: seq<Group>)
    requires forall k :: 0 <= k < |groups| ==> multiset(Tables(Arranged(groups[k]))) == multiset(Tables(groups[k]))
    ensures multiset(AllTables(ArrangedAll(groups))) == multiset(AllTables(groups))
  {
    hide Arranged, Tables;
    if groups != [] {
      var n := |groups| - 1;
      assert ArrangedAll(groups)[..n] == ArrangedAll(groups[..n]);
      ArrangingKeeps(groups[..n]);
    }
  }

  // ---- the order of the groups ----

  /** A table alone stands where it is, and a set where its prefix first appears. */
  ghost predicate StandsAt(tables: seq<Table>, group: Group, i: nat) {
    && i < |tables|
    && match group
       case One(table) => tables[i] == table
       case Set(prefix, _) =>
         PrefixOf(tables[i]) == Some(prefix) && forall j :: 0 <= j < i ==> PrefixOf(tables[j]) != Some(prefix)
  }

  ghost predicate Increasing(at: seq<nat>) {
    forall i, j :: 0 <= i < j < |at| ==> at[i] < at[j]
  }

  lemma {:induction false} GroupsStandUpTo(tables: seq<Table>, n: nat, m: nat) returns (at: seq<nat>)
    requires n <= |tables| && m <= |tables|
    ensures |at| == |GroupsUpTo(tables, n, m)| && Increasing(at)
    ensures forall k :: 0 <= k < |at| ==> at[k] < n && StandsAt(tables, GroupsUpTo(tables, n, m)[k], at[k])
  {
    hide PrefixOf, ShardsOf;
    if n == 0 {
      at := [];
    } else {
      at := GroupsStandUpTo(tables, n - 1, m);
      var own := GroupAt(tables, n - 1, m);
      if own != [] {
        assert |own| == 1 && StandsAt(tables, own[0], n - 1);
        at := at + [n - 1];
      }
    }
  }

  /** The groups come in the order of the tables, a set where the first of its shards does. */
  lemma GroupsKeepTheOrder(tables: seq<Table>) returns (at: seq<nat>)
    ensures |at| == |GroupsOf(tables)| && Increasing(at)
    ensures forall k :: 0 <= k < |at| ==> StandsAt(tables, GroupsOf(tables)[k], at[k])
  {
    hide PrefixOf, GroupsUpTo, NewestFirst;
    at := GroupsStandUpTo(tables, |tables|, |tables|);
    forall k | 0 <= k < |at|
      ensures StandsAt(tables, GroupsOf(tables)[k], at[k])
    {
      assert StandsAt(tables, GroupsUpTo(tables, |tables|, |tables|)[k], at[k]);
    }
  }

  /** Only a table is a shard, and of a day: a view is none, whatever its name. */
  lemma OnlyTablesAreShards(table: Table, prefix: string)
    ensures PrefixOf(table) == Some(prefix) <==>
      && table.kind == Plain && prefix != "" && Chars.OneLine(prefix)
      && exists date :: IsDay(date) && table.name == prefix + "_" + Dated(date)
  {
    ShardIsADay(table.name, prefix);
  }
}
