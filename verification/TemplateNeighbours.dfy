/**
 * Why `TemplateTheorems.Fits` asks what it asks: for every neighbourhood of a
 * blank it leaves out, a statement with a blank there, and a value that hides
 * another blank when it is written in, or shows one that was not there.
 */
module TemplateNeighbours {
  import opened Basics
  import opened Chars
  import opened TemplateScanner
  import opened TemplateLocality
  import opened TemplateLiterals
  import opened TemplateFilling
  import opened TemplateSeams
  import opened TemplateJoins
  import opened TemplateTheorems

  // ---- a statement that starts as another does ----

  /** The `i`th blank found, where it is the first of its name. */
  ghost predicate FirstOfItsName(sql: string, driver: Driver, i: nat) {
    && i < |Blanks(sql, driver)|
    && forall j :: 0 <= j < i ==> Blanks(sql, driver)[j].name != Blanks(sql, driver)[i].name
  }

  /** `w` is `sql` up to the end of the blank `b`, and the character after it, and then anything. */
  ghost predicate Starts(sql: string, w: string, b: Blank) {
    && b.start < b.end <= |sql| && b.end <= |w| && sql[..b.end] == w[..b.end]
    && AheadOf(sql, b.end) == AheadOf(w, b.end)
  }

  lemma BlankStays(sql: string, w: string, at: nat)
    requires IsBlank(sql, at) && Starts(sql, w, BlankAt(sql, at))
    ensures IsBlank(w, at) && BlankAt(w, at) == BlankAt(sql, at)
  {
    var end := NameEnd(sql, at + 1);
    forall i | at <= i < end
      ensures sql[i] == w[i]
    {
      assert sql[..end][i] == w[..end][i];
    }
    NameRunThrough(w, at + 2, end);
    assert end < |w| ==> [w[end]] == AheadOf(w, end) == AheadOf(sql, end);
    assert NameRun(w, end) == end;
    assert sql[at + 1..end] == sql[..end][at + 1..] == w[at + 1..end];
  }

  /** Two statements that are the same up to a place past `until`. */
  ghost predicate SamePast(a: string, b: string, until: nat) {
    until + 1 < |a| && until + 1 < |b| && a[..until + 1] == b[..until + 1]
  }

  lemma SameWindow(a: string, b: string, at: nat, hi: nat)
    requires at <= hi < |a| && hi < |b| && a[..hi] == b[..hi]
    ensures Window(a, b, 0, at, hi)
    ensures forall driver :: EscapesAlike(driver, a, at, b, at)
  {
    forall i {:trigger a[i]} | 0 <= i < hi
      ensures a[i] == b[i]
    {
      assert a[..hi][i] == b[..hi][i];
    }
  }

  /** An earlier blank is found in both. */
  lemma EarlierBlankStays(a: string, b: string, until: nat, at: nat)
    requires SamePast(a, b, until) && IsBlank(a, at) && BlankAt(a, at).end <= until
    ensures IsBlank(b, at) && BlankAt(b, at) == BlankAt(a, at)
  {
    var end := BlankAt(a, at).end;
    assert a[..end] == a[..until + 1][..end] == b[..until + 1][..end] == b[..end];
    assert a[end] == a[..until + 1][end] == b[..until + 1][end] == b[end];
    BlankStays(a, b, at);
  }

  /** Past a turn before it, a blank is still to come, with the one before it. */
  lemma Advance(sql: string, driver: Driver, at: nat, j: nat) returns (k: nat)
    requires at <= |sql| && j < |BlanksFrom(sql, driver, at)| && at < BlanksFrom(sql, driver, at)[j].start
    ensures at < |sql| && j == if IsBlank(sql, at) then k + 1 else k
    ensures var blanks, rest := BlanksFrom(sql, driver, at), BlanksFrom(sql, driver, Next(sql, driver, at));
      && Next(sql, driver, at) <= blanks[j].start && k < |rest| && rest[k] == blanks[j] && (k > 0 ==> rest[k - 1] == blanks[j - 1])
      && blanks == (if IsBlank(sql, at) then [BlankAt(sql, at)] else []) + rest
      && (IsBlank(sql, at) ==> BlankAt(sql, at).end == Next(sql, driver, at))
  {
    hide Next, IsBlank;
    FromABlank(sql, driver, at, j);
    BlanksTurn(sql, driver, at);
    NotTheFirst(sql, driver, at, j);
    k := if IsBlank(sql, at) then j - 1 else j;
    assert BlanksFrom(sql, driver, Next(sql, driver, at))[k] == BlanksFrom(sql, driver, at)[j];
    FromABlank(sql, driver, Next(sql, driver, at), k);
    if IsBlank(sql, at) {
      BlankEnds(sql, driver, at);
    }
  }

  /** A turn both make alike adds the same blank to what is found after it. */
  lemma CopiedTurn(a: string, b: string, driver: Driver, at: nat, found: seq<Blank>, rest: seq<Blank>)
    requires at < |a| && at < |b| && Next(a, driver, at) == Next(b, driver, at) && (IsBlank(a, at) <==> IsBlank(b, at))
    requires IsBlank(a, at) ==> BlankAt(a, at) == BlankAt(b, at)
    requires BlanksFrom(b, driver, Next(b, driver, at)) == found + rest
    ensures BlanksFrom(b, driver, at) == (if IsBlank(a, at) then [BlankAt(a, at)] else []) + found + rest
  {
    hide Next, IsBlank, BlankAt;
    BlanksTurn(b, driver, at);
    if IsBlank(a, at) {
      Associates([BlankAt(a, at)], found, rest);
    }
  }

  /** Where one scan comes to a blank, the other comes too, with the same blanks found before. */
  lemma {:induction false} SameUpTo(a: string, b: string, driver: Driver, at: nat, j: nat)
    requires at <= |a| && j < |BlanksFrom(a, driver, at)| && SamePast(a, b, BlanksFrom(a, driver, at)[j].start)
    ensures var s := BlanksFrom(a, driver, at)[j].start;
      at <= s < |b| && BlanksFrom(b, driver, at) == BlanksFrom(a, driver, at)[..j] + BlanksFrom(b, driver, s)
    decreases |a| - at
  {
    hide Next, IsBlank, EscapesAlike, Window, BlanksFrom, BlankAt;
    FromABlank(a, driver, at, j);
    var s := BlanksFrom(a, driver, at)[j].start;
    if at < s {
      var k := Advance(a, driver, at, j);
      var next := Next(a, driver, at);
      SameUpTo(a, b, driver, next, k);
      SameWindow(a, b, at, s + 1);
      TurnAlike(a, b, 0, at, s + 1, driver);
      if IsBlank(a, at) {
        EarlierBlankStays(a, b, s, at);
      }
      CopiedTurn(a, b, driver, at, BlanksFrom(a, driver, next)[..k], BlanksFrom(b, driver, s));
    } else {
      FirstIsHere(a, driver, at, j);
    }
  }

  lemma NotTheFirst(sql: string, driver: Driver, at: nat, j: nat)
    requires at < |sql| && j < |BlanksFrom(sql, driver, at)| && at < BlanksFrom(sql, driver, at)[j].start
    ensures IsBlank(sql, at) ==> j > 0
  {
    hide Next, IsBlank;
    BlanksTurn(sql, driver, at);
    if IsBlank(sql, at) {
      BlankPlace(sql, at);
    }
  }

  lemma FirstIsHere(sql: string, driver: Driver, at: nat, j: nat)
    requires at < |sql| && j < |BlanksFrom(sql, driver, at)| && at == BlanksFrom(sql, driver, at)[j].start
    ensures j == 0
  {
    hide Next;
    FromABlank(sql, driver, at, j);
    BlanksTurn(sql, driver, at);
    if j > 0 {
      FromABlank(sql, driver, Next(sql, driver, at), j - 1);
    }
  }

  /** So a statement that starts as another has its blanks, up to that one, and those after. */
  lemma BlanksOfStart(sql: string, w: string, driver: Driver, i: nat)
    requires i < |Blanks(sql, driver)| && Starts(sql, w, Blanks(sql, driver)[i])
    ensures var b := Blanks(sql, driver)[i];
      b.end <= |w| && Blanks(w, driver) == Blanks(sql, driver)[..i + 1] + BlanksFrom(w, driver, b.end)
  {
    hide Next, IsBlank, BlanksFrom;
    var blanks := Blanks(sql, driver);
    var b := blanks[i];
    FromABlank(sql, driver, 0, i);
    BlankPlace(sql, b.start);
    assert sql[..b.start + 1] == sql[..b.end][..b.start + 1] == w[..b.end][..b.start + 1] == w[..b.start + 1];
    BlankIsTwo(sql, b.start);
    SameUpTo(sql, w, driver, 0, i);
    BlankStays(sql, w, b.start);
    BlanksTurn(w, driver, b.start);
    BlankEnds(w, driver, b.start);
    assert blanks[..i + 1] == blanks[..i] + [b];
    Associates(blanks[..i], [b], BlanksFrom(w, driver, b.end));
  }

  lemma BlankIsTwo(sql: string, at: nat)
    requires IsBlank(sql, at)
    ensures at + 2 <= BlankAt(sql, at).end <= |sql|
  {}

  // ---- what filling one blank of it gives ----

  lemma {:induction false} NothingTakenFrom(sql: string, driver: Driver, values: Values, at: nat)
    requires at <= |sql| && forall c <- BlanksFrom(sql, driver, at) :: c.name !in values
    ensures ScanFilled(sql, driver, values, at) == sql[at..]
    decreases |sql| - at
  {
    hide Next, IsBlank, BlankAt;
    if at < |sql| {
      var next := Next(sql, driver, at);
      BlanksTurn(sql, driver, at);
      ScanFilledTurn(sql, driver, values, at);
      assert forall c <- BlanksFrom(sql, driver, next) :: c in BlanksFrom(sql, driver, at);
      NothingTakenFrom(sql, driver, values, next);
      assert IsBlank(sql, at) ==> BlankAt(sql, at) in BlanksFrom(sql, driver, at);
      assert sql[at..] == sql[at..next] + sql[next..];
    }
  }

  /** The first blank taken is blank `j` of those from `at` on. */
  lemma {:induction false} FirstTaken(sql: string, driver: Driver, values: Values, at: nat, j: nat)
    requires at <= |sql| && j < |BlanksFrom(sql, driver, at)| && BlanksFrom(sql, driver, at)[j].name in values
    requires forall k :: 0 <= k < j ==> BlanksFrom(sql, driver, at)[k].name !in values
    ensures NextTaken(sql, driver, values, at) == BlanksFrom(sql, driver, at)[j].start
    decreases |sql| - at
  {
    hide Next, IsBlank, BlankAt;
    var next := Next(sql, driver, at);
    var blanks := BlanksFrom(sql, driver, at);
    BlanksTurn(sql, driver, at);
    if IsBlank(sql, at) {
      BlankPlace(sql, at);
      assert blanks[0] == BlankAt(sql, at) && blanks[1..] == BlanksFrom(sql, driver, next);
      if j > 0 {
        forall k | 0 <= k < j - 1
          ensures BlanksFrom(sql, driver, next)[k].name !in values
        {
          assert blanks[k + 1] == BlanksFrom(sql, driver, next)[k];
        }
        FirstTaken(sql, driver, values, next, j - 1);
      }
    } else {
      assert blanks == BlanksFrom(sql, driver, next);
      FirstTaken(sql, driver, values, next, j);
    }
  }

  /** The statement `w` with the value in the place of its blank `b`. */
  function With(w: string, b: Blank, value: Value, driver: Driver): string
    requires b.start <= b.end <= |w|
  {
    w[..b.start] + Written(value, driver) + w[b.end..]
  }

  /** Blank `i` of `w` is the only one named so. */
  ghost predicate OnlyOfItsName(w: string, driver: Driver, i: nat) {
    && i < |Blanks(w, driver)|
    && forall j :: 0 <= j < |Blanks(w, driver)| && j != i ==> Blanks(w, driver)[j].name != Blanks(w, driver)[i].name
  }

  lemma FillsOne(w: string, driver: Driver, i: nat, value: Value)
    requires OnlyOfItsName(w, driver, i)
    ensures var b := Blanks(w, driver)[i];
      b.start < b.end <= |w| && FilledIn(w, driver, map[b.name := value]) == With(w, b, value, driver)
  {
    hide Next, IsBlank, ScanFilled, FilledIn, Written;
    var blanks := Blanks(w, driver);
    var b := blanks[i];
    var values: Values := map[b.name := value];
    FilledInScan(w, driver, values);
    FirstTaken(w, driver, values, 0, i);
    UntakenIsKept(w, driver, values, 0);
    var s := NextTaken(w, driver, values, 0);
    FromABlank(w, driver, 0, i);
    TakesIsBlank(w, values, s);
    BlankEnds(w, driver, s);
    ScanFilledTurn(w, driver, values, s);
    forall c | c in BlanksFrom(w, driver, b.end)
      ensures c.name !in values
    {
      var k :| 0 <= k < |blanks[i + 1..]| && blanks[i + 1..][k] == c;
      assert blanks[i + 1 + k] == c;
    }
    NothingTakenFrom(w, driver, values, b.end);
    assert w[0..s] == w[..s];
    Associates(w[..s], Written(value, driver), w[b.end..]);
  }

  /** The scan comes to each blank it finds, and goes on from its end. */
  lemma {:induction false} FromABlank(sql: string, driver: Driver, at: nat, j: nat)
    requires at <= |sql| && j < |BlanksFrom(sql, driver, at)|
    ensures var b := BlanksFrom(sql, driver, at)[j];
      && at <= b.start < b.end <= |sql| && IsBlank(sql, b.start) && b == BlankAt(sql, b.start)
      && BlanksFrom(sql, driver, at)[j + 1..] == BlanksFrom(sql, driver, b.end)
    decreases |sql| - at
  {
    hide Next, IsBlank, BlankAt;
    var next := Next(sql, driver, at);
    BlanksTurn(sql, driver, at);
    if IsBlank(sql, at) {
      BlankPlace(sql, at);
      BlankEnds(sql, driver, at);
      assert BlanksFrom(sql, driver, at)[1..] == BlanksFrom(sql, driver, next);
      if j > 0 {
        FromABlank(sql, driver, next, j - 1);
        assert BlanksFrom(sql, driver, at)[j + 1..] == BlanksFrom(sql, driver, next)[j..];
      }
    } else {
      FromABlank(sql, driver, next, j);
    }
  }

  // ---- how the filled statement is scanned up to the value ----

  /** What keeps the scan of `full` in step up to the value in the place of the blank at `s`. */
  ghost predicate Meets(w: string, full: string, driver: Driver, s: nat) {
    && s < |w| && s < |full| && w[..s] == full[..s] && IsBlank(w, s) && LiteralStart(full[s])
    && (driver.Postgres? ==> !CharAt(full, NameRun(full, s), '$'))
    && (driver.BigQuery? && full[s] == '\'' ==> BehindOf(w, s) != "''")
  }

  lemma MeetsJoins(w: string, full: string, driver: Driver, s: nat, t: nat)
    requires Meets(w, full, driver, s) && t < s
    ensures Joint(w, full, 0, t, s) && Joins(full, driver, t, s) && EscapesAlike(driver, w, t, full, t)
  {
    hide LiteralStart, NameRun, IsBlank;
    SameWindow(w, full, t, s);
    if driver.BigQuery? && s == t + 2 && full[t] == full[t + 1] == full[s] == '\'' {
      QuotesBehind(w, full, 0, t, s);
    }
  }

  /** Where no blank touches the value's, the scan of the filled statement comes to the value, or goes on as from it. */
  lemma {:induction false} UpToTheValue(w: string, full: string, driver: Driver, at: nat, j: nat)
    requires at <= |w| && j < |BlanksFrom(w, driver, at)| && Meets(w, full, driver, BlanksFrom(w, driver, at)[j].start)
    requires j > 0 ==> BlanksFrom(w, driver, at)[j - 1].end != BlanksFrom(w, driver, at)[j].start
    ensures var s := BlanksFrom(w, driver, at)[j].start;
      at <= s < |full| && BlanksFrom(full, driver, at) == BlanksFrom(w, driver, at)[..j] + BlanksFrom(full, driver, s)
    decreases |w| - at
  {
    hide Next, IsBlank, EscapesAlike, Window, Meets, BlanksFrom, BlankAt;
    FromABlank(w, driver, at, j);
    var s := BlanksFrom(w, driver, at)[j].start;
    MeetsBounds(w, full, driver, s);
    if at < s {
      var k := Advance(w, driver, at, j);
      var next := Next(w, driver, at);
      if next < s {
        UpToTheValue(w, full, driver, next, k);
        SameWindow(w, full, at, s);
        TurnAlike(w, full, 0, at, s, driver);
        if IsBlank(w, at) {
          SamePastEarlier(w, full, s, next);
          EarlierBlankStays(w, full, next, at);
        }
        CopiedTurn(w, full, driver, at, BlanksFrom(w, driver, next)[..k], BlanksFrom(full, driver, s));
      } else {
        FirstIsHere(w, driver, next, k);
        LastTurnMeets(w, full, driver, at, s);
      }
    } else {
      FirstIsHere(w, driver, at, j);
    }
  }

  lemma LastTurnMeets(w: string, full: string, driver: Driver, at: nat, s: nat)
    requires at < s && Meets(w, full, driver, s) && Next(w, driver, at) == s && !IsBlank(w, at)
    ensures s < |full| && BlanksFrom(full, driver, at) == BlanksFrom(full, driver, s)
  {
    hide Next, IsBlank, EscapesAlike, Joins, Joint, Meets;
    MeetsJoins(w, full, driver, s, at);
    MeetsBounds(w, full, driver, s);
    TurnJoins(w, full, 0, at, s, driver, map[]);
  }

  lemma MeetsBounds(w: string, full: string, driver: Driver, s: nat)
    requires Meets(w, full, driver, s)
    ensures s < |w| && s < |full| && w[..s] == full[..s]
  {}

  lemma SamePastEarlier(a: string, b: string, s: nat, next: nat)
    requires next < s < |a| && s < |b| && a[..s] == b[..s]
    ensures SamePast(a, b, next)
  {
    assert a[..next + 1] == a[..s][..next + 1] == b[..s][..next + 1] == b[..next + 1];
  }

  // ---- a statement broken by one value ----

  /** At blank `i` of `w` is the neighbourhood `n`, and with the value in its place other blanks are found than are left. */
  ghost predicate Broken(driver: Driver, n: Neighbourhood, w: string, i: nat, value: Value) {
    && OnlyOfItsName(w, driver, i) && NeighbourhoodOf(w, Blanks(w, driver), i) == n
    && Spliceable(value) && !Stable(w, driver, map[n.name := value])
  }

  lemma {:induction false} RemainingAll(blanks: seq<Blank>, driver: Driver, values: Values, shift: int)
    requires forall j :: 0 <= j < |blanks| ==> blanks[j].name !in values
    ensures |Remaining(blanks, driver, values, shift)| == |blanks|
  {
    if blanks != [] {
      RemainingAll(blanks[1..], driver, values, shift);
    }
  }

  lemma {:induction false} RemainingButOne(blanks: seq<Blank>, driver: Driver, values: Values, shift: int, i: nat)
    requires i < |blanks| && blanks[i].name in values
    requires forall j :: 0 <= j < |blanks| && j != i ==> blanks[j].name !in values
    ensures |Remaining(blanks, driver, values, shift)| == |blanks| - 1
    ensures forall j :: 0 <= j < i ==> Remaining(blanks, driver, values, shift)[j]
                                       == (blanks[j].name, blanks[j].start + shift, blanks[j].end + shift)
  {
    var rest := blanks[1..];
    if i == 0 {
      RemainingAll(rest, driver, values, shift + |Written(values[blanks[0].name], driver)| - (blanks[0].end - blanks[0].start));
    } else {
      hide Written;
      RemainingButOne(rest, driver, values, shift, i - 1);
    }
  }

  lemma UnevenBreaks(w: string, driver: Driver, i: nat, value: Value)
    requires OnlyOfItsName(w, driver, i) && Spliceable(value)
    requires var b := Blanks(w, driver)[i];
      b.start <= b.end <= |w| && |Blanks(With(w, b, value, driver), driver)| != |Blanks(w, driver)| - 1
    ensures Broken(driver, NeighbourhoodOf(w, Blanks(w, driver), i), w, i, value)
  {
    hide Blanks, FilledIn, Spliceable, Written, With;
    var b := Blanks(w, driver)[i];
    FillsOne(w, driver, i, value);
    PlacesNames(Blanks(With(w, b, value, driver), driver));
    RemainingButOne(Blanks(w, driver), driver, map[b.name := value], 0, i);
  }

  /** `sql` up to the end of its blank `i`, and then something else that starts with the same character. */
  function Instead(sql: string, b: Blank, rest: string): string
    requires b.end <= |sql|
  {
    sql[..b.end] + rest
  }

  lemma InsteadStarts(sql: string, driver: Driver, i: nat, rest: string)
    requires FirstOfItsName(sql, driver, i)
    requires Blanks(sql, driver)[i].end <= |sql| && AheadOf(rest, 0) == AheadOf(sql, Blanks(sql, driver)[i].end)
    ensures var b := Blanks(sql, driver)[i];
      var w := Instead(sql, b, rest);
      && b.start < b.end && Starts(sql, w, b) && w[b.end..] == rest && w[..b.start] == sql[..b.start]
      && i < |Blanks(w, driver)| && Blanks(w, driver)[i] == b
      && Blanks(w, driver)[..i + 1] == Blanks(sql, driver)[..i + 1] && Blanks(w, driver)[i + 1..] == BlanksFrom(w, driver, b.end)
      && NeighbourhoodOf(w, Blanks(w, driver), i) == NeighbourhoodOf(sql, Blanks(sql, driver), i)
  {
    hide Blanks, BlanksFrom, IsBlank;
    var blanks := Blanks(sql, driver);
    var b := blanks[i];
    var w := Instead(sql, b, rest);
    BlankOf(sql, driver, i);
    assert w[..b.end] == sql[..b.end] && w[b.end..] == rest;
    assert b.end < |w| ==> w[b.end] == rest[0];
    BlanksOfStart(sql, w, driver, i);
    assert w[..b.start] == w[..b.end][..b.start] == sql[..b.end][..b.start] == sql[..b.start];
    assert Blanks(w, driver)[..i + 1] == blanks[..i + 1];
    assert Blanks(w, driver)[i] == blanks[..i + 1][i] && (i > 0 ==> Blanks(w, driver)[i - 1] == blanks[..i + 1][i - 1]);
    assert BehindOf(w, b.start) == BehindOf(sql, b.start) by {
      SameBehind(sql, w, b.start);
    }
  }

  lemma BlankOf(sql: string, driver: Driver, i: nat)
    requires i < |Blanks(sql, driver)|
    ensures var b := Blanks(sql, driver)[i];
      && b.start < b.end <= |sql| && IsBlank(sql, b.start) && b == BlankAt(sql, b.start)
      && Blanks(sql, driver)[i + 1..] == BlanksFrom(sql, driver, b.end)
  {
    FromABlank(sql, driver, 0, i);
  }

  lemma SameBehind(a: string, b: string, at: nat)
    requires at <= |a| && at <= |b| && a[..at] == b[..at]
    ensures BehindOf(a, at) == BehindOf(b, at)
  {
    if at >= 2 {
      assert a[at - 2..at] == a[..at][at - 2..] == b[..at][at - 2..] == b[at - 2..at];
    }
  }

  /** Nothing named as the blank is comes after it. */
  ghost predicate Unnamed(w: string, driver: Driver, b: Blank)
    requires b.end <= |w|
  {
    forall c <- BlanksFrom(w, driver, b.end) :: c.name != b.name
  }

  lemma InsteadIsOnly(sql: string, driver: Driver, i: nat, rest: string)
    requires FirstOfItsName(sql, driver, i)
    requires Blanks(sql, driver)[i].end <= |sql| && AheadOf(rest, 0) == AheadOf(sql, Blanks(sql, driver)[i].end)
    requires Unnamed(Instead(sql, Blanks(sql, driver)[i], rest), driver, Blanks(sql, driver)[i])
    ensures OnlyOfItsName(Instead(sql, Blanks(sql, driver)[i], rest), driver, i)
  {
    hide Blanks, BlanksFrom, Starts, Instead, NeighbourhoodOf;
    var blanks := Blanks(sql, driver);
    var w := Instead(sql, blanks[i], rest);
    InsteadStarts(sql, driver, i, rest);
    forall j | 0 <= j < |Blanks(w, driver)| && j != i
      ensures Blanks(w, driver)[j].name != blanks[i].name
    {
      if j < i {
        assert Blanks(w, driver)[j] == Blanks(w, driver)[..i + 1][j] == blanks[j];
      } else {
        assert Blanks(w, driver)[j] == Blanks(w, driver)[i + 1..][j - i - 1];
      }
    }
  }

  /** What is asked of a neighbourhood, a rest and a value for the two counts to come to what is after the blank. */
  ghost predicate Suits(sql: string, driver: Driver, i: nat, rest: string, value: Value) {
    && FirstOfItsName(sql, driver, i) && Spliceable(value)
    && var b := Blanks(sql, driver)[i];
    && b.start < b.end <= |sql| && AheadOf(rest, 0) == AheadOf(sql, b.end)
    && Unnamed(Instead(sql, b, rest), driver, b)
    && NeighbourhoodOf(sql, Blanks(sql, driver), i).blankBehind.None?
    && (driver.Postgres? ==> !CharAt(Written(value, driver) + rest, NameRun(Written(value, driver) + rest, 0), '$'))
    && (driver.BigQuery? && value.kind.Text? ==> BehindOf(sql, b.start) != "''")
  }

  lemma {:induction false} NameRunShifts(a: string, b: string, at: nat)
    requires at <= |b|
    ensures NameRun(a + b, |a| + at) == |a| + NameRun(b, at)
    decreases |b| - at
  {
    if at < |b| && IsNameChar(b[at]) {
      NameRunShifts(a, b, at + 1);
    }
  }

  lemma SuitsMeets(sql: string, driver: Driver, i: nat, rest: string, value: Value)
    requires Suits(sql, driver, i, rest, value)
    ensures var b := Blanks(sql, driver)[i];
      var w := Instead(sql, b, rest);
      && b.end <= |w| && Meets(w, With(w, b, value, driver), driver, b.start)
      && With(w, b, value, driver)[b.start..] == Written(value, driver) + rest
      && With(w, b, value, driver)[..b.start] == w[..b.start]
  {
    hide Blanks, BlanksFrom, IsBlank, NameRun, Written, Spliceable, Unnamed, LiteralStart;
    var b := Blanks(sql, driver)[i];
    var w := Instead(sql, b, rest);
    InsteadStarts(sql, driver, i, rest);
    BlankOf(w, driver, i);
    WrittenStarts(value, driver);
    WithParts(w, b, value, driver, rest);
    NameRunShifts(w[..b.start], Written(value, driver) + rest, 0);
    SameBehind(sql, w, b.start);
  }

  lemma WithParts(w: string, b: Blank, value: Value, driver: Driver, rest: string)
    requires b.start < b.end <= |w| && w[b.end..] == rest && Written(value, driver) != ""
    ensures var full, piece := With(w, b, value, driver), Written(value, driver) + rest;
      && full == w[..b.start] + piece && full[..b.start] == w[..b.start] && full[b.start..] == piece
      && b.start < |full| && full[b.start] == Written(value, driver)[0]
  {
    hide Written;
    Associates(w[..b.start], Written(value, driver), rest);
  }

  lemma CountsBreak(sql: string, driver: Driver, i: nat, rest: string, value: Value)
    requires Suits(sql, driver, i, rest, value)
    requires var b := Blanks(sql, driver)[i];
      var w := Instead(sql, b, rest);
      var full := With(w, b, value, driver);
      b.end <= |w| && b.start <= |full| && |BlanksFrom(full, driver, b.start)| != |BlanksFrom(w, driver, b.end)|
    ensures Broken(driver, NeighbourhoodOf(sql, Blanks(sql, driver), i), Instead(sql, Blanks(sql, driver)[i], rest), i, value)
  {
    hide BlanksFrom, IsBlank, NameRun, Written, Spliceable, Meets, Instead, With, Starts, Broken, Unnamed;
    var b := Blanks(sql, driver)[i];
    var w := Instead(sql, b, rest);
    var full := With(w, b, value, driver);
    InsteadStarts(sql, driver, i, rest);
    InsteadIsOnly(sql, driver, i, rest);
    SuitsMeets(sql, driver, i, rest, value);
    UpToTheValue(w, full, driver, 0, i);
    assert |Blanks(full, driver)| == i + |BlanksFrom(full, driver, b.start)|;
    assert |Blanks(w, driver)| == i + 1 + |BlanksFrom(w, driver, b.end)|;
    UnevenBreaks(w, driver, i, value);
  }
}
