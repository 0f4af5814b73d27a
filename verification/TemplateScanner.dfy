/**
 * Finding the `@name` blanks of a query template: the scanner of
 * `src/features/query-templates/variables.ts`, once as functions and once as
 * the loops the source writes, proved to agree.
 *
 * A `char` stands for one UTF-16 unit. The scanner tells only ASCII apart.
 */
module TemplateScanner {
  import opened Basics
  import opened Chars

  datatype Driver = Postgres | BigQuery

  /** One `@name`; `start` is at the `@`. */
  datatype Blank = Blank(name: string, start: nat, end: nat)

  // ---- regular expressions, from a place on ----

  /** Past the longest run of name characters. */
  function NameRun(sql: string, at: nat): (end: nat)
    requires at <= |sql|
    ensures at <= end <= |sql|
    ensures forall i :: at <= i < end ==> IsNameChar(sql[i])
    ensures end < |sql| ==> !IsNameChar(sql[end])
    decreases |sql| - at
  {
    if at < |sql| && IsNameChar(sql[at]) then NameRun(sql, at + 1) else at
  }

  /** Past the name that starts here; here when none does. */
  function NameEnd(sql: string, at: nat): (end: nat)
    requires at <= |sql|
    ensures at <= end <= |sql|
  {
    if at < |sql| && IsNameStart(sql[at]) then NameRun(sql, at + 1) else at
  }

  /** Past the longest run of word characters. */
  function WordRun(sql: string, at: nat): (end: nat)
    requires at <= |sql|
    ensures at <= end <= |sql|
    ensures forall i :: at <= i < end ==> IsWordChar(sql[i])
    ensures end < |sql| ==> !IsWordChar(sql[end])
    decreases |sql| - at
  {
    if at < |sql| && IsWordChar(sql[at]) then WordRun(sql, at + 1) else at
  }

  /** A PostgreSQL dollar quote opens here: `$$` or `$tag$`. */
  predicate OpensDollarQuote(sql: string, at: nat)
    requires at < |sql|
  {
    sql[at] == '$' && NameEnd(sql, at + 1) < |sql| && sql[NameEnd(sql, at + 1)] == '$'
  }

  /** Past the first `part` from `from` on, or the end of the text when there is none. */
  function PastFirst(sql: string, part: string, from: nat): (past: nat)
    requires part != ""
    ensures past <= |sql| && (from < |sql| ==> from < past)
    ensures past == |sql| || from + |part| <= past
    decreases |sql| - from
  {
    if from + |part| > |sql| then |sql|
    else if StartsWith(sql, part, from) then from + |part|
    else PastFirst(sql, part, from + 1)
  }

  /** The end of what was opened before `next`: after its closing quote, and of the text where there is none. */
  function Closing(sql: string, next: nat, quote: string, backslashes: bool): (past: nat)
    requires quote != ""
    ensures past <= |sql| && (next < |sql| ==> next < past)
    decreases |sql| - next
  {
    if next >= |sql| then |sql|
    else if backslashes && sql[next] == '\\' then Closing(sql, next + 2, quote, backslashes)
    else if StartsWith(sql, quote, next) then
      if !backslashes && StartsWith(sql, quote, next + 1)
      then Closing(sql, next + 2, quote, backslashes)
      else next + |quote|
    else Closing(sql, next + 1, quote, backslashes)
  }

  /** Past a comment of which `depth` openings are unclosed at `at`. */
  function CommentEnd(sql: string, at: nat, depth: nat): (past: nat)
    requires at <= |sql|
    ensures at <= past <= |sql| && (depth > 0 && at < |sql| ==> at < past)
    decreases |sql| - at
  {
    if depth == 0 || at >= |sql| then at
    else if StartsWith(sql, "/*", at) then CommentEnd(sql, at + 2, depth + 1)
    else if StartsWith(sql, "*/", at) then CommentEnd(sql, at + 2, depth - 1)
    else CommentEnd(sql, at + 1, depth)
  }

  /** Whether a quote is of PostgreSQL's escape strings: an `e` is before it that no name ends with. */
  predicate EscapeString(sql: string, quote: nat)
    requires quote < |sql|
  {
    && sql[quote] == '\''
    && quote >= 1 && sql[quote - 1] in {'E', 'e'}
    && !(quote >= 2 && IsWordChar(sql[quote - 2]))
  }

  // ---- one turn of the scanner's loop ----

  predicate OpensTriple(sql: string, driver: Driver, at: nat) {
    driver.BigQuery? && (StartsWith(sql, "'''", at) || StartsWith(sql, "\"\"\"", at))
  }

  predicate IsSystem(sql: string, at: nat) {
    at + 1 < |sql| && sql[at + 1] == '@'
  }

  /** Where the scanner looks next. */
  function Next(sql: string, driver: Driver, at: nat): (next: nat)
    requires at < |sql|
    ensures at < next <= |sql|
  {
    var c := sql[at];
    if OpensTriple(sql, driver, at) then Closing(sql, at + 3, sql[at..at + 3], true)
    else if c == '\'' || c == '"' || c == '`' then
      Closing(sql, at + 1, [c], driver.BigQuery? || c == '`' || EscapeString(sql, at))
    else if driver.Postgres? && OpensDollarQuote(sql, at) then
      var tag := NameEnd(sql, at + 1) + 1;
      PastFirst(sql, sql[at..tag], tag)
    else if StartsWith(sql, "--", at) || (driver.BigQuery? && c == '#') then PastFirst(sql, "\n", at)
    else if StartsWith(sql, "/*", at) then CommentEnd(sql, at + 2, 1)
    else if c == '@' then NameEnd(sql, if IsSystem(sql, at) then at + 2 else at + 1)
    else if IsWordChar(c) then WordRun(sql, at + 1)
    else at + 1
  }

  /** Whether this turn finds a blank, which then ends where the scanner looks next. */
  predicate IsBlank(sql: string, at: nat) {
    at < |sql| && sql[at] == '@' && !IsSystem(sql, at) && NameEnd(sql, at + 1) > at + 1
  }

  function BlankAt(sql: string, at: nat): Blank
    requires IsBlank(sql, at)
  {
    Blank(sql[at + 1..NameEnd(sql, at + 1)], at, NameEnd(sql, at + 1))
  }

  /** The blanks found from a place on. */
  function BlanksFrom(sql: string, driver: Driver, at: nat): seq<Blank>
    requires at <= |sql|
    decreases |sql| - at
  {
    if at >= |sql| then []
    else (if IsBlank(sql, at) then [BlankAt(sql, at)] else []) + BlanksFrom(sql, driver, Next(sql, driver, at))
  }

  function Blanks(sql: string, driver: Driver): seq<Blank> {
    BlanksFrom(sql, driver, 0)
  }

  // ---- what a list of blanks is ----

  /** Each is an `@`, a whole name, and nothing else; none starts before `from` or overlaps the next. */
  predicate WellPlaced(sql: string, blanks: seq<Blank>, from: nat)
    decreases |blanks|
  {
    blanks == [] ||
    (var b := blanks[0];
     && from <= b.start < b.end <= |sql|
     && sql[b.start] == '@'
     && b.name == sql[b.start + 1..b.end] && b.name != ""
     && IsNameStart(b.name[0]) && (forall i :: 0 <= i < |b.name| ==> IsNameChar(b.name[i]))
     && (b.end < |sql| ==> !IsNameChar(sql[b.end]))
     && WellPlaced(sql, blanks[1..], b.end))
  }

  lemma BlanksTurn(sql: string, driver: Driver, at: nat)
    requires at < |sql|
    ensures BlanksFrom(sql, driver, at) ==
      (if IsBlank(sql, at) then [BlankAt(sql, at)] else []) + BlanksFrom(sql, driver, Next(sql, driver, at))
  {
    hide Next, IsBlank;
  }

  lemma BlanksEnd(sql: string, driver: Driver, at: nat)
    requires at == |sql|
    ensures BlanksFrom(sql, driver, at) == []
  {}

  lemma WellPlacedEarlier(sql: string, blanks: seq<Blank>, from: nat, earlier: nat)
    requires WellPlaced(sql, blanks, from) && earlier <= from
    ensures WellPlaced(sql, blanks, earlier)
  {}

  /** A blank's turn ends at the end of its name. */
  lemma BlankTurn(sql: string, driver: Driver, at: nat)
    requires IsBlank(sql, at)
    ensures Next(sql, driver, at) == NameEnd(sql, at + 1)
    ensures forall rest :: WellPlaced(sql, rest, NameEnd(sql, at + 1)) ==>
      WellPlaced(sql, [BlankAt(sql, at)] + rest, at)
  {
    var b := BlankAt(sql, at);
    forall rest | WellPlaced(sql, rest, b.end)
      ensures WellPlaced(sql, [b] + rest, at)
    {
      assert ([b] + rest)[1..] == rest;
    }
  }

  lemma {:induction false} BlanksAreWellPlaced(sql: string, driver: Driver, at: nat)
    requires at <= |sql|
    ensures WellPlaced(sql, BlanksFrom(sql, driver, at), at)
    decreases |sql| - at
  {
    if at < |sql| {
      hide Next;
      var next := Next(sql, driver, at);
      var rest := BlanksFrom(sql, driver, next);
      BlanksAreWellPlaced(sql, driver, next);
      if IsBlank(sql, at) {
        BlankTurn(sql, driver, at);
      } else {
        WellPlacedEarlier(sql, rest, next, at);
        assert [] + rest == rest;
      }
    }
  }

  // ---- the loops ----

  method ClosingLoop(sql: string, at: nat, quote: string, backslashes: bool) returns (past: nat)
    requires quote != ""
    ensures past == Closing(sql, at + |quote|, quote, backslashes)
  {
    var next := at + |quote|;
    while next < |sql|
      invariant Closing(sql, next, quote, backslashes) == Closing(sql, at + |quote|, quote, backslashes)
    {
      if backslashes && sql[next] == '\\' {
        next := next + 2;
      } else if StartsWith(sql, quote, next) {
        if !backslashes && StartsWith(sql, quote, next + 1) {
          next := next + 2;
        } else {
          return next + |quote|;
        }
      } else {
        next := next + 1;
      }
    }
    return |sql|;
  }

  /** The `do … while` over a comment that opens at `start`. */
  method CommentLoop(sql: string, start: nat) returns (at: nat)
    requires StartsWith(sql, "/*", start)
    ensures at == CommentEnd(sql, start + 2, 1)
  {
    var depth := 1;
    at := start + 2;
    while depth > 0 && at < |sql|
      invariant at <= |sql| && depth >= 0
      invariant CommentEnd(sql, at, depth) == CommentEnd(sql, start + 2, 1)
      decreases |sql| - at
    {
      if StartsWith(sql, "/*", at) {
        depth := depth + 1;
        at := at + 2;
      } else if StartsWith(sql, "*/", at) {
        depth := depth - 1;
        at := at + 2;
      } else {
        at := at + 1;
      }
    }
  }

  /** One turn of the loop: where to look next, and the blank it passed. */
  method Turn(sql: string, driver: Driver, at: nat) returns (next: nat, found: seq<Blank>)
    requires at < |sql|
    ensures next == Next(sql, driver, at)
    ensures found == if IsBlank(sql, at) then [BlankAt(sql, at)] else []
  {
    hide NameEnd, PastFirst, WordRun, Closing, CommentEnd, EscapeString, IsWordChar;
    found := [];
    var c := sql[at];
    if OpensTriple(sql, driver, at) {
      next := ClosingLoop(sql, at, sql[at..at + 3], true);
    } else if c == '\'' || c == '"' || c == '`' {
      next := ClosingLoop(sql, at, [c], driver.BigQuery? || c == '`' || EscapeString(sql, at));
    } else if driver.Postgres? && OpensDollarQuote(sql, at) {
      var tag := NameEnd(sql, at + 1) + 1;
      next := PastFirst(sql, sql[at..tag], tag);
    } else if StartsWith(sql, "--", at) || (driver.BigQuery? && c == '#') {
      next := PastFirst(sql, "\n", at);
    } else if StartsWith(sql, "/*", at) {
      next := CommentLoop(sql, at);
    } else if c == '@' {
      var name := if IsSystem(sql, at) then at + 2 else at + 1;
      next := NameEnd(sql, name);
      if next > name && !IsSystem(sql, at) {
        found := [Blank(sql[name..next], at, next)];
      }
    } else if IsWordChar(c) {
      next := WordRun(sql, at + 1);
    } else {
      next := at + 1;
    }
  }

  method FindBlanks(sql: string, driver: Driver) returns (found: seq<Blank>)
    ensures found == Blanks(sql, driver)
    ensures WellPlaced(sql, found, 0)
  {
    hide Next, IsBlank, BlankAt, WellPlaced, BlanksFrom;
    found := [];
    var at := 0;
    while at < |sql|
      invariant at <= |sql|
      invariant found + BlanksFrom(sql, driver, at) == Blanks(sql, driver)
    {
      var next, passed := Turn(sql, driver, at);
      BlanksTurn(sql, driver, at);
      Associates(found, passed, BlanksFrom(sql, driver, next));
      at, found := next, found + passed;
    }
    BlanksEnd(sql, driver, at);
    BlanksAreWellPlaced(sql, driver, 0);
  }
}
