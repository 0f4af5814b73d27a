/**
 * The turn that ends where a blank starts, once a value is there instead: it
 * ends there still, or takes in the value's first word or, a string whose
 * quotes may be doubled, all of a text; the scan goes on alike either way.
 */
module TemplateJoins {
  import opened Basics
  import opened Chars
  import opened TemplateScanner
  import opened TemplateLocality
  import opened TemplateLiterals
  import opened TemplateFilling
  import opened TemplateSeams

  /** A blank starts at `hi` in `a`, and a value at `hi + d` in `b`; up to there they are one text from `lo` on. */
  ghost predicate Joint(a: string, b: string, d: int, lo: nat, hi: nat) {
    && Window(a, b, d, lo, hi) && lo < hi < |a| && hi + d < |b| && IsBlank(a, hi) && LiteralStart(b[hi + d])
  }

  /** What the turn before the value may run into: a word with a dollar after it, or a quote after an empty string. */
  ghost predicate Joins(b: string, driver: Driver, lo: nat, hi: nat) {
    && lo < hi < |b|
    && (driver.Postgres? ==> !CharAt(b, NameRun(b, hi), '$'))
    && (driver.BigQuery? && hi == lo + 2 && b[lo] == b[lo + 1] == b[hi] == '\'' ==>
          exists text :: b[hi..] == Literal(text, driver))
  }

  // ---- words ----

  /** A word that goes up to the value, and takes the value's first word in. */
  lemma WordJoins(b: string, driver: Driver, others: Values, lo: nat, hi: nat)
    requires lo < hi < |b| && LiteralStart(b[hi]) && forall i :: lo <= i < hi ==> IsWordChar(b[i])
    requires driver.Postgres? && b[lo] == '$' ==> !OpensDollarQuote(b, lo)
    ensures !IsBlank(b, lo) && Skips(b, driver, others, lo, hi)
  {
    hide Skips, Next, LiteralStart, OpensDollarQuote, WordRun;
    WordTurn(b, driver, lo);
    WordRunThrough(b, lo, hi);
    if IsWordChar(b[hi]) {
      NoDollarStarts(b[hi]);
      WordTurn(b, driver, hi);
      SkipsWithin(b, driver, others, lo, hi);
    } else {
      SkipsTurn(b, driver, others, lo);
      WordRunStops(b, hi);
    }
  }

  lemma NoDollarStarts(c: char)
    requires LiteralStart(c)
    ensures c !in {'$', '@', '"', '`', '-', '*', '/'}
  {}

  lemma WordRunStops(sql: string, at: nat)
    requires at < |sql| && !IsWordChar(sql[at])
    ensures WordRun(sql, at) == at
  {}

  lemma SameWord(a: string, b: string, d: int, lo: nat, hi: nat)
    requires Window(a, b, d, lo, hi) && lo < hi && IsWordChar(a[lo]) && WordRun(a, lo + 1) == hi
    ensures forall i :: lo + d <= i < hi + d ==> IsWordChar(b[i])
  {
    forall i | lo + d <= i < hi + d
      ensures IsWordChar(b[i])
    {
      assert a[i - d] == b[i];
    }
  }

  lemma WordTurnJoins(a: string, b: string, d: int, lo: nat, hi: nat, driver: Driver, others: Values)
    requires Joint(a, b, d, lo, hi) && Next(a, driver, lo) == hi
    requires IsWordChar(a[lo]) && !(driver.Postgres? && a[lo] == '$')
    ensures !IsBlank(b, lo + d) && Skips(b, driver, others, lo + d, hi + d)
  {
    hide Skips, Next, WordRun, IsWordChar, LiteralStart, IsBlank;
    WordTurnIs(a, driver, lo);
    SameWord(a, b, d, lo, hi);
    WordJoins(b, driver, others, lo + d, hi + d);
  }

  lemma WordTurnIs(sql: string, driver: Driver, at: nat)
    requires at < |sql| && IsWordChar(sql[at]) && !(driver.Postgres? && sql[at] == '$')
    ensures Next(sql, driver, at) == WordRun(sql, at + 1)
  {
    hide Next, WordRun;
    WordTurn(sql, driver, at);
    WordRunStep(sql, at);
  }

  // ---- PostgreSQL's dollars ----

  lemma DollarTurnJoins(a: string, b: string, d: int, lo: nat, hi: nat, others: Values)
    requires Joint(a, b, d, lo, hi) && Joins(b, Postgres, lo + d, hi + d)
    requires Next(a, Postgres, lo) == hi && a[lo] == '$'
    ensures !IsBlank(b, lo + d) && Skips(b, Postgres, others, lo + d, hi + d)
  {
    hide Skips, Next, WordRun, LiteralStart, OpensDollarQuote, NameRun;
    if OpensDollarQuote(a, lo) {
      DollarQuoteTurnAlike(a, b, d, lo, hi);
      SkipsTurn(b, Postgres, others, lo + d);
    } else {
      NextAtDollar(a, lo);
      SameWord(a, b, d, lo, hi);
      StillNoDollarQuote(a, b, d, lo, hi);
      WordJoins(b, Postgres, others, lo + d, hi + d);
    }
  }

  /** The name after a dollar may go on in the value, but has no dollar after it then. */
  lemma StillNoDollarQuote(a: string, b: string, d: int, lo: nat, hi: nat)
    requires Joint(a, b, d, lo, hi) && Joins(b, Postgres, lo + d, hi + d)
    requires a[lo] == '$' && !OpensDollarQuote(a, lo) && WordRun(a, lo + 1) == hi
    ensures !OpensDollarQuote(b, lo + d)
  {
    hide LiteralStart, WordRun;
    NameEndIsInside(a, lo + 1);
    NoDollarStarts(b[hi + d]);
    var end := NameEnd(a, lo + 1);
    if end < hi {
      NameEndAlike(a, b, d, lo, hi, lo + 1);
      assert a[end] == b[end + d];
    } else if lo + 1 == hi {
      if IsNameStart(b[hi + d]) {
        NameRunThrough(b, hi + d, hi + 1 + d);
      }
    } else {
      assert IsNameStart(b[lo + 1 + d]) by {
        assert a[lo + 1] == b[lo + 1 + d];
      }
      SameName(a, b, d, lo, hi, lo + 2);
    }
  }

  /** A name that goes up to the value goes on as far as the value's own. */
  lemma SameName(a: string, b: string, d: int, lo: nat, hi: nat, at: nat)
    requires Window(a, b, d, lo, hi) && lo <= at <= hi && NameRun(a, at) == hi
    ensures 0 <= at + d && NameRun(b, at + d) == NameRun(b, hi + d)
  {
    forall i | at + d <= i < hi + d
      ensures IsNameChar(b[i])
    {
      assert a[i - d] == b[i];
    }
    NameRunThrough(b, at + d, hi + d);
  }

  // ---- system variables ----

  lemma SystemTurnJoins(a: string, b: string, d: int, lo: nat, hi: nat, driver: Driver, others: Values)
    requires Joint(a, b, d, lo, hi) && Joins(b, driver, lo + d, hi + d)
    requires Next(a, driver, lo) == hi && a[lo] == '@' && !IsBlank(a, lo)
    ensures !IsBlank(b, lo + d) && Skips(b, driver, others, lo + d, hi + d)
  {
    hide Skips, Next, WordRun, LiteralStart, NameRun;
    var r := SystemTurn(a, b, d, lo, hi, driver);
    SkipsTurn(b, driver, others, lo + d);
    if r > hi + d {
      NameJoins(b, driver, others, lo + d, hi + d, r);
    }
  }

  lemma SystemTurn(a: string, b: string, d: int, lo: nat, hi: nat, driver: Driver) returns (r: nat)
    requires Joint(a, b, d, lo, hi)
    requires Next(a, driver, lo) == hi && a[lo] == '@' && !IsBlank(a, lo)
    ensures r == Next(b, driver, lo + d) && !IsBlank(b, lo + d)
    ensures r == hi + d || (IsNameChar(b[hi + d]) && r == NameRun(b, hi + d))
  {
    hide Next, LiteralStart, WordRun;
    NextAtAt(a, driver, lo);
    assert IsSystem(a, lo);
    assert a[lo + 1] == b[lo + 1 + d];
    NextAtAt(b, driver, lo + d);
    r := Next(b, driver, lo + d);
    if lo + 2 == hi {
      if IsNameStart(b[hi + d]) {
        NameRunThrough(b, hi + d, hi + 1 + d);
      }
    } else {
      assert IsNameStart(a[lo + 2]);
      assert a[lo + 2] == b[lo + 2 + d];
      SameName(a, b, d, lo, hi, lo + 3);
      if !IsNameChar(b[hi + d]) {
        assert NameRun(b, hi + d) == hi + d;
      }
    }
  }

  /** A name that takes in the value's ends with the value's word, or before a dollar that goes on with it. */
  lemma NameJoins(b: string, driver: Driver, others: Values, lo: nat, hi: nat, r: nat)
    requires Joins(b, driver, lo, hi) && LiteralStart(b[hi]) && IsNameChar(b[hi]) && r == NameRun(b, hi)
    requires Skips(b, driver, others, lo, r)
    ensures Skips(b, driver, others, lo, hi)
  {
    hide Skips, Next, LiteralStart, WordRun, OpensDollarQuote;
    var w := WordRun(b, hi);
    NoDollarStarts(b[hi]);
    WordTurn(b, driver, hi);
    SkipsTurn(b, driver, others, hi);
    WordRunThrough(b, hi, r);
    if r < w {
      WordTurnAtEnd(b, r);
      WordTurn(b, driver, r);
      SkipsTurn(b, driver, others, r);
      SkipsOn(b, driver, others, lo, r, w);
    } else {
      assert r == w;
    }
    SkipsBack(b, driver, others, lo, hi, w);
  }

  lemma WordTurnAtEnd(sql: string, r: nat)
    requires r < |sql| && !IsNameChar(sql[r]) && r < WordRun(sql, r)
    ensures CharAt(sql, r, '$')
  {}

  // ---- strings ----

  lemma {:induction false} ClosingJoins(a: string, b: string, d: int, lo: nat, hi: nat, next: nat, quote: char)
    requires Window(a, b, d, lo, hi) && lo <= next && hi < |a|
    requires Closing(a, next, [quote], false) == hi
    ensures hi + d < |b| && next < hi && a[hi - 1] == quote
    ensures Closing(b, next + d, [quote], false)
            == if b[hi + d] == quote then Closing(b, hi + d + 1, [quote], false) else hi + d
    decreases hi - next
  {
    ClosingReaches(a, next, [quote], false);
    assert next + 1 <= hi;
    ClosingTurn(a, next, quote);
    ClosingTurn(b, next + d, quote);
    assert a[next] == b[next + d];
    if next + 1 < hi {
      assert a[next + 1] == b[next + 1 + d];
      if a[next] != quote {
        ClosingJoins(a, b, d, lo, hi, next + 1, quote);
      } else if a[next + 1] == quote {
        ClosingJoins(a, b, d, lo, hi, next + 2, quote);
      }
    } else {
      ClosingReaches(a, next + 2, [quote], false);
      ClosingReaches(a, next + 1, [quote], false);
    }
  }

  lemma ClosingTurn(sql: string, next: nat, quote: char)
    requires next < |sql|
    ensures Closing(sql, next, [quote], false)
            == if sql[next] != quote then Closing(sql, next + 1, [quote], false)
               else if CharAt(sql, next + 1, quote) then Closing(sql, next + 2, [quote], false)
               else next + 1
  {
    assert sql[next..next + 1] == [sql[next]];
    assert next + 1 < |sql| ==> sql[next + 1..next + 2] == [sql[next + 1]];
  }

  lemma EscapeIsLoneE(sql: string, at: nat)
    requires at < |sql|
    ensures EscapeString(sql, at) <==> sql[at] == '\'' && LoneE(sql, at)
  {}

  lemma PlainStringJoins(a: string, b: string, d: int, lo: nat, hi: nat, others: Values)
    requires Joint(a, b, d, lo, hi) && EscapesAlike(Postgres, a, lo, b, lo + d)
    requires Next(a, Postgres, lo) == hi && PlainQuote(a, Postgres, lo)
    ensures !IsBlank(b, lo + d) && Skips(b, Postgres, others, lo + d, hi + d)
  {
    hide Skips, Next, Closing, LiteralStart;
    EscapeIsLoneE(a, lo);
    EscapeIsLoneE(b, lo + d);
    NextAtQuote(a, Postgres, lo);
    NextAtQuote(b, Postgres, lo + d);
    ClosingJoins(a, b, d, lo, hi, lo + 1, a[lo]);
    NoDollarStarts(b[hi + d]);
    if b[hi + d] == a[lo] {
      assert b[hi + d - 1] == a[hi - 1];
      AfterAQuote(b, hi + d);
      SkipsWithin(b, Postgres, others, lo + d, hi + d);
    } else {
      SkipsTurn(b, Postgres, others, lo + d);
    }
  }

  lemma QuoteTurnJoins(a: string, b: string, d: int, lo: nat, hi: nat, driver: Driver, others: Values)
    requires Joint(a, b, d, lo, hi) && Joins(b, driver, lo + d, hi + d) && EscapesAlike(driver, a, lo, b, lo + d)
    requires Next(a, driver, lo) == hi && a[lo] in {'\'', '"', '`'}
    ensures !IsBlank(b, lo + d) && Skips(b, driver, others, lo + d, hi + d)
  {
    hide Skips, Next, LiteralStart, OpensTriple, PlainQuote, Literal;
    QuoteIsTwo(a, driver, lo);
    assert b[lo + d] == a[lo] && b[lo + 1 + d] == a[lo + 1];
    if driver.BigQuery? && hi == lo + 2 && a[lo] == a[lo + 1] == b[hi + d] == '\'' {
      var text :| b[hi + d..] == Literal(text, driver);
      EmptyStringJoins(b, others, lo + d, text);
    } else {
      TripleStillNot(a, b, d, lo, hi, driver);
      if PlainQuote(a, driver, lo) {
        PlainIsPostgres(a, driver, lo);
        PlainStringJoins(a, b, d, lo, hi, others);
      } else {
        QuoteTurnAlike(a, b, d, lo, hi, driver);
        SkipsTurn(b, driver, others, lo + d);
      }
    }
  }

  lemma PlainIsPostgres(sql: string, driver: Driver, at: nat)
    requires PlainQuote(sql, driver, at)
    ensures driver.Postgres?
  {}

  lemma TripleStillNot(a: string, b: string, d: int, lo: nat, hi: nat, driver: Driver)
    requires Joint(a, b, d, lo, hi) && lo + 2 <= hi
    requires driver.BigQuery? && hi == lo + 2 ==> !(a[lo] == a[lo + 1] == b[hi + d] == '\'')
    ensures OpensTriple(a, driver, lo) <==> OpensTriple(b, driver, lo + d)
  {
    if lo + 3 <= hi {
      TripleAlike(a, b, d, lo, hi, driver);
    } else {
      hide StartsWith, LiteralStart;
      NoDollarStarts(b[hi + d]);
      assert a[lo] == b[lo + d] && a[lo + 1] == b[lo + 1 + d];
      CharOf(a, "'''", lo, 2);
      CharOf(a, "\"\"\"", lo, 2);
      CharOf(b, "'''", lo + d, 0);
      CharOf(b, "'''", lo + d, 1);
      CharOf(b, "'''", lo + d, 2);
      CharOf(b, "\"\"\"", lo + d, 2);
    }
  }

  // ---- every turn ----

  /** A mark, or a comment that ends at the value. */
  lemma OtherTurnJoins(a: string, b: string, d: int, lo: nat, hi: nat, driver: Driver, others: Values)
    requires Joint(a, b, d, lo, hi) && Next(a, driver, lo) == hi
    requires a[lo] !in {'\'', '"', '`', '@'} && !IsWordChar(a[lo])
    ensures !IsBlank(b, lo + d) && Skips(b, driver, others, lo + d, hi + d)
  {
    hide Skips, Next, LiteralStart, StartsWith;
    assert a[lo] != '$';
    hide IsWordChar;
    if OpensLineComment(a, driver, lo) || StartsWith(a, "/*", lo) {
      CommentTurnAlike(a, b, d, lo, hi, driver);
    } else {
      NextAtOther(a, driver, lo);
      NextAtOther(b, driver, lo + d);
      NoDollarStarts(b[hi + d]);
      CharOf(b, "--", lo + d, 1);
      CharOf(b, "/*", lo + d, 1);
    }
    SkipsTurn(b, driver, others, lo + d);
  }

  /** Whatever turn ends at the blank, with the value there the scan goes on from it as from the value's start. */
  lemma TurnJoins(a: string, b: string, d: int, lo: nat, hi: nat, driver: Driver, others: Values)
    requires Joint(a, b, d, lo, hi) && Joins(b, driver, lo + d, hi + d) && EscapesAlike(driver, a, lo, b, lo + d)
    requires Next(a, driver, lo) == hi && !IsBlank(a, lo)
    ensures !IsBlank(b, lo + d) && Skips(b, driver, others, lo + d, hi + d)
  {
    hide Skips, Next, LiteralStart, IsBlank, Joins, IsWordChar;
    if a[lo] in {'\'', '"', '`'} {
      QuoteTurnJoins(a, b, d, lo, hi, driver, others);
    } else if a[lo] == '@' {
      SystemTurnJoins(a, b, d, lo, hi, driver, others);
    } else if a[lo] == '$' && driver.Postgres? {
      DollarTurnJoins(a, b, d, lo, hi, others);
    } else if IsWordChar(a[lo]) {
      WordTurnJoins(a, b, d, lo, hi, driver, others);
    } else {
      OtherTurnJoins(a, b, d, lo, hi, driver, others);
    }
  }
}
