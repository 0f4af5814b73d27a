/**
 * Where the scanner of `TemplateScanner` looks next depends only on what it
 * passes, on the character after that, and on the two characters behind it: a
 * turn within a stretch two statements share is the same turn in both.
 */
module TemplateLocality {
  import opened Chars
  import opened TemplateScanner

  /** `a[lo..hi]` is `b[lo + d..hi + d]`, and there either both texts end or neither does. */
  ghost predicate Window(a: string, b: string, d: int, lo: nat, hi: nat) {
    && lo <= hi <= |a| && 0 <= lo + d && hi + d <= |b|
    && (forall i {:trigger a[i]} :: lo <= i < hi ==> a[i] == b[i + d])
    && (hi == |a| <==> hi + d == |b|)
  }

  /** The stretch up to `hi` says that a run that ends at `end` goes no further. */
  predicate Inside(a: string, end: nat, hi: nat) {
    end < hi || (end == hi && hi == |a|)
  }

  lemma StartsAlike(a: string, b: string, d: int, lo: nat, hi: nat, part: string, at: nat)
    requires Window(a, b, d, lo, hi) && lo <= at && (at + |part| <= hi || hi == |a|)
    ensures StartsWith(a, part, at) == StartsWith(b, part, at + d)
  {
    if at + |part| <= hi {
      assert a[at..at + |part|] == b[at + d..at + d + |part|];
    }
  }

  lemma PartAt(s: string, part: string, at: nat)
    requires StartsWith(s, part, at)
    ensures forall i {:trigger s[i]} :: at <= i < at + |part| ==> s[i] == part[i - at]
  {
    forall i {:trigger s[i]} | at <= i < at + |part|
      ensures s[i] == part[i - at]
    {
      assert s[i] == s[at..at + |part|][i - at];
    }
  }

  lemma CharOf(s: string, part: string, at: nat, k: nat)
    requires k < |part|
    ensures StartsWith(s, part, at) ==> at + k < |s| && s[at + k] == part[k]
  {
    if StartsWith(s, part, at) {
      PartAt(s, part, at);
    }
  }

  lemma {:induction false} NameRunAlike(a: string, b: string, d: int, lo: nat, hi: nat, at: nat)
    requires Window(a, b, d, lo, hi) && lo <= at <= hi && Inside(a, NameRun(a, at), hi)
    ensures NameRun(b, at + d) == NameRun(a, at) + d
    decreases hi - at
  {
    if at < hi && IsNameChar(a[at]) {
      NameRunAlike(a, b, d, lo, hi, at + 1);
    }
  }

  lemma NameEndAlike(a: string, b: string, d: int, lo: nat, hi: nat, at: nat)
    requires Window(a, b, d, lo, hi) && lo <= at <= hi && Inside(a, NameEnd(a, at), hi)
    ensures NameEnd(b, at + d) == NameEnd(a, at) + d
  {
    if at < hi && IsNameStart(a[at]) {
      NameRunAlike(a, b, d, lo, hi, at + 1);
    }
  }

  lemma {:induction false} WordRunAlike(a: string, b: string, d: int, lo: nat, hi: nat, at: nat)
    requires Window(a, b, d, lo, hi) && lo <= at <= hi && Inside(a, WordRun(a, at), hi)
    ensures WordRun(b, at + d) == WordRun(a, at) + d
    decreases hi - at
  {
    if at < hi && IsWordChar(a[at]) {
      WordRunAlike(a, b, d, lo, hi, at + 1);
    }
  }

  lemma {:induction false} PastFirstAlike(a: string, b: string, d: int, lo: nat, hi: nat, part: string, from: nat)
    requires Window(a, b, d, lo, hi) && lo <= from && part != ""
    requires PastFirst(a, part, from) <= hi
    ensures PastFirst(b, part, from + d) == PastFirst(a, part, from) + d
    decreases |a| - from
  {
    if from + |part| <= |a| {
      if from + |part| <= hi {
        assert a[from..from + |part|] == b[from + d..from + d + |part|];
      }
      if !StartsWith(a, part, from) {
        PastFirstAlike(a, b, d, lo, hi, part, from + 1);
      }
    }
  }

  /** No closing quote ends past the stretch without having been looked for there. */
  lemma {:induction false} ClosingReaches(sql: string, next: nat, quote: string, backslashes: bool)
    requires quote != ""
    ensures Closing(sql, next, quote, backslashes) == |sql| || next + |quote| <= Closing(sql, next, quote, backslashes)
    decreases |sql| - next
  {
    if next < |sql| {
      if backslashes && sql[next] == '\\' {
        ClosingReaches(sql, next + 2, quote, backslashes);
      } else if StartsWith(sql, quote, next) {
        if !backslashes && StartsWith(sql, quote, next + 1) {
          ClosingReaches(sql, next + 2, quote, backslashes);
        }
      } else {
        ClosingReaches(sql, next + 1, quote, backslashes);
      }
    }
  }

  /** A quote that is not doubled needs no character after it. */
  lemma {:induction false} ClosingAlike(a: string, b: string, d: int, lo: nat, hi: nat, next: nat, quote: string, backslashes: bool)
    requires Window(a, b, d, lo, hi) && lo <= next && quote != "" && (!backslashes ==> |quote| == 1)
    requires Closing(a, next, quote, backslashes) <= hi
    requires !backslashes ==> Inside(a, Closing(a, next, quote, backslashes), hi)
    ensures Closing(b, next + d, quote, backslashes) == Closing(a, next, quote, backslashes) + d
    decreases |a| - next
  {
    if next < |a| {
      ClosingReaches(a, next, quote, backslashes);
      assert next < hi;
      StartsAlike(a, b, d, lo, hi, quote, next);
      if backslashes && a[next] == '\\' {
        ClosingAlike(a, b, d, lo, hi, next + 2, quote, backslashes);
      } else if StartsWith(a, quote, next) {
        if !backslashes {
          ClosingReaches(a, next + 2, quote, backslashes);
          StartsAlike(a, b, d, lo, hi, quote, next + 1);
          if StartsWith(a, quote, next + 1) {
            ClosingAlike(a, b, d, lo, hi, next + 2, quote, backslashes);
          }
        }
      } else {
        ClosingAlike(a, b, d, lo, hi, next + 1, quote, backslashes);
      }
    }
  }

  lemma CommentTurn(sql: string, at: nat, depth: nat)
    requires at < |sql| && depth > 0
    ensures StartsWith(sql, "/*", at) || StartsWith(sql, "*/", at) ==> at + 2 <= |sql|
    ensures CommentEnd(sql, at, depth) ==
      if StartsWith(sql, "/*", at) then CommentEnd(sql, at + 2, depth + 1)
      else if StartsWith(sql, "*/", at) then CommentEnd(sql, at + 2, depth - 1)
      else CommentEnd(sql, at + 1, depth)
  {}

  lemma CommentStops(sql: string, at: nat, depth: nat)
    requires at <= |sql| && (at == |sql| || depth == 0)
    ensures CommentEnd(sql, at, depth) == at
  {}

  lemma {:induction false} CommentEndAlike(a: string, b: string, d: int, lo: nat, hi: nat, at: nat, depth: nat)
    requires Window(a, b, d, lo, hi) && lo <= at <= hi
    requires depth == 0 || CommentEnd(a, at, depth) <= hi
    ensures CommentEnd(b, at + d, depth) == CommentEnd(a, at, depth) + d
    decreases hi - at
  {
    hide CommentEnd, StartsWith;
    if depth == 0 || at == |a| {
      CommentStops(a, at, depth);
      CommentStops(b, at + d, depth);
    } else {
      CommentTurn(a, at, depth);
      CommentTurn(b, at + d, depth);
      StartsAlike(a, b, d, lo, hi, "/*", at);
      StartsAlike(a, b, d, lo, hi, "*/", at);
      if StartsWith(a, "/*", at) {
        CommentEndAlike(a, b, d, lo, hi, at + 2, depth + 1);
      } else if StartsWith(a, "*/", at) {
        CommentEndAlike(a, b, d, lo, hi, at + 2, depth - 1);
      } else {
        CommentEndAlike(a, b, d, lo, hi, at + 1, depth);
      }
    }
  }

  // ---- a whole turn of the loop ----

  /** An `e` that is all of a word is right behind. */
  predicate LoneE(sql: string, at: nat) {
    1 <= at <= |sql| && sql[at - 1] in {'E', 'e'} && !(at >= 2 && IsWordChar(sql[at - 2]))
  }

  /** The two characters behind are the same as far as a quote here asks. */
  predicate EscapesAlike(driver: Driver, a: string, at: nat, b: string, bt: nat) {
    driver.Postgres? && at < |a| && bt < |b| && a[at] == b[bt] == '\'' ==> (LoneE(a, at) <==> LoneE(b, bt))
  }

  /** A string whose quotes may be doubled. */
  predicate PlainQuote(sql: string, driver: Driver, at: nat) {
    driver.Postgres? && at < |sql| && sql[at] in {'\'', '"'} && !EscapeString(sql, at)
  }

  /** Where the turn at a quote looks next. */
  lemma NextAtQuote(sql: string, driver: Driver, at: nat)
    requires at < |sql| && sql[at] in {'\'', '"', '`'}
    ensures Next(sql, driver, at) ==
      if OpensTriple(sql, driver, at) then Closing(sql, at + 3, sql[at..at + 3], true)
      else Closing(sql, at + 1, [sql[at]], driver.BigQuery? || sql[at] == '`' || EscapeString(sql, at))
  {
    hide Closing, EscapeString, NameEnd, PastFirst, WordRun, CommentEnd;
  }

  lemma NextAtDollar(sql: string, at: nat)
    requires at < |sql| && sql[at] == '$'
    ensures Next(sql, Postgres, at) ==
      if OpensDollarQuote(sql, at) then PastFirst(sql, sql[at..NameEnd(sql, at + 1) + 1], NameEnd(sql, at + 1) + 1)
      else WordRun(sql, at + 1)
  {
    hide Closing, EscapeString, NameEnd, PastFirst, WordRun, CommentEnd;
  }

  lemma NextAtAt(sql: string, driver: Driver, at: nat)
    requires at < |sql| && sql[at] == '@'
    ensures Next(sql, driver, at) == NameEnd(sql, if IsSystem(sql, at) then at + 2 else at + 1)
  {
    hide Closing, EscapeString, NameEnd, PastFirst, WordRun, CommentEnd;
  }

  predicate OpensLineComment(sql: string, driver: Driver, at: nat)
    requires at < |sql|
  {
    StartsWith(sql, "--", at) || (driver.BigQuery? && sql[at] == '#')
  }

  lemma NextAtOther(sql: string, driver: Driver, at: nat)
    requires at < |sql| && sql[at] !in {'\'', '"', '`', '@'} && (driver.Postgres? ==> sql[at] != '$')
    ensures StartsWith(sql, "/*", at) ==> at + 2 <= |sql|
    ensures Next(sql, driver, at) ==
      if OpensLineComment(sql, driver, at) then PastFirst(sql, "\n", at)
      else if StartsWith(sql, "/*", at) then CommentEnd(sql, at + 2, 1)
      else if IsWordChar(sql[at]) then WordRun(sql, at + 1)
      else at + 1
  {
    hide Closing, EscapeString, NameEnd, PastFirst, WordRun, CommentEnd;
  }

  lemma TripleAlike(a: string, b: string, d: int, lo: nat, hi: nat, driver: Driver)
    requires Window(a, b, d, lo, hi) && (lo + 3 <= hi || hi == |a|)
    ensures OpensTriple(a, driver, lo) <==> OpensTriple(b, driver, lo + d)
  {
    StartsAlike(a, b, d, lo, hi, "\'\'\'", lo);
    StartsAlike(a, b, d, lo, hi, "\"\"\"", lo);
  }

  lemma SliceAlike(a: string, b: string, d: int, lo: nat, hi: nat, from: nat, until: nat)
    requires Window(a, b, d, lo, hi) && lo <= from <= until <= hi
    ensures 0 <= from + d <= until + d <= |b| && a[from..until] == b[from + d..until + d]
  {}

  /** A string's turn ends alike where its quote closes; a plain one's, where the next character is seen too. */
  lemma QuoteTurnAlike(a: string, b: string, d: int, lo: nat, hi: nat, driver: Driver)
    requires Window(a, b, d, lo, hi) && lo < hi && EscapesAlike(driver, a, lo, b, lo + d)
    requires a[lo] in {'\'', '"', '`'} && Next(a, driver, lo) <= hi
    requires PlainQuote(a, driver, lo) ==> Inside(a, Next(a, driver, lo), hi)
    requires OpensTriple(a, driver, lo) <==> OpensTriple(b, driver, lo + d)
    ensures Next(b, driver, lo + d) == Next(a, driver, lo) + d
  {
    hide Next, Closing;
    NextAtQuote(a, driver, lo);
    NextAtQuote(b, driver, lo + d);
    if OpensTriple(a, driver, lo) {
      TripleIsThree(a, driver, lo);
      SliceAlike(a, b, d, lo, hi, lo, lo + 3);
      ClosingAlike(a, b, d, lo, hi, lo + 3, a[lo..lo + 3], true);
    } else {
      var backslashes := driver.BigQuery? || a[lo] == '`' || EscapeString(a, lo);
      ClosingAlike(a, b, d, lo, hi, lo + 1, [a[lo]], backslashes);
    }
  }

  lemma TripleIsThree(sql: string, driver: Driver, at: nat)
    requires OpensTriple(sql, driver, at)
    ensures at + 3 <= |sql| && sql[at..at + 3] != ""
    ensures at + 3 <= Closing(sql, at + 3, sql[at..at + 3], true)
  {
    ClosingReaches(sql, at + 3, sql[at..at + 3], true);
  }

  /** A quote's turn takes two characters at least, if the text has them. */
  lemma QuoteIsTwo(sql: string, driver: Driver, at: nat)
    requires at < |sql| && sql[at] in {'\'', '"', '`'}
    ensures Next(sql, driver, at) >= at + 2 || Next(sql, driver, at) == |sql|
  {
    hide Next, Closing;
    NextAtQuote(sql, driver, at);
    if OpensTriple(sql, driver, at) {
      TripleIsThree(sql, driver, at);
    } else {
      ClosingReaches(sql, at + 1, [sql[at]], driver.BigQuery? || sql[at] == '`' || EscapeString(sql, at));
    }
  }

  lemma DollarQuoteTurnAlike(a: string, b: string, d: int, lo: nat, hi: nat)
    requires Window(a, b, d, lo, hi) && lo < hi && a[lo] == '$' && OpensDollarQuote(a, lo)
    requires Next(a, Postgres, lo) <= hi
    ensures Next(b, Postgres, lo + d) == Next(a, Postgres, lo) + d
  {
    hide NameEnd, PastFirst, WordRun, Next;
    NextAtDollar(a, lo);
    NextAtDollar(b, lo + d);
    var end := NameEnd(a, lo + 1);
    assert end + 1 <= PastFirst(a, a[lo..end + 1], end + 1);
    NameEndAlike(a, b, d, lo, hi, lo + 1);
    SliceAlike(a, b, d, lo, hi, lo, end + 1);
    PastFirstAlike(a, b, d, lo, hi, a[lo..end + 1], end + 1);
  }

  lemma {:induction false} NamesAreWords(sql: string, at: nat)
    requires at <= |sql|
    ensures NameRun(sql, at) <= WordRun(sql, at)
    decreases |sql| - at
  {
    if at < |sql| && IsNameChar(sql[at]) {
      NamesAreWords(sql, at + 1);
    }
  }

  lemma NameEndIsInside(sql: string, at: nat)
    requires at <= |sql|
    ensures NameEnd(sql, at) <= WordRun(sql, at)
  {
    NamesAreWords(sql, at);
    if at < |sql| && IsNameStart(sql[at]) {
      NamesAreWords(sql, at + 1);
      WordRunStep(sql, at);
    }
  }

  lemma DollarWordTurnAlike(a: string, b: string, d: int, lo: nat, hi: nat)
    requires Window(a, b, d, lo, hi) && lo < hi && a[lo] == '$' && !OpensDollarQuote(a, lo)
    requires Inside(a, Next(a, Postgres, lo), hi)
    ensures Next(b, Postgres, lo + d) == Next(a, Postgres, lo) + d
  {
    hide NameEnd, PastFirst, WordRun, Next;
    NextAtDollar(a, lo);
    NextAtDollar(b, lo + d);
    NameEndIsInside(a, lo + 1);
    NameEndAlike(a, b, d, lo, hi, lo + 1);
    WordRunAlike(a, b, d, lo, hi, lo + 1);
    var end := NameEnd(a, lo + 1);
    if end < hi {
      assert a[end] == b[end + d];
    }
  }

  lemma WordRunStep(sql: string, at: nat)
    requires at < |sql| && IsWordChar(sql[at])
    ensures WordRun(sql, at) == WordRun(sql, at + 1)
  {}

  lemma AtTurnAlike(a: string, b: string, d: int, lo: nat, hi: nat, driver: Driver)
    requires Window(a, b, d, lo, hi) && lo < hi && a[lo] == '@'
    requires Inside(a, Next(a, driver, lo), hi)
    ensures Next(b, driver, lo + d) == Next(a, driver, lo) + d
    ensures IsBlank(b, lo + d) <==> IsBlank(a, lo)
  {
    hide NameEnd, Next;
    NextAtAt(a, driver, lo);
    NextAtAt(b, driver, lo + d);
    if lo + 1 < hi {
      assert a[lo + 1] == b[lo + 1 + d];
    }
    NameEndAlike(a, b, d, lo, hi, if IsSystem(a, lo) then lo + 2 else lo + 1);
  }

  lemma CommentTurnAlike(a: string, b: string, d: int, lo: nat, hi: nat, driver: Driver)
    requires Window(a, b, d, lo, hi) && lo < hi && Next(a, driver, lo) <= hi
    requires a[lo] !in {'\'', '"', '`', '@', '$'} && (OpensLineComment(a, driver, lo) || StartsWith(a, "/*", lo))
    ensures Next(b, driver, lo + d) == Next(a, driver, lo) + d
  {
    hide PastFirst, WordRun, CommentEnd, Next, IsWordChar;
    NextAtOther(a, driver, lo);
    NextAtOther(b, driver, lo + d);
    PastFirstSpans(a, lo);
    if lo + 2 <= hi {
      StartsAlike(a, b, d, lo, hi, "--", lo);
      StartsAlike(a, b, d, lo, hi, "/*", lo);
    }
    if OpensLineComment(a, driver, lo) {
      PastFirstAlike(a, b, d, lo, hi, "\n", lo);
    } else {
      CommentEndAlike(a, b, d, lo, hi, lo + 2, 1);
    }
  }

  /** A line comment of two minuses does not end at the first. */
  lemma PastFirstSpans(sql: string, at: nat)
    requires at < |sql|
    ensures StartsWith(sql, "--", at) ==> PastFirst(sql, "\n", at) >= at + 2
  {
    if StartsWith(sql, "--", at) {
      PartAt(sql, "--", at);
      assert sql[at..at + 1] == "-" && sql[at + 1..at + 2] == "-";
    }
  }

  lemma OtherTurnAlike(a: string, b: string, d: int, lo: nat, hi: nat, driver: Driver)
    requires Window(a, b, d, lo, hi) && lo < hi && Inside(a, Next(a, driver, lo), hi)
    requires a[lo] !in {'\'', '"', '`', '@'} && (driver.Postgres? ==> a[lo] != '$')
    ensures Next(b, driver, lo + d) == Next(a, driver, lo) + d
  {
    hide PastFirst, WordRun, CommentEnd, Next, IsWordChar;
    if a[lo] != '$' && (OpensLineComment(a, driver, lo) || StartsWith(a, "/*", lo)) {
      CommentTurnAlike(a, b, d, lo, hi, driver);
    } else {
      NextAtOther(a, driver, lo);
      NextAtOther(b, driver, lo + d);
      StartsAlike(a, b, d, lo, hi, "--", lo);
      StartsAlike(a, b, d, lo, hi, "/*", lo);
      NotDollar(a, lo);
      if IsWordChar(a[lo]) {
        WordRunAlike(a, b, d, lo, hi, lo + 1);
      }
    }
  }

  lemma NotDollar(sql: string, at: nat)
    requires at < |sql|
    ensures sql[at] == '$' ==> !StartsWith(sql, "--", at) && !StartsWith(sql, "/*", at)
  {
    hide StartsWith;
    CharOf(sql, "--", at, 0);
    CharOf(sql, "/*", at, 0);
  }

  /** One turn that stays inside a window is the same turn in both texts. */
  lemma TurnAlike(a: string, b: string, d: int, lo: nat, hi: nat, driver: Driver)
    requires Window(a, b, d, lo, hi) && lo < hi && EscapesAlike(driver, a, lo, b, lo + d)
    requires Inside(a, Next(a, driver, lo), hi)
    ensures Next(b, driver, lo + d) == Next(a, driver, lo) + d
    ensures IsBlank(b, lo + d) <==> IsBlank(a, lo)
  {
    hide Next, PlainQuote;
    if a[lo] in {'\'', '"', '`'} {
      QuoteIsTwo(a, driver, lo);
      TripleAlike(a, b, d, lo, hi, driver);
      QuoteTurnAlike(a, b, d, lo, hi, driver);
    } else if a[lo] == '$' && driver.Postgres? {
      if OpensDollarQuote(a, lo) {
        DollarQuoteTurnAlike(a, b, d, lo, hi);
      } else {
        DollarWordTurnAlike(a, b, d, lo, hi);
      }
    } else if a[lo] == '@' {
      AtTurnAlike(a, b, d, lo, hi, driver);
    } else {
      OtherTurnAlike(a, b, d, lo, hi, driver);
    }
  }
}
