/**
 * What happens where a written value meets the text around it: a value is read
 * over as if it were not there, and so is the turn before it, whether it ends
 * where the value starts or takes the value in.
 */
module TemplateSeams {
  import opened Basics
  import opened Chars
  import opened TemplateScanner
  import opened TemplateLocality
  import opened TemplateLiterals
  import opened TemplateFilling

  // ---- places the scan goes on alike from ----

  /** Reading on from `x` finds, and fills, what reading on from `y` does. */
  ghost predicate Skips(sql: string, driver: Driver, others: Values, x: nat, y: nat) {
    && x <= y <= |sql|
    && BlanksFrom(sql, driver, x) == BlanksFrom(sql, driver, y)
    && ScanFilled(sql, driver, others, x) == sql[x..y] + ScanFilled(sql, driver, others, y)
  }

  lemma SkipsNothing(sql: string, driver: Driver, others: Values, x: nat)
    requires x <= |sql|
    ensures Skips(sql, driver, others, x, x)
  {
    assert sql[x..x] == "";
  }

  lemma SkipsOn(sql: string, driver: Driver, others: Values, x: nat, y: nat, z: nat)
    requires Skips(sql, driver, others, x, y) && Skips(sql, driver, others, y, z)
    ensures Skips(sql, driver, others, x, z)
  {
    hide BlanksFrom, ScanFilled;
    assert sql[x..z] == sql[x..y] + sql[y..z];
    Associates(sql[x..y], sql[y..z], ScanFilled(sql, driver, others, z));
  }

  lemma SkipsBack(sql: string, driver: Driver, others: Values, x: nat, y: nat, z: nat)
    requires Skips(sql, driver, others, x, z) && Skips(sql, driver, others, y, z) && x <= y
    ensures Skips(sql, driver, others, x, y)
  {
    hide BlanksFrom, ScanFilled;
    assert sql[x..z] == sql[x..y] + sql[y..z];
    Associates(sql[x..y], sql[y..z], ScanFilled(sql, driver, others, z));
  }

  lemma SkipsTurn(sql: string, driver: Driver, others: Values, x: nat)
    requires x < |sql| && !IsBlank(sql, x)
    ensures Skips(sql, driver, others, x, Next(sql, driver, x))
  {
    hide Next, BlanksFrom, ScanFilled, IsBlank;
    BlanksTurn(sql, driver, x);
    ScanFilledTurn(sql, driver, others, x);
  }

  /** Two turns that end in one place. */
  lemma SkipsWithin(sql: string, driver: Driver, others: Values, x: nat, y: nat)
    requires x <= y < |sql| && !IsBlank(sql, x) && !IsBlank(sql, y) && Next(sql, driver, x) == Next(sql, driver, y)
    ensures Skips(sql, driver, others, x, y)
  {
    hide Next, IsBlank, Skips;
    SkipsTurn(sql, driver, others, x);
    SkipsTurn(sql, driver, others, y);
    SkipsBack(sql, driver, others, x, y, Next(sql, driver, x));
  }

  // ---- runs ----

  lemma {:induction false} WordRunThrough(sql: string, x: nat, y: nat)
    requires x <= y <= |sql| && forall i :: x <= i < y ==> IsWordChar(sql[i])
    ensures WordRun(sql, x) == WordRun(sql, y)
    decreases y - x
  {
    if x < y {
      WordRunThrough(sql, x + 1, y);
    }
  }

  lemma {:induction false} NameRunThrough(sql: string, x: nat, y: nat)
    requires x <= y <= |sql| && forall i :: x <= i < y ==> IsNameChar(sql[i])
    ensures NameRun(sql, x) == NameRun(sql, y)
    decreases y - x
  {
    if x < y {
      NameRunThrough(sql, x + 1, y);
    }
  }

  /** A word that no dollar quote starts is one turn, wherever in it that starts. */
  lemma WordTurn(sql: string, driver: Driver, at: nat)
    requires at < |sql| && IsWordChar(sql[at]) && (driver.Postgres? && sql[at] == '$' ==> !OpensDollarQuote(sql, at))
    ensures Next(sql, driver, at) == WordRun(sql, at) && !IsBlank(sql, at)
  {
    hide Next, PastFirst, CommentEnd, WordRun;
    WordRunStep(sql, at);
    WordStartsNoComment(sql, at);
    if driver.Postgres? && sql[at] == '$' {
      NextAtDollar(sql, at);
    } else {
      NextAtOther(sql, driver, at);
    }
  }

  lemma WordStartsNoComment(sql: string, at: nat)
    requires at < |sql| && IsWordChar(sql[at])
    ensures !StartsWith(sql, "--", at) && !StartsWith(sql, "/*", at)
  {
    hide StartsWith;
    CharOf(sql, "--", at, 0);
    CharOf(sql, "/*", at, 0);
  }

  // ---- a value that is no text ----

  /** What a written text, number, boolean or NULL can start with. */
  predicate LiteralStart(c: char) {
    c in {'\'', '(', '.', 'T', 'F', 'N'} || IsDigit(c)
  }

  /** A character that starts nothing but itself or a word, save a second minus. */
  predicate Plain(c: char) {
    IsDigit(c) || 'A' <= c <= 'Z' || 'a' <= c <= 'z' || c in {'.', '+', '-', '(', ')'}
  }

  ghost predicate PlainStretch(sql: string, at: nat, end: nat) {
    && at <= end <= |sql|
    && (forall i :: at <= i < end ==> Plain(sql[i]))
    && (forall i :: at <= i < end && sql[i] == '-' ==> i + 1 < end && sql[i + 1] != '-')
  }

  /** What is after a plain value: in PostgreSQL no dollar, which a word would take in. */
  predicate EndsPlain(sql: string, driver: Driver, end: nat) {
    driver.Postgres? ==> !CharAt(sql, end, '$')
  }

  lemma MarkTurn(sql: string, driver: Driver, at: nat, end: nat)
    requires at < end && PlainStretch(sql, at, end) && !IsWordChar(sql[at])
    ensures Next(sql, driver, at) == at + 1 && !IsBlank(sql, at)
  {
    hide PastFirst, CommentEnd, WordRun, Next, StartsWith;
    assert Plain(sql[at]);
    CharOf(sql, "--", at, 0);
    CharOf(sql, "--", at, 1);
    CharOf(sql, "/*", at, 0);
    NextAtOther(sql, driver, at);
  }

  lemma {:induction false} PlainIsSkipped(sql: string, driver: Driver, others: Values, at: nat, end: nat)
    requires PlainStretch(sql, at, end) && EndsPlain(sql, driver, end)
    ensures Skips(sql, driver, others, at, end)
    decreases end - at
  {
    hide Next, Skips, WordRun;
    if at == end {
      SkipsNothing(sql, driver, others, at);
    } else if !IsWordChar(sql[at]) {
      MarkTurn(sql, driver, at, end);
      SkipsTurn(sql, driver, others, at);
      PlainIsSkipped(sql, driver, others, at + 1, end);
      SkipsOn(sql, driver, others, at, at + 1, end);
    } else {
      WordIsSkipped(sql, driver, others, at, end);
      var w := WordRun(sql, at);
      if w <= end {
        PlainIsSkipped(sql, driver, others, w, end);
        SkipsOn(sql, driver, others, at, w, end);
      }
    }
  }

  lemma WordIsSkipped(sql: string, driver: Driver, others: Values, at: nat, end: nat)
    requires at < end && PlainStretch(sql, at, end) && EndsPlain(sql, driver, end) && IsWordChar(sql[at])
    ensures at < WordRun(sql, at) && Skips(sql, driver, others, at, if WordRun(sql, at) <= end then WordRun(sql, at) else end)
  {
    hide Skips, Next;
    assert Plain(sql[at]);
    WordTurn(sql, driver, at);
    SkipsTurn(sql, driver, others, at);
    if WordRun(sql, at) > end {
      WordRunThrough(sql, at, end);
      WordTurn(sql, driver, end);
      SkipsWithin(sql, driver, others, at, end);
    }
  }

  // ---- a valid number is plain ----

  ghost predicate Digits(text: string, from: nat, to: nat)
    requires from <= to <= |text|
  {
    forall i :: from <= i < to ==> IsDigit(text[i])
  }

  ghost predicate PlainText(text: string) {
    && text != "" && LiteralStart(text[0])
    && (forall i :: 0 <= i < |text| ==> Plain(text[i]))
    && (forall i :: 0 <= i < |text| && text[i] == '-' ==> i + 1 < |text| && text[i + 1] != '-')
  }

  lemma ExponentIsPlain(text: string, at: nat)
    requires at <= |text| && IsExponent(text, at)
    ensures forall i :: at <= i < |text| ==> Plain(text[i])
    ensures forall i :: at <= i < |text| && text[i] == '-' ==> i + 1 < |text| && text[i + 1] != '-'
  {
    if at < |text| {
      var digits := if at + 1 < |text| && text[at + 1] in {'+', '-'} then at + 2 else at + 1;
      assert Digits(text, digits, |text|);
    }
  }

  lemma UnsignedIsPlain(text: string, at: nat)
    requires at <= |text| && IsUnsigned(text, at)
    ensures at < |text| && (IsDigit(text[at]) || text[at] == '.')
    ensures forall i :: at <= i < |text| ==> Plain(text[i])
    ensures forall i :: at <= i < |text| && text[i] == '-' ==> i + 1 < |text| && text[i + 1] != '-'
  {
    var whole := DigitsEnd(text, at);
    var point := whole < |text| && text[whole] == '.';
    var end := if point then DigitsEnd(text, whole + 1) else whole;
    assert IsExponent(text, end);
    ExponentIsPlain(text, end);
    assert forall i :: at <= i < end ==> IsDigit(text[i]) || text[i] == '.';
  }

  lemma NumberIsPlain(value: Value, driver: Driver)
    requires value.kind.Number? && Spliceable(value)
    ensures PlainText(Written(value, driver))
  {
    var number := Trim(value.text);
    UnsignedIsPlain(number, if IsSigned(number) then 1 else 0);
  }

  // ---- a text ----

  predicate CharAt(sql: string, at: nat, c: char) {
    at < |sql| && sql[at] == c
  }

  /** Where a quote follows a GoogleSQL text, the rest is another text and nothing more. */
  ghost predicate QuoteIsLast(sql: string, end: nat) {
    CharAt(sql, end, '\'') ==> exists text :: sql[end..] == Literal(text, BigQuery)
  }

  lemma TextIsSkipped(sql: string, driver: Driver, others: Values, at: nat, text: string)
    requires StartsWith(sql, Literal(text, driver), at)
    requires driver.Postgres? ==> !LoneE(sql, at)
    requires driver.BigQuery? ==> QuoteIsLast(sql, at + |Literal(text, driver)|)
    ensures Skips(sql, driver, others, at, at + |Literal(text, driver)|)
  {
    hide Next, Skips, Closing, Escaped, Literal, OpensTriple, ScanFilled, BlanksFrom;
    var end := at + |Literal(text, driver)|;
    if driver.BigQuery? && text == "" && CharAt(sql, end, '\'') {
      var last :| sql[end..] == Literal(last, BigQuery);
      TwoQuotes(sql, at);
      EmptyStringJoins(sql, others, at, last);
    } else {
      TextTurn(sql, driver, at, text);
      if driver.Postgres? && CharAt(sql, end, '\'') {
        AfterAQuote(sql, end);
        SkipsWithin(sql, driver, others, at, end);
      } else {
        SkipsTurn(sql, driver, others, at);
      }
    }
  }

  lemma TwoQuotes(sql: string, at: nat)
    requires StartsWith(sql, Literal("", BigQuery), at)
    ensures |Literal("", BigQuery)| == 2 && at + 2 <= |sql| && sql[at] == sql[at + 1] == '\''
  {
    hide Literal;
    LiteralEscapesEachCharacter("", BigQuery);
    PartAt(sql, Literal("", BigQuery), at);
  }

  /** In PostgreSQL a quote right after a text is one inside it, and what follows is read as after a new quote. */
  lemma TextTurn(sql: string, driver: Driver, at: nat, text: string)
    requires StartsWith(sql, Literal(text, driver), at)
    requires driver.Postgres? ==> !LoneE(sql, at)
    requires driver.BigQuery? && text == "" ==> !CharAt(sql, at + |Literal(text, driver)|, '\'')
    ensures at < |sql| && sql[at] == '\'' && !IsBlank(sql, at)
    ensures |Literal(text, driver)| >= 2 && CharAt(sql, at + |Literal(text, driver)| - 1, '\'')
    ensures var end := at + |Literal(text, driver)|;
      Next(sql, driver, at)
      == if driver.Postgres? && CharAt(sql, end, '\'') then Closing(sql, end + 1, "'", false) else end
  {
    hide Next, Closing, Escaped, Literal, NameEnd, StartsWith, OpensTriple;
    LiteralParts(sql, at, text, driver);
    ClosingOverEscaped(sql, at + 1, text, driver);
    NotTriple(sql, at, text, driver);
    NextAtQuote(sql, driver, at);
    ClosingQuote(sql, at + |Literal(text, driver)| - 1, driver);
  }

  lemma LiteralParts(sql: string, at: nat, text: string, driver: Driver)
    requires StartsWith(sql, Literal(text, driver), at)
    ensures |Literal(text, driver)| == |Escaped(text, driver)| + 2
    ensures var end := at + |Literal(text, driver)|;
      && end <= |sql| && sql[at] == '\'' && CharAt(sql, end - 1, '\'')
      && sql[at + 1..at + 1 + |Escaped(text, driver)|] == Escaped(text, driver)
  {
    hide Escaped, Literal;
    LiteralEscapesEachCharacter(text, driver);
    var inside := Escaped(text, driver);
    var end := at + |Literal(text, driver)|;
    PartAt(sql, Literal(text, driver), at);
    assert sql[at..end][1..|inside| + 1] == inside;
    assert sql[at + 1..at + 1 + |inside|] == inside;
  }

  lemma ClosingQuote(sql: string, at: nat, driver: Driver)
    requires CharAt(sql, at, '\'')
    ensures Closing(sql, at, "'", driver.BigQuery?)
            == if driver.Postgres? && CharAt(sql, at + 1, '\'') then Closing(sql, at + 2, "'", false) else at + 1
  {
    assert sql[at..at + 1] == "'";
    assert at + 1 < |sql| ==> sql[at + 1..at + 2] == [sql[at + 1]];
  }

  lemma AfterAQuote(sql: string, at: nat)
    requires at >= 1 && CharAt(sql, at - 1, '\'') && CharAt(sql, at, '\'')
    ensures Next(sql, Postgres, at) == Closing(sql, at + 1, "'", false) && !IsBlank(sql, at)
  {
    hide Next, Closing;
    NextAtQuote(sql, Postgres, at);
  }

  lemma NotTriple(sql: string, at: nat, text: string, driver: Driver)
    requires StartsWith(sql, Literal(text, driver), at)
    requires driver.BigQuery? && text == "" ==> !CharAt(sql, at + |Literal(text, driver)|, '\'')
    ensures !OpensTriple(sql, driver, at)
  {
    hide Literal, StartsWith;
    LiteralEscapesEachCharacter(text, driver);
    var written := Literal(text, driver);
    CharOf(sql, written, at, 0);
    CharOf(sql, written, at, 1);
    EndOf(sql, written, at);
    CharOf(sql, "\"\"\"", at, 0);
    CharOf(sql, "'''", at, 1);
    CharOf(sql, "'''", at, 2);
    if text != "" {
      assert written[1] == Escape(text[0], driver)[0];
    } else {
      assert written == "''";
    }
  }

  /** With nothing after it, a text may join an empty string's quotes: either way the rest is one string. */
  lemma EmptyStringJoins(b: string, others: Values, lo: nat, text: string)
    requires lo + 2 < |b| && b[lo] == b[lo + 1] == '\'' && b[lo + 2..] == Literal(text, BigQuery)
    ensures !IsBlank(b, lo) && Skips(b, BigQuery, others, lo, lo + 2)
  {
    hide Next, Closing, Skips, Literal, Escaped, OpensTriple;
    var written := Literal(text, BigQuery);
    assert b[lo + 2..lo + 2 + |written|] == written;
    LiteralParts(b, lo + 2, text, BigQuery);
    TextTurn(b, BigQuery, lo + 2, text);
    ThreeQuotes(b, lo);
    NextAtQuote(b, BigQuery, lo);
    TripleNeverCloses(b, lo + 3, text);
    SkipsWithin(b, BigQuery, others, lo, lo + 2);
  }

  lemma ThreeQuotes(sql: string, at: nat)
    requires at + 2 < |sql| && sql[at] == sql[at + 1] == sql[at + 2] == '\''
    ensures OpensTriple(sql, BigQuery, at) && sql[at..at + 3] == "'''"
  {
    assert sql[at..at + 3] == "'''";
  }

  lemma EscapeShape(c: char)
    ensures var first := Escape(c, BigQuery);
      first != "" && first[0] != '\'' && |first| == if first[0] == '\\' then 2 else 1
  {}

  lemma TripleEnds(sql: string, at: nat)
    requires at + 1 == |sql|
    ensures Closing(sql, at, "'''", true) == |sql|
  {}

  /** An escaped text holds no three quotes in a row that close. */
  lemma {:induction false} TripleNeverCloses(sql: string, at: nat, text: string)
    requires at + |Escaped(text, BigQuery)| + 1 == |sql|
    requires sql[at..at + |Escaped(text, BigQuery)|] == Escaped(text, BigQuery)
    ensures Closing(sql, at, "'''", true) == |sql|
    decreases |text|
  {
    hide Closing, Escape;
    var inside := Escaped(text, BigQuery);
    if text == "" {
      TripleEnds(sql, at);
    } else {
      var first := Escape(text[0], BigQuery);
      EscapeShape(text[0]);
      assert inside[|first|..] == Escaped(text[1..], BigQuery);
      assert sql[at..at + |inside|][|first|..] == sql[at + |first|..at + |inside|];
      assert sql[at] == sql[at..at + |inside|][0] == first[0];
      TripleNeverCloses(sql, at + |first|, text[1..]);
      TriplePassesOne(sql, at, first);
    }
  }

  lemma TriplePassesOne(sql: string, at: nat, first: string)
    requires at < |sql| && first != "" && sql[at] == first[0]
    requires |first| == if first[0] == '\\' then 2 else 1
    requires first[0] != '\''
    ensures Closing(sql, at, "'''", true) == Closing(sql, at + |first|, "'''", true)
  {
    CharOf(sql, "'''", at, 0);
  }

  lemma EndOf(s: string, part: string, at: nat)
    requires StartsWith(s, part, at)
    ensures at + |part| <= |s|
  {}

  // ---- any value but raw SQL ----

  lemma TextIsWritten(value: Value, driver: Driver)
    requires value.kind.Text?
    ensures Written(value, driver) == Literal(value.text, driver)
  {
    hide Literal;
  }

  lemma WrittenIsPlain(value: Value, driver: Driver)
    requires Spliceable(value) && !value.kind.Text?
    ensures PlainText(Written(value, driver))
  {
    if value.kind.Number? {
      NumberIsPlain(value, driver);
    }
  }

  lemma WrittenStarts(value: Value, driver: Driver)
    requires Spliceable(value)
    ensures Written(value, driver) != "" && LiteralStart(Written(value, driver)[0])
    ensures value.kind.Text? <==> Written(value, driver)[0] == '\''
  {
    if value.kind.Text? {
      TextIsWritten(value, driver);
    } else {
      hide Written;
      WrittenIsPlain(value, driver);
      assert Plain(Written(value, driver)[0]);
    }
  }

  lemma PlainTextIsAStretch(sql: string, at: nat, written: string)
    requires PlainText(written) && StartsWith(sql, written, at)
    ensures PlainStretch(sql, at, at + |written|)
  {
    hide Plain;
    PartAt(sql, written, at);
    var end := at + |written|;
    forall i {:trigger sql[i]} | at <= i < end
      ensures Plain(sql[i]) && (sql[i] == '-' ==> i + 1 < end && sql[i + 1] != '-')
    {
      assert sql[i] == written[i - at];
      if written[i - at] == '-' {
        assert sql[i + 1] == written[i + 1 - at];
      }
    }
  }

  /** What may follow a written value: no dollar in PostgreSQL, no quote in GoogleSQL but a last text's. */
  ghost predicate FreeAhead(sql: string, driver: Driver, end: nat) {
    EndsPlain(sql, driver, end) && (driver.BigQuery? ==> QuoteIsLast(sql, end))
  }

  /** A written value is read over: from its start and from its end the scan finds the same. */
  lemma WrittenIsSkipped(sql: string, driver: Driver, others: Values, at: nat, value: Value)
    requires Spliceable(value) && StartsWith(sql, Written(value, driver), at)
    requires FreeAhead(sql, driver, at + |Written(value, driver)|) && (driver.Postgres? ==> !LoneE(sql, at))
    ensures Skips(sql, driver, others, at, at + |Written(value, driver)|)
  {
    hide Skips, PlainText, Written, Spliceable, Literal, LoneE, PlainStretch, StartsWith;
    if value.kind.Text? {
      TextIsWritten(value, driver);
      TextIsSkipped(sql, driver, others, at, value.text);
    } else {
      WrittenIsPlain(value, driver);
      PlainTextIsAStretch(sql, at, Written(value, driver));
      PlainIsSkipped(sql, driver, others, at, at + |Written(value, driver)|);
    }
  }

  lemma PlainRunEnds(sql: string, at: nat, end: nat)
    requires PlainStretch(sql, at, end) && at < end
    ensures CharAt(sql, NameRun(sql, at), '$') ==> NameRun(sql, at) == NameRun(sql, end)
  {
    if NameRun(sql, at) < end {
      assert Plain(sql[NameRun(sql, at)]);
    } else {
      NameRunThrough(sql, at, end);
    }
  }

  lemma NoRunAtAQuote(sql: string, at: nat)
    requires CharAt(sql, at, '\'')
    ensures NameRun(sql, at) == at
  {}

  /** A name that a value ends, or starts, has a dollar after it only if it goes on past the value. */
  lemma WrittenRunEnds(sql: string, at: nat, value: Value)
    requires Spliceable(value) && StartsWith(sql, Written(value, Postgres), at)
    ensures at + |Written(value, Postgres)| <= |sql|
    ensures CharAt(sql, NameRun(sql, at), '$') ==> NameRun(sql, at) == NameRun(sql, at + |Written(value, Postgres)|)
  {
    EndOf(sql, Written(value, Postgres), at);
    hide PlainText, Written, Spliceable, PlainStretch, NameRun;
    if value.kind.Text? {
      WrittenStarts(value, Postgres);
      CharOf(sql, Written(value, Postgres), at, 0);
      NoRunAtAQuote(sql, at);
    } else {
      WrittenIsPlain(value, Postgres);
      PlainTextIsAStretch(sql, at, Written(value, Postgres));
      PlainRunEnds(sql, at, at + |Written(value, Postgres)|);
    }
  }

  predicate EndsInE(text: string) {
    text != "" && text[|text| - 1] in {'E', 'e'}
  }

  lemma DigitsEndNoE(text: string, at: nat)
    requires at < |text| && DigitsEnd(text, at) == |text|
    ensures !EndsInE(text)
  {
    assert IsDigit(text[|text| - 1]);
  }

  lemma ExponentEndsNoE(text: string, at: nat)
    requires at < |text| && IsExponent(text, at)
    ensures !EndsInE(text)
  {
    hide DigitsEnd;
    DigitsEndNoE(text, if at + 1 < |text| && text[at + 1] in {'+', '-'} then at + 2 else at + 1);
  }

  /** Where a number's exponent would start: after digits, a point, or both. */
  lemma MantissaEnds(text: string, at: nat) returns (end: nat)
    requires at <= |text| && IsUnsigned(text, at)
    ensures at < end <= |text| && IsExponent(text, end) && (IsDigit(text[end - 1]) || text[end - 1] == '.')
  {
    hide IsExponent;
    var whole := DigitsEnd(text, at);
    var point := whole < |text| && text[whole] == '.';
    end := if point then DigitsEnd(text, whole + 1) else whole;
  }

  lemma NumberEndsNoE(text: string, at: nat)
    requires at <= |text| && IsUnsigned(text, at)
    ensures !EndsInE(text)
  {
    hide IsUnsigned, IsExponent, DigitsEnd;
    var end := MantissaEnds(text, at);
    if end < |text| {
      ExponentEndsNoE(text, end);
    }
  }

  /** No value ends in an `e` that is all of a word. */
  lemma WrittenEndsNoE(sql: string, driver: Driver, at: nat, value: Value)
    requires Spliceable(value) && StartsWith(sql, Written(value, driver), at)
    ensures !LoneE(sql, at + |Written(value, driver)|)
  {
    var written := Written(value, driver);
    WrittenStarts(value, driver);
    EndOf(sql, written, at);
    CharOf(sql, written, at, |written| - 1);
    if value.kind.Boolean? {
      CharOf(sql, written, at, |written| - 2);
    } else {
      WrittenEnds(value, driver);
    }
  }

  lemma WrittenEnds(value: Value, driver: Driver)
    requires Spliceable(value) && !value.kind.Boolean?
    ensures !EndsInE(Written(value, driver))
  {
    if value.kind.Text? {
      TextIsWritten(value, driver);
      LiteralEscapesEachCharacter(value.text, driver);
    } else if value.kind.Number? {
      var number := Trim(value.text);
      NumberEndsNoE(number, if IsSigned(number) then 1 else 0);
    }
  }
}
