/**
 * The statements and values that break what `TemplateTheorems.Fits` leaves out,
 * one kind of neighbourhood at a time, and with them that it is exact.
 */
module TemplateWitnesses {
  import opened Basics
  import opened Chars
  import opened TemplateScanner
  import opened TemplateLocality
  import opened TemplateLiterals
  import opened TemplateFilling
  import opened TemplateSeams
  import opened TemplateJoins
  import opened TemplateTheorems
  import opened TemplateNeighbours

  /** A name for a blank to hide or to show, another than the one that is filled. */
  function Marker(name: string): char {
    if name == "y" then 'z' else 'y'
  }

  lemma MarkerDiffers(name: string)
    ensures [Marker(name)] != name && IsNameStart(Marker(name))
  {
    assert Marker(name) == 'z' ==> name[0] == 'y';
  }

  /** A blank of one letter. */
  lemma BlankHere(sql: string, driver: Driver, at: nat)
    requires at + 1 < |sql| && sql[at] == '@' && IsNameStart(sql[at + 1])
    requires at + 2 < |sql| ==> !IsNameChar(sql[at + 2])
    ensures at + 2 <= |sql|
    ensures BlanksFrom(sql, driver, at) == [Blank([sql[at + 1]], at, at + 2)] + BlanksFrom(sql, driver, at + 2)
  {
    hide Next, BlanksFrom;
    assert NameRun(sql, at + 2) == at + 2;
    assert sql[at + 1..at + 2] == [sql[at + 1]];
    BlankTurn(sql, driver, at);
    BlanksTurn(sql, driver, at);
  }

  lemma NotABlank(sql: string, driver: Driver, at: nat)
    requires at < |sql| && !IsBlank(sql, at)
    ensures BlanksFrom(sql, driver, at) == BlanksFrom(sql, driver, Next(sql, driver, at))
  {
    hide Next, IsBlank;
    BlanksTurn(sql, driver, at);
  }

  lemma NumberWritten(digits: string, driver: Driver)
    requires digits in {"1", "5", "1.5"}
    ensures Spliceable(Value(Number, digits)) && Written(Value(Number, digits), driver) == digits
  {
    assert Trim(digits) == digits;
    assert IsNumber(digits);
  }

  // ---- PostgreSQL, before a dollar ----

  lemma DollarsHide(w: string, e: nat, m: char)
    requires e + 6 == |w| && w[e..] == "$$@" + [m] + "$$" && IsNameStart(m)
    ensures BlanksFrom(w, Postgres, e) == []
  {
    hide Next, BlanksFrom;
    var rest := w[e..];
    assert w[e] == rest[0] && w[e + 1] == rest[1] && w[e + 2] == rest[2] && w[e + 3] == rest[3];
    assert w[e..e + 2] == "$$" && w[e + 4..e + 6] == rest[4..6] == "$$";
    assert w[e + 2..e + 4] == ['@', m] && w[e + 3..e + 5] == [m, '$'];
    NextAtDollar(w, e);
    assert NameEnd(w, e + 1) == e + 1;
    assert PastFirst(w, "$$", e + 2) == PastFirst(w, "$$", e + 3) == PastFirst(w, "$$", e + 4) == e + 6;
    NotABlank(w, Postgres, e);
    BlanksEnd(w, Postgres, e + 6);
  }

  /** A number takes the dollars in, and their inside is read. */
  lemma DollarsShow(full: string, s: nat, m: char)
    requires s + 9 == |full| && full[s..] == "1.5$$@" + [m] + "$$" && IsNameStart(m)
    ensures BlanksFrom(full, Postgres, s) != []
  {
    hide Next, BlanksFrom, WordRun;
    var rest := full[s..];
    forall k | 0 <= k < 9
      ensures full[s + k] == rest[k]
    {}
    assert rest[0] == '1' && rest[1] == '.' && rest[2] == '5' && rest[3] == '$' && rest[4] == '$' && rest[5] == '@';
    assert rest[6] == m && rest[7] == '$';
    WordTurn(full, Postgres, s);
    WordRunIs(full, s, s + 1);
    NotABlank(full, Postgres, s);
    MarkTurnAlone(full, s + 1);
    NotABlank(full, Postgres, s + 1);
    WordTurn(full, Postgres, s + 2);
    WordRunIs(full, s + 2, s + 5);
    NotABlank(full, Postgres, s + 2);
    BlankHere(full, Postgres, s + 5);
  }

  lemma WordRunIs(sql: string, at: nat, end: nat)
    requires at <= end < |sql| && !IsWordChar(sql[end]) && forall i :: at <= i < end ==> IsWordChar(sql[i])
    ensures WordRun(sql, at) == end
  {
    WordRunThrough(sql, at, end);
  }

  lemma MarkTurnAlone(sql: string, at: nat)
    requires CharAt(sql, at, '.')
    ensures Next(sql, Postgres, at) == at + 1 && !IsBlank(sql, at)
  {
    hide Next, StartsWith;
    NextAtOther(sql, Postgres, at);
    CharOf(sql, "--", at, 0);
    CharOf(sql, "/*", at, 0);
  }

  lemma BeforeADollar(sql: string, i: nat) returns (w: string, value: Value)
    requires FirstOfItsName(sql, Postgres, i)
    requires var n := NeighbourhoodOf(sql, Blanks(sql, Postgres), i); n.blankBehind.None? && n.ahead == "$"
    ensures Broken(Postgres, NeighbourhoodOf(sql, Blanks(sql, Postgres), i), w, i, value)
  {
    hide Blanks, BlanksFrom, Written, Spliceable, With, Broken, NameRun;
    var b := Blanks(sql, Postgres)[i];
    BlankOf(sql, Postgres, i);
    var m := Marker(b.name);
    MarkerDiffers(b.name);
    var rest := "$$@" + [m] + "$$";
    w, value := Instead(sql, b, rest), Value(Number, "1.5");
    NumberWritten("1.5", Postgres);
    assert w[b.end..] == rest;
    DollarsHide(w, b.end, m);
    RunOfOne("1.5" + rest);
    SuitsMeets(sql, Postgres, i, rest, value);
    var full := With(w, b, value, Postgres);
    assert full[b.start..] == "1.5$$@" + [m] + "$$";
    DollarsShow(full, b.start, m);
    CountsBreak(sql, Postgres, i, rest, value);
  }

  lemma RunOfOne(text: string)
    requires |text| > 1 && IsNameChar(text[0]) && !IsNameChar(text[1])
    ensures NameRun(text, 0) == 1
  {
    assert NameRun(text, 1) == 1;
  }

  // ---- PostgreSQL, an `e` before a quote ----

  /** Nothing is found in a string whose backslash escapes its second quote. */
  lemma EscapeHides(w: string, e: nat, m: char)
    requires e + 6 == |w| && w[e..] == "'\\'@" + [m] + "'" && LoneE(w, e) && IsNameStart(m)
    ensures BlanksFrom(w, Postgres, e) == []
  {
    hide Next, BlanksFrom;
    var rest := w[e..];
    assert w[e] == rest[0] && w[e + 1] == rest[1] && w[e + 3] == rest[3] && w[e + 4] == rest[4] && w[e + 5] == rest[5];
    NextAtQuote(w, Postgres, e);
    EscapedQuoteCloses(w, e, m);
    NotABlank(w, Postgres, e);
    BlanksEnd(w, Postgres, e + 6);
  }

  lemma EscapedQuoteCloses(w: string, e: nat, m: char)
    requires e + 6 == |w| && w[e + 1] == '\\' && w[e + 3] == '@' && w[e + 4] == m && w[e + 5] == '\'' && IsNameStart(m)
    ensures Closing(w, e + 1, "'", true) == e + 6
  {
    assert w[e + 3..e + 4] == "@" && w[e + 4..e + 5] == [m] && w[e + 5..e + 6] == "'";
    assert Closing(w, e + 5, "'", true) == e + 6;
    assert Closing(w, e + 4, "'", true) == e + 6;
    assert Closing(w, e + 3, "'", true) == e + 6;
  }

  /** After a number the string is plain, and ends at that quote. */
  lemma PlainShows(full: string, s: nat, m: char)
    requires s + 7 == |full| && full[s..] == "5'\\'@" + [m] + "'" && IsNameStart(m)
    ensures BlanksFrom(full, Postgres, s) != []
  {
    hide Next, BlanksFrom, WordRun;
    var rest := full[s..];
    forall k | 0 <= k < 7
      ensures full[s + k] == rest[k]
    {}
    assert rest[0] == '5' && rest[1] == '\'' && rest[2] == '\\' && rest[3] == '\'' && rest[4] == '@' && rest[5] == m;
    assert rest[6..] == "'";
    assert rest[6] == rest[6..][0];
    WordTurn(full, Postgres, s);
    WordRunIs(full, s, s + 1);
    NotABlank(full, Postgres, s);
    NextAtQuote(full, Postgres, s + 1);
    PlainCloses(full, s + 1);
    NotABlank(full, Postgres, s + 1);
    BlankHere(full, Postgres, s + 4);
  }

  lemma PlainCloses(sql: string, at: nat)
    requires at + 3 < |sql| && sql[at + 1] == '\\' && sql[at + 2] == '\'' && sql[at + 3] != '\''
    ensures Closing(sql, at + 1, "'", false) == at + 3
  {
    assert sql[at + 1..at + 2] == "\\" && sql[at + 2..at + 3] == "'" && sql[at + 3..at + 4] == [sql[at + 3]];
    assert Closing(sql, at + 1, "'", false) == Closing(sql, at + 2, "'", false);
  }

  lemma NamedE(w: string, b: Blank)
    requires b.start < b.end <= |w| && IsBlank(w, b.start) && b == BlankAt(w, b.start) && b.name in {"e", "E"}
    ensures LoneE(w, b.end)
  {
    assert w[b.start + 1] == b.name[0] && |b.name| == 1;
  }

  lemma BeforeAnEscape(sql: string, i: nat) returns (w: string, value: Value)
    requires FirstOfItsName(sql, Postgres, i)
    requires var n := NeighbourhoodOf(sql, Blanks(sql, Postgres), i);
      n.blankBehind.None? && n.ahead == "'" && n.name in {"e", "E"}
    ensures Broken(Postgres, NeighbourhoodOf(sql, Blanks(sql, Postgres), i), w, i, value)
  {
    hide Blanks, BlanksFrom, Written, Spliceable, With, Broken, NameRun, LoneE;
    var b := Blanks(sql, Postgres)[i];
    BlankOf(sql, Postgres, i);
    var m := Marker(b.name);
    MarkerDiffers(b.name);
    var rest := "'\\'@" + [m] + "'";
    w, value := Instead(sql, b, rest), Value(Number, "5");
    NumberWritten("5", Postgres);
    assert w[b.end..] == rest;
    InsteadStarts(sql, Postgres, i, rest);
    BlankOf(w, Postgres, i);
    NamedE(w, b);
    EscapeHides(w, b.end, m);
    RunOfOne("5" + rest);
    SuitsMeets(sql, Postgres, i, rest, value);
    var full := With(w, b, value, Postgres);
    assert full[b.start..] == "5'\\'@" + [m] + "'";
    PlainShows(full, b.start, m);
    CountsBreak(sql, Postgres, i, rest, value);
  }

  // ---- PostgreSQL, after an `e` ----

  lemma ShortHasNone(w: string, driver: Driver, e: nat)
    requires e <= |w| <= e + 1
    ensures BlanksFrom(w, driver, e) == []
  {
    if e < |w| {
      NotABlank(w, driver, e);
      BlanksEnd(w, driver, |w|);
    } else {
      BlanksEnd(w, driver, e);
    }
  }

  /** A text's second quote, escaped by the `e` before, leaves what follows outside. */
  lemma EscapeShows(full: string, s: nat, m: char)
    requires s + 7 <= |full| && full[s..s + 7] == "'\\''@" + [m] + "'" && LoneE(full, s) && IsNameStart(m)
    ensures BlanksFrom(full, Postgres, s) != []
  {
    hide Next, BlanksFrom;
    var text := full[s..s + 7];
    assert full[s] == text[0] && full[s + 1] == text[1] && full[s + 3] == text[3] && full[s + 4] == text[4];
    assert full[s + 5] == text[5] && full[s + 6] == text[6];
    NextAtQuote(full, Postgres, s);
    assert full[s + 3..s + 4] == "'";
    assert Closing(full, s + 1, "'", true) == Closing(full, s + 3, "'", true) == s + 4;
    NotABlank(full, Postgres, s);
    BlankHere(full, Postgres, s + 4);
  }

  lemma LiteralOf(m: char)
    requires IsNameStart(m)
    ensures Spliceable(Value(Text, "\\'@" + [m]))
    ensures Written(Value(Text, "\\'@" + [m]), Postgres) == "'\\''@" + [m] + "'"
  {
    var text := "\\'@" + [m];
    TextIsWritten(Value(Text, text), Postgres);
    LiteralEscapesEachCharacter(text, Postgres);
    assert text[1..] == "'@" + [m] && text[1..][1..] == "@" + [m] && text[1..][1..][1..] == [m];
    assert Escaped([m], Postgres) == [m] + Escaped([m][1..], Postgres);
    assert Escaped("@" + [m], Postgres) == "@" + [m];
    assert Escaped("'@" + [m], Postgres) == "''@" + [m];
  }

  lemma AfterALoneE(sql: string, i: nat) returns (w: string, value: Value)
    requires FirstOfItsName(sql, Postgres, i)
    requires var n := NeighbourhoodOf(sql, Blanks(sql, Postgres), i); n.blankBehind.None? && LoneE(n.behind, |n.behind|)
    ensures Broken(Postgres, NeighbourhoodOf(sql, Blanks(sql, Postgres), i), w, i, value)
  {
    hide Blanks, BlanksFrom, Written, Spliceable, With, Broken, NameRun, LoneE;
    var b := Blanks(sql, Postgres)[i];
    BlankOf(sql, Postgres, i);
    var m := Marker(b.name);
    MarkerDiffers(b.name);
    var rest := AheadOf(sql, b.end);
    w, value := Instead(sql, b, rest), Value(Text, "\\'@" + [m]);
    LiteralOf(m);
    ShortHasNone(w, Postgres, b.end);
    RunOfNone(Written(value, Postgres) + rest);
    SuitsMeets(sql, Postgres, i, rest, value);
    var full := With(w, b, value, Postgres);
    assert full[b.start..][..7] == full[b.start..b.start + 7];
    InsteadStarts(sql, Postgres, i, rest);
    SameBehind(sql, full, b.start);
    LoneEBehind(sql, b.start);
    LoneEBehind(full, b.start);
    EscapeShows(full, b.start, m);
    CountsBreak(sql, Postgres, i, rest, value);
  }

  lemma RunOfNone(text: string)
    requires |text| > 0 && !IsNameChar(text[0])
    ensures NameRun(text, 0) == 0
  {}

  /** Two characters behind are enough to tell. */
  lemma LoneEBehind(sql: string, at: nat)
    requires at <= |sql|
    ensures LoneE(BehindOf(sql, at), |BehindOf(sql, at)|) <==> LoneE(sql, at)
  {
    var behind := BehindOf(sql, at);
    assert at >= 1 ==> behind[|behind| - 1] == sql[at - 1];
    assert at >= 2 ==> behind[0] == sql[at - 2];
  }

  // ---- GoogleSQL, before a quote ----

  lemma StringThenBlank(w: string, e: nat, m: char)
    requires e + 5 == |w| && w[e..] == "'a'@" + [m] && IsNameStart(m)
    ensures BlanksFrom(w, BigQuery, e) == [Blank([m], e + 3, e + 5)]
  {
    hide Next, BlanksFrom, StartsWith;
    var rest := w[e..];
    assert w[e] == rest[0] && w[e + 1] == rest[1] && w[e + 2] == rest[2] && w[e + 3] == rest[3] && w[e + 4] == rest[4];
    CharOf(w, "'''", e, 1);
    CharOf(w, "\"\"\"", e, 1);
    NextAtQuote(w, BigQuery, e);
    ClosesAtThird(w, e);
    NotABlank(w, BigQuery, e);
    BlankHere(w, BigQuery, e + 3);
    BlanksEnd(w, BigQuery, e + 5);
  }

  lemma ClosesAtThird(sql: string, at: nat)
    requires at + 2 < |sql| && sql[at + 1] == 'a' && sql[at + 2] in {'\'', '"', '`'}
    ensures Closing(sql, at + 1, [sql[at + 2]], true) == at + 3
  {
    assert sql[at + 1..at + 2] == "a" && sql[at + 2..at + 3] == [sql[at + 2]];
    assert Closing(sql, at + 1, [sql[at + 2]], true) == Closing(sql, at + 2, [sql[at + 2]], true);
  }

  /** From here on no three quotes are in a row. */
  ghost predicate NoTriple(sql: string, from: nat) {
    forall k :: from <= k && k + 3 <= |sql| ==> !(sql[k] == sql[k + 1] == sql[k + 2] == '\'')
  }

  lemma {:induction false} NeverCloses(sql: string, from: nat)
    requires NoTriple(sql, from)
    ensures Closing(sql, from, "'''", true) == |sql|
    decreases |sql| - from
  {
    if from < |sql| {
      CharOf(sql, "'''", from, 0);
      CharOf(sql, "'''", from, 1);
      CharOf(sql, "'''", from, 2);
      NeverCloses(sql, if sql[from] == '\\' then from + 2 else from + 1);
    }
  }

  /** Three quotes open a string that hides all that follows. */
  lemma TripleHides(sql: string, at: nat)
    requires at + 3 <= |sql| && sql[at] == sql[at + 1] == sql[at + 2] == '\'' && NoTriple(sql, at + 3)
    ensures BlanksFrom(sql, BigQuery, at) == []
  {
    hide Next, BlanksFrom, Closing, NoTriple;
    assert sql[at..at + 3] == "'''";
    NextAtQuote(sql, BigQuery, at);
    NeverCloses(sql, at + 3);
    NotABlank(sql, BigQuery, at);
    BlanksEnd(sql, BigQuery, |sql|);
  }

  lemma EmptyWritten()
    ensures Spliceable(Value(Text, "")) && Written(Value(Text, ""), BigQuery) == "''"
  {
    TextIsWritten(Value(Text, ""), BigQuery);
    LiteralEscapesEachCharacter("", BigQuery);
  }

  lemma BeforeAQuote(sql: string, i: nat) returns (w: string, value: Value)
    requires FirstOfItsName(sql, BigQuery, i)
    requires var n := NeighbourhoodOf(sql, Blanks(sql, BigQuery), i);
      n.blankBehind.None? && n.ahead == "'" && n.behind != "''"
    ensures Broken(BigQuery, NeighbourhoodOf(sql, Blanks(sql, BigQuery), i), w, i, value)
  {
    hide Blanks, BlanksFrom, Written, Spliceable, With, Broken, NameRun;
    var b := Blanks(sql, BigQuery)[i];
    BlankOf(sql, BigQuery, i);
    var m := Marker(b.name);
    MarkerDiffers(b.name);
    var rest := "'a'@" + [m];
    w, value := Instead(sql, b, rest), Value(Text, "");
    EmptyWritten();
    assert w[b.end..] == rest;
    StringThenBlank(w, b.end, m);
    SuitsMeets(sql, BigQuery, i, rest, value);
    var full := With(w, b, value, BigQuery);
    ThreeThenA(full, b.start, m);
    TripleHides(full, b.start);
    CountsBreak(sql, BigQuery, i, rest, value);
  }

  lemma ThreeThenA(full: string, s: nat, m: char)
    requires s <= |full| && full[s..] == "''" + ("'a'@" + [m]) && IsNameStart(m)
    ensures s + 3 <= |full| && full[s] == full[s + 1] == full[s + 2] == '\'' && NoTriple(full, s + 3)
  {
    var rest := full[s..];
    assert |full| == s + 7;
    forall k | 0 <= k < 7
      ensures full[s + k] == rest[k]
    {}
    assert rest[0] == rest[1] == rest[2] == '\'' && rest[3] == 'a' && rest[4] == '\'' && rest[5] == '@' && rest[6] == m;
    assert full[s + 3] == 'a' && full[s + 5] == '@';
  }

  // ---- GoogleSQL, after two quotes ----

  function Tail(c: char, m: char): string {
    (if c in {'\'', '"', '`'} then ['a', c] else "") + "\n@" + [m]
  }

  lemma NewlineTurn(sql: string, at: nat)
    requires CharAt(sql, at, '\n')
    ensures BlanksFrom(sql, BigQuery, at) == BlanksFrom(sql, BigQuery, at + 1)
  {
    hide Next, StartsWith, BlanksFrom;
    NextAtOther(sql, BigQuery, at);
    CharOf(sql, "--", at, 0);
    CharOf(sql, "/*", at, 0);
    NotABlank(sql, BigQuery, at);
  }

  lemma QuotedThen(w: string, e: nat, c: char)
    requires e + 3 < |w| && w[e] == c == w[e + 2] && w[e + 1] == 'a' && c in {'\'', '"', '`'}
    ensures BlanksFrom(w, BigQuery, e) == BlanksFrom(w, BigQuery, e + 3)
  {
    hide Next, StartsWith, BlanksFrom;
    CharOf(w, "'''", e, 1);
    CharOf(w, "\"\"\"", e, 1);
    NextAtQuote(w, BigQuery, e);
    ClosesAtThird(w, e);
    NotABlank(w, BigQuery, e);
  }

  /** Whatever the character, before a newline nothing starts that does not end there. */
  lemma CharThen(w: string, e: nat)
    requires e + 1 < |w| && w[e + 1] == '\n' && !IsNameChar(w[e]) && w[e] !in {'\'', '"', '`'}
    ensures BlanksFrom(w, BigQuery, e) == BlanksFrom(w, BigQuery, e + 2)
  {
    hide Next, StartsWith, BlanksFrom, PastFirst, WordRun;
    if w[e] == '@' {
      NextAtAt(w, BigQuery, e);
      NotABlank(w, BigQuery, e);
      NewlineTurn(w, e + 1);
    } else {
      NextAtOther(w, BigQuery, e);
      CharOf(w, "--", e, 1);
      CharOf(w, "/*", e, 1);
      NotABlank(w, BigQuery, e);
      if w[e] == '#' {
        LineEnds(w, e);
      } else {
        NewlineTurn(w, e + 1);
        WordRunStops(w, e + 1);
      }
    }
  }

  lemma LineEnds(sql: string, at: nat)
    requires at + 1 < |sql| && sql[at] != '\n' && sql[at + 1] == '\n'
    ensures PastFirst(sql, "\n", at) == at + 2
  {
    assert sql[at..at + 1] == [sql[at]] && sql[at + 1..at + 2] == "\n";
    assert PastFirst(sql, "\n", at) == PastFirst(sql, "\n", at + 1);
  }

  lemma TailShows(w: string, e: nat, c: char, m: char)
    requires e <= |w| && w[e..] == [c] + Tail(c, m) && !IsNameChar(c) && IsNameStart(m)
    ensures |BlanksFrom(w, BigQuery, e)| == 1 && BlanksFrom(w, BigQuery, e)[0].name == [m]
  {
    hide BlanksFrom, IsNameChar, IsNameStart;
    var rest := w[e..];
    forall k | 0 <= k < |rest|
      ensures w[e + k] == rest[k]
    {}
    assert rest[0] == c;
    if c in {'\'', '"', '`'} {
      assert rest[1] == 'a' && rest[2] == c && rest[3] == '\n' && rest[4] == '@' && rest[5] == m;
      QuotedThen(w, e, c);
      NewlineTurn(w, e + 3);
      BlankHere(w, BigQuery, e + 4);
      BlanksEnd(w, BigQuery, e + 6);
    } else {
      assert rest[1] == '\n' && rest[2] == '@' && rest[3] == m;
      CharThen(w, e);
      BlankHere(w, BigQuery, e + 2);
      BlanksEnd(w, BigQuery, e + 4);
    }
  }

  /** A name as the scanner reads one. */
  ghost predicate IsName(name: string) {
    name != "" && IsNameStart(name[0]) && forall k :: 0 <= k < |name| ==> IsNameChar(name[k])
  }

  lemma BlankIsNamed(sql: string, at: nat)
    requires IsBlank(sql, at)
    ensures IsName(BlankAt(sql, at).name)
    ensures var end := BlankAt(sql, at).end; end < |sql| ==> !IsNameChar(sql[end])
  {}

  lemma NamedBlank(w: string, driver: Driver, at: nat, name: string)
    requires IsName(name) && at + 1 + |name| < |w| && w[at] == '@' && w[at + 1..at + 1 + |name|] == name
    requires !IsNameChar(w[at + 1 + |name|])
    ensures BlanksFrom(w, driver, at)
            == [Blank(name, at, at + 1 + |name|)] + BlanksFrom(w, driver, at + 1 + |name|)
  {
    hide Next, BlanksFrom;
    var end := at + 1 + |name|;
    forall i | at + 1 <= i < end
      ensures w[i] == name[i - at - 1]
    {}
    NameRunThrough(w, at + 2, end);
    assert NameRun(w, end) == end;
    assert IsNameStart(w[at + 1]);
    BlankTurn(w, driver, at);
    BlanksTurn(w, driver, at);
  }

  lemma ClosesAtOnce(sql: string, at: nat)
    requires CharAt(sql, at, '\'')
    ensures Closing(sql, at, "'", true) == at + 1
  {
    assert sql[at..at + 1] == "'";
  }

  lemma EmptyString(w: string)
    requires |w| > 2 && w[0] == w[1] == '\'' && w[2] == '@'
    ensures Blanks(w, BigQuery) == BlanksFrom(w, BigQuery, 2)
  {
    hide Next, StartsWith, BlanksFrom;
    CharOf(w, "'''", 0, 2);
    CharOf(w, "\"\"\"", 0, 0);
    NextAtQuote(w, BigQuery, 0);
    ClosesAtOnce(w, 1);
    NotABlank(w, BigQuery, 0);
  }

  lemma AfterTwoQuotesScan(w: string, name: string, c: char, m: char)
    requires w == "''@" + name + ([c] + Tail(c, m)) && IsName(name) && !IsNameChar(c) && IsNameStart(m) && [m] != name
    ensures |Blanks(w, BigQuery)| == 2 && Blanks(w, BigQuery)[0] == Blank(name, 2, 3 + |name|)
    ensures Blanks(w, BigQuery)[1].name == [m] && 3 + |name| < |w| && w[3 + |name|] == c
    ensures w[..2] == "''" && w[3 + |name|..] == [c] + Tail(c, m)
  {
    hide BlanksFrom, Blanks, Tail, IsName;
    var e := 3 + |name|;
    assert w[e..] == [c] + Tail(c, m) && w[3..e] == name;
    assert w[e] == w[e..][0];
    assert w[2] == "''@"[2];
    EmptyString(w);
    NamedBlank(w, BigQuery, 2, name);
    TailShows(w, e, c, m);
  }

  lemma ThreeThenB(full: string, c: char, m: char)
    requires full == "''" + ("'b'" + ([c] + Tail(c, m))) && IsNameStart(m)
    ensures full[0] == full[1] == full[2] == '\'' && NoTriple(full, 3)
  {
    assert full[3] == 'b' && full[4] == '\'' && full[5] == c;
    if c in {'\'', '"', '`'} {
      assert full[6] == 'a' && full[7] == c && full[8] == '\n' && full[9] == '@' && full[10] == m && |full| == 11;
    } else {
      assert full[6] == '\n' && full[7] == '@' && full[8] == m && |full| == 9;
    }
  }

  lemma TextB()
    ensures Spliceable(Value(Text, "b")) && Written(Value(Text, "b"), BigQuery) == "'b'"
  {
    TextIsWritten(Value(Text, "b"), BigQuery);
    LiteralEscapesEachCharacter("b", BigQuery);
    assert Escaped("b", BigQuery) == "b" + Escaped("b"[1..], BigQuery);
  }

  lemma AfterTwoQuotes(n: Neighbourhood, c: char) returns (w: string, value: Value)
    requires n == Neighbourhood(None, "''", n.name, [c]) && IsName(n.name) && !IsNameChar(c)
    ensures Broken(BigQuery, n, w, 0, value)
  {
    hide BlanksFrom, Written, Spliceable, Broken, Tail, IsName;
    var m := Marker(n.name);
    MarkerDiffers(n.name);
    w, value := "''@" + n.name + ([c] + Tail(c, m)), Value(Text, "b");
    AfterTwoQuotesScan(w, n.name, c, m);
    var b := Blanks(w, BigQuery)[0];
    assert NeighbourhoodOf(w, Blanks(w, BigQuery), 0) == n;
    TextB();
    var full := With(w, b, value, BigQuery);
    Associates("''", "'b'", [c] + Tail(c, m));
    ThreeThenB(full, c, m);
    TripleHides(full, 0);
    assert Blanks(full, BigQuery) == [];
    UnevenBreaks(w, BigQuery, 0, value);
  }

  // ---- either dialect, right after another blank ----

  lemma {:induction false} PlacesAt(blanks: seq<Blank>, k: nat)
    requires k < |blanks|
    ensures |Places(blanks)| == |blanks|
    ensures Places(blanks)[k] == (blanks[k].name, blanks[k].start as int, blanks[k].end as int)
  {
    PlacesNames(blanks);
    if k > 0 {
      PlacesAt(blanks[1..], k - 1);
    }
  }

  /** A number goes on the name of the blank before it. */
  lemma NameGoesOn(w: string, full: string, t: nat, s: nat)
    requires IsBlank(w, t) && BlankAt(w, t).end == s < |full| && full[..s] == w[..s] && full[s] == '1'
    ensures IsBlank(full, t) && BlankAt(full, t).start == t && BlankAt(full, t).end > s
  {
    forall i | t <= i < s
      ensures full[i] == w[i]
    {
      assert full[..s][i] == w[..s][i];
    }
    NameRunThrough(full, t + 2, s);
    assert NameRun(full, s) > s;
  }

  lemma AfterABlankScan(w: string, full: string, driver: Driver, i: nat)
    requires 0 < i < |Blanks(w, driver)| && Blanks(w, driver)[i - 1].end == Blanks(w, driver)[i].start
    requires var s := Blanks(w, driver)[i].start; s < |w| && s < |full| && full[..s] == w[..s] && full[s] == '1'
    ensures i - 1 < |Blanks(full, driver)| && Blanks(full, driver)[i - 1].end > Blanks(w, driver)[i - 1].end
  {
    hide BlanksFrom, IsBlank, Next;
    var z := Blanks(w, driver)[i - 1];
    var s := z.end;
    BlankOf(w, driver, i - 1);
    BlankIsTwo(w, z.start);
    assert w[..z.start + 1] == w[..s][..z.start + 1] == full[..s][..z.start + 1] == full[..z.start + 1];
    SameUpTo(w, full, driver, 0, i - 1);
    NameGoesOn(w, full, z.start, s);
    BlanksTurn(full, driver, z.start);
  }

  lemma AfterABlank(sql: string, driver: Driver, i: nat) returns (w: string, value: Value)
    requires FirstOfItsName(sql, driver, i) && NeighbourhoodOf(sql, Blanks(sql, driver), i).blankBehind.Some?
    ensures Broken(driver, NeighbourhoodOf(sql, Blanks(sql, driver), i), w, i, value)
  {
    hide BlanksFrom, Blanks, Written, Spliceable, Starts, FilledIn;
    var b := Blanks(sql, driver)[i];
    BlankOf(sql, driver, i);
    var rest := AheadOf(sql, b.end);
    w, value := Instead(sql, b, rest), Value(Number, "1");
    NumberWritten("1", driver);
    ShortHasNone(w, driver, b.end);
    InsteadStarts(sql, driver, i, rest);
    InsteadIsOnly(sql, driver, i, rest);
    BlankOf(w, driver, i);
    FillsOne(w, driver, i, value);
    var full := With(w, b, value, driver);
    WithParts(w, b, value, driver, rest);
    assert Blanks(w, driver)[..i + 1][i - 1] == Blanks(sql, driver)[..i + 1][i - 1];
    AfterABlankScan(w, full, driver, i);
    PlacesAt(Blanks(full, driver), i - 1);
    RemainingButOne(Blanks(w, driver), driver, map[b.name := value], 0, i);
  }

  function Touching(x: string, z: string, rest: string): string {
    "@" + x + ("@" + z + rest)
  }

  lemma TouchingBlanks(x: string, z: string, c: char, m: char)
    requires IsName(x) && IsName(z) && !IsNameChar(c) && IsNameStart(m)
    ensures var w, s, e := Touching(x, z, [c] + Tail(c, m)), 1 + |x|, 2 + |x| + |z|;
      && e < |w| && w[e..] == [c] + Tail(c, m)
      && |Blanks(w, BigQuery)| == 3 && Blanks(w, BigQuery)[0] == Blank(x, 0, s) && Blanks(w, BigQuery)[1] == Blank(z, s, e)
      && Blanks(w, BigQuery)[2].name == [m]
  {
    hide BlanksFrom, Tail, IsName;
    var rest := [c] + Tail(c, m);
    var w, s, e := Touching(x, z, rest), 1 + |x|, 2 + |x| + |z|;
    assert w[1..s] == x && w[s + 1..e] == z && w[e..] == rest;
    assert w[0] == '@' && w[s] == '@' && w[e] == w[e..][0];
    NamedBlank(w, BigQuery, 0, x);
    NamedBlank(w, BigQuery, s, z);
    TailShows(w, e, c, m);
  }

  lemma FillsTwo(w: string, blanks: seq<Blank>, values: Values)
    requires |blanks| == 3 && WellPlaced(w, blanks, 0) && blanks[0].start == 0 && blanks[0].end == blanks[1].start
    requires blanks[0].name in values && blanks[1].name in values && blanks[2].name !in values
    ensures blanks[1].end <= |w|
    ensures Filled(w, BigQuery, values, blanks, 0)
            == Written(values[blanks[0].name], BigQuery) + (Written(values[blanks[1].name], BigQuery) + w[blanks[1].end..])
  {
    hide Written, Filled, WellPlaced;
    var s, e := blanks[0].end, blanks[1].end;
    FilledTurn(w, BigQuery, values, blanks, 0);
    assert blanks[1..][0] == blanks[1] && blanks[1..][1..] == blanks[2..] && blanks[2..][0] == blanks[2];
    FilledTurn(w, BigQuery, values, blanks[1..], s);
    FilledTurn(w, BigQuery, values, blanks[2..], e);
    FilledEnd(w, BigQuery, values, blanks[2..][1..], e);
    assert w[0..0] == "" && w[s..s] == "";
  }

  lemma TouchingFilled(x: string, z: string, c: char, m: char, values: Values)
    requires IsName(x) && IsName(z) && x != z && !IsNameChar(c) && IsNameStart(m) && [m] != x && [m] != z
    requires values == map[x := Value(Text, ""), z := Value(Text, "b")]
    ensures FilledIn(Touching(x, z, [c] + Tail(c, m)), BigQuery, values) == "''" + ("'b'" + ([c] + Tail(c, m)))
  {
    hide Blanks, FilledIn, Written, Filled, Tail, IsName, WellPlaced, Touching;
    var w := Touching(x, z, [c] + Tail(c, m));
    TouchingBlanks(x, z, c, m);
    EmptyWritten();
    TextB();
    FilledInIsFilled(w, BigQuery, values);
    FillsTwo(w, Blanks(w, BigQuery), values);
  }

  /**
   * In GoogleSQL a blank may touch one that is filled only at the statement's
   * end: two texts can make three quotes, and hide what comes after.
   */
  lemma TwoTextsTouch(x: string, z: string, c: char, m: char)
    requires IsName(x) && IsName(z) && x != z && !IsNameChar(c) && IsNameStart(m) && [m] != x && [m] != z
    ensures !Stable(Touching(x, z, [c] + Tail(c, m)), BigQuery, map[x := Value(Text, ""), z := Value(Text, "b")])
  {
    hide Blanks, FilledIn, Tail, IsName;
    var values: Values := map[x := Value(Text, ""), z := Value(Text, "b")];
    var w := Touching(x, z, [c] + Tail(c, m));
    var full := "''" + ("'b'" + ([c] + Tail(c, m)));
    TouchingBlanks(x, z, c, m);
    TouchingFilled(x, z, c, m, values);
    ThreeThenB(full, c, m);
    HiddenIsEmpty(full);
    ThirdRemains(Blanks(w, BigQuery), values);
  }

  lemma HiddenIsEmpty(full: string)
    requires |full| >= 3 && full[0] == full[1] == full[2] == '\'' && NoTriple(full, 3)
    ensures Places(Blanks(full, BigQuery)) == []
  {
    TripleHides(full, 0);
  }

  lemma ThirdRemains(blanks: seq<Blank>, values: Values)
    requires |blanks| == 3 && blanks[0].name in values && blanks[1].name in values && blanks[2].name !in values
    ensures Remaining(blanks, BigQuery, values, 0) != []
  {
    hide Written;
    var rest := blanks[1..];
    var shift := |Written(values[blanks[0].name], BigQuery)| - (blanks[0].end - blanks[0].start);
    assert rest[0] == blanks[1] && rest[1..][0] == blanks[2];
    RemainingButOne(rest, BigQuery, values, shift, 0);
  }

  // ---- all of them ----

  /** For every neighbourhood that does not fit, a statement and a value that break. */
  lemma WhatDoesNotFitBreaks(sql: string, driver: Driver, i: nat) returns (w: string, k: nat, value: Value)
    requires FirstOfItsName(sql, driver, i) && !Fits(driver, NeighbourhoodOf(sql, Blanks(sql, driver), i))
    ensures Broken(driver, NeighbourhoodOf(sql, Blanks(sql, driver), i), w, k, value)
  {
    hide Blanks, Broken, FirstOfItsName, LoneE, IsBlank;
    BlankFacts(sql, driver, i);
    var n := NeighbourhoodOf(sql, Blanks(sql, driver), i);
    k := i;
    if n.blankBehind.Some? {
      w, value := AfterABlank(sql, driver, i);
    } else if driver.Postgres? {
      if n.ahead == "$" {
        w, value := BeforeADollar(sql, i);
      } else if n.ahead == "'" && n.name in {"e", "E"} {
        w, value := BeforeAnEscape(sql, i);
      } else {
        w, value := AfterALoneE(sql, i);
      }
    } else if n.behind == "''" {
      k := 0;
      w, value := AfterTwoQuotes(n, n.ahead[0]);
    } else {
      w, value := BeforeAQuote(sql, i);
    }
  }

  lemma BlankFacts(sql: string, driver: Driver, i: nat)
    requires FirstOfItsName(sql, driver, i)
    ensures i < |Blanks(sql, driver)|
    ensures var n := NeighbourhoodOf(sql, Blanks(sql, driver), i);
      IsName(n.name) && (n.ahead != "" ==> n.ahead == [n.ahead[0]] && !IsNameChar(n.ahead[0]))
  {
    BlankOf(sql, driver, i);
    BlankIsNamed(sql, Blanks(sql, driver)[i].start);
  }

  /** Values, none of them raw SQL, for blanks that all have one neighbourhood. */
  ghost predicate OnlyThere(sql: string, driver: Driver, values: Values, n: Neighbourhood) {
    forall i :: 0 <= i < |Blanks(sql, driver)| && Blanks(sql, driver)[i].name in values ==>
      Spliceable(values[Blanks(sql, driver)[i].name]) && NeighbourhoodOf(sql, Blanks(sql, driver), i) == n
  }

  ghost predicate AlwaysStable(driver: Driver, n: Neighbourhood) {
    forall sql: string, values: Values :: OnlyThere(sql, driver, values, n) ==> Stable(sql, driver, values)
  }

  /**
   * `Fits` is exact: a neighbourhood that some statement's blank has, the first
   * of its name, fits just when any statement is stable whatever is written at
   * blanks that have it.
   */
  lemma FitsExactly(sql: string, driver: Driver, i: nat)
    requires FirstOfItsName(sql, driver, i)
    ensures Fits(driver, NeighbourhoodOf(sql, Blanks(sql, driver), i))
            <==> AlwaysStable(driver, NeighbourhoodOf(sql, Blanks(sql, driver), i))
  {
    hide Blanks, Stable, Fits, Spliceable, FirstOfItsName, NeighbourhoodOf;
    BlankFacts(sql, driver, i);
    var n := NeighbourhoodOf(sql, Blanks(sql, driver), i);
    if Fits(driver, n) {
      forall other: string, values: Values | OnlyThere(other, driver, values, n)
        ensures Stable(other, driver, values)
      {
        FillingIsStable(other, driver, values);
      }
    } else {
      var w, k, value := WhatDoesNotFitBreaks(sql, driver, i);
      BrokenIsOnlyThere(driver, n, w, k, value);
    }
  }

  lemma BrokenIsOnlyThere(driver: Driver, n: Neighbourhood, w: string, i: nat, value: Value)
    requires Broken(driver, n, w, i, value)
    ensures OnlyThere(w, driver, map[n.name := value], n) && !Stable(w, driver, map[n.name := value])
  {
    hide Blanks, Stable, Spliceable;
  }
}
