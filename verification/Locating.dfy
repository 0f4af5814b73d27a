/**
 * Where the cursor is in a statement, and where what follows it can be cut
 * (`Locate` and `Endings` of `bigquery-analyzer/complete.cc`).
 */
module Locating {
  import opened Basics
  import opened Chars
  import opened SqlTokens
  import opened SelectLists

  /** Where to stop keeping the statement, the parentheses then open, and whether a dot would be left last. */
  datatype Cut = Cut(at: nat, open: int, afterDot: bool)

  datatype Place = Place(statement: Span, quiet: bool, replace: Span, memberOf: Option<Span>, path: seq<string>,
                         afterFrom: bool, selectList: Option<StandIn>, cuts: seq<Cut>)

  /** What a tokenizer gives: tokens in order, apart, within the text, a keyword as long as its spelling. */
  ghost predicate WellFormed(tokens: seq<Token>, size: nat) {
    && (forall i :: 0 <= i < |tokens| ==> tokens[i].start < tokens[i].end <= size)
    && (forall i, j :: 0 <= i < j < |tokens| ==> tokens[i].end <= tokens[j].start)
    && (forall i :: 0 <= i < |tokens| && tokens[i].kind.Keyword? ==>
          tokens[i].end == tokens[i].start + |tokens[i].text|)
  }

  // ---- the statement the cursor is in ----

  predicate IsSemicolon(token: Token) {
    Is(token, ";")
  }

  predicate OpenLineComment(token: Token) {
    && token.kind.Comment? && !StartsWith(token.text, "/*", 0)
    && !(token.text != "" && token.text[|token.text| - 1] == '\n')
  }

  /** The cursor is past the start of a literal or comment and not past its end, an unended line comment's included. */
  predicate Quiets(token: Token, cursor: nat) {
    && (token.kind.Comment? || token.kind.Value?) && token.start < cursor
    && (cursor < token.end || (OpenLineComment(token) && cursor == token.end))
  }

  predicate IsWithin(token: Token, span: Span) {
    !token.kind.Comment? && !IsSemicolon(token) && span.start <= token.start < span.end
  }

  /** The tokens of a statement among the first `n`, without comments. */
  function Within(all: seq<Token>, n: nat, span: Span): seq<Token>
    requires n <= |all|
  {
    if n == 0 then []
    else Within(all, n - 1, span) + (if IsWithin(all[n - 1], span) then [all[n - 1]] else [])
  }

  ghost predicate NoSemicolonIn(all: seq<Token>, n: nat, span: Span)
    requires n <= |all|
  {
    forall i :: 0 <= i < n && IsSemicolon(all[i]) ==> all[i].end <= span.start || span.end <= all[i].start
  }

  ghost predicate AtSemicolonEnd(all: seq<Token>, n: nat, at: nat)
    requires n <= |all|
  {
    exists i :: 0 <= i < n && IsSemicolon(all[i]) && all[i].end == at
  }

  ghost predicate AtSemicolonStart(all: seq<Token>, n: nat, at: nat)
    requires n <= |all|
  {
    exists i :: 0 <= i < n && IsSemicolon(all[i]) && all[i].start == at
  }

  /** The span between semicolons the cursor is in. */
  ghost predicate IsStatement(all: seq<Token>, n: nat, size: nat, cursor: nat, span: Span)
    requires n <= |all|
  {
    && span.start <= cursor <= span.end <= size && NoSemicolonIn(all, n, span)
    && (span.start == 0 || AtSemicolonEnd(all, n, span.start))
    && (span.end == size || AtSemicolonStart(all, n, span.end))
  }

  ghost predicate IsQuiet(all: seq<Token>, n: nat, cursor: nat)
    requires n <= |all|
  {
    exists i :: 0 <= i < n && Quiets(all[i], cursor)
  }

  lemma {:induction false} WithinNone(all: seq<Token>, n: nat, span: Span)
    requires n <= |all| && forall i :: 0 <= i < n ==> all[i].start < span.start
    ensures Within(all, n, span) == []
  {
    if n > 0 {
      WithinNone(all, n - 1, span);
    }
  }

  lemma {:induction false} WithinSame(all: seq<Token>, n: nat, span: Span, shorter: Span)
    requires n <= |all| && span.start == shorter.start
    requires forall i :: 0 <= i < n ==> all[i].start < span.end && all[i].start < shorter.end
    ensures Within(all, n, span) == Within(all, n, shorter)
  {
    if n > 0 {
      WithinSame(all, n - 1, span, shorter);
    }
  }

  lemma StatementStays(all: seq<Token>, n: nat, size: nat, cursor: nat, span: Span)
    requires n < |all| && IsStatement(all, n, size, cursor, span)
    requires IsSemicolon(all[n]) ==> span.end <= all[n].start
    ensures IsStatement(all, n + 1, size, cursor, span)
  {
    if span.start != 0 {
      var i :| 0 <= i < n && IsSemicolon(all[i]) && all[i].end == span.start;
      assert AtSemicolonEnd(all, n + 1, span.start);
    }
    if span.end != size {
      var i :| 0 <= i < n && IsSemicolon(all[i]) && all[i].start == span.end;
      assert AtSemicolonStart(all, n + 1, span.end);
    }
  }

  lemma StatementEnds(all: seq<Token>, n: nat, size: nat, cursor: nat, span: Span)
    requires WellFormed(all, size) && n < |all| && IsStatement(all, n, size, cursor, span)
    requires IsSemicolon(all[n]) && cursor < all[n].end && span.end == size
    ensures IsStatement(all, n + 1, size, cursor, Span(span.start, all[n].start))
  {
    if span.start != 0 {
      var i :| 0 <= i < n && IsSemicolon(all[i]) && all[i].end == span.start;
      assert AtSemicolonEnd(all, n + 1, span.start);
    }
    assert AtSemicolonStart(all, n + 1, all[n].start);
  }

  lemma StatementStarts(all: seq<Token>, n: nat, size: nat, cursor: nat, span: Span)
    requires WellFormed(all, size) && n < |all| && IsStatement(all, n, size, cursor, span)
    requires IsSemicolon(all[n]) && all[n].end <= cursor
    ensures span.end == size && IsStatement(all, n + 1, size, cursor, Span(all[n].end, size))
  {
    assert AtSemicolonEnd(all, n + 1, all[n].end);
  }

  /** There is only one such span. */
  lemma StatementIsUnique(all: seq<Token>, size: nat, cursor: nat, a: Span, b: Span)
    requires WellFormed(all, size) && IsStatement(all, |all|, size, cursor, a)
    requires IsStatement(all, |all|, size, cursor, b)
    ensures a == b
  {
    assert a.start <= b.start && b.start <= a.start;
    assert a.end <= b.end && b.end <= a.end;
  }

  lemma NoneYet(all: seq<Token>, span: Span)
    ensures NoSemicolonIn(all, 0, span)
  {}

  lemma SemicolonIsPast(all: seq<Token>, n: nat, size: nat, cursor: nat, span: Span)
    requires WellFormed(all, size) && n < |all| && IsStatement(all, n, size, cursor, span) && span.end != size
    ensures span.end <= all[n].start
  {}

  lemma StartsWithin(all: seq<Token>, n: nat, size: nat, cursor: nat, span: Span)
    requires WellFormed(all, size) && n < |all| && IsStatement(all, n, size, cursor, span)
    ensures span.start <= all[n].start
  {}

  /** Finds the statement, its tokens, and whether the cursor is where nothing is completed. */
  method FindStatement(all: seq<Token>, size: nat, cursor: nat)
    returns (statement: Span, tokens: seq<Token>, quiet: bool)
    requires WellFormed(all, size) && cursor <= size
    ensures IsStatement(all, |all|, size, cursor, statement)
    ensures tokens == Within(all, |all|, statement)
    ensures quiet == IsQuiet(all, |all|, cursor)
  {
    hide OpenLineComment, AtSemicolonEnd, AtSemicolonStart, NoSemicolonIn;
    statement, tokens, quiet := Span(0, size), [], false;
    NoneYet(all, statement);
    for i := 0 to |all|
      invariant IsStatement(all, i, size, cursor, statement)
      invariant tokens == Within(all, i, statement)
      invariant quiet == IsQuiet(all, i, cursor)
    {
      var token := all[i];
      if Quiets(token, cursor) {
        quiet := true;
      }
      if IsSemicolon(token) {
        if token.end <= cursor {
          StatementStarts(all, i, size, cursor, statement);
          statement := Span(token.end, statement.end);
          WithinNone(all, i + 1, statement);
          tokens := [];
        } else if statement.end == size {
          StatementEnds(all, i, size, cursor, statement);
          WithinSame(all, i, statement, Span(statement.start, token.start));
          statement := Span(statement.start, token.start);
        } else {
          SemicolonIsPast(all, i, size, cursor, statement);
          StatementStays(all, i, size, cursor, statement);
        }
      } else {
        StatementStays(all, i, size, cursor, statement);
        if !token.kind.Comment? && token.start < statement.end {
          StartsWithin(all, i, size, cursor, statement);
          tokens := tokens + [token];
        }
      }
    }
  }

  ghost predicate LieIn(tokens: seq<Token>, all: seq<Token>, span: Span) {
    forall t :: t in tokens ==> t in all && span.start <= t.start < t.end <= span.end
  }

  lemma {:induction false} WithinLies(all: seq<Token>, n: nat, size: nat, cursor: nat, span: Span)
    requires WellFormed(all, size) && n <= |all| && IsStatement(all, |all|, size, cursor, span)
    ensures LieIn(Within(all, n, span), all[..n], span)
  {
    hide IsStatement, WellFormed, IsWithin;
    if n > 0 {
      WithinLies(all, n - 1, size, cursor, span);
      assert all[..n] == all[..n - 1] + [all[n - 1]];
      if IsWithin(all[n - 1], span) {
        TokenFits(all, n - 1, size, cursor, span);
      }
    }
  }

  /** A statement's tokens are again in order and apart, and lie in its span. */
  lemma {:induction false} WithinIsWellFormed(all: seq<Token>, n: nat, size: nat, cursor: nat, span: Span)
    requires WellFormed(all, size) && n <= |all| && IsStatement(all, |all|, size, cursor, span)
    ensures WellFormed(Within(all, n, span), size)
    ensures LieIn(Within(all, n, span), all[..n], span)
  {
    hide IsStatement, IsWithin, LieIn;
    WithinLies(all, n, size, cursor, span);
    if n > 0 {
      hide WellFormed;
      WithinIsWellFormed(all, n - 1, size, cursor, span);
      WellFormedMore(all, n - 1, size, Within(all, n - 1, span), span);
    }
  }

  lemma WellFormedMore(all: seq<Token>, n: nat, size: nat, before: seq<Token>, span: Span)
    requires WellFormed(all, size) && n < |all| && WellFormed(before, size) && LieIn(before, all[..n], span)
    ensures WellFormed(before + [all[n]], size)
  {
    forall i | 0 <= i < |before|
      ensures before[i].end <= all[n].start
    {
      assert before[i] in all[..n];
    }
  }

  lemma TokenFits(all: seq<Token>, n: nat, size: nat, cursor: nat, span: Span)
    requires WellFormed(all, size) && n < |all| && IsStatement(all, |all|, size, cursor, span)
    requires IsWithin(all[n], span)
    ensures span.start <= all[n].start < all[n].end <= span.end
  {
    if span.end != size {
      var i :| 0 <= i < |all| && IsSemicolon(all[i]) && all[i].start == span.end;
      assert i != n;
    }
  }

  // ---- the word the cursor is in, and the dotted name before it ----

  predicate AllNameChars(text: string)
    ensures AllNameChars(text) <==> forall i :: 0 <= i < |text| ==> IsNameChar(text[i])
  {
    text == "" || (IsNameChar(text[0]) && AllNameChars(text[1..]))
  }

  predicate IsWord(token: Token) {
    token.kind.Identifier? || (token.kind.Keyword? && token.text != "" && AllNameChars(token.text))
  }

  /** The last token that starts before the cursor. */
  ghost predicate IsLast(tokens: seq<Token>, cursor: nat, last: int) {
    && -1 <= last < |tokens|
    && forall i :: 0 <= i < |tokens| ==> (tokens[i].start < cursor <==> i <= last)
  }

  predicate TypesWord(tokens: seq<Token>, cursor: nat, last: int)
    requires last < |tokens|
  {
    last >= 0 && IsWord(tokens[last]) && cursor <= tokens[last].end
  }

  /** The word a candidate replaces, empty where the cursor is in none. */
  function Replaced(tokens: seq<Token>, cursor: nat, last: int): Span
    requires last < |tokens|
  {
    if TypesWord(tokens, cursor, last) then Span(tokens[last].start, tokens[last].end) else Span(cursor, cursor)
  }

  function BeforeWord(tokens: seq<Token>, cursor: nat, last: int): int
    requires last < |tokens|
  {
    if TypesWord(tokens, cursor, last) then last - 1 else last
  }

  /** The tokens at `i - 1` and `i` are a name and a dot, touching each other and `edge`. */
  predicate NameAndDot(tokens: seq<Token>, i: int, edge: nat)
    requires i < |tokens|
  {
    && i >= 1 && Is(tokens[i], ".") && tokens[i].end == edge
    && tokens[i - 1].kind.Identifier? && tokens[i - 1].end == tokens[i].start
  }

  function EdgeAfter(tokens: seq<Token>, before: int, end: int, edge: nat): nat
    requires -1 <= before <= end < |tokens|
  {
    if before == end then edge else tokens[before + 1].start
  }

  /** `tokens[before + 1..end + 1]` are names each with a dot after it, one touching the next up to `edge`. */
  ghost predicate Dotted(tokens: seq<Token>, before: int, end: int, edge: nat)
    requires -1 <= before <= end < |tokens|
  {
    && (end - before) % 2 == 0
    && forall i :: before < i <= end && (end - i) % 2 == 0 ==>
         NameAndDot(tokens, i, EdgeAfter(tokens, i, end, edge))
  }

  /** Goes back two tokens at a time, a dot and the name it touches, as long as there are such. */
  method DottedPrefix(tokens: seq<Token>, end: int, edge: nat) returns (before: int, start: nat)
    requires -1 <= end < |tokens|
    ensures -1 <= before <= end && Dotted(tokens, before, end, edge)
    ensures start == EdgeAfter(tokens, before, end, edge)
    ensures !NameAndDot(tokens, before, start)
  {
    before, start := end, edge;
    while before >= 1 && Is(tokens[before], ".") && tokens[before].end == start
          && tokens[before - 1].kind.Identifier? && tokens[before - 1].end == tokens[before].start
      invariant -1 <= before <= end && Dotted(tokens, before, end, edge)
      invariant start == EdgeAfter(tokens, before, end, edge)
    {
      DottedMore(tokens, before, end, edge);
      start := tokens[before - 1].start;
      before := before - 2;
    }
  }

  lemma DottedMore(tokens: seq<Token>, before: int, end: int, edge: nat)
    requires -1 <= before <= end < |tokens| && Dotted(tokens, before, end, edge)
    requires NameAndDot(tokens, before, EdgeAfter(tokens, before, end, edge))
    ensures Dotted(tokens, before - 2, end, edge)
  {
    forall i | before - 2 < i <= end && (end - i) % 2 == 0
      ensures NameAndDot(tokens, i, EdgeAfter(tokens, i, end, edge))
    {
      assert i != before - 1;
    }
  }

  /** A name's parts between its dots. */
  function Parts(name: string): (parts: seq<string>)
    ensures parts != [] && forall k :: 0 <= k < |parts| ==> '.' !in parts[k]
  {
    if name == "" then [""]
    else
      var rest := Parts(name[1..]);
      if name[0] == '.' then [""] + rest else [[name[0]] + rest[0]] + rest[1..]
  }

  function Dots(parts: seq<string>): string {
    if parts == [] then "" else if |parts| == 1 then parts[0] else parts[0] + "." + Dots(parts[1..])
  }

  function Names(tokens: seq<Token>, from: nat, until: nat): seq<string>
    requires from <= until <= |tokens|
  {
    if from == until then []
    else Names(tokens, from, until - 1) + (if tokens[until - 1].kind.Identifier? then [tokens[until - 1].text] else [])
  }

  function PathOf(names: seq<string>): seq<string> {
    if names == [] then [] else PathOf(names[..|names| - 1]) + Parts(names[|names| - 1])
  }

  lemma {:induction false} PartsRejoin(name: string)
    ensures Dots(Parts(name)) == name
  {
    if name != "" {
      PartsRejoin(name[1..]);
      var rest := Parts(name[1..]);
      if name[0] == '.' {
        assert ([""] + rest)[1..] == rest;
      } else {
        var parts := [[name[0]] + rest[0]] + rest[1..];
        assert parts[1..] == rest[1..];
      }
    }
  }

  lemma {:induction false} DotsConcat(a: seq<string>, b: seq<string>)
    requires a != [] && b != []
    ensures Dots(a + b) == Dots(a) + "." + Dots(b)
  {
    if |a| == 1 {
      assert (a + b)[1..] == b;
    } else {
      DotsConcat(a[1..], b);
      assert (a + b)[1..] == a[1..] + b;
    }
  }

  /** The path spells the dotted names, and no part of it holds a dot. */
  lemma {:induction false} PathSpellsTheNames(names: seq<string>)
    requires names != []
    ensures PathOf(names) != [] && Dots(PathOf(names)) == Dots(names)
    ensures forall k :: 0 <= k < |PathOf(names)| ==> '.' !in PathOf(names)[k]
  {
    var n := |names| - 1;
    PartsRejoin(names[n]);
    if n == 0 {
      assert PathOf(names) == PathOf([]) + Parts(names[0]) == Parts(names[0]);
    } else {
      PathSpellsTheNames(names[..n]);
      DotsConcat(PathOf(names[..n]), Parts(names[n]));
      DotsConcat(names[..n], [names[n]]);
      assert names == names[..n] + [names[n]];
    }
  }

  lemma NamesOneMore(tokens: seq<Token>, from: nat, i: nat)
    requires from <= i < |tokens|
    ensures PathOf(Names(tokens, from, i + 1))
         == PathOf(Names(tokens, from, i)) + (if tokens[i].kind.Identifier? then Parts(tokens[i].text) else [])
  {
    hide Parts;
    var names := Names(tokens, from, i);
    if tokens[i].kind.Identifier? {
      assert (names + [tokens[i].text])[..|names|] == names;
    } else {
      assert Names(tokens, from, i + 1) == names;
    }
  }

  /** The names of the dotted prefix, read up to its last dot. */
  method ReadPath(tokens: seq<Token>, before: int, end: int, lastDot: nat, size: nat) returns (path: seq<string>)
    requires WellFormed(tokens, size) && -1 <= before < end < |tokens| && tokens[end].start == lastDot
    ensures path == PathOf(Names(tokens, before + 1, end))
  {
    path := [];
    var i := before + 1;
    while i < |tokens| && tokens[i].start < lastDot
      invariant before + 1 <= i <= end
      invariant path == PathOf(Names(tokens, before + 1, i))
    {
      hide PathOf, Names, Parts, Dots;
      assert i != end;
      NamesOneMore(tokens, before + 1, i);
      if tokens[i].kind.Identifier? {
        path := path + Parts(tokens[i].text);
      }
      i := i + 1;
    }
  }

  // ---- the cuts ----

  /** A dot after the cursor: what follows it belongs to the name before it. */
  predicate JoinsName(tokens: seq<Token>, i: int, end: nat)
    requires i < |tokens|
  {
    i >= 0 && Is(tokens[i], ".") && tokens[i].start >= end
  }

  predicate Cuttable(tokens: seq<Token>, i: nat, end: nat)
    requires i < |tokens|
  {
    tokens[i].start >= end && !Is(tokens[i], ".") && !JoinsName(tokens, i - 1, end)
  }

  /** The cuts before the first `n` tokens, one before each that can be cut off. */
  function CutsBefore(tokens: seq<Token>, n: nat, end: nat): seq<Cut>
    requires n <= |tokens|
  {
    if n == 0 then []
    else CutsBefore(tokens, n - 1, end)
         + (if Cuttable(tokens, n - 1, end) then [Cut(tokens[n - 1].start, -Closing(tokens, 0, n - 1), false)] else [])
  }

  function AllCuts(tokens: seq<Token>, end: nat, statementEnd: nat): seq<Cut> {
    CutsBefore(tokens, |tokens|, end)
    + [Cut(statementEnd, -Closing(tokens, 0, |tokens|), JoinsName(tokens, |tokens| - 1, end))]
  }

  method FindCuts(tokens: seq<Token>, end: nat, statementEnd: nat) returns (cuts: seq<Cut>)
    ensures cuts == AllCuts(tokens, end, statementEnd)
  {
    cuts := [];
    var open := 0;
    var previous := -1;
    for i := 0 to |tokens|
      invariant previous == i - 1
      invariant open == -Closing(tokens, 0, i)
      invariant cuts == CutsBefore(tokens, i, end)
    {
      var token := tokens[i];
      if token.start >= end && !Is(token, ".") && !JoinsName(tokens, previous, end) {
        cuts := cuts + [Cut(token.start, open, false)];
      }
      ClosingAdds(tokens, 0, i, i + 1);
      assert Closing(tokens, i, i + 1) == -Weight(token);
      if Opens(token) { open := open + 1; }
      if Closes(token) { open := open - 1; }
      previous := i;
    }
    cuts := cuts + [Cut(statementEnd, open, JoinsName(tokens, previous, end))];
  }

  // ---- the whole place ----

  ghost predicate SelectListFor(tokens: seq<Token>, before: int, standIn: Option<StandIn>)
    requires -1 <= before < |tokens|
  {
    if standIn.Some?
    then exists word, from, select ::
           GroupedBy(tokens, before, word, from, select) && StandsIn(tokens, select, from, standIn.value)
    else forall word, from, select :: !GroupedBy(tokens, before, word, from, select)
  }

  /** The prefix `a.b` of `a.b.` before the word, if there is one, and the names in it. */
  ghost predicate IsMember(tokens: seq<Token>, before: int, end: int, edge: nat, member: Option<Span>, path: seq<string>)
    requires -1 <= before <= end < |tokens|
  {
    if before == end then member == None && path == []
    else
      && edge >= 1 && member == Some(Span(tokens[before + 1].start, edge - 1))
      && path == PathOf(Names(tokens, before + 1, end))
  }

  predicate ReadsTable(tokens: seq<Token>, before: int)
    requires -1 <= before < |tokens|
  {
    before >= 0 && (Is(tokens[before], "FROM") || Is(tokens[before], "JOIN"))
  }

  /** The word's first token is after `last`, and what the word continues after `before`. */
  ghost predicate IsPlace(tokens: seq<Token>, cursor: nat, place: Place, last: int, before: int) {
    && IsLast(tokens, cursor, last)
    && place.replace == Replaced(tokens, cursor, last)
    && -1 <= before <= BeforeWord(tokens, cursor, last)
    && Dotted(tokens, before, BeforeWord(tokens, cursor, last), place.replace.start)
    && !NameAndDot(tokens, before, EdgeAfter(tokens, before, BeforeWord(tokens, cursor, last), place.replace.start))
    && IsMember(tokens, before, BeforeWord(tokens, cursor, last), place.replace.start, place.memberOf, place.path)
    && place.afterFrom == ReadsTable(tokens, before)
    && SelectListFor(tokens, before, place.selectList)
    && place.cuts == AllCuts(tokens, place.replace.end, place.statement.end)
  }

  lemma PrefixEndsInADot(tokens: seq<Token>, size: nat, before: int, end: int, edge: nat)
    requires WellFormed(tokens, size) && -1 <= before < end < |tokens| && Dotted(tokens, before, end, edge)
    ensures EdgeAfter(tokens, before, end, edge) < edge
    ensures edge >= 1 && tokens[end].start == edge - 1
  {
    assert NameAndDot(tokens, end, EdgeAfter(tokens, end, end, edge));
    assert tokens[before + 1].start < tokens[before + 1].end;
  }

  method FindLast(tokens: seq<Token>, size: nat, cursor: nat) returns (last: int)
    requires WellFormed(tokens, size)
    ensures IsLast(tokens, cursor, last)
  {
    last := -1;
    for i := 0 to |tokens|
      invariant -1 <= last < i
      invariant forall j :: 0 <= j < i ==> (tokens[j].start < cursor <==> j <= last)
    {
      if tokens[i].start < cursor { last := i; }
    }
  }

  method FindWord(tokens: seq<Token>, size: nat, cursor: nat) returns (replace: Span, end: int, ghost last: int)
    requires WellFormed(tokens, size)
    ensures IsLast(tokens, cursor, last) && -1 <= end < |tokens|
    ensures replace == Replaced(tokens, cursor, last) && end == BeforeWord(tokens, cursor, last)
  {
    hide WellFormed;
    var at := FindLast(tokens, size, cursor);
    last := at;
    replace, end := Span(cursor, cursor), at;
    if at >= 0 && IsWord(tokens[at]) && cursor <= tokens[at].end {
      replace, end := Span(tokens[at].start, tokens[at].end), at - 1;
    }
  }

  method FindMember(tokens: seq<Token>, size: nat, end: int, edge: nat)
    returns (before: int, member: Option<Span>, path: seq<string>)
    requires WellFormed(tokens, size) && -1 <= end < |tokens|
    ensures -1 <= before <= end && Dotted(tokens, before, end, edge)
    ensures !NameAndDot(tokens, before, EdgeAfter(tokens, before, end, edge))
    ensures IsMember(tokens, before, end, edge, member, path)
  {
    hide WellFormed, Dotted;
    var start;
    before, start := DottedPrefix(tokens, end, edge);
    if before < end {
      PrefixEndsInADot(tokens, size, before, end, edge);
    }
    member, path := None, [];
    if start != edge {
      var lastDot := edge - 1;
      member := Some(Span(start, lastDot));
      path := ReadPath(tokens, before, end, lastDot, size);
    }
  }

  method FindSelectList(tokens: seq<Token>, before: int) returns (standIn: Option<StandIn>)
    requires -1 <= before < |tokens|
    ensures SelectListFor(tokens, before, standIn)
  {
    hide GroupedBy, StandsIn;
    standIn := GroupedSelectList(tokens, before);
  }

  method Locate(all: seq<Token>, size: nat, cursor: nat)
    returns (place: Place, ghost tokens: seq<Token>, ghost last: int, ghost before: int)
    requires WellFormed(all, size) && cursor <= size
    ensures IsStatement(all, |all|, size, cursor, place.statement)
    ensures tokens == Within(all, |all|, place.statement)
    ensures place.quiet == IsQuiet(all, |all|, cursor)
    ensures !place.quiet ==> IsPlace(tokens, cursor, place, last, before)
  {
    hide IsStatement, IsQuiet, Within, WellFormed, Dotted, NameAndDot, IsMember, SelectListFor, AllCuts, IsLast;
    hide GroupedBy, StandsIn;
    var statement, found, quiet := FindStatement(all, size, cursor);
    tokens, last, before := found, -1, -1;
    place := Place(statement, quiet, Span(0, 0), None, [], false, None, []);
    if quiet {
      return;
    }
    WithinIsWellFormed(all, |all|, size, cursor, statement);
    var replace, end, at := FindWord(found, size, cursor);
    last := at;
    var start, member, path := FindMember(found, size, end, replace.start);
    before := start;
    var afterFrom := start >= 0 && (Is(found[start], "FROM") || Is(found[start], "JOIN"));
    var standIn := FindSelectList(found, start);
    var cuts := FindCuts(found, replace.end, statement.end);
    place := Place(statement, quiet, replace, member, path, afterFrom, standIn, cuts);
  }

  // ---- what a place says of the text around the cursor ----

  predicate Touches(token: Token, cursor: nat) {
    token.start < cursor <= token.end
  }

  /** A name, or a keyword of letters, digits and underscores alone. */
  predicate CanBeTyped(token: Token) {
    match token.kind
    case Identifier => true
    case Keyword => token.text != "" && forall c <- token.text :: IsNameChar(c)
    case _ => false
  }

  lemma OneTouches(tokens: seq<Token>, size: nat, cursor: nat, i: nat, last: nat)
    requires WellFormed(tokens, size) && i <= last < |tokens| && Touches(tokens[i], cursor) && tokens[last].start < cursor
    ensures i == last
  {}

  /** What is replaced is the word the cursor is in or at the end of, and nothing where there is none. */
  lemma TheWordIsReplaced(tokens: seq<Token>, size: nat, cursor: nat, place: Place, last: int, before: int)
    requires WellFormed(tokens, size) && IsPlace(tokens, cursor, place, last, before)
    ensures forall i :: 0 <= i < |tokens| && Touches(tokens[i], cursor) && CanBeTyped(tokens[i]) ==>
              place.replace == Span(tokens[i].start, tokens[i].end)
    ensures (forall i :: 0 <= i < |tokens| ==> !(Touches(tokens[i], cursor) && CanBeTyped(tokens[i]))) ==>
              place.replace == Span(cursor, cursor)
  {
    hide Dotted, NameAndDot, IsMember, SelectListFor, AllCuts;
    forall i | 0 <= i < |tokens| && Touches(tokens[i], cursor)
      ensures i == last
    {
      OneTouches(tokens, size, cursor, i, last);
    }
    assert forall t: Token :: IsWord(t) <==> CanBeTyped(t);
  }

  /** The `k`th name of the dotted prefix. */
  function PrefixName(tokens: seq<Token>, before: int, k: nat): string
    requires -1 <= before && before + 1 + 2 * k < |tokens|
  {
    tokens[before + 1 + 2 * k].text
  }

  /** The names of the prefix, two tokens to each. */
  function PrefixNames(tokens: seq<Token>, before: int, end: int): (names: seq<string>)
    requires -1 <= before <= end < |tokens|
    ensures |names| == (end - before) / 2
  {
    seq((end - before) / 2, k requires 0 <= k < (end - before) / 2 => PrefixName(tokens, before, k))
  }

  lemma {:induction false} NamesAreTheNames(tokens: seq<Token>, before: int, end: int, edge: nat)
    requires -1 <= before <= end < |tokens| && Dotted(tokens, before, end, edge)
    ensures Names(tokens, before + 1, end + 1) == PrefixNames(tokens, before, end)
    decreases end - before
  {
    hide Names;
    if before == end {
      assert Names(tokens, before + 1, end + 1) == [] by { NoNames(tokens, before + 1); }
    } else {
      assert NameAndDot(tokens, end, EdgeAfter(tokens, end, end, edge));
      DottedShorter(tokens, before, end, edge);
      NamesAreTheNames(tokens, before, end - 2, tokens[end - 1].start);
      NamesStep(tokens, before + 1, end - 1);
      NamesStep(tokens, before + 1, end);
      var names := PrefixNames(tokens, before, end);
      assert names == PrefixNames(tokens, before, end - 2) + [tokens[end - 1].text];
    }
  }

  lemma NoNames(tokens: seq<Token>, from: nat)
    requires from <= |tokens|
    ensures Names(tokens, from, from) == []
  {}

  lemma NamesStep(tokens: seq<Token>, from: nat, i: nat)
    requires from <= i < |tokens|
    ensures Names(tokens, from, i + 1)
            == Names(tokens, from, i) + (if tokens[i].kind.Identifier? then [tokens[i].text] else [])
  {}

  lemma DottedShorter(tokens: seq<Token>, before: int, end: int, edge: nat)
    requires -1 <= before < end < |tokens| && Dotted(tokens, before, end, edge)
    ensures before <= end - 2 && Dotted(tokens, before, end - 2, tokens[end - 1].start)
  {
    var shorter, start := end - 2, tokens[end - 1].start;
    forall i | before < i <= shorter && (shorter - i) % 2 == 0
      ensures NameAndDot(tokens, i, EdgeAfter(tokens, i, shorter, start))
    {
      assert NameAndDot(tokens, i, EdgeAfter(tokens, i, end, edge));
    }
  }

  /**
   * The prefix of a word after a dot runs from the first of the names to the
   * last dot, its path spells them, and a word after `FROM` or `JOIN`, prefix
   * and all, is a table's.
   */
  lemma ThePrefixIsSpelled(tokens: seq<Token>, size: nat, cursor: nat, place: Place, last: int, before: int)
    requires WellFormed(tokens, size) && IsPlace(tokens, cursor, place, last, before)
    ensures var end := BeforeWord(tokens, cursor, last);
      && (place.memberOf.Some? <==> before < end)
      && (before < end ==>
            && place.memberOf == Some(Span(tokens[before + 1].start, tokens[end].start))
            && Dots(place.path) == Dots(PrefixNames(tokens, before, end))
            && forall part <- place.path :: '.' !in part)
      && (before == end ==> place.path == [])
    ensures place.afterFrom <==>
              before >= 0 && tokens[before].kind.Keyword? && tokens[before].text in {"FROM", "JOIN"}
  {
    hide NameAndDot, SelectListFor, AllCuts, Names, PathOf, WellFormed;
    var end := BeforeWord(tokens, cursor, last);
    if before < end {
      PrefixEndsInADot(tokens, size, before, end, place.replace.start);
      DotIsNoName(tokens, end, place.replace.start, EdgeAfter(tokens, end, end, place.replace.start));
      NamesStep(tokens, before + 1, end);
      NamesAreTheNames(tokens, before, end, place.replace.start);
      var names := Names(tokens, before + 1, end);
      assert names + [] == names == PrefixNames(tokens, before, end);
      assert place.path == PathOf(names);
      PathSpellsTheNames(PrefixNames(tokens, before, end));
    }
  }

  lemma DotIsNoName(tokens: seq<Token>, end: nat, edge: nat, same: nat)
    requires end < |tokens| && NameAndDot(tokens, end, edge)
    ensures !tokens[end].kind.Identifier?
  {}

  /** A comment that goes on to what is typed after it: one of a line, without the line's end. */
  predicate RunsOn(text: string) {
    !(|text| >= 2 && text[0] == '/' && text[1] == '*') && !(|text| >= 1 && text[|text| - 1] == '\n')
  }

  /** What is typed at the cursor would be of the token: the cursor is strictly inside, or where a line comment runs out. */
  predicate TakesTyping(token: Token, cursor: nat) {
    && token.start < cursor
    && match token.kind
       case Value => cursor < token.end
       case Comment => cursor < token.end || (cursor == token.end && RunsOn(token.text))
       case _ => false
  }

  /** Nothing is completed just where a text, a number or a comment takes what is typed. */
  lemma QuietExactly(all: seq<Token>, cursor: nat)
    ensures IsQuiet(all, |all|, cursor) <==> exists i :: 0 <= i < |all| && TakesTyping(all[i], cursor)
  {
    forall i | 0 <= i < |all|
      ensures Quiets(all[i], cursor) <==> TakesTyping(all[i], cursor)
    {
      var text := all[i].text;
      assert |text| >= 2 ==> text[0..2] == [text[0], text[1]];
    }
  }
}
