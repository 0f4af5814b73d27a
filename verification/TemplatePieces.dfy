/**
 * Which `@name`s of a statement are blanks, told by how the statement is
 * written: pieces of SQL, each with a gap after it, of which the scanner of
 * `src/features/query-templates/variables.ts` finds just the blanks.
 */
module TemplatePieces {
  import opened Basics
  import opened Chars
  import opened TemplateScanner

  /** What is inside a string: a character, one after a backslash, or the quote doubled. */
  datatype Inside = Char(c: char) | Escape(c: char) | Doubled

  /** What is inside a comment: text, or a comment. */
  datatype Part = Text(text: string) | Nested(parts: seq<Part>)

  datatype Piece =
    | Variable(name: string)
    | System(name: string)
    | Word(text: string)
    | Quoted(quote: char, inside: seq<Inside>)
    | EscapeText(mark: char, inside: seq<Inside>)
    | Prefixed(word: string, quote: char, inside: seq<Inside>)
    | Triple(quote: char, inside: seq<Inside>)
    | Dollar(tag: string, body: string)
    | LineComment(opener: string, text: string)
    | BlockComment(parts: seq<Part>)
    | Mark(c: char)

  /** A piece, and the character after it. */
  datatype Spaced = Spaced(piece: Piece, gap: char)

  // ---- how pieces are written ----

  function InsideText(inside: seq<Inside>, quote: char): string {
    if inside == [] then ""
    else
      (match inside[0]
       case Char(c) => [c]
       case Escape(c) => ['\\', c]
       case Doubled => [quote, quote])
      + InsideText(inside[1..], quote)
  }

  function PartText(part: Part): string {
    match part
    case Text(text) => text
    case Nested(parts) => "/*" + PartsText(parts) + "*/"
  }

  function PartsText(parts: seq<Part>): string {
    if parts == [] then "" else PartText(parts[0]) + PartsText(parts[1..])
  }

  function PieceText(piece: Piece): string {
    match piece
    case Variable(name) => "@" + name
    case System(name) => "@@" + name
    case Word(text) => text
    case Quoted(quote, inside) => [quote] + InsideText(inside, quote) + [quote]
    case EscapeText(mark, inside) => [mark] + ("'" + InsideText(inside, '\'') + "'")
    case Prefixed(word, quote, inside) => word + ([quote] + InsideText(inside, quote) + [quote])
    case Triple(quote, inside) => [quote, quote, quote] + InsideText(inside, quote) + [quote, quote, quote]
    case Dollar(tag, body) => "$" + tag + "$" + body + ("$" + tag + "$")
    case LineComment(opener, text) => opener + text + "\n"
    case BlockComment(parts) => "/*" + PartsText(parts) + "*/"
    case Mark(c) => [c]
  }

  function Sql(pieces: seq<Spaced>): string {
    if pieces == [] then "" else PieceText(pieces[0].piece) + [pieces[0].gap] + Sql(pieces[1..])
  }

  // ---- which pieces there are in each dialect ----

  predicate IsName(name: string) {
    name != "" && IsNameStart(name[0]) && forall c <- name :: IsNameChar(c)
  }

  predicate IsWordText(text: string) {
    text != "" && (forall c <- text :: IsWordChar(c)) && (text[0] == '$' && |text| > 1 ==> IsDigit(text[1]))
  }

  predicate IsQuote(c: char) {
    c in {'\'', '"', '`'}
  }

  /** Where a backslash escapes: neither it nor the quote stands alone. */
  predicate Escapes(inside: seq<Inside>, quote: char) {
    forall i <- inside :: match i
      case Char(c) => c != quote && c != '\\'
      case Escape(_) => true
      case Doubled => false
  }

  /** Where a quote is doubled, and a backslash is a character. */
  predicate Doubles(inside: seq<Inside>, quote: char) {
    forall i <- inside :: match i
      case Char(c) => c != quote
      case Escape(_) => false
      case Doubled => true
  }

  /** Within three quotes one can stand alone, where another does not follow. */
  predicate StandsInTriple(inside: seq<Inside>, quote: char) {
    inside == [] ||
    (&& (match inside[0]
         case Char(c) => c != '\\' && (c == quote ==> |inside| > 1 && inside[1] != Char(quote))
         case Escape(_) => true
         case Doubled => false)
     && StandsInTriple(inside[1..], quote))
  }

  /** Text of a comment that neither opens one nor closes it. */
  predicate AreParts(parts: seq<Part>) {
    parts == [] ||
    (&& (match parts[0]
         case Text(text) => '/' !in text && (text != "" ==> text[|text| - 1] != '*')
         case Nested(more) => AreParts(more))
     && AreParts(parts[1..]))
  }

  /** A dollar quote's tag is next found where it ends. */
  predicate EndsAtTag(body: string, tag: string) {
    forall i :: 0 <= i < |body| ==> !StartsWith(body + tag, tag, i)
  }

  predicate IsPiece(piece: Piece, driver: Driver) {
    match piece
    case Variable(name) => IsName(name)
    case System(name) => name == "" || IsName(name)
    case Word(text) => IsWordText(text)
    case Quoted(quote, inside) =>
      IsQuote(quote) && if driver.Postgres? && quote != '`' then Doubles(inside, quote) else Escapes(inside, quote)
    case EscapeText(mark, inside) => driver.Postgres? && mark in {'e', 'E'} && Escapes(inside, '\'')
    case Prefixed(word, quote, inside) =>
      && IsWordText(word) && quote in {'\'', '"'} && (quote == '\'' ==> word !in {"e", "E"})
      && if driver.Postgres? then Doubles(inside, quote) else Escapes(inside, quote)
    case Triple(quote, inside) => driver.BigQuery? && quote in {'\'', '"'} && StandsInTriple(inside, quote)
    case Dollar(tag, body) => driver.Postgres? && (tag == "" || IsName(tag)) && EndsAtTag(body, "$" + tag + "$")
    case LineComment(opener, text) => (opener == "--" || (opener == "#" && driver.BigQuery?)) && '\n' !in text
    case BlockComment(parts) => AreParts(parts)
    case Mark(c) => !IsWordChar(c) && !IsQuote(c) && !(c == '#' && driver.BigQuery?)
  }

  /** A character that begins nothing and goes on with nothing. */
  predicate IsGap(c: char) {
    !IsWordChar(c) && !IsQuote(c) && c !in {'@', '-', '/', '*', '#'}
  }

  predicate ArePieces(pieces: seq<Spaced>, driver: Driver) {
    forall p <- pieces :: IsPiece(p.piece, driver) && IsGap(p.gap)
  }

  /** The blanks there are to find: each variable, where it is written. */
  function Variables(pieces: seq<Spaced>, at: nat): seq<Blank> {
    if pieces == [] then []
    else
      var end := at + |PieceText(pieces[0].piece)|;
      (if pieces[0].piece.Variable? then [Blank(pieces[0].piece.name, at, end)] else [])
      + Variables(pieces[1..], end + 1)
  }

  // ---- the runs and the ends ----

  lemma {:induction false} NameRunIs(sql: string, at: nat, name: string, rest: string)
    requires at <= |sql| && sql[at..] == name + rest && (forall c <- name :: IsNameChar(c))
    requires rest != "" ==> !IsNameChar(rest[0])
    ensures NameRun(sql, at) == at + |name|
    decreases |name|
  {
    Ahead(sql, at, name, rest);
    if name != "" {
      assert sql[at + 1..] == name[1..] + rest;
      assert name[0] in name && forall c <- name[1..] :: c in name;
      NameRunIs(sql, at + 1, name[1..], rest);
    }
  }

  lemma NameEndIs(sql: string, at: nat, name: string, rest: string)
    requires at <= |sql| && sql[at..] == name + rest && (name == "" || IsName(name))
    requires rest != "" ==> !IsNameChar(rest[0])
    ensures NameEnd(sql, at) == at + |name|
  {
    hide NameRun;
    Ahead(sql, at, name, rest);
    if name != "" {
      assert sql[at + 1..] == name[1..] + rest;
      assert forall c <- name[1..] :: c in name;
      NameRunIs(sql, at + 1, name[1..], rest);
    }
  }

  lemma {:induction false} WordRunIs(sql: string, at: nat, text: string, rest: string)
    requires at <= |sql| && sql[at..] == text + rest && (forall c <- text :: IsWordChar(c))
    requires rest != "" ==> !IsWordChar(rest[0])
    ensures WordRun(sql, at) == at + |text|
    decreases |text|
  {
    Ahead(sql, at, text, rest);
    if text != "" {
      assert sql[at + 1..] == text[1..] + rest;
      assert text[0] in text && forall c <- text[1..] :: c in text;
      WordRunIs(sql, at + 1, text[1..], rest);
    }
  }

  lemma StartsAhead(sql: string, at: nat, part: string, rest: string)
    requires at <= |sql| && sql[at..] == part + rest
    ensures StartsWith(sql, part, at)
  {
    Ahead(sql, at, part, rest);
  }

  /** The first of a part that is at a place and nowhere before it. */
  lemma {:induction false} PastFirstIs(sql: string, part: string, from: nat, at: nat)
    requires part != "" && from <= at && StartsWith(sql, part, at)
    requires forall i :: from <= i < at ==> !StartsWith(sql, part, i)
    ensures PastFirst(sql, part, from) == at + |part|
    decreases at - from
  {
    hide StartsWith;
    assert at + |part| <= |sql| by { StartsWithin(sql, part, at); }
    if from < at {
      PastFirstIs(sql, part, from + 1, at);
    }
  }

  lemma StartsWithin(sql: string, part: string, at: nat)
    requires StartsWith(sql, part, at)
    ensures at + |part| <= |sql|
  {}

  // ---- strings ----

  lemma PassesOne(sql: string, at: nat, quote: string, backslashes: bool)
    requires at < |sql| && quote != "" && !(backslashes && sql[at] == '\\') && !StartsWith(sql, quote, at)
    ensures Closing(sql, at, quote, backslashes) == Closing(sql, at + 1, quote, backslashes)
  {}

  lemma PassesEscape(sql: string, at: nat, quote: string)
    requires at < |sql| && quote != "" && sql[at] == '\\'
    ensures Closing(sql, at, quote, true) == Closing(sql, at + 2, quote, true)
  {}

  lemma StartsWithFirst(sql: string, part: string, at: nat)
    requires StartsWith(sql, part, at) && part != ""
    ensures at < |sql| && sql[at] == part[0]
    ensures |part| > 1 ==> at + 1 < |sql| && sql[at + 1] == part[1]
  {
    assert sql[at..at + |part|][0] == sql[at];
    assert |part| > 1 ==> sql[at..at + |part|][1] == sql[at + 1];
  }

  lemma {:induction false} EscapesPassed(sql: string, at: nat, inside: seq<Inside>, quote: char, rest: string)
    requires at <= |sql| && sql[at..] == InsideText(inside, quote) + rest && Escapes(inside, quote) && quote != '\\'
    ensures Closing(sql, at, [quote], true) == Closing(sql, at + |InsideText(inside, quote)|, [quote], true)
    decreases |inside|
  {
    hide Closing;
    if inside != [] {
      var more := InsideText(inside[1..], quote) + rest;
      assert inside[0] in inside && forall i <- inside[1..] :: i in inside;
      match inside[0]
      case Char(c) =>
        assert sql[at..] == [c] + more;
        Ahead(sql, at, [c], more);
        if StartsWith(sql, [quote], at) { StartsWithFirst(sql, [quote], at); }
        PassesOne(sql, at, [quote], true);
        EscapesPassed(sql, at + 1, inside[1..], quote, rest);
      case Escape(c) =>
        assert sql[at..] == ['\\', c] + more;
        Ahead(sql, at, ['\\', c], more);
        PassesEscape(sql, at, [quote]);
        EscapesPassed(sql, at + 2, inside[1..], quote, rest);
      case Doubled =>
    }
  }

  lemma PassesDoubled(sql: string, at: nat, quote: char)
    requires at + 1 < |sql| && sql[at] == sql[at + 1] == quote
    ensures Closing(sql, at, [quote], false) == Closing(sql, at + 2, [quote], false)
  {
    assert sql[at..at + 1] == [quote] && sql[at + 1..at + 2] == [quote];
  }

  lemma {:induction false} DoublesPassed(sql: string, at: nat, inside: seq<Inside>, quote: char, rest: string)
    requires at <= |sql| && sql[at..] == InsideText(inside, quote) + rest && Doubles(inside, quote)
    ensures Closing(sql, at, [quote], false) == Closing(sql, at + |InsideText(inside, quote)|, [quote], false)
    decreases |inside|
  {
    hide Closing;
    if inside != [] {
      var more := InsideText(inside[1..], quote) + rest;
      assert inside[0] in inside && forall i <- inside[1..] :: i in inside;
      match inside[0]
      case Char(c) =>
        assert sql[at..] == [c] + more;
        Ahead(sql, at, [c], more);
        if StartsWith(sql, [quote], at) { StartsWithFirst(sql, [quote], at); }
        PassesOne(sql, at, [quote], false);
        DoublesPassed(sql, at + 1, inside[1..], quote, rest);
      case Doubled =>
        assert sql[at..] == [quote, quote] + more;
        Ahead(sql, at, [quote, quote], more);
        PassesDoubled(sql, at, quote);
        DoublesPassed(sql, at + 2, inside[1..], quote, rest);
      case Escape(c) =>
    }
  }

  /** Within three quotes, what comes after one that stands alone is not one. */
  lemma AfterALoneQuote(inside: seq<Inside>, quote: char, rest: string)
    requires StandsInTriple(inside, quote) && inside != [] && inside[0] == Char(quote) && quote != '\\'
    ensures var more := InsideText(inside[1..], quote) + rest; more != "" && more[0] != quote
  {
    assert inside[1..][0] == inside[1];
    match inside[1]
    case Char(c) =>
    case Escape(c) =>
    case Doubled =>
  }

  lemma NotThree(sql: string, at: nat, quote: char)
    requires at < |sql| && (sql[at] != quote || (at + 1 < |sql| && sql[at + 1] != quote))
    ensures !StartsWith(sql, [quote, quote, quote], at)
  {
    if StartsWith(sql, [quote, quote, quote], at) {
      StartsWithFirst(sql, [quote, quote, quote], at);
    }
  }

  lemma {:induction false} TriplePassed(sql: string, at: nat, inside: seq<Inside>, quote: char, rest: string)
    requires at <= |sql| && sql[at..] == InsideText(inside, quote) + rest
    requires StandsInTriple(inside, quote) && quote != '\\'
    ensures Closing(sql, at, [quote, quote, quote], true)
            == Closing(sql, at + |InsideText(inside, quote)|, [quote, quote, quote], true)
    decreases |inside|
  {
    hide Closing, StartsWith;
    if inside != [] {
      var three := [quote, quote, quote];
      var more := InsideText(inside[1..], quote) + rest;
      match inside[0]
      case Char(c) =>
        assert sql[at..] == [c] + more;
        Ahead(sql, at, [c], more);
        if c == quote { AfterALoneQuote(inside, quote, rest); }
        NotThree(sql, at, quote);
        PassesOne(sql, at, three, true);
        TriplePassed(sql, at + 1, inside[1..], quote, rest);
      case Escape(c) =>
        assert sql[at..] == ['\\', c] + more;
        Ahead(sql, at, ['\\', c], more);
        PassesEscape(sql, at, three);
        TriplePassed(sql, at + 2, inside[1..], quote, rest);
      case Doubled =>
    }
  }

  lemma Closes(sql: string, at: nat, quote: string, backslashes: bool, rest: string)
    requires at <= |sql| && sql[at..] == quote + rest && quote != "" && quote[0] != '\\'
    requires !backslashes ==> |quote| == 1 && (rest != "" ==> rest[0] != quote[0])
    ensures Closing(sql, at, quote, backslashes) == at + |quote|
  {
    Ahead(sql, at, quote, rest);
    if !backslashes && StartsWith(sql, quote, at + 1) {
      StartsWithFirst(sql, quote, at + 1);
    }
  }

  // ---- comments ----

  lemma CommentPassesOne(sql: string, at: nat, depth: nat)
    requires at < |sql| && depth > 0 && !StartsWith(sql, "/*", at) && !StartsWith(sql, "*/", at)
    ensures CommentEnd(sql, at, depth) == CommentEnd(sql, at + 1, depth)
  {}

  lemma CommentGoesIn(sql: string, at: nat, depth: nat)
    requires at < |sql| && depth > 0 && StartsWith(sql, "/*", at)
    ensures CommentEnd(sql, at, depth) == CommentEnd(sql, at + 2, depth + 1)
  {}

  lemma CommentGoesOut(sql: string, at: nat, depth: nat)
    requires at < |sql| && depth > 0 && StartsWith(sql, "*/", at)
    ensures CommentEnd(sql, at, depth) == CommentEnd(sql, at + 2, depth - 1)
  {
    assert sql[at..at + 2][0] == '*';
  }

  lemma {:induction false} TextPassed(sql: string, at: nat, text: string, depth: nat, rest: string)
    requires at <= |sql| && sql[at..] == text + rest && depth > 0
    requires '/' !in text && (text != "" ==> text[|text| - 1] != '*')
    ensures CommentEnd(sql, at, depth) == CommentEnd(sql, at + |text|, depth)
    decreases |text|
  {
    hide CommentEnd, StartsWith;
    Ahead(sql, at, text, rest);
    if text != "" {
      assert sql[at] == text[0] && (|text| > 1 ==> sql[at + 1] == text[1]);
      if StartsWith(sql, "/*", at) { StartsWithFirst(sql, "/*", at); }
      if StartsWith(sql, "*/", at) { StartsWithFirst(sql, "*/", at); }
      CommentPassesOne(sql, at, depth);
      assert sql[at + 1..] == text[1..] + rest;
      TextPassed(sql, at + 1, text[1..], depth, rest);
    }
  }

  /** A comment within one is passed as what it holds is. */
  lemma Bracketed(sql: string, at: nat, inner: string, depth: nat, after: string)
    requires at <= |sql| && sql[at..] == "/*" + (inner + ("*/" + after)) && depth > 0
    requires at + 2 + |inner| <= |sql| ==>
               CommentEnd(sql, at + 2, depth + 1) == CommentEnd(sql, at + 2 + |inner|, depth + 1)
    ensures at + 4 + |inner| <= |sql| && sql[at + 4 + |inner|..] == after
    ensures CommentEnd(sql, at, depth) == CommentEnd(sql, at + 4 + |inner|, depth)
  {
    hide CommentEnd, StartsWith;
    var close := at + 2 + |inner|;
    Ahead(sql, at, "/*", inner + ("*/" + after));
    StartsAhead(sql, at, "/*", inner + ("*/" + after));
    CommentGoesIn(sql, at, depth);
    Ahead(sql, at + 2, inner, "*/" + after);
    Ahead(sql, close, "*/", after);
    StartsAhead(sql, close, "*/", after);
    CommentGoesOut(sql, close, depth + 1);
  }

  /** The first part's text, and then the others'. */
  lemma PartsSplit(parts: seq<Part>, rest: string)
    requires parts != [] && AreParts(parts)
    ensures PartsText(parts) + rest == PartText(parts[0]) + (PartsText(parts[1..]) + rest)
    ensures |PartsText(parts)| == |PartText(parts[0])| + |PartsText(parts[1..])|
    ensures AreParts(parts[1..]) && (parts[0].Nested? ==> AreParts(parts[0].parts))
    ensures parts[0].Text? ==> '/' !in parts[0].text && (parts[0].text != "" ==> parts[0].text[|parts[0].text| - 1] != '*')
  {
    hide PartText;
    Associates(PartText(parts[0]), PartsText(parts[1..]), rest);
  }

  lemma NestedSplits(parts: seq<Part>, after: string)
    ensures PartText(Nested(parts)) + after == "/*" + (PartsText(parts) + ("*/" + after))
    ensures |PartText(Nested(parts))| == 4 + |PartsText(parts)|
  {
    hide PartsText;
  }

  lemma {:induction false} PartsPassed(sql: string, at: nat, parts: seq<Part>, depth: nat, rest: string)
    requires at <= |sql| && sql[at..] == PartsText(parts) + rest && depth > 0 && AreParts(parts)
    ensures at + |PartsText(parts)| <= |sql|
    ensures CommentEnd(sql, at, depth) == CommentEnd(sql, at + |PartsText(parts)|, depth)
    decreases parts
  {
    hide CommentEnd, StartsWith, PartsText, AreParts;
    Ahead(sql, at, PartsText(parts), rest);
    if parts == [] {
      NoParts();
    } else {
      PartsSplit(parts, rest);
      var after := PartsText(parts[1..]) + rest;
      match parts[0]
      case Text(text) =>
        TextPassed(sql, at, text, depth, after);
        Ahead(sql, at, text, after);
        PartsPassed(sql, at + |text|, parts[1..], depth, rest);
      case Nested(more) =>
        var inner := PartsText(more);
        NestedSplits(more, after);
        Ahead(sql, at, "/*", inner + ("*/" + after));
        PartsPassed(sql, at + 2, more, depth + 1, "*/" + after);
        Bracketed(sql, at, inner, depth, after);
        PartsPassed(sql, at + 4 + |inner|, parts[1..], depth, rest);
    }
  }

  lemma NoParts()
    ensures PartsText([]) == ""
  {}

  // ---- a turn, or two, at each piece ----

  /** From `at` the scanner goes on from `next`, with nothing found. */
  predicate Passes(sql: string, driver: Driver, at: nat, next: nat) {
    at <= next <= |sql| && BlanksFrom(sql, driver, at) == BlanksFrom(sql, driver, next)
  }

  lemma TurnPasses(sql: string, driver: Driver, at: nat)
    requires at < |sql| && !IsBlank(sql, at)
    ensures Passes(sql, driver, at, Next(sql, driver, at))
  {
    hide Next, IsBlank;
    BlanksTurn(sql, driver, at);
  }

  /** Where no three quotes are, and no comment or quote opens. */
  lemma PlainTurn(sql: string, driver: Driver, at: nat)
    requires at < |sql| && !IsQuote(sql[at]) && !IsWordChar(sql[at]) && sql[at] != '@'
    requires !(driver.BigQuery? && sql[at] == '#')
    requires sql[at] == '-' ==> !(at + 1 < |sql| && sql[at + 1] == '-')
    requires sql[at] == '/' ==> !(at + 1 < |sql| && sql[at + 1] == '*')
    ensures Passes(sql, driver, at, at + 1)
  {
    if OpensTriple(sql, driver, at) {
      if StartsWith(sql, "\'\'\'", at) { StartsWithFirst(sql, "\'\'\'", at); }
      if StartsWith(sql, "\"\"\"", at) { StartsWithFirst(sql, "\"\"\"", at); }
    }
    if StartsWith(sql, "--", at) { StartsWithFirst(sql, "--", at); }
    if StartsWith(sql, "/*", at) { StartsWithFirst(sql, "/*", at); }
    TurnPasses(sql, driver, at);
  }

  lemma GapPasses(sql: string, driver: Driver, at: nat, gap: char, rest: string)
    requires at <= |sql| && sql[at..] == [gap] + rest && IsGap(gap)
    ensures Passes(sql, driver, at, at + 1)
  {
    Ahead(sql, at, [gap], rest);
    PlainTurn(sql, driver, at);
  }

  lemma NoTriple(sql: string, driver: Driver, at: nat)
    requires at < |sql| && !IsQuote(sql[at])
    ensures !OpensTriple(sql, driver, at)
  {
    if OpensTriple(sql, driver, at) {
      if StartsWith(sql, "\'\'\'", at) { StartsWithFirst(sql, "\'\'\'", at); }
      if StartsWith(sql, "\"\"\"", at) { StartsWithFirst(sql, "\"\"\"", at); }
    }
  }

  lemma NoComment(sql: string, at: nat)
    requires at < |sql| && sql[at] != '-' && sql[at] != '/'
    ensures !StartsWith(sql, "--", at) && !StartsWith(sql, "/*", at)
  {
    if StartsWith(sql, "--", at) { StartsWithFirst(sql, "--", at); }
    if StartsWith(sql, "/*", at) { StartsWithFirst(sql, "/*", at); }
  }

  lemma VariableFound(sql: string, driver: Driver, at: nat, name: string, rest: string)
    requires at <= |sql| && sql[at..] == "@" + name + rest && IsName(name)
    requires rest != "" ==> !IsNameChar(rest[0])
    ensures at + 1 + |name| <= |sql|
    ensures BlanksFrom(sql, driver, at)
            == [Blank(name, at, at + 1 + |name|)] + BlanksFrom(sql, driver, at + 1 + |name|)
  {
    hide Next, NameEnd;
    assert sql[at..] == "@" + (name + rest);
    Ahead(sql, at, "@", name + rest);
    NameEndIs(sql, at + 1, name, rest);
    Ahead(sql, at + 1, name, rest);
    BlanksTurn(sql, driver, at);
    BlankTurn(sql, driver, at);
  }

  lemma AtTurn(sql: string, driver: Driver, at: nat)
    requires at < |sql| && sql[at] == '@'
    ensures Next(sql, driver, at) == NameEnd(sql, if IsSystem(sql, at) then at + 2 else at + 1)
  {
    NoTriple(sql, driver, at);
    NoComment(sql, at);
  }

  lemma SystemPasses(sql: string, driver: Driver, at: nat, name: string, rest: string)
    requires at <= |sql| && sql[at..] == "@@" + name + rest && (name == "" || IsName(name))
    requires rest != "" ==> !IsNameChar(rest[0])
    ensures Passes(sql, driver, at, at + 2 + |name|)
  {
    hide Next, NameEnd;
    assert sql[at..] == "@@" + (name + rest);
    Ahead(sql, at, "@@", name + rest);
    NameEndIs(sql, at + 2, name, rest);
    Ahead(sql, at + 2, name, rest);
    AtTurn(sql, driver, at);
    TurnPasses(sql, driver, at);
  }

  lemma LoneAtPasses(sql: string, driver: Driver, at: nat, rest: string)
    requires at <= |sql| && sql[at..] == "@" + rest && (rest != "" ==> !IsNameChar(rest[0]) && rest[0] != '@')
    ensures Passes(sql, driver, at, at + 1)
  {
    hide Next, NameEnd;
    Ahead(sql, at, "@", rest);
    assert sql[at + 1..] == "" + rest;
    NameEndIs(sql, at + 1, "", rest);
    AtTurn(sql, driver, at);
    TurnPasses(sql, driver, at);
  }

  lemma WordTurn(sql: string, driver: Driver, at: nat)
    requires at < |sql| && IsWordChar(sql[at]) && !OpensDollarQuote(sql, at)
    ensures Next(sql, driver, at) == WordRun(sql, at + 1) && !IsBlank(sql, at)
  {
    hide WordRun, NameEnd, OpensDollarQuote;
    NoTriple(sql, driver, at);
    NoComment(sql, at);
  }

  lemma WordStarts(text: string)
    requires IsWordText(text)
    ensures text != "" && IsWordChar(text[0])
  {
    hide IsWordChar;
    assert text[0] in text;
  }

  lemma WordPasses(sql: string, driver: Driver, at: nat, text: string, rest: string)
    requires at <= |sql| && sql[at..] == text + rest && IsWordText(text)
    requires rest != "" ==> !IsWordChar(rest[0])
    ensures Passes(sql, driver, at, at + |text|)
  {
    hide WordRun, Next, OpensDollarQuote, IsBlank, IsWordChar, IsWordText, BlanksFrom;
    WordStarts(text);
    FirstAhead(sql, at, text, rest);
    WordRunGoesOn(sql, at, text, rest);
    NoDollarQuote(sql, at, text, rest);
    WordTurn(sql, driver, at);
    TurnPasses(sql, driver, at);
  }

  lemma WordRunGoesOn(sql: string, at: nat, text: string, rest: string)
    requires at < |sql| && sql[at..] == text + rest && IsWordText(text)
    requires rest != "" ==> !IsWordChar(rest[0])
    ensures WordRun(sql, at + 1) == at + |text|
  {
    hide WordRun, IsWordChar;
    assert sql[at + 1..] == text[1..] + rest;
    assert forall c <- text[1..] :: c in text;
    WordRunIs(sql, at + 1, text[1..], rest);
  }

  lemma NoDollarQuote(sql: string, at: nat, text: string, rest: string)
    requires at < |sql| && sql[at..] == text + rest && IsWordText(text) && (rest != "" ==> !IsWordChar(rest[0]))
    ensures !OpensDollarQuote(sql, at)
  {
    Ahead(sql, at, text, rest);
    if sql[at] == '$' {
      assert at + 1 < |sql| ==> !IsNameStart(sql[at + 1]) && sql[at + 1] != '$';
    }
  }

  // ---- strings and quoted names ----

  /** What is before a piece is no word. */
  predicate Apart(sql: string, at: nat) {
    at == 0 || at > |sql| || !IsWordChar(sql[at - 1])
  }

  lemma NotAllThree(sql: string, driver: Driver, at: nat)
    requires at < |sql|
    requires |sql| < at + 3 || sql[at + 1] != sql[at] || sql[at + 2] != sql[at]
    ensures !OpensTriple(sql, driver, at)
  {
    assert at + 3 <= |sql| ==> sql[at..at + 3] == [sql[at], sql[at + 1], sql[at + 2]];
  }

  lemma QuoteTurn(sql: string, driver: Driver, at: nat)
    requires at < |sql| && IsQuote(sql[at]) && !OpensTriple(sql, driver, at)
    ensures Next(sql, driver, at)
            == Closing(sql, at + 1, [sql[at]], driver.BigQuery? || sql[at] == '`' || EscapeString(sql, at))
    ensures !IsBlank(sql, at)
  {
    hide Closing;
  }

  /** The first of what is inside a string is no quote that stands alone. */
  lemma InsideStarts(inside: seq<Inside>, quote: char, rest: string)
    requires Escapes(inside, quote) && quote != '\\' && inside != []
    ensures var text := InsideText(inside, quote) + rest; text != "" && text[0] != quote
  {
    assert inside[0] in inside;
  }

  /** Where a string ends whose inside is passed as nothing. */
  lemma ClosedAfter(sql: string, at: nat, text: string, quote: string, backslashes: bool, rest: string)
    requires at <= |sql| && sql[at..] == text + (quote + rest) && quote != "" && quote[0] != '\\'
    requires Closing(sql, at, quote, backslashes) == Closing(sql, at + |text|, quote, backslashes)
    requires !backslashes ==> |quote| == 1 && (rest != "" ==> rest[0] != quote[0])
    ensures Closing(sql, at, quote, backslashes) == at + |text| + |quote| <= |sql|
  {
    hide Closing;
    Behead(sql, at, text, quote + rest);
    Closes(sql, at + |text|, quote, backslashes, rest);
    Behead(sql, at + |text|, quote, rest);
  }

  /** Two quotes in a row are all the quotes there are, or one is alone. */
  lemma QuotedOpensNoTriple(sql: string, driver: Driver, at: nat, quote: char, inside: seq<Inside>, rest: string)
    requires at <= |sql| && sql[at..] == [quote] + (InsideText(inside, quote) + ([quote] + rest))
    requires IsQuote(quote) && Escapes(inside, quote) && (rest != "" ==> rest[0] != quote)
    ensures !OpensTriple(sql, driver, at)
  {
    hide OpensTriple;
    var after := InsideText(inside, quote) + ([quote] + rest);
    FirstAhead(sql, at, [quote], after);
    Behead(sql, at, [quote], after);
    if inside == [] {
      assert after == [quote] + rest;
      FirstAhead(sql, at + 1, [quote], rest);
    } else {
      InsideStarts(inside, quote, [quote] + rest);
    }
    NotAllThree(sql, driver, at);
  }

  lemma EscapedQuotePasses(sql: string, driver: Driver, at: nat, quote: char, inside: seq<Inside>, rest: string)
    requires at < |sql| && sql[at..] == [quote] + (InsideText(inside, quote) + ([quote] + rest))
    requires IsQuote(quote) && Escapes(inside, quote) && (rest != "" ==> rest[0] != quote)
    requires driver.BigQuery? || quote == '`' || EscapeString(sql, at)
    ensures Passes(sql, driver, at, at + 2 + |InsideText(inside, quote)|)
  {
    hide Closing, EscapeString, Next, Escapes, InsideText, OpensTriple, IsBlank;
    var text := InsideText(inside, quote);
    FirstAhead(sql, at, [quote], text + ([quote] + rest));
    Behead(sql, at, [quote], text + ([quote] + rest));
    EscapesPassed(sql, at + 1, inside, quote, [quote] + rest);
    ClosedAfter(sql, at + 1, text, [quote], true, rest);
    QuotedOpensNoTriple(sql, driver, at, quote, inside, rest);
    QuoteTurn(sql, driver, at);
    TurnPasses(sql, driver, at);
  }

  lemma DoubledQuotePasses(sql: string, at: nat, quote: char, inside: seq<Inside>, rest: string)
    requires at <= |sql| && sql[at..] == [quote] + (InsideText(inside, quote) + ([quote] + rest))
    requires quote in {'\'', '"'} && Doubles(inside, quote) && (rest != "" ==> rest[0] != quote)
    requires at < |sql| && !EscapeString(sql, at)
    ensures Passes(sql, Postgres, at, at + 2 + |InsideText(inside, quote)|)
  {
    hide Closing, Next, Doubles, InsideText, IsBlank, EscapeString;
    var text := InsideText(inside, quote);
    FirstAhead(sql, at, [quote], text + ([quote] + rest));
    Behead(sql, at, [quote], text + ([quote] + rest));
    DoublesPassed(sql, at + 1, inside, quote, [quote] + rest);
    ClosedAfter(sql, at + 1, text, [quote], false, rest);
    QuoteTurn(sql, Postgres, at);
    TurnPasses(sql, Postgres, at);
  }

  lemma EscapeTextPasses(sql: string, at: nat, mark: char, inside: seq<Inside>, rest: string)
    requires at <= |sql| && sql[at..] == [mark] + (['\''] + (InsideText(inside, '\'') + (['\''] + rest)))
    requires mark in {'e', 'E'} && Escapes(inside, '\'') && (rest != "" ==> rest[0] != '\'') && Apart(sql, at)
    ensures Passes(sql, Postgres, at, at + 3 + |InsideText(inside, '\'')|)
  {
    hide Closing, Next, Escapes, InsideText, IsBlank, IsWordChar, EscapeString, Apart, Passes;
    var quoted := ['\''] + (InsideText(inside, '\'') + (['\''] + rest));
    FirstAhead(sql, at, [mark], quoted);
    Behead(sql, at, [mark], quoted);
    FirstAhead(sql, at + 1, ['\''], InsideText(inside, '\'') + (['\''] + rest));
    MarkIsAWord(mark);
    WordPasses(sql, Postgres, at, [mark], quoted);
    MarkEscapes(sql, at);
    EscapedQuotePasses(sql, Postgres, at + 1, '\'', inside, rest);
    PassesOn(sql, Postgres, at, at + 1, at + 3 + |InsideText(inside, '\'')|);
  }

  lemma MarkIsAWord(mark: char)
    requires mark in {'e', 'E'}
    ensures IsWordText([mark]) && !IsWordChar('\'')
  {}

  lemma MarkEscapes(sql: string, at: nat)
    requires at + 1 < |sql| && sql[at] in {'e', 'E'} && sql[at + 1] == '\'' && Apart(sql, at)
    ensures EscapeString(sql, at + 1)
  {}

  lemma PassesOn(sql: string, driver: Driver, at: nat, middle: nat, next: nat)
    requires Passes(sql, driver, at, middle) && Passes(sql, driver, middle, next)
    ensures Passes(sql, driver, at, next)
  {
    hide BlanksFrom;
  }

  /** The quote after a word is of no escape string, unless the word is an `e`. */
  lemma PrefixDoesNotEscape(sql: string, at: nat, word: string, rest: string)
    requires at <= |sql| && sql[at..] == word + rest && rest != "" && IsWordText(word) && Apart(sql, at)
    requires rest[0] == '\'' ==> word !in {"e", "E"}
    ensures at + |word| < |sql| && !EscapeString(sql, at + |word|)
  {
    Ahead(sql, at, word, rest);
    var quote := at + |word|;
    assert sql[quote - 1] == word[|word| - 1];
    if |word| > 1 {
      assert sql[quote - 2] == word[|word| - 2] && word[|word| - 2] in word;
    } else {
      assert word == [word[0]];
    }
  }

  lemma PrefixedPasses(sql: string, driver: Driver, at: nat, word: string, quote: char, inside: seq<Inside>, rest: string)
    requires at <= |sql| && sql[at..] == word + ([quote] + (InsideText(inside, quote) + ([quote] + rest)))
    requires IsPiece(Prefixed(word, quote, inside), driver) && (rest != "" ==> rest[0] != quote) && Apart(sql, at)
    ensures Passes(sql, driver, at, at + |word| + 2 + |InsideText(inside, quote)|)
  {
    hide Escapes, Doubles, InsideText, IsWordChar, EscapeString, Apart, Passes;
    var quoted := [quote] + (InsideText(inside, quote) + ([quote] + rest));
    FirstAhead(sql, at, word, quoted);
    Behead(sql, at, word, quoted);
    QuoteIsNoWord(quote);
    WordPasses(sql, driver, at, word, quoted);
    PrefixDoesNotEscape(sql, at, word, quoted);
    if driver.Postgres? {
      DoubledQuotePasses(sql, at + |word|, quote, inside, rest);
    } else {
      EscapedQuotePasses(sql, driver, at + |word|, quote, inside, rest);
    }
    PassesOn(sql, driver, at, at + |word|, at + |word| + 2 + |InsideText(inside, quote)|);
  }

  lemma QuoteIsNoWord(quote: char)
    requires IsQuote(quote)
    ensures !IsWordChar(quote)
  {}

  lemma TriplePasses(sql: string, at: nat, quote: char, inside: seq<Inside>, rest: string)
    requires var three := [quote, quote, quote];
      at <= |sql| && sql[at..] == three + (InsideText(inside, quote) + (three + rest))
    requires quote in {'\'', '"'} && StandsInTriple(inside, quote)
    ensures Passes(sql, BigQuery, at, at + 6 + |InsideText(inside, quote)|)
  {
    hide Closing, Next, StandsInTriple, InsideText, IsBlank;
    var three, text := [quote, quote, quote], InsideText(inside, quote);
    FirstAhead(sql, at, three, text + (three + rest));
    Behead(sql, at, three, text + (three + rest));
    TriplePassed(sql, at + 3, inside, quote, three + rest);
    ClosedAfter(sql, at + 3, text, three, true, rest);
    ThreeQuotesOpen(sql, at, quote, text + (three + rest));
    TripleTurn(sql, at);
    TurnPasses(sql, BigQuery, at);
  }

  lemma ThreeQuotesOpen(sql: string, at: nat, quote: char, rest: string)
    requires at <= |sql| && sql[at..] == [quote, quote, quote] + rest && quote in {'\'', '"'}
    ensures OpensTriple(sql, BigQuery, at) && sql[at..at + 3] == [quote, quote, quote]
  {
    Ahead(sql, at, [quote, quote, quote], rest);
    assert [quote, quote, quote] == if quote == '"' then "\"\"\"" else "'''";
  }

  lemma TripleTurn(sql: string, at: nat)
    requires at < |sql| && OpensTriple(sql, BigQuery, at)
    ensures Next(sql, BigQuery, at) == Closing(sql, at + 3, sql[at..at + 3], true) && !IsBlank(sql, at)
  {
    hide Closing, NameEnd;
    if sql[at] == '@' { NoTriple(sql, BigQuery, at); }
  }

  // ---- dollar quotes and comments ----

  lemma TagStays(sql: string, from: nat, body: string, tag: string, rest: string)
    requires from <= |sql| && sql[from..] == body + (tag + rest) && EndsAtTag(body, tag)
    ensures forall i :: from <= i < from + |body| ==> !StartsWith(sql, tag, i)
    ensures StartsWith(sql, tag, from + |body|)
  {
    hide StartsWith;
    Behead(sql, from, body, tag + rest);
    StartsAhead(sql, from + |body|, tag, rest);
    forall i | from <= i < from + |body|
      ensures !StartsWith(sql, tag, i)
    {
      assert !StartsWith(body + tag, tag, i - from);
      TagAlike(sql, from, body, tag, rest, i - from);
    }
  }

  lemma SliceOfSlice(sql: string, from: nat, k: nat, length: nat)
    requires from + k + length <= |sql|
    ensures sql[from..][k..k + length] == sql[from + k..from + k + length]
  {}

  lemma TagAlike(sql: string, from: nat, body: string, tag: string, rest: string, k: nat)
    requires from <= |sql| && sql[from..] == body + (tag + rest) && k < |body|
    ensures StartsWith(sql, tag, from + k) <==> StartsWith(body + tag, tag, k)
  {
    var all := body + tag;
    assert body + (tag + rest) == all + rest;
    assert |sql| == from + |sql[from..]|;
    SliceOfSlice(sql, from, k, |tag|);
    assert (all + rest)[k..k + |tag|] == all[k..k + |tag|];
  }

  lemma DollarTurn(sql: string, at: nat)
    requires at < |sql| && OpensDollarQuote(sql, at)
    ensures var tag := NameEnd(sql, at + 1) + 1;
      Next(sql, Postgres, at) == PastFirst(sql, sql[at..tag], tag) && !IsBlank(sql, at)
  {
    hide NameEnd, PastFirst;
    NoTriple(sql, Postgres, at);
  }

  lemma DollarQuoteOpens(sql: string, at: nat, tag: string, after: string)
    requires at <= |sql| && sql[at..] == "$" + tag + "$" + after && (tag == "" || IsName(tag))
    ensures at < |sql| && OpensDollarQuote(sql, at) && NameEnd(sql, at + 1) == at + 1 + |tag|
    ensures at + 2 + |tag| <= |sql| && sql[at..at + 2 + |tag|] == "$" + tag + "$"
  {
    hide NameEnd;
    assert sql[at..] == ("$" + tag + "$") + after;
    Ahead(sql, at, "$" + tag + "$", after);
    assert sql[at..] == "$" + (tag + ("$" + after));
    FirstAhead(sql, at, "$", tag + ("$" + after));
    Behead(sql, at, "$", tag + ("$" + after));
    NameEndIs(sql, at + 1, tag, "$" + after);
    FirstAhead(sql, at + 1, tag, "$" + after);
  }

  lemma DollarPasses(sql: string, at: nat, tag: string, body: string, rest: string)
    requires var quote := "$" + tag + "$";
      at <= |sql| && sql[at..] == quote + (body + (quote + rest)) && EndsAtTag(body, quote)
    requires tag == "" || IsName(tag)
    ensures Passes(sql, Postgres, at, at + 2 * (2 + |tag|) + |body|)
  {
    hide Next, NameEnd, PastFirst, StartsWith, EndsAtTag, OpensDollarQuote, IsBlank, IsName;
    var quote := "$" + tag + "$";
    DollarQuoteOpens(sql, at, tag, body + (quote + rest));
    DollarTurn(sql, at);
    var from := at + |quote|;
    Behead(sql, at, quote, body + (quote + rest));
    TagStays(sql, from, body, quote, rest);
    PastFirstIs(sql, quote, from, from + |body|);
    Behead(sql, from, body, quote + rest);
    Behead(sql, from + |body|, quote, rest);
    TurnPasses(sql, Postgres, at);
  }

  lemma LineTurn(sql: string, driver: Driver, at: nat)
    requires at < |sql| && (StartsWith(sql, "--", at) || (sql[at] == '#' && driver.BigQuery?))
    ensures Next(sql, driver, at) == PastFirst(sql, "\n", at) && !IsBlank(sql, at)
  {
    hide PastFirst, NameEnd;
    if StartsWith(sql, "--", at) { StartsWithFirst(sql, "--", at); }
    NoTriple(sql, driver, at);
  }

  /** The first line break is the one after a line without one. */
  lemma LineEnds(sql: string, at: nat, line: string, rest: string)
    requires at <= |sql| && sql[at..] == line + ("\n" + rest) && '\n' !in line
    ensures PastFirst(sql, "\n", at) == at + |line| + 1 <= |sql|
  {
    hide PastFirst;
    Ahead(sql, at, line, "\n" + rest);
    StartsAhead(sql, at + |line|, "\n", rest);
    forall i | at <= i < at + |line|
      ensures !StartsWith(sql, "\n", i)
    {
      assert sql[at + (i - at)] == line[i - at] && line[i - at] in line;
      if StartsWith(sql, "\n", i) { StartsWithFirst(sql, "\n", i); }
    }
    PastFirstIs(sql, "\n", at, at + |line|);
  }

  lemma LineCommentPasses(sql: string, driver: Driver, at: nat, opener: string, text: string, rest: string)
    requires at <= |sql| && sql[at..] == opener + (text + ("\n" + rest)) && '\n' !in text
    requires opener == "--" || (opener == "#" && driver.BigQuery?)
    ensures Passes(sql, driver, at, at + |opener| + |text| + 1)
  {
    hide Next, PastFirst, StartsWith, IsBlank;
    assert '\n' !in opener;
    assert sql[at..] == opener + text + ("\n" + rest);
    LineEnds(sql, at, opener + text, rest);
    FirstAhead(sql, at, opener, text + ("\n" + rest));
    StartsAhead(sql, at, opener, text + ("\n" + rest));
    LineTurn(sql, driver, at);
    TurnPasses(sql, driver, at);
  }

  lemma BlockTurn(sql: string, driver: Driver, at: nat)
    requires at < |sql| && StartsWith(sql, "/*", at)
    ensures Next(sql, driver, at) == CommentEnd(sql, at + 2, 1) && !IsBlank(sql, at)
  {
    hide CommentEnd, NameEnd;
    StartsWithFirst(sql, "/*", at);
    NoTriple(sql, driver, at);
    if StartsWith(sql, "--", at) { StartsWithFirst(sql, "--", at); }
  }

  lemma CommentCloses(sql: string, at: nat, parts: seq<Part>, rest: string)
    requires at <= |sql| && sql[at..] == PartsText(parts) + ("*/" + rest) && AreParts(parts)
    ensures CommentEnd(sql, at, 1) == at + |PartsText(parts)| + 2 <= |sql|
  {
    hide CommentEnd, StartsWith, PartsText, AreParts;
    var close := at + |PartsText(parts)|;
    PartsPassed(sql, at, parts, 1, "*/" + rest);
    Behead(sql, at, PartsText(parts), "*/" + rest);
    Behead(sql, close, "*/", rest);
    StartsAhead(sql, close, "*/", rest);
    CommentGoesOut(sql, close, 1);
    CommentOver(sql, close + 2);
  }

  lemma BlockCommentPasses(sql: string, driver: Driver, at: nat, parts: seq<Part>, rest: string)
    requires at <= |sql| && sql[at..] == "/*" + (PartsText(parts) + ("*/" + rest)) && AreParts(parts)
    ensures Passes(sql, driver, at, at + 4 + |PartsText(parts)|)
  {
    hide Next, CommentEnd, StartsWith, PartsText, AreParts, IsBlank;
    var after := PartsText(parts) + ("*/" + rest);
    FirstAhead(sql, at, "/*", after);
    Behead(sql, at, "/*", after);
    StartsAhead(sql, at, "/*", after);
    CommentCloses(sql, at + 2, parts, rest);
    BlockTurn(sql, driver, at);
    TurnPasses(sql, driver, at);
  }

  lemma CommentOver(sql: string, at: nat)
    requires at <= |sql|
    ensures CommentEnd(sql, at, 0) == at
  {}

  // ---- the whole statement ----

  /** A piece's text as each case above takes it. */
  lemma QuotedSplits(quote: string, text: string, rest: string)
    ensures quote + text + quote + rest == quote + (text + (quote + rest))
  {}

  lemma MarkPasses(sql: string, driver: Driver, at: nat, c: char, gap: char, rest: string)
    requires at <= |sql| && sql[at..] == [c] + ([gap] + rest) && IsPiece(Mark(c), driver) && IsGap(gap)
    ensures Passes(sql, driver, at, at + 1)
  {
    FirstAhead(sql, at, [c], [gap] + rest);
    if c == '@' {
      assert sql[at..] == "@" + ([gap] + rest);
      LoneAtPasses(sql, driver, at, [gap] + rest);
    } else {
      PlainTurn(sql, driver, at);
    }
  }

  lemma NothingBeforeEscapes(sql: string, at: nat)
    requires at < |sql| && Apart(sql, at)
    ensures !EscapeString(sql, at)
  {}

  lemma StringPasses(sql: string, driver: Driver, at: nat, piece: Piece, rest: string)
    requires at < |sql| && sql[at..] == PieceText(piece) + rest && IsPiece(piece, driver) && Apart(sql, at)
    requires piece.Quoted? || piece.EscapeText? || piece.Prefixed? || piece.Triple?
    requires rest != "" ==> !IsQuote(rest[0])
    ensures Passes(sql, driver, at, at + |PieceText(piece)|)
  {
    hide Escapes, Doubles, StandsInTriple, InsideText, Passes, IsWordChar, EscapeString;
    match piece
    case Quoted(quote, inside) =>
      QuotedSplits([quote], InsideText(inside, quote), rest);
      if driver.Postgres? && quote != '`' {
        NothingBeforeEscapes(sql, at);
        DoubledQuotePasses(sql, at, quote, inside, rest);
      } else {
        EscapedQuotePasses(sql, driver, at, quote, inside, rest);
      }
    case EscapeText(mark, inside) =>
      assert "'" == ['\''];
      Associates([mark], "'" + InsideText(inside, '\'') + "'", rest);
      QuotedSplits("'", InsideText(inside, '\''), rest);
      EscapeTextPasses(sql, at, mark, inside, rest);
    case Prefixed(word, quote, inside) =>
      Associates(word, [quote] + InsideText(inside, quote) + [quote], rest);
      QuotedSplits([quote], InsideText(inside, quote), rest);
      PrefixedPasses(sql, driver, at, word, quote, inside, rest);
    case Triple(quote, inside) =>
      QuotedSplits([quote, quote, quote], InsideText(inside, quote), rest);
      TriplePasses(sql, at, quote, inside, rest);
  }

  lemma OtherPasses(sql: string, driver: Driver, at: nat, piece: Piece, gap: char, rest: string)
    requires at <= |sql| && sql[at..] == PieceText(piece) + ([gap] + rest) && IsPiece(piece, driver) && IsGap(gap)
    requires piece.System? || piece.Word? || piece.Mark?
    ensures Passes(sql, driver, at, at + |PieceText(piece)|)
  {
    hide Passes;
    match piece
    case System(name) => SystemPasses(sql, driver, at, name, [gap] + rest);
    case Word(text) => WordPasses(sql, driver, at, text, [gap] + rest);
    case Mark(c) => MarkPasses(sql, driver, at, c, gap, rest);
    case _ =>
  }

  lemma DollarQuotePasses(sql: string, at: nat, tag: string, body: string, rest: string)
    requires at <= |sql| && sql[at..] == PieceText(Dollar(tag, body)) + rest && IsPiece(Dollar(tag, body), Postgres)
    ensures Passes(sql, Postgres, at, at + |PieceText(Dollar(tag, body))|)
  {
    hide EndsAtTag, Passes, IsName;
    var quote := "$" + tag + "$";
    assert PieceText(Dollar(tag, body)) == quote + body + quote;
    QuotedSplits(quote, body, rest);
    DollarPasses(sql, at, tag, body, rest);
  }

  lemma CommentPasses(sql: string, driver: Driver, at: nat, piece: Piece, rest: string)
    requires at <= |sql| && sql[at..] == PieceText(piece) + rest && IsPiece(piece, driver)
    requires piece.LineComment? || piece.BlockComment?
    ensures Passes(sql, driver, at, at + |PieceText(piece)|)
  {
    hide AreParts, PartsText, Passes;
    match piece
    case LineComment(opener, text) =>
      Associates(opener + text, "\n", rest);
      Associates(opener, text, "\n" + rest);
      LineCommentPasses(sql, driver, at, opener, text, rest);
    case BlockComment(parts) =>
      Associates("/*" + PartsText(parts), "*/", rest);
      Associates("/*", PartsText(parts), "*/" + rest);
      BlockCommentPasses(sql, driver, at, parts, rest);
    case _ =>
  }

  lemma TextIsSome(piece: Piece, driver: Driver)
    requires IsPiece(piece, driver)
    ensures PieceText(piece) != ""
    ensures piece.Dollar? ==> driver.Postgres?
    ensures piece.Variable? ==> IsName(piece.name) && PieceText(piece) == "@" + piece.name
  {}

  lemma GapIsNoWord(c: char)
    requires IsGap(c)
    ensures !IsWordChar(c) && !IsNameChar(c) && !IsQuote(c)
  {}

  /** A piece is passed as nothing, but for a variable, which is found. */
  lemma PieceFound(sql: string, driver: Driver, at: nat, piece: Piece, gap: char, rest: string)
    requires at <= |sql| && sql[at..] == PieceText(piece) + ([gap] + rest) && IsPiece(piece, driver) && IsGap(gap)
    requires Apart(sql, at)
    ensures var end := at + |PieceText(piece)|;
      && end < |sql| && sql[end] == gap
      && BlanksFrom(sql, driver, at)
         == (if piece.Variable? then [Blank(piece.name, at, end)] else []) + BlanksFrom(sql, driver, end)
  {
    hide BlanksFrom, PieceText, IsPiece, IsGap, IsName, Apart, IsQuote, IsWordChar, IsNameChar;
    FirstAhead(sql, at, PieceText(piece), [gap] + rest);
    TextIsSome(piece, driver);
    GapIsNoWord(gap);
    if piece.Variable? {
      VariableFound(sql, driver, at, piece.name, [gap] + rest);
    } else if piece.Quoted? || piece.EscapeText? || piece.Prefixed? || piece.Triple? {
      StringPasses(sql, driver, at, piece, [gap] + rest);
    } else if piece.Dollar? {
      DollarQuotePasses(sql, at, piece.tag, piece.body, [gap] + rest);
    } else if piece.LineComment? || piece.BlockComment? {
      CommentPasses(sql, driver, at, piece, [gap] + rest);
    } else {
      OtherPasses(sql, driver, at, piece, gap, rest);
    }
  }

  /** A piece and the gap after it. */
  lemma SpacedFound(sql: string, driver: Driver, at: nat, p: Spaced, rest: string)
    requires at <= |sql| && sql[at..] == PieceText(p.piece) + ([p.gap] + rest)
    requires IsPiece(p.piece, driver) && IsGap(p.gap) && Apart(sql, at)
    ensures var end := at + |PieceText(p.piece)|;
      && end + 1 <= |sql| && sql[end + 1..] == rest && Apart(sql, end + 1)
      && BlanksFrom(sql, driver, at)
         == (if p.piece.Variable? then [Blank(p.piece.name, at, end)] else []) + BlanksFrom(sql, driver, end + 1)
  {
    hide BlanksFrom, PieceText, IsPiece, IsGap, IsWordChar;
    var end := at + |PieceText(p.piece)|;
    PieceFound(sql, driver, at, p.piece, p.gap, rest);
    Behead(sql, at, PieceText(p.piece), [p.gap] + rest);
    GapIsNoWord(p.gap);
    GapPasses(sql, driver, end, p.gap, rest);
    Behead(sql, end, [p.gap], rest);
  }

  lemma SqlSplits(pieces: seq<Spaced>, driver: Driver, rest: string)
    requires pieces != [] && ArePieces(pieces, driver)
    ensures IsPiece(pieces[0].piece, driver) && IsGap(pieces[0].gap) && ArePieces(pieces[1..], driver)
    ensures Sql(pieces) + rest == PieceText(pieces[0].piece) + ([pieces[0].gap] + (Sql(pieces[1..]) + rest))
    ensures |Sql(pieces)| == |PieceText(pieces[0].piece)| + 1 + |Sql(pieces[1..])|
  {
    hide PieceText, IsPiece, IsGap;
    var p := pieces[0];
    assert p in pieces && forall q <- pieces[1..] :: q in pieces;
    Associates(PieceText(p.piece) + [p.gap], Sql(pieces[1..]), rest);
    Associates(PieceText(p.piece), [p.gap], Sql(pieces[1..]) + rest);
  }

  lemma {:induction false} VariablesFrom(sql: string, driver: Driver, at: nat, pieces: seq<Spaced>, rest: string)
    requires at <= |sql| && sql[at..] == Sql(pieces) + rest && ArePieces(pieces, driver) && Apart(sql, at)
    ensures at + |Sql(pieces)| <= |sql| && Apart(sql, at + |Sql(pieces)|) && sql[at + |Sql(pieces)|..] == rest
    ensures BlanksFrom(sql, driver, at) == Variables(pieces, at) + BlanksFrom(sql, driver, at + |Sql(pieces)|)
    decreases |pieces|
  {
    hide BlanksFrom, IsPiece, PieceText, IsGap, Apart, ArePieces, Sql;
    if pieces == [] {
      assert Sql(pieces) == "" by { NoPieces(); }
      assert "" + rest == rest;
    } else {
      var p := pieces[0];
      SqlSplits(pieces, driver, rest);
      SpacedFound(sql, driver, at, p, Sql(pieces[1..]) + rest);
      var end := at + |PieceText(p.piece)|;
      VariablesFrom(sql, driver, end + 1, pieces[1..], rest);
      Associates(if p.piece.Variable? then [Blank(p.piece.name, at, end)] else [],
                 Variables(pieces[1..], end + 1), BlanksFrom(sql, driver, end + 1 + |Sql(pieces[1..])|));
    }
  }

  lemma NoPieces()
    ensures Sql([]) == ""
  {}

  /**
   * The blanks of a statement are its variables, each where it is written, and
   * no `@` of a string, a quoted name, a comment or a system variable.
   */
  lemma BlanksAreTheVariables(pieces: seq<Spaced>, driver: Driver)
    requires ArePieces(pieces, driver)
    ensures Blanks(Sql(pieces), driver) == Variables(pieces, 0)
  {
    hide BlanksFrom, ArePieces, Sql, Variables;
    var sql := Sql(pieces);
    assert sql[0..] == sql + "";
    VariablesFrom(sql, driver, 0, pieces, "");
    BlanksEnd(sql, driver, |sql|);
  }

  // ---- what is left open hides the rest ----

  /** A string, a quoted name, a dollar quote or a comment that nothing closes. */
  datatype Open =
    | OpenQuote(quote: char, inside: seq<Inside>)
    | OpenDollar(tag: string, body: string)
    | OpenComment(parts: seq<Part>)

  function OpenText(open: Open): string {
    match open
    case OpenQuote(quote, inside) => [quote] + InsideText(inside, quote)
    case OpenDollar(tag, body) => "$" + tag + "$" + body
    case OpenComment(parts) => "/*" + PartsText(parts)
  }

  predicate IsOpen(open: Open, driver: Driver) {
    match open
    case OpenQuote(quote, inside) =>
      IsQuote(quote) && if driver.Postgres? && quote != '`' then Doubles(inside, quote) else Escapes(inside, quote)
    case OpenDollar(tag, body) =>
      && driver.Postgres? && (tag == "" || IsName(tag))
      && forall i :: 0 <= i <= |body| ==> !StartsWith(body, "$" + tag + "$", i)
    case OpenComment(parts) => AreParts(parts)
  }

  lemma {:induction false} PastNone(sql: string, part: string, from: nat)
    requires part != "" && forall i :: from <= i <= |sql| ==> !StartsWith(sql, part, i)
    ensures PastFirst(sql, part, from) == |sql|
    decreases |sql| - from
  {
    hide StartsWith;
    if from + |part| <= |sql| {
      PastNone(sql, part, from + 1);
    }
  }

  lemma OpenQuotePasses(sql: string, driver: Driver, at: nat, quote: char, inside: seq<Inside>)
    requires at <= |sql| && sql[at..] == OpenText(OpenQuote(quote, inside)) && IsOpen(OpenQuote(quote, inside), driver)
    requires Apart(sql, at)
    ensures Passes(sql, driver, at, |sql|)
  {
    hide Next, Doubles, Escapes, InsideText, IsBlank, OpensTriple, Closing;
    var text := InsideText(inside, quote);
    assert sql[at..] == [quote] + (text + "");
    FirstAhead(sql, at, [quote], text + "");
    Behead(sql, at, [quote], text + "");
    Behead(sql, at + 1, text, "");
    if driver.Postgres? && quote != '`' {
      DoublesPassed(sql, at + 1, inside, quote, "");
      ClosingStops(sql, [quote], false);
      assert !OpensTriple(sql, driver, at) by { OnlyBigQueryTriples(sql, at); }
    } else {
      EscapesPassed(sql, at + 1, inside, quote, "");
      ClosingStops(sql, [quote], true);
      if inside == [] {
        assert text == "" by { NothingInside(quote); }
      } else {
        InsideStarts(inside, quote, "");
        FirstAhead(sql, at + 1, text, "");
      }
      NotAllThree(sql, driver, at);
    }
    QuoteTurn(sql, driver, at);
    TurnPasses(sql, driver, at);
  }

  lemma NothingInside(quote: char)
    ensures InsideText([], quote) == ""
  {}

  lemma OnlyBigQueryTriples(sql: string, at: nat)
    ensures !OpensTriple(sql, Postgres, at)
  {}

  lemma ClosingStops(sql: string, quote: string, backslashes: bool)
    requires quote != ""
    ensures Closing(sql, |sql|, quote, backslashes) == |sql|
  {}

  lemma OpenDollarPasses(sql: string, at: nat, tag: string, body: string)
    requires at <= |sql| && sql[at..] == OpenText(OpenDollar(tag, body)) && IsOpen(OpenDollar(tag, body), Postgres)
    ensures Passes(sql, Postgres, at, |sql|)
  {
    hide Next, NameEnd, PastFirst, OpensDollarQuote, IsBlank, IsName;
    var quote := "$" + tag + "$";
    assert sql[at..] == quote + body;
    DollarQuoteOpens(sql, at, tag, body);
    DollarTurn(sql, at);
    var from := at + |quote|;
    Behead(sql, at, quote, body);
    forall i | from <= i <= |sql|
      ensures !StartsWith(sql, quote, i)
    {
      assert !StartsWith(body, quote, i - from);
      assert i + |quote| <= |sql| ==> body[i - from..i - from + |quote|] == sql[i..i + |quote|];
    }
    PastNone(sql, quote, from);
    TurnPasses(sql, Postgres, at);
  }

  lemma OpenCommentPasses(sql: string, driver: Driver, at: nat, parts: seq<Part>)
    requires at <= |sql| && sql[at..] == OpenText(OpenComment(parts)) && AreParts(parts)
    ensures Passes(sql, driver, at, |sql|)
  {
    hide Next, CommentEnd, StartsWith, PartsText, AreParts, IsBlank;
    var text := PartsText(parts);
    FirstAhead(sql, at, "/*", text);
    Behead(sql, at, "/*", text);
    StartsAhead(sql, at, "/*", text);
    assert text == text + "";
    PartsPassed(sql, at + 2, parts, 1, "");
    Behead(sql, at + 2, text, "");
    CommentRunsOut(sql);
    BlockTurn(sql, driver, at);
    TurnPasses(sql, driver, at);
  }

  lemma CommentRunsOut(sql: string)
    ensures CommentEnd(sql, |sql|, 1) == |sql|
  {}

  /** What nothing closes runs to the end of the statement, and has no blank in it. */
  lemma NothingIsFoundInTheOpen(pieces: seq<Spaced>, open: Open, driver: Driver)
    requires ArePieces(pieces, driver) && IsOpen(open, driver)
    ensures Blanks(Sql(pieces) + OpenText(open), driver) == Variables(pieces, 0)
  {
    hide BlanksFrom, ArePieces, Sql, Variables, OpenText, IsOpen;
    var sql := Sql(pieces) + OpenText(open);
    assert sql[0..] == sql;
    VariablesFrom(sql, driver, 0, pieces, OpenText(open));
    OpenPasses(sql, driver, |Sql(pieces)|, open);
    BlanksEnd(sql, driver, |sql|);
  }

  lemma OpenPasses(sql: string, driver: Driver, at: nat, open: Open)
    requires at <= |sql| && sql[at..] == OpenText(open) && IsOpen(open, driver) && Apart(sql, at)
    ensures Passes(sql, driver, at, |sql|)
  {
    hide Passes, Apart, InsideText, PartsText, Escapes, Doubles, AreParts;
    match open
    case OpenQuote(quote, inside) => OpenQuotePasses(sql, driver, at, quote, inside);
    case OpenDollar(tag, body) => OpenDollarPasses(sql, at, tag, body);
    case OpenComment(parts) => OpenCommentPasses(sql, driver, at, parts);
  }
}
