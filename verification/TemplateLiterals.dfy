/**
 * How a value is written into a statement, and how the server's lexer reads a
 * text literal back: `literal` and `written` of
 * `src/features/query-templates/variables.ts`.
 */
module TemplateLiterals {
  import opened Basics
  import opened Chars
  import opened TemplateScanner
  import opened TemplateLocality

  datatype ValueType = Text | Number | Boolean | Null | Raw

  datatype Value = Value(kind: ValueType, text: string)

  // ---- numbers ----

  /** What JavaScript's `trim` takes off. */
  predicate IsSpace(c: char) {
    var code := c as int;
    code in {9, 10, 11, 12, 13, 32, 0xA0, 0x1680, 0x2028, 0x2029, 0x202F, 0x205F, 0x3000, 0xFEFF}
    || 0x2000 <= code <= 0x200A
  }

  function TrimStart(text: string): string {
    if text != "" && IsSpace(text[0]) then TrimStart(text[1..]) else text
  }

  function TrimEnd(text: string): string {
    if text != "" && IsSpace(text[|text| - 1]) then TrimEnd(text[..|text| - 1]) else text
  }

  function Trim(text: string): string {
    TrimEnd(TrimStart(text))
  }

  /** `([eE][+-]?\d+)?$` */
  predicate IsExponent(text: string, at: nat)
    requires at <= |text|
  {
    at == |text| ||
    (&& text[at] in {'e', 'E'}
     && var digits := if at + 1 < |text| && text[at + 1] in {'+', '-'} then at + 2 else at + 1;
        digits < |text| && IsDigit(text[digits]) && DigitsEnd(text, digits) == |text|)
  }

  /** `(\d+(\.\d*)?|\.\d+)([eE][+-]?\d+)?$` */
  predicate IsUnsigned(text: string, at: nat)
    requires at <= |text|
  {
    var whole := DigitsEnd(text, at);
    if at < whole then
      IsExponent(text, if whole < |text| && text[whole] == '.' then DigitsEnd(text, whole + 1) else whole)
    else
      at < |text| && text[at] == '.' && at + 1 < DigitsEnd(text, at + 1) && IsExponent(text, DigitsEnd(text, at + 1))
  }

  predicate IsSigned(text: string) {
    text != "" && text[0] in {'+', '-'}
  }

  predicate IsNumber(text: string) {
    IsUnsigned(text, if IsSigned(text) then 1 else 0)
  }

  // ---- literals ----

  function Literal(text: string, driver: Driver): string {
    if driver.Postgres? then "'" + ReplaceAll(text, '\'', "''") + "'"
    else "'" + ReplaceAll(ReplaceAll(ReplaceAll(ReplaceAll(text,
           '\\', "\\\\"), '\'', "\\'"), '\n', "\\n"), '\r', "\\r") + "'"
  }

  function Written(value: Value, driver: Driver): string {
    match value.kind
    case Text => Literal(value.text, driver)
    case Number => if IsSigned(Trim(value.text)) then "(" + Trim(value.text) + ")" else Trim(value.text)
    case Boolean => if value.text == "false" then "FALSE" else "TRUE"
    case Null => "NULL"
    case Raw => value.text
  }

  /** A text, a valid number, a boolean or NULL: anything but raw SQL. */
  predicate Spliceable(value: Value) {
    match value.kind
    case Number => IsNumber(Trim(value.text))
    case Raw => false
    case _ => true
  }

  // ---- one escape per character ----

  function Escape(c: char, driver: Driver): string {
    if driver.Postgres? then if c == '\'' then "''" else [c]
    else match c
      case '\\' => "\\\\"
      case '\'' => "\\'"
      case '\n' => "\\n"
      case '\r' => "\\r"
      case _ => [c]
  }

  function Escaped(text: string, driver: Driver): string {
    if text == "" then "" else Escape(text[0], driver) + Escaped(text[1..], driver)
  }

  lemma ReplaceChar(c: char, of: char, written: string)
    ensures ReplaceAll([c], of, written) == if c == of then written else [c]
  {
    assert [c][1..] == "";
  }

  lemma KeptPair(a: char, b: char, of: char, written: string)
    requires a != of && b != of
    ensures ReplaceAll([a, b], of, written) == [a, b]
  {
    assert [a, b][1..] == [b];
    ReplaceChar(b, of, written);
  }

  /** The four replacements, one after another, on one character. */
  function FourReplacements(text: string): string {
    ReplaceAll(ReplaceAll(ReplaceAll(ReplaceAll(text, '\\', "\\\\"), '\'', "\\'"), '\n', "\\n"), '\r', "\\r")
  }

  lemma FourReplacementsConcat(a: string, b: string)
    ensures FourReplacements(a + b) == FourReplacements(a) + FourReplacements(b)
  {
    hide ReplaceAll;
    ReplaceAllConcat(a, b, '\\', "\\\\");
    var a1, b1 := ReplaceAll(a, '\\', "\\\\"), ReplaceAll(b, '\\', "\\\\");
    ReplaceAllConcat(a1, b1, '\'', "\\'");
    var a2, b2 := ReplaceAll(a1, '\'', "\\'"), ReplaceAll(b1, '\'', "\\'");
    ReplaceAllConcat(a2, b2, '\n', "\\n");
    ReplaceAllConcat(ReplaceAll(a2, '\n', "\\n"), ReplaceAll(b2, '\n', "\\n"), '\r', "\\r");
  }

  lemma FourReplacementsOfOne(c: char)
    ensures FourReplacements([c]) == Escape(c, BigQuery)
  {
    hide ReplaceAll;
    ReplaceChar(c, '\\', "\\\\");
    if c == '\\' {
      KeptPair('\\', '\\', '\'', "\\'");
      KeptPair('\\', '\\', '\n', "\\n");
      KeptPair('\\', '\\', '\r', "\\r");
    } else {
      ReplaceChar(c, '\'', "\\'");
      KeptPair('\\', '\'', '\n', "\\n");
      KeptPair('\\', '\'', '\r', "\\r");
      ReplaceChar(c, '\n', "\\n");
      KeptPair('\\', 'n', '\r', "\\r");
      ReplaceChar(c, '\r', "\\r");
    }
  }

  /** Replacing the whole text character by character, the one order or the other, is one escape apiece. */
  lemma {:induction false} LiteralEscapesEachCharacter(text: string, driver: Driver)
    ensures Literal(text, driver) == "'" + Escaped(text, driver) + "'"
  {
    if driver.Postgres? {
      DoublingEscapes(text);
    } else {
      FourReplacementsEscape(text);
    }
  }

  lemma {:induction false} DoublingEscapes(text: string)
    ensures ReplaceAll(text, '\'', "''") == Escaped(text, Postgres)
  {
    if text != "" {
      DoublingEscapes(text[1..]);
    }
  }

  lemma {:induction false} FourReplacementsEscape(text: string)
    ensures FourReplacements(text) == Escaped(text, BigQuery)
  {
    if text != "" {
      FourReplacementsOfOne(text[0]);
      FourReplacementsEscape(text[1..]);
      FourReplacementsConcat([text[0]], text[1..]);
      assert text == [text[0]] + text[1..];
    }
  }

  // ---- reading one back ----

  /**
   * What a literal's inside says: PostgreSQL undoubles quotes; GoogleSQL undoes
   * the escapes below, takes no line break as written, and this reader takes no
   * other escape.
   */
  function Unescaped(inside: string, driver: Driver): Option<string> {
    if inside == "" then Some("")
    else if driver.Postgres? then
      if inside[0] != '\'' then Prepended(inside[0], Unescaped(inside[1..], driver))
      else if |inside| >= 2 && inside[1] == '\'' then Prepended('\'', Unescaped(inside[2..], driver))
      else None
    else if inside[0] == '\\' then
      if |inside| < 2 then None
      else match inside[1]
        case '\\' => Prepended('\\', Unescaped(inside[2..], driver))
        case '\'' => Prepended('\'', Unescaped(inside[2..], driver))
        case 'n' => Prepended('\n', Unescaped(inside[2..], driver))
        case 'r' => Prepended('\r', Unescaped(inside[2..], driver))
        case _ => None
    else if inside[0] in {'\'', '\n', '\r'} then None
    else Prepended(inside[0], Unescaped(inside[1..], driver))
  }

  function Prepended(c: char, rest: Option<string>): Option<string> {
    if rest.None? then None else Some([c] + rest.value)
  }

  /** The text a literal at the start of `sql` stands for, and where it ends. */
  function ReadLiteral(sql: string, driver: Driver): Option<(string, nat)> {
    if sql == "" || sql[0] != '\'' then None
    else
      var past := Closing(sql, 1, "'", driver.BigQuery?);
      if past < 2 || sql[past - 1] != '\'' then None
      else
        var text := Unescaped(sql[1..past - 1], driver);
        if text.None? then None else Some((text.value, past))
  }

  lemma UnescapedOne(c: char, rest: string, driver: Driver)
    ensures Unescaped(Escape(c, driver) + rest, driver) == Prepended(c, Unescaped(rest, driver))
  {
    var first := Escape(c, driver);
    assert (first + rest)[|first|..] == rest;
  }

  lemma {:induction false} UnescapedUndoesEscaped(text: string, driver: Driver)
    ensures Unescaped(Escaped(text, driver), driver) == Some(text)
  {
    if text != "" {
      hide Unescaped, Escape;
      UnescapedUndoesEscaped(text[1..], driver);
      UnescapedOne(text[0], Escaped(text[1..], driver), driver);
      assert text == [text[0]] + text[1..];
    }
  }

  /** The scanner goes over one character's escape. */
  lemma ClosingPassesOne(sql: string, at: nat, c: char, driver: Driver)
    requires at + |Escape(c, driver)| <= |sql| && sql[at..at + |Escape(c, driver)|] == Escape(c, driver)
    requires driver.Postgres? && c != '\'' ==> sql[at] != '\''
    ensures Closing(sql, at, "'", driver.BigQuery?) == Closing(sql, at + |Escape(c, driver)|, "'", driver.BigQuery?)
  {
    var first := Escape(c, driver);
    assert sql[at] == first[0];
    assert sql[at..at + 1] == [sql[at]];
    if |first| == 2 {
      assert sql[at + 1] == first[1];
      assert sql[at + 1..at + 2] == [sql[at + 1]];
    }
  }

  lemma ClosingAtQuote(sql: string, at: nat, driver: Driver)
    requires at < |sql| && sql[at] == '\'' && (driver.Postgres? ==> !StartsWith(sql, "'", at + 1))
    ensures Closing(sql, at, "'", driver.BigQuery?) == at + 1
  {
    assert sql[at..at + 1] == "'";
  }

  /** The scanner goes over an escaped text as over nothing. */
  lemma {:induction false} ClosingOverEscaped(sql: string, at: nat, text: string, driver: Driver)
    requires at + |Escaped(text, driver)| <= |sql|
    requires sql[at..at + |Escaped(text, driver)|] == Escaped(text, driver)
    ensures Closing(sql, at, "'", driver.BigQuery?) == Closing(sql, at + |Escaped(text, driver)|, "'", driver.BigQuery?)
    decreases |text|
  {
    hide Closing, Escape, StartsWith;
    if text != "" {
      var inside := Escaped(text, driver);
      var first := Escape(text[0], driver);
      assert inside[..|first|] == first && inside[|first|..] == Escaped(text[1..], driver);
      assert sql[at..at + |inside|][|first|..] == sql[at + |first|..at + |inside|];
      assert sql[at..at + |inside|][..|first|] == sql[at..at + |first|];
      ClosingOverEscaped(sql, at + |first|, text[1..], driver);
      OtherEscapes(text[0], driver);
      ClosingPassesOne(sql, at, text[0], driver);
    }
  }

  /** And ends at the quote that closes it. */
  lemma ClosingPassesEscaped(sql: string, at: nat, text: string, driver: Driver)
    requires at + |Escaped(text, driver)| < |sql|
    requires sql[at..at + |Escaped(text, driver)|] == Escaped(text, driver)
    requires sql[at + |Escaped(text, driver)|] == '\''
    requires driver.Postgres? ==> !StartsWith(sql, "'", at + |Escaped(text, driver)| + 1)
    ensures Closing(sql, at, "'", driver.BigQuery?) == at + |Escaped(text, driver)| + 1
  {
    hide Closing, StartsWith;
    ClosingOverEscaped(sql, at, text, driver);
    ClosingAtQuote(sql, at + |Escaped(text, driver)|, driver);
  }

  lemma OtherEscapes(c: char, driver: Driver)
    ensures |Escape(c, driver)| > 0
    ensures driver.Postgres? && c != '\'' ==> Escape(c, driver)[0] != '\''
  {}

  /**
   * Every text survives: before anything but a quote, its literal ends where it
   * was written to, and stands for the text.
   */
  lemma LiteralReadsBack(text: string, driver: Driver, rest: string)
    requires rest == "" || rest[0] != '\''
    ensures ReadLiteral(Literal(text, driver) + rest, driver) == Some((text, |Literal(text, driver)|))
  {
    LiteralEscapesEachCharacter(text, driver);
    var inside := Escaped(text, driver);
    var sql := "'" + inside + "'" + rest;
    assert Literal(text, driver) + rest == sql;
    assert sql[1..1 + |inside|] == inside;
    if rest != "" {
      assert sql[1 + |inside| + 1] == rest[0];
    }
    ClosingPassesEscaped(sql, 1, text, driver);
    UnescapedUndoesEscaped(text, driver);
  }
}
