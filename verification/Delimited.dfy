/**
 * Rows written as CSV and as TSV, and read back (`toTsv`, `toCsv` and
 * `delimited` of `src/features/query/export.ts`).
 */
module Delimited {
  import opened Basics
  import opened Chars

  /** A cell by the text the grid shows of it. */
  datatype Cell = Null | Shown(text: string)

  type Line = seq<Cell>

  predicate IsSeparator(c: char) {
    c == '\t' || c == ','
  }

  predicate Holds(text: string, c: char) {
    c in text
  }

  predicate NeedsQuotes(text: string, separator: char) {
    || (if separator == '\t' then StartsWith(text, "\"", 0) else Holds(text, '"'))
    || Holds(text, separator) || Holds(text, '\r') || Holds(text, '\n')
  }

  function Field(cell: Cell, separator: char): string {
    if cell.Null? then ""
    else if NeedsQuotes(cell.text, separator) then "\"" + (ReplaceAll(cell.text, '"', "\"\"") + "\"")
    else cell.text
  }

  function Joined(line: Line, separator: char): string {
    if line == [] then ""
    else if |line| == 1 then Field(line[0], separator)
    else Field(line[0], separator) + ([separator] + Joined(line[1..], separator))
  }

  function Lines(lines: seq<Line>, separator: char): string {
    if lines == [] then ""
    else if |lines| == 1 then Joined(lines[0], separator)
    else Joined(lines[0], separator) + ("\n" + Lines(lines[1..], separator))
  }

  function Header(columns: seq<string>): Line {
    seq(|columns|, i requires 0 <= i < |columns| => Shown(columns[i]))
  }

  function ToCsv(columns: seq<string>, rows: seq<Line>): string {
    Lines([Header(columns)] + rows, ',')
  }

  function ToTsv(columns: seq<string>, rows: seq<Line>, headers: bool): string {
    Lines(if headers then [Header(columns)] + rows else rows, '\t')
  }

  // ---- a reader: section 2 of RFC 4180, a line feed for its line break ----

  /** The rest of a quoted field, past its opening quote, and what follows it. */
  function ReadQuoted(s: string): Option<(string, string)> {
    if s == "" then None
    else if s[0] == '"' && |s| > 1 && s[1] == '"' then
      var more := ReadQuoted(s[2..]);
      if more.None? then None else Some(("\"" + more.value.0, more.value.1))
    else if s[0] == '"' then Some(("", s[1..]))
    else
      var more := ReadQuoted(s[1..]);
      if more.None? then None else Some(([s[0]] + more.value.0, more.value.1))
  }

  function PlainLength(s: string, separator: char): (length: nat)
    ensures length <= |s|
  {
    if s == "" || s[0] == separator || s[0] == '\n' then 0 else 1 + PlainLength(s[1..], separator)
  }

  predicate EndsField(rest: string, separator: char) {
    rest == "" || rest[0] == separator || rest[0] == '\n'
  }

  /**
   * A field and what follows it. Where the reader is strict, a field without
   * quotes holds none and no carriage return; otherwise a field is quoted only
   * when it starts with one.
   */
  function ReadField(s: string, separator: char, strict: bool): (field: Option<(string, string)>)
    ensures field.Some? ==> |field.value.1| <= |s| && EndsField(field.value.1, separator)
  {
    if s != "" && s[0] == '"' then
      QuotedIsShorter(s[1..]);
      var quoted := ReadQuoted(s[1..]);
      if quoted.Some? && EndsField(quoted.value.1, separator) then quoted else None
    else
      var n := PlainLength(s, separator);
      PlainEnds(s, separator);
      if strict && (Holds(s[..n], '"') || Holds(s[..n], '\r')) then None else Some((s[..n], s[n..]))
  }

  lemma QuotedIsShorter(s: string)
    ensures ReadQuoted(s).Some? ==> |ReadQuoted(s).value.1| <= |s|
  {}

  lemma PlainEnds(s: string, separator: char)
    ensures EndsField(s[PlainLength(s, separator)..], separator)
  {}

  /** A record, and what follows it: nothing, or a line feed and the next. */
  function ReadRecord(s: string, separator: char, strict: bool): (record: Option<(seq<string>, string)>)
    requires separator != '\n'
    ensures record.Some? ==> record.value.0 != [] && |record.value.1| <= |s|
    ensures record.Some? ==> record.value.1 == "" || record.value.1[0] == '\n'
    decreases |s|
  {
    var field := ReadField(s, separator, strict);
    if field.None? then None
    else
      var (text, rest) := field.value;
      if rest == "" || rest[0] == '\n' then Some(([text], rest))
      else
        var more := ReadRecord(rest[1..], separator, strict);
        if more.None? then None else Some(([text] + more.value.0, more.value.1))
  }

  /** The records. Where it may be there or not, a line break at the end starts no record. */
  function ReadRecords(s: string, separator: char, strict: bool, mayEnd: bool): (records: Option<seq<seq<string>>>)
    requires separator != '\n'
    ensures records.Some? ==> records.value != [] && forall r <- records.value :: r != []
    decreases |s|
  {
    var record := ReadRecord(s, separator, strict);
    if record.None? then None
    else
      var (fields, rest) := record.value;
      if rest == "" || (mayEnd && rest == "\n") then Some([fields])
      else
        var more := ReadRecords(rest[1..], separator, strict, mayEnd);
        if more.None? then None else Some([fields] + more.value)
  }

  // ---- what is written is read back ----

  /** NULL is read as the empty text. */
  function TextOf(cell: Cell): string {
    if cell.Null? then "" else cell.text
  }

  function Texts(line: Line): (texts: seq<string>)
    ensures |texts| == |line|
  {
    seq(|line|, i requires 0 <= i < |line| => TextOf(line[i]))
  }

  function AllTexts(lines: seq<Line>): (texts: seq<seq<string>>)
    ensures |texts| == |lines|
  {
    seq(|lines|, i requires 0 <= i < |lines| => Texts(lines[i]))
  }

  lemma QuotedTurn(c: char, more: string)
    requires ReadQuoted(more).Some?
    ensures ReadQuoted((if c == '"' then "\"\"" else [c]) + more)
            == Some(([c] + ReadQuoted(more).value.0, ReadQuoted(more).value.1))
  {
    if c == '"' {
      assert ("\"\"" + more)[2..] == more;
    } else {
      assert ([c] + more)[1..] == more;
    }
  }

  lemma QuoteCloses(rest: string)
    requires rest == "" || rest[0] != '"'
    ensures ReadQuoted("\"" + rest) == Some(("", rest))
  {
    assert ("\"" + rest)[1..] == rest;
  }

  lemma {:induction false} QuotedReads(text: string, rest: string)
    requires rest == "" || rest[0] != '"'
    ensures ReadQuoted(ReplaceAll(text, '"', "\"\"") + ("\"" + rest)) == Some((text, rest))
  {
    hide ReadQuoted;
    if text == "" {
      QuoteCloses(rest);
      assert "" + ("\"" + rest) == "\"" + rest;
    } else {
      var first := if text[0] == '"' then "\"\"" else [text[0]];
      QuotedReads(text[1..], rest);
      QuotedTurn(text[0], ReplaceAll(text[1..], '"', "\"\"") + ("\"" + rest));
      Associates(first, ReplaceAll(text[1..], '"', "\"\""), "\"" + rest);
      assert text == [text[0]] + text[1..];
    }
  }

  lemma {:induction false} PlainReads(text: string, rest: string, separator: char)
    requires !Holds(text, separator) && !Holds(text, '\n') && EndsField(rest, separator)
    ensures PlainLength(text + rest, separator) == |text|
  {
    if text == "" {
      assert text + rest == rest;
    } else {
      assert (text + rest)[1..] == text[1..] + rest;
      assert forall c <- text[1..] :: c in text;
      PlainReads(text[1..], rest, separator);
    }
  }

  lemma FieldReads(cell: Cell, rest: string, separator: char)
    requires IsSeparator(separator) && EndsField(rest, separator)
    ensures ReadField(Field(cell, separator) + rest, separator, separator == ',') == Some((TextOf(cell), rest))
  {
    hide ReadQuoted, PlainLength;
    var field := Field(cell, separator);
    var text := TextOf(cell);
    assert text != "" ==> text[..1] == [text[0]];
    if cell.Shown? && NeedsQuotes(text, separator) {
      QuotedReads(text, rest);
      assert (field + rest)[1..] == ReplaceAll(text, '"', "\"\"") + ("\"" + rest);
    } else {
      PlainReads(text, rest, separator);
      assert (field + rest)[..|text|] == text && (field + rest)[|text|..] == rest;
    }
  }

  lemma {:induction false} RecordReads(line: Line, rest: string, separator: char)
    requires IsSeparator(separator) && line != [] && (rest == "" || rest[0] == '\n')
    ensures ReadRecord(Joined(line, separator) + rest, separator, separator == ',') == Some((Texts(line), rest))
  {
    hide ReadField, Field;
    if |line| == 1 {
      FieldReads(line[0], rest, separator);
      assert Texts(line) == [TextOf(line[0])];
    } else {
      var more := Joined(line[1..], separator) + rest;
      assert Joined(line, separator) + rest == Field(line[0], separator) + ([separator] + more);
      FieldReads(line[0], [separator] + more, separator);
      assert ([separator] + more)[1..] == more;
      RecordReads(line[1..], rest, separator);
      assert Texts(line) == [TextOf(line[0])] + Texts(line[1..]);
    }
  }

  ghost predicate HasCells(lines: seq<Line>) {
    lines != [] && forall line <- lines :: line != []
  }

  /** The last of several lines is one empty field: nothing is written of it but the line break before it. */
  predicate EndsBlank(lines: seq<Line>) {
    |lines| > 1 && |lines[|lines| - 1]| == 1 && TextOf(lines[|lines| - 1][0]) == ""
  }

  lemma NothingWritten(lines: seq<Line>, separator: char)
    requires HasCells(lines) && IsSeparator(separator)
    ensures Lines(lines, separator) == "" <==> |lines| == 1 && |lines[0]| == 1 && TextOf(lines[0][0]) == ""
  {
    hide NeedsQuotes;
    assert lines[0] in lines;
    assert |lines[0]| == 1 ==> (Field(lines[0][0], separator) == "" <==> TextOf(lines[0][0]) == "") by {
      EmptyField(lines[0][0], separator);
    }
  }

  lemma EmptyField(cell: Cell, separator: char)
    ensures Field(cell, separator) == "" <==> TextOf(cell) == ""
  {}

  /** The reader's way through several lines, the first at a time. */
  lemma FirstRecordReads(lines: seq<Line>, separator: char, mayEnd: bool)
    requires IsSeparator(separator) && HasCells(lines) && |lines| > 1
    ensures HasCells(lines[1..])
    ensures var more := Lines(lines[1..], separator);
      ReadRecords(Lines(lines, separator), separator, separator == ',', mayEnd)
      == if mayEnd && more == "" then Some([Texts(lines[0])])
         else
           var records := ReadRecords(more, separator, separator == ',', mayEnd);
           if records.None? then None else Some([Texts(lines[0])] + records.value)
  {
    hide ReadRecord, Joined;
    assert lines[0] in lines && forall line <- lines[1..] :: line in lines;
    var more := Lines(lines[1..], separator);
    RecordReads(lines[0], "\n" + more, separator);
    assert ("\n" + more)[1..] == more;
  }

  lemma LastRecordReads(line: Line, separator: char, mayEnd: bool)
    requires IsSeparator(separator) && line != []
    ensures ReadRecords(Lines([line], separator), separator, separator == ',', mayEnd) == Some([Texts(line)])
  {
    hide ReadRecord, Joined;
    RecordReads(line, "", separator);
    assert Joined(line, separator) + "" == Joined(line, separator);
  }

  lemma {:induction false} RecordsRead(lines: seq<Line>, separator: char, mayEnd: bool)
    requires IsSeparator(separator) && HasCells(lines) && !(mayEnd && EndsBlank(lines))
    ensures ReadRecords(Lines(lines, separator), separator, separator == ',', mayEnd) == Some(AllTexts(lines))
  {
    hide ReadRecords, Lines;
    if |lines| == 1 {
      assert lines[0] in lines && lines == [lines[0]];
      assert AllTexts(lines) == [Texts(lines[0])];
      LastRecordReads(lines[0], separator, mayEnd);
    } else {
      FirstRecordReads(lines, separator, mayEnd);
      NothingWritten(lines[1..], separator);
      RecordsRead(lines[1..], separator, mayEnd);
      assert AllTexts(lines) == [Texts(lines[0])] + AllTexts(lines[1..]);
    }
  }

  /** A blank last line is taken for the line break that may end a file. */
  lemma {:induction false} BlankEndIsLost(lines: seq<Line>, separator: char)
    requires IsSeparator(separator) && HasCells(lines) && EndsBlank(lines)
    ensures ReadRecords(Lines(lines, separator), separator, separator == ',', true)
            == Some(AllTexts(lines[..|lines| - 1]))
  {
    hide ReadRecords, Lines;
    var kept := lines[..|lines| - 1];
    FirstRecordReads(lines, separator, true);
    NothingWritten(lines[1..], separator);
    if |lines| == 2 {
      assert AllTexts(kept) == [Texts(lines[0])];
    } else {
      BlankEndIsLost(lines[1..], separator);
      assert kept[1..] == lines[1..][..|lines| - 2];
      assert AllTexts(kept) == [Texts(lines[0])] + AllTexts(kept[1..]);
    }
  }

  /** No reader gives back a line without cells, or no lines. */
  lemma ReadLinesHaveCells(lines: seq<Line>, records: seq<seq<string>>)
    requires records != [] && (forall r <- records :: r != []) && records == AllTexts(lines)
    ensures HasCells(lines)
  {
    forall i | 0 <= i < |lines|
      ensures lines[i] != []
    {
      assert AllTexts(lines)[i] in records;
    }
  }

  ghost predicate IsBlock(columns: seq<string>, rows: seq<Line>) {
    forall row <- rows :: |row| == |columns|
  }

  lemma HeadedTexts(columns: seq<string>, rows: seq<Line>)
    ensures AllTexts([Header(columns)] + rows) == [columns] + AllTexts(rows)
  {
    assert Texts(Header(columns)) == columns;
  }

  lemma BlockHasCells(columns: seq<string>, rows: seq<Line>)
    requires IsBlock(columns, rows)
    ensures HasCells([Header(columns)] + rows) <==> columns != []
    ensures HasCells(rows) <==> rows != [] && columns != []
  {
    var lines := [Header(columns)] + rows;
    assert lines[0] in lines && lines[0] == Header(columns);
    if rows != [] {
      assert rows[0] in rows;
    }
  }

  /** What is read is what was written, exactly when it has cells and no blank end the reader takes for none. */
  lemma LinesReadBack(lines: seq<Line>, separator: char, mayEnd: bool)
    requires IsSeparator(separator)
    ensures ReadRecords(Lines(lines, separator), separator, separator == ',', mayEnd) == Some(AllTexts(lines))
            <==> HasCells(lines) && !(mayEnd && EndsBlank(lines))
  {
    hide ReadRecords, Lines, HasCells;
    var records := ReadRecords(Lines(lines, separator), separator, separator == ',', mayEnd);
    if records == Some(AllTexts(lines)) {
      ReadLinesHaveCells(lines, records.value);
      if mayEnd && EndsBlank(lines) {
        BlankEndIsLost(lines, separator);
      }
    } else if HasCells(lines) && !(mayEnd && EndsBlank(lines)) {
      RecordsRead(lines, separator, mayEnd);
    }
  }

  /** One column, and nothing to be shown in its last row. */
  ghost predicate LastIsBlank(columns: seq<string>, rows: seq<Line>)
    requires IsBlock(columns, rows)
  {
    |columns| == 1 && rows != [] && assert rows[|rows| - 1] in rows; TextOf(rows[|rows| - 1][0]) == ""
  }

  /**
   * A reader of RFC 4180, to whom a last line break is nothing, reads the
   * header and every row back exactly when there is a column, and not just one
   * with an empty last row.
   */
  lemma CsvReadsBack(columns: seq<string>, rows: seq<Line>)
    requires IsBlock(columns, rows)
    ensures ReadRecords(ToCsv(columns, rows), ',', true, true) == Some([columns] + AllTexts(rows))
            <==> columns != [] && !LastIsBlank(columns, rows)
  {
    hide ReadRecords, Lines;
    HeadedTexts(columns, rows);
    BlockHasCells(columns, rows);
    LinesReadBack([Header(columns)] + rows, ',', true);
  }

  /** Such a block's last row, a NULL or an empty text, is lost, and no other. */
  lemma CsvLosesABlankLastRow(columns: seq<string>, rows: seq<Line>)
    requires IsBlock(columns, rows) && LastIsBlank(columns, rows)
    ensures ReadRecords(ToCsv(columns, rows), ',', true, true) == Some([columns] + AllTexts(rows[..|rows| - 1]))
  {
    hide ReadRecords, Lines;
    var lines := [Header(columns)] + rows;
    BlockHasCells(columns, rows);
    HeadedTexts(columns, rows[..|rows| - 1]);
    BlankEndIsLost(lines, ',');
    assert lines[..|lines| - 1] == [Header(columns)] + rows[..|rows| - 1];
  }

  /** One column and one NULL are written as the header and a line break, and read as the header alone. */
  lemma ANullAloneIsLost()
    ensures ToCsv(["a"], [[Null]]) == "a\n"
    ensures ReadRecords("a\n", ',', true, true) == Some([["a"]])
  {
    assert Header(["a"]) == [Shown("a")];
    var lines := [[Shown("a")], [Null]];
    assert [Header(["a"])] + [[Null]] == lines && lines[1..] == [[Null]];
    CsvLosesABlankLastRow(["a"], [[Null]]);
    assert [["a"]] + AllTexts([]) == [["a"]];
  }

  /**
   * A block is read back from TSV, by a reader for which a quote further into
   * a field is itself, exactly when it has a column and something is written;
   * and when a last line break is nothing to the reader, its last line of
   * several is not an empty field alone.
   */
  lemma TsvReadsBack(columns: seq<string>, rows: seq<Line>, headers: bool, mayEnd: bool)
    requires IsBlock(columns, rows)
    ensures ReadRecords(ToTsv(columns, rows, headers), '\t', false, mayEnd)
            == Some(if headers then [columns] + AllTexts(rows) else AllTexts(rows))
            <==> && columns != [] && (headers || rows != [])
                 && !(mayEnd && LastIsBlank(columns, rows) && (headers || |rows| > 1))
  {
    hide ReadRecords, Lines;
    HeadedTexts(columns, rows);
    BlockHasCells(columns, rows);
    LinesReadBack(if headers then [Header(columns)] + rows else rows, '\t', mayEnd);
  }

  /** A field is quoted only where it has to be: in TSV not for a quote it does not start with. */
  lemma OnlyWhatNeedsThemHasQuotes(text: string)
    ensures (forall c <- text :: c !in {',', '"', '\r', '\n'}) <==> Field(Shown(text), ',') == text
    ensures ((forall c <- text :: c !in {'\t', '\r', '\n'}) && (text == "" || text[0] != '"'))
            <==> Field(Shown(text), '\t') == text
  {
    QuotedIsLonger(text);
    assert text != "" ==> text[..1] == [text[0]];
  }

  lemma QuotedIsLonger(text: string)
    ensures "\"" + (ReplaceAll(text, '"', "\"\"") + "\"") != text
  {
    ReplacedIsNoShorter(text);
  }

  lemma {:induction false} ReplacedIsNoShorter(text: string)
    ensures |ReplaceAll(text, '"', "\"\"")| >= |text|
  {
    if text != "" {
      ReplacedIsNoShorter(text[1..]);
    }
  }
}
