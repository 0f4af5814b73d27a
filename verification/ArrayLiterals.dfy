/**
 * An array written into an `INSERT` (`quoted` and `arrayLiteral` of
 * `src/features/query/export.ts`), and read as PostgreSQL reads it: a string
 * constant, and in it an array by section 8.15.6 of its manual.
 */
module ArrayLiterals {
  import opened Basics
  import opened Chars

  /** An element: NULL, a text (of a JSON array, the element's JSON), or an array of its own. */
  datatype Item = Null | Text(text: string) | Nested(items: seq<Item>)

  function Quoted(text: string): string {
    "'" + (ReplaceAll(text, '\'', "''") + "'")
  }

  /** Backslashes before the quotes and backslashes of a text. */
  function Escaped(text: string): string {
    if text == "" then ""
    else (if text[0] == '"' || text[0] == '\\' then ['\\', text[0]] else [text[0]]) + Escaped(text[1..])
  }

  function Element(item: Item): (text: string)
    ensures text != ""
    decreases item
  {
    match item
    case Null => "NULL"
    case Nested(items) => "{" + (Elements(items) + "}")
    case Text(text) => "\"" + (Escaped(text) + "\"")
  }

  function Elements(items: seq<Item>): string
    decreases items
  {
    if items == [] then ""
    else if |items| == 1 then Element(items[0])
    else Element(items[0]) + ("," + Elements(items[1..]))
  }

  function ArrayLiteral(items: seq<Item>): string {
    "{" + (Elements(items) + "}")
  }

  // ---- reading a string constant ----

  /** The text of a constant past its opening quote, and what follows it. */
  function ReadString(s: string): Option<(string, string)> {
    if s == "" then None
    else if s[0] == '\'' && |s| > 1 && s[1] == '\'' then
      var more := ReadString(s[2..]);
      if more.None? then None else Some(("'" + more.value.0, more.value.1))
    else if s[0] == '\'' then Some(("", s[1..]))
    else
      var more := ReadString(s[1..]);
      if more.None? then None else Some(([s[0]] + more.value.0, more.value.1))
  }

  function ReadConstant(s: string): Option<(string, string)> {
    if s == "" || s[0] != '\'' then None else ReadString(s[1..])
  }

  lemma {:induction false} StringReads(text: string, rest: string)
    requires rest == "" || rest[0] != '\''
    ensures ReadString(ReplaceAll(text, '\'', "''") + ("'" + rest)) == Some((text, rest))
  {
    var s := ReplaceAll(text, '\'', "''") + ("'" + rest);
    if text == "" {
      assert s == "'" + rest;
      assert s[1..] == rest;
    } else {
      var more := ReplaceAll(text[1..], '\'', "''") + ("'" + rest);
      StringReads(text[1..], rest);
      if text[0] == '\'' {
        assert s == "''" + more;
        assert s[2..] == more;
        assert text == "'" + text[1..];
      } else {
        assert s == [text[0]] + more;
        assert s[1..] == more;
        assert text == [text[0]] + text[1..];
      }
    }
  }

  // ---- reading an array ----

  /** A quoted element past its opening quote: a backslash takes the next character as it is. */
  function ReadEscaped(s: string): (read: Option<(string, string)>)
    ensures read.Some? ==> |read.value.1| < |s|
  {
    if s == "" then None
    else if s[0] == '"' then Some(("", s[1..]))
    else if s[0] == '\\' then
      if |s| == 1 then None
      else
        var more := ReadEscaped(s[2..]);
        if more.None? then None else Some(([s[1]] + more.value.0, more.value.1))
    else
      var more := ReadEscaped(s[1..]);
      if more.None? then None else Some(([s[0]] + more.value.0, more.value.1))
  }

  function BareLength(s: string): (length: nat)
    ensures length <= |s|
  {
    if s == "" || s[0] == ',' || s[0] == '}' then 0 else 1 + BareLength(s[1..])
  }

  predicate SpellsNull(text: string) {
    && |text| == 4 && text[0] in {'N', 'n'} && text[1] in {'U', 'u'}
    && text[2] in {'L', 'l'} && text[3] in {'L', 'l'}
  }

  /** A bare element of the letters NULL, in either case, is one; quoted, they are a text. */
  function Bare(text: string): Item {
    if SpellsNull(text) then Null else Text(text)
  }

  function ReadItem(s: string): (read: Option<(Item, string)>)
    ensures read.Some? ==> |read.value.1| < |s|
    decreases |s|, 2
  {
    if s == "" then None
    else if s[0] == '"' then
      var text := ReadEscaped(s[1..]);
      if text.None? then None else Some((Text(text.value.0), text.value.1))
    else if s[0] == '{' then
      var items := ReadArray(s);
      if items.None? then None else Some((Nested(items.value.0), items.value.1))
    else
      var n := BareLength(s);
      if n == 0 then None else Some((Bare(s[..n]), s[n..]))
  }

  function ReadArray(s: string): (read: Option<(seq<Item>, string)>)
    ensures read.Some? ==> |read.value.1| < |s|
    decreases |s|, 1
  {
    if s == "" || s[0] != '{' then None
    else if |s| > 1 && s[1] == '}' then Some(([], s[2..]))
    else ReadItems(s[1..])
  }

  /** Elements up to the brace that closes them. */
  function ReadItems(s: string): (read: Option<(seq<Item>, string)>)
    ensures read.Some? ==> |read.value.1| < |s|
    decreases |s|, 3
  {
    var item := ReadItem(s);
    if item.None? || item.value.1 == "" then None
    else
      var rest := item.value.1;
      if rest[0] == '}' then Some(([item.value.0], rest[1..]))
      else if rest[0] != ',' then None
      else
        var more := ReadItems(rest[1..]);
        if more.None? then None else Some(([item.value.0] + more.value.0, more.value.1))
  }

  // ---- what is written is read back ----

  lemma {:induction false} EscapedReads(text: string, rest: string)
    ensures ReadEscaped(Escaped(text) + ("\"" + rest)) == Some((text, rest))
  {
    var s := Escaped(text) + ("\"" + rest);
    if text == "" {
      assert s == "\"" + rest;
      assert s[1..] == rest;
    } else {
      var more := Escaped(text[1..]) + ("\"" + rest);
      EscapedReads(text[1..], rest);
      assert text == [text[0]] + text[1..];
      if text[0] == '"' || text[0] == '\\' {
        assert s == ['\\', text[0]] + more;
        assert s[2..] == more;
      } else {
        assert s == [text[0]] + more;
        assert s[1..] == more;
      }
    }
  }

  predicate EndsItem(rest: string) {
    rest != "" && (rest[0] == ',' || rest[0] == '}')
  }

  lemma NullReads(rest: string)
    requires EndsItem(rest)
    ensures ReadItem("NULL" + rest) == Some((Null, rest))
  {
    var s := "NULL" + rest;
    assert s[1..] == "ULL" + rest && ("ULL" + rest)[1..] == "LL" + rest;
    assert ("LL" + rest)[1..] == "L" + rest && ("L" + rest)[1..] == rest;
    assert BareLength("L" + rest) == 1 && BareLength("LL" + rest) == 2 && BareLength("ULL" + rest) == 3;
    assert s[..4] == "NULL" && s[4..] == rest;
  }

  lemma {:induction false} ItemReads(item: Item, rest: string)
    requires EndsItem(rest)
    ensures ReadItem(Element(item) + rest) == Some((item, rest))
    decreases item, 1
  {
    var s := Element(item) + rest;
    match item
    case Null =>
      NullReads(rest);
    case Text(text) =>
      assert s[1..] == Escaped(text) + ("\"" + rest);
      EscapedReads(text, rest);
    case Nested(items) =>
      assert s == ArrayLiteral(items) + rest;
      ArrayReads(items, rest);
  }

  lemma {:induction false} ArrayReads(items: seq<Item>, rest: string)
    ensures ReadArray(ArrayLiteral(items) + rest) == Some((items, rest))
    decreases items, 1
  {
    var s := ArrayLiteral(items) + rest;
    if items == [] {
      assert s[1] == '}' && s[2..] == rest;
    } else {
      assert s[1..] == Elements(items) + ("}" + rest);
      ItemsRead(items, rest);
      ElementStart(items);
      assert s[1] == Elements(items)[0];
    }
  }

  lemma ElementStart(items: seq<Item>)
    requires items != []
    ensures Elements(items) != "" && Elements(items)[0] != '}'
  {
    assert Element(items[0])[0] != '}';
  }

  lemma {:induction false} ItemsRead(items: seq<Item>, rest: string)
    requires items != []
    ensures ReadItems(Elements(items) + ("}" + rest)) == Some((items, rest))
    decreases items, 0
  {
    if |items| == 1 {
      ItemReads(items[0], "}" + rest);
      assert ("}" + rest)[1..] == rest;
      assert items == [items[0]];
    } else {
      var more := Elements(items[1..]) + ("}" + rest);
      assert Elements(items) + ("}" + rest) == Element(items[0]) + ("," + more);
      ItemReads(items[0], "," + more);
      assert ("," + more)[1..] == more;
      ItemsRead(items[1..], rest);
      assert items == [items[0]] + items[1..];
    }
  }

  /** An array, however nested, is read back as it was; the text `NULL` stays a text. */
  lemma ArrayReadsBack(items: seq<Item>)
    ensures ReadConstant(Quoted(ArrayLiteral(items))) == Some((ArrayLiteral(items), ""))
    ensures ReadArray(ArrayLiteral(items)) == Some((items, ""))
  {
    var text := ArrayLiteral(items);
    StringReads(text, "");
    assert Quoted(text)[1..] == ReplaceAll(text, '\'', "''") + ("'" + "");
    ArrayReads(items, "");
    assert text + "" == text;
  }
}
