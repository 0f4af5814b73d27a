/**
 * What the header lines before a message mean to either reader: the last length
 * among them counts, and other headers nothing.
 */
module Headers {
  import opened Basics
  import opened Chars
  import opened Decimals
  import opened Framing
  import AppFraming
  import HelperFraming

  /** A header line: a length, a length that is no number, or another header. */
  datatype Header =
    | Length(length: nat, ending: Bytes)
    | Malformed(value: Bytes, ending: Bytes)
    | Other(text: Bytes, ending: Bytes)

  function TextOf(h: Header): Bytes {
    match h
    case Length(length, _) => "Content-Length: " + Decimal(length)
    case Malformed(value, _) => "Content-Length:" + value
    case Other(text, _) => text
  }

  predicate IsEnding(ending: Bytes) {
    ending in {"\n", "\r\n"}
  }

  predicate IsLetter(c: char) {
    'A' <= c <= 'Z' || 'a' <= c <= 'z'
  }

  predicate HasLetter(text: Bytes) {
    exists c <- text :: IsLetter(c)
  }

  /** A line of text on its own, which the two readers take alike; a malformed length has a letter in it. */
  predicate IsHeader(h: Header) {
    && IsEnding(h.ending) && IsUtf8(TextOf(h)) && (forall c <- TextOf(h) :: c != '\n' && c != '\r')
    && match h
       case Length(length, _) => length <= LARGEST
       case Malformed(value, _) => HasLetter(value)
       case Other(text, _) => text != "" && !StartsWith(text, "Content-Length:", 0)
  }

  predicate AreHeaders(hs: seq<Header>) {
    forall h <- hs :: IsHeader(h)
  }

  function Lines(hs: seq<Header>): Bytes {
    if hs == [] then "" else TextOf(hs[0]) + hs[0].ending + Lines(hs[1..])
  }

  /** The last of the lengths, or what it was before them. */
  function LastLength(hs: seq<Header>, before: Option<nat>): Option<nat> {
    if hs == [] then before
    else LastLength(hs[1..], if hs[0].Length? then Some(hs[0].length) else before)
  }

  predicate AnyMalformed(hs: seq<Header>) {
    exists h <- hs :: h.Malformed?
  }

  // ---- a line as it is read ----

  lemma {:induction false} Utf8Joins(a: Bytes, b: Bytes)
    requires IsUtf8(a) && IsUtf8(b)
    ensures IsUtf8(a + b)
    decreases |a|
  {
    if a == "" {
      assert a + b == b;
    } else {
      var n := FirstLength(a);
      FirstLengthStays(a, b);
      assert (a + b)[n..] == a[n..] + b;
      Utf8Joins(a[n..], b);
    }
  }

  lemma FirstLengthStays(a: Bytes, b: Bytes)
    requires FirstLength(a) > 0
    ensures FirstLength(a + b) == FirstLength(a)
  {
    assert forall i :: 0 <= i < |a| ==> (a + b)[i] == a[i];
  }

  /** A header's text has no line break in it, and is some. */
  lemma TextIsALine(h: Header)
    requires IsHeader(h)
    ensures TextOf(h) != "" && '\n' !in TextOf(h) && '\r' !in TextOf(h) && IsUtf8(TextOf(h))
  {
    hide IsUtf8, Decimal;
  }

  lemma LineTrimmed(text: Bytes, ending: Bytes)
    requires text != "" && '\n' !in text && '\r' !in text && IsEnding(ending)
    ensures AppFraming.TrimEnd(text + ending) == text
  {
    var before := if ending == "\n" then text else text + "\r";
    var line := before + "\n";
    assert text + ending == line;
    assert line[..|before|] == before;
    assert ending == "\r\n" ==> before[..|text|] == text;
    assert text[|text| - 1] in text;
    assert AppFraming.TrimEnd(text) == text;
    assert AppFraming.TrimEnd(before) == text;
    assert AppFraming.TrimEnd(line) == AppFraming.TrimEnd(before);
  }

  lemma LineOf(h: Header, rest: Bytes)
    requires IsHeader(h)
    ensures var line := TextOf(h) + h.ending; var bytes := line + rest;
      && bytes != "" && LineLength(bytes) == |line| && bytes[..|line|] == line && bytes[|line|..] == rest
      && IsUtf8(line) && AppFraming.TrimEnd(line) == TextOf(h) && TextOf(h) != ""
  {
    hide IsUtf8, TextOf, AppFraming.TrimEnd, LineLength;
    var text := TextOf(h);
    TextIsALine(h);
    LineTrimmed(text, h.ending);
    var before := if h.ending == "\n" then text else text + "\r";
    assert text + h.ending == before + "\n";
    assert text + h.ending + rest == before + ("\n" + rest);
    LineLengthIs(before, rest);
    AsciiIsUtf8(h.ending);
    Utf8Joins(text, h.ending);
  }

  // ---- to the app ----

  lemma LengthValue(length: nat)
    requires length <= LARGEST
    ensures ParseSize(AppFraming.Trim((HEADER + " " + Decimal(length))[|HEADER|..])) == Some(length)
    ensures ParseSize(HelperFraming.StripWhite((HEADER + " " + Decimal(length))[|HEADER|..])) == Some(length)
    ensures StartsWith(HEADER + " " + Decimal(length), HEADER, 0)
  {
    hide ParseSize, AppFraming.Trim;
    var digits := Decimal(length);
    assert IsDigit(digits[|digits| - 1]) && IsDigit(digits[0]);
    assert (HEADER + " " + digits)[|HEADER|..] == " " + digits;
    assert (" " + digits)[1..] == digits;
    AppFraming.BlankTrimmed(digits);
    assert HelperFraming.StripWhite(digits) == digits;
    DecimalParses(length);
    assert (HEADER + " " + digits)[..|HEADER|] == HEADER;
  }

  lemma {:induction false} TrimKeepsALetter(text: Bytes)
    requires HasLetter(text)
    ensures HasLetter(AppFraming.Trim(text))
    decreases |text|
  {
    var c :| c in text && IsLetter(c);
    var i :| 0 <= i < |text| && text[i] == c;
    if AppFraming.WhiteFirst(text) > 0 {
      assert text[AppFraming.WhiteFirst(text)..][i - AppFraming.WhiteFirst(text)] == c;
      TrimKeepsALetter(text[AppFraming.WhiteFirst(text)..]);
    } else if AppFraming.WhiteLast(text) > 0 {
      assert text[..|text| - AppFraming.WhiteLast(text)][i] == c;
      TrimKeepsALetter(text[..|text| - AppFraming.WhiteLast(text)]);
    }
  }

  lemma {:induction false} StripKeepsALetter(text: Bytes)
    requires HasLetter(text)
    ensures HasLetter(HelperFraming.StripWhite(text))
    decreases |text|
  {
    var c :| c in text && IsLetter(c);
    var i :| 0 <= i < |text| && text[i] == c;
    if IsBlank(text[0]) {
      assert text[1..][i - 1] == c;
      StripKeepsALetter(text[1..]);
    } else if IsBlank(text[|text| - 1]) {
      assert text[..|text| - 1][i] == c;
      StripKeepsALetter(text[..|text| - 1]);
    }
  }

  lemma LettersAreNoSize(text: Bytes)
    requires HasLetter(text)
    ensures ParseSize(text) == None
  {
    hide Number;
    var c :| c in text && IsLetter(c);
    var i :| 0 <= i < |text| && text[i] == c;
    var digits := if text[0] == '+' then text[1..] else text;
    assert text[0] == '+' ==> digits[i - 1] == c;
    assert !AllDigits(digits);
  }

  lemma AppReadsALine(h: Header, rest: Bytes, length: Option<nat>, started: bool)
    requires IsHeader(h)
    ensures AppFraming.ReadHeaders(TextOf(h) + h.ending + rest, length, started)
            == match h
               case Length(n, _) => AppFraming.ReadHeaders(rest, Some(n), true)
               case Malformed(_, _) => (AppFraming.Failed, "")
               case Other(_, _) => AppFraming.ReadHeaders(rest, length, true)
  {
    hide IsUtf8, AppFraming.TrimEnd, AppFraming.Trim, ParseSize, LineLength;
    LineOf(h, rest);
    match h
    case Length(n, _) =>
      assert TextOf(h) == HEADER + " " + Decimal(n);
      LengthValue(n);
    case Malformed(value, _) =>
      assert TextOf(h)[..|HEADER|] == HEADER && TextOf(h)[|HEADER|..] == value;
      TrimKeepsALetter(value);
      LettersAreNoSize(AppFraming.Trim(value));
    case Other(_, _) =>
  }

  lemma AppReadsTheBlank(ending: Bytes, rest: Bytes, length: Option<nat>, started: bool)
    requires IsEnding(ending)
    ensures AppFraming.ReadHeaders(ending + rest, length, started) == AppFraming.ReadBody(length, rest)
  {
    hide AppFraming.ReadBody;
    var before := if ending == "\n" then "" else "\r";
    var bytes := ending + rest;
    assert ending == before + "\n";
    assert bytes == before + ("\n" + rest);
    LineLengthIs(before, rest);
    assert bytes[..|ending|] == ending && bytes[|ending|..] == rest;
    AsciiIsUtf8(ending);
    assert ending[..|before|] == before && before[..0] == "";
    assert AppFraming.TrimEnd(before) == "";
  }

  lemma {:induction false} AppReadsLines(hs: seq<Header>, ending: Bytes, rest: Bytes, length: Option<nat>, started: bool)
    requires AreHeaders(hs) && IsEnding(ending)
    ensures AppFraming.ReadHeaders(Lines(hs) + ending + rest, length, started)
            == if AnyMalformed(hs) then (AppFraming.Failed, "") else AppFraming.ReadBody(LastLength(hs, length), rest)
  {
    hide AppFraming.ReadHeaders, AppFraming.ReadBody, IsHeader, TextOf;
    if hs == [] {
      assert Lines(hs) + ending + rest == ending + rest;
      AppReadsTheBlank(ending, rest, length, started);
    } else {
      var h, more := hs[0], hs[1..];
      assert hs == [h] + more;
      assert Lines(hs) + ending + rest == TextOf(h) + h.ending + (Lines(more) + ending + rest);
      AppReadsALine(h, Lines(more) + ending + rest, length, started);
      AppReadsLines(more, ending, rest, if h.Length? then Some(h.length) else length, true);
    }
  }

  /**
   * Whatever headers come before a message, the app reads just as many bytes as
   * the last length says, wherever it is among the others; with no length, with
   * one that is no number, too large or more than there is, and where those
   * bytes are no text, it is an error.
   */
  lemma TheAppTakesTheLastLength(hs: seq<Header>, ending: Bytes, rest: Bytes)
    requires AreHeaders(hs) && IsEnding(ending)
    ensures var length := LastLength(hs, None);
      AppFraming.ReadHeaders(Lines(hs) + ending + rest, None, false) ==
      if AnyMalformed(hs) || length.None? || length.value > 16 * 1024 * 1024 || length.value > |rest|
         || !IsUtf8(rest[..length.value])
      then (AppFraming.Failed, "")
      else (AppFraming.Message(rest[..length.value]), rest[length.value..])
  {
    hide AppFraming.ReadHeaders, IsUtf8;
    AppReadsLines(hs, ending, rest, None, false);
  }

  // ---- to the helper ----

  lemma HelperReadsALine(h: Header, rest: Bytes, length: Option<nat>)
    requires IsHeader(h)
    ensures HelperFraming.ReadHeaders(TextOf(h) + h.ending + rest, true, length)
            == HelperFraming.ReadHeaders(rest, true, if h.Length? then Some(h.length) else length)
  {
    hide IsUtf8, ParseSize, TextOf, HelperFraming.GotLine, HelperFraming.Claimed;
    var text := TextOf(h);
    TextIsALine(h);
    var line := if h.ending == "\n" then text else text + "\r";
    assert text + h.ending + rest == line + ("\n" + rest);
    HelperFraming.GotWholeLine(line, rest);
    assert text[|text| - 1] in text;
    assert h.ending == "\r\n" ==> line[..|text|] == text;
    assert HelperFraming.WithoutReturn(line) == text;
    HelperClaims(h, length);
  }

  lemma HelperClaims(h: Header, length: Option<nat>)
    requires IsHeader(h)
    ensures HelperFraming.Claimed(TextOf(h), length) == if h.Length? then Some(h.length) else length
  {
    hide IsUtf8, HelperFraming.StripWhite, ParseSize, Decimal;
    match h
    case Length(n, _) =>
      assert TextOf(h) == HEADER + " " + Decimal(n);
      LengthValue(n);
    case Malformed(value, _) =>
      assert TextOf(h)[..|HEADER|] == HEADER && TextOf(h)[|HEADER|..] == value;
      StripKeepsALetter(value);
      LettersAreNoSize(HelperFraming.StripWhite(value));
    case Other(_, _) =>
  }

  lemma HelperReadsTheBlank(ending: Bytes, rest: Bytes, length: Option<nat>)
    requires IsEnding(ending)
    ensures HelperFraming.ReadHeaders(ending + rest, true, length) == HelperFraming.ReadBody(length, rest, true)
  {
    hide HelperFraming.ReadBody, HelperFraming.GotLine;
    var before := if ending == "\n" then "" else "\r";
    assert ending + rest == before + ("\n" + rest);
    HelperFraming.GotWholeLine(before, rest);
    assert "\r"[..0] == "";
  }

  lemma {:induction false} HelperReadsLines(hs: seq<Header>, ending: Bytes, rest: Bytes, length: Option<nat>)
    requires AreHeaders(hs) && IsEnding(ending)
    ensures HelperFraming.ReadHeaders(Lines(hs) + ending + rest, true, length)
            == HelperFraming.ReadBody(LastLength(hs, length), rest, true)
  {
    hide HelperFraming.ReadHeaders, HelperFraming.ReadBody, IsHeader, TextOf;
    if hs == [] {
      assert Lines(hs) + ending + rest == ending + rest;
      HelperReadsTheBlank(ending, rest, length);
    } else {
      var h, more := hs[0], hs[1..];
      assert hs == [h] + more;
      assert Lines(hs) + ending + rest == TextOf(h) + h.ending + (Lines(more) + ending + rest);
      HelperReadsALine(h, Lines(more) + ending + rest, length);
      HelperReadsLines(more, ending, rest, if h.Length? then Some(h.length) else length);
    }
  }

  /** The helper reads by the last length that is a number, one that is none changing nothing. */
  lemma TheHelperTakesTheLastLength(hs: seq<Header>, ending: Bytes, rest: Bytes)
    requires AreHeaders(hs) && IsEnding(ending)
    ensures var length := LastLength(hs, None);
      HelperFraming.ReadHeaders(Lines(hs) + ending + rest, true, None) ==
      if length.None? || length.value > 16 * 1024 * 1024 || length.value > |rest|
      then HelperFraming.Request(None, "")
      else HelperFraming.Request(Some(rest[..length.value]), rest[length.value..])
  {
    hide HelperFraming.ReadHeaders;
    HelperReadsLines(hs, ending, rest, None);
  }

  /** What either side writes is one header line, a length, a blank line and the message. */
  lemma AFrameIsALength(message: Bytes)
    ensures Frame(message) == Lines([Length(|message|, "\r\n")]) + "\r\n" + message
  {
    var h := Length(|message|, "\r\n");
    assert [h][1..] == [];
    assert Lines([h]) == TextOf(h) + "\r\n" + "" == Head(|message|) by {
      assert TextOf(h) == HEADER + " " + Decimal(|message|);
    }
  }
}
