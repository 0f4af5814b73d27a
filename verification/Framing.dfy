/**
 * How a message is put on a stream by the base protocol of the Language Server
 * Protocol 3.17: its length, a blank line, itself. Bytes are characters below 256, and a text is its UTF-8.
 */
module Framing {
  import opened Basics
  import opened Chars
  import opened Decimals

  type Bytes = string

  /** A header claiming more is refused. */
  const MOST: nat := 16 * 1024 * 1024

  const LARGEST: nat := 0xFFFF_FFFF_FFFF_FFFF

  const HEADER := "Content-Length:"

  /** A message as both sides write it. */
  function Frame(message: Bytes): Bytes {
    Head(|message|) + ("\r\n" + message)
  }

  function Head(length: nat): Bytes {
    HEADER + " " + Decimal(length) + "\r\n"
  }

  function Frames(messages: seq<Bytes>): Bytes {
    if messages == [] then "" else Frame(messages[0]) + Frames(messages[1..])
  }

  // ---- UTF-8, by Table 3-7 of the Unicode Standard ----

  predicate InRange(text: Bytes, i: nat, low: nat, high: nat) {
    i < |text| && low <= text[i] as int <= high
  }

  /** How many bytes a text's first character takes; 0 when it starts with none. */
  function FirstLength(text: Bytes): (length: nat)
    ensures length <= |text|
  {
    if InRange(text, 0, 0, 0x7F) then 1
    else if InRange(text, 0, 0xC2, 0xDF) && InRange(text, 1, 0x80, 0xBF) then 2
    else if ((InRange(text, 0, 0xE0, 0xE0) && InRange(text, 1, 0xA0, 0xBF))
             || (InRange(text, 0, 0xE1, 0xEC) && InRange(text, 1, 0x80, 0xBF))
             || (InRange(text, 0, 0xED, 0xED) && InRange(text, 1, 0x80, 0x9F))
             || (InRange(text, 0, 0xEE, 0xEF) && InRange(text, 1, 0x80, 0xBF)))
            && InRange(text, 2, 0x80, 0xBF) then 3
    else if ((InRange(text, 0, 0xF0, 0xF0) && InRange(text, 1, 0x90, 0xBF))
             || (InRange(text, 0, 0xF1, 0xF3) && InRange(text, 1, 0x80, 0xBF))
             || (InRange(text, 0, 0xF4, 0xF4) && InRange(text, 1, 0x80, 0x8F)))
            && InRange(text, 2, 0x80, 0xBF) && InRange(text, 3, 0x80, 0xBF) then 4
    else 0
  }

  predicate IsUtf8(text: Bytes)
    decreases |text|
  {
    text == "" || (FirstLength(text) > 0 && IsUtf8(text[FirstLength(text)..]))
  }

  predicate IsAscii(text: Bytes) {
    forall i :: 0 <= i < |text| ==> text[i] as int < 0x80
  }

  lemma {:induction false} AsciiIsUtf8(text: Bytes)
    requires IsAscii(text)
    ensures IsUtf8(text)
  {
    if text != "" {
      assert FirstLength(text) == 1;
      AsciiIsUtf8(text[1..]);
    }
  }

  // ---- lines and numbers ----

  /** Where the first line ends, its newline included. */
  function LineLength(bytes: Bytes): (length: nat)
    ensures length <= |bytes| && (bytes != "" ==> length > 0)
  {
    if bytes == "" then 0 else if bytes[0] == '\n' then 1 else 1 + LineLength(bytes[1..])
  }

  lemma {:induction false} LineLengthIs(line: Bytes, rest: Bytes)
    requires '\n' !in line
    ensures LineLength(line + ("\n" + rest)) == |line| + 1
    ensures LineLength(line) == |line|
  {
    if line != "" {
      var all := line + ("\n" + rest);
      assert all[1..] == line[1..] + ("\n" + rest);
      LineLengthIs(line[1..], rest);
    }
  }

  predicate IsBlank(c: char) {
    c == ' ' || '\t' <= c <= '\r'
  }

  /** A number as both parsers take one: digits, a `+` before them allowed, of a machine's size. */
  function ParseSize(text: string): Option<nat> {
    var digits := if text != "" && text[0] == '+' then text[1..] else text;
    if digits == "" || !AllDigits(digits) || Number(digits) > LARGEST then None else Some(Number(digits))
  }

  lemma DecimalParses(n: nat)
    requires n <= LARGEST
    ensures ParseSize(Decimal(n)) == Some(n)
  {
    DecimalReadsBack(n);
  }

  lemma HeadIsALine(length: nat)
    ensures Head(length) == (HEADER + " " + Decimal(length) + "\r") + "\n"
    ensures '\n' !in HEADER + " " + Decimal(length) + "\r"
    ensures IsAscii(Head(length))
  {
    var digits := Decimal(length);
    forall c | c in digits
      ensures IsDigit(c)
    {}
    assert '\n' !in HEADER && '\n' !in " " && '\n' !in "\r";
    assert IsAscii(HEADER) && IsAscii(digits);
  }
}
