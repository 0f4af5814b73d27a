/** The app's reader and writer, `src-tauri/src/lsp/framing.rs`. */
module AppFraming {
  import opened Basics
  import opened Chars
  import opened Decimals
  import opened Framing

  datatype Reading = Message(text: Bytes) | Ended | Failed

  /** Bytes still to be read, or written so far. */
  class Stream {
    var bytes: Bytes

    constructor (bytes: Bytes)
      ensures this.bytes == bytes
    {
      this.bytes := bytes;
    }

    /** A line with its newline, or what is left; nothing at the end. */
    method ReadLine() returns (line: Bytes)
      modifies this
      ensures line == old(bytes)[..LineLength(old(bytes))]
      ensures bytes == old(bytes)[LineLength(old(bytes))..]
    {
      line := bytes[..LineLength(bytes)];
      bytes := bytes[LineLength(bytes)..];
    }

    method ReadExact(count: nat) returns (body: Option<Bytes>)
      modifies this
      ensures |old(bytes)| < count ==> body == None
      ensures |old(bytes)| >= count ==> body == Some(old(bytes)[..count]) && bytes == old(bytes)[count..]
    {
      if |bytes| < count {
        bytes := "";
        return None;
      }
      body := Some(bytes[..count]);
      bytes := bytes[count..];
    }

    method Append(more: Bytes)
      modifies this
      ensures bytes == old(bytes) + more
    {
      bytes := bytes + more;
    }
  }

  function TrimEnd(line: Bytes): Bytes {
    if line == "" || (line[|line| - 1] != '\r' && line[|line| - 1] != '\n') then line
    else TrimEnd(line[..|line| - 1])
  }

  /** How many bytes of white space a text starts with: one character, of those Unicode calls white. */
  function WhiteFirst(text: Bytes): (length: nat)
    ensures length <= |text|
  {
    if text != "" && IsBlank(text[0]) then 1
    else if InRange(text, 0, 0xC2, 0xC2) && |text| > 1 && text[1] as int in {0x85, 0xA0} then 2
    else if |text| > 2 && IsWideBlank(text[0] as int, text[1] as int, text[2] as int) then 3
    else 0
  }

  function WhiteLast(text: Bytes): (length: nat)
    ensures length <= |text|
  {
    var n := |text|;
    if n > 0 && IsBlank(text[n - 1]) then 1
    else if n > 1 && text[n - 2] as int == 0xC2 && text[n - 1] as int in {0x85, 0xA0} then 2
    else if n > 2 && IsWideBlank(text[n - 3] as int, text[n - 2] as int, text[n - 1] as int) then 3
    else 0
  }

  /** U+1680, U+2000 to U+200A, U+2028, U+2029, U+202F, U+205F and U+3000. */
  predicate IsWideBlank(a: int, b: int, c: int) {
    || (a == 0xE1 && b == 0x9A && c == 0x80)
    || (a == 0xE2 && b == 0x80 && (0x80 <= c <= 0x8A || c in {0xA8, 0xA9, 0xAF}))
    || (a == 0xE2 && b == 0x81 && c == 0x9F)
    || (a == 0xE3 && b == 0x80 && c == 0x80)
  }

  function Trim(text: Bytes): Bytes
    decreases |text|
  {
    if WhiteFirst(text) > 0 then Trim(text[WhiteFirst(text)..])
    else if WhiteLast(text) > 0 then Trim(text[..|text| - WhiteLast(text)])
    else text
  }

  /** What follows the headers: the reading, and what is left to read after a message. */
  function ReadBody(length: Option<nat>, bytes: Bytes): (Reading, Bytes) {
    if length.None? || length.value > MOST || |bytes| < length.value then (Failed, "")
    else if !IsUtf8(bytes[..length.value]) then (Failed, "")
    else (Message(bytes[..length.value]), bytes[length.value..])
  }

  function ReadHeaders(bytes: Bytes, length: Option<nat>, started: bool): (Reading, Bytes)
    decreases |bytes|
  {
    var line, rest := bytes[..LineLength(bytes)], bytes[LineLength(bytes)..];
    if bytes == "" then (if started then Failed else Ended, "")
    else if !IsUtf8(line) then (Failed, "")
    else if TrimEnd(line) == "" then ReadBody(length, rest)
    else if !StartsWith(TrimEnd(line), HEADER, 0) then ReadHeaders(rest, length, true)
    else
      var claimed := ParseSize(Trim(TrimEnd(line)[|HEADER|..]));
      if claimed.None? then (Failed, "") else ReadHeaders(rest, claimed, true)
  }

  /** The next message, or the end, or an error. */
  method Read(from: Stream) returns (reading: Reading)
    modifies from
    ensures reading == ReadHeaders(old(from.bytes), None, false).0
    ensures reading.Message? ==> from.bytes == ReadHeaders(old(from.bytes), None, false).1
  {
    var length: Option<nat> := None;
    var started := false;
    while true
      invariant ReadHeaders(from.bytes, length, started) == ReadHeaders(old(from.bytes), None, false)
      decreases |from.bytes|
    {
      var line := from.ReadLine();
      if line == "" {
        return if started then Failed else Ended;
      }
      if !IsUtf8(line) {
        return Failed;
      }
      started := true;
      var header := TrimEnd(line);
      if header == "" {
        break;
      }
      if StartsWith(header, HEADER, 0) {
        length := ParseSize(Trim(header[|HEADER|..]));
        if length.None? {
          return Failed;
        }
      }
    }
    if length.None? || length.value > MOST {
      return Failed;
    }
    var body := from.ReadExact(length.value);
    if body.None? || !IsUtf8(body.value) {
      return Failed;
    }
    return Message(body.value);
  }

  method Write(into: Stream, message: Bytes)
    modifies into
    ensures into.bytes == old(into.bytes) + Frame(message)
  {
    Associates(into.bytes, Head(|message|), "\r\n" + message);
    Associates(into.bytes + Head(|message|), "\r\n", message);
    Associates(HEADER + " " + Decimal(|message|), "\r\n", "\r\n");
    Associates(into.bytes, Head(|message|), "\r\n");
    into.Append(HEADER + " " + Decimal(|message|) + "\r\n\r\n");
    into.Append(message);
  }

  // ---- what is written is read back, and what is cut off is not ----

  lemma BreakTrimmed(header: Bytes)
    requires header != "" && IsDigit(header[|header| - 1])
    ensures TrimEnd((header + "\r") + "\n") == header
  {
    var line := header + "\r";
    assert (line + "\n")[..|line|] == line && line[..|header|] == header;
    assert TrimEnd(line + "\n") == TrimEnd(line);
    assert TrimEnd(line) == TrimEnd(header);
  }

  lemma BlankTrimmed(digits: Bytes)
    requires digits != "" && IsDigit(digits[0]) && IsDigit(digits[|digits| - 1])
    ensures Trim(" " + digits) == digits
  {
    assert (" " + digits)[1..] == digits;
    assert Trim(" " + digits) == Trim(digits);
  }

  lemma {:induction false} HeaderLine(length: nat)
    requires length <= LARGEST
    ensures TrimEnd(Head(length)) == HEADER + " " + Decimal(length)
    ensures ParseSize(Trim(TrimEnd(Head(length))[|HEADER|..])) == Some(length)
  {
    hide TrimEnd, Trim, ParseSize, Head;
    var digits := Decimal(length);
    var header := HEADER + " " + digits;
    assert IsDigit(digits[|digits| - 1]) && IsDigit(digits[0]);
    HeadIsALine(length);
    BreakTrimmed(header);
    assert header[|HEADER|..] == " " + digits;
    BlankTrimmed(digits);
    DecimalParses(length);
  }

  lemma HeadRead(length: nat, rest: Bytes)
    requires length <= LARGEST
    ensures ReadHeaders(Head(length) + rest, None, false) == ReadHeaders(rest, Some(length), true)
  {
    hide IsUtf8, TrimEnd, Trim, ParseSize;
    var line := HEADER + " " + Decimal(length) + "\r";
    HeadIsALine(length);
    AsciiIsUtf8(Head(length));
    HeaderLine(length);
    LineLengthIs(line, rest);
    var bytes := Head(length) + rest;
    assert bytes == line + ("\n" + rest);
    assert bytes[..LineLength(bytes)] == Head(length);
    assert bytes[LineLength(bytes)..] == rest;
    assert TrimEnd(Head(length))[0] == 'C';
  }

  lemma BlankRead(length: nat, rest: Bytes)
    ensures ReadHeaders("\r\n" + rest, Some(length), true) == ReadBody(Some(length), rest)
  {
    var bytes := "\r\n" + rest;
    assert bytes == "\r" + ("\n" + rest);
    LineLengthIs("\r", rest);
    assert bytes[..2] == "\r\n" && bytes[2..] == rest;
    AsciiIsUtf8("\r\n");
    assert "\r\n"[..1] == "\r" && "\r"[..0] == "";
  }

  predicate IsMessage(message: Bytes) {
    |message| <= MOST && IsUtf8(message)
  }

  lemma FrameRead(message: Bytes, rest: Bytes)
    requires IsMessage(message)
    ensures ReadHeaders(Frame(message) + rest, None, false) == (Message(message), rest)
  {
    hide ReadHeaders;
    Associates(Head(|message|), "\r\n" + message, rest);
    Associates("\r\n", message, rest);
    HeadRead(|message|, "\r\n" + (message + rest));
    BlankRead(|message|, message + rest);
    assert (message + rest)[..|message|] == message && (message + rest)[|message|..] == rest;
  }

  /** A stream as it is read to its end: the messages, and whether it ended between two. */
  function ReadAll(bytes: Bytes): (seq<Bytes>, bool)
    decreases |bytes|
  {
    var (reading, rest) := ReadHeaders(bytes, None, false);
    if !reading.Message? then ([], reading == Ended)
    else if |rest| >= |bytes| then ([], false)
    else
      var (more, ended) := ReadAll(rest);
      ([reading.text] + more, ended)
  }

  lemma ReadNext(message: Bytes, rest: Bytes)
    requires IsMessage(message)
    ensures ReadAll(Frame(message) + rest) == ([message] + ReadAll(rest).0, ReadAll(rest).1)
  {
    FrameRead(message, rest);
    assert |Frame(message)| > 0;
  }

  /** Messages written one after another are read one after another, and then `after`. */
  lemma {:induction false} FramesRead(messages: seq<Bytes>, after: Bytes)
    requires forall m <- messages :: IsMessage(m)
    ensures ReadAll(Frames(messages) + after) == (messages + ReadAll(after).0, ReadAll(after).1)
  {
    hide ReadAll, Frame, IsMessage;
    if messages == [] {
      assert Frames(messages) + after == after;
      assert messages + ReadAll(after).0 == ReadAll(after).0;
    } else {
      Associates(Frame(messages[0]), Frames(messages[1..]), after);
      ReadNext(messages[0], Frames(messages[1..]) + after);
      FramesRead(messages[1..], after);
      Associates([messages[0]], messages[1..], ReadAll(after).0);
      assert messages == [messages[0]] + messages[1..];
    }
  }

  /** Any messages, written one after another, are read back as just those, and then the end. */
  lemma MessagesReadBack(messages: seq<Bytes>)
    requires forall m <- messages :: IsMessage(m)
    ensures ReadAll(Frames(messages)) == (messages, true)
  {
    FramesRead(messages, "");
    assert Frames(messages) + "" == Frames(messages);
    assert ReadAll("") == ([], true);
    assert messages + [] == messages;
  }

  lemma {:induction false} TrimEndKeepsFirst(line: Bytes)
    requires line != "" && line[0] != '\r' && line[0] != '\n'
    ensures TrimEnd(line) != ""
  {
    if line[|line| - 1] == '\r' || line[|line| - 1] == '\n' {
      TrimEndKeepsFirst(line[..|line| - 1]);
    }
  }

  lemma CutInHead(length: nat, k: nat)
    requires 0 < k < |Head(length)|
    ensures ReadHeaders(Head(length)[..k], None, false).0 == Failed
  {
    HeadIsALine(length);
    var line := Head(length)[..k];
    assert line == (HEADER + " " + Decimal(length) + "\r")[..k];
    LineLengthIs(line, "");
    TrimEndKeepsFirst(line);
    assert line[k..] == "";
  }

  lemma CutAfterHead(message: Bytes, k: nat)
    requires IsMessage(message) && k < |message| + 2
    ensures ReadHeaders(("\r\n" + message)[..k], Some(|message|), true)
            == if message == "" && k == 1 then (Message(""), "") else (Failed, "")
  {
    hide ReadHeaders, IsUtf8;
    var rest := ("\r\n" + message)[..k];
    if k == 0 {
      assert rest == "";
      NothingLeft(|message|);
    } else if k == 1 {
      assert rest == "\r";
      LoneReturn(|message|);
    } else {
      assert rest == "\r\n" + message[..k - 2];
      BlankRead(|message|, message[..k - 2]);
    }
  }

  lemma NothingLeft(length: nat)
    ensures ReadHeaders("", Some(length), true) == (Failed, "")
  {}

  /** A frame cut off is an error, but for an empty message's whose last byte alone is missing. */
  lemma CutIsAnError(message: Bytes, k: nat)
    requires IsMessage(message) && 0 < k < |Frame(message)|
    ensures ReadAll(Frame(message)[..k])
            == if message == "" && k == |Frame(message)| - 1 then ([""], true) else ([], false)
  {
    hide ReadHeaders, Head, IsUtf8;
    var n, bytes := |Head(|message|)|, Frame(message)[..k];
    if k < n {
      CutInHead(|message|, k);
      assert bytes == Head(|message|)[..k];
    } else {
      var rest := ("\r\n" + message)[..k - n];
      assert bytes == Head(|message|) + rest;
      HeadRead(|message|, rest);
      CutAfterHead(message, k - n);
      NothingAtAll();
      assert [""] + [] == [""];
    }
  }

  lemma NothingAtAll()
    ensures ReadAll("") == ([], true)
  {}

  lemma LoneReturn(length: nat)
    ensures ReadHeaders("\r", Some(length), true) == if length == 0 then (Message(""), "") else (Failed, "")
  {
    LineLengthIs("\r", "");
    AsciiIsUtf8("\r");
    assert "\r"[..1] == "\r" && "\r"[1..] == "" && "\r"[..0] == "";
  }

  /** However a stream of messages is cut inside a non-empty one, those before it are read and then an error. */
  lemma CutStream(messages: seq<Bytes>, message: Bytes, k: nat)
    requires (forall m <- messages :: IsMessage(m)) && IsMessage(message)
    requires message != "" && 0 < k < |Frame(message)|
    ensures ReadAll(Frames(messages) + Frame(message)[..k]) == (messages, false)
  {
    FramesRead(messages, Frame(message)[..k]);
    CutIsAnError(message, k);
    assert messages + [] == messages;
  }
}
