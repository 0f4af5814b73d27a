/** The helper's reader, `Read` of `bigquery-analyzer/main.cc`, and its request loop. */
module HelperFraming {
  import opened Basics
  import opened Chars
  import opened Decimals
  import opened Framing
  import AppFraming

  /** Standard input: what is left of it, and whether a read has met its end. */
  class Input {
    var bytes: Bytes
    var good: bool

    constructor (bytes: Bytes)
      ensures this.bytes == bytes && good
    {
      this.bytes, good := bytes, true;
    }

    /** A line without its newline; none once the end has been met, or when nothing is left. */
    method GetLine() returns (line: Option<Bytes>)
      modifies this
      ensures line == GotLine(old(bytes), old(good)).line
      ensures bytes == GotLine(old(bytes), old(good)).rest && good == GotLine(old(bytes), old(good)).good
    {
      if !good || bytes == "" {
        good := false;
        return None;
      }
      var n := LineLength(bytes);
      if bytes[n - 1] == '\n' {
        line := Some(bytes[..n - 1]);
      } else {
        line, good := Some(bytes[..n]), false;
      }
      bytes := bytes[n..];
    }

    method Read(count: nat) returns (body: Option<Bytes>)
      modifies this
      ensures body == if old(good) && count <= |old(bytes)| then Some(old(bytes)[..count]) else None
      ensures body.Some? ==> good && bytes == old(bytes)[count..]
    {
      if !good || |bytes| < count {
        good := false;
        return None;
      }
      body := Some(bytes[..count]);
      bytes := bytes[count..];
    }
  }

  datatype Got = Got(line: Option<Bytes>, rest: Bytes, good: bool)

  /** What `getline` makes of a stream. */
  function GotLine(bytes: Bytes, good: bool): Got {
    var n := LineLength(bytes);
    if !good || bytes == "" then Got(None, bytes, false)
    else if bytes[n - 1] == '\n' then Got(Some(bytes[..n - 1]), bytes[n..], true)
    else Got(Some(bytes[..n]), bytes[n..], false)
  }

  function WithoutReturn(line: Bytes): Bytes {
    if line != "" && line[|line| - 1] == '\r' then line[..|line| - 1] else line
  }

  function StripWhite(text: Bytes): Bytes
    decreases |text|
  {
    if text != "" && IsBlank(text[0]) then StripWhite(text[1..])
    else if text != "" && IsBlank(text[|text| - 1]) then StripWhite(text[..|text| - 1])
    else text
  }

  /** The length claimed so far once a line is read: one that is no number changes nothing. */
  function Claimed(line: Bytes, length: Option<nat>): Option<nat> {
    if !StartsWith(line, HEADER, 0) then length
    else
      var claimed := ParseSize(StripWhite(line[|HEADER|..]));
      if claimed.Some? then claimed else length
  }

  datatype Request = Request(body: Option<Bytes>, rest: Bytes)

  function ReadBody(length: Option<nat>, bytes: Bytes, good: bool): Request {
    if length.None? || length.value > MOST || !good || |bytes| < length.value then Request(None, "")
    else Request(Some(bytes[..length.value]), bytes[length.value..])
  }

  function ReadHeaders(bytes: Bytes, good: bool, length: Option<nat>): Request
    decreases |bytes|
  {
    var got := GotLine(bytes, good);
    if got.line.None? then ReadBody(length, got.rest, got.good)
    else
      var line := WithoutReturn(got.line.value);
      if line == "" then ReadBody(length, got.rest, got.good)
      else ReadHeaders(got.rest, got.good, Claimed(line, length))
  }

  /** The next request, or none when there is no reading on. */
  method Read(input: Input) returns (body: Option<Bytes>)
    modifies input
    ensures body == ReadHeaders(old(input.bytes), old(input.good), None).body
    ensures body.Some? ==> input.good && input.bytes == ReadHeaders(old(input.bytes), old(input.good), None).rest
  {
    var length: Option<nat> := None;
    var started := false;
    var got := input.GetLine();
    while got.Some?
      invariant !started ==> length == None
      invariant got.None? ==> !input.good
      invariant ReadHeaders(old(input.bytes), old(input.good), None)
                == if got.None? then ReadBody(length, input.bytes, input.good)
                   else if WithoutReturn(got.value) == "" then ReadBody(length, input.bytes, input.good)
                   else ReadHeaders(input.bytes, input.good, Claimed(WithoutReturn(got.value), length))
      decreases |input.bytes|, got.Some?
    {
      started := true;
      var line := WithoutReturn(got.value);
      if line == "" {
        break;
      }
      if StartsWith(line, HEADER, 0) {
        var value := ParseSize(StripWhite(line[|HEADER|..]));
        if value.Some? {
          length := value;
        }
      }
      got := input.GetLine();
    }
    if !started || length.None? || length.value > MOST {
      return None;
    }
    body := input.Read(length.value);
  }

  // ---- what either side writes is read back ----

  lemma {:induction false} HeaderLine(length: nat)
    requires length <= LARGEST
    ensures Claimed(HEADER + " " + Decimal(length), None) == Some(length)
  {
    var digits := Decimal(length);
    var header := HEADER + " " + digits;
    assert IsDigit(digits[|digits| - 1]) && IsDigit(digits[0]);
    assert header[|HEADER|..] == " " + digits;
    assert (" " + digits)[1..] == digits;
    assert StripWhite(digits) == digits;
    DecimalParses(length);
  }

  lemma GotWholeLine(line: Bytes, rest: Bytes)
    requires '\n' !in line
    ensures GotLine(line + ("\n" + rest), true) == Got(Some(line), rest, true)
  {
    LineLengthIs(line, rest);
    var bytes := line + ("\n" + rest);
    assert bytes[..|line|] == line && bytes[|line| + 1..] == rest;
  }

  lemma HeadRead(length: nat, rest: Bytes)
    requires length <= LARGEST
    ensures ReadHeaders(Head(length) + rest, true, None) == ReadHeaders(rest, true, Some(length))
  {
    hide Claimed, GotLine;
    var header := HEADER + " " + Decimal(length);
    HeadIsALine(length);
    assert Head(length) + rest == (header + "\r") + ("\n" + rest);
    GotWholeLine(header + "\r", rest);
    assert (header + "\r")[..|header|] == header;
    HeaderLine(length);
  }

  lemma BlankRead(length: nat, rest: Bytes)
    ensures ReadHeaders("\r\n" + rest, true, Some(length)) == ReadBody(Some(length), rest, true)
  {
    assert "\r\n" + rest == "\r" + ("\n" + rest);
    GotWholeLine("\r", rest);
    assert "\r"[..0] == "";
  }

  lemma FrameRead(message: Bytes, rest: Bytes)
    requires |message| <= MOST
    ensures ReadHeaders(Frame(message) + rest, true, None) == Request(Some(message), rest)
  {
    hide ReadHeaders;
    Associates(Head(|message|), "\r\n" + message, rest);
    Associates("\r\n", message, rest);
    HeadRead(|message|, "\r\n" + (message + rest));
    BlankRead(|message|, message + rest);
    assert (message + rest)[..|message|] == message && (message + rest)[|message|..] == rest;
  }

  /** Once the end has been met there is no request. */
  lemma NoneWhenNotGood(bytes: Bytes, length: Option<nat>)
    ensures ReadHeaders(bytes, false, length).body == None
  {}

  lemma PartOfALine(bytes: Bytes)
    requires '\n' !in bytes
    ensures ReadHeaders(bytes, true, None).body == None
    ensures forall length: Option<nat> :: ReadHeaders(bytes, true, length).body == None
  {
    LineLengthIs(bytes, "");
    forall length: Option<nat>
      ensures ReadHeaders(bytes, true, length).body == None
    {
      var got := GotLine(bytes, true);
      assert !got.good;
      if got.line.Some? && WithoutReturn(got.line.value) != "" {
        NoneWhenNotGood(got.rest, Claimed(WithoutReturn(got.line.value), length));
      }
    }
  }

  /** A frame cut off, wherever and whatever it holds, is no request to the helper. */
  lemma CutIsNoRequest(message: Bytes, k: nat)
    requires |message| <= MOST && k < |Frame(message)|
    ensures ReadHeaders(Frame(message)[..k], true, None).body == None
  {
    hide ReadHeaders;
    HeadIsALine(|message|);
    var n := |Head(|message|)|;
    if k < n {
      assert Frame(message)[..k] == (HEADER + " " + Decimal(|message|) + "\r")[..k];
      PartOfALine(Frame(message)[..k]);
    } else {
      var rest := ("\r\n" + message)[..k - n];
      assert Frame(message)[..k] == Head(|message|) + rest;
      HeadRead(|message|, rest);
      if k < n + 2 {
        assert rest == "\r"[..k - n];
        PartOfALine(rest);
      } else {
        assert rest == "\r\n" + message[..k - n - 2];
        BlankRead(|message|, message[..k - n - 2]);
      }
    }
  }

  // ---- what the helper makes of a request ----

  /** JSON, by its text. */
  type Json = Bytes

  datatype Method = Missing | Named(name: Bytes) | NotAText

  datatype Parsed = NotAnObject | Object(id: Json, asked: Method)

  datatype Reply = Answer(id: Json, result: Json) | Error(id: Json, code: int, message: Bytes)

  /** What printing a reply comes to. */
  datatype Printed = Text(text: Bytes) | Refused(why: Bytes)

  /** How a completion ends: with its result, or with an exception of one kind or another. */
  datatype Done = Completed(result: Json) | BadParams(why: Bytes) | Failed(why: Bytes)

  /** The helper's parts: its JSON reader and printer, which may refuse a text, its analyzer and its greeting. */
  datatype Helper = Helper(parse: Bytes -> Parsed, dump: Reply -> Printed, complete: Bytes -> Done,
                           hello: Json)

  const NOT_JSON := Error("null", -32700, "not a JSON-RPC message")

  /** What is written outside of any `try`; nothing when that ends the process. */
  function Written(h: Helper, reply: Reply): Option<Bytes> {
    if h.dump(reply).Text? then Some(h.dump(reply).text) else None
  }

  /** What is written within the `try`, a refusal to print it answered by an error. */
  function Tried(h: Helper, reply: Reply): Option<Bytes> {
    match h.dump(reply)
    case Text(text) => Some(text)
    case Refused(why) => Written(h, Error(reply.id, -32602, why))
  }

  /** The text written to a request, or nothing when an exception nobody catches ends the process. */
  function React(h: Helper, body: Bytes): Option<Bytes> {
    match h.parse(body)
    case NotAnObject => Written(h, NOT_JSON)
    case Object(id, NotAText) => None
    case Object(id, Missing) => Tried(h, Error(id, -32601, "no method "))
    case Object(id, Named(name)) =>
      if name == "hello" then Tried(h, Answer(id, h.hello))
      else if name == "complete" then
        match h.complete(body)
        case Completed(result) => Tried(h, Answer(id, result))
        case BadParams(why) => Written(h, Error(id, -32602, why))
        case Failed(why) => Written(h, Error(id, -32603, why))
      else Tried(h, Error(id, -32601, "no method " + name))
  }

  /** A JSON object whose method is there and is no text: reading it throws where nothing catches. */
  predicate EndsTheHelper(h: Helper, body: Bytes) {
    h.parse(body).Object? && h.parse(body).asked.NotAText?
  }

  /** An error can always be printed: its id was parsed, and its message is text. */
  ghost predicate PrintsErrors(h: Helper) {
    forall reply: Reply :: reply.Error? ==> h.dump(reply).Text?
  }

  lemma UnansweredExactly(h: Helper, body: Bytes)
    requires PrintsErrors(h)
    ensures React(h, body).None? <==> EndsTheHelper(h, body)
  {}

  function IdOf(parsed: Parsed): Json {
    if parsed.Object? then parsed.id else "null"
  }

  /** Whatever goes wrong, what is written to a request is one reply that carries its id. */
  lemma AnswersCarryTheId(h: Helper, body: Bytes) returns (reply: Reply)
    requires React(h, body).Some?
    ensures h.dump(reply) == Text(React(h, body).value) && reply.id == IdOf(h.parse(body))
    ensures reply.Answer? ==> h.parse(body).Object? && h.parse(body).asked in {Named("hello"), Named("complete")}
  {
    match h.parse(body)
    case NotAnObject => return NOT_JSON;
    case Object(id, Missing) => reply := TriedReply(h, Error(id, -32601, "no method "));
    case Object(id, Named(name)) =>
      if name == "hello" {
        reply := TriedReply(h, Answer(id, h.hello));
      } else if name == "complete" {
        match h.complete(body)
        case Completed(result) => reply := TriedReply(h, Answer(id, result));
        case BadParams(why) => return Error(id, -32602, why);
        case Failed(why) => return Error(id, -32603, why);
      } else {
        reply := TriedReply(h, Error(id, -32601, "no method " + name));
      }
  }

  lemma TriedReply(h: Helper, reply: Reply) returns (written: Reply)
    requires Tried(h, reply).Some?
    ensures h.dump(written) == Text(Tried(h, reply).value) && written.id == reply.id
    ensures written.Answer? ==> reply.Answer?
  {
    written := if h.dump(reply).Text? then reply else Error(reply.id, -32602, h.dump(reply).why);
  }

  // ---- one answer to each request ----

  /** What the helper writes to what it reads. */
  function Served(bytes: Bytes, h: Helper): Bytes
    decreases |bytes|
  {
    var request := ReadHeaders(bytes, true, None);
    if request.body.None? || |request.rest| >= |bytes| || React(h, request.body.value).None? then ""
    else Frame(React(h, request.body.value).value) + Served(request.rest, h)
  }

  /** What is written to the requests before the first that ends the process, each to its own. */
  function Answers(requests: seq<Bytes>, h: Helper): (answers: seq<Bytes>)
    ensures |answers| <= |requests|
    ensures forall k :: 0 <= k < |answers| ==> React(h, requests[k]) == Some(answers[k])
    ensures |answers| < |requests| ==> React(h, requests[|answers|]).None?
  {
    if requests == [] || React(h, requests[0]).None? then []
    else [React(h, requests[0]).value] + Answers(requests[1..], h)
  }

  lemma {:induction false} RestIsLess(bytes: Bytes, good: bool, length: Option<nat>)
    requires ReadHeaders(bytes, good, length).body.Some?
    ensures |ReadHeaders(bytes, good, length).rest| < |bytes|
    decreases |bytes|
  {
    var got := GotLine(bytes, good);
    if got.line.Some? && WithoutReturn(got.line.value) != "" {
      RestIsLess(got.rest, got.good, Claimed(WithoutReturn(got.line.value), length));
    }
  }

  /** The request loop: reads, answers and writes until there is no request, or one ends the process. */
  method Serve(input: Input, output: AppFraming.Stream, h: Helper)
    requires input.good && output.bytes == ""
    modifies input, output
    ensures output.bytes == Served(old(input.bytes), h)
  {
    ghost var left := input.bytes;
    assert output.bytes + Served(left, h) == Served(left, h);
    var body := Read(input);
    while body.Some?
      invariant body == ReadHeaders(left, true, None).body
      invariant body.Some? ==> input.good && input.bytes == ReadHeaders(left, true, None).rest
      invariant output.bytes + Served(left, h) == Served(old(input.bytes), h)
      decreases |left|
    {
      RestIsLess(left, true, None);
      var text := React(h, body.value);
      if text.None? {
        break;
      }
      Associates(output.bytes, Frame(text.value), Served(input.bytes, h));
      AppFraming.Write(output, text.value);
      left := input.bytes;
      body := Read(input);
    }
    assert Served(left, h) == "";
  }

  /** Requests written one after another are each answered once, up to the first that ends the process. */
  lemma {:induction false} EachIsAnswered(requests: seq<Bytes>, h: Helper)
    requires forall r <- requests :: |r| <= MOST
    ensures Served(Frames(requests), h) == Frames(Answers(requests, h))
  {
    if requests == [] {
      assert GotLine("", true).line == None;
    } else {
      hide ReadHeaders, React;
      FrameRead(requests[0], Frames(requests[1..]));
      if React(h, requests[0]).Some? {
        EachIsAnswered(requests[1..], h);
        assert Answers(requests, h)[1..] == Answers(requests[1..], h);
      }
    }
  }

  /** The text of a reply, put on the stream. */
  function Put(h: Helper, reply: Reply): Bytes {
    if h.dump(reply).Text? then Frame(h.dump(reply).text) else ""
  }

  /** One request, and what is written to it: a result that cannot be printed is answered by an error. */
  lemma EachMethodIsAnswered(h: Helper, body: Bytes)
    requires PrintsErrors(h) && |body| <= MOST
    ensures var parsed, written := h.parse(body), Served(Frame(body), h);
      && (parsed.NotAnObject? ==> written == Put(h, Error("null", -32700, "not a JSON-RPC message")))
      && (parsed.Object? && parsed.asked.Missing? ==> written == Put(h, Error(parsed.id, -32601, "no method ")))
      && (parsed.Object? && parsed.asked.Named? ==>
            var name := parsed.asked.name;
            && (name !in {"hello", "complete"} ==> written == Put(h, Error(parsed.id, -32601, "no method " + name)))
            && (name == "hello" && h.dump(Answer(parsed.id, h.hello)).Text? ==>
                  written == Put(h, Answer(parsed.id, h.hello)))
            && (name == "hello" && h.dump(Answer(parsed.id, h.hello)).Refused? ==>
                  written == Put(h, Error(parsed.id, -32602, h.dump(Answer(parsed.id, h.hello)).why)))
            && (name == "complete" ==> CompletionIsAnswered(h, parsed.id, h.complete(body), written)))
  {
    hide Served, Frame;
    ServedOne(h, body);
  }

  lemma ServedOne(h: Helper, body: Bytes)
    requires |body| <= MOST
    ensures Served(Frame(body), h) == if React(h, body).Some? then Frame(React(h, body).value) else ""
  {
    hide ReadHeaders, Served, React, Frame;
    assert [body][1..] == [];
    assert Frames([body]) == Frame(body) + Frames([]) == Frame(body);
    EachIsAnswered([body], h);
    OneAnswer(h, body);
  }

  predicate CompletionIsAnswered(h: Helper, id: Json, done: Done, written: Bytes) {
    match done
    case BadParams(why) => written == Put(h, Error(id, -32602, why))
    case Failed(why) => written == Put(h, Error(id, -32603, why))
    case Completed(result) =>
      match h.dump(Answer(id, result))
      case Text(_) => written == Put(h, Answer(id, result))
      case Refused(why) => written == Put(h, Error(id, -32602, why))
  }

  lemma OneAnswer(h: Helper, body: Bytes)
    ensures Frames(Answers([body], h)) == if React(h, body).Some? then Frame(React(h, body).value) else ""
  {
    hide React, Frame;
    assert [body][1..] == [];
    if React(h, body).Some? {
      assert Answers([body], h)[1..] == [];
      assert Frame(React(h, body).value) + "" == Frame(React(h, body).value);
    }
  }

  lemma AllAreAnsweredExactly(requests: seq<Bytes>, h: Helper)
    requires PrintsErrors(h)
    ensures |Answers(requests, h)| == |requests| <==> forall r <- requests :: !EndsTheHelper(h, r)
  {
    hide React, EndsTheHelper;
    forall r | r in requests
      ensures React(h, r).None? <==> EndsTheHelper(h, r)
    {
      UnansweredExactly(h, r);
    }
  }

  /**
   * The two sides together: what the app writes to the helper and reads back is
   * an answer to each request, in their order, and then the end; and no request
   * is left without one exactly when each names its method in text, or not at all.
   */
  lemma TheAppReadsEachAnswer(requests: seq<Bytes>, h: Helper)
    requires PrintsErrors(h)
    requires forall r <- requests :: |r| <= MOST && (React(h, r).Some? ==> AppFraming.IsMessage(React(h, r).value))
    ensures AppFraming.ReadAll(Served(Frames(requests), h)) == (Answers(requests, h), true)
    ensures |Answers(requests, h)| == |requests| <==> forall r <- requests :: !EndsTheHelper(h, r)
  {
    hide *;
    EachIsAnswered(requests, h);
    forall a | a in Answers(requests, h)
      ensures AppFraming.IsMessage(a)
    {
      var k :| 0 <= k < |Answers(requests, h)| && Answers(requests, h)[k] == a;
      assert React(h, requests[k]) == Some(a) && requests[k] in requests;
    }
    AppFraming.MessagesReadBack(Answers(requests, h));
    AllAreAnsweredExactly(requests, h);
  }

  /** A request such as this one is not answered, nor is anything after it. */
  lemma ANumberForAMethodIsNotAnswered(h: Helper, id: Json, after: seq<Bytes>)
    requires h.parse("{\"method\":1}") == Object(id, NotAText)
    requires forall r <- after :: |r| <= MOST
    ensures Served(Frames(["{\"method\":1}"] + after), h) == ""
  {
    hide Served, ReadHeaders;
    EachIsAnswered(["{\"method\":1}"] + after, h);
  }
}
