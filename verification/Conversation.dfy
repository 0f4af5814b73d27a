/**
 * The app's conversation with its GoogleSQL helper, `Analyzer::call`, `start`
 * and `Running::ask` of `src-tauri/src/analyzer/mod.rs`: one request at a time,
 * by any number of callers, each of which may be dropped wherever it waits.
 *
 * A step is what runs between two waits. The helper, where it lives, answers
 * each request once and in order; what it answers is any function of it.
 */
module Conversation {
  import opened Basics

  /** JSON, by its text. */
  type Params = string
  type Value = string

  datatype Ask = Hello | Call(params: Params)

  datatype Request = Request(id: nat, ask: Ask)

  datatype Reply = Reply(id: nat, value: Value)

  /** A helper: what it has yet to read, what it wrote that is unread, and what the app keeps of it. */
  datatype Helper = Helper(inbox: seq<Request>, outbox: seq<Reply>, nextId: nat, midway: bool)

  /** Whether a request is being written or its reply awaited. */
  datatype Phase = Writing | Reading

  /** Who holds the lock: a caller starting a helper of its own, or one asking the helper that is kept. */
  datatype Holder =
    | Nobody
    | Starting(caller: nat, params: Params, helper: Helper, id: nat, phase: Phase)
    | Asking(caller: nat, params: Params, id: nat, phase: Phase)

  datatype Outcome = Answered(value: Value) | Lost | AnotherRequest | NotStarted

  /** What a call that came back was told. */
  datatype Told = Told(caller: nat, params: Params, outcome: Outcome)

  datatype State = State(running: Option<Helper>, holder: Holder, told: seq<Told>)

  datatype Event =
    | Take(caller: nat, params: Params, found: bool) // takes the lock; whether a helper's file is found
    | Written                                        // the request is with the helper
    | Answers                                        // the helper answers the first request it has
    | Read(accepted: bool)                           // a reply is read; whether a hello is of the version wanted
    | Fails                                          // the helper stops, a read or a write fails, or time is up
    | Drop                                           // the caller is dropped

  // ---- a helper, asked ----

  const FRESH := Helper([], [], 1, false)

  function Begun(h: Helper): Helper {
    h.(nextId := h.nextId + 1, midway := true)
  }

  function Sent(h: Helper, id: nat, ask: Ask): Helper {
    h.(inbox := h.inbox + [Request(id, ask)])
  }

  function Took(h: Helper): Helper
    requires h.outbox != []
  {
    h.(outbox := h.outbox[1..], midway := false)
  }

  function Worked(h: Helper, answer: Ask -> Value): Helper
    requires h.inbox != []
  {
    h.(inbox := h.inbox[1..], outbox := h.outbox + [Reply(h.inbox[0].id, answer(h.inbox[0].ask))])
  }

  /** What the app keeps of a helper it is asking. */
  class Running {
    var nextId: nat
    var midway: bool

    constructor ()
      ensures nextId == FRESH.nextId && midway == FRESH.midway
    {
      nextId, midway := 1, false;
    }

    /** Before the first wait of `ask`. */
    method Begin() returns (id: nat)
      modifies this
      ensures id == old(nextId) && nextId == id + 1 && midway
      ensures nextId == Begun(Helper([], [], id, old(midway))).nextId
    {
      id := nextId;
      nextId := nextId + 1;
      midway := true;
    }

    /** After its last wait: whether the reply is this request's. */
    method End(id: nat, reply: Reply) returns (ours: bool)
      modifies this`midway
      ensures !midway && (ours <==> reply.id == id)
    {
      midway := false;
      ours := reply.id == id;
    }
  }

  // ---- the steps ----

  function TellHolder(s: State, outcome: Outcome): seq<Told>
    requires !s.holder.Nobody?
  {
    s.told + [Told(s.holder.caller, s.holder.params, outcome)]
  }

  function AskNext(s: State, caller: nat, params: Params, h: Helper): State {
    s.(running := Some(Begun(h)), holder := Asking(caller, params, h.nextId, Writing))
  }

  /** Takes the lock: a helper a caller gave up on is let go, and where there is none one is started. */
  function Taken(s: State, caller: nat, params: Params, found: bool): State {
    if s.running.Some? && !s.running.value.midway then AskNext(s, caller, params, s.running.value)
    else if !found then s.(running := None, told := s.told + [Told(caller, params, NotStarted)])
    else s.(running := None, holder := Starting(caller, params, Begun(FRESH), FRESH.nextId, Writing))
  }

  /** The conversation is over: the helper is let go. */
  function Over(s: State, outcome: Outcome): State
    requires !s.holder.Nobody?
  {
    s.(running := None, holder := Nobody, told := TellHolder(s, outcome))
  }

  predicate CanRead(s: State) {
    match s.holder
    case Nobody => false
    case Starting(_, _, h, _, phase) => phase.Reading? && h.outbox != []
    case Asking(_, _, _, phase) => phase.Reading? && s.running.Some? && s.running.value.outbox != []
  }

  function ReadReply(s: State, accepted: bool): State
    requires CanRead(s)
  {
    match s.holder
    case Starting(caller, params, h, id, _) =>
      if h.outbox[0].id != id then Over(s, AnotherRequest)
      else if !accepted then Over(s, NotStarted)
      else AskNext(s, caller, params, Took(h))
    case Asking(_, _, id, _) =>
      var reply := s.running.value.outbox[0];
      if reply.id != id then Over(s, AnotherRequest)
      else s.(running := Some(Took(s.running.value)), holder := Nobody, told := TellHolder(s, Answered(reply.value)))
  }

  predicate CanWork(s: State) {
    (s.holder.Starting? && s.holder.helper.inbox != []) || (s.running.Some? && s.running.value.inbox != [])
  }

  function Work(s: State, answer: Ask -> Value): State
    requires CanWork(s)
  {
    if s.holder.Starting? && s.holder.helper.inbox != []
    then s.(holder := s.holder.(helper := Worked(s.holder.helper, answer)))
    else s.(running := Some(Worked(s.running.value, answer)))
  }

  function WrittenOut(s: State): State
    requires !s.holder.Nobody? && (s.holder.Asking? ==> s.running.Some?)
  {
    match s.holder
    case Starting(caller, params, h, id, _) =>
      s.(holder := Starting(caller, params, Sent(h, id, Hello), id, Reading))
    case Asking(caller, params, id, _) =>
      s.(running := Some(Sent(s.running.value, id, Call(params))), holder := Asking(caller, params, id, Reading))
  }

  predicate Enabled(s: State, e: Event) {
    match e
    case Take(_, _, _) => s.holder.Nobody?
    case Written => !s.holder.Nobody? && s.holder.phase.Writing? && (s.holder.Asking? ==> s.running.Some?)
    case Answers => CanWork(s)
    case Read(_) => CanRead(s)
    case Fails => !s.holder.Nobody?
    case Drop => !s.holder.Nobody?
  }

  function Step(s: State, e: Event, answer: Ask -> Value): State
    requires Enabled(s, e)
  {
    match e
    case Take(caller, params, found) => Taken(s, caller, params, found)
    case Written => WrittenOut(s)
    case Answers => Work(s, answer)
    case Read(accepted) => ReadReply(s, accepted)
    case Fails => Over(s, if s.holder.Starting? then NotStarted else Lost)
    // The helper being started is dropped with its caller; one that was kept is left as it is.
    case Drop => s.(holder := Nobody)
  }

  const START := State(None, Nobody, [])

  ghost predicate Run(states: seq<State>, events: seq<Event>, answer: Ask -> Value) {
    && |states| == |events| + 1 && states[0] == START
    && forall i :: 0 <= i < |events| ==> Next(states[i], states[i + 1], events[i], answer)
  }

  ghost predicate Next(s: State, t: State, e: Event, answer: Ask -> Value) {
    Enabled(s, e) && t == Step(s, e, answer)
  }

  // ---- what every run keeps ----

  predicate Quiet(h: Helper) {
    h.inbox == [] && h.outbox == []
  }

  /** A helper being asked has just that request, or just its reply, once the request is written. */
  predicate Asked(h: Helper, id: nat, ask: Ask, phase: Phase, answer: Ask -> Value) {
    && h.midway && id < h.nextId
    && match phase
       case Writing => Quiet(h)
       case Reading =>
         || (h.inbox == [Request(id, ask)] && h.outbox == [])
         || (h.inbox == [] && h.outbox == [Reply(id, answer(ask))])
  }

  /** A call that came back with an answer has the answer to what it asked, and none with another's. */
  predicate TruthfullyTold(t: Told, answer: Ask -> Value) {
    match t.outcome
    case Answered(value) => value == answer(Call(t.params))
    case AnotherRequest => false
    case Lost => true
    case NotStarted => true
  }

  ghost predicate Inv(s: State, answer: Ask -> Value) {
    && (forall t <- s.told :: TruthfullyTold(t, answer))
    && match s.holder
       case Nobody => s.running.Some? && !s.running.value.midway ==> Quiet(s.running.value)
       case Starting(_, _, h, id, phase) => s.running.None? && Asked(h, id, Hello, phase, answer)
       case Asking(_, params, id, phase) =>
         s.running.Some? && Asked(s.running.value, id, Call(params), phase, answer)
  }

  lemma ToldOneMore(told: seq<Told>, t: Told, answer: Ask -> Value)
    requires (forall u <- told :: TruthfullyTold(u, answer)) && TruthfullyTold(t, answer)
    ensures forall u <- told + [t] :: TruthfullyTold(u, answer)
  {}

  lemma NextInv(s: State, t: State, e: Event, answer: Ask -> Value)
    requires Inv(s, answer) && Next(s, t, e, answer)
    ensures Inv(t, answer)
  {
    match e
    case Take(_, _, _) =>
    case Written =>
    case Answers =>
    case Read(_) => ReadKeepsInv(s, e.accepted, answer);
    case Fails => ToldOneMore(s.told, Told(s.holder.caller, s.holder.params, Lost), answer);
    case Drop =>
  }

  /** What is read is always the reply to the request that waits for it. */
  lemma ReadKeepsInv(s: State, accepted: bool, answer: Ask -> Value)
    requires Inv(s, answer) && CanRead(s)
    ensures Inv(ReadReply(s, accepted), answer)
  {
    match s.holder
    case Starting(caller, params, h, id, _) =>
      assert h.outbox == [Reply(id, answer(Hello))];
    case Asking(caller, params, id, _) =>
      assert s.running.value.outbox == [Reply(id, answer(Call(params)))];
  }

  lemma {:induction false} RunInv(states: seq<State>, events: seq<Event>, answer: Ask -> Value, i: nat)
    requires Run(states, events, answer) && i < |states|
    ensures Inv(states[i], answer)
  {
    hide Next;
    if i > 0 {
      RunInv(states, events, answer, i - 1);
      NextInv(states[i - 1], states[i], events[i - 1], answer);
    }
  }

  /**
   * However calls, drops, failures and a slow helper interleave: no call is told
   * another request was answered, each answer a call is told is the answer to
   * its own request, and a helper that is kept and not midway has nothing unread.
   */
  lemma EachIsToldItsOwnAnswer(states: seq<State>, events: seq<Event>, answer: Ask -> Value, i: nat)
    requires Run(states, events, answer) && i < |states|
    ensures forall t <- states[i].told :: !t.outcome.AnotherRequest?
    ensures forall t <- states[i].told :: t.outcome.Answered? ==> t.outcome.value == answer(Call(t.params))
    ensures states[i].running.Some? && !states[i].running.value.midway ==> Quiet(states[i].running.value)
  {
    RunInv(states, events, answer, i);
    forall t | t in states[i].told
      ensures TruthfullyTold(t, answer)
    {}
  }

  // ---- and a call that is left alone is answered ----

  ghost predicate Path(s: State, events: seq<Event>, t: State, answer: Ask -> Value)
    decreases |events|
  {
    if events == [] then s == t
    else Enabled(s, events[0]) && Path(Step(s, events[0], answer), events[1..], t, answer)
  }

  lemma {:induction false} PathJoins(s: State, a: seq<Event>, t: State, b: seq<Event>, u: State, answer: Ask -> Value)
    requires Path(s, a, t, answer) && Path(t, b, u, answer)
    ensures Path(s, a + b, u, answer)
    decreases |a|
  {
    hide Step, Enabled;
    if a == [] {
      assert a + b == b;
    } else {
      assert (a + b)[1..] == a[1..] + b;
      PathJoins(Step(s, a[0], answer), a[1..], t, b, u, answer);
    }
  }

  lemma ThreeSteps(s: State, a: Event, b: Event, c: Event, answer: Ask -> Value)
    requires Enabled(s, a) && Enabled(Step(s, a, answer), b)
    requires Enabled(Step(Step(s, a, answer), b, answer), c)
    ensures Path(s, [a, b, c], Step(Step(Step(s, a, answer), b, answer), c, answer), answer)
  {
    hide Step, Enabled;
    var t := Step(s, a, answer);
    assert [a, b, c][1..] == [b, c] && [b, c][1..] == [c] && [c][1..] == [];
    assert Path(Step(t, b, answer), [c], Step(Step(t, b, answer), c, answer), answer);
    assert Path(t, [b, c], Step(Step(t, b, answer), c, answer), answer);
  }

  /** A helper asked is written to, answers, and is read. */
  lemma AskedIsAnswered(s: State, answer: Ask -> Value) returns (t: State)
    requires Inv(s, answer) && s.holder.Asking? && s.holder.phase.Writing?
    ensures Path(s, [Written, Answers, Read(true)], t, answer)
    ensures t.told == s.told + [Told(s.holder.caller, s.holder.params, Answered(answer(Call(s.holder.params))))]
    ensures t.holder.Nobody? && t.running.Some? && !t.running.value.midway
    ensures t.running.value.nextId == s.running.value.nextId
  {
    ThreeSteps(s, Written, Answers, Read(true), answer);
    t := Step(Step(Step(s, Written, answer), Answers, answer), Read(true), answer);
  }

  lemma StartedIsAsked(s: State, answer: Ask -> Value) returns (t: State)
    requires Inv(s, answer) && s.holder.Starting? && s.holder.phase.Writing?
    ensures Path(s, [Written, Answers, Read(true)], t, answer)
    ensures Inv(t, answer) && t.told == s.told
    ensures t.holder == Asking(s.holder.caller, s.holder.params, t.holder.id, Writing)
    ensures t.running.Some? && t.running.value.nextId == s.holder.helper.nextId + 1
  {
    ThreeSteps(s, Written, Answers, Read(true), answer);
    var written := Step(s, Written, answer);
    var answered := Step(written, Answers, answer);
    t := Step(answered, Read(true), answer);
    NextInv(s, written, Written, answer);
    NextInv(written, answered, Answers, answer);
    NextInv(answered, t, Read(true), answer);
  }

  /**
   * From any state a run comes to with the lock free, a call nothing disturbs
   * is told its answer, and leaves a helper the next call can ask: the one that
   * was kept, asked once more, or where there was none or it was given up on, a
   * fresh one that was greeted first.
   */
  lemma UndisturbedIsAnswered(s: State, caller: nat, params: Params, answer: Ask -> Value)
    returns (events: seq<Event>, t: State)
    requires Inv(s, answer) && s.holder.Nobody?
    ensures Path(s, events, t, answer)
    ensures t.told == s.told + [Told(caller, params, Answered(answer(Call(params))))]
    ensures t.holder.Nobody? && t.running.Some? && !t.running.value.midway
    ensures if s.running.Some? && !s.running.value.midway
            then |events| == 4 && t.running.value.nextId == s.running.value.nextId + 1
            else |events| == 7 && t.running.value.nextId == 3
  {
    hide Path, Inv;
    var take := Take(caller, params, true);
    var taken := Step(s, take, answer);
    NextInv(s, taken, take, answer);
    OneStep(s, take, answer);
    var asking := taken;
    events := [take];
    if taken.holder.Starting? {
      asking := StartedIsAsked(taken, answer);
      PathJoins(s, events, taken, [Written, Answers, Read(true)], asking, answer);
      events := events + [Written, Answers, Read(true)];
    }
    t := AskedIsAnswered(asking, answer);
    PathJoins(s, events, asking, [Written, Answers, Read(true)], t, answer);
    events := events + [Written, Answers, Read(true)];
  }

  lemma OneStep(s: State, e: Event, answer: Ask -> Value)
    requires Enabled(s, e)
    ensures Path(s, [e], Step(s, e, answer), answer)
  {
    hide Step, Enabled;
    assert [e][1..] == [];
  }
}
