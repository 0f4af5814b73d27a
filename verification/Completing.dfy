/**
 * The search for an ending and a probe a half-written statement resolves with
 * (the loop of `Complete` in `bigquery-analyzer/complete.cc`). What the parser
 * and the analyzer say is any function of the ending and the probe tried.
 */
module Completing {
  import opened Basics
  import opened SqlTokens
  import opened SelectLists
  import opened Locating
  import opened StatementEndings
  import Registries

  const ANALYSES: nat := 4
  const UNPARSED: nat := 16
  const PROBES: nat := 6

  type Table = (string, string, string)

  /** What the parser says of a statement: its complaint, or the tables it names, where a name resolves. */
  datatype Parse = Refused(message: string) | Parsed(names: seq<Option<Table>>)

  /** The parser by ending, and the analyzer's complaint, if it has one, by ending and probe. */
  datatype Oracle = Oracle(parse: nat -> Parse, analyze: (nat, nat) -> Option<string>)

  datatype Outcome = Needs(tables: set<Table>) | Fitted(ending: nat, probe: nat) | Unresolved(complaint: Option<string>)

  // ---- what the search amounts to ----

  /** The tables a statement names that the catalog says nothing of. */
  function Missing(names: seq<Option<Table>>, catalog: set<Table>): set<Table> {
    set name <- names | name.Some? && name.value !in catalog :: name.value
  }

  ghost predicate Resolves(o: Oracle, i: nat) {
    exists p: nat :: p < PROBES && o.analyze(i, p).None?
  }

  predicate Refuses(o: Oracle, i: nat) {
    o.parse(i).Refused?
  }

  ghost predicate Fails(o: Oracle, catalog: set<Table>, i: nat) {
    Refuses(o, i) || (Missing(o.parse(i).names, catalog) == {} && !Resolves(o, i))
  }

  /** How many of the first `n` endings do not parse. */
  function RefusedBefore(o: Oracle, n: nat): (count: nat)
    ensures count <= n
  {
    if n == 0 then 0 else RefusedBefore(o, n - 1) + (if Refuses(o, n - 1) then 1 else 0)
  }

  ghost predicate FailBefore(o: Oracle, catalog: set<Table>, n: nat) {
    forall j: nat :: j < n ==> Fails(o, catalog, j)
  }

  /** Ending `i` is tried: the ones before it failed, within what is spent on statements of each kind. */
  ghost predicate Tried(o: Oracle, catalog: set<Table>, endings: nat, i: nat) {
    && i < endings && FailBefore(o, catalog, i)
    && RefusedBefore(o, i) < UNPARSED && i - RefusedBefore(o, i) < ANALYSES
  }

  function Complaint(o: Oracle, i: nat): Option<string> {
    if o.parse(i).Refused? then Some(o.parse(i).message) else o.analyze(i, 0)
  }

  ghost predicate FirstFit(o: Oracle, i: nat, p: nat) {
    p < PROBES && o.analyze(i, p).None? && forall q: nat :: q < p ==> o.analyze(i, q).Some?
  }

  /** The outcome is that of the one ending tried that does not fail, or of there being none. */
  ghost predicate IsOutcome(o: Oracle, catalog: set<Table>, endings: nat, outcome: Outcome) {
    match outcome
    case Needs(tables) =>
      exists i: nat :: Tried(o, catalog, endings, i) && !Refuses(o, i)
                       && tables == Missing(o.parse(i).names, catalog) != {}
    case Fitted(i, p) =>
      Tried(o, catalog, endings, i) && !Refuses(o, i) && Missing(o.parse(i).names, catalog) == {} && FirstFit(o, i, p)
    case Unresolved(complaint) =>
      && (forall i: nat :: Tried(o, catalog, endings, i) ==> Fails(o, catalog, i))
      && complaint == if endings == 0 then None else Complaint(o, 0)
  }

  method Probe(o: Oracle, i: nat, complaint: Option<string>)
    returns (fitted: Option<nat>, said: Option<string>, ghost analyses: nat)
    ensures analyses <= PROBES
    ensures fitted.Some? ==> FirstFit(o, i, fitted.value) && (said == complaint || fitted.value > 0)
    ensures fitted.None? ==> !Resolves(o, i) && said == if complaint.Some? then complaint else o.analyze(i, 0)
  {
    fitted, said, analyses := None, complaint, 0;
    for p := 0 to PROBES
      invariant forall q: nat :: q < p ==> o.analyze(i, q).Some?
      invariant said == if complaint.Some? || p == 0 then complaint else o.analyze(i, 0)
      invariant analyses == p
    {
      var status := o.analyze(i, p);
      analyses := analyses + 1;
      if status.None? {
        fitted := Some(p);
        return;
      }
      if p == 0 && said.None? {
        said := status;
      }
    }
  }

  /** Tries the endings in turn, `parses` and `analyses` counting what is asked of the parser and the analyzer. */
  method Search(o: Oracle, known: set<Table>, absent: set<Table>, endings: nat)
    returns (outcome: Outcome, ghost parses: nat, ghost analyses: nat)
    ensures parses <= 19 && analyses <= 24
    ensures IsOutcome(o, known + absent, endings, outcome)
  {
    hide Resolves, FirstFit, Complaint, Fails;
    ghost var catalog := known + absent;
    var complaint: Option<string> := None;
    var analyzed, unparsed := 0, 0;
    parses, analyses := 0, 0;
    for i := 0 to endings
      invariant FailBefore(o, catalog, i)
      invariant unparsed == RefusedBefore(o, i) < UNPARSED && analyzed == i - RefusedBefore(o, i) < ANALYSES
      invariant complaint == if i == 0 then None else Complaint(o, 0)
      invariant i > 0 ==> complaint.Some?
      invariant parses == i == unparsed + analyzed && analyses <= analyzed * PROBES
    {
      assert Tried(o, catalog, endings, i);
      parses := parses + 1;
      EndingFails(o, catalog, i);
      if o.parse(i).Refused? {
        if complaint.None? {
          complaint := Some(o.parse(i).message);
        }
        unparsed := unparsed + 1;
        if unparsed == UNPARSED {
          NoneTriedAfter(o, catalog, endings, i + 1);
          break;
        }
        continue;
      }
      var needs := set name <- o.parse(i).names |
        name.Some? && name.value !in known && name.value !in absent :: name.value;
      assert needs == Missing(o.parse(i).names, catalog);
      if needs != {} {
        outcome := Needs(needs);
        return;
      }
      var fitted;
      ghost var more;
      fitted, complaint, more := Probe(o, i, complaint);
      analyses := analyses + more;
      if fitted.Some? {
        outcome := Fitted(i, fitted.value);
        return;
      }
      SaidSomething(o, i);
      analyzed := analyzed + 1;
      if analyzed == ANALYSES {
        NoneTriedAfter(o, catalog, endings, i + 1);
        break;
      }
    }
    outcome := Unresolved(complaint);
  }

  /** What becomes of an ending, and what is first said of it. */
  lemma EndingFails(o: Oracle, catalog: set<Table>, i: nat)
    ensures Refuses(o, i) ==> Fails(o, catalog, i) && Complaint(o, i) == Some(o.parse(i).message)
    ensures !Refuses(o, i) ==> Complaint(o, i) == o.analyze(i, 0)
    ensures !Refuses(o, i) && Missing(o.parse(i).names, catalog) == {} ==> (Fails(o, catalog, i) <==> !Resolves(o, i))
  {}

  lemma SaidSomething(o: Oracle, i: nat)
    requires !Resolves(o, i)
    ensures o.analyze(i, 0).Some?
  {}

  lemma {:induction false} SpentStaysSpent(o: Oracle, m: nat, n: nat)
    requires m <= n
    ensures RefusedBefore(o, m) <= RefusedBefore(o, n)
    ensures m - RefusedBefore(o, m) <= n - RefusedBefore(o, n)
  {
    if m < n {
      SpentStaysSpent(o, m, n - 1);
    }
  }

  /** Once what is spent on one kind of statement is spent, no ending after is tried. */
  lemma NoneTriedAfter(o: Oracle, catalog: set<Table>, endings: nat, n: nat)
    requires FailBefore(o, catalog, n)
    requires RefusedBefore(o, n) == UNPARSED || n - RefusedBefore(o, n) == ANALYSES
    ensures forall i: nat :: Tried(o, catalog, endings, i) ==> Fails(o, catalog, i)
  {
    forall i: nat | Tried(o, catalog, endings, i)
      ensures Fails(o, catalog, i)
    {
      if n <= i {
        SpentStaysSpent(o, n, i);
      }
    }
  }

  // ---- what follows ----

  /** There is one outcome, so the search is the simple one: the first ending tried that does not fail. */
  lemma OutcomeIsUnique(o: Oracle, catalog: set<Table>, endings: nat, a: Outcome, b: Outcome)
    requires IsOutcome(o, catalog, endings, a) && IsOutcome(o, catalog, endings, b)
    ensures a == b
  {
    var i := Decider(o, catalog, endings, a);
    var j := Decider(o, catalog, endings, b);
    if a.Fitted? && b.Fitted? {
      assert a.probe <= b.probe <= a.probe;
    }
  }

  /** The ending that decides an outcome, where one does. */
  lemma Decider(o: Oracle, catalog: set<Table>, endings: nat, a: Outcome) returns (i: nat)
    requires IsOutcome(o, catalog, endings, a)
    ensures !a.Unresolved? ==> Tried(o, catalog, endings, i) && !Fails(o, catalog, i)
    ensures !a.Unresolved? ==> forall j: nat :: Tried(o, catalog, endings, j) && !Fails(o, catalog, j) ==> i == j
    ensures a.Needs? ==> !Refuses(o, i) && a.tables == Missing(o.parse(i).names, catalog)
    ensures a.Fitted? ==> i == a.ending
  {
    match a
    case Needs(tables) =>
      i :| Tried(o, catalog, endings, i) && !Refuses(o, i) && tables == Missing(o.parse(i).names, catalog) != {};
    case Fitted(e, p) =>
      i := e;
      assert Resolves(o, i);
    case Unresolved(_) =>
      i := 0;
  }

  /** At most nineteen endings are tried, whatever the parser and the analyzer say. */
  lemma FewAreTried(o: Oracle, catalog: set<Table>, endings: nat, i: nat)
    requires Tried(o, catalog, endings, i)
    ensures i < 19
  {}

  lemma {:induction false} AllRefused(o: Oracle, n: nat)
    requires forall j: nat :: j < n ==> Refuses(o, j)
    ensures RefusedBefore(o, n) == n
  {
    if n > 0 {
      AllRefused(o, n - 1);
    }
  }

  lemma {:induction false} NoneRefusedBefore(o: Oracle, n: nat)
    requires forall j: nat :: j < n ==> !Refuses(o, j)
    ensures RefusedBefore(o, n) == 0
  {
    if n > 0 {
      NoneRefusedBefore(o, n - 1);
    }
  }

  /** Where nothing parses just sixteen endings are tried, and where all parse and none resolves just four. */
  lemma TheBudgetIsExact(o: Oracle, catalog: set<Table>, endings: nat, i: nat)
    requires FailBefore(o, catalog, i)
    ensures (forall j: nat :: j < i ==> Refuses(o, j)) ==> (Tried(o, catalog, endings, i) <==> i < endings && i < 16)
    ensures (forall j: nat :: j < i ==> !Refuses(o, j)) ==> (Tried(o, catalog, endings, i) <==> i < endings && i < 4)
  {
    hide FailBefore, Refuses;
    if forall j: nat :: j < i ==> Refuses(o, j) {
      AllRefused(o, i);
    }
    if forall j: nat :: j < i ==> !Refuses(o, j) {
      NoneRefusedBefore(o, i);
    }
  }

  /** What is asked for is never what the catalog already tells of. */
  lemma NeedsAreNew(o: Oracle, catalog: set<Table>, endings: nat, tables: set<Table>)
    requires IsOutcome(o, catalog, endings, Needs(tables))
    ensures tables != {} && tables !! catalog
  {}

  // ---- the rounds of one completion ----

  type Parser = nat -> Parse
  type Analyzer = (nat, nat) -> Option<string>

  /** A round that asks for tables. What the analyzer says depends on the catalog, and so on the round. */
  datatype Round = Round(analyze: Analyzer, catalog: set<Table>, needs: set<Table>)

  ghost predicate Asks(parse: Parser, endings: nat, round: Round) {
    IsOutcome(Oracle(parse, round.analyze), round.catalog, endings, Needs(round.needs))
  }

  ghost predicate Answers(round: Round, next: Round) {
    round.catalog + round.needs <= next.catalog
  }

  /** Rounds on one statement, each asking for tables the next has in its catalog. */
  ghost predicate AskInTurn(parse: Parser, endings: nat, rounds: seq<Round>) {
    && (forall r :: 0 <= r < |rounds| ==> Asks(parse, endings, rounds[r]))
    && (forall r :: 0 < r < |rounds| ==> Answers(rounds[r - 1], rounds[r]))
  }

  /** Ending `i` is the one a round asks for. */
  ghost predicate AsksFor(parse: Parser, endings: nat, round: Round, i: nat) {
    && Tried(Oracle(parse, round.analyze), round.catalog, endings, i) && parse(i).Parsed?
    && round.needs == Missing(parse(i).names, round.catalog) != {}
  }

  function ParsedBefore(parse: Parser, n: nat): nat {
    if n == 0 then 0 else ParsedBefore(parse, n - 1) + (if parse(n - 1).Parsed? then 1 else 0)
  }

  lemma {:induction false} ParsedOrRefused(o: Oracle, n: nat)
    ensures RefusedBefore(o, n) + ParsedBefore(o.parse, n) == n
  {
    if n > 0 {
      ParsedOrRefused(o, n - 1);
    }
  }

  lemma {:induction false} ParsedStayParsed(parse: Parser, m: nat, n: nat)
    requires m < n && parse(m).Parsed?
    ensures ParsedBefore(parse, m) < ParsedBefore(parse, n)
  {
    if m + 1 < n {
      ParsedStayParsed(parse, m, n - 1);
    }
  }

  lemma NamesAreAnswered(asked: seq<Option<Table>>, names: seq<Option<Table>>, catalog: set<Table>, next: set<Table>)
    requires forall name <- names :: name in asked
    requires catalog + Missing(asked, catalog) <= next
    ensures Missing(names, next) == {}
  {
    forall name | name in names && name.Some?
      ensures name.value in next
    {
      if name.value !in catalog {
        assert name.value in Missing(asked, catalog);
      }
    }
  }

  /** Up to the ending a round asks for, none that parses names a table the next round lacks. */
  lemma NothingLeftUpTo(parse: Parser, endings: nat, a: Round, i: nat, b: Round, j: nat)
    requires AsksFor(parse, endings, a, i) && Answers(a, b) && j <= i && parse(j).Parsed?
    ensures Missing(parse(j).names, b.catalog) == {}
  {
    hide Resolves;
    assert j < i ==> Fails(Oracle(parse, a.analyze), a.catalog, j);
    NamesAreAnswered(parse(j).names, parse(j).names, a.catalog, b.catalog);
  }

  /** So the next round asks for a shorter one. */
  lemma AsksForShorter(parse: Parser, endings: nat, a: Round, i: nat, b: Round, j: nat)
    requires AsksFor(parse, endings, a, i) && AsksFor(parse, endings, b, j) && Answers(a, b)
    ensures i < j
  {
    hide Tried, Missing, Answers;
    if j <= i {
      NothingLeftUpTo(parse, endings, a, i, b, j);
    }
  }

  lemma {:induction false} LastAsksFor(parse: Parser, endings: nat, rounds: seq<Round>) returns (i: nat)
    requires AskInTurn(parse, endings, rounds) && rounds != []
    ensures AsksFor(parse, endings, rounds[|rounds| - 1], i)
    ensures ParsedBefore(parse, i) >= |rounds| - 1
    decreases |rounds|
  {
    hide IsOutcome, Tried, Answers, ParsedBefore;
    var n := |rounds| - 1;
    assert Asks(parse, endings, rounds[n]);
    i := AskedFor(parse, endings, rounds[n]);
    if n > 0 {
      var before := LastAsksFor(parse, endings, rounds[..n]);
      AsksForShorter(parse, endings, rounds[n - 1], before, rounds[n], i);
      ParsedStayParsed(parse, before, i);
    }
  }

  lemma AskedFor(parse: Parser, endings: nat, round: Round) returns (i: nat)
    requires Asks(parse, endings, round)
    ensures AsksFor(parse, endings, round, i)
  {
    hide Tried;
    var o := Oracle(parse, round.analyze);
    i :| Tried(o, round.catalog, endings, i) && !Refuses(o, i)
         && round.needs == Missing(o.parse(i).names, round.catalog) != {};
  }

  /** However the analyzer answers, no more than four rounds of a completion ask for tables. */
  lemma FewRoundsAsk(parse: Parser, endings: nat, rounds: seq<Round>)
    requires AskInTurn(parse, endings, rounds)
    ensures |rounds| <= 4
  {
    if rounds != [] {
      var i := LastAsksFor(parse, endings, rounds);
      ParsedOrRefused(Oracle(parse, rounds[|rounds| - 1].analyze), i);
    }
  }

  /** What a shorter ending names, each longer one that parses names too. */
  ghost predicate ShorterNamesFewer(parse: Parser) {
    forall i: nat, j: nat :: i < j && parse(i).Parsed? && parse(j).Parsed? ==>
      forall name <- parse(j).names :: name in parse(i).names
  }

  /** Where that is so one round asks, for every table there is to ask for. */
  lemma OneRoundAsks(parse: Parser, endings: nat, rounds: seq<Round>)
    requires AskInTurn(parse, endings, rounds) && ShorterNamesFewer(parse)
    ensures |rounds| <= 1
  {
    hide IsOutcome, Tried;
    if |rounds| > 1 {
      assert Asks(parse, endings, rounds[0]) && Asks(parse, endings, rounds[1]);
      var i := AskedFor(parse, endings, rounds[0]);
      var j := AskedFor(parse, endings, rounds[1]);
      AsksForShorter(parse, endings, rounds[0], i, rounds[1], j);
      NamesAreAnswered(parse(i).names, parse(j).names, rounds[0].catalog, rounds[1].catalog);
    }
  }

  /** The tables a connection's catalog is known to hold, or known not to be there. */
  function Told(catalog: Registries.Catalog, id: string): set<Table> {
    Registries.TablesOf(catalog, id).Keys
  }

  /** The answers to what a round asks for, learned in turn: every table of it, and any others that come in between. */
  ghost predicate Learns(round: Round, learned: seq<(Table, Registries.Known)>) {
    forall table <- round.needs :: exists k :: 0 <= k < |learned| && learned[k].0 == table
  }

  /**
   * The rounds of one completion: each is sent what is known by then, and what
   * it asks for is learned before the next, under one count of forgettings.
   */
  ghost predicate IsCompletion(parse: Parser, endings: nat, id: string, generation: nat, rounds: seq<Round>,
                               catalogs: seq<Registries.Catalog>, learned: seq<seq<(Table, Registries.Known)>>)
  {
    && |catalogs| == |learned| == |rounds|
    && (forall r :: 0 <= r < |rounds| ==> Asks(parse, endings, rounds[r]) && rounds[r].catalog == Told(catalogs[r], id))
    && (forall r :: 0 < r < |rounds| ==> Follows(id, generation, rounds[r - 1], catalogs[r - 1], learned[r - 1], catalogs[r]))
  }

  ghost predicate Follows(id: string, generation: nat, round: Round, catalog: Registries.Catalog,
                          learned: seq<(Table, Registries.Known)>, next: Registries.Catalog)
  {
    && Registries.Count(catalog.forgotten, id) == generation && Learns(round, learned)
    && next == Registries.AfterLearningAll(catalog, id, generation, learned)
  }

  /** What a round asked for is in the next one's catalog, with all that was there. */
  lemma LearningAnswers(id: string, generation: nat, round: Round, catalog: Registries.Catalog,
                        learned: seq<(Table, Registries.Known)>, next: Registries.Catalog, after: Round)
    requires Follows(id, generation, round, catalog, learned, next)
    requires round.catalog == Told(catalog, id) && after.catalog == Told(next, id)
    ensures Answers(round, after)
  {
    hide Registries.AfterLearningAll;
    Registries.AllLearnedIsTold(catalog, id, generation, learned);
    forall table | table in round.catalog + round.needs
      ensures table in after.catalog
    {
      if table in round.catalog {
        assert Registries.Told(catalog, id, table).Some?;
      } else {
        var k :| 0 <= k < |learned| && learned[k].0 == table;
      }
      assert Registries.Told(next, id, table).Some?;
    }
  }

  /** So no completion, while its connection is not forgotten, has more than four rounds that ask. */
  lemma CompletionsAreShort(parse: Parser, endings: nat, id: string, generation: nat, rounds: seq<Round>,
                            catalogs: seq<Registries.Catalog>, learned: seq<seq<(Table, Registries.Known)>>)
    requires IsCompletion(parse, endings, id, generation, rounds, catalogs, learned)
    ensures AskInTurn(parse, endings, rounds) && |rounds| <= 4
  {
    hide Asks, Answers, Follows;
    forall r | 0 < r < |rounds|
      ensures Answers(rounds[r - 1], rounds[r])
    {
      LearningAnswers(id, generation, rounds[r - 1], catalogs[r - 1], learned[r - 1], catalogs[r], rounds[r]);
    }
    FewRoundsAsk(parse, endings, rounds);
  }

  // ---- a parser for which three rounds are too few ----

  const ROUNDS := 3

  function NthTable(i: nat): Table {
    ("project", "dataset", Repeat('t', i))
  }

  function NamesNth(i: nat): Parse {
    Parsed([Some(NthTable(i))])
  }

  function NothingFits(i: nat, p: nat): Option<string> {
    Some("no")
  }

  function TablesBefore(n: nat): set<Table> {
    if n == 0 then {} else TablesBefore(n - 1) + {NthTable(n - 1)}
  }

  function NthRound(r: nat): Round {
    Round(NothingFits, TablesBefore(r), {NthTable(r)})
  }

  function NthRounds(): (rounds: seq<Round>)
    ensures |rounds| == ANALYSES && forall r :: 0 <= r < ANALYSES ==> rounds[r] == NthRound(r)
  {
    seq(ANALYSES, r requires 0 <= r => NthRound(r))
  }

  lemma {:induction false} TablesDiffer(n: nat, i: nat)
    ensures NthTable(i) in TablesBefore(n) <==> i < n
  {
    if n > 0 {
      TablesDiffer(n - 1, i);
      RepeatIsLong('t', i);
      RepeatIsLong('t', n - 1);
    }
  }

  lemma {:induction false} RepeatIsLong(c: char, n: nat)
    ensures |Repeat(c, n)| == n
  {
    if n > 0 {
      RepeatIsLong(c, n - 1);
    }
  }

  lemma {:induction false} NoneRefused(o: Oracle, n: nat)
    requires forall i: nat :: o.parse(i).Parsed?
    ensures RefusedBefore(o, n) == 0
  {
    if n > 0 {
      NoneRefused(o, n - 1);
    }
  }

  lemma NthAsks(r: nat)
    requires r < ANALYSES
    ensures Asks(NamesNth, ANALYSES, NthRound(r))
  {
    var o := Oracle(NamesNth, NothingFits);
    NoneRefused(o, r);
    forall j: nat | j < r
      ensures Fails(o, TablesBefore(r), j)
    {
      TablesDiffer(r, j);
    }
    TablesDiffer(r, r);
    assert {NthTable(r)} == Missing(o.parse(r).names, TablesBefore(r));
    assert Tried(o, TablesBefore(r), ANALYSES, r);
  }

  /**
   * Four is not one too many: with a parser that finds in each ending a table
   * no longer one names, and with nothing going wrong, the rounds there are run
   * out before the last is asked for.
   */
  lemma FourRoundsCanAsk()
    ensures AskInTurn(NamesNth, 4, NthRounds()) && |NthRounds()| == 4 > ROUNDS
  {
    hide Asks, Answers, NthRound;
    var rounds := NthRounds();
    forall r | 0 <= r < ANALYSES
      ensures Asks(NamesNth, ANALYSES, rounds[r])
    {
      NthAsks(r);
    }
    forall r | 0 < r < ANALYSES
      ensures Answers(rounds[r - 1], rounds[r])
    {
      NthAnswers(r);
    }
  }

  lemma NthAnswers(r: nat)
    requires r > 0
    ensures Answers(NthRound(r - 1), NthRound(r))
  {}

  /**
   * The complaint is the whole statement's own exactly when the statement does
   * not close more parentheses than it opens: else it is of a cut one.
   */
  lemma FirstIsTheStatement(cuts: seq<Cut>)
    requires Ascending(cuts) && cuts != [] && EndingsOf(cuts) != []
    ensures EndingsOf(cuts)[0] == Ending(cuts[|cuts| - 1], false) <==> cuts[|cuts| - 1].open >= 0
  {
    EndingsKeepLess(cuts);
    assert EndingsOf(cuts)[0] in EndingsOf(cuts);
  }

  /** `SELECT a) FROM t` */
  const OVERCLOSED: seq<Token> :=
    [Token(Keyword, "SELECT", 0, 6), Token(Identifier, "a", 7, 8), Token(Keyword, ")", 8, 9),
     Token(Keyword, "FROM", 10, 14), Token(Identifier, "t", 15, 16)]

  lemma OverclosedTokens()
    ensures WellFormed(OVERCLOSED, 16)
    ensures Closing(OVERCLOSED, 0, 2) == 0 && Closing(OVERCLOSED, 0, |OVERCLOSED|) == 1
  {
    assert forall i :: 0 <= i < 5 && i != 2 ==> Weight(OVERCLOSED[i]) == 0;
    ClosingAdds(OVERCLOSED, 0, 2, 5);
    ClosingAdds(OVERCLOSED, 2, 3, 5);
    WeightlessClosing(OVERCLOSED, 0, 2);
    WeightlessClosing(OVERCLOSED, 3, 5);
  }

  lemma OverclosedPlace(tokens: seq<Token>, place: Place, last: int, before: int)
    requires IsStatement(OVERCLOSED, |OVERCLOSED|, 16, 8, place.statement)
    requires tokens == Within(OVERCLOSED, |OVERCLOSED|, place.statement) && IsPlace(tokens, 8, place, last, before)
    ensures tokens == OVERCLOSED && place.replace.end == 8 && place.statement == Span(0, 16)
  {
    hide SelectListFor, WellFormed, AllCuts, IsMember, Within, Dotted, NameAndDot;
    assert IsStatement(OVERCLOSED, |OVERCLOSED|, 16, 8, Span(0, 16));
    OverclosedTokens();
    StatementIsUnique(OVERCLOSED, 16, 8, place.statement, Span(0, 16));
    AllWithin(OVERCLOSED, |OVERCLOSED|, Span(0, 16));
    assert OVERCLOSED[..5] == OVERCLOSED;
    assert last == 1;
  }

  /**
   * With the cursor after the `a` of `SELECT a) FROM t`, whatever place `Locate`
   * gives there has endings, and the first of them, whose complaint is the one
   * given when none helps, is not the statement.
   */
  lemma ACutIsComplainedOf(tokens: seq<Token>, place: Place, last: int, before: int)
    requires IsStatement(OVERCLOSED, |OVERCLOSED|, 16, 8, place.statement)
    requires tokens == Within(OVERCLOSED, |OVERCLOSED|, place.statement) && IsPlace(tokens, 8, place, last, before)
    ensures place.cuts != [] && place.cuts[|place.cuts| - 1].at == 16
    ensures EndingsOf(place.cuts) != [] && EndingsOf(place.cuts)[0].cut.at < 16
  {
    hide IsStatement, Within, EndingsOf, WellFormed, Closing, SelectListFor, IsMember, Dotted, NameAndDot, IsLast;
    OverclosedPlace(tokens, place, last, before);
    OverclosedTokens();
    assert forall t <- OVERCLOSED :: t.start < t.end <= 16;
    PlaceCuts(tokens, 16, 8, place, last, before);
    EndingsKeepLess(place.cuts);
    assert CutBefore(tokens, place, Cut(8, 0, false), 2);
    assert IsEndingOf(Ending(Cut(8, 0, false), false), place.cuts);
    var whole := place.cuts[|place.cuts| - 1];
    assert whole == Cut(16, -1, JoinsName(tokens, 4, 8));
    assert EndingsOf(place.cuts)[0] in EndingsOf(place.cuts);
  }
}
