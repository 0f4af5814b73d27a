/**
 * What filling a template in keeps: `filledIn` of
 * `src/features/query-templates/variables.ts` as a whole.
 */
module TemplateTheorems {
  import opened Basics
  import opened Chars
  import opened TemplateScanner
  import opened TemplateLocality
  import opened TemplateLiterals
  import opened TemplateFilling
  import opened TemplateSeams
  import opened TemplateJoins

  // ---- what is beside a blank ----

  /** A blank's neighbourhood: the blank it touches, up to two characters behind, its name, and the character ahead. */
  datatype Neighbourhood = Neighbourhood(blankBehind: Option<string>, behind: string, name: string, ahead: string)

  /** The last two characters before a place, or what there is. */
  function BehindOf(sql: string, at: nat): string {
    if at > |sql| then "" else if at < 2 then sql[..at] else sql[at - 2..at]
  }

  /** The character at a place, if there is one. */
  function AheadOf(sql: string, at: nat): string {
    if at < |sql| then [sql[at]] else ""
  }

  function NeighbourhoodOf(sql: string, blanks: seq<Blank>, i: nat): Neighbourhood
    requires i < |blanks|
  {
    var b := blanks[i];
    var touched := i > 0 && blanks[i - 1].end == b.start;
    Neighbourhood(if touched then Some(blanks[i - 1].name) else None, BehindOf(sql, b.start), b.name, AheadOf(sql, b.end))
  }

  /**
   * Whether any value can be written there. PostgreSQL: not after an `e` that
   * is all of a word, before a dollar, or for an `e` that makes the string
   * after it an escape string. GoogleSQL: not where two quotes and a third can
   * meet. In neither right after another blank, whose name would go on.
   */
  predicate Fits(driver: Driver, n: Neighbourhood) {
    n.blankBehind.None? && FitsBeside(driver, n.behind, n.name, n.ahead)
  }

  predicate FitsBeside(driver: Driver, behind: string, name: string, ahead: string) {
    && FitsAhead(driver, name, ahead)
    && match driver
       case Postgres => !LoneE(behind, |behind|)
       case BigQuery => !(behind == "''" && ahead != "")
  }

  predicate FitsAhead(driver: Driver, name: string, ahead: string) {
    match driver
    case Postgres => ahead != "$" && !(ahead == "'" && name in {"e", "E"})
    case BigQuery => ahead != "'"
  }

  /** A blank may also touch one behind that takes a value too: in PostgreSQL, and at a GoogleSQL statement's end. */
  predicate FitsAmong(driver: Driver, values: Values, n: Neighbourhood) {
    || Fits(driver, n)
    || (n.blankBehind.Some? && n.blankBehind.value in values && FitsTouching(driver, n.name, n.ahead))
  }

  predicate FitsTouching(driver: Driver, name: string, ahead: string) {
    FitsAhead(driver, name, ahead) && (driver.BigQuery? ==> ahead == "")
  }

  /** Every blank that takes a value takes no raw SQL, and is where any other value can be written. */
  ghost predicate Safe(sql: string, driver: Driver, values: Values) {
    AllFit(sql, driver, values, Blanks(sql, driver))
  }

  ghost predicate AllFit(sql: string, driver: Driver, values: Values, blanks: seq<Blank>) {
    forall i :: 0 <= i < |blanks| && blanks[i].name in values ==>
      Spliceable(values[blanks[i].name]) && FitsAmong(driver, values, NeighbourhoodOf(sql, blanks, i))
  }

  /** `touched` is whether the blank starts where another that takes a value ends. */
  ghost predicate BlankFits(sql: string, driver: Driver, values: Values, touched: bool, b: Blank) {
    b.name in values ==>
      && Spliceable(values[b.name]) && FitsAhead(driver, b.name, AheadOf(sql, b.end))
      && if touched then FitsTouching(driver, b.name, AheadOf(sql, b.end))
         else FitsBeside(driver, BehindOf(sql, b.start), b.name, AheadOf(sql, b.end))
  }

  /** The same along the scan. */
  ghost predicate ScanFits(sql: string, driver: Driver, values: Values, touched: bool, at: nat)
    requires at <= |sql|
    decreases |sql| - at
  {
    at == |sql| ||
    (&& (IsBlank(sql, at) ==> BlankFits(sql, driver, values, touched, BlankAt(sql, at)))
     && (IsBlank(sql, at) && !Takes(sql, values, at) ==> !Takes(sql, values, Next(sql, driver, at)))
     && ScanFits(sql, driver, values, Takes(sql, values, at), Next(sql, driver, at)))
  }

  /** Whether the blank before the `k`th takes a value and ends at a place. */
  ghost predicate Touched(values: Values, blanks: seq<Blank>, k: nat, at: nat) {
    0 < k <= |blanks| && blanks[k - 1].end == at && blanks[k - 1].name in values
  }

  lemma BlankFitsHere(sql: string, driver: Driver, values: Values, blanks: seq<Blank>, k: nat)
    requires k < |blanks| && AllFit(sql, driver, values, blanks)
    ensures BlankFits(sql, driver, values, Touched(values, blanks, k, blanks[k].start), blanks[k])
    ensures k + 1 < |blanks| && blanks[k].end == blanks[k + 1].start && blanks[k].name !in values ==>
              blanks[k + 1].name !in values
  {
    hide Spliceable, BehindOf, AheadOf, LoneE;
    assert blanks[k].name in values ==> FitsAmong(driver, values, NeighbourhoodOf(sql, blanks, k));
    assert k + 1 < |blanks| && blanks[k + 1].name in values ==>
        FitsAmong(driver, values, NeighbourhoodOf(sql, blanks, k + 1));
  }

  lemma {:induction false} SafeAlongTheScan(sql: string, driver: Driver, values: Values, at: nat, k: nat)
    requires Safe(sql, driver, values)
    requires at <= |sql| && k <= |Blanks(sql, driver)| && BlanksFrom(sql, driver, at) == Blanks(sql, driver)[k..]
    requires k > 0 ==> Blanks(sql, driver)[k - 1].end <= at
    ensures ScanFits(sql, driver, values, Touched(values, Blanks(sql, driver), k, at), at)
    decreases |sql| - at
  {
    hide Next, IsBlank, BlankAt, AllFit, BlankFits, Blanks;
    if at < |sql| {
      var next := Next(sql, driver, at);
      var blanks := Blanks(sql, driver);
      BlanksTurn(sql, driver, at);
      if IsBlank(sql, at) {
        BlankPlace(sql, at);
        BlankEnds(sql, driver, at);
        assert blanks[k..][0] == blanks[k] == BlankAt(sql, at) && blanks[k + 1..] == blanks[k..][1..];
        BlankFitsHere(sql, driver, values, blanks, k);
        NextIsTaken(sql, driver, values, at, k);
        SafeAlongTheScan(sql, driver, values, next, k + 1);
      } else {
        SafeAlongTheScan(sql, driver, values, next, k);
      }
    }
  }

  /** What comes after a blank and takes a value touches it. */
  lemma NextIsTaken(sql: string, driver: Driver, values: Values, at: nat, k: nat)
    requires IsBlank(sql, at) && k < |Blanks(sql, driver)| && BlanksFrom(sql, driver, at) == Blanks(sql, driver)[k..]
    requires Blanks(sql, driver)[k].end == Next(sql, driver, at)
    ensures var next := Next(sql, driver, at);
      Takes(sql, values, next) ==>
        k + 1 < |Blanks(sql, driver)| && Blanks(sql, driver)[k + 1].start == next
        && Blanks(sql, driver)[k + 1].name in values
  {
    hide Next, Blanks;
    var next := Next(sql, driver, at);
    BlanksTurn(sql, driver, at);
    if Takes(sql, values, next) {
      BlanksTurn(sql, driver, next);
      BlankPlace(sql, next);
      assert Blanks(sql, driver)[k + 1] == Blanks(sql, driver)[k..][1] == BlankAt(sql, next);
    }
  }

  /** Where the next blank that takes a value starts, or the end of the statement. */
  ghost function NextTaken(sql: string, driver: Driver, values: Values, at: nat): (taken: nat)
    requires at <= |sql|
    ensures at <= taken <= |sql|
    ensures taken < |sql| ==> Takes(sql, values, taken)
    decreases |sql| - at
  {
    if at == |sql| || Takes(sql, values, at) then at
    else NextTaken(sql, driver, values, Next(sql, driver, at))
  }

  /** The blanks left, each moved by how much longer what is before it has become. */
  function Remaining(blanks: seq<Blank>, driver: Driver, values: Values, shift: int): seq<(string, int, int)> {
    if blanks == [] then []
    else
      var b := blanks[0];
      if b.name in values then
        Remaining(blanks[1..], driver, values, shift + |Written(values[b.name], driver)| - (b.end - b.start))
      else
        [(b.name, b.start + shift, b.end + shift)] + Remaining(blanks[1..], driver, values, shift)
  }

  function Places(blanks: seq<Blank>): seq<(string, int, int)> {
    if blanks == [] then []
    else [(blanks[0].name, blanks[0].start as int, blanks[0].end as int)] + Places(blanks[1..])
  }

  lemma {:induction false} UntakenIsKept(sql: string, driver: Driver, values: Values, at: nat)
    requires at <= |sql|
    ensures var taken := NextTaken(sql, driver, values, at);
      ScanFilled(sql, driver, values, at) == sql[at..taken] + ScanFilled(sql, driver, values, taken)
    decreases |sql| - at
  {
    hide Next, Takes, Written;
    if at < |sql| && !Takes(sql, values, at) {
      var next, taken := Next(sql, driver, at), NextTaken(sql, driver, values, at);
      UntakenIsKept(sql, driver, values, next);
      assert sql[at..taken] == sql[at..next] + sql[next..taken];
      Associates(sql[at..next], sql[next..taken], ScanFilled(sql, driver, values, taken));
    }
  }

  lemma BlankEnds(sql: string, driver: Driver, at: nat)
    requires IsBlank(sql, at)
    ensures BlankAt(sql, at).end == Next(sql, driver, at) && IsNameChar(sql[Next(sql, driver, at) - 1])
    ensures Next(sql, driver, at) < |sql| ==> !IsNameChar(sql[Next(sql, driver, at)])
  {
    BlankTurn(sql, driver, at);
  }

  lemma TakesIsBlank(sql: string, values: Values, at: nat)
    requires Takes(sql, values, at)
    ensures IsBlank(sql, at) && BlankAt(sql, at).start == at && BlankAt(sql, at).name in values
  {}

  /** The blank that takes a value next is touched only if it is the one here. */
  lemma {:induction false} TakenFits(sql: string, driver: Driver, values: Values, touched: bool, at: nat)
    requires at <= |sql| && ScanFits(sql, driver, values, touched, at)
    ensures var taken := NextTaken(sql, driver, values, at);
      ScanFits(sql, driver, values, touched && taken == at, taken)
    decreases |sql| - at
  {
    hide Next, Takes, BlankFits;
    if at < |sql| && !Takes(sql, values, at) {
      TakenFits(sql, driver, values, false, Next(sql, driver, at));
    }
  }

  // ---- a value in its place ----

  /** What follows a blank that takes a value is what the template has there, unless that is such a blank too. */
  lemma AfterTaken(sql: string, driver: Driver, values: Values, at: nat)
    requires at < |sql| && !Takes(sql, values, Next(sql, driver, at))
    ensures AheadOf(ScanFilled(sql, driver, values, Next(sql, driver, at)), 0) == AheadOf(sql, Next(sql, driver, at))
  {
    hide Next, Takes;
    var next := Next(sql, driver, at);
    if next == |sql| {
      ScanFilledEnd(sql, driver, values);
    } else {
      ScanFilledTurn(sql, driver, values, next);
    }
  }

  /** And then it is a value: in GoogleSQL the last thing there is. */
  lemma AfterTakenTaken(sql: string, driver: Driver, values: Values, touched: bool, at: nat)
    requires at < |sql| && Takes(sql, values, at) && ScanFits(sql, driver, values, touched, at)
    requires Takes(sql, values, Next(sql, driver, at))
    ensures var rest := ScanFilled(sql, driver, values, Next(sql, driver, at));
      && rest != "" && LiteralStart(rest[0])
      && (driver.BigQuery? && rest[0] == '\'' ==> exists text :: rest == Literal(text, BigQuery))
  {
    hide Next, IsBlank, FitsBeside, Spliceable, Written, Literal, LiteralStart, NameEnd;
    var next := Next(sql, driver, at);
    var value := values[BlankAt(sql, next).name];
    TakesIsBlank(sql, values, next);
    WrittenStarts(value, driver);
    ScanFilledTurn(sql, driver, values, next);
    if driver.BigQuery? && value.kind.Text? {
      BlankEnds(sql, driver, next);
      ScanFilledEnd(sql, driver, values);
      TextIsWritten(value, driver);
      assert Written(value, driver) + "" == Written(value, driver);
    }
  }

  /** At `bt` of the filled statement is the value of the blank at `at`, with room for it. */
  ghost predicate InPlace(sql: string, driver: Driver, values: Values, at: nat, full: string, bt: nat, value: Value)
    requires at < |sql|
  {
    var end := bt + |Written(value, driver)|;
    && Spliceable(value) && StartsWith(full, Written(value, driver), bt) && FreeAhead(full, driver, end)
    && full[end..] == ScanFilled(sql, driver, values, Next(sql, driver, at))
    && (!Takes(sql, values, Next(sql, driver, at)) ==> AheadOf(full, end) == AheadOf(sql, Next(sql, driver, at)))
  }

  lemma TakenIsInPlace(sql: string, driver: Driver, values: Values, touched: bool, at: nat, full: string, bt: nat)
    requires at < |sql| && Takes(sql, values, at) && ScanFits(sql, driver, values, touched, at)
    requires bt <= |full| && full[bt..] == ScanFilled(sql, driver, values, at)
    ensures InPlace(sql, driver, values, at, full, bt, values[BlankAt(sql, at).name])
  {
    hide Next, Written, Spliceable, IsBlank, NameEnd, BlankFits, FreeAhead, LiteralStart, Takes;
    TakesIsBlank(sql, values, at);
    var next, value := Next(sql, driver, at), values[BlankAt(sql, at).name];
    var written, rest := Written(value, driver), ScanFilled(sql, driver, values, next);
    var end := bt + |written|;
    ScanFilledTurn(sql, driver, values, at);
    assert full[bt..] == written + rest;
    assert full[bt..end] == full[bt..][..|written|] == written;
    assert full[end..] == full[bt..][|written|..] == rest;
    assert end < |full| ==> full[end] == full[end..][0];
    if Takes(sql, values, next) {
      AfterTakenTaken(sql, driver, values, touched, at);
      NoDollarStarts(full[end]);
      FreeBefore(full, driver, end);
    } else {
      AfterTaken(sql, driver, values, at);
      RoomAhead(sql, driver, values, touched, at, full, end);
    }
    TakenIsSpliceable(sql, driver, values, touched, at);
  }

  lemma TakenIsSpliceable(sql: string, driver: Driver, values: Values, touched: bool, at: nat)
    requires at < |sql| && Takes(sql, values, at) && ScanFits(sql, driver, values, touched, at)
    ensures Spliceable(values[BlankAt(sql, at).name]) && BlankFits(sql, driver, values, touched, BlankAt(sql, at))
  {
    hide Next, IsBlank, Spliceable;
  }

  lemma FreeBefore(full: string, driver: Driver, end: nat)
    requires !CharAt(full, end, '$') && (driver.BigQuery? ==> QuoteIsLast(full, end))
    ensures FreeAhead(full, driver, end)
  {}

  lemma RoomAhead(sql: string, driver: Driver, values: Values, touched: bool, at: nat, full: string, end: nat)
    requires at < |sql| && Takes(sql, values, at) && ScanFits(sql, driver, values, touched, at)
    requires AheadOf(full, end) == AheadOf(sql, Next(sql, driver, at))
    ensures FreeAhead(full, driver, end)
  {
    hide Next, LoneE, Spliceable;
    BlankEnds(sql, driver, at);
    var next := Next(sql, driver, at);
    if end < |full| {
      assert [full[end]] == AheadOf(sql, next);
      assert next < |sql| && full[end] == sql[next];
    }
  }

  /** PostgreSQL: the name that a value, or several in a row, start or end has no dollar after it. */
  lemma {:induction false} NoDollarAfter(sql: string, values: Values, touched: bool, at: nat, full: string, bt: nat)
    requires at < |sql| && Takes(sql, values, at) && ScanFits(sql, Postgres, values, touched, at)
    requires bt <= |full| && full[bt..] == ScanFilled(sql, Postgres, values, at)
    ensures !CharAt(full, NameRun(full, bt), '$')
    decreases |sql| - at
  {
    hide Next, Written, Spliceable, IsBlank, NameRun, ScanFilled, BlankFits, Takes;
    TakesIsBlank(sql, values, at);
    var value := values[BlankAt(sql, at).name];
    var next, end := Next(sql, Postgres, at), bt + |Written(value, Postgres)|;
    TakenIsInPlace(sql, Postgres, values, touched, at, full, bt);
    WrittenRunEnds(full, bt, value);
    if Takes(sql, values, next) {
      TakesIsBlank(sql, values, next);
      NoDollarAfter(sql, values, true, next, full, end);
    } else {
      NoNameAfter(sql, Postgres, values, at, full, end);
    }
  }

  lemma NoNameAfter(sql: string, driver: Driver, values: Values, at: nat, full: string, end: nat)
    requires at < |sql| && Takes(sql, values, at) && end <= |full|
    requires AheadOf(full, end) == AheadOf(sql, Next(sql, driver, at))
    ensures NameRun(full, end) == end
  {
    hide Next;
    BlankEnds(sql, driver, at);
    assert end < |full| ==> [full[end]] == AheadOf(sql, Next(sql, driver, at));
  }

  // ---- both scans in step ----

  predicate WordBehind(sql: string, at: nat) {
    1 <= at <= |sql| && IsWordChar(sql[at - 1])
  }

  /** PostgreSQL: behind the two places is the same as far as the turn here, or the next one, asks. */
  ghost predicate BehindAlike(sql: string, values: Values, at: nat, full: string, bt: nat) {
    && (Takes(sql, values, at) ==> !LoneE(full, bt))
    && (CharAt(sql, at, '\'') ==> (LoneE(sql, at) <==> LoneE(full, bt)))
    && (CharAt(sql, at, 'e') || CharAt(sql, at, 'E') ==> (WordBehind(sql, at) <==> WordBehind(full, bt)))
  }

  /** Where the scan of a template is, and where the scan of what it was filled into is. */
  ghost predicate InStep(sql: string, driver: Driver, values: Values, touched: bool, at: nat, full: string, bt: nat) {
    && at <= |sql| && bt <= |full| && full[bt..] == ScanFilled(sql, driver, values, at)
    && ScanFits(sql, driver, values, touched, at) && (driver.Postgres? ==> BehindAlike(sql, values, at, full, bt))
  }

  /** What is still to come of the filled statement agrees with the template up to the next value. */
  lemma WindowToNextTaken(sql: string, driver: Driver, values: Values, touched: bool, at: nat, full: string, bt: nat)
    requires at <= |sql| && bt <= |full| && full[bt..] == ScanFilled(sql, driver, values, at)
    requires ScanFits(sql, driver, values, touched, at)
    ensures var taken := NextTaken(sql, driver, values, at);
      && Window(sql, full, bt - at, at, taken)
      && full[taken + bt - at..] == ScanFilled(sql, driver, values, taken)
      && ScanFits(sql, driver, values, touched && taken == at, taken)
  {
    hide Next, Takes, ScanFilled, NextTaken, ScanFits;
    var d := bt - at;
    var taken := NextTaken(sql, driver, values, at);
    var rest := ScanFilled(sql, driver, values, taken);
    UntakenIsKept(sql, driver, values, at);
    TakenFits(sql, driver, values, touched, at);
    assert full[bt..] == sql[at..taken] + rest;
    assert |full| == taken + d + |rest|;
    assert full[taken + d..] == full[bt..][taken - at..] == rest;
    forall i {:trigger sql[i]} | at <= i < taken
      ensures sql[i] == full[i + d]
    {
      assert full[bt..][i - at] == sql[at..taken][i - at];
    }
    if taken < |sql| {
      TakenIsThere(sql, driver, values, touched && taken == at, taken);
    } else {
      ScanFilledEnd(sql, driver, values);
    }
  }

  lemma TakenIsThere(sql: string, driver: Driver, values: Values, touched: bool, taken: nat)
    requires taken < |sql| && Takes(sql, values, taken) && ScanFits(sql, driver, values, touched, taken)
    ensures ScanFilled(sql, driver, values, taken) != ""
  {
    hide Next, Written, ScanFilled, Spliceable, FitsBeside, FitsAhead;
    WrittenStarts(values[BlankAt(sql, taken).name], driver);
    ScanFilledTurn(sql, driver, values, taken);
  }

  /** The turn before a blank that takes a value, and the value, make a joint. */
  lemma TakenJoins(sql: string, driver: Driver, values: Values, at: nat, full: string, bt: nat, taken: nat)
    requires Window(sql, full, bt - at, at, taken) && at < taken < |sql|
    requires Takes(sql, values, taken) && ScanFits(sql, driver, values, false, taken)
    requires full[taken + bt - at..] == ScanFilled(sql, driver, values, taken)
    ensures Joint(sql, full, bt - at, at, taken) && Joins(full, driver, bt, taken + bt - at)
  {
    hide Next, Written, Spliceable, IsBlank, NameRun, ScanFilled, Literal, FreeAhead, LiteralStart;
    var d := bt - at;
    var value := values[BlankAt(sql, taken).name];
    TakesIsBlank(sql, values, taken);
    TakenIsInPlace(sql, driver, values, false, taken, full, taken + d);
    TakenIsSpliceable(sql, driver, values, false, taken);
    WrittenStarts(value, driver);
    CharOf(full, Written(value, driver), taken + d, 0);
    if driver.Postgres? {
      NoDollarAfter(sql, values, false, taken, full, taken + d);
    } else if taken == at + 2 && full[bt] == full[bt + 1] == full[taken + d] == '\'' {
      QuotesBehind(sql, full, d, at, taken);
      BlankEnds(sql, driver, taken);
      TextIsWritten(value, driver);
      OnlyTheValue(sql, driver, values, taken, full, taken + d, value);
    }
  }

  lemma QuotesBehind(sql: string, full: string, d: int, at: nat, taken: nat)
    requires Window(sql, full, d, at, taken) && taken == at + 2 && full[at + d] == full[at + 1 + d] == '\''
    ensures BehindOf(sql, taken) == "''"
  {
    assert sql[at] == '\'' && sql[at + 1] == '\'';
  }

  /** After two quotes GoogleSQL's value is the last of the statement. */
  lemma OnlyTheValue(sql: string, driver: Driver, values: Values, at: nat, full: string, bt: nat, value: Value)
    requires at < |sql| && driver.BigQuery? && InPlace(sql, driver, values, at, full, bt, value)
    requires Takes(sql, values, at) && BlankFits(sql, driver, values, false, BlankAt(sql, at))
    requires BehindOf(sql, at) == "''" && BlankAt(sql, at).end == Next(sql, driver, at) && BlankAt(sql, at).start == at
    ensures full[bt..] == Written(value, driver)
  {
    hide Next, Written, Spliceable, ScanFilled, IsBlank;
    var end := bt + |Written(value, driver)|;
    assert AheadOf(full, end) == "";
    EndOf(full, Written(value, driver), bt);
    assert end == |full|;
    assert full[bt..end] == full[bt..];
  }

  lemma BehindFits(sql: string, driver: Driver, values: Values, at: nat)
    requires at < |sql| && Takes(sql, values, at) && driver.Postgres?
    requires BlankFits(sql, driver, values, false, BlankAt(sql, at))
    ensures !LoneE(sql, at)
  {
    BlankPlace(sql, at);
    var behind := BehindOf(sql, at);
    assert at >= 1 ==> behind[|behind| - 1] == sql[at - 1];
    assert at >= 2 ==> behind[0] == sql[at - 2];
  }

  lemma LoneEAlike(sql: string, values: Values, at: nat, full: string, d: int, hi: nat, next: nat)
    requires Window(sql, full, d, at, hi) && at < next <= hi && BehindAlike(sql, values, at, full, at + d)
    ensures LoneE(sql, next) <==> LoneE(full, next + d)
    ensures WordBehind(sql, next) <==> WordBehind(full, next + d)
  {
    hide Takes, IsWordChar;
    assert sql[next - 1] == full[next - 1 + d];
    if next >= at + 2 {
      assert sql[next - 2] == full[next - 2 + d];
    }
  }

  lemma BehindAfterCopy(sql: string, driver: Driver, values: Values, touched: bool, at: nat, full: string, bt: nat,
                       next: nat)
    requires InStep(sql, driver, values, touched, at, full, bt) && at < next <= NextTaken(sql, driver, values, at)
    requires Window(sql, full, bt - at, at, NextTaken(sql, driver, values, at)) && ScanFits(sql, driver, values, false, next)
    ensures driver.Postgres? ==> BehindAlike(sql, values, next, full, next + bt - at)
  {
    hide Next, IsBlank, LoneE, FitsBeside, FitsAhead, Spliceable, ScanFilled;
    if driver.Postgres? {
      LoneEAlike(sql, values, at, full, bt - at, NextTaken(sql, driver, values, at), next);
      if Takes(sql, values, next) {
        TakesIsBlank(sql, values, next);
        BehindFits(sql, driver, values, next);
      }
    }
  }

  /** An untaken blank's turn is the same turn; after any other untaken turn the scan goes on alike. */
  lemma CopyTurn(sql: string, driver: Driver, values: Values, others: Values, touched: bool, at: nat,
                 full: string, bt: nat)
    requires InStep(sql, driver, values, touched, at, full, bt) && at < |sql| && !Takes(sql, values, at)
    ensures var next, d := Next(sql, driver, at), bt - at;
      && bt < next + d <= |full| && full[bt..next + d] == sql[at..next]
      && (if IsBlank(sql, at) then IsBlank(full, bt) && Next(full, driver, bt) == next + d
          else Skips(full, driver, others, bt, next + d))
      && InStep(sql, driver, values, false, next, full, next + d)
  {
    hide Next, IsBlank, Takes, Skips, Joint, Joins, BehindAlike, BlankFits, ScanFilled;
    var next, d := Next(sql, driver, at), bt - at;
    var taken := NextTaken(sql, driver, values, at);
    WindowToNextTaken(sql, driver, values, touched, at, full, bt);
    EscapesInStep(sql, driver, values, touched, at, full, bt);
    if Inside(sql, next, taken) {
      TurnAlike(sql, full, d, at, taken, driver);
      if !IsBlank(sql, at) {
        SkipsTurn(full, driver, others, bt);
      }
    } else {
      TakenJoins(sql, driver, values, at, full, bt, taken);
      TurnJoins(sql, full, d, at, taken, driver, others);
    }
    BehindAfterCopy(sql, driver, values, touched, at, full, bt, next);
    ScanFilledTurn(sql, driver, values, at);
    assert full[next + d..] == full[bt..][next - at..];
  }

  lemma EscapesInStep(sql: string, driver: Driver, values: Values, touched: bool, at: nat, full: string, bt: nat)
    requires InStep(sql, driver, values, touched, at, full, bt)
    ensures EscapesAlike(driver, sql, at, full, bt)
  {
    hide LoneE, Takes, WordBehind, ScanFilled, ScanFits;
  }

  /** A name of one letter, or of more: an `e` at its end is all of a word only when it is all of the name. */
  lemma LoneEName(sql: string, driver: Driver, at: nat)
    requires IsBlank(sql, at) && LoneE(sql, Next(sql, driver, at))
    ensures BlankAt(sql, at).name in {"e", "E"}
  {
    hide Next;
    BlankEnds(sql, driver, at);
    BlankPlace(sql, at);
    var next := Next(sql, driver, at);
    var name := BlankAt(sql, at).name;
    assert name == sql[at + 1..next] && name[|name| - 1] == sql[next - 1];
    if |name| == 1 {
      assert name == [name[0]];
    }
  }

  lemma BehindAfterTaken(sql: string, driver: Driver, values: Values, touched: bool, at: nat, full: string, end: nat)
    requires at < |sql| && Takes(sql, values, at) && ScanFits(sql, driver, values, touched, at) && driver.Postgres?
    requires !LoneE(full, end)
    ensures BehindAlike(sql, values, Next(sql, driver, at), full, end)
  {
    hide Next, IsBlank, LoneE, Spliceable, Takes;
    TakesIsBlank(sql, values, at);
    BlankEnds(sql, driver, at);
    var next := Next(sql, driver, at);
    if LoneE(sql, next) {
      LoneEName(sql, driver, at);
    }
  }

  lemma TakenTurn(sql: string, driver: Driver, values: Values, others: Values, touched: bool, at: nat,
                  full: string, bt: nat)
    requires InStep(sql, driver, values, touched, at, full, bt) && at < |sql| && Takes(sql, values, at)
    ensures var end := bt + |Written(values[BlankAt(sql, at).name], driver)|;
      && end <= |full| && full[bt..end] == Written(values[BlankAt(sql, at).name], driver)
      && Skips(full, driver, others, bt, end)
      && InStep(sql, driver, values, true, Next(sql, driver, at), full, end)
  {
    hide Next, Written, IsBlank, Spliceable, ScanFilled, Skips, LoneE, FreeAhead, BlankFits;
    TakesIsBlank(sql, values, at);
    var value := values[BlankAt(sql, at).name];
    TakenIsInPlace(sql, driver, values, touched, at, full, bt);
    EndOf(full, Written(value, driver), bt);
    WrittenIsSkipped(full, driver, others, bt, value);
    WrittenEndsNoE(full, driver, bt, value);
    if driver.Postgres? {
      BehindAfterTaken(sql, driver, values, touched, at, full, bt + |Written(value, driver)|);
    }
  }

  /**
   * From two places in step, the filled statement has the blanks the template
   * has left, moved; and filling those with other values gives what filling
   * the template with all of them gives.
   */
  lemma {:induction false} StableFrom(sql: string, driver: Driver, values: Values, others: Values,
                                      touched: bool, at: nat, full: string, bt: nat)
    requires InStep(sql, driver, values, touched, at, full, bt) && values.Keys !! others.Keys
    ensures Places(BlanksFrom(full, driver, bt)) == Remaining(BlanksFrom(sql, driver, at), driver, values, bt - at)
    ensures ScanFilled(full, driver, others, bt) == ScanFilled(sql, driver, values + others, at)
    decreases |sql| - at
  {
    hide Next, Written, IsBlank, InStep, BlankAt;
    InStepEnds(sql, driver, values, touched, at, full, bt);
    if at == |sql| {
      BlanksEnd(sql, driver, at);
      BlanksEnd(full, driver, bt);
    } else if Takes(sql, values, at) {
      var value := values[BlankAt(sql, at).name];
      var next, end := Next(sql, driver, at), bt + |Written(value, driver)|;
      TakenTurn(sql, driver, values, others, touched, at, full, bt);
      StableFrom(sql, driver, values, others, true, next, full, end);
      BlanksTurn(sql, driver, at);
      BlankEnds(sql, driver, at);
      BlankPlace(sql, at);
      assert BlanksFrom(sql, driver, at)[1..] == BlanksFrom(sql, driver, next);
      assert (values + others)[BlankAt(sql, at).name] == value;
    } else {
      StableCopy(sql, driver, values, others, touched, at, full, bt);
    }
  }

  lemma InStepEnds(sql: string, driver: Driver, values: Values, touched: bool, at: nat, full: string, bt: nat)
    requires InStep(sql, driver, values, touched, at, full, bt)
    ensures at <= |sql| && bt <= |full| && (at == |sql| ==> bt == |full|)
  {
    if at == |sql| {
      assert |full[bt..]| == 0;
    }
  }

  lemma SameBlank(sql: string, driver: Driver, at: nat, full: string, bt: nat, d: int)
    requires IsBlank(sql, at) && IsBlank(full, bt) && d == bt - at
    requires Next(full, driver, bt) == Next(sql, driver, at) + d
    requires full[bt..Next(full, driver, bt)] == sql[at..Next(sql, driver, at)]
    ensures var a, b := BlankAt(sql, at), BlankAt(full, bt);
      b.name == a.name && b.start == a.start + d && b.end == a.end + d
  {
    hide Next;
    BlankEnds(sql, driver, at);
    BlankEnds(full, driver, bt);
    var next := Next(sql, driver, at);
    assert sql[at + 1..next] == sql[at..next][1..];
    assert full[bt + 1..next + d] == full[bt..next + d][1..];
  }

  lemma RemainingTurn(blanks: seq<Blank>, driver: Driver, values: Values, shift: int)
    requires blanks != [] && blanks[0].name !in values
    ensures Remaining(blanks, driver, values, shift)
         == [(blanks[0].name, blanks[0].start + shift, blanks[0].end + shift)]
            + Remaining(blanks[1..], driver, values, shift)
  {}

  lemma PlacesTurn(first: Blank, rest: seq<Blank>)
    ensures Places([first] + rest) == [(first.name, first.start as int, first.end as int)] + Places(rest)
  {
    assert ([first] + rest)[1..] == rest;
  }

  lemma {:induction false} StableCopy(sql: string, driver: Driver, values: Values, others: Values,
                                      touched: bool, at: nat, full: string, bt: nat)
    requires InStep(sql, driver, values, touched, at, full, bt) && values.Keys !! others.Keys
    requires at < |sql| && !Takes(sql, values, at)
    ensures Places(BlanksFrom(full, driver, bt)) == Remaining(BlanksFrom(sql, driver, at), driver, values, bt - at)
    ensures ScanFilled(full, driver, others, bt) == ScanFilled(sql, driver, values + others, at)
    decreases |sql| - at, 0
  {
    hide Next, Written, IsBlank, InStep, BlankAt, BlanksFrom, ScanFilled, Places, Remaining;
    var next, d := Next(sql, driver, at), bt - at;
    CopyTurn(sql, driver, values, others, touched, at, full, bt);
    StableFrom(sql, driver, values, others, false, next, full, next + d);
    BlanksTurn(sql, driver, at);
    ScanFilledTurn(sql, driver, values + others, at);
    if IsBlank(sql, at) {
      BlanksTurn(full, driver, bt);
      ScanFilledTurn(full, driver, others, bt);
      var rest, left := BlanksFrom(sql, driver, next), BlanksFrom(full, driver, next + d);
      SameBlank(sql, driver, at, full, bt, d);
      assert ([BlankAt(sql, at)] + rest)[1..] == rest;
      RemainingTurn([BlankAt(sql, at)] + rest, driver, values, d);
      PlacesTurn(BlankAt(full, bt), left);
    } else {
      assert BlanksFrom(sql, driver, at) == BlanksFrom(sql, driver, next);
    }
  }

  // ---- the theorems ----

  lemma FilledInScan(sql: string, driver: Driver, values: Values)
    ensures FilledIn(sql, driver, values) == ScanFilled(sql, driver, values, 0)
  {
    BlanksAreWellPlaced(sql, driver, 0);
    FilledAlongTheScan(sql, driver, values, 0, 0);
    assert sql[0..0] == "";
  }

  lemma StartsInStep(sql: string, driver: Driver, values: Values)
    requires Safe(sql, driver, values)
    ensures InStep(sql, driver, values, false, 0, FilledIn(sql, driver, values), 0)
  {
    hide Next, ScanFilled, FilledIn, AllFit;
    FilledInScan(sql, driver, values);
    SafeAlongTheScan(sql, driver, values, 0, 0);
    var full := FilledIn(sql, driver, values);
    assert full[0..] == full;
  }

  /** The blanks of the filled statement are those that took no value, in order and moved with the text they stand in. */
  ghost predicate Stable(sql: string, driver: Driver, values: Values) {
    Places(Blanks(FilledIn(sql, driver, values), driver)) == Remaining(Blanks(sql, driver), driver, values, 0)
  }

  /** Splicing values in where they fit does not change how the scanner reads the rest. */
  lemma FillingIsStable(sql: string, driver: Driver, values: Values)
    requires Safe(sql, driver, values)
    ensures Stable(sql, driver, values)
  {
    hide ScanFilled, FilledIn, BlanksFrom, InStep, Remaining, Places;
    StartsInStep(sql, driver, values);
    StableFrom(sql, driver, values, map[], false, 0, FilledIn(sql, driver, values), 0);
  }

  /** Filling some blanks now and others later is filling them all at once. */
  lemma FillingInTwoRounds(sql: string, driver: Driver, first: Values, second: Values)
    requires Safe(sql, driver, first) && first.Keys !! second.Keys
    ensures FilledIn(FilledIn(sql, driver, first), driver, second) == FilledIn(sql, driver, first + second)
  {
    hide ScanFilled, FilledIn;
    var full := FilledIn(sql, driver, first);
    StartsInStep(sql, driver, first);
    StableFrom(sql, driver, first, second, false, 0, full, 0);
    FilledInScan(full, driver, second);
    FilledInScan(sql, driver, first + second);
  }

  lemma {:induction false} RemainingHaveNoValue(blanks: seq<Blank>, driver: Driver, values: Values, shift: int)
    ensures forall p <- Remaining(blanks, driver, values, shift) :: p.0 !in values
  {
    if blanks != [] {
      var b := blanks[0];
      RemainingHaveNoValue(blanks[1..], driver, values,
        if b.name in values then shift + |Written(values[b.name], driver)| - (b.end - b.start) else shift);
    }
  }

  lemma {:induction false} PlacesNames(blanks: seq<Blank>)
    ensures |Places(blanks)| == |blanks|
    ensures forall i :: 0 <= i < |blanks| ==> Places(blanks)[i].0 == blanks[i].name
  {
    if blanks != [] {
      PlacesNames(blanks[1..]);
    }
  }

  lemma {:induction false} NothingTaken(sql: string, driver: Driver, values: Values, blanks: seq<Blank>, from: nat)
    requires WellPlaced(sql, blanks, from) && from <= |sql|
    requires forall i :: 0 <= i < |blanks| ==> blanks[i].name !in values
    ensures Filled(sql, driver, values, blanks, from) == sql[from..]
    decreases |blanks|
  {
    if blanks != [] {
      FilledTurn(sql, driver, values, blanks, from);
      NothingTaken(sql, driver, values, blanks[1..], from);
    }
  }

  /** Filling in again with the same values finds nothing to fill. */
  lemma FillingAgainChangesNothing(sql: string, driver: Driver, values: Values)
    requires Safe(sql, driver, values)
    ensures FilledIn(FilledIn(sql, driver, values), driver, values) == FilledIn(sql, driver, values)
  {
    var full := FilledIn(sql, driver, values);
    FillingIsStable(sql, driver, values);
    RemainingHaveNoValue(Blanks(sql, driver), driver, values, 0);
    PlacesNames(Blanks(full, driver));
    BlanksAreWellPlaced(full, driver, 0);
    forall i | 0 <= i < |Blanks(full, driver)|
      ensures Blanks(full, driver)[i].name !in values
    {
      assert Places(Blanks(full, driver))[i] in Remaining(Blanks(sql, driver), driver, values, 0);
    }
    NothingTaken(full, driver, values, Blanks(full, driver), 0);
  }

  // ---- nothing but the blanks changes, whatever is written ----

  /** `text.slice(from, to)` for places that may be past the end. */
  function Slice(text: string, from: nat, to: nat): string {
    if from <= to <= |text| then text[from..to] else if from <= |text| < to then text[from..] else ""
  }

  /**
   * The filled statement from `at` on with the blanks put back: of the template
   * this uses only where its blanks were, and that it was read up to `from`.
   */
  function Emptied(full: string, at: nat, driver: Driver, values: Values, blanks: seq<Blank>, from: nat): string
    decreases |blanks|
  {
    if blanks == [] then Slice(full, at, |full|)
    else
      var b := blanks[0];
      if b.name !in values || b.start < from then Emptied(full, at, driver, values, blanks[1..], from)
      else
        var put := at + (b.start - from);
        Slice(full, at, put) + "@" + b.name
        + Emptied(full, put + |Written(values[b.name], driver)|, driver, values, blanks[1..], b.end)
  }

  /** `full[at..]` is a piece, then what is written, then the rest. */
  lemma PieceOf(full: string, at: nat, piece: string, written: string, rest: string)
    requires at <= |full| && full[at..] == piece + written + rest
    ensures at + |piece| + |written| <= |full|
    ensures Slice(full, at, at + |piece|) == piece && full[at + |piece| + |written|..] == rest
  {
    assert |full| == at + |full[at..]|;
    assert full[at..at + |piece|] == full[at..][..|piece|] == piece;
    assert full[at + |piece| + |written|..] == full[at..][|piece| + |written|..] == rest;
  }

  lemma BlankSplits(sql: string, blanks: seq<Blank>, from: nat)
    requires WellPlaced(sql, blanks, from) && from <= |sql| && blanks != []
    ensures from <= blanks[0].start < blanks[0].end <= |sql|
    ensures sql[from..] == sql[from..blanks[0].start] + "@" + blanks[0].name + sql[blanks[0].end..]
  {
    var b := blanks[0];
    assert sql[b.start..b.end] == [sql[b.start]] + sql[b.start + 1..b.end];
  }

  lemma {:induction false} EmptiedUndoesFilled(full: string, at: nat, sql: string, driver: Driver, values: Values,
                                               blanks: seq<Blank>, from: nat)
    requires WellPlaced(sql, blanks, from) && from <= |sql| && at <= |full|
    requires full[at..] == Filled(sql, driver, values, blanks, from)
    ensures Emptied(full, at, driver, values, blanks, from) == sql[from..]
    decreases |blanks|
  {
    hide Written, WellPlaced, Slice, Filled;
    if blanks == [] {
      FilledEnd(sql, driver, values, blanks, from);
      PieceOf(full, at, full[at..], "", "");
    } else {
      var b, tail := blanks[0], blanks[1..];
      FilledTurn(sql, driver, values, blanks, from);
      if b.name !in values {
        EmptiedUndoesFilled(full, at, sql, driver, values, tail, from);
      } else {
        var piece, written := sql[from..b.start], Written(values[b.name], driver);
        PieceOf(full, at, piece, written, Filled(sql, driver, values, tail, b.end));
        EmptiedUndoesFilled(full, at + |piece| + |written|, sql, driver, values, tail, b.end);
        BlankSplits(sql, blanks, from);
      }
    }
  }

  /** All text outside the filled blanks is kept: the template can be read back out of what it was filled into. */
  lemma FillingKeepsTheRest(sql: string, driver: Driver, values: Values)
    ensures Emptied(FilledIn(sql, driver, values), 0, driver, values, Blanks(sql, driver), 0) == sql
  {
    var full := FilledIn(sql, driver, values);
    BlanksAreWellPlaced(sql, driver, 0);
    assert full[0..] == full;
    EmptiedUndoesFilled(full, 0, sql, driver, values, Blanks(sql, driver), 0);
    assert sql[0..] == sql;
  }
}
