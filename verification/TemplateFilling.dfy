/**
 * Writing values into a template, `filledIn` of
 * `src/features/query-templates/variables.ts`: blank by blank, as the source
 * does, and turn by turn, as the scan goes.
 */
module TemplateFilling {
  import opened Basics
  import opened Chars
  import opened TemplateScanner
  import opened TemplateLocality
  import opened TemplateLiterals

  type Values = map<string, Value>

  /** The statement from `from` on, with the blanks that have a value written in. */
  function Filled(sql: string, driver: Driver, values: Values, blanks: seq<Blank>, from: nat): string
    requires WellPlaced(sql, blanks, from) && from <= |sql|
    decreases |blanks|
  {
    if blanks == [] then sql[from..]
    else
      var b := blanks[0];
      if b.name !in values then
        WellPlacedEarlier(sql, blanks[1..], b.end, from);
        Filled(sql, driver, values, blanks[1..], from)
      else
        sql[from..b.start] + Written(values[b.name], driver) + Filled(sql, driver, values, blanks[1..], b.end)
  }

  function FilledIn(sql: string, driver: Driver, values: Values): string {
    BlanksAreWellPlaced(sql, driver, 0);
    Filled(sql, driver, values, Blanks(sql, driver), 0)
  }

  lemma FilledTurn(sql: string, driver: Driver, values: Values, blanks: seq<Blank>, from: nat)
    requires WellPlaced(sql, blanks, from) && from <= |sql| && blanks != []
    ensures from <= blanks[0].start < blanks[0].end <= |sql| && WellPlaced(sql, blanks[1..], blanks[0].end)
    ensures WellPlaced(sql, blanks[1..], from)
    ensures Filled(sql, driver, values, blanks, from) ==
      if blanks[0].name !in values then Filled(sql, driver, values, blanks[1..], from)
      else (sql[from..blanks[0].start] + Written(values[blanks[0].name], driver)
            + Filled(sql, driver, values, blanks[1..], blanks[0].end))
  {
    hide Written;
    WellPlacedEarlier(sql, blanks[1..], blanks[0].end, from);
  }

  lemma FilledInIsFilled(sql: string, driver: Driver, values: Values)
    ensures WellPlaced(sql, Blanks(sql, driver), 0)
    ensures FilledIn(sql, driver, values) == Filled(sql, driver, values, Blanks(sql, driver), 0)
  {
    hide Filled, WellPlaced;
    BlanksAreWellPlaced(sql, driver, 0);
  }

  method FillIn(sql: string, driver: Driver, values: Values) returns (filled: string)
    ensures filled == FilledIn(sql, driver, values)
  {
    hide Written, Filled, WellPlaced, FilledIn, Blanks;
    var blanks := FindBlanks(sql, driver);
    var out := "";
    var from: nat := 0;
    FilledInIsFilled(sql, driver, values);
    assert blanks[0..] == blanks;
    for i := 0 to |blanks|
      invariant from <= |sql| && WellPlaced(sql, blanks[i..], from)
      invariant out + Filled(sql, driver, values, blanks[i..], from) == FilledIn(sql, driver, values)
    {
      var blank := blanks[i];
      FilledTurn(sql, driver, values, blanks[i..], from);
      assert blanks[i..][1..] == blanks[i + 1..];
      if blank.name in values {
        var value := values[blank.name];
        ghost var rest := Filled(sql, driver, values, blanks[i + 1..], blank.end);
        Associates(out, sql[from..blank.start] + Written(value, driver), rest);
        out := out + (sql[from..blank.start] + Written(value, driver));
        from := blank.end;
      }
    }
    FilledEnd(sql, driver, values, blanks[|blanks|..], from);
    return out + sql[from..];
  }

  lemma FilledEnd(sql: string, driver: Driver, values: Values, blanks: seq<Blank>, from: nat)
    requires WellPlaced(sql, blanks, from) && from <= |sql| && blanks == []
    ensures Filled(sql, driver, values, blanks, from) == sql[from..]
  {}

  // ---- the same, along the scan ----

  ghost predicate Takes(sql: string, values: Values, at: nat) {
    IsBlank(sql, at) && BlankAt(sql, at).name in values
  }

  /** The filled statement, as the scan goes. */
  ghost function ScanFilled(sql: string, driver: Driver, values: Values, at: nat): string
    requires at <= |sql|
    decreases |sql| - at
  {
    if at == |sql| then ""
    else
      var next := Next(sql, driver, at);
      (if Takes(sql, values, at) then Written(values[BlankAt(sql, at).name], driver) else sql[at..next])
      + ScanFilled(sql, driver, values, next)
  }

  lemma ScanFilledTurn(sql: string, driver: Driver, values: Values, at: nat)
    requires at < |sql|
    ensures ScanFilled(sql, driver, values, at) ==
      (if Takes(sql, values, at) then Written(values[BlankAt(sql, at).name], driver)
       else sql[at..Next(sql, driver, at)])
      + ScanFilled(sql, driver, values, Next(sql, driver, at))
  {
    hide Next, IsBlank, BlankAt, Takes, Written;
  }

  lemma ScanFilledEnd(sql: string, driver: Driver, values: Values)
    ensures ScanFilled(sql, driver, values, |sql|) == ""
  {}

  lemma {:induction false} FilledAlongTheScan(sql: string, driver: Driver, values: Values, from: nat, at: nat)
    requires from <= at <= |sql|
    requires WellPlaced(sql, BlanksFrom(sql, driver, at), from)
    ensures Filled(sql, driver, values, BlanksFrom(sql, driver, at), from)
         == sql[from..at] + ScanFilled(sql, driver, values, at)
    decreases |sql| - at
  {
    hide Next, Written, IsBlank, WellPlaced, Filled, BlankAt, BlanksFrom, ScanFilled;
    if at == |sql| {
      ScanFilledEnd(sql, driver, values);
      BlanksEnd(sql, driver, at);
      FilledEnd(sql, driver, values, BlanksFrom(sql, driver, at), from);
    } else {
      var next := Next(sql, driver, at);
      var rest := BlanksFrom(sql, driver, next);
      BlanksTurn(sql, driver, at);
      ScanFilledTurn(sql, driver, values, at);
      BlanksAreWellPlaced(sql, driver, next);
      WellPlacedEarlier(sql, rest, next, from);
      FilledAlongTheScan(sql, driver, values, from, next);
      Associates(sql[from..at], sql[at..next], ScanFilled(sql, driver, values, next));
      assert sql[from..next] == sql[from..at] + sql[at..next];
      if IsBlank(sql, at) {
        BlankTurn(sql, driver, at);
        BlankPlace(sql, at);
        assert BlanksFrom(sql, driver, at)[1..] == rest;
        FilledTurn(sql, driver, values, BlanksFrom(sql, driver, at), from);
        FilledAlongTheScan(sql, driver, values, next, next);
        assert sql[next..next] == "";
      } else {
        assert BlanksFrom(sql, driver, at) == rest;
      }
    }
  }

  lemma BlankPlace(sql: string, at: nat)
    requires IsBlank(sql, at)
    ensures BlankAt(sql, at).start == at && BlankAt(sql, at).end == NameEnd(sql, at + 1)
  {}
}
