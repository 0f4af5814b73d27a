/**
 * What a written value means to the server: a reader of SQL literals, and that
 * it reads every value but raw SQL back as what was meant, wherever `filledIn`
 * of `src/features/query-templates/variables.ts` puts it.
 */
module TemplateReadBack {
  import opened Basics
  import opened Chars
  import Decimals
  import opened TemplateScanner
  import opened TemplateLiterals
  import opened TemplateFilling

  datatype Meaning = AText(text: string) | ANumber(number: real) | ABoolean(on: bool) | ANull

  // ---- numbers as they are spelled ----

  datatype Exponent = NoExponent | Exponent(mark: char, sign: string, digits: string)

  /** Digits, a point and more digits, and a power of ten; the digits before or after the point can be none. */
  datatype Spelling = Spelling(whole: string, point: bool, fraction: string, exponent: Exponent)

  predicate IsSign(sign: string) {
    sign in {"", "+", "-"}
  }

  predicate IsExponentSpelling(e: Exponent) {
    e.Exponent? ==>
      e.mark in {'e', 'E'} && IsSign(e.sign) && e.digits != "" && Decimals.AllDigits(e.digits)
  }

  predicate IsSpelling(s: Spelling) {
    && Decimals.AllDigits(s.whole) && Decimals.AllDigits(s.fraction) && s.whole + s.fraction != "" && (!s.point ==> s.fraction == "")
    && IsExponentSpelling(s.exponent)
  }

  function SpelledExponent(e: Exponent): string {
    if e.NoExponent? then "" else [e.mark] + e.sign + e.digits
  }

  function Spelled(s: Spelling): string {
    s.whole + (if s.point then "." + s.fraction else "") + SpelledExponent(s.exponent)
  }

  function Tens(power: nat): (r: real)
    ensures r > 0.0
  {
    if power == 0 then 1.0 else 10.0 * Tens(power - 1)
  }

  /** `n` times that power of ten. */
  function Scaled(n: nat, power: int): real {
    if power >= 0 then n as real * Tens(power) else n as real / Tens(-power)
  }

  function PowerOf(e: Exponent): int
    requires e.Exponent? ==> Decimals.AllDigits(e.digits)
  {
    if e.NoExponent? then 0 else if e.sign == "-" then 0 - Decimals.Number(e.digits) else Decimals.Number(e.digits)
  }

  /** The number a spelling names. */
  function NumberOf(s: Spelling): real
    requires IsSpelling(s)
  {
    Scaled(Decimals.Number(s.whole + s.fraction), PowerOf(s.exponent) - |s.fraction|)
  }

  function Negated(sign: string, number: real): real {
    if sign == "-" then -number else number
  }

  predicate AllSpaces(text: string) {
    forall c <- text :: IsSpace(c)
  }

  /** The text spells a number, with what space there is around it. */
  ghost predicate SpellsOut(text: string, before: string, sign: string, s: Spelling, after: string) {
    AllSpaces(before) && AllSpaces(after) && IsSign(sign) && IsSpelling(s)
    && text == before + (sign + Spelled(s)) + after
  }

  // ---- reading a literal ----

  /** The power of ten at a place, and where it ends: none, there, where no digits come. */
  function ReadExponent(sql: string, at: nat): (int, nat)
    requires at <= |sql|
  {
    if at < |sql| && sql[at] in {'e', 'E'} then
      var digits := if at + 1 < |sql| && sql[at + 1] in {'+', '-'} then at + 2 else at + 1;
      if digits < |sql| && IsDigit(sql[digits]) then
        var end := DigitsEnd(sql, digits);
        (if sql[at + 1] == '-' then 0 - Decimals.Number(sql[digits..end]) else Decimals.Number(sql[digits..end]), end)
      else (0, at)
    else (0, at)
  }

  /** The unsigned number at a place, and where it ends. */
  function ReadUnsigned(sql: string, at: nat): Option<(real, nat)>
    requires at <= |sql|
  {
    var whole := DigitsEnd(sql, at);
    var point := whole < |sql| && sql[whole] == '.';
    var fraction := if point then DigitsEnd(sql, whole + 1) else whole;
    var digits := sql[at..whole] + if point then sql[whole + 1..fraction] else "";
    if digits == "" then None
    else
      var (power, end) := ReadExponent(sql, fraction);
      Some((Scaled(Decimals.Number(digits), power - (|digits| - (whole - at))), end))
  }

  function ReadSigned(sql: string, at: nat): Option<(real, nat)>
    requires at <= |sql|
  {
    if at < |sql| && sql[at] in {'+', '-'} then
      var read := ReadUnsigned(sql, at + 1);
      if read.None? then None else Some((if sql[at] == '-' then -read.value.0 else read.value.0, read.value.1))
    else ReadUnsigned(sql, at)
  }

  /** Past the word that starts here. */
  function ReadWord(sql: string, at: nat): (end: nat)
    requires at <= |sql|
    ensures at <= end <= |sql|
    decreases |sql| - at
  {
    if at < |sql| && IsWordChar(sql[at]) then ReadWord(sql, at + 1) else at
  }

  /** What the literal at the start of `sql` means, and where it ends: a text, a word, or a number, in parentheses or not. */
  function ReadValue(sql: string, driver: Driver): Option<(Meaning, nat)> {
    if sql == "" then None
    else if sql[0] == '\'' then
      var read := ReadLiteral(sql, driver);
      if read.None? then None else Some((AText(read.value.0), read.value.1))
    else if sql[0] == '(' then
      var read := ReadSigned(sql, 1);
      if read.None? || read.value.1 >= |sql| || sql[read.value.1] != ')' then None
      else Some((ANumber(read.value.0), read.value.1 + 1))
    else if IsNameStart(sql[0]) then
      var end := ReadWord(sql, 0);
      if sql[..end] == "TRUE" then Some((ABoolean(true), end))
      else if sql[..end] == "FALSE" then Some((ABoolean(false), end))
      else if sql[..end] == "NULL" then Some((ANull, end))
      else None
    else
      var read := ReadSigned(sql, 0);
      if read.None? then None else Some((ANumber(read.value.0), read.value.1))
  }

  // ---- numbers read back ----

  /** What comes next does not go on with a number. */
  predicate NumberStops(rest: string) {
    rest == "" || !(IsNameChar(rest[0]) || rest[0] == '.')
  }

  /** A run of digits with no digit after it. */
  lemma DigitsRead(sql: string, at: nat, digits: string, rest: string)
    requires at <= |sql| && sql[at..] == digits + rest && Decimals.AllDigits(digits)
    requires rest != "" ==> !IsDigit(rest[0])
    ensures DigitsEnd(sql, at) == at + |digits|
  {
    hide DigitsEnd;
    Ahead(sql, at, digits, rest);
    Decimals.DigitsEndAt(sql, at, at + |digits|);
  }

  /** Where a spelled power of ten has its mark, its sign and its digits. */
  lemma ExponentRuns(sql: string, at: nat, e: Exponent, rest: string)
    requires at <= |sql| && sql[at..] == SpelledExponent(e) + rest && e.Exponent? && IsExponentSpelling(e)
    requires rest != "" ==> !IsDigit(rest[0])
    ensures var digits := at + 1 + |e.sign|; var end := digits + |e.digits|;
      && end <= |sql| && end == at + |SpelledExponent(e)| && sql[at] == e.mark && DigitsEnd(sql, digits) == end
      && sql[digits..end] == e.digits && IsDigit(sql[digits])
      && (e.sign != "" ==> sql[at + 1] == e.sign[0])
  {
    hide DigitsEnd, SpelledExponent;
    var digits := at + 1 + |e.sign|;
    ExponentParts(e, rest);
    Ahead(sql, at, [e.mark], e.sign + (e.digits + rest));
    Ahead(sql, at + 1, e.sign, e.digits + rest);
    Ahead(sql, digits, e.digits, rest);
    DigitsRead(sql, digits, e.digits, rest);
    assert IsDigit(e.digits[0]);
  }

  lemma ExponentParts(e: Exponent, rest: string)
    requires e.Exponent?
    ensures SpelledExponent(e) + rest == [e.mark] + (e.sign + (e.digits + rest))
    ensures |SpelledExponent(e)| == 1 + |e.sign| + |e.digits|
  {}

  lemma ExponentReads(sql: string, at: nat, e: Exponent, rest: string)
    requires at <= |sql| && sql[at..] == SpelledExponent(e) + rest && NumberStops(rest) && IsExponentSpelling(e)
    ensures ReadExponent(sql, at) == (PowerOf(e), at + |SpelledExponent(e)|)
  {
    hide DigitsEnd, Decimals.Number, SpelledExponent;
    if e.Exponent? {
      ExponentRuns(sql, at, e, rest);
    } else {
      assert SpelledExponent(e) == "" by { NothingSpelled(e); }
      Ahead(sql, at, "", rest);
    }
  }

  lemma NothingSpelled(e: Exponent)
    ensures e.NoExponent? ==> SpelledExponent(e) == ""
  {}

  /** The digits of a spelling, and where they end. */
  function MantissaOf(s: Spelling): string {
    s.whole + if s.point then "." + s.fraction else ""
  }

  function FractionEnd(sql: string, at: nat): (end: nat)
    requires at <= |sql|
    ensures at <= end <= |sql|
  {
    var whole := DigitsEnd(sql, at);
    if whole < |sql| && sql[whole] == '.' then DigitsEnd(sql, whole + 1) else whole
  }

  lemma MantissaRuns(sql: string, at: nat, s: Spelling, after: string)
    requires at <= |sql| && sql[at..] == MantissaOf(s) + after && IsSpelling(s)
    requires after != "" ==> !IsDigit(after[0]) && after[0] != '.'
    ensures DigitsEnd(sql, at) == at + |s.whole| && FractionEnd(sql, at) == at + |MantissaOf(s)|
    ensures at + |MantissaOf(s)| <= |sql| && sql[at + |MantissaOf(s)|..] == after
    ensures at + |s.whole| < |sql| && sql[at + |s.whole|] == '.' <==> s.point
    ensures sql[at..at + |s.whole|] == s.whole
    ensures s.point ==> sql[at + |s.whole| + 1..at + |MantissaOf(s)|] == s.fraction
  {
    hide DigitsEnd;
    Ahead(sql, at, MantissaOf(s), after);
    if s.point {
      assert MantissaOf(s) + after == s.whole + ("." + (s.fraction + after));
      PointRuns(sql, at, s.whole, s.fraction, after);
    } else {
      assert MantissaOf(s) == s.whole;
      DigitsRead(sql, at, s.whole, after);
    }
  }

  lemma PointRuns(sql: string, at: nat, digits: string, fraction: string, after: string)
    requires at <= |sql| && sql[at..] == digits + ("." + (fraction + after))
    requires Decimals.AllDigits(digits) && Decimals.AllDigits(fraction) && (after != "" ==> !IsDigit(after[0]))
    ensures var whole := at + |digits|;
      && DigitsEnd(sql, at) == whole < |sql| && sql[whole] == '.'
      && DigitsEnd(sql, whole + 1) == whole + 1 + |fraction| <= |sql|
      && sql[at..whole] == digits && sql[whole + 1..whole + 1 + |fraction|] == fraction
  {
    hide DigitsEnd, Decimals.AllDigits;
    var whole := at + |digits|;
    DigitsRead(sql, at, digits, "." + (fraction + after));
    Ahead(sql, at, digits, "." + (fraction + after));
    PastThePoint(sql, whole, fraction, after);
  }

  lemma PastThePoint(sql: string, whole: nat, fraction: string, after: string)
    requires whole <= |sql| && sql[whole..] == "." + (fraction + after)
    requires Decimals.AllDigits(fraction) && (after != "" ==> !IsDigit(after[0]))
    ensures whole < |sql| && sql[whole] == '.'
    ensures DigitsEnd(sql, whole + 1) == whole + 1 + |fraction| <= |sql|
    ensures sql[whole + 1..whole + 1 + |fraction|] == fraction
  {
    hide DigitsEnd, Decimals.AllDigits;
    FirstAhead(sql, whole, ".", fraction + after);
    Behead(sql, whole, ".", fraction + after);
    DigitsRead(sql, whole + 1, fraction, after);
    Ahead(sql, whole + 1, fraction, after);
  }

  lemma SpelledParts(s: Spelling)
    ensures Spelled(s) == MantissaOf(s) + SpelledExponent(s.exponent)
  {}

  lemma UnsignedReads(sql: string, at: nat, s: Spelling, rest: string)
    requires at <= |sql| && sql[at..] == Spelled(s) + rest && IsSpelling(s) && NumberStops(rest)
    ensures ReadUnsigned(sql, at) == Some((NumberOf(s), at + |Spelled(s)|))
  {
    hide DigitsEnd, Decimals.Number, ReadExponent, PowerOf, SpelledExponent, Scaled, Spelled;
    var exponent := SpelledExponent(s.exponent);
    SpelledParts(s);
    assert sql[at..] == MantissaOf(s) + (exponent + rest);
    ExponentStarts(s.exponent, rest);
    MantissaRuns(sql, at, s, exponent + rest);
    ExponentReads(sql, at + |MantissaOf(s)|, s.exponent, rest);
  }

  /** After a number's digits comes neither a digit nor a point. */
  lemma ExponentStarts(e: Exponent, rest: string)
    requires NumberStops(rest) && (e.Exponent? ==> e.mark in {'e', 'E'})
    ensures var after := SpelledExponent(e) + rest; after != "" ==> !IsDigit(after[0]) && after[0] != '.'
  {}

  lemma SpelledStarts(s: Spelling)
    requires IsSpelling(s)
    ensures Spelled(s) != "" && (IsDigit(Spelled(s)[0]) || Spelled(s)[0] == '.')
  {}

  lemma SignedReads(sql: string, at: nat, sign: string, s: Spelling, rest: string)
    requires at <= |sql| && sql[at..] == sign + Spelled(s) + rest && IsSign(sign) && IsSpelling(s) && NumberStops(rest)
    ensures ReadSigned(sql, at) == Some((Negated(sign, NumberOf(s)), at + |sign + Spelled(s)|))
  {
    hide ReadUnsigned, NumberOf, Spelled, IsSpelling;
    assert sign + Spelled(s) + rest == sign + (Spelled(s) + rest);
    Ahead(sql, at, sign, Spelled(s) + rest);
    UnsignedReads(sql, at + |sign|, s, rest);
    SpelledStarts(s);
  }

  // ---- a number is what spells one ----

  lemma ExponentSpelling(text: string, at: nat) returns (e: Exponent)
    requires at <= |text| && IsExponent(text, at)
    ensures IsExponentSpelling(e) && text[at..] == SpelledExponent(e)
  {
    if at == |text| {
      e := NoExponent;
    } else {
      var signed := at + 1 < |text| && text[at + 1] in {'+', '-'};
      var digits := if signed then at + 2 else at + 1;
      e := Exponent(text[at], text[at + 1..digits], text[digits..]);
      assert text[at..] == [text[at]] + text[at + 1..digits] + text[digits..];
      assert text[at + 1..digits] == if signed then [text[at + 1]] else "";
    }
  }

  lemma MantissaSpelling(text: string, at: nat) returns (s: Spelling)
    requires at <= |text|
    ensures s.exponent.NoExponent? && Decimals.AllDigits(s.whole) && Decimals.AllDigits(s.fraction)
    ensures !s.point ==> s.fraction == ""
    ensures text[at..FractionEnd(text, at)] == MantissaOf(s)
    ensures s.whole + s.fraction != "" <==> at < DigitsEnd(text, at) || DigitsEnd(text, at) + 1 < FractionEnd(text, at)
  {
    hide DigitsEnd;
    var whole, end := DigitsEnd(text, at), FractionEnd(text, at);
    var point := whole < |text| && text[whole] == '.';
    s := Spelling(text[at..whole], point, if point then text[whole + 1..end] else "", NoExponent);
    assert text[at..end] == text[at..whole] + text[whole..end];
    assert text[whole..end] == if point then [text[whole]] + text[whole + 1..end] else "";
  }

  lemma UnsignedSpelling(text: string, at: nat) returns (s: Spelling)
    requires at <= |text| && IsUnsigned(text, at)
    ensures IsSpelling(s) && text[at..] == Spelled(s)
  {
    hide IsExponent, SpelledExponent, Spelled, MantissaOf;
    var mantissa := MantissaSpelling(text, at);
    UnsignedParts(text, at);
    var e := ExponentSpelling(text, FractionEnd(text, at));
    s := mantissa.(exponent := e);
    SpelledParts(s);
    SameMantissa(mantissa, s);
    assert text[at..] == text[at..FractionEnd(text, at)] + text[FractionEnd(text, at)..];
  }

  lemma SameMantissa(a: Spelling, b: Spelling)
    requires a.whole == b.whole && a.point == b.point && a.fraction == b.fraction
    ensures MantissaOf(a) == MantissaOf(b)
  {}

  lemma UnsignedParts(text: string, at: nat)
    requires at <= |text|
    ensures IsUnsigned(text, at) <==>
      && (at < DigitsEnd(text, at) || DigitsEnd(text, at) + 1 < FractionEnd(text, at))
      && IsExponent(text, FractionEnd(text, at))
  {
    hide IsExponent;
  }

  lemma ExponentOfSpelling(text: string, at: nat, e: Exponent)
    requires at <= |text| && text[at..] == SpelledExponent(e) && IsExponentSpelling(e)
    ensures IsExponent(text, at)
  {
    hide DigitsEnd;
    if e.Exponent? {
      assert SpelledExponent(e) + "" == SpelledExponent(e);
      ExponentRuns(text, at, e, "");
    }
  }

  lemma UnsignedOfSpelling(text: string, at: nat, s: Spelling)
    requires at <= |text| && text[at..] == Spelled(s) && IsSpelling(s)
    ensures IsUnsigned(text, at)
  {
    hide DigitsEnd, IsExponent, SpelledExponent, Spelled, IsUnsigned, FractionEnd;
    var exponent := SpelledExponent(s.exponent);
    SpelledParts(s);
    ExponentStarts(s.exponent, "");
    assert exponent + "" == exponent;
    MantissaRuns(text, at, s, exponent);
    ExponentOfSpelling(text, at + |MantissaOf(s)|, s.exponent);
    UnsignedParts(text, at);
  }

  // ---- what trimming takes off ----

  lemma {:induction false} TrimStartSplits(text: string) returns (before: string)
    ensures AllSpaces(before) && text == before + TrimStart(text)
    ensures TrimStart(text) != "" ==> !IsSpace(TrimStart(text)[0])
  {
    hide IsSpace;
    if text != "" && IsSpace(text[0]) {
      before := TrimStartSplits(text[1..]);
      before := [text[0]] + before;
    } else {
      before := "";
    }
  }

  lemma {:induction false} TrimEndSplits(text: string) returns (after: string)
    ensures AllSpaces(after) && text == TrimEnd(text) + after
    ensures TrimEnd(text) != "" ==> !IsSpace(TrimEnd(text)[|TrimEnd(text)| - 1])
  {
    hide IsSpace;
    var n := |text| - 1;
    if text != "" && IsSpace(text[n]) {
      after := TrimEndSplits(text[..n]);
      assert text == TrimEnd(text[..n]) + (after + [text[n]]);
      after := after + [text[n]];
    } else {
      after := "";
    }
  }

  lemma {:induction false} TrimStartOf(before: string, rest: string)
    requires AllSpaces(before) && (rest != "" ==> !IsSpace(rest[0]))
    ensures TrimStart(before + rest) == rest
  {
    hide IsSpace;
    if before == "" {
      assert before + rest == rest;
    } else {
      assert (before + rest)[0] == before[0] && (before + rest)[1..] == before[1..] + rest;
      TrimStartOf(before[1..], rest);
    }
  }

  lemma {:induction false} TrimEndOf(rest: string, after: string)
    requires AllSpaces(after) && (rest != "" ==> !IsSpace(rest[|rest| - 1]))
    ensures TrimEnd(rest + after) == rest
  {
    hide IsSpace;
    if after == "" {
      assert rest + after == rest;
    } else {
      var all, n := rest + after, |after| - 1;
      assert all[|all| - 1] == after[n] && all[..|all| - 1] == rest + after[..n];
      TrimEndOf(rest, after[..n]);
    }
  }

  lemma SpelledHasNoSpace(sign: string, s: Spelling)
    requires IsSign(sign) && IsSpelling(s)
    ensures var text := sign + Spelled(s); text != "" && !IsSpace(text[0]) && !IsSpace(text[|text| - 1])
  {
    SpelledStarts(s);
    var text, last := sign + Spelled(s), Spelled(s)[|Spelled(s)| - 1];
    assert last == '.' || IsDigit(last);
    assert text[|text| - 1] == last;
    assert text[0] in {'+', '-', '.'} || IsDigit(text[0]);
  }

  lemma TrimmedSpelling(text: string, before: string, sign: string, s: Spelling, after: string)
    requires SpellsOut(text, before, sign, s, after)
    ensures Trim(text) == sign + Spelled(s)
  {
    hide IsSpace, TrimStart, TrimEnd, Spelled, IsSpelling;
    var core := sign + Spelled(s);
    SpelledHasNoSpace(sign, s);
    assert text == before + (core + after);
    TrimStartOf(before, core + after);
    TrimEndOf(core, after);
  }

  ghost predicate SpellsANumber(text: string) {
    exists before, sign, s, after :: SpellsOut(text, before, sign, s, after)
  }

  /** The numbers that can be written are just the texts that spell one, with space around it or not. */
  lemma NumbersAreSpelled(text: string)
    ensures IsNumber(Trim(text)) <==> SpellsANumber(text)
  {
    hide IsSpace, TrimStart, TrimEnd, Spelled, IsSpelling, IsUnsigned;
    if SpellsANumber(text) {
      var before, sign, s, after :| SpellsOut(text, before, sign, s, after);
      TrimmedSpelling(text, before, sign, s, after);
      SpelledStarts(s);
      assert (sign + Spelled(s))[|sign|..] == Spelled(s);
      UnsignedOfSpelling(sign + Spelled(s), |sign|, s);
    }
    if IsNumber(Trim(text)) {
      var core := Trim(text);
      var from := if IsSigned(core) then 1 else 0;
      var s := UnsignedSpelling(core, from);
      var before := TrimStartSplits(text);
      var after := TrimEndSplits(TrimStart(text));
      assert core == core[..from] + Spelled(s);
      assert core[..from] == if from == 1 then [core[0]] else "";
      assert text == before + (core[..from] + Spelled(s)) + after;
      assert SpellsOut(text, before, core[..from], s, after);
    }
  }

  // ---- every value reads back ----

  /** What a value is to the reader. */
  ghost predicate Means(value: Value, meaning: Meaning) {
    match value.kind
    case Text => meaning == AText(value.text)
    case Number =>
      exists before, sign, s, after ::
        SpellsOut(value.text, before, sign, s, after) && meaning == ANumber(Negated(sign, NumberOf(s)))
    case Boolean => meaning == ABoolean(value.text != "false")
    case Null => meaning == ANull
    case Raw => false
  }

  /** Raw SQL aside: a number spells one. */
  ghost predicate CanBeMeant(value: Value) {
    !value.kind.Raw? && (value.kind.Number? ==> SpellsANumber(value.text))
  }

  /** Anything but raw SQL and a number that spells none can be spliced in, and is meant as something. */
  lemma SpliceablesAreMeant(value: Value)
    ensures Spliceable(value) <==> CanBeMeant(value)
  {
    hide Trim, IsNumber, SpellsANumber;
    NumbersAreSpelled(value.text);
  }

  /** What comes next does not go on with the literal. */
  predicate Stops(value: Value, rest: string) {
    rest == "" ||
    match value.kind
    case Text => rest[0] != '\''
    case Number => NumberStops(rest)
    case _ => !IsWordChar(rest[0])
  }

  lemma TextReads(value: Value, driver: Driver, rest: string)
    requires value.kind.Text? && Stops(value, rest)
    ensures ReadValue(Written(value, driver) + rest, driver) == Some((AText(value.text), |Written(value, driver)|))
  {
    hide Literal, ReadLiteral;
    LiteralReadsBack(value.text, driver, rest);
    LiteralStarts(value.text, driver);
  }

  lemma LiteralStarts(text: string, driver: Driver)
    ensures Literal(text, driver) != "" && Literal(text, driver)[0] == '\''
  {}

  lemma {:induction false} WordReads(word: string, rest: string, at: nat)
    requires at <= |word| && (forall c <- word :: IsWordChar(c)) && (rest != "" ==> !IsWordChar(rest[0]))
    ensures ReadWord(word + rest, at) == |word|
    decreases |word| - at
  {
    if at < |word| {
      WordReads(word, rest, at + 1);
    }
  }

  lemma KeywordReads(value: Value, driver: Driver, rest: string)
    requires (value.kind.Boolean? || value.kind.Null?) && Stops(value, rest)
    ensures ReadValue(Written(value, driver) + rest, driver)
            == Some((if value.kind.Null? then ANull else ABoolean(value.text != "false"), |Written(value, driver)|))
  {
    hide ReadWord, ReadLiteral, ReadSigned;
    var word := Written(value, driver);
    WordReads(word, rest, 0);
    assert (word + rest)[..|word|] == word && (word + rest)[0] == word[0];
  }

  lemma NumberReads(value: Value, driver: Driver, rest: string, before: string, sign: string, s: Spelling,
                    after: string)
    requires value.kind.Number? && Stops(value, rest) && SpellsOut(value.text, before, sign, s, after)
    ensures ReadValue(Written(value, driver) + rest, driver)
            == Some((ANumber(Negated(sign, NumberOf(s))), |Written(value, driver)|))
  {
    hide ReadSigned, ReadLiteral, ReadWord, NumberOf, Trim, Spelled, IsSpelling;
    var core := sign + Spelled(s);
    TrimmedSpelling(value.text, before, sign, s, after);
    SpelledStarts(s);
    if sign == "" {
      assert core == Spelled(s) && Written(value, driver) == core;
      PlainNumberReads(driver, s, rest);
    } else {
      assert core[0] == sign[0] && Written(value, driver) == "(" + core + ")";
      SignedNumberReads(driver, sign, s, rest);
    }
  }

  lemma PlainNumberReads(driver: Driver, s: Spelling, rest: string)
    requires IsSpelling(s) && NumberStops(rest)
    ensures ReadValue(Spelled(s) + rest, driver) == Some((ANumber(NumberOf(s)), |Spelled(s)|))
  {
    hide ReadSigned, ReadLiteral, ReadWord, NumberOf, Spelled, IsSpelling;
    var sql := Spelled(s) + rest;
    SpelledStarts(s);
    assert sql[0] == Spelled(s)[0];
    assert sql[0..] == "" + Spelled(s) + rest && "" + Spelled(s) == Spelled(s);
    SignedReads(sql, 0, "", s, rest);
  }

  lemma SignedNumberReads(driver: Driver, sign: string, s: Spelling, rest: string)
    requires IsSpelling(s) && IsSign(sign)
    ensures var written := "(" + (sign + Spelled(s)) + ")";
      ReadValue(written + rest, driver) == Some((ANumber(Negated(sign, NumberOf(s))), |written|))
  {
    hide ReadSigned, ReadLiteral, ReadWord, NumberOf, Spelled, IsSpelling;
    var core := sign + Spelled(s);
    var sql := "(" + core + ")" + rest;
    assert sql == "(" + (core + (")" + rest));
    assert sql[1..] == core + (")" + rest);
    SignedReads(sql, 1, sign, s, ")" + rest);
    Ahead(sql, 1, core, ")" + rest);
  }

  /** Before anything that does not go on with it, what is written for a value reads back as what was meant. */
  lemma WrittenReadsBack(value: Value, driver: Driver, rest: string) returns (meaning: Meaning)
    requires CanBeMeant(value) && Stops(value, rest)
    ensures Means(value, meaning)
    ensures ReadValue(Written(value, driver) + rest, driver) == Some((meaning, |Written(value, driver)|))
  {
    hide ReadValue, Written, Stops, SpellsOut;
    match value.kind
    case Text =>
      TextReads(value, driver, rest);
      meaning := AText(value.text);
    case Number =>
      var before, sign, s, after :| SpellsOut(value.text, before, sign, s, after);
      assert IsSpelling(s) by { SpellsASpelling(value.text, before, sign, s, after); }
      NumberReads(value, driver, rest, before, sign, s, after);
      meaning := ANumber(Negated(sign, NumberOf(s)));
    case Boolean =>
      KeywordReads(value, driver, rest);
      meaning := ABoolean(value.text != "false");
    case Null =>
      KeywordReads(value, driver, rest);
      meaning := ANull;
  }

  lemma SpellsASpelling(text: string, before: string, sign: string, s: Spelling, after: string)
    requires SpellsOut(text, before, sign, s, after)
    ensures IsSpelling(s)
  {}

  // ---- what filling in puts at each blank ----

  /** From `put` to `end` stands a value: raw SQL as it is, and any other as a literal that reads back. */
  ghost predicate StandsFor(full: string, put: nat, end: nat, value: Value, driver: Driver)
    requires put <= end <= |full|
  {
    && (value.kind.Raw? ==> full[put..end] == value.text)
    && (CanBeMeant(value) && Stops(value, full[end..]) ==>
          exists meaning :: Means(value, meaning) && ReadValue(full[put..], driver) == Some((meaning, end - put)))
  }

  /** From `at` on, the statement is the template from `from` on with a value standing at each blank that has one. */
  ghost predicate Holds(full: string, at: nat, sql: string, driver: Driver, values: Values, blanks: seq<Blank>, from: nat)
    requires WellPlaced(sql, blanks, from) && from <= |sql|
    decreases |blanks|
  {
    at <= |full| &&
    if blanks == [] then full[at..] == sql[from..]
    else
      var b := blanks[0];
      if b.name !in values then
        WellPlacedEarlier(sql, blanks[1..], b.end, from);
        Holds(full, at, sql, driver, values, blanks[1..], from)
      else
        var put := at + (b.start - from);
        && put <= |full| && full[at..put] == sql[from..b.start]
        && exists end :: put <= end <= |full| && StandsFor(full, put, end, values[b.name], driver)
                         && Holds(full, end, sql, driver, values, blanks[1..], b.end)
  }

  lemma WrittenStandsFor(full: string, put: nat, end: nat, value: Value, driver: Driver)
    requires put <= end <= |full| && full[put..end] == Written(value, driver)
    ensures StandsFor(full, put, end, value, driver)
  {
    hide CanBeMeant, ReadValue, Stops, Means;
    if CanBeMeant(value) && Stops(value, full[end..]) {
      assert full[put..] == Written(value, driver) + full[end..];
      var meaning := WrittenReadsBack(value, driver, full[end..]);
    }
  }

  lemma {:induction false} FilledHolds(full: string, at: nat, sql: string, driver: Driver, values: Values,
                                       blanks: seq<Blank>, from: nat)
    requires WellPlaced(sql, blanks, from) && from <= |sql| && at <= |full|
    requires full[at..] == Filled(sql, driver, values, blanks, from)
    ensures Holds(full, at, sql, driver, values, blanks, from)
    decreases |blanks|
  {
    hide Written, WellPlaced, Filled, StandsFor;
    if blanks == [] {
      FilledEnd(sql, driver, values, blanks, from);
    } else {
      var b := blanks[0];
      FilledTurn(sql, driver, values, blanks, from);
      if b.name !in values {
        FilledHolds(full, at, sql, driver, values, blanks[1..], from);
      } else {
        var piece, written := sql[from..b.start], Written(values[b.name], driver);
        var rest := Filled(sql, driver, values, blanks[1..], b.end);
        assert full[at..] == piece + (written + rest);
        Ahead(full, at, piece, written + rest);
        Ahead(full, at + |piece|, written, rest);
        var end := at + |piece| + |written|;
        WrittenStandsFor(full, at + |piece|, end, values[b.name], driver);
        FilledHolds(full, end, sql, driver, values, blanks[1..], b.end);
      }
    }
  }

  /** The filled statement is the template with each value where its blank was: raw SQL as it is, the others as meant. */
  lemma FilledReadsAsMeant(sql: string, driver: Driver, values: Values)
    ensures WellPlaced(sql, Blanks(sql, driver), 0)
    ensures Holds(FilledIn(sql, driver, values), 0, sql, driver, values, Blanks(sql, driver), 0)
  {
    hide Holds, Filled, WellPlaced, Blanks;
    var full := FilledIn(sql, driver, values);
    FilledInIsFilled(sql, driver, values);
    assert full[0..] == full;
    FilledHolds(full, 0, sql, driver, values, Blanks(sql, driver), 0);
  }
}
