/**
 * A point in time still names the same instant after `CellTime.InZone` has
 * written it in another zone.
 */
module CellTimeProofs {
  import opened Basics
  import opened Chars
  import opened Decimals
  import opened Calendar
  import opened CellTime

  // ---- a reader of what is shown, as PostgreSQL reads one ----

  /** `yyyy-mm-dd`, a date of the calendar, as its day number. */
  function ReadDate(text: string): Option<int> {
    if |text| == 10 && DigitsAt(text, 0, 4) && text[4] == '-' && DigitsAt(text, 5, 7) && text[7] == '-'
       && DigitsAt(text, 8, 10) && 1 <= NumberAt(text, 5, 7) <= 12
       && ValidDate(Civil(NumberAt(text, 0, 4), NumberAt(text, 5, 7) - 1, NumberAt(text, 8, 10)))
    then Some(MakeDay(NumberAt(text, 0, 4), NumberAt(text, 5, 7) - 1, NumberAt(text, 8, 10)))
    else None
  }

  /** `hh:mm:ss`, a time of day, in seconds. */
  function ReadClock(text: string): Option<nat> {
    if |text| == 8 && DigitsAt(text, 0, 2) && text[2] == ':' && DigitsAt(text, 3, 5) && text[5] == ':'
       && DigitsAt(text, 6, 8) && NumberAt(text, 0, 2) < 24 && NumberAt(text, 3, 5) < 60 && NumberAt(text, 6, 8) < 60
    then Some(NumberAt(text, 0, 2) * 3600 + NumberAt(text, 3, 5) * 60 + NumberAt(text, 6, 8))
    else None
  }

  /** `±hh`, `±hh:mm` or `±hh:mm:ss`, in seconds east of UTC. */
  function ReadOffset(text: string): Option<int> {
    if |text| in {3, 6, 9} && text[0] in {'+', '-'} && DigitsAt(text, 1, 3)
       && (|text| > 3 ==> text[3] == ':' && DigitsAt(text, 4, 6))
       && (|text| > 6 ==> text[6] == ':' && DigitsAt(text, 7, 9))
    then Some(Signed(text[0] == '-', NumberAt(text, 1, 3) * 3600
      + (if |text| > 3 then NumberAt(text, 4, 6) * 60 else 0) + (if |text| > 6 then NumberAt(text, 7, 9) else 0)))
    else None
  }

  /** Where an offset starts after an optional fraction. */
  function FractionEnd(text: string): (end: nat)
    ensures end <= |text|
  {
    if text != "" && text[0] == '.' then DigitsEnd(text, 1) else 0
  }

  /** The instant and the fraction's digits. */
  function ReadShown(text: string): Option<(int, string)> {
    if |text| < 19 || text[10] != ' ' then None
    else
      var tail := text[19..];
      var end := FractionEnd(tail);
      match (ReadDate(text[..10]), ReadClock(text[11..19]), ReadOffset(tail[end..]))
      case (Some(day), Some(second), Some(offset)) =>
        if end == 1 then None
        else Some((day * DAY + second - offset, if end == 0 then "" else tail[1..end]))
      case _ => None
  }

  // ---- each piece reads back ----

  lemma TensAre()
    ensures Tens(2) == 100 && Tens(4) == 10000
  {
    assert Tens(0) == 1 && Tens(1) == 10 && Tens(3) == 1000;
  }

  lemma DateReadsBack(civil: Civil)
    requires ValidDate(civil) && 0 <= civil.year <= 9999
    ensures |DateText(civil)| == 10
    ensures ReadDate(DateText(civil)) == Some(MakeDay(civil.year, civil.month, civil.date))
  {
    hide Pad, MakeDay, MonthStart, Number, AllDigits;
    TensAre();
    ShortMonths(civil);
    var y, m, d := Pad(civil.year, 4), Pad(civil.month + 1, 2), Pad(civil.date, 2);
    var text := DateText(civil);
    PadReadsBack(civil.year, 4);
    PadReadsBack(civil.month + 1, 2);
    PadReadsBack(civil.date, 2);
    assert text == y + "-" + m + "-" + d;
    assert text[0..4] == y && text[5..7] == m && text[8..10] == d;
  }

  lemma ShortMonths(civil: Civil)
    requires ValidDate(civil)
    ensures civil.date < 100
  {}

  lemma ClockReadsBack(second: nat)
    requires second < DAY
    ensures |ClockText(second)| == 8 && ReadClock(ClockText(second)) == Some(second)
  {
    hide Pad, Number, AllDigits;
    TensAre();
    var h, m, s := Pad(second / 3600, 2), Pad(second / 60 % 60, 2), Pad(second % 60, 2);
    PadReadsBack(second / 3600, 2);
    PadReadsBack(second / 60 % 60, 2);
    PadReadsBack(second % 60, 2);
    var text := ClockText(second);
    assert text == h + ":" + m + ":" + s;
    assert text[0..2] == h && text[3..5] == m && text[6..8] == s;
    assert second / 3600 * 3600 + second / 60 % 60 * 60 + second % 60 == second;
  }

  lemma OffsetReadsBack(offset: int)
    requires -360000 < offset < 360000
    ensures OffsetText(offset) != "" && OffsetText(offset)[0] in {'+', '-'}
    ensures ReadOffset(OffsetText(offset)) == Some(offset)
  {
    hide Pad, Number, AllDigits;
    TensAre();
    var size := AbsoluteOf(offset);
    var h, m, s := Pad(size / 3600, 2), Pad(size % 3600 / 60, 2), Pad(size % 60, 2);
    PadReadsBack(size / 3600, 2);
    PadReadsBack(size % 3600 / 60, 2);
    PadReadsBack(size % 60, 2);
    var text := OffsetText(offset);
    assert text[1..3] == h;
    assert size % 3600 != 0 ==> text[4..6] == m;
    assert size % 60 != 0 ==> text[7..9] == s;
    assert size / 3600 * 3600 + size % 3600 / 60 * 60 + size % 60 == size;
  }

  // ---- the fraction ----

  /** What digits after a point are worth. */
  ghost function FractionValue(digits: string): real
    requires AllDigits(digits)
  {
    if digits == "" then 0.0 else (ValueOf(digits[0]) as real + FractionValue(digits[1..])) / 10.0
  }

  lemma {:induction false} LastZeroIsNothing(digits: string)
    requires AllDigits(digits) && digits != "" && digits[|digits| - 1] == '0'
    ensures FractionValue(digits[..|digits| - 1]) == FractionValue(digits)
  {
    var shorter := digits[..|digits| - 1];
    if |digits| > 1 {
      LastZeroIsNothing(digits[1..]);
      assert shorter[1..] == digits[1..][..|digits[1..]| - 1];
    } else {
      assert digits[1..] == "";
    }
  }

  lemma {:induction false} TrimZerosKeepsTheFraction(digits: string)
    requires AllDigits(digits)
    ensures AllDigits(TrimZeros(digits)) && FractionValue(TrimZeros(digits)) == FractionValue(digits)
  {
    if digits != "" && digits[|digits| - 1] == '0' {
      LastZeroIsNothing(digits);
      TrimZerosKeepsTheFraction(digits[..|digits| - 1]);
    }
  }

  lemma TailReadsBack(fraction: string, offset: int)
    requires AllDigits(fraction) && -360000 < offset < 360000
    ensures var tail, digits := FractionText(fraction) + OffsetText(offset), TrimZeros(fraction);
      && FractionEnd(tail) == |FractionText(fraction)| && tail[FractionEnd(tail)..] == OffsetText(offset)
      && FractionEnd(tail) != 1 && (if FractionEnd(tail) == 0 then "" else tail[1..FractionEnd(tail)]) == digits
  {
    hide OffsetText, TrimZeros, FractionValue;
    TrimZerosKeepsTheFraction(fraction);
    OffsetReadsBack(offset);
    var digits := TrimZeros(fraction);
    var tail := FractionText(fraction) + OffsetText(offset);
    if digits != "" {
      assert tail[1..1 + |digits|] == digits;
      assert tail[1 + |digits|] == OffsetText(offset)[0];
      DigitsEndAt(tail, 1, 1 + |digits|);
    }
  }

  // ---- the whole ----

  lemma WallReadsBack(wall: int, fraction: string, offset: int)
    requires AllDigits(fraction) && -360000 < offset < 360000 && 1 <= CivilOf(wall / DAY).year <= 9999
    ensures ReadShown(WallText(wall, fraction, offset)) == Some((wall - offset, TrimZeros(fraction)))
  {
    hide CivilOf, DateText, ClockText, OffsetText, FractionText, TrimZeros, ReadDate, ReadClock, ReadOffset,
         FractionEnd, MakeDay, AllDigits;
    var civil := CivilOf(wall / DAY);
    var date, clock := DateText(civil), ClockText(wall % DAY);
    var tail := FractionText(fraction) + OffsetText(offset);
    DateReadsBack(civil);
    ClockReadsBack(wall % DAY);
    OffsetReadsBack(offset);
    TailReadsBack(fraction, offset);
    MakeDayUndoesCivil(wall / DAY);
    var text := WallText(wall, fraction, offset);
    assert text == date + " " + clock + tail;
    assert text[..10] == date && text[11..19] == clock && text[19..] == tail;
  }

  lemma FractionIsDigits(text: string)
    requires ParseInstant(text).Some?
    ensures AllDigits(ParseInstant(text).value.fraction)
  {
    hide MinutesAt, StartsWithDate, EndsInOffset, Number, AllDigits;
    AllDigitsOfNone();
    var colon := if CharAt(text, 12, ':') then 12 else 13;
    if CharAt(text, colon + 6, '.') {
      RunIsDigits(text, colon + 7);
    }
  }

  lemma RunIsDigits(text: string, at: nat)
    requires at <= |text|
    ensures AllDigits(text[at..DigitsEnd(text, at)])
  {}

  lemma AllDigitsOfNone()
    ensures AllDigits("")
  {}

  /**
   * Shown in any zone less than a hundred hours from UTC, an instant is left as
   * it came or still names the same instant, to the last digit of its fraction.
   */
  lemma ZoneKeepsTheInstant(text: string, zone: Zone)
    requires ParseInstant(text).Some?
    requires forall at :: zone(at).Some? ==> -360000 < zone(at).value < 360000
    ensures var parts := ParseInstant(text).value;
      if Placed(InstantOf(parts), zone(InstantOf(parts))) then
        && ReadShown(InZone(text, zone)).Some?
        && ReadShown(InZone(text, zone)).value.0 == InstantOf(parts)
        && AllDigits(ReadShown(InZone(text, zone)).value.1) && AllDigits(parts.fraction)
        && FractionValue(ReadShown(InZone(text, zone)).value.1) == FractionValue(parts.fraction)
      else InZone(text, zone) == text
  {
    hide ParseInstant, InstantOf, CivilOf, WallText, ReadShown, FractionValue, TrimZeros, AllDigits;
    var parts := ParseInstant(text).value;
    var at := InstantOf(parts);
    FractionIsDigits(text);
    TrimZerosKeepsTheFraction(parts.fraction);
    if Placed(at, zone(at)) {
      WallReadsBack(at + zone(at).value, parts.fraction, zone(at).value);
    }
  }

  // ---- no date goes out of range ----

  lemma FieldBound(text: string, from: nat, to: nat)
    requires DigitsAt(text, from, to) && to <= from + 4
    ensures NumberAt(text, from, to) < 10000 && (to <= from + 2 ==> NumberAt(text, from, to) < 100)
  {
    TensAre();
    assert Tens(0) == 1 && Tens(1) == 10 && Tens(3) == 1000;
    NumberIsBelow(text[from..to]);
  }

  lemma PartsBound(text: string)
    requires ParseInstant(text).Some?
    ensures var p := ParseInstant(text).value;
      && p.year < 10000 && p.month < 100 && p.day < 100 && p.hour < 100 && p.minute < 100 && p.second < 100
      && -1000000 < p.offset < 1000000
  {
    hide AllDigits, Number, DigitsEnd;
    var colon := if CharAt(text, 12, ':') then 12 else 13;
    var point := colon + 6;
    var end := if CharAt(text, point, '.') then DigitsEnd(text, point + 1) else point;
    FieldBound(text, 0, 4);
    FieldBound(text, 5, 7);
    FieldBound(text, 8, 10);
    FieldBound(text, 11, colon);
    FieldBound(text, colon + 1, colon + 3);
    FieldBound(text, colon + 4, colon + 6);
    FieldBound(text, end + 2, end + 4);
    FieldBound(text, end + 5, end + 7);
    FieldBound(text, end + 8, end + 10);
  }

  /** `TimeClip` never makes a date invalid here: no time computed is 8.64e12 seconds or more from the epoch. */
  lemma TimesStayInRange(text: string, offset: int)
    requires ParseInstant(text).Some? && -360000 < offset < 360000
    ensures var at := InstantOf(ParseInstant(text).value);
      -8640000000000 < at < 8640000000000 && -8640000000000 < at + offset < 8640000000000
  {
    hide ParseInstant, MonthStart, Leap;
    PartsBound(text);
    var p := ParseInstant(text).value;
    MonthStartBound((p.month - 1) % 12, Leap(p.year + (p.month - 1) / 12));
  }

  lemma MonthStartBound(month: nat, leap: bool)
    requires month <= 12
    ensures MonthStart(month, leap) <= 366
  {}
}
