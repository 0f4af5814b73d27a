/**
 * What both drivers send of a point in time, written out field by field, and
 * what `CellTime.InZone` makes of it: which texts are instants, which instant
 * each names, and what is shown of it, said without the reader of the source.
 */
module CellTimeSent {
  import opened Basics
  import opened Chars
  import opened Decimals
  import opened Calendar
  import opened CellTime
  import opened CellTimeProofs

  /** The fields of a sent text: the hour written with two digits or with one, the offset west of UTC or east. */
  datatype Sent = Sent(year: nat, month: nat, day: nat, hour: nat, wide: bool, minute: nat, second: nat,
                       fraction: string, west: bool, hours: nat, minutes: nat, seconds: nat)

  /** Fields that fit where they are written; the calendar and the clock are not asked. */
  ghost predicate Fits(s: Sent) {
    && s.year < 10000 && s.month < 100 && s.day < 100 && s.hour < (if s.wide then 100 else 10)
    && s.minute < 100 && s.second < 100 && AllDigits(s.fraction)
    && s.hours < 100 && s.minutes < 100 && s.seconds < 100
  }

  function SentDate(s: Sent): string {
    Pad(s.year, 4) + "-" + Pad(s.month, 2) + "-" + Pad(s.day, 2)
  }

  function SentClock(s: Sent): string {
    Pad(s.hour, if s.wide then 2 else 1) + ":" + Pad(s.minute, 2) + ":" + Pad(s.second, 2)
  }

  function SentFraction(s: Sent): string {
    if s.fraction == "" then "" else "." + s.fraction
  }

  function SentOffset(s: Sent): string {
    (if s.west then "-" else "+") + Pad(s.hours, 2) + ":" + Pad(s.minutes, 2) + ":" + Pad(s.seconds, 2)
  }

  /** `2025-01-02 1:00:00.5 +09:00:00` */
  function SentText(s: Sent): string {
    SentDate(s) + " " + (SentClock(s) + (SentFraction(s) + (" " + SentOffset(s))))
  }

  /** How far east of UTC the sender's clock was. */
  function East(s: Sent): int {
    var far := s.hours * 3600 + s.minutes * 60 + s.seconds;
    if s.west then -far else far
  }

  /** The point in time: the clock, a day and an hour at a time from 1970, less what it is ahead. */
  function NamedInstant(s: Sent): int {
    MakeDay(s.year, s.month - 1, s.day) * 86400 + s.hour * 3600 + s.minute * 60 + s.second - East(s)
  }

  // ---- a sent text is read field by field ----

  function Fields(s: Sent): Parts {
    Parts(s.year, s.month, s.day, s.hour, s.minute, s.second, s.fraction, East(s))
  }

  lemma PadAt(text: string, from: nat, n: nat, width: nat)
    requires 0 < width && n < Tens(width) && from + width <= |text| && text[from..from + width] == Pad(n, width)
    ensures DigitsAt(text, from, from + width) && NumberAt(text, from, from + width) == n
  {
    PadReadsBack(n, width);
  }

  lemma Widths()
    ensures Tens(1) == 10 && Tens(2) == 100 && Tens(4) == 10000
  {
    assert Tens(0) == 1 && Tens(3) == 1000;
  }

  lemma DateAt(s: Sent, text: string)
    requires Fits(s) && SentDate(s) + " " <= text
    ensures StartsWithDate(text) && |SentDate(s)| == 10
    ensures NumberAt(text, 0, 4) == s.year && NumberAt(text, 5, 7) == s.month && NumberAt(text, 8, 10) == s.day
  {
    hide Pad, Number, AllDigits;
    Widths();
    PadReadsBack(s.year, 4);
    PadReadsBack(s.month, 2);
    PadReadsBack(s.day, 2);
    var date := SentDate(s) + " ";
    assert date == Pad(s.year, 4) + "-" + Pad(s.month, 2) + "-" + Pad(s.day, 2) + " ";
    assert text[0..4] == date[0..4] == Pad(s.year, 4);
    assert text[5..7] == date[5..7] == Pad(s.month, 2);
    assert text[8..10] == date[8..10] == Pad(s.day, 2);
    assert text[4] == date[4] && text[7] == date[7] && text[10] == date[10];
  }

  /** The colon after an hour of one digit or of two. */
  function Colon(s: Sent): nat {
    if s.wide then 13 else 12
  }

  /** A piece of what a text goes on with is a piece of the text. */
  lemma SliceOf(text: string, at: nat, part: string, i: nat, j: nat)
    requires at <= |text| && part <= text[at..] && i <= j <= |part|
    ensures at + j <= |text| && text[at + i..at + j] == part[i..j]
    ensures i < j ==> text[at + i] == part[i]
  {
    assert text[at..][..|part|] == part;
    assert text[at + i..at + j] == text[at..][i..j] == part[i..j];
    assert i < j ==> text[at + i] == text[at..][i];
  }

  lemma ClockAt(s: Sent, text: string)
    requires Fits(s) && |text| >= 11 && SentClock(s) <= text[11..]
    ensures |SentClock(s)| == Colon(s) - 5 && |text| >= Colon(s) + 6
    ensures CharAt(text, 12, ':') <==> !s.wide
    ensures DigitsAt(text, 11, Colon(s)) && NumberAt(text, 11, Colon(s)) == s.hour && MinutesAt(text, Colon(s))
    ensures NumberAt(text, Colon(s) + 1, Colon(s) + 3) == s.minute
    ensures NumberAt(text, Colon(s) + 4, Colon(s) + 6) == s.second
  {
    hide Pad, Number, AllDigits;
    Widths();
    var width := if s.wide then 2 else 1;
    PadReadsBack(s.hour, width);
    PadReadsBack(s.minute, 2);
    PadReadsBack(s.second, 2);
    var clock, colon := SentClock(s), Colon(s);
    assert clock == Pad(s.hour, width) + ":" + Pad(s.minute, 2) + ":" + Pad(s.second, 2);
    SliceOf(text, 11, clock, 0, width);
    SliceOf(text, 11, clock, width, width + 1);
    SliceOf(text, 11, clock, width + 1, width + 3);
    SliceOf(text, 11, clock, width + 3, width + 4);
    SliceOf(text, 11, clock, width + 4, width + 6);
    assert clock[..width] == Pad(s.hour, width) && clock[width + 1..width + 3] == Pad(s.minute, 2);
    assert clock[width + 4..width + 6] == Pad(s.second, 2) && clock[width] == clock[width + 3] == ':';
    if s.wide {
      SecondIsDigit(text, 11);
    }
  }

  lemma SecondIsDigit(text: string, at: nat)
    requires DigitsAt(text, at, at + 2)
    ensures !CharAt(text, at + 1, ':')
  {
    assert text[at + 1] == text[at..at + 2][1];
  }

  lemma OffsetAt(s: Sent, text: string, at: nat)
    requires Fits(s) && at <= |text| && text[at..] == " " + SentOffset(s)
    ensures EndsInOffset(text, at) && (text[at + 1] == '-' <==> s.west)
    ensures NumberAt(text, at + 2, at + 4) == s.hours && NumberAt(text, at + 5, at + 7) == s.minutes
    ensures NumberAt(text, at + 8, at + 10) == s.seconds
  {
    hide Pad, Number, AllDigits;
    Widths();
    PadReadsBack(s.hours, 2);
    PadReadsBack(s.minutes, 2);
    PadReadsBack(s.seconds, 2);
    var offset := text[at..];
    assert offset == " " + (if s.west then "-" else "+") + Pad(s.hours, 2) + ":" + Pad(s.minutes, 2) + ":" + Pad(s.seconds, 2);
    assert text[at + 2..at + 4] == offset[2..4] == Pad(s.hours, 2);
    assert text[at + 5..at + 7] == offset[5..7] == Pad(s.minutes, 2);
    assert text[at + 8..at + 10] == offset[8..10] == Pad(s.seconds, 2);
    assert text[at] == offset[0] && text[at + 1] == offset[1] && text[at + 4] == offset[4] && text[at + 7] == offset[7];
  }

  lemma FractionAt(s: Sent, text: string, point: nat)
    requires Fits(s) && point <= |text| && text[point..] == SentFraction(s) + (" " + SentOffset(s))
    ensures CharAt(text, point, '.') <==> s.fraction != ""
    ensures var end := point + |SentFraction(s)|;
      && end < |text| && text[end..] == " " + SentOffset(s)
      && (s.fraction != "" ==> DigitsEnd(text, point + 1) == end && text[point + 1..end] == s.fraction)
  {
    hide Pad;
    var end := point + |SentFraction(s)|;
    var tail := text[point..];
    assert text[end..] == tail[|SentFraction(s)|..];
    assert text[point] == tail[0];
    if s.fraction != "" {
      assert text[point + 1..end] == tail[1..|SentFraction(s)|] == s.fraction;
      assert text[end] == text[end..][0] == ' ';
      DigitsEndAt(text, point + 1, end);
    }
  }

  /** The expression's pieces, once each is found. */
  lemma PiecesAreParsed(text: string, colon: nat, end: nat, east: int)
    requires StartsWithDate(text) && colon == (if CharAt(text, 12, ':') then 12 else 13)
    requires DigitsAt(text, 11, colon) && MinutesAt(text, colon) && EndsEast(text, end, east)
    requires end == if CharAt(text, colon + 6, '.') then DigitsEnd(text, colon + 7) else colon + 6
    requires end != colon + 7
    ensures ParseInstant(text) == Some(Parts(
      NumberAt(text, 0, 4), NumberAt(text, 5, 7), NumberAt(text, 8, 10),
      NumberAt(text, 11, colon), NumberAt(text, colon + 1, colon + 3), NumberAt(text, colon + 4, colon + 6),
      if end == colon + 6 then "" else text[colon + 7..end], east))
  {
    hide Number, AllDigits, DigitsEnd;
  }

  /** An offset so far east is the last thing in a text. */
  ghost predicate EndsEast(text: string, at: nat, east: int) {
    && EndsInOffset(text, at)
    && Signed(text[at + 1] == '-', NumberAt(text, at + 2, at + 4) * 3600 + NumberAt(text, at + 5, at + 7) * 60
                                   + NumberAt(text, at + 8, at + 10)) == east
  }

  /** Where the fraction, if there is one, ends, and the offset starts. */
  lemma TailAt(s: Sent, text: string, point: nat)
    requires Fits(s) && point <= |text| && text[point..] == SentFraction(s) + (" " + SentOffset(s))
    ensures var end := point + |SentFraction(s)|;
      && end == (if CharAt(text, point, '.') then DigitsEnd(text, point + 1) else point) && end != point + 1
      && end <= |text| && (if end == point then "" else text[point + 1..end]) == s.fraction
      && EndsEast(text, end, East(s))
  {
    hide Pad, AllDigits, EndsEast, DigitsEnd, SentOffset, CharAt, SentFraction;
    FractionAt(s, text, point);
    FractionLength(s);
    EndsEastAt(s, text, point + |SentFraction(s)|);
  }

  lemma EndsEastAt(s: Sent, text: string, at: nat)
    requires Fits(s) && at <= |text| && text[at..] == " " + SentOffset(s)
    ensures EndsEast(text, at, East(s))
  {
    hide Pad, Number, AllDigits, EndsInOffset, DigitsAt, SentOffset, NumberAt;
    OffsetAt(s, text, at);
  }

  lemma SentIsRead(s: Sent)
    requires Fits(s)
    ensures ParseInstant(SentText(s)) == Some(Fields(s))
  {
    hide Pad, Number, AllDigits, StartsWithDate, MinutesAt, EndsInOffset, DigitsAt, DigitsEnd, SentDate, SentClock,
         SentFraction, SentOffset, CharAt, ParseInstant, NumberAt, SentText, East, Fits, EndsEast;
    var text, colon := SentText(s), Colon(s);
    SentParts(s);
    DateAt(s, text);
    ClockAt(s, text);
    TailAt(s, text, colon + 6);
    PiecesAreParsed(text, colon, colon + 6 + |SentFraction(s)|, East(s));
  }

  lemma SentParts(s: Sent)
    requires Fits(s)
    ensures SentDate(s) + " " <= SentText(s) && |SentText(s)| >= 11 && SentClock(s) <= SentText(s)[11..]
    ensures Colon(s) + 6 <= |SentText(s)|
    ensures SentText(s)[Colon(s) + 6..] == SentFraction(s) + (" " + SentOffset(s))
  {
    hide Pad, Number, AllDigits, SentDate, SentClock, SentFraction, SentOffset, StartsWithDate;
    var rest := SentFraction(s) + (" " + SentOffset(s));
    DateAt(s, SentDate(s) + " ");
    ClockAt(s, (SentDate(s) + " ") + SentClock(s));
    assert SentText(s) == (SentDate(s) + " ") + SentClock(s) + rest;
  }

  lemma FractionLength(s: Sent)
    ensures |SentFraction(s)| == if s.fraction == "" then 0 else 1 + |s.fraction|
  {}

  // ---- what is shown of it ----

  /** The offset a shown text ends in. */
  function OffsetShown(text: string): string {
    if |text| < 19 then "" else text[19 + FractionEnd(text[19..])..]
  }

  lemma WallShowsOffset(wall: int, fraction: string, offset: int)
    requires AllDigits(fraction) && -360000 < offset < 360000 && 1 <= CivilOf(wall / DAY).year <= 9999
    ensures OffsetShown(WallText(wall, fraction, offset)) == OffsetText(offset)
  {
    hide CivilOf, DateText, ClockText, OffsetText, FractionText, TrimZeros, FractionEnd, MakeDay, AllDigits, ReadDate;
    var date, clock := DateText(CivilOf(wall / DAY)), ClockText(wall % DAY);
    var tail := FractionText(fraction) + OffsetText(offset);
    DateReadsBack(CivilOf(wall / DAY));
    ClockReadsBack(wall % DAY);
    TailReadsBack(fraction, offset);
    var text := WallText(wall, fraction, offset);
    assert text == date + " " + clock + tail;
    assert text[19..] == tail;
    assert text[19 + FractionEnd(tail)..] == tail[FractionEnd(tail)..];
  }

  lemma OffsetLength(offset: int)
    requires -360000 < offset < 360000
    ensures var size := AbsoluteOf(offset);
      |OffsetText(offset)| == 3 + (if size % 3600 == 0 then 0 else 3) + (if size % 60 == 0 then 0 else 3)
  {
    hide Pad, Number, AllDigits;
    Widths();
    var size := AbsoluteOf(offset);
    PadReadsBack(size / 3600, 2);
    PadReadsBack(size % 3600 / 60, 2);
    PadReadsBack(size % 60, 2);
  }

  lemma OffsetIsShort(offset: int)
    requires -360000 < offset < 360000
    ensures ReadOffset(OffsetText(offset)) == Some(offset)
    ensures |OffsetText(offset)| == if offset % 3600 == 0 then 3 else if offset % 60 == 0 then 6 else 9
  {
    hide ReadOffset, OffsetText;
    OffsetReadsBack(offset);
    OffsetLength(offset);
    var size := AbsoluteOf(offset);
    assert (size % 3600 == 0 <==> offset % 3600 == 0) && (size % 60 == 0 <==> offset % 60 == 0);
  }

  lemma {:induction false} TrimmedEndsInNoZero(digits: string)
    ensures var trimmed := TrimZeros(digits); trimmed != "" ==> trimmed[|trimmed| - 1] != '0'
  {
    if digits != "" && digits[|digits| - 1] == '0' {
      TrimmedEndsInNoZero(digits[..|digits| - 1]);
    }
  }

  /** What is shown of a point in time in a zone: the same instant and fraction, as short as can be, at the zone's offset. */
  ghost predicate Shows(shown: string, at: int, fraction: string, offset: int)
    requires AllDigits(fraction)
  {
    && ReadShown(shown).Some? && ReadShown(shown).value.0 == at
    && var digits := ReadShown(shown).value.1;
    && AllDigits(digits) && FractionValue(digits) == FractionValue(fraction)
    && (digits != "" ==> digits[|digits| - 1] != '0')
    && ReadOffset(OffsetShown(shown)) == Some(offset)
    && |OffsetShown(shown)| == if offset % 3600 == 0 then 3 else if offset % 60 == 0 then 6 else 9
  }

  lemma WallShows(wall: int, fraction: string, offset: int)
    requires AllDigits(fraction) && -360000 < offset < 360000 && 1 <= CivilOf(wall / DAY).year <= 9999
    ensures Shows(WallText(wall, fraction, offset), wall - offset, fraction, offset)
  {
    hide CivilOf, WallText, OffsetText, TrimZeros, ReadShown, ReadOffset, FractionValue, OffsetShown, AllDigits;
    WallReadsBack(wall, fraction, offset);
    WallShowsOffset(wall, fraction, offset);
    OffsetIsShort(offset);
    TrimZerosKeepsTheFraction(fraction);
    TrimmedEndsInNoZero(fraction);
  }

  ghost predicate SentShows(s: Sent, shown: string, zone: Zone)
    requires Fits(s)
  {
    var at := NamedInstant(s);
    if zone(at).Some? && 1 <= CivilOf((at + zone(at).value) / 86400).year <= 9999
    then Shows(shown, at, s.fraction, zone(at).value)
    else shown == SentText(s)
  }

  /**
   * Whatever a driver sends of a point in time is shown as that point: its
   * clock less its own offset, moved by the zone's. Where the zone does not
   * exist, or the year there is not of four digits, it is left as it came.
   */
  lemma SentIsShown(s: Sent, zone: Zone)
    requires Fits(s) && forall at :: zone(at).Some? ==> -360000 < zone(at).value < 360000
    ensures SentShows(s, InZone(SentText(s), zone), zone)
  {
    hide CivilOf, WallText, SentText, MakeDay, ParseInstant, Shows;
    SentIsRead(s);
    var at := NamedInstant(s);
    assert InstantOf(Fields(s)) == at;
    if zone(at).Some? && 1 <= CivilOf((at + zone(at).value) / 86400).year <= 9999 {
      WallShows(at + zone(at).value, s.fraction, zone(at).value);
    }
  }

  /** Of a date the calendar has, and a time of its day, the point is the one they name less the offset. */
  lemma DatesAreShown(civil: Civil, second: nat, fraction: string, offset: int, wide: bool, zone: Zone)
    returns (s: Sent)
    requires ValidDate(civil) && 0 <= civil.year <= 9999 && second < 86400 && AllDigits(fraction)
    requires -360000 < offset < 360000 && (wide || second < 36000)
    requires forall at :: zone(at).Some? ==> -360000 < zone(at).value < 360000
    ensures Fits(s) && SentDate(s) == DateText(civil) && (wide ==> SentClock(s) == ClockText(second))
    ensures East(s) == offset && s.fraction == fraction && s.wide == wide
    ensures NamedInstant(s) == MakeDay(civil.year, civil.month, civil.date) * 86400 + second - offset
    ensures CivilOf((NamedInstant(s) + offset) / 86400) == civil && (NamedInstant(s) + offset) % 86400 == second
  {
    hide CivilOf, MakeDay;
    var far := AbsoluteOf(offset);
    ShortMonths(civil);
    assert far / 3600 * 3600 + far % 3600 / 60 * 60 + far % 60 == far;
    assert second / 3600 * 3600 + second / 60 % 60 * 60 + second % 60 == second;
    s := Sent(civil.year, civil.month + 1, civil.date, second / 3600, wide, second / 60 % 60, second % 60, fraction,
              offset < 0, far / 3600, far % 3600 / 60, far % 60);
    var day := MakeDay(civil.year, civil.month, civil.date);
    assert (day * 86400 + second) / 86400 == day && (day * 86400 + second) % 86400 == second;
    CivilUndoesMakeDay(civil);
  }

  // ---- and no other text is touched ----

  lemma DigitsWritten(text: string, from: nat, to: nat)
    requires from < to && DigitsAt(text, from, to)
    ensures Pad(NumberAt(text, from, to), to - from) == text[from..to]
    ensures NumberAt(text, from, to) < Tens(to - from)
  {
    DigitsArePadded(text[from..to]);
  }

  lemma DateWritten(text: string, s: Sent)
    requires StartsWithDate(text)
    requires s.year == NumberAt(text, 0, 4) && s.month == NumberAt(text, 5, 7) && s.day == NumberAt(text, 8, 10)
    ensures SentDate(s) + " " == text[..11] && s.year < 10000 && s.month < 100 && s.day < 100
  {
    hide Pad, Number, AllDigits;
    Widths();
    DigitsWritten(text, 0, 4);
    DigitsWritten(text, 5, 7);
    DigitsWritten(text, 8, 10);
  }

  lemma ClockWritten(text: string, s: Sent)
    requires |text| >= 11 && DigitsAt(text, 11, Colon(s)) && MinutesAt(text, Colon(s))
    requires s.hour == NumberAt(text, 11, Colon(s))
    requires s.minute == NumberAt(text, Colon(s) + 1, Colon(s) + 3)
    requires s.second == NumberAt(text, Colon(s) + 4, Colon(s) + 6)
    ensures SentClock(s) == text[11..Colon(s) + 6]
    ensures s.hour < (if s.wide then 100 else 10) && s.minute < 100 && s.second < 100
  {
    hide Pad, Number, AllDigits;
    Widths();
    var colon := Colon(s);
    DigitsWritten(text, 11, colon);
    DigitsWritten(text, colon + 1, colon + 3);
    DigitsWritten(text, colon + 4, colon + 6);
  }

  lemma OffsetWritten(text: string, at: nat, s: Sent)
    requires EndsInOffset(text, at) && (s.west <==> text[at + 1] == '-')
    requires s.hours == NumberAt(text, at + 2, at + 4) && s.minutes == NumberAt(text, at + 5, at + 7)
    requires s.seconds == NumberAt(text, at + 8, at + 10)
    ensures " " + SentOffset(s) == text[at..] && s.hours < 100 && s.minutes < 100 && s.seconds < 100
  {
    hide Pad, Number, AllDigits;
    Widths();
    DigitsWritten(text, at + 2, at + 4);
    DigitsWritten(text, at + 5, at + 7);
    DigitsWritten(text, at + 8, at + 10);
  }

  /** Where the pieces of a text read as an instant are. */
  ghost predicate Pieces(text: string, colon: nat, end: nat) {
    && StartsWithDate(text) && colon in {12, 13} && DigitsAt(text, 11, colon) && MinutesAt(text, colon)
    && colon + 6 <= end <= |text| && EndsInOffset(text, end)
    && (end > colon + 6 ==> text[colon + 6] == '.' && end > colon + 7 && AllDigits(text[colon + 7..end]))
  }

  lemma PiecesOf(text: string) returns (colon: nat, end: nat)
    requires ParseInstant(text).Some?
    ensures Pieces(text, colon, end)
  {
    hide Number, AllDigits;
    colon := if CharAt(text, 12, ':') then 12 else 13;
    end := if CharAt(text, colon + 6, '.') then DigitsEnd(text, colon + 7) else colon + 6;
    if CharAt(text, colon + 6, '.') {
      RunIsDigits(text, colon + 7);
    }
  }

  /** Every text read as an instant is one a driver may send. */
  lemma ReadIsSent(text: string) returns (s: Sent)
    requires ParseInstant(text).Some?
    ensures Fits(s) && SentText(s) == text
  {
    var colon, end := PiecesOf(text);
    s := PiecesAreSent(text, colon, end);
  }

  lemma PiecesAreSent(text: string, colon: nat, end: nat) returns (s: Sent)
    requires Pieces(text, colon, end)
    ensures Fits(s) && SentText(s) == text
  {
    hide Pad, Number, AllDigits, SentDate, SentClock, SentOffset, SentFraction;
    MinutePieces(text, colon);
    OffsetPieces(text, end);
    AllDigitsOfNone();
    DatePieces(text);
    s := Sent(NumberAt(text, 0, 4), NumberAt(text, 5, 7), NumberAt(text, 8, 10), NumberAt(text, 11, colon), colon == 13,
              NumberAt(text, colon + 1, colon + 3), NumberAt(text, colon + 4, colon + 6),
              if end == colon + 6 then "" else text[colon + 7..end],
              text[end + 1] == '-', NumberAt(text, end + 2, end + 4), NumberAt(text, end + 5, end + 7),
              NumberAt(text, end + 8, end + 10));
    hide MinutesAt, StartsWithDate, EndsInOffset, DigitsAt, NumberAt;
    DateWritten(text, s);
    ClockWritten(text, s);
    OffsetWritten(text, end, s);
    FractionWritten(text, colon + 6, end, s);
    assert text == text[..11] + (text[11..colon + 6] + (text[colon + 6..end] + text[end..]));
  }

  lemma DatePieces(text: string)
    requires StartsWithDate(text)
    ensures |text| >= 11 && DigitsAt(text, 0, 4) && DigitsAt(text, 5, 7) && DigitsAt(text, 8, 10)
  {
    hide AllDigits;
  }

  lemma MinutePieces(text: string, at: nat)
    requires MinutesAt(text, at)
    ensures DigitsAt(text, at + 1, at + 3) && DigitsAt(text, at + 4, at + 6)
  {
    hide AllDigits;
  }

  lemma FractionWritten(text: string, point: nat, end: nat, s: Sent)
    requires point <= end <= |text| && (end > point ==> text[point] == '.' && end > point + 1)
    requires s.fraction == if end == point then "" else text[point + 1..end]
    ensures SentFraction(s) == text[point..end]
  {}

  lemma OffsetPieces(text: string, at: nat)
    requires EndsInOffset(text, at)
    ensures DigitsAt(text, at + 2, at + 4) && DigitsAt(text, at + 5, at + 7) && DigitsAt(text, at + 8, at + 10)
    ensures at + 1 < |text|
  {
    hide AllDigits;
  }

  /** A text no driver sends of a point in time is left as it came. */
  lemma OthersAreKept(text: string, zone: Zone)
    requires forall s :: Fits(s) ==> SentText(s) != text
    ensures InZone(text, zone) == text
  {
    hide ParseInstant, SentText;
    if ParseInstant(text).Some? {
      var s := ReadIsSent(text);
    }
  }

  /** What becomes of a text: what a driver sends is shown in the zone, and anything else is left as it came. */
  ghost predicate TextShows(text: string, shown: string, zone: Zone) {
    && (forall s :: Fits(s) && SentText(s) == text ==> SentShows(s, shown, zone))
    && ((forall s :: Fits(s) ==> SentText(s) != text) ==> shown == text)
  }

  /** The same cell, with every text in it, however deep, shown so. */
  ghost predicate CellShows(cell: Cell, shown: Cell, zone: Zone)
    decreases cell
  {
    match (cell, shown)
    case (Text(text), Text(other)) => TextShows(text, other, zone)
    case (Array(items), Array(others)) =>
      |items| == |others| && forall i :: 0 <= i < |items| ==> CellShows(items[i], others[i], zone)
    case (Other(json), Other(other)) => json == other
    case _ => false
  }

  lemma TextIsShown(text: string, zone: Zone)
    requires forall at :: zone(at).Some? ==> -360000 < zone(at).value < 360000
    ensures TextShows(text, InZone(text, zone), zone)
  {
    hide InZone, SentText, SentShows, Fits;
    forall s | Fits(s) && SentText(s) == text
      ensures SentShows(s, InZone(text, zone), zone)
    {
      SentIsShown(s, zone);
    }
    if forall s :: Fits(s) ==> SentText(s) != text {
      OthersAreKept(text, zone);
    }
  }

  /** An array's elements are shown each as they would be alone, and nothing else in a cell is touched. */
  lemma {:induction false} CellsAreShown(cell: Cell, zone: Zone)
    requires forall at :: zone(at).Some? ==> -360000 < zone(at).value < 360000
    ensures CellShows(cell, CellInZone(cell, zone), zone)
  {
    hide InZone, TextShows;
    match cell
    case Text(text) => TextIsShown(text, zone);
    case Array(items) =>
      forall i | 0 <= i < |items|
        ensures CellShows(items[i], CellInZone(items[i], zone), zone)
      {
        CellsAreShown(items[i], zone);
      }
    case Other(_) =>
  }
}
