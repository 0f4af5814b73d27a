/**
 * An instant's text rewritten for another zone (`inTimeZone` of
 * `src/features/query/cell.ts`).
 *
 * Times are whole seconds from 1970-01-01 00:00 UTC; the fraction is carried as
 * its digits. `offsetAt` is any function from a time to seconds east of UTC,
 * or to nothing where the zone does not exist or its offset cannot be read.
 */
module CellTime {
  import opened Basics
  import opened Chars
  import opened Decimals
  import opened Calendar

  type Zone = int -> Option<int>

  const DAY := 86400

  /** What the fields of an instant's text say. */
  datatype Parts = Parts(year: nat, month: nat, day: nat, hour: nat, minute: nat, second: nat,
                         fraction: string, offset: int)

  // ---- reading what the drivers send ----

  predicate DigitsAt(text: string, from: nat, to: nat) {
    from <= to <= |text| && AllDigits(text[from..to])
  }

  predicate CharAt(text: string, at: nat, c: char) {
    at < |text| && text[at] == c
  }

  function NumberAt(text: string, from: nat, to: nat): nat
    requires DigitsAt(text, from, to)
  {
    Number(text[from..to])
  }

  /** ` ±hh:mm:ss` and nothing more. */
  predicate EndsInOffset(text: string, at: nat) {
    && |text| == at + 10 && text[at] == ' ' && text[at + 1] in {'+', '-'}
    && DigitsAt(text, at + 2, at + 4) && text[at + 4] == ':'
    && DigitsAt(text, at + 5, at + 7) && text[at + 7] == ':' && DigitsAt(text, at + 8, at + 10)
  }

  function Signed(negative: bool, magnitude: int): int {
    if negative then -magnitude else magnitude
  }

  predicate StartsWithDate(text: string) {
    && DigitsAt(text, 0, 4) && CharAt(text, 4, '-') && DigitsAt(text, 5, 7) && CharAt(text, 7, '-')
    && DigitsAt(text, 8, 10) && CharAt(text, 10, ' ')
  }

  /** `:mm:ss` */
  predicate MinutesAt(text: string, at: nat) {
    && CharAt(text, at, ':') && DigitsAt(text, at + 1, at + 3)
    && CharAt(text, at + 3, ':') && DigitsAt(text, at + 4, at + 6)
  }

  /** A date, a time whose hour may be one digit, a fraction if any, and an offset of up to seconds. */
  function ParseInstant(text: string): Option<Parts> {
    if !StartsWithDate(text) then None
    else
      var colon := if CharAt(text, 12, ':') then 12 else 13;
      if !DigitsAt(text, 11, colon) || !MinutesAt(text, colon) then None
      else
        var point := colon + 6;
        var end := if CharAt(text, point, '.') then DigitsEnd(text, point + 1) else point;
        if end == point + 1 || !EndsInOffset(text, end) then None
        else Some(Parts(
          NumberAt(text, 0, 4), NumberAt(text, 5, 7), NumberAt(text, 8, 10),
          NumberAt(text, 11, colon), NumberAt(text, colon + 1, colon + 3), NumberAt(text, colon + 4, colon + 6),
          if end == point then "" else text[point + 1..end],
          Signed(text[end + 1] == '-',
            NumberAt(text, end + 2, end + 4) * 3600 + NumberAt(text, end + 5, end + 7) * 60
            + NumberAt(text, end + 8, end + 10))))
  }

  /** The instant the parts name, by the calendar and a day of 86,400 seconds. */
  function InstantOf(parts: Parts): int {
    MakeDay(parts.year, parts.month - 1, parts.day) * DAY
    + parts.hour * 3600 + parts.minute * 60 + parts.second - parts.offset
  }

  // ---- writing it in the zone ----

  function TrimZeros(fraction: string): string {
    if fraction != "" && fraction[|fraction| - 1] == '0' then TrimZeros(fraction[..|fraction| - 1]) else fraction
  }

  function AbsoluteOf(n: int): nat {
    if n < 0 then -n else n
  }

  /** `+09`, `+05:30`, `+09:18:59` */
  function OffsetText(offset: int): string {
    var magnitude := AbsoluteOf(offset);
    (if offset < 0 then "-" else "+") + Pad(magnitude / 3600, 2)
    + (if magnitude % 3600 == 0 then "" else ":" + Pad(magnitude % 3600 / 60, 2))
    + (if magnitude % 60 == 0 then "" else ":" + Pad(magnitude % 60, 2))
  }

  function DateText(civil: Civil): string
    requires 0 <= civil.year && 0 <= civil.date
  {
    Pad(civil.year, 4) + "-" + Pad(civil.month + 1, 2) + "-" + Pad(civil.date, 2)
  }

  function ClockText(second: nat): string {
    Pad(second / 3600, 2) + ":" + Pad(second / 60 % 60, 2) + ":" + Pad(second % 60, 2)
  }

  function FractionText(fraction: string): string {
    var digits := TrimZeros(fraction);
    if digits == "" then "" else "." + digits
  }

  /** The zone has a year that can be written there. */
  predicate Placed(at: int, offset: Option<int>) {
    offset.Some? && 1 <= CivilOf((at + offset.value) / DAY).year <= 9999
  }

  function WallText(wall: int, fraction: string, offset: int): string
    requires 1 <= CivilOf(wall / DAY).year
  {
    DateText(CivilOf(wall / DAY)) + " " + ClockText(wall % DAY) + FractionText(fraction) + OffsetText(offset)
  }

  /** An instant's text in the zone; one that cannot be placed is left as it came. */
  function Moved(text: string, parts: Parts, zone: Zone): string {
    var at := InstantOf(parts);
    var offset := zone(at);
    if !Placed(at, offset) then text
    else WallText(at + offset.value, parts.fraction, offset.value)
  }

  /** What is not an instant is left as it came too. */
  function InZone(text: string, zone: Zone): string {
    match ParseInstant(text)
    case None => text
    case Some(parts) => Moved(text, parts, zone)
  }

  // ---- the same with a date that is set in steps ----

  /** JavaScript's `Date`, read and set in UTC. */
  class UtcDate {
    var seconds: int

    constructor (seconds: int)
      ensures this.seconds == seconds
    {
      this.seconds := seconds;
    }

    /** Keeps the time of day. */
    method SetFullYear(year: int, month: int, date: int)
      modifies this
      ensures seconds == MakeDay(year, month, date) * DAY + old(seconds) % DAY
    {
      seconds := MakeDay(year, month, date) * DAY + seconds % DAY;
    }

    /** Keeps the day; hours, minutes and seconds past their ends run over. */
    method SetHours(hour: int, minute: int, second: int)
      modifies this
      ensures seconds == old(seconds) / DAY * DAY + hour * 3600 + minute * 60 + second
    {
      seconds := seconds / DAY * DAY + hour * 3600 + minute * 60 + second;
    }
  }

  method InTimeZone(text: string, zone: Zone) returns (shown: string)
    ensures shown == InZone(text, zone)
  {
    hide ParseInstant, MakeDay, CivilOf, WallText;
    var read := ParseInstant(text);
    if read.None? {
      return text;
    }
    var parts := read.value;
    var at := new UtcDate(0);
    at.SetFullYear(parts.year, parts.month - 1, parts.day);
    at.SetHours(parts.hour, parts.minute, parts.second - parts.offset);
    assert at.seconds == InstantOf(parts);
    var offset := zone(at.seconds);
    if offset.None? {
      return text;
    }
    var wall := new UtcDate(at.seconds + offset.value);
    var civil := CivilOf(wall.seconds / DAY);
    if civil.year < 1 || civil.year > 9999 {
      return text;
    }
    return WallText(wall.seconds, parts.fraction, offset.value);
  }

  /** A cell is JSON: a text, an array, or something this does not touch. */
  datatype Cell = Text(text: string) | Array(items: seq<Cell>) | Other(json: string)

  function CellInZone(cell: Cell, zone: Zone): Cell {
    match cell
    case Text(text) => Text(InZone(text, zone))
    case Array(items) => Array(seq(|items|, i requires 0 <= i < |items| => CellInZone(items[i], zone)))
    case Other(_) => cell
  }
}
