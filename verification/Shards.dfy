/**
 * Tables named after a day, and the sets they are folded into (`shardPrefix`
 * and `shardGroups` of `src/features/schema-tree/rows.ts`).
 */
module Shards {
  import opened Basics
  import opened Chars
  import opened Decimals
  import opened Calendar

  // ---- a day's name ----

  /** `/^(.+)_([1-9]\d{3})(\d{2})(\d{2})$/` */
  predicate LooksDated(name: string) {
    && |name| >= 10 && OneLine(name[..|name| - 9]) && name[|name| - 9] == '_'
    && AllDigits(name[|name| - 8..]) && name[|name| - 8] != '0'
  }

  function Digits(name: string): string
    requires LooksDated(name)
  {
    name[|name| - 8..]
  }

  /** The date of eight digits, its month from 1. */
  function ReadDate(digits: string): (int, int, int)
    requires AllDigits(digits) && |digits| == 8
  {
    (Number(digits[..4]), Number(digits[4..6]), Number(digits[6..]))
  }

  /** What a table named after a day is named before the day. */
  function ShardPrefix(name: string): Option<string> {
    if !LooksDated(name) then None
    else
      var (year, month, day) := ReadDate(Digits(name));
      var date := CivilOf(MakeDay(year, month - 1, day));
      if date.year == year && date.month == month - 1 && date.date == day then Some(name[..|name| - 9]) else None
  }

  /** A day of the years that four digits can write. */
  predicate IsDay(date: Civil) {
    ValidDate(date) && 1000 <= date.year <= 9999
  }

  lemma DayIsShort(date: Civil)
    requires ValidDate(date)
    ensures date.date <= 31
  {}

  function Dated(date: Civil): string
    requires IsDay(date)
  {
    DayIsShort(date);
    Pad(date.year, 4) + Pad(date.month + 1, 2) + Pad(date.date, 2)
  }

  lemma DatedReads(date: Civil)
    requires IsDay(date)
    ensures |Dated(date)| == 8 && AllDigits(Dated(date)) && Dated(date)[0] != '0'
    ensures ReadDate(Dated(date)) == (date.year, date.month + 1, date.date)
  {
    hide Pad, ValidDate, CivilOf;
    DayIsShort(date);
    assert date.month < 12 && 1 <= date.date by { IsADate(date); }
    assert Tens(1) == 10 * Tens(0) && Tens(2) == 10 * Tens(1) && Tens(3) == 10 * Tens(2) && Tens(4) == 10 * Tens(3);
    PadReadsBack(date.year, 4);
    PadReadsBack(date.month + 1, 2);
    PadReadsBack(date.date, 2);
    var s := Dated(date);
    assert s[..4] == Pad(date.year, 4) && s[4..6] == Pad(date.month + 1, 2) && s[6..] == Pad(date.date, 2);
    Thousands(Pad(date.year, 4));
  }

  lemma IsADate(date: Civil)
    requires ValidDate(date)
    ensures date.month < 12 && 1 <= date.date
  {}

  lemma Thousands(digits: string)
    requires AllDigits(digits) && |digits| == 4
    ensures Number(digits) < 10000
    ensures Number(digits) >= 1000 <==> digits[0] != '0'
  {
    assert digits[..3][..2][..1] == [digits[0]];
    assert Number(digits) == 10 * Number(digits[..3]) + ValueOf(digits[3]);
    assert Number(digits[..3]) == 10 * Number(digits[..3][..2]) + ValueOf(digits[2]);
    assert Number(digits[..3][..2]) == 10 * Number([digits[0]]) + ValueOf(digits[1]);
    assert Number([digits[0]]) == 10 * Number([digits[0]][..0]) + ValueOf(digits[0]);
  }

  /** Digits of one length that name one number are the same. */
  lemma {:induction false} NumberIsItsDigits(a: string, b: string)
    requires AllDigits(a) && AllDigits(b) && |a| == |b| && Number(a) == Number(b)
    ensures a == b
  {
    if a != "" {
      var n := |a| - 1;
      assert ValueOf(a[n]) < 10 && ValueOf(b[n]) < 10;
      NumberIsItsDigits(a[..n], b[..n]);
      assert a == a[..n] + [a[n]] && b == b[..n] + [b[n]];
    }
  }

  lemma PaddedAgain(digits: string, width: nat)
    requires AllDigits(digits) && |digits| == width > 0
    ensures Pad(Number(digits), width) == digits
  {
    NumberIsBelow(digits);
    PadReadsBack(Number(digits), width);
    NumberIsItsDigits(Pad(Number(digits), width), digits);
  }

  /** The prefix is a shard's exactly when what follows is a day the calendar has, since the year 1000. */
  lemma ShardIsADay(name: string, prefix: string)
    ensures ShardPrefix(name) == Some(prefix)
            <==> prefix != "" && OneLine(prefix) && exists date :: IsDay(date) && name == prefix + "_" + Dated(date)
  {
    if ShardPrefix(name) == Some(prefix) {
      DayOfShard(name);
      var date := DateOf(name);
      assert name == prefix + "_" + Dated(date);
    }
    if prefix != "" && OneLine(prefix) {
      forall date | IsDay(date) && name == prefix + "_" + Dated(date)
        ensures ShardPrefix(name) == Some(prefix)
      {
        ShardOfDay(prefix, date);
      }
    }
  }

  function DateOf(name: string): Civil
    requires ShardPrefix(name).Some?
  {
    var (year, month, day) := ReadDate(Digits(name));
    Civil(year, month - 1, day)
  }

  lemma DayOfShard(name: string)
    requires ShardPrefix(name).Some?
    ensures IsDay(DateOf(name)) && name == ShardPrefix(name).value + "_" + Dated(DateOf(name))
    ensures ShardPrefix(name).value != "" && OneLine(ShardPrefix(name).value)
  {
    hide Pad, CivilOf, MakeDay, ValidDate;
    var digits := Digits(name);
    var (year, month, day) := ReadDate(digits);
    var date := CivilOf(MakeDay(year, month - 1, day));
    assert ValidDate(date) by { CivilIsValid(MakeDay(year, month - 1, day)); }
    assert date == DateOf(name);
    Thousands(digits[..4]);
    PaddedAgain(digits[..4], 4);
    PaddedAgain(digits[4..6], 2);
    PaddedAgain(digits[6..], 2);
    assert digits == digits[..4] + digits[4..6] + digits[6..];
    assert name == name[..|name| - 9] + "_" + digits;
  }

  lemma CivilIsValid(day: int)
    ensures ValidDate(CivilOf(day))
  {}

  lemma ShardOfDay(prefix: string, date: Civil)
    requires prefix != "" && OneLine(prefix) && IsDay(date)
    ensures ShardPrefix(prefix + "_" + Dated(date)) == Some(prefix)
    ensures DateOf(prefix + "_" + Dated(date)) == date
  {
    hide Pad, CivilOf, MakeDay, ValidDate, Dated, ReadDate;
    DatedReads(date);
    var name := prefix + "_" + Dated(date);
    assert name[|name| - 8..] == Dated(date);
    assert name[..|name| - 9] == prefix;
    CivilUndoesMakeDay(date);
  }

  // ---- newest first ----

  /** Whether a shard's name sorts after another's of its set: the names differ only in their digits. */
  predicate SortsAfter(a: string, b: string)
    requires LooksDated(a) && LooksDated(b)
  {
    Number(Digits(a)) > Number(Digits(b))
  }

  function DayNumber(name: string): int
    requires ShardPrefix(name).Some?
  {
    MakeDay(DateOf(name).year, DateOf(name).month, DateOf(name).date)
  }

  lemma NumberSplits(digits: string)
    requires AllDigits(digits) && digits != ""
    ensures Number(digits) == 10 * Number(digits[..|digits| - 1]) + ValueOf(digits[|digits| - 1])
  {}

  lemma NoDigits(a: string)
    ensures a + "" == a && Number("") == 0 && Tens(0) == 1
  {}

  lemma Shifted(high: nat, tens: nat, low: nat)
    ensures 10 * (high * tens + low) == high * (10 * tens) + 10 * low
  {}

  lemma {:induction false} NumberConcat(a: string, b: string)
    requires AllDigits(a) && AllDigits(b)
    ensures Number(a + b) == Number(a) * Tens(|b|) + Number(b)
  {
    hide Number, Tens;
    if b == "" {
      NoDigits(a);
    } else {
      var n := |b| - 1;
      NumberConcat(a, b[..n]);
      NumberSplits(a + b);
      NumberSplits(b);
      assert (a + b)[..|a + b| - 1] == a + b[..n];
      assert Tens(|b|) == 10 * Tens(n) by { TensSplit(|b|); }
      Shifted(Number(a), Tens(n), Number(b[..n]));
    }
  }

  lemma TensSplit(width: nat)
    requires width > 0
    ensures Tens(width) == 10 * Tens(width - 1)
  {}

  lemma DateNumber(digits: string)
    requires AllDigits(digits) && |digits| == 8
    ensures var (year, month, day) := ReadDate(digits); Number(digits) == year * 10000 + month * 100 + day
    ensures 0 <= ReadDate(digits).1 < 100 && 0 <= ReadDate(digits).2 < 100
  {
    assert Tens(1) == 10 * Tens(0) && Tens(2) == 10 * Tens(1) && Tens(3) == 10 * Tens(2) && Tens(4) == 10 * Tens(3);
    assert digits == digits[..4] + (digits[4..6] + digits[6..]);
    NumberConcat(digits[4..6], digits[6..]);
    NumberConcat(digits[..4], digits[4..6] + digits[6..]);
    NumberIsBelow(digits[4..6]);
    NumberIsBelow(digits[6..]);
  }

  lemma EarlierMonth(year: int, a: nat, b: nat, date: int)
    requires a < b < 12 && date <= DaysInMonth(year, a)
    ensures MonthStart(a, Leap(year)) + date <= MonthStart(b, Leap(year))
  {
    MonthsAscend(a + 1, b, Leap(year));
  }

  lemma EarlierDate(a: Civil, b: Civil)
    requires ValidDate(a) && ValidDate(b)
    requires a.year < b.year || (a.year == b.year && (a.month < b.month || (a.month == b.month && a.date < b.date)))
    ensures MakeDay(a.year, a.month, a.date) < MakeDay(b.year, b.month, b.date)
  {
    hide MonthStart, DayFromYear, Leap;
    assert a.month / 12 == 0 && a.month % 12 == a.month && b.month / 12 == 0 && b.month % 12 == b.month;
    if a.year < b.year {
      WithinTheYear(a);
      YearLength(a.year);
      YearsAscend(a.year + 1, b.year);
    } else if a.month < b.month {
      EarlierMonth(a.year, a.month, b.month, a.date);
    }
  }

  /** Shards sort by name as their days do. */
  lemma NamesSortAsDays(a: string, b: string)
    requires ShardPrefix(a).Some? && ShardPrefix(b).Some?
    ensures SortsAfter(a, b) <==> DayNumber(a) > DayNumber(b)
  {
    hide Number, CivilOf, MakeDay, ValidDate;
    DayOfShard(a);
    DayOfShard(b);
    DateNumber(Digits(a));
    DateNumber(Digits(b));
    var x, y := DateOf(a), DateOf(b);
    if x != y {
      if x.year < y.year || (x.year == y.year && (x.month < y.month || (x.month == y.month && x.date < y.date))) {
        EarlierDate(x, y);
      } else {
        EarlierDate(y, x);
      }
    }
  }
}
