/** Numbers written in decimal digits and read back. */
module Decimals {
  import opened Chars

  predicate AllDigits(text: string) {
    forall i :: 0 <= i < |text| ==> IsDigit(text[i])
  }

  function DigitOf(n: nat): char
    requires n < 10
  {
    ('0' as int + n) as char
  }

  function ValueOf(c: char): nat
    requires IsDigit(c)
  {
    c as int - '0' as int
  }

  /** `Number(text)` of a run of digits; the empty run is 0. */
  function Number(text: string): nat
    requires AllDigits(text)
  {
    if text == "" then 0 else 10 * Number(text[..|text| - 1]) + ValueOf(text[|text| - 1])
  }

  /** `String(n)` */
  function Decimal(n: nat): (text: string)
    ensures text != "" && AllDigits(text)
  {
    if n < 10 then [DigitOf(n)] else Decimal(n / 10) + [DigitOf(n % 10)]
  }

  lemma {:induction false} DecimalReadsBack(n: nat)
    ensures Number(Decimal(n)) == n
  {
    if n >= 10 {
      DecimalReadsBack(n / 10);
      assert Decimal(n)[..|Decimal(n)| - 1] == Decimal(n / 10);
    } else {
      assert Decimal(n)[..0] == "";
    }
  }

  function Tens(width: nat): nat {
    if width == 0 then 1 else 10 * Tens(width - 1)
  }

  lemma {:induction false} DecimalWidth(n: nat, width: nat)
    requires n < Tens(width) && width > 0
    ensures |Decimal(n)| <= width
  {
    if n >= 10 {
      assert Tens(width) == 10 * Tens(width - 1);
      assert Tens(0) == 1;
      DecimalWidth(n / 10, width - 1);
    }
  }

  lemma {:induction false} NumberIsBelow(digits: string)
    requires AllDigits(digits)
    ensures Number(digits) < Tens(|digits|)
  {
    if digits != "" {
      NumberIsBelow(digits[..|digits| - 1]);
    }
  }

  function Zeros(count: nat): (text: string)
    ensures |text| == count && AllDigits(text)
  {
    if count == 0 then "" else "0" + Zeros(count - 1)
  }

  /** `String(n).padStart(width, "0")` */
  function Pad(n: nat, width: nat): (text: string)
    ensures AllDigits(text)
  {
    if |Decimal(n)| >= width then Decimal(n) else Zeros(width - |Decimal(n)|) + Decimal(n)
  }

  lemma {:induction false} LeadingZeros(count: nat, digits: string)
    requires AllDigits(digits)
    ensures AllDigits(Zeros(count) + digits) && Number(Zeros(count) + digits) == Number(digits)
    decreases |digits|
  {
    if digits == "" {
      ZerosAreZero(count);
      assert Zeros(count) + digits == Zeros(count);
    } else {
      var all := Zeros(count) + digits;
      LeadingZeros(count, digits[..|digits| - 1]);
      assert all[..|all| - 1] == Zeros(count) + digits[..|digits| - 1];
    }
  }

  lemma {:induction false} ZerosAreZero(count: nat)
    ensures Number(Zeros(count)) == 0
  {
    if count > 0 {
      ZerosEnd(count);
      ZerosAreZero(count - 1);
      assert Zeros(count)[..count - 1] == Zeros(count - 1);
    }
  }

  lemma {:induction false} ZerosEnd(count: nat)
    requires count > 0
    ensures Zeros(count) == Zeros(count - 1) + "0"
  {
    if count > 1 {
      ZerosEnd(count - 1);
    }
  }

  /** A padded number has the width asked for, when it fits, and reads back. */
  lemma PadReadsBack(n: nat, width: nat)
    requires n < Tens(width) && width > 0
    ensures |Pad(n, width)| == width && Number(Pad(n, width)) == n
  {
    DecimalWidth(n, width);
    DecimalReadsBack(n);
    LeadingZeros(width - |Decimal(n)|, Decimal(n));
    assert |Decimal(n)| == width ==> Pad(n, width) == Decimal(n);
  }

  /** Digits are what their number is written as, padded to as many. */
  lemma {:induction false} DigitsArePadded(digits: string)
    requires AllDigits(digits) && digits != ""
    ensures Pad(Number(digits), |digits|) == digits && Number(digits) < Tens(|digits|)
  {
    var width := |digits| - 1;
    var before, last := digits[..width], digits[width];
    NumberIsBelow(digits);
    assert digits == before + [last] && DigitOf(ValueOf(last)) == last;
    if width > 0 {
      DigitsArePadded(before);
      PadOneMore(Number(before), ValueOf(last), width);
    }
  }

  lemma PadOneMore(n: nat, digit: nat, width: nat)
    requires digit < 10 && 0 < width && n < Tens(width)
    ensures Pad(10 * n + digit, width + 1) == Pad(n, width) + [DigitOf(digit)]
  {
    hide Tens;
    DecimalWidth(n, width);
    if n == 0 {
      PadZero(digit, width);
    } else {
      DecimalOneMore(n, digit);
      PadWider(n, 10 * n + digit, width, DigitOf(digit));
    }
  }

  lemma PadZero(digit: nat, width: nat)
    requires digit < 10 && 0 < width
    ensures Pad(digit, width + 1) == Pad(0, width) + [DigitOf(digit)]
  {
    ZerosEnd(width);
    assert Decimal(0) == "0" && Decimal(digit) == [DigitOf(digit)];
    assert Pad(0, width) == Zeros(width);
    assert Pad(digit, width + 1) == Zeros(width) + [DigitOf(digit)];
  }

  lemma DecimalOneMore(n: nat, digit: nat)
    requires digit < 10 && n > 0
    ensures Decimal(10 * n + digit) == Decimal(n) + [DigitOf(digit)]
  {
    assert (10 * n + digit) / 10 == n && (10 * n + digit) % 10 == digit;
  }

  lemma PadWider(n: nat, m: nat, width: nat, last: char)
    requires |Decimal(n)| <= width && Decimal(m) == Decimal(n) + [last]
    ensures Pad(m, width + 1) == Pad(n, width) + [last]
  {
    hide Decimal, Zeros;
    if |Decimal(n)| < width {
      assert Pad(m, width + 1) == Zeros(width - |Decimal(n)|) + Decimal(m);
    }
  }

  /** Where a run of digits ends. */
  lemma {:induction false} DigitsEndAt(text: string, at: nat, end: nat)
    requires at <= end <= |text| && AllDigits(text[at..end]) && (end < |text| ==> !IsDigit(text[end]))
    ensures DigitsEnd(text, at) == end
    decreases end - at
  {
    if at < end {
      assert text[at] == text[at..end][0];
      assert text[at + 1..end] == text[at..end][1..];
      DigitsEndAt(text, at + 1, end);
    }
  }
}
