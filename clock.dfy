/**
 * The time half of `updateTime`: hours and minutes, each written in decimal
 * and zero-padded to two characters, joined by a colon. Reading the clock
 * and the localised date line are outside this model.
 */
module Clock {
  import opened Wrappers
  import opened Text

  /** `String(n).padStart(2, '0')`. */
  function TwoDigits(n: nat): (r: string)
    ensures |r| >= 2
    ensures n < 10 ==> r == ['0', Digit(n)]
    ensures n >= 10 ==> r == DecimalString(n)
  {
    PadStart(DecimalString(n), 2, '0')
  }

  /** The text the clock shows for a given hour and minute. */
  function FormatTime(hours: nat, minutes: nat): (r: string)
    ensures |r| >= 5
  {
    TwoDigits(hours) + ":" + TwoDigits(minutes)
  }

  /** Below one hundred, the padded form is the tens digit followed by the units digit. */
  lemma TwoDigitsBelowHundred(n: nat)
    requires n < 100
    ensures TwoDigits(n) == [Digit(n / 10), Digit(n % 10)]
  {
    DecimalBelowHundred(n);
  }

  /** Numbers of three or more digits are not cut down to two. */
  lemma TwoDigitsNoTruncation(n: nat)
    requires n >= 100
    ensures TwoDigits(n) == DecimalString(n) && |TwoDigits(n)| >= 3
  {
    var d := DecimalString(n / 10);
    assert |d| >= 2;
    assert DecimalString(n) == d + [Digit(n % 10)];
  }

  /**
   * For a real time of day the text is exactly five characters `HH:MM`:
   * the zero-padded hour, a colon and the zero-padded minute.
   */
  lemma FormatTimeShape(hours: nat, minutes: nat)
    requires hours < 24 && minutes < 60
    ensures |FormatTime(hours, minutes)| == 5
    ensures FormatTime(hours, minutes) ==
      [Digit(hours / 10), Digit(hours % 10), ':', Digit(minutes / 10), Digit(minutes % 10)]
  {
    TwoDigitsBelowHundred(hours);
    TwoDigitsBelowHundred(minutes);
  }

  /**
   * Reads an `HH:MM` text back: two digits, a colon, two digits; None for
   * anything else.
   */
  function ParseTime(text: string): (r: Option<(nat, nat)>)
    ensures r.Some? ==> r.value.0 < 100 && r.value.1 < 100
  {
    if |text| == 5 && IsDigit(text[0]) && IsDigit(text[1]) && text[2] == ':'
       && IsDigit(text[3]) && IsDigit(text[4])
    then
      PairDigits(text[..2]);
      PairDigits(text[3..]);
      Some((DecimalValue(text[..2]), DecimalValue(text[3..])))
    else None
  }

  /** Two decimal digits denote ten times the first plus the second. */
  lemma PairDigits(s: string)
    requires |s| == 2 && IsDigit(s[0]) && IsDigit(s[1])
    ensures DecimalValue(s) == 10 * DigitValue(s[0]) + DigitValue(s[1]) < 100
  {
    var first := s[..1];
    assert first[..0] == [] && first[0] == s[0];
    assert DecimalValue(first) == DigitValue(s[0]);
  }

  /**
   * The other half of the round trip: any text `ParseTime` accepts is
   * exactly the clock text of the hour and minute it reads.
   */
  lemma ParseTimeFormatsBack(text: string)
    requires ParseTime(text).Some?
    ensures FormatTime(ParseTime(text).value.0, ParseTime(text).value.1) == text
  {
    PairDigits(text[..2]);
    PairDigits(text[3..]);
    FormatDigits(text[0], text[1], text[3], text[4]);
    assert text == [text[0], text[1], ':', text[3], text[4]];
  }

  /** The clock text of two two-digit numbers spelled out by their digits. */
  lemma FormatDigits(a: char, b: char, c: char, d: char)
    requires IsDigit(a) && IsDigit(b) && IsDigit(c) && IsDigit(d)
    ensures FormatTime(10 * DigitValue(a) + DigitValue(b), 10 * DigitValue(c) + DigitValue(d)) == [a, b, ':', c, d]
  {
    TwoDigitsOfPair(a, b);
    TwoDigitsOfPair(c, d);
  }

  /** Two digits, read and padded again, come back as they were, a leading zero included. */
  lemma TwoDigitsOfPair(a: char, b: char)
    requires IsDigit(a) && IsDigit(b)
    ensures TwoDigits(10 * DigitValue(a) + DigitValue(b)) == [a, b]
  {
    var n := 10 * DigitValue(a) + DigitValue(b);
    assert n / 10 == DigitValue(a) && n % 10 == DigitValue(b);
    TwoDigitsBelowHundred(n);
  }

  /** Reading the clock text back gives the hour and the minute it was made from. */
  lemma FormatTimeReadBack(hours: nat, minutes: nat)
    requires hours < 24 && minutes < 60
    ensures ParseTime(FormatTime(hours, minutes)) == Some((hours, minutes))
  {
    FormatTimeShape(hours, minutes);
    ParseDigits(hours / 10, hours % 10, minutes / 10, minutes % 10);
  }

  /** Four digits around a colon read back as two two-digit numbers. */
  lemma ParseDigits(a: nat, b: nat, c: nat, d: nat)
    requires a < 10 && b < 10 && c < 10 && d < 10
    ensures ParseTime([Digit(a), Digit(b), ':', Digit(c), Digit(d)]) == Some((10 * a + b, 10 * c + d))
  {
    var text := [Digit(a), Digit(b), ':', Digit(c), Digit(d)];
    PairValue(a, b);
    PairValue(c, d);
    assert text[..2] == [Digit(a), Digit(b)];
    assert text[3..] == [Digit(c), Digit(d)];
  }

  /** Two digits read back as the number they spell. */
  lemma PairValue(a: nat, b: nat)
    requires a < 10 && b < 10
    ensures DecimalValue([Digit(a), Digit(b)]) == 10 * a + b
  {
    var r := [Digit(a), Digit(b)];
    assert r[..1] == [Digit(a)] && [Digit(a)][..0] == [];
    assert DecimalValue([Digit(a)]) == a;
  }

  /** Midnight and the last minute of the day, written out. */
  lemma FormatTimeExamples()
    ensures FormatTime(0, 0) == "00:00"
    ensures FormatTime(9, 5) == "09:05"
    ensures FormatTime(23, 59) == "23:59"
  {
    FormatTimeShape(0, 0);
    FormatTimeShape(9, 5);
    FormatTimeShape(23, 59);
  }
}
