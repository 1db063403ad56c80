/** Times in the UTC form of RFC 3339 (section 5.6), as Go's `time.RFC3339` layout prints and
    reads them: `2006-01-02T15:04:05Z`, to the second. */
module Rfc3339 {
  import opened Wrappers
  import opened Text

  datatype Stamp = Stamp(year: nat, month: nat, day: nat, hour: nat, minute: nat, second: nat, nanos: nat)

  predicate IsLeap(year: nat) { year % 4 == 0 && (year % 100 != 0 || year % 400 == 0) }

  function DaysIn(year: nat, month: nat): nat {
    if month == 2 then if IsLeap(year) then 29 else 28
    else if month == 4 || month == 6 || month == 9 || month == 11 then 30
    else 31
  }

  /** A date that exists, in a year of four digits, and a time of day. */
  predicate Exists(t: Stamp) {
    && t.year < 10000 && 1 <= t.month <= 12 && 1 <= t.day <= DaysIn(t.year, t.month)
    && t.hour < 24 && t.minute < 60 && t.second < 60 && t.nanos < 1_000_000_000
  }

  /** A UTC time. */
  type Instant = t: Stamp | Exists(t) witness Stamp(1, 1, 1, 0, 0, 0, 0)

  /** `t.Truncate(time.Second)`. */
  function ToSecond(t: Instant): Instant { t.(nanos := 0) }

  // --- printing ---------------------------------------------------------------------------

  function Tens(n: nat): char
    requires n < 100
  {
    DigitChar(n / 10)
  }

  function Units(n: nat): char { DigitChar(n % 10) }

  /** `t.UTC().Format(time.RFC3339)`. */
  function Format(t: Instant): string {
    [Tens(t.year / 100), Units(t.year / 100), Tens(t.year % 100), Units(t.year),
     '-', Tens(t.month), Units(t.month), '-', Tens(t.day), Units(t.day),
     'T', Tens(t.hour), Units(t.hour), ':', Tens(t.minute), Units(t.minute),
     ':', Tens(t.second), Units(t.second), 'Z']
  }

  // --- reading ------------------------------------------------------------------------------

  predicate DigitsAt(s: string, i: nat) { i + 1 < |s| && IsDigit(s[i]) && IsDigit(s[i + 1]) }

  /** Digits with `-`, `T`, `:` and `Z` in their places. */
  predicate UtcShape(s: string) {
    && |s| == 20
    && DigitsAt(s, 0) && DigitsAt(s, 2) && s[4] == '-' && DigitsAt(s, 5) && s[7] == '-' && DigitsAt(s, 8)
    && s[10] == 'T' && DigitsAt(s, 11) && s[13] == ':' && DigitsAt(s, 14) && s[16] == ':' && DigitsAt(s, 17)
    && s[19] == 'Z'
  }

  function TwoAt(s: string, i: nat): (n: nat)
    requires DigitsAt(s, i)
    ensures n < 100 && Tens(n) == s[i] && Units(n) == s[i + 1]
  {
    10 * (s[i] as int - '0' as int) + (s[i + 1] as int - '0' as int)
  }

  function SpelledTime(s: string): Stamp
    requires UtcShape(s)
  {
    Stamp(100 * TwoAt(s, 0) + TwoAt(s, 2), TwoAt(s, 5), TwoAt(s, 8), TwoAt(s, 11), TwoAt(s, 14), TwoAt(s, 17), 0)
  }

  /** `time.Parse(time.RFC3339, s)`. Other spellings, with an offset or a fraction, are left to
      `other`. */
  function ReadTime(s: string, other: string -> Option<Instant>): Option<Instant> {
    if !UtcShape(s) then other(s)
    else if Exists(SpelledTime(s)) then Some(SpelledTime(s))
    else None
  }

  // --- round trips ----------------------------------------------------------------------------

  /** Two digits as they were printed are read back. */
  lemma TwoRead(s: string, i: nat, n: nat)
    requires i + 1 < |s| && n < 100 && s[i] == Tens(n) && s[i + 1] == Units(n)
    ensures DigitsAt(s, i) && TwoAt(s, i) == n
  {
  }

  lemma DateRead(t: Instant)
    ensures var s := Format(t);
      && DigitsAt(s, 0) && TwoAt(s, 0) == t.year / 100 && DigitsAt(s, 2) && TwoAt(s, 2) == t.year % 100
      && DigitsAt(s, 5) && TwoAt(s, 5) == t.month && DigitsAt(s, 8) && TwoAt(s, 8) == t.day
  {
    hide TwoAt, DigitsAt, Tens, Units;
    var s := Format(t);
    SameUnits(t.year);
    TwoRead(s, 0, t.year / 100);
    TwoRead(s, 2, t.year % 100);
    TwoRead(s, 5, t.month);
    TwoRead(s, 8, t.day);
  }

  lemma ClockRead(t: Instant)
    ensures var s := Format(t);
      && DigitsAt(s, 11) && TwoAt(s, 11) == t.hour && DigitsAt(s, 14) && TwoAt(s, 14) == t.minute
      && DigitsAt(s, 17) && TwoAt(s, 17) == t.second
  {
    hide TwoAt, DigitsAt, Tens, Units;
    var s := Format(t);
    TwoRead(s, 11, t.hour);
    TwoRead(s, 14, t.minute);
    TwoRead(s, 17, t.second);
  }

  lemma SameUnits(n: nat)
    ensures Units(n % 100) == Units(n)
  {
  }

  lemma Punctuation(t: Instant)
    ensures var s := Format(t);
      |s| == 20 && s[4] == '-' && s[7] == '-' && s[10] == 'T' && s[13] == ':' && s[16] == ':' && s[19] == 'Z'
  {
    hide Tens, Units;
  }

  lemma PartsRead(t: Instant)
    ensures var s := Format(t);
      && UtcShape(s)
      && TwoAt(s, 0) == t.year / 100 && TwoAt(s, 2) == t.year % 100 && TwoAt(s, 5) == t.month && TwoAt(s, 8) == t.day
      && TwoAt(s, 11) == t.hour && TwoAt(s, 14) == t.minute && TwoAt(s, 17) == t.second
  {
    hide TwoAt, DigitsAt, Format;
    DateRead(t);
    ClockRead(t);
    Punctuation(t);
  }

  /** Every time is read back to the second. */
  lemma FormatRead(t: Instant, other: string -> Option<Instant>)
    ensures ReadTime(Format(t), other) == Some(ToSecond(t))
  {
    hide Format, TwoAt, UtcShape;
    PartsRead(t);
    assert SpelledTime(Format(t)) == ToSecond(t);
  }

  /** The parts determine the printed text. */
  lemma FormatOf(t: Instant, s: string)
    requires UtcShape(s)
    requires t.year / 100 == TwoAt(s, 0) && t.year % 100 == TwoAt(s, 2) && t.month == TwoAt(s, 5) && t.day == TwoAt(s, 8)
    requires t.hour == TwoAt(s, 11) && t.minute == TwoAt(s, 14) && t.second == TwoAt(s, 17)
    ensures Format(t) == s
  {
    hide TwoAt, DigitsAt, Tens, Units;
    SameUnits(t.year);
  }

  lemma YearParts(high: nat, low: nat)
    requires low < 100
    ensures (100 * high + low) / 100 == high && (100 * high + low) % 100 == low
  {
  }

  /** A text of this form that is read as a time is what that time prints. */
  lemma ReadFormat(s: string, other: string -> Option<Instant>)
    requires UtcShape(s) && ReadTime(s, other).Some?
    ensures Format(ReadTime(s, other).value) == s
  {
    hide TwoAt, DigitsAt, Exists, Format;
    YearParts(TwoAt(s, 0), TwoAt(s, 2));
    FormatOf(ReadTime(s, other).value, s);
  }

  lemma PunctuationInk()
    ensures !IsSpace('-') && !IsSpace('T') && !IsSpace(':') && !IsSpace('Z')
    ensures forall c :: IsDigit(c) ==> !IsSpace(c)
  {
  }

  /** A printed time holds no white space. */
  lemma FormatInk(t: Instant)
    ensures Format(t) != [] && forall i :: 0 <= i < |Format(t)| ==> !IsSpace(Format(t)[i])
  {
    hide Format, TwoAt, IsSpace, IsDigit;
    PartsRead(t);
    PunctuationInk();
  }

  // --- the calendar ------------------------------------------------------------------------------

  function DaysBefore(year: nat, month: nat): nat {
    if month <= 1 then 0 else DaysBefore(year, month - 1) + DaysIn(year, month - 1)
  }

  /** A year has 365 days, or 366 in a leap year. */
  lemma YearLength(year: nat)
    ensures DaysBefore(year, 13) == 365 + (if year % 4 == 0 && !(year % 100 == 0 && year % 400 != 0) then 1 else 0)
  {
    assert DaysBefore(year, 2) == 31;
    assert DaysBefore(year, 4) == DaysBefore(year, 3) + 31;
    assert DaysBefore(year, 5) == DaysBefore(year, 3) + 61;
    assert DaysBefore(year, 6) == DaysBefore(year, 3) + 92;
    assert DaysBefore(year, 7) == DaysBefore(year, 3) + 122;
    assert DaysBefore(year, 8) == DaysBefore(year, 3) + 153;
    assert DaysBefore(year, 9) == DaysBefore(year, 3) + 184;
    assert DaysBefore(year, 10) == DaysBefore(year, 3) + 214;
    assert DaysBefore(year, 11) == DaysBefore(year, 3) + 245;
    assert DaysBefore(year, 12) == DaysBefore(year, 3) + 275;
  }
}
