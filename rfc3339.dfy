/**
 * The date-time format of section 5.6 of RFC 3339, in which the train API
 * reports scheduled times (for example "2024-03-01T16:42:00.000Z"):
 *
 *   date-time    = full-date "T" full-time
 *   full-date    = date-fullyear "-" date-month "-" date-mday
 *   full-time    = partial-time time-offset
 *   partial-time = time-hour ":" time-minute ":" time-second [time-secfrac]
 *   time-secfrac = "." 1*DIGIT
 *   time-offset  = "Z" / ("+" / "-") time-hour ":" time-minute
 */
module Rfc3339 {
  import JsString

  datatype Offset = Utc | Numeric(ahead: bool, hours: nat, minutes: nat)

  /** `secfrac` holds the digits after the decimal point; empty means no fraction. */
  datatype DateTime = DateTime(
    year: nat, month: nat, day: nat,
    hour: nat, minute: nat, second: nat,
    secfrac: string, offset: Offset)

  predicate IsDigit(c: char) { '0' <= c <= '9' }

  /** The Gregorian leap-year rule of appendix C of RFC 3339. */
  predicate IsLeapYear(year: nat) {
    year % 4 == 0 && (year % 100 != 0 || year % 400 == 0)
  }

  /** The maximum `date-mday` of a month, as section 5.7 of RFC 3339 tabulates it. */
  function DaysInMonth(year: nat, month: nat): (days: nat)
    requires 1 <= month <= 12
    ensures 28 <= days <= 31
    ensures days == 29 <==> month == 2 && IsLeapYear(year)
  {
    if month == 2 then (if IsLeapYear(year) then 29 else 28)
    else if month == 4 || month == 6 || month == 9 || month == 11 then 30
    else 31
  }

  /** The ranges sections 5.6 and 5.7 of RFC 3339 allow (second 60 is a leap second). */
  predicate Valid(dt: DateTime) {
    && dt.year < 10000 && 1 <= dt.month <= 12 && 1 <= dt.day <= DaysInMonth(dt.year, dt.month)
    && dt.hour < 24 && dt.minute < 60 && dt.second < 61
    && (forall i :: 0 <= i < |dt.secfrac| ==> IsDigit(dt.secfrac[i]))
    && (dt.offset.Numeric? ==> dt.offset.hours < 24 && dt.offset.minutes < 60)
  }

  function DigitChar(d: nat): (c: char)
    requires d < 10
    ensures IsDigit(c)
  {
    ('0' as int + d) as char
  }

  function DigitValue(c: char): int { c as int - '0' as int }

  /** `n` written with exactly `width` decimal digits, most significant first. */
  function Digits(n: nat, width: nat): (s: string)
    ensures |s| == width
    ensures forall i :: 0 <= i < |s| ==> IsDigit(s[i])
  {
    if width == 0 then [] else Digits(n / 10, width - 1) + [DigitChar(n % 10)]
  }

  /** Reads a string of decimal digits back as a number. */
  function DecimalValue(s: string): int {
    if s == [] then 0 else 10 * DecimalValue(s[..|s| - 1]) + DigitValue(s[|s| - 1])
  }

  function Power10(k: nat): (p: nat)
    ensures p > 0
  {
    if k == 0 then 1 else 10 * Power10(k - 1)
  }

  /** Writing a number with enough digits and reading it back gives the number. */
  lemma {:induction false} DigitsRoundTrip(n: nat, width: nat)
    requires n < Power10(width)
    ensures DecimalValue(Digits(n, width)) == n
  {
    if width > 0 {
      var s := Digits(n, width);
      assert s[..|s| - 1] == Digits(n / 10, width - 1);
      DigitsRoundTrip(n / 10, width - 1);
    }
  }

  function FullDate(dt: DateTime): (s: string)
    ensures |s| == 10
  {
    Digits(dt.year, 4) + "-" + Digits(dt.month, 2) + "-" + Digits(dt.day, 2)
  }

  /** The "hh:mm:ss" part of partial-time, without a fraction. */
  function TimeOfDay(dt: DateTime): (s: string)
    ensures |s| == 8 && s[2] == ':' && s[5] == ':'
  {
    Digits(dt.hour, 2) + ":" + Digits(dt.minute, 2) + ":" + Digits(dt.second, 2)
  }

  function FractionText(dt: DateTime): string {
    if dt.secfrac == [] then "" else "." + dt.secfrac
  }

  function OffsetText(o: Offset): (s: string)
    ensures |s| >= 1
  {
    match o
    case Utc => "Z"
    case Numeric(ahead, h, m) => (if ahead then "+" else "-") + Digits(h, 2) + ":" + Digits(m, 2)
  }

  function Format(dt: DateTime): (s: string)
    requires Valid(dt)
    ensures |s| >= 20 && s[10] == 'T'
  {
    FullDate(dt) + "T" + TimeOfDay(dt) + FractionText(dt) + OffsetText(dt.offset)
  }

  /** Characters 11 to 19 of a formatted date-time are exactly its "hh:mm:ss". */
  lemma SliceOfFormatIsTimeOfDay(dt: DateTime)
    requires Valid(dt)
    ensures JsString.Slice(Format(dt), 11, 19) == TimeOfDay(dt)
  {
  }

  /** The hour, minute and second can be read back from "hh:mm:ss". */
  lemma {:induction false} TimeOfDayDetermines(dt: DateTime)
    requires Valid(dt)
    ensures var t := TimeOfDay(dt);
      DecimalValue(t[0..2]) == dt.hour
      && DecimalValue(t[3..5]) == dt.minute
      && DecimalValue(t[6..8]) == dt.second
  {
    var t := TimeOfDay(dt);
    assert t[0..2] == Digits(dt.hour, 2);
    assert t[3..5] == Digits(dt.minute, 2);
    assert t[6..8] == Digits(dt.second, 2);
    DigitsRoundTrip(dt.hour, 2);
    DigitsRoundTrip(dt.minute, 2);
    DigitsRoundTrip(dt.second, 2);
  }
}
