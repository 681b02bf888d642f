/**
 * The time arithmetic of src/utils/timeUtils.ts. Instants are whole
 * milliseconds; a span of hours handed to `getTimeColor` or `formatDuration`
 * is a `real`.
 */
module TimeUtils {
  import opened Wrappers
  import opened Text

  const MsPerSecond: int := 1000
  const MsPerMinute: int := 60000
  const MsPerHour: int := 3600000

  datatype TimeUnits = TimeUnits(hours: int, minutes: int, seconds: int)

  /** JavaScript's `a % b` for a positive `b`: the remainder takes the sign of `a`. */
  function JsRem(a: int, b: int): (r: int)
    requires b > 0
    ensures a >= 0 ==> r == a % b
    ensures a < 0 ==> -b < r <= 0
  {
    if a >= 0 then a % b else -((-a) % b)
  }

  /**
   * `calculateTimeElapsed(start, end)`. The span `diff` is a whole number of
   * milliseconds, so `Math.floor((diff / 1000) % 60)` equals
   * `Math.floor(JsRem(diff, 60000) / 1000)`, and likewise for minutes; Dafny's
   * `/` by a positive divisor rounds down, as `Math.floor` does.
   */
  function CalculateTimeElapsed(startMs: int, endMs: int): (t: TimeUnits)
    ensures endMs >= startMs ==> 0 <= t.minutes < 60 && 0 <= t.seconds < 60 && t.hours >= 0
    ensures endMs >= startMs ==>
      t.hours * 3600 + t.minutes * 60 + t.seconds == (endMs - startMs) / MsPerSecond
    ensures endMs < startMs ==> t.hours < 0 && -60 <= t.minutes <= 0 && -60 <= t.seconds <= 0
  {
    var diff := endMs - startMs;
    var t := TimeUnits(diff / MsPerHour, JsRem(diff, MsPerHour) / MsPerMinute, JsRem(diff, MsPerMinute) / MsPerSecond);
    if diff >= 0 then DecomposeMs(diff); t else t
  }

  /** A non-negative span splits into whole hours, minutes under 60 and seconds under 60. */
  lemma DecomposeMs(diff: int)
    requires diff >= 0
    ensures (diff % MsPerHour) / MsPerMinute < 60 && (diff % MsPerMinute) / MsPerSecond < 60
    ensures (diff / MsPerHour) * 3600 + ((diff % MsPerHour) / MsPerMinute) * 60 + (diff % MsPerMinute) / MsPerSecond
            == diff / MsPerSecond
  {
    var h, rh := diff / 3600000, diff % 3600000;
    var m, rm := rh / 60000, rh % 60000;
    var s, rs := rm / 1000, rm % 1000;
    DivModUnique(diff, 60000, h * 60 + m, rm);
    DivModUnique(diff, 1000, h * 3600 + m * 60 + s, rs);
  }

  /** Quotient and remainder are the only such pair. */
  lemma DivModUnique(a: int, d: int, q: int, r: int)
    requires d > 0 && 0 <= r < d && a == q * d + r
    ensures a / d == q && a % d == r
  {
    var q', r' := a / d, a % d;
    assert (q - q') * d == r' - r;
    assert (q' - q) * d == r - r';
    MulAtLeast(q - q', d);
    MulAtLeast(q' - q, d);
  }

  /** A positive multiple of `d` is at least `d`. */
  lemma {:induction false} MulAtLeast(x: int, d: int)
    requires d > 0
    ensures x >= 1 ==> x * d >= d
    decreases if x > 0 then x else 0
  {
    if x > 1 {
      MulAtLeast(x - 1, d);
      assert x * d == (x - 1) * d + d;
    }
  }

  /** The urgency colours of `getTimeColor`, freshest first. */
  const TimeColors: seq<string> := ["text-green-500", "text-orange-500", "text-orange-700", "text-red-500", "text-red-700"]

  /** The hour at which each band after the first begins. */
  const BandStarts: seq<real> := [5.0, 10.0, 15.0, 24.0]

  /** `getTimeColor(hours)`: the colour class for a span of `hours`. */
  function GetTimeColor(hours: real): (color: string)
    ensures color == "text-green-500" <==> hours < 5.0
    ensures color == "text-orange-500" <==> 5.0 <= hours < 10.0
    ensures color == "text-orange-700" <==> 10.0 <= hours < 15.0
    ensures color == "text-red-500" <==> 15.0 <= hours < 24.0
    ensures color == "text-red-700" <==> 24.0 <= hours
  {
    if hours < 5.0 then "text-green-500"
    else if hours < 10.0 then "text-orange-500"
    else if hours < 15.0 then "text-orange-700"
    else if hours < 24.0 then "text-red-500"
    else "text-red-700"
  }

  /** How many of `starts` lie at or below `x`. */
  function CountAtMost(starts: seq<real>, x: real): (n: nat)
    ensures n <= |starts|
  {
    if starts == [] then 0 else (if starts[0] <= x then 1 else 0) + CountAtMost(starts[1..], x)
  }

  /** The band a span falls in: the number of band starts it has reached. */
  function Band(hours: real): (b: nat)
    ensures b < |TimeColors|
  {
    CountAtMost(BandStarts, hours)
  }

  /** `getTimeColor` picks the colour of the band the span has reached. */
  lemma TimeColorOfBand(hours: real)
    ensures GetTimeColor(hours) == TimeColors[Band(hours)]
  {
    var s := BandStarts;
    assert CountAtMost(s[1..][1..][1..][1..], hours) == 0;
    assert CountAtMost(s[1..][1..][1..], hours) == if 24.0 <= hours then 1 else 0;
    assert CountAtMost(s[1..][1..], hours) == (if 15.0 <= hours then 1 else 0) + CountAtMost(s[1..][1..][1..], hours);
    assert CountAtMost(s[1..], hours) == (if 10.0 <= hours then 1 else 0) + CountAtMost(s[1..][1..], hours);
  }

  lemma {:induction false} CountAtMostMonotone(starts: seq<real>, x: real, y: real)
    requires x <= y
    ensures CountAtMost(starts, x) <= CountAtMost(starts, y)
  {
    if starts != [] {
      CountAtMostMonotone(starts[1..], x, y);
    }
  }

  /** A longer span never gets a fresher colour. */
  lemma BandMonotone(h1: real, h2: real)
    requires h1 <= h2
    ensures Band(h1) <= Band(h2)
  {
    CountAtMostMonotone(BandStarts, h1, h2);
  }

  /** `formatTimeUnit(value)`: the number's text, padded on the left with '0' to two characters. */
  function FormatTimeUnit(value: int): string {
    PadStart(IntToString(value), 2, '0')
  }

  /** For a non-negative value: at least two digits, never cut, reading back as the value. */
  lemma FormatTimeUnitOfNat(n: nat)
    ensures AllDigits(FormatTimeUnit(n)) && DigitsValue(FormatTimeUnit(n)) == n
    ensures n < 100 ==> |FormatTimeUnit(n)| == 2
    ensures n >= 10 ==> FormatTimeUnit(n) == DecimalDigits(n)
    ensures ':' !in FormatTimeUnit(n)
  {
    var d := DecimalDigits(n);
    var r := FormatTimeUnit(n);
    DecimalDigitsRoundTrip(n);
    if |d| < 2 {
      assert r == Repeat('0', 2 - |d|) + d;
      LeadingZerosValue(2 - |d|, d);
    }
    if n < 100 && n >= 10 {
      assert DecimalDigits(n) == DecimalDigits(n / 10) + [DigitChar(n % 10)];
    }
    assert ':' !in r by {
      forall i | 0 <= i < |r| ensures r[i] != ':' {
        assert IsDigit(r[i]);
      }
    }
  }

  /** The fields `formatTimeUnit` writes for a non-negative value read back as the value. */
  lemma FormatTimeUnitReadsBack(n: nat)
    ensures |FormatTimeUnit(n)| >= 2 && AllDigits(FormatTimeUnit(n)) && DigitsValue(FormatTimeUnit(n)) == n
    ensures n < 100 ==> |FormatTimeUnit(n)| == 2
  {
    FormatTimeUnitOfNat(n);
  }

  /** `Math.round(x)`: the nearest integer, halves rounded up. */
  function Round(x: real): int {
    (x + 0.5).Floor
  }

  /**
   * The whole hours and the rounded minutes `formatDuration` shows. The minutes
   * may be 60: `formatDuration` does not carry them into the hours.
   */
  function DurationParts(hours: real): (parts: (int, int))
    ensures parts.0 as real <= hours < parts.0 as real + 1.0
    ensures 0 <= parts.1 <= 60
    ensures parts.0 * 60 + parts.1 == Round(hours * 60.0)
  {
    var fullHours := hours.Floor;
    (fullHours, Round((hours - fullHours as real) * 60.0))
  }

  /** The text of whole hours and minutes: "{m}m" when there are no whole hours, "{h}h {m}m" otherwise. */
  function DurationText(fullHours: int, minutes: int): (text: string)
    ensures |text| >= 2 && text[|text| - 1] == 'm'
    ensures (fullHours == 0) == ('h' !in text)
  {
    if fullHours == 0 then IntToString(minutes) + "m"
    else IntToString(fullHours) + "h " + IntToString(minutes) + "m"
  }

  /** `formatDuration(hours)`: "{m}m" below one whole hour, "{h}h {m}m" otherwise. */
  function FormatDuration(hours: real): (text: string)
    ensures |text| >= 2 && text[|text| - 1] == 'm'
    ensures (hours.Floor == 0) == ('h' !in text)
  {
    var (fullHours, minutes) := DurationParts(hours);
    DurationText(fullHours, minutes)
  }

  /** Reads "{m}m" or "{h}h {m}m" back into whole hours and minutes; `None` for any other text. */
  function ParseDuration(text: string): Option<(int, int)> {
    if |text| < 2 || text[|text| - 1] != 'm' then None
    else if 'h' !in text then
      var minutes := text[..|text| - 1];
      if AllDigits(minutes) then Some((0, DigitsValue(minutes))) else None
    else
      var k := IndexOf(text, 'h');
      if k + 2 > |text| - 1 || text[k + 1] != ' ' then None
      else
        var hours, minutes := text[..k], text[k + 2..|text| - 1];
        if AllDigits(hours) && AllDigits(minutes) then Some((DigitsValue(hours), DigitsValue(minutes))) else None
  }

  /** The layout of "{hh}h {mm}m" for digit fields: the first 'h' ends the hours field. */
  lemma DurationLayout(hh: string, mm: string)
    requires AllDigits(hh) && AllDigits(mm)
    ensures var text := hh + "h " + mm + "m";
      'h' in text && IndexOf(text, 'h') == |hh| && text[|hh| + 1] == ' ' &&
      text[..|hh|] == hh && text[|hh| + 2..|text| - 1] == mm
  {
    var text := hh + "h " + mm + "m";
    assert text[|hh|] == 'h';
    assert forall j :: 0 <= j < |hh| ==> text[j] == hh[j] && IsDigit(text[j]);
  }

  /** Whole hours and minutes, written and read back, are what was written. */
  lemma DurationTextReadsBack(fullHours: nat, minutes: nat)
    ensures ParseDuration(DurationText(fullHours, minutes)) == Some((fullHours, minutes))
  {
    var hh, mm := DecimalDigits(fullHours), DecimalDigits(minutes);
    DecimalDigitsRoundTrip(fullHours);
    DecimalDigitsRoundTrip(minutes);
    var text := DurationText(fullHours, minutes);
    if fullHours == 0 {
      assert text == mm + "m";
      assert text[..|text| - 1] == mm;
    } else {
      assert text == hh + "h " + mm + "m";
      DurationLayout(hh, mm);
    }
  }

  /** For a non-negative span the text reads back as its whole hours and its rounded minutes. */
  lemma FormatDurationReadsBack(hours: real)
    requires hours >= 0.0
    ensures ParseDuration(FormatDuration(hours)) == Some(DurationParts(hours))
  {
    var (fullHours, minutes) := DurationParts(hours);
    DurationTextReadsBack(fullHours, minutes);
  }

  /** Whole hours and minutes with 60 minutes carried into the next hour. */
  function CarriedDurationParts(hours: real): (parts: (int, int))
    ensures 0 <= parts.1 < 60
    ensures parts.0 * 60 + parts.1 == Round(hours * 60.0)
  {
    var (fullHours, minutes) := DurationParts(hours);
    if minutes == 60 then (fullHours + 1, 0) else (fullHours, minutes)
  }

  /** `formatDuration` with the rounding carry: the minute field always lies in [0, 59]. */
  function FormatDurationCarried(hours: real): (text: string)
    ensures |text| >= 2 && text[|text| - 1] == 'm'
  {
    var (fullHours, minutes) := CarriedDurationParts(hours);
    DurationText(fullHours, minutes)
  }

  /** With the carry, a non-negative span reads back as whole hours and minutes under 60 that make up its rounded minutes. */
  lemma FormatDurationCarriedReadsBack(hours: real)
    requires hours >= 0.0
    ensures var parsed := ParseDuration(FormatDurationCarried(hours));
      parsed.Some? && parsed.value.0 >= 0 && 0 <= parsed.value.1 < 60 &&
      parsed.value.0 * 60 + parsed.value.1 == Round(hours * 60.0)
  {
    var (fullHours, minutes) := CarriedDurationParts(hours);
    DurationTextReadsBack(fullHours, minutes);
  }

  /** As written, 1.999 hours rounds to 60 minutes and renders as "1h 60m". */
  lemma FormatDurationDoesNotCarry()
    ensures DurationParts(1.999) == (1, 60)
    ensures FormatDuration(1.999) == "1h 60m"
  {
    assert (1.999).Floor == 1;
    assert ((1.999 - 1.0) * 60.0 + 0.5).Floor == 60;
    assert DecimalDigits(60) == DecimalDigits(6) + [DigitChar(0)];
  }

  /** With the carry, 1.999 hours renders as "2h 0m"; both agree whenever no carry is needed. */
  lemma FormatDurationCarriedExamples(hours: real)
    ensures FormatDurationCarried(1.999) == "2h 0m"
    ensures FormatDurationCarried(0.0) == "0m" && FormatDurationCarried(1.0) == "1h 0m"
    ensures DurationParts(hours).1 < 60 ==> FormatDurationCarried(hours) == FormatDuration(hours)
  {
    assert (1.999).Floor == 1;
    assert ((1.999 - 1.0) * 60.0 + 0.5).Floor == 60;
    assert (0.0).Floor == 0 && (1.0).Floor == 1;
  }
}
