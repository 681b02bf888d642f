/**
 * The timezone options of src/components/AccountSettingsDialog.tsx: each zone's
 * offset text, region and location, the three-key order of the list, and the
 * option label. What the `Intl` API reports for a zone (its UTC offset in whole
 * minutes and its short name) is an input; a zone it has no reading for is one
 * where `Intl` throws.
 */
module Timezones {
  import opened Wrappers
  import opened Text
  import opened Sorting
  import opened Seqs
  import TimeUtils

  datatype TimezoneInfo = TimezoneInfo(
    timezone: string,
    offset: int,
    offsetStr: string,
    region: string,
    location: string,
    abbreviation: string)

  /** The `Intl` reading of one zone: offset from UTC in minutes and the short zone name. */
  datatype ZoneReading = ZoneReading(offset: int, abbreviation: string)

  function Abs(x: int): nat {
    if x < 0 then -x else x
  }

  /** The offset text `{sign}{HH}:{MM}`; the sign is '+' for zero and east of UTC. */
  function OffsetString(offset: int): string {
    var absOffset := Abs(offset);
    var sign := if offset >= 0 then '+' else '-';
    [sign] + TimeUtils.FormatTimeUnit(absOffset / 60) + ":" + TimeUtils.FormatTimeUnit(absOffset % 60)
  }

  /** Reads an offset text `{+|-}{hours}:{MM}` back into minutes; `None` for any other text. */
  function ParseOffset(s: string): Option<int> {
    if |s| < 5 || (s[0] != '+' && s[0] != '-') || s[|s| - 3] != ':' then None
    else
      var hours := s[1..|s| - 3];
      var minutes := s[|s| - 2..];
      if !AllDigits(hours) || !AllDigits(minutes) then None
      else
        var magnitude := DigitsValue(hours) * 60 + DigitsValue(minutes);
        Some(if s[0] == '+' then magnitude else -magnitude)
  }

  /** The layout of `{sign}{hh}:{mm}`, for any two fields. */
  lemma OffsetLayout(sign: char, hh: string, mm: string)
    requires |hh| >= 2 && |mm| == 2
    ensures var s := [sign] + hh + ":" + mm;
      |s| >= 6 && s[0] == sign && s[|s| - 3] == ':' && s[1..|s| - 3] == hh && s[|s| - 2..] == mm
  {
  }

  /** Any sign and two digit fields, laid out as an offset text, read back as hours * 60 + minutes. */
  lemma ParseOffsetOfFields(sign: char, hh: string, mm: string, h: nat, m: nat)
    requires sign == '+' || sign == '-'
    requires |hh| >= 2 && |mm| == 2 && AllDigits(hh) && AllDigits(mm)
    requires DigitsValue(hh) == h && DigitsValue(mm) == m
    ensures ParseOffset([sign] + hh + ":" + mm) == Some(if sign == '+' then h * 60 + m else -(h * 60 + m))
  {
    OffsetLayout(sign, hh, mm);
  }

  /** The text `{sign}{formatTimeUnit(h)}:{formatTimeUnit(m)}` reads back as hours * 60 + minutes. */
  lemma OffsetTextReadsBack(sign: char, h: nat, m: nat)
    requires sign == '+' || sign == '-'
    requires m < 60
    ensures ParseOffset([sign] + TimeUtils.FormatTimeUnit(h) + ":" + TimeUtils.FormatTimeUnit(m))
         == Some(if sign == '+' then h * 60 + m else -(h * 60 + m))
  {
    TimeUtils.FormatTimeUnitReadsBack(h);
    TimeUtils.FormatTimeUnitReadsBack(m);
    ParseOffsetOfFields(sign, TimeUtils.FormatTimeUnit(h), TimeUtils.FormatTimeUnit(m), h, m);
  }

  /** The offset text is the sign, an hours field of at least two digits, ':' and a two-digit minutes field. */
  lemma OffsetStringShape(offset: int)
    ensures OffsetString(offset)[0] == (if offset >= 0 then '+' else '-')
    ensures var s := OffsetString(offset); |s| >= 6 && s[|s| - 3] == ':'
  {
    var m := Abs(offset) % 60;
    TimeUtils.FormatTimeUnitOfNat(m);
    OffsetLayout(if offset >= 0 then '+' else '-', TimeUtils.FormatTimeUnit(Abs(offset) / 60), TimeUtils.FormatTimeUnit(m));
  }

  lemma HoursAndMinutes(minutes: nat)
    ensures (minutes / 60) * 60 + minutes % 60 == minutes
  {
  }

  /** The offset text reads back as the offset. */
  lemma OffsetStringRoundTrip(offset: int)
    ensures ParseOffset(OffsetString(offset)) == Some(offset)
  {
    var absOffset := Abs(offset);
    var text := [if offset >= 0 then '+' else '-'] + TimeUtils.FormatTimeUnit(absOffset / 60) + ":" + TimeUtils.FormatTimeUnit(absOffset % 60);
    assert OffsetString(offset) == text;
    HoursAndMinutes(absOffset);
    OffsetTextReadsBack(if offset >= 0 then '+' else '-', absOffset / 60, absOffset % 60);
    assert ParseOffset(text) == Some(offset);
  }

  /** `tz.split('/')[0]`. */
  function RegionOf(tz: string): string {
    Split(tz, '/')[0]
  }

  /** The remaining parts re-joined with '/', every '_' shown as a space. */
  function LocationOf(tz: string): string {
    ReplaceAll(Join(Split(tz, '/')[1..], '/'), '_', ' ')
  }

  /** The region is the text before the first '/', the location everything after it. */
  lemma RegionAndLocation(tz: string)
    ensures '/' !in RegionOf(tz)
    ensures '/' !in tz ==> RegionOf(tz) == tz && LocationOf(tz) == ""
    ensures '/' in tz ==> RegionOf(tz) == tz[..IndexOf(tz, '/')]
    ensures '/' in tz ==> LocationOf(tz) == ReplaceAll(tz[IndexOf(tz, '/') + 1..], '_', ' ')
  {
    if '/' in tz {
      var k := IndexOf(tz, '/');
      JoinSplit(tz[k + 1..], '/');
    }
  }

  /** `getTimezoneInfo(tz)`: the entry of one zone, or the fallback entry when `Intl` throws. */
  function GetTimezoneInfo(tz: string, reading: Option<ZoneReading>): (info: TimezoneInfo)
    ensures info.timezone == tz
    ensures reading.None? ==> info == TimezoneInfo(tz, 0, "+00:00", "", tz, "")
    ensures reading.Some? ==> info.offset == reading.value.offset && info.abbreviation == reading.value.abbreviation
    ensures reading.Some? ==> ParseOffset(info.offsetStr) == Some(info.offset)
    ensures reading.Some? ==> info.region == RegionOf(tz) && info.location == LocationOf(tz)
  {
    if reading.None? then TimezoneInfo(tz, 0, "+00:00", "", tz, "")
    else
      OffsetStringRoundTrip(reading.value.offset);
      TimezoneInfo(tz, reading.value.offset, OffsetString(reading.value.offset), RegionOf(tz), LocationOf(tz), reading.value.abbreviation)
  }

  /** The fallback's offset text is the one a zero offset gets. */
  lemma FallbackOffsetIsZero()
    ensures OffsetString(0) == "+00:00"
  {
    assert DecimalDigits(0) == "0";
  }

  /** The list comparator: offset, then region, then location. */
  function CompareZones(a: TimezoneInfo, b: TimezoneInfo): int {
    if a.offset != b.offset then a.offset - b.offset
    else if a.region != b.region then Compare(a.region, b.region)
    else Compare(a.location, b.location)
  }

  /** `a` may come before `b` exactly when its offset is smaller, or equal with a smaller region, or both equal with a location that is not larger. */
  lemma CompareZonesMeaning(a: TimezoneInfo, b: TimezoneInfo)
    ensures CompareZones(a, b) <= 0 <==>
      a.offset < b.offset ||
      (a.offset == b.offset && a.region != b.region && Compare(a.region, b.region) < 0) ||
      (a.offset == b.offset && a.region == b.region && Compare(a.location, b.location) <= 0)
  {
  }

  function ZoneOrder(): (TimezoneInfo, TimezoneInfo) -> int {
    (a: TimezoneInfo, b: TimezoneInfo) => CompareZones(a, b)
  }

  lemma ZoneOrderIsTotalPreorder()
    ensures Total(ZoneOrder()) && Transitive(ZoneOrder())
  {
    var cmp := ZoneOrder();
    forall a, b
      ensures cmp(a, b) <= 0 || cmp(b, a) <= 0
    {
      CompareAntisymmetric(a.region, b.region);
      CompareAntisymmetric(a.location, b.location);
    }
    forall a, b, c | cmp(a, b) <= 0 && cmp(b, c) <= 0
      ensures cmp(a, c) <= 0
    {
      if a.offset == b.offset == c.offset {
        if a.region == b.region == c.region {
          CompareTransitive(a.location, b.location, c.location);
        } else if a.region == c.region {
          CompareAntisymmetric(a.region, b.region);
        } else {
          CompareTransitive(a.region, b.region, c.region);
        }
      }
    }
  }

  /** The entries of `zones`, in order, before sorting (`allTimezones.map(getTimezoneInfo)`). */
  function ZoneInfos(zones: seq<string>, intl: map<string, ZoneReading>): (infos: seq<TimezoneInfo>)
    ensures |infos| == |zones|
    ensures forall i :: 0 <= i < |zones| ==>
      infos[i] == GetTimezoneInfo(zones[i], if zones[i] in intl then Some(intl[zones[i]]) else None)
  {
    seq(|zones|, i requires 0 <= i < |zones| =>
      GetTimezoneInfo(zones[i], if zones[i] in intl then Some(intl[zones[i]]) else None))
  }

  /**
   * `availableTimezones`: one entry per zone, ordered by offset, then region, then
   * location; entries level on all three keep their order.
   */
  function AvailableTimezones(zones: seq<string>, intl: map<string, ZoneReading>): (list: seq<TimezoneInfo>)
    ensures multiset(list) == multiset(ZoneInfos(zones, intl))
    ensures |list| == |zones|
    ensures forall i, j :: 0 <= i < j < |list| ==> CompareZones(list[i], list[j]) <= 0
    ensures forall y :: Filter(list, TiedWith(ZoneOrder(), y)) == Filter(ZoneInfos(zones, intl), TiedWith(ZoneOrder(), y))
  {
    var infos := ZoneInfos(zones, intl);
    ZoneOrderIsTotalPreorder();
    SortIsSorted(infos, ZoneOrder());
    var list := InsertionSort(infos, ZoneOrder());
    assert forall y :: Filter(list, TiedWith(ZoneOrder(), y)) == Filter(infos, TiedWith(ZoneOrder(), y)) by {
      forall y ensures Filter(list, TiedWith(ZoneOrder(), y)) == Filter(infos, TiedWith(ZoneOrder(), y)) {
        SortIsStable(infos, ZoneOrder(), y);
      }
    }
    assert forall i, j :: 0 <= i < j < |list| ==> CompareZones(list[i], list[j]) <= 0 by {
      forall i, j | 0 <= i < j < |list| ensures CompareZones(list[i], list[j]) <= 0 {
        assert ZoneOrder()(list[i], list[j]) <= 0;
      }
    }
    list
  }

  /** Every zone has its entry in the list and every entry is a zone's. */
  lemma OneEntryPerZone(zones: seq<string>, intl: map<string, ZoneReading>)
    ensures forall tz :: tz in zones ==>
      GetTimezoneInfo(tz, if tz in intl then Some(intl[tz]) else None) in AvailableTimezones(zones, intl)
    ensures forall e :: e in AvailableTimezones(zones, intl) ==> e.timezone in zones
  {
    var infos := ZoneInfos(zones, intl);
    var list := AvailableTimezones(zones, intl);
    forall tz | tz in zones
      ensures GetTimezoneInfo(tz, if tz in intl then Some(intl[tz]) else None) in list
    {
      var i :| 0 <= i < |zones| && zones[i] == tz;
      assert infos[i] in multiset(list);
    }
    forall e | e in list
      ensures e.timezone in zones
    {
      assert e in multiset(infos);
      var i :| 0 <= i < |infos| && infos[i] == e;
    }
  }

  /** `location.split('/').pop() || timezone`: the last segment, or the zone id when that is empty. */
  function ShownLocation(info: TimezoneInfo): string {
    var parts := Split(info.location, '/');
    var last := parts[|parts| - 1];
    if last == "" then info.timezone else last
  }

  /** The option text `(UTC{offset}) {region} - {place}` followed by ` ({abbr})` when there is one. */
  function OptionLabel(info: TimezoneInfo): (text: string)
    ensures "(UTC" + info.offsetStr + ") " + info.region + " - " <= text
    ensures info.abbreviation != "" ==>
              |text| >= |info.abbreviation| + 3 && text[|text| - |info.abbreviation| - 3..] == " (" + info.abbreviation + ")"
    ensures info.abbreviation == "" ==>
              |text| >= |ShownLocation(info)| && text[|text| - |ShownLocation(info)|..] == ShownLocation(info)
    ensures var prefix := "(UTC" + info.offsetStr + ") " + info.region + " - ";
      var place := ShownLocation(info);
      |text| == |prefix| + |place| + (if info.abbreviation != "" then |info.abbreviation| + 3 else 0) &&
      text[|prefix|..|prefix| + |place|] == place
  {
    var abbr := if info.abbreviation != "" then " (" + info.abbreviation + ")" else "";
    "(UTC" + info.offsetStr + ") " + info.region + " - " + ShownLocation(info) + abbr
  }

  /** A location without '/' is shown whole; an empty one shows the zone id instead. */
  lemma ShownLocationCases(info: TimezoneInfo)
    ensures '/' !in info.location && info.location != "" ==> ShownLocation(info) == info.location
    ensures info.location == "" ==> ShownLocation(info) == info.timezone
    ensures '/' !in ShownLocation(info) || ShownLocation(info) == info.timezone
  {
  }
}
