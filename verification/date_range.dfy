/** The date range resolver (src/lib/date-range.ts): a preset number of days
    ending today, or an explicit `since`/`until` pair of `YYYY-MM-DD` dates,
    becomes an inclusive UTC range with exact millisecond bounds. Instants are
    milliseconds since the epoch; the ISO text the source renders them as is
    not modelled. "Now" is a parameter. */
module DateRange {
  import opened Wrappers
  import opened Text
  import opened Calendar

  const RANGE_PRESET_DAYS: seq<int> := [7, 30, 60, 365]
  const MAX_RANGE_DAYS: int := RANGE_PRESET_DAYS[|RANGE_PRESET_DAYS| - 1]
  const DEFAULT_RANGE_DAYS: int := MAX_RANGE_DAYS

  type RangePresetDays = d: int | d in RANGE_PRESET_DAYS witness 7

  /** The largest and default range is the last preset, 365 days. */
  lemma PresetConstants()
    ensures MAX_RANGE_DAYS == DEFAULT_RANGE_DAYS == 365
    ensures forall d :: d in RANGE_PRESET_DAYS ==> 1 <= d <= MAX_RANGE_DAYS
  {
  }

  datatype RangeError = InvalidSince | InvalidUntil | UntilBeforeSince | TooLong(maxDays: int) {
    function Message(): string {
      match this
      case InvalidSince => "Invalid `since` (expected YYYY-MM-DD)."
      case InvalidUntil => "Invalid `until` (expected YYYY-MM-DD)."
      case UntilBeforeSince => "`until` must be on/after `since`."
      case TooLong(n) => "Date range must be " + IntToDecimal(n) + " days or less."
    }
  }

  datatype DateRangeResult =
    | Ok(sinceMs: int, untilMs: int, daysInclusive: int)
    | Err(error: RangeError)

  /** `parseYyyyMmDd`: UTC midnight, in milliseconds, of a well-shaped string
      naming a real date in the years 0100 to 9999; nothing otherwise. */
  function ParseYyyyMmDd(value: string): (r: Option<int>)
    ensures r.Some? <==>
      IsYmdShape(value) && YearField(value) >= 100
      && ValidDate(YearField(value), MonthField(value), DayField(value))
    ensures r.Some? ==>
      r.value == DayNumber(YearField(value), MonthField(value), DayField(value)) * DAY_MS
  {
    ParseYmdAccepts(value);
    match ParseYmd(value)
    case None => None
    case Some(day) => Some(day * DAY_MS)
  }

  /** `startOfUtcDay`: the midnight that begins the UTC day of `ms`. */
  function StartOfUtcDay(ms: int): (r: int)
    ensures r % DAY_MS == 0 && r <= ms < r + DAY_MS
  {
    DayOf(ms) * DAY_MS
  }

  /** `buildDateRangeFromPreset`: always succeeds; the range holds `days` whole
      UTC days, the last of them the day of `nowMs`. */
  function BuildDateRangeFromPreset(days: RangePresetDays, nowMs: int): (r: DateRangeResult)
    ensures r.Ok? && r.daysInclusive == days
    ensures r.sinceMs == (DayOf(nowMs) - days + 1) * DAY_MS
    ensures r.untilMs == (DayOf(nowMs) + 1) * DAY_MS - 1
    ensures r.sinceMs <= nowMs <= r.untilMs
    ensures r.untilMs - r.sinceMs == days * DAY_MS - 1
  {
    var todayUtc := StartOfUtcDay(nowMs);
    var sinceMidnight := todayUtc - (days - 1) * DAY_MS;
    var untilEndOfDay := todayUtc + DAY_MS - 1;
    Ok(sinceMidnight, untilEndOfDay, days)
  }

  /** `buildDateRangeFromYmd`. `since` is examined before `until`; with both
      valid, the range is refused when `until` comes first or when it spans
      more than `maxDaysInclusive` days, and otherwise runs from the midnight
      that starts `since` to the last millisecond of `until`. */
  function BuildDateRangeFromYmd(sinceYmd: string, untilYmd: string, maxDaysInclusive: int): (r: DateRangeResult)
    ensures ParseYmd(sinceYmd).None? ==> r == Err(InvalidSince)
    ensures ParseYmd(sinceYmd).Some? && ParseYmd(untilYmd).None? ==> r == Err(InvalidUntil)
    ensures ParseYmd(sinceYmd).Some? && ParseYmd(untilYmd).Some? ==>
      var sinceDay, untilDay := ParseYmd(sinceYmd).value, ParseYmd(untilYmd).value;
      && (r == Err(UntilBeforeSince) <==> untilDay < sinceDay)
      && (r == Err(TooLong(maxDaysInclusive)) <==> sinceDay <= untilDay && untilDay - sinceDay + 1 > maxDaysInclusive)
      && (r.Ok? <==> sinceDay <= untilDay && untilDay - sinceDay + 1 <= maxDaysInclusive)
      && (r.Ok? ==>
            && r.daysInclusive == untilDay - sinceDay + 1
            && r.sinceMs == sinceDay * DAY_MS
            && r.untilMs == (untilDay + 1) * DAY_MS - 1)
    ensures r.Ok? ==> 1 <= r.daysInclusive <= maxDaysInclusive
    ensures r.Ok? ==> r.untilMs - r.sinceMs == r.daysInclusive * DAY_MS - 1
  {
    match ParseYyyyMmDd(sinceYmd)
    case None => Err(InvalidSince)
    case Some(sinceMs) =>
      match ParseYyyyMmDd(untilYmd)
      case None => Err(InvalidUntil)
      case Some(untilMs) =>
        ParsedDay(sinceYmd);
        ParsedDay(untilYmd);
        RangeBetween(sinceMs / DAY_MS, untilMs / DAY_MS, maxDaysInclusive)
  }

  /** `parseYyyyMmDd` accepts what the calendar parse accepts, and its
      midnight divided by the length of a day is the parsed day. */
  lemma ParsedDay(value: string)
    ensures ParseYyyyMmDd(value).Some? <==> ParseYmd(value).Some?
    ensures ParseYyyyMmDd(value).Some? ==> ParseYyyyMmDd(value).value / DAY_MS == ParseYmd(value).value
  {
    if ParseYmd(value).Some? {
      var day := ParseYmd(value).value;
      assert day * DAY_MS / DAY_MS == day;
    }
  }

  /** The second half of `buildDateRangeFromYmd`, from the two parsed
      midnights (the starts of days `sinceDay` and `untilDay`) on: the
      inclusive day count, its two checks, and the bounds. */
  function RangeBetween(sinceDay: int, untilDay: int, maxDaysInclusive: int): (r: DateRangeResult)
    ensures r == Err(UntilBeforeSince) <==> untilDay < sinceDay
    ensures r == Err(TooLong(maxDaysInclusive)) <==> sinceDay <= untilDay && untilDay - sinceDay + 1 > maxDaysInclusive
    ensures r.Ok? <==> sinceDay <= untilDay && untilDay - sinceDay + 1 <= maxDaysInclusive
    ensures r.Ok? ==>
      && r.daysInclusive == untilDay - sinceDay + 1
      && r.sinceMs == sinceDay * DAY_MS
      && r.untilMs == (untilDay + 1) * DAY_MS - 1
  {
    var sinceMidnight, untilMidnight := sinceDay * DAY_MS, untilDay * DAY_MS;
    var difference := untilMidnight - sinceMidnight;
    WholeDays(sinceDay, untilDay);
    var daysInclusive := difference / DAY_MS + 1;
    if daysInclusive < 1 then Err(UntilBeforeSince)
    else if daysInclusive > maxDaysInclusive then Err(TooLong(maxDaysInclusive))
    else Ok(sinceMidnight, untilMidnight + DAY_MS - 1, daysInclusive)
  }

  /** The distance between two midnights is a whole number of days. */
  lemma WholeDays(sinceDay: int, untilDay: int)
    ensures (untilDay * DAY_MS - sinceDay * DAY_MS) / DAY_MS == untilDay - sinceDay
  {
    assert untilDay * DAY_MS - sinceDay * DAY_MS == (untilDay - sinceDay) * DAY_MS;
  }

  /** For two real dates, the ordering error is reported exactly when the
      `until` date comes before the `since` date in the calendar. */
  lemma UntilBeforeSinceIsCalendarOrder(sinceYmd: string, untilYmd: string, maxDaysInclusive: int)
    requires ParseYmd(sinceYmd).Some? && ParseYmd(untilYmd).Some?
    ensures BuildDateRangeFromYmd(sinceYmd, untilYmd, maxDaysInclusive) == Err(UntilBeforeSince)
        <==> DateBefore(YearField(untilYmd), MonthField(untilYmd), DayField(untilYmd),
                        YearField(sinceYmd), MonthField(sinceYmd), DayField(sinceYmd))
  {
    ParseYmdAccepts(sinceYmd);
    ParseYmdAccepts(untilYmd);
    DayNumberOrder(YearField(untilYmd), MonthField(untilYmd), DayField(untilYmd),
                   YearField(sinceYmd), MonthField(sinceYmd), DayField(sinceYmd));
  }
}
