/** `get_date_range` (backend/scraper/scraperUtil.py): read a timestamp, and give back its
    calendar day and the day `delta` days earlier, both as `YYYY-MM-DD` text, end first. */
module ScraperUtil {
  import opened Common
  import opened Calendar

  /** `get_date_range(date, delta)`. Fails when the text does not match
      `'%Y-%m-%d %H:%M:%S'` (ValueError) or when the earlier day falls outside the years
      `datetime` can represent (OverflowError). */
  function GetDateRange(text: string, delta: int): (r: Result<(string, string)>)
    ensures r.Ok? <==> ParseYmdHms(text).Some?
                       && InRange(AddDays(ParseYmdHms(text).value.date, -delta))
    ensures r.Ok? ==> |r.value.0| == 10 && |r.value.1| == 10
  {
    match ParseYmdHms(text)
    case None => Fail("ValueError: time data does not match format '%Y-%m-%d %H:%M:%S'")
    case Some(dt) =>
      var start := AddDays(dt.date, -delta);
      if !InRange(start) then Fail("OverflowError: date value out of range")
      else Ok((FormatYmd(dt.date), FormatYmd(start)))
  }

  /** The pair is (end, start): end reads back as the timestamp's calendar day with the time
      dropped, start reads back as the day exactly `delta` days earlier (across month and year
      ends), delta = 0 gives start = end, and delta >= 0 gives start <= end. */
  lemma DateRangeSpan(text: string, delta: int)
    requires GetDateRange(text, delta).Ok?
    ensures var (e, s) := GetDateRange(text, delta).value;
            ParseYmd(e) == Some(ParseYmdHms(text).value.date)
            && ParseYmd(s).Some?
            && Ordinal(ParseYmd(s).value) == Ordinal(ParseYmd(e).value) - delta
            && (delta >= 0 ==> LessEq(ParseYmd(s).value, ParseYmd(e).value))
            && (delta == 0 <==> s == e)
  {
    var end := ParseYmdHms(text).value.date;
    var start := AddDays(end, -delta);
    ParseFormatYmd(end);
    ParseFormatYmd(start);
    AddDaysOrdinal(end, -delta);
    OrdinalOrder(start, end);
  }
}
