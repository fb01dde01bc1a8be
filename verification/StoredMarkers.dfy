/** Markers as they stand in stored templates: a template written once has to keep its meaning. */
module StoredMarkers {
  import opened Text
  import opened Options
  import opened Segments

  lemma DateAndTimeKeys()
    ensures StyleFromKey("ISO8601") == Some(Iso8601) && StyleFromKey("YEAR_FIRST") == Some(YearFirst)
    ensures StyleFromKey("YEAR_FIRST_MINUTE") == Some(YearFirstMinute) && StyleFromKey("MONTH_DAY_YEAR") == Some(MonthDayYear)
  {
    StyleRoundTrip(Iso8601);
    StyleRoundTrip(YearFirst);
    StyleRoundTrip(YearFirstMinute);
    StyleRoundTrip(MonthDayYear);
  }

  lemma LogFormatKeys()
    ensures StyleFromKey("SYSLOG_YEAR") == Some(SyslogWithYear) && StyleFromKey("SYSLOG") == Some(SyslogWithoutYear)
    ensures StyleFromKey("MONTH_FIRST_GMT") == Some(MonthFirstGmt) && StyleFromKey("APACHE") == Some(Apache)
  {
    StyleRoundTrip(SyslogWithYear);
    StyleRoundTrip(SyslogWithoutYear);
    StyleRoundTrip(MonthFirstGmt);
    StyleRoundTrip(Apache);
  }

  lemma CompactKeys()
    ensures StyleFromKey("COMPACT") == Some(Compact) && StyleFromKey("COMPACT_T") == Some(CompactWithT)
    ensures StyleFromKey("COMPACT_DATE") == Some(CompactDate) && StyleFromKey("COMPACT_MONTH") == Some(CompactYearMonth)
    ensures StyleFromKey("COMPACT_TIME") == Some(CompactTime)
  {
    StyleRoundTrip(Compact);
    StyleRoundTrip(CompactWithT);
    StyleRoundTrip(CompactDate);
    StyleRoundTrip(CompactYearMonth);
    StyleRoundTrip(CompactTime);
  }

  lemma PartialKeys()
    ensures StyleFromKey("DATE") == Some(DateOnly) && StyleFromKey("YEAR_MONTH") == Some(YearMonth) && StyleFromKey("TIME") == Some(TimeOnly)
  {
    StyleRoundTrip(DateOnly);
    StyleRoundTrip(YearMonth);
    StyleRoundTrip(TimeOnly);
  }

  /** What is read as a style is that style's own key, so the sixteen keys above are all there are. */
  lemma KnownKeys(key: string, style: TimestampStyle)
    requires StyleFromKey(key) == Some(style)
    ensures key == StyleKey(style)
  {
    KeyIsStyles(STYLES, key);
  }

  lemma {:induction false} KeyIsStyles(styles: seq<TimestampStyle>, key: string)
    ensures StyleIn(styles, key).Some? ==> StyleKey(StyleIn(styles, key).value) == key
  {
    if styles != [] {
      KeyIsStyles(styles[1..], key);
    }
  }

  const STORED := "{{TIMESTAMP:ISO8601:2025-07-10T07:20:00Z}}"

  /** The marker of a stored ISO 8601 instant, wherever it stands in a template. */
  lemma StoredInstantReads(before: string, after: string)
    ensures ScanMarker(before + (STORED + after), |before|) == Segments.Marker(Iso8601, "2025-07-10T07:20:00Z", |before| + |STORED|)
  {
    var value := "2025-07-10T07:20:00Z";
    StoredIsWritten(value);
    StandsAfter(before, STORED, after);
    MarkerRoundTrip(before + (STORED + after), |before|, Iso8601, value);
    NoBraces(value);
  }

  lemma StoredIsWritten(value: string)
    requires value == "2025-07-10T07:20:00Z"
    ensures WrittenMarker(Iso8601, value) == STORED
  {
  }

  lemma StandsAfter(before: string, marker: string, after: string)
    ensures OccursAt(before + (marker + after), marker, |before|)
  {
  }

  lemma NoBraces(value: string)
    requires value == "2025-07-10T07:20:00Z"
    ensures !ClosesEarly(value)
  {
    assert forall i :: 0 <= i < |value| ==> value[i] != '}';
  }
}
