/** Timestamp markers, candidate spans, and the cutting of a template into render segments. */
module Segments {
  import opened Text
  import opened Options

  datatype TimestampStyle =
    | Iso8601 | YearFirst | SyslogWithYear | SyslogWithoutYear | MonthFirstGmt | Apache | Compact | CompactWithT
    | CompactDate | CompactYearMonth | CompactTime | YearFirstMinute | MonthDayYear | DateOnly | YearMonth | TimeOnly

  function StyleKey(style: TimestampStyle): string {
    match style
    case Iso8601 => "ISO8601"
    case YearFirst => "YEAR_FIRST"
    case SyslogWithYear => "SYSLOG_YEAR"
    case SyslogWithoutYear => "SYSLOG"
    case MonthFirstGmt => "MONTH_FIRST_GMT"
    case Apache => "APACHE"
    case Compact => "COMPACT"
    case CompactWithT => "COMPACT_T"
    case CompactDate => "COMPACT_DATE"
    case CompactYearMonth => "COMPACT_MONTH"
    case CompactTime => "COMPACT_TIME"
    case YearFirstMinute => "YEAR_FIRST_MINUTE"
    case MonthDayYear => "MONTH_DAY_YEAR"
    case DateOnly => "DATE"
    case YearMonth => "YEAR_MONTH"
    case TimeOnly => "TIME"
  }

  const STYLES: seq<TimestampStyle> :=
    [Iso8601, YearFirst, SyslogWithYear, SyslogWithoutYear, MonthFirstGmt, Apache, Compact, CompactWithT,
     CompactDate, CompactYearMonth, CompactTime, YearFirstMinute, MonthDayYear, DateOnly, YearMonth, TimeOnly]

  /** First table row with this key. */
  function StyleIn(styles: seq<TimestampStyle>, key: string): Option<TimestampStyle> {
    if styles == [] then None
    else if StyleKey(styles[0]) == key then Some(styles[0])
    else StyleIn(styles[1..], key)
  }

  function StyleFromKey(key: string): Option<TimestampStyle> { StyleIn(STYLES, key) }

  lemma {:induction false} StyleInFinds(styles: seq<TimestampStyle>, style: TimestampStyle)
    requires style in styles
    ensures StyleIn(styles, StyleKey(style)) == Some(style)
  {
    StyleKeyInjective(styles[0], style);
    if styles[0] != style {
      StyleInFinds(styles[1..], style);
    }
  }

  lemma StyleKeyInjective(a: TimestampStyle, b: TimestampStyle)
    ensures StyleKey(a) == StyleKey(b) ==> a == b
  {
    var x, y := StyleKey(a), StyleKey(b);
    if x == y {
      assert |x| == |y| && x[0] == y[0] && x[|x| - 1] == y[|y| - 1] && (|x| > 8 ==> x[8] == y[8]);
    }
  }

  lemma StyleRoundTrip(style: TimestampStyle)
    ensures StyleFromKey(StyleKey(style)) == Some(style)
  {
    assert style in STYLES by {
      match style {
        case Iso8601 => assert STYLES[0] == style;
        case YearFirst => assert STYLES[1] == style;
        case SyslogWithYear => assert STYLES[2] == style;
        case SyslogWithoutYear => assert STYLES[3] == style;
        case MonthFirstGmt => assert STYLES[4] == style;
        case Apache => assert STYLES[5] == style;
        case Compact => assert STYLES[6] == style;
        case CompactWithT => assert STYLES[7] == style;
        case CompactDate => assert STYLES[8] == style;
        case CompactYearMonth => assert STYLES[9] == style;
        case CompactTime => assert STYLES[10] == style;
        case YearFirstMinute => assert STYLES[11] == style;
        case MonthDayYear => assert STYLES[12] == style;
        case DateOnly => assert STYLES[13] == style;
        case YearMonth => assert STYLES[14] == style;
        case TimeOnly => assert STYLES[15] == style;
      }
    }
    StyleInFinds(STYLES, style);
  }

  // ----- markers in a text -----

  const PREFIX := "{{TIMESTAMP:"
  const SUFFIX := "}}"

  function MarkerText(key: string, value: string): string {
    PREFIX + (key + (":" + (value + SUFFIX)))
  }

  function WrittenMarker(style: TimestampStyle, value: string): string {
    MarkerText(StyleKey(style), value)
  }

  /** One attempt to read a marker whose prefix is at `position`. */
  datatype Scan =
    | Unclosed
    | UnknownStyle(end: nat)
    | Marker(style: TimestampStyle, value: string, end: nat)

  function ScanMarker(input: string, position: nat): (scan: Scan)
    requires position + |PREFIX| <= |input|
    ensures scan.UnknownStyle? || scan.Marker? ==> position + |PREFIX| + |SUFFIX| < scan.end <= |input|
  {
    var keyBegin := position + |PREFIX|;
    var separator := Find(input, ":", keyBegin);
    var end := if separator == -1 then -1 else Find(input, SUFFIX, separator + 1);
    if end == -1 then Unclosed
    else
      match StyleFromKey(input[keyBegin..separator])
      case None => UnknownStyle(end + |SUFFIX|)
      case Some(style) => Marker(style, input[separator + 1..end], end + |SUFFIX|)
  }

  lemma {:induction false} FindSkips(before: string, rest: string, c: char)
    requires c !in before
    ensures Find(before + ([c] + rest), [c], 0) == |before|
  {
    var s := before + ([c] + rest);
    assert s[|before|..|before| + 1] == [c];
    assert OccursAt(s, [c], |before|);
    FindIsFirst(s, [c], 0);
    var r := Find(s, [c], 0);
    assert s[r..r + 1] == [s[r]];
  }

  lemma KeyHasNoColon(style: TimestampStyle)
    ensures ':' !in StyleKey(style)
  {
  }

  ghost predicate ClosesEarly(value: string) {
    (exists i: nat :: i + 1 < |value| && BracesAt(value, i))
    || (value != "" && value[|value| - 1] == '}')
  }

  predicate BracesAt(s: string, i: nat) { i + 1 < |s| && s[i] == '}' && s[i + 1] == '}' }

  lemma BracesOccur(s: string, i: nat)
    ensures OccursAt(s, SUFFIX, i) <==> BracesAt(s, i)
  {
    if i + 1 < |s| {
      assert s[i..i + 2] == [s[i], s[i + 1]];
    }
  }

  /** The first "}}" after the value is the one that was written, unless the value brings its own or ends in a brace. */
  lemma FirstClose(value: string, rest: string)
    ensures Find(value + (SUFFIX + rest), SUFFIX, 0) == |value| <==> !ClosesEarly(value)
    ensures Find(value + (SUFFIX + rest), SUFFIX, 0) != -1
  {
    var s := value + (SUFFIX + rest);
    FindIsFirst(s, SUFFIX, 0);
    var r := Find(s, SUFFIX, 0);
    forall i: nat ensures OccursAt(s, SUFFIX, i) <==> BracesAt(s, i) {
      BracesOccur(s, i);
    }
    assert BracesAt(s, |value|);
    EarlyBraces(value, rest);
  }

  lemma EarlyBraces(value: string, rest: string)
    ensures (exists i: nat :: i < |value| && BracesAt(value + (SUFFIX + rest), i)) <==> ClosesEarly(value)
  {
    var s := value + (SUFFIX + rest);
    assert forall i: nat :: i + 1 < |value| ==> (BracesAt(s, i) <==> BracesAt(value, i));
    if value != "" {
      assert BracesAt(s, |value| - 1) <==> value[|value| - 1] == '}';
    }
  }

  lemma FindAfter(before: string, rest: string, marker: string)
    ensures Find(before + rest, marker, |before|) == (var r := Find(rest, marker, 0); if r == -1 then -1 else |before| + r)
  {
    var s := before + rest;
    assert s[|before|..] == rest;
    FindShift(s, marker, |before|, 0);
  }

  lemma ColonSearch(upToKey: string, key: string, tail: string)
    requires ':' !in key
    ensures Find(upToKey + (key + (":" + tail)), ":", |upToKey|) == |upToKey| + |key|
  {
    FindSkips(key, tail, ':');
    FindAfter(upToKey, key + (":" + tail), ":");
  }

  /** The two searches of the scan, on a text with a written marker. */
  lemma MarkerSearches(input: string, before: string, key: string, value: string, rest: string)
    requires ':' !in key && input == before + (MarkerText(key, value) + rest)
    ensures Find(input, ":", |before| + |PREFIX|) == |before| + |PREFIX| + |key|
    ensures var from := |before| + |PREFIX| + |key| + 1;
            var r := Find(value + (SUFFIX + rest), SUFFIX, 0);
            Find(input, SUFFIX, from) == if r == -1 then -1 else from + r
  {
    var tail := value + (SUFFIX + rest);
    MarkerLayout(before, key, value, rest);
    ColonSearch(before + PREFIX, key, tail);
    FindAfter(before + PREFIX + key + ":", tail, SUFFIX);
  }

  lemma ScanGives(input: string, position: nat, separator: nat, end: nat, style: TimestampStyle)
    requires position + |PREFIX| <= separator < end <= |input|
    requires Find(input, ":", position + |PREFIX|) == separator && Find(input, SUFFIX, separator + 1) == end
    requires StyleFromKey(input[position + |PREFIX|..separator]) == Some(style)
    ensures ScanMarker(input, position) == Marker(style, input[separator + 1..end], end + |SUFFIX|)
  {
  }

  lemma ReadsBack(input: string, position: nat, r: nat, key: string, style: TimestampStyle, value: string)
    requires var separator := position + |PREFIX| + |key|;
             && separator + 1 + |value| + |SUFFIX| <= |input|
             && Find(input, ":", position + |PREFIX|) == separator
             && Find(input, SUFFIX, separator + 1) == separator + 1 + r
             && input[position + |PREFIX|..separator] == key
             && input[separator + 1..separator + 1 + |value|] == value
    requires StyleFromKey(key) == Some(style)
    ensures ScanMarker(input, position) == Marker(style, value, position + |PREFIX| + |key| + 1 + |value| + |SUFFIX|)
            <==> r == |value|
  {
    var separator := position + |PREFIX| + |key|;
    ScanGives(input, position, separator, separator + 1 + r, style);
    SameMarker(ScanMarker(input, position), style, input[separator + 1..separator + 1 + r], value, separator + 1);
  }

  /** Two markers that start their values at one place are equal when the values are equally long. */
  lemma SameMarker(scan: Scan, style: TimestampStyle, read: string, value: string, from: nat)
    requires scan == Marker(style, read, from + |read| + |SUFFIX|) && (|read| == |value| ==> read == value)
    ensures scan == Marker(style, value, from + |value| + |SUFFIX|) <==> |read| == |value|
  {
  }

  /** Where the parts of a marker stand in the text around it. */
  lemma MarkerSlices(input: string, position: nat, key: string, value: string)
    requires OccursAt(input, MarkerText(key, value), position)
    ensures var separator := position + |PREFIX| + |key|;
            && separator + 1 + |value| + |SUFFIX| <= |input|
            && input[position + |PREFIX|..separator] == key
            && input[separator + 1..separator + 1 + |value|] == value
  {
    var marker := MarkerText(key, value);
    assert |marker| == |PREFIX| + |key| + 1 + |value| + |SUFFIX|;
    SliceOfSlice(input, position, marker, |PREFIX|, |key|);
    SliceOfSlice(input, position, marker, |PREFIX| + |key| + 1, |value|);
    SliceMiddle(PREFIX, key, ":" + (value + SUFFIX));
    assert marker == (PREFIX + key + ":") + (value + SUFFIX);
    SliceMiddle(PREFIX + key + ":", value, SUFFIX);
  }

  lemma SliceOfSlice(s: string, position: nat, part: string, from: nat, length: nat)
    requires OccursAt(s, part, position) && from + length <= |part|
    ensures s[position + from..position + from + length] == part[from..from + length]
  {
    var whole := s[position..position + |part|];
    var left, right := s[position + from..position + from + length], part[from..from + length];
    forall k | 0 <= k < |left| ensures left[k] == right[k] {
      assert whole[from + k] == part[from + k];
    }
  }

  lemma AroundMarker(input: string, position: nat, marker: string)
    requires OccursAt(input, marker, position)
    ensures input == input[..position] + (marker + input[position + |marker|..])
  {
  }

  lemma MarkerLength(key: string, value: string)
    ensures |MarkerText(key, value)| == |PREFIX| + |key| + 1 + |value| + |SUFFIX|
  {
  }

  lemma MarkerFinds(input: string, position: nat, key: string, value: string)
    requires ':' !in key && OccursAt(input, MarkerText(key, value), position)
    ensures var separator := position + |PREFIX| + |key|;
            var rest := input[separator + 1 + |value| + |SUFFIX|..];
            var r := Find(value + (SUFFIX + rest), SUFFIX, 0);
            && Find(input, ":", position + |PREFIX|) == separator
            && Find(input, SUFFIX, separator + 1) == (if r == -1 then -1 else separator + 1 + r)
  {
    MarkerLength(key, value);
    var rest := input[position + |PREFIX| + |key| + 1 + |value| + |SUFFIX|..];
    MarkerCut(input, position, key, value, rest);
    MarkerSearches(input, input[..position], key, value, rest);
  }

  /** The text around a marker. */
  lemma MarkerCut(input: string, position: nat, key: string, value: string, rest: string)
    requires OccursAt(input, MarkerText(key, value), position)
    requires position + |PREFIX| + |key| + 1 + |value| + |SUFFIX| <= |input|
    requires rest == input[position + |PREFIX| + |key| + 1 + |value| + |SUFFIX|..]
    ensures input == input[..position] + (MarkerText(key, value) + rest)
  {
    MarkerLength(key, value);
    AroundMarker(input, position, MarkerText(key, value));
  }

  /** A written marker reads back as the same style and value, wherever it stands, exactly when the value does not close it early. */
  lemma MarkerRoundTrip(input: string, position: nat, style: TimestampStyle, value: string)
    requires OccursAt(input, WrittenMarker(style, value), position)
    ensures ScanMarker(input, position) == Marker(style, value, position + |WrittenMarker(style, value)|)
            <==> !ClosesEarly(value)
  {
    var key := StyleKey(style);
    KeyHasNoColon(style);
    StyleRoundTrip(style);
    MarkerSlices(input, position, key, value);
    MarkerFinds(input, position, key, value);
    var rest := input[position + |PREFIX| + |key| + 1 + |value| + |SUFFIX|..];
    FirstClose(value, rest);
    ReadsBack(input, position, Find(value + (SUFFIX + rest), SUFFIX, 0), key, style, value);
  }

  lemma MarkerLayout(before: string, key: string, value: string, rest: string)
    ensures var input := before + (MarkerText(key, value) + rest);
            && input == (before + PREFIX) + (key + (":" + (value + (SUFFIX + rest))))
            && input == (before + PREFIX + key + ":") + (value + (SUFFIX + rest))
  {
  }

  lemma SliceMiddle(a: string, b: string, c: string)
    ensures (a + (b + c))[|a|..|a| + |b|] == b
  {
  }

  /** A span of the input that a segment may replace. The sort orders by position, then longer first, then priority. */
  datatype Candidate<K> = Candidate(position: nat, length: nat, priority: int, kind: K)

  datatype TimestampSpan = TimestampSpan(style: TimestampStyle, value: string)

  /** The span is a marker whose prefix, style and value the scan reads there. */
  ghost predicate ReadAt(input: string, c: Candidate<TimestampSpan>) {
    && OccursAt(input, PREFIX, c.position)
    && ScanMarker(input, c.position) == Marker(c.kind.style, c.kind.value, c.position + c.length)
  }

  /** Where the scan goes on after a prefix at q. */
  function SkipEnd(input: string, q: nat): nat
    requires q + |PREFIX| <= |input|
  {
    Onward(Hit(q, ScanMarker(input, q)))
  }

  /** The place lies inside an earlier marker, a marker of unknown style, or an unclosed prefix. */
  ghost predicate Inside(input: string, p: nat) {
    exists q: nat :: q < p && OccursAt(input, PREFIX, q) && p < SkipEnd(input, q)
  }

  /** A readable marker at p is among the candidates, or starts inside something the scan skips. */
  ghost predicate Noticed(input: string, candidates: seq<Candidate<TimestampSpan>>, p: nat) {
    OccursAt(input, PREFIX, p) && ScanMarker(input, p).Marker? ==>
      Inside(input, p) || exists i :: 0 <= i < |candidates| && candidates[i].position == p
  }

  lemma NoticedOnwards(input: string, candidates: seq<Candidate<TimestampSpan>>, more: seq<Candidate<TimestampSpan>>,
                       from: nat, position: nat, p: nat)
    requires position == Find(input, PREFIX, from) && p < SkipEnd(input, position)
    requires p < from ==> Noticed(input, candidates, p)
    requires candidates <= more
    requires ScanMarker(input, position).Marker? ==> exists i :: 0 <= i < |more| && more[i].position == position
    ensures Noticed(input, more, p)
  {
    FindIsFirst(input, PREFIX, from);
    if p < from {
      assert forall i :: 0 <= i < |candidates| ==> more[i] == candidates[i];
    }
  }

  /** One search for a marker prefix, and the attempt to read a marker there. */
  datatype Hit = NoHit | Hit(position: nat, scan: Scan)

  function NextHit(input: string, from: nat): (hit: Hit)
    ensures hit.Hit? ==> Advances(hit, from, |input|)
  {
    var position := Find(input, PREFIX, from);
    if position == -1 then NoHit else Hit(position, ScanMarker(input, position))
  }

  /** Where the scan goes on. */
  function Onward(hit: Hit): nat
    requires hit.Hit?
  {
    if hit.scan.Unclosed? then hit.position + |PREFIX| else hit.scan.end
  }

  predicate Advances(hit: Hit, from: nat, size: nat)
    requires hit.Hit?
  {
    from <= hit.position < Onward(hit) <= size
  }

  function HitMarker(hit: Hit): Candidate<TimestampSpan>
    requires hit.Hit? && hit.scan.Marker? && hit.position <= hit.scan.end
  {
    Candidate(hit.position, hit.scan.end - hit.position, -100, TimestampSpan(hit.scan.style, hit.scan.value))
  }

  /** The markers that a sequence of searches reads from `from` on. */
  function Markers(next: nat -> Hit, from: nat, size: nat): (markers: seq<Candidate<TimestampSpan>>)
    ensures markers != [] ==> from <= markers[0].position
    decreases size - from
  {
    var hit := next(from);
    if hit.NoHit? || !Advances(hit, from, size) then []
    else WithHit([], hit) + Markers(next, Onward(hit), size)
  }

  /** The markers read so far and the one of this hit, if there is one. */
  function WithHit(done: seq<Candidate<TimestampSpan>>, hit: Hit): seq<Candidate<TimestampSpan>>
    requires hit.Hit? && (hit.scan.Marker? ==> hit.position <= hit.scan.end)
  {
    if hit.scan.Marker? then done + [HitMarker(hit)] else done
  }

  /** The function is the search of this text. */
  ghost predicate Searches(next: nat -> Hit, input: string) {
    forall from: nat {:trigger NextHit(input, from)} :: next(from) == NextHit(input, from)
  }

  lemma SearchOf(input: string) returns (next: nat -> Hit)
    ensures Searches(next, input)
  {
    next := (from: nat) => NextHit(input, from);
  }

  /** These are the markers that the scan reads in the text. */
  ghost predicate AreAll(input: string, markers: seq<Candidate<TimestampSpan>>) {
    exists next: nat -> Hit :: Searches(next, input) && markers == Markers(next, 0, |input|)
  }

  lemma SameSearch(next: nat -> Hit, other: nat -> Hit, input: string)
    requires Searches(next, input) && Searches(other, input)
    ensures forall p: nat {:trigger next(p)} :: next(p) == other(p)
  {
    forall p: nat ensures next(p) == other(p) {
      assert next(p) == NextHit(input, p);
    }
  }

  lemma {:induction false} SameMarkers(next: nat -> Hit, other: nat -> Hit, from: nat, size: nat)
    requires forall p: nat {:trigger next(p)} :: next(p) == other(p)
    ensures Markers(next, from, size) == Markers(other, from, size)
    decreases size - from
  {
    var hit := next(from);
    if hit.Hit? && Advances(hit, from, size) {
      SameMarkers(next, other, Onward(hit), size);
    }
  }

  lemma AreAllOf(input: string, next: nat -> Hit, markers: seq<Candidate<TimestampSpan>>)
    requires Searches(next, input)
    ensures AreAll(input, markers) <==> markers == Markers(next, 0, |input|)
  {
    if AreAll(input, markers) {
      var other: nat -> Hit :| Searches(other, input) && markers == Markers(other, 0, |input|);
      SameSearch(next, other, input);
      SameMarkers(next, other, 0, |input|);
    }
  }

  lemma MarkersUnfold(next: nat -> Hit, from: nat, size: nat, hit: Hit, done: seq<Candidate<TimestampSpan>>)
    requires next(from) == hit && hit.Hit? && Advances(hit, from, size)
    ensures WithHit(done, hit) + Markers(next, Onward(hit), size) == done + Markers(next, from, size)
  {
    if hit.scan.Marker? {
      Associate(done, [HitMarker(hit)], Markers(next, Onward(hit), size));
    }
  }

  /** One turn of the scan. */
  lemma MarkersStep(input: string, next: nat -> Hit, from: nat, hit: Hit, done: seq<Candidate<TimestampSpan>>)
    requires Searches(next, input) && hit == NextHit(input, from) && hit.Hit?
    ensures WithHit(done, hit) + Markers(next, Onward(hit), |input|) == done + Markers(next, from, |input|)
  {
    MarkersUnfold(next, from, |input|, hit, done);
  }

  lemma MarkersEnd(input: string, next: nat -> Hit, from: nat)
    requires Searches(next, input) && Find(input, PREFIX, from) == -1
    ensures Markers(next, from, |input|) == []
  {
    assert next(from) == NextHit(input, from);
  }

  /** What the scan has read up to `from`: disjoint markers, each of which reads back, and no readable one missed. */
  ghost predicate ScannedUpTo(input: string, candidates: seq<Candidate<TimestampSpan>>, from: nat) {
    && from <= |input| && Disjoint(candidates) && InBounds(candidates, |input|) && EndOf(candidates) <= from
    && (forall i :: 0 <= i < |candidates| ==> ReadAt(input, candidates[i]))
    && forall p: nat :: p < from ==> Noticed(input, candidates, p)
  }

  lemma ScanTurn(input: string, candidates: seq<Candidate<TimestampSpan>>, from: nat, hit: Hit)
    requires ScannedUpTo(input, candidates, from) && hit == NextHit(input, from) && hit.Hit?
    ensures ScannedUpTo(input, WithHit(candidates, hit), Onward(hit))
  {
    var position, scan := hit.position, hit.scan;
    var more := WithHit(candidates, hit);
    if scan.Marker? {
      ReadsHere(input, from, HitMarker(hit));
      DisjointSnoc(candidates, HitMarker(hit), |input|);
      assert more[|candidates|].position == position;
    }
    forall p: nat | p < Onward(hit) ensures Noticed(input, more, p) {
      NoticedOnwards(input, candidates, more, from, position, p);
    }
  }

  /** The marker scan of timestamp_candidates. */
  method MarkerCandidates(input: string) returns (candidates: seq<Candidate<TimestampSpan>>)
    ensures AreAll(input, candidates)
    ensures Disjoint(candidates) && InBounds(candidates, |input|)
    ensures forall i :: 0 <= i < |candidates| ==> ReadAt(input, candidates[i])
    ensures forall p: nat :: Noticed(input, candidates, p)
  {
    candidates := [];
    var from := 0;
    ghost var next := SearchOf(input);
    while true
      invariant from >= 0 && ScannedUpTo(input, candidates, from)
      invariant candidates + Markers(next, from, |input|) == Markers(next, 0, |input|)
      decreases |input| - from
    {
      var hit := NextHit(input, from);
      if hit.NoHit? {
        NoneBehind(input, candidates, from);
        MarkersEnd(input, next, from);
        AreAllOf(input, next, candidates);
        return;
      }
      ScanTurn(input, candidates, from, hit);
      MarkersStep(input, next, from, hit, candidates);
      candidates := WithHit(candidates, hit);
      from := Onward(hit);
    }
  }

  lemma NoneBehind(input: string, candidates: seq<Candidate<TimestampSpan>>, from: nat)
    requires Find(input, PREFIX, from) == -1 && forall p: nat :: p < from ==> Noticed(input, candidates, p)
    ensures forall p: nat :: Noticed(input, candidates, p)
  {
    FindIsFirst(input, PREFIX, from);
  }

  lemma ReadsHere(input: string, from: nat, c: Candidate<TimestampSpan>)
    requires c.position == Find(input, PREFIX, from)
    requires ScanMarker(input, c.position) == Marker(c.kind.style, c.kind.value, c.position + c.length)
    ensures ReadAt(input, c)
  {
    FindIsFirst(input, PREFIX, from);
  }

  lemma DisjointSnoc<K>(spans: seq<Candidate<K>>, c: Candidate<K>, size: nat)
    requires Disjoint(spans) && InBounds(spans, size) && EndOf(spans) <= c.position && c.position + c.length <= size
    ensures Disjoint(spans + [c]) && InBounds(spans + [c], size) && EndOf(spans + [c]) == c.position + c.length
  {
    forall i | 0 <= i < |spans| ensures spans[i].position + spans[i].length <= c.position {
      if i < |spans| - 1 {
        assert spans[i].position + spans[i].length <= spans[|spans| - 1].position;
      }
    }
  }

  // ----- choosing spans and cutting the input -----

  function EndOf<K>(spans: seq<Candidate<K>>): nat {
    if spans == [] then 0 else spans[|spans| - 1].position + spans[|spans| - 1].length
  }

  predicate InBounds<K>(spans: seq<Candidate<K>>, size: nat) {
    forall i :: 0 <= i < |spans| ==> spans[i].position + spans[i].length <= size
  }

  predicate Disjoint<K>(spans: seq<Candidate<K>>) {
    forall i, j :: 0 <= i < j < |spans| ==> spans[i].position + spans[i].length <= spans[j].position
  }

  predicate SortedByPosition<K>(spans: seq<Candidate<K>>) {
    forall i, j :: 0 <= i < j < |spans| ==> spans[i].position <= spans[j].position
  }

  /** Spans kept by the left-to-right sweep of sorted[k..] from `cursor`. */
  function Chosen<K>(sorted: seq<Candidate<K>>, k: nat, cursor: nat): seq<Candidate<K>>
    requires k <= |sorted|
    decreases |sorted| - k
  {
    if k == |sorted| then []
    else
      var c := sorted[k];
      if c.position < cursor then Chosen(sorted, k + 1, cursor)
      else [c] + Chosen(sorted, k + 1, c.position + c.length)
  }

  lemma {:induction false} ChosenDisjoint<K>(sorted: seq<Candidate<K>>, k: nat, cursor: nat, size: nat)
    requires k <= |sorted| && InBounds(sorted, size)
    ensures var chosen := Chosen(sorted, k, cursor);
            && Disjoint(chosen) && InBounds(chosen, size)
            && forall i :: 0 <= i < |chosen| ==> cursor <= chosen[i].position
    decreases |sorted| - k
  {
    if k < |sorted| {
      var c := sorted[k];
      ChosenDisjoint(sorted, k + 1, if c.position < cursor then cursor else c.position + c.length, size);
    }
  }

  /** The candidate x is kept, or a kept one that starts no later runs over its start. */
  ghost predicate Covered<K>(x: Candidate<K>, chosen: seq<Candidate<K>>) {
    x in chosen || exists c :: c in chosen && c.position <= x.position < c.position + c.length
  }

  lemma {:induction false} DroppedOverlap<K>(sorted: seq<Candidate<K>>, k: nat, last: Candidate<K>, kept: seq<Candidate<K>>, x: Candidate<K>)
    requires SortedByPosition(sorted) && k <= |sorted|
    requires kept != [] ==> last in kept && (k < |sorted| ==> last.position <= sorted[k].position)
    requires x in sorted[k..]
    ensures var cursor := if kept == [] then 0 else last.position + last.length;
            Covered(x, kept + Chosen(sorted, k, cursor))
    decreases |sorted| - k
  {
    var cursor := if kept == [] then 0 else last.position + last.length;
    var c := sorted[k];
    if c.position < cursor {
      if x == c {
        assert last in kept + Chosen(sorted, k, cursor);
      } else {
        DroppedOverlap(sorted, k + 1, last, kept, x);
      }
    } else {
      assert kept + [c] + Chosen(sorted, k + 1, c.position + c.length) == kept + Chosen(sorted, k, cursor);
      assert c in kept + [c];
      if x == c {
        assert x in kept + Chosen(sorted, k, cursor);
      } else {
        DroppedOverlap(sorted, k + 1, c, kept + [c], x);
      }
    }
  }

  /** Whatever the candidates: kept spans are disjoint and in order, and each dropped one overlaps a kept one that starts no later. */
  lemma SweepIsMaximal<K>(sorted: seq<Candidate<K>>, size: nat, x: Candidate<K>)
    requires SortedByPosition(sorted) && InBounds(sorted, size) && x in sorted
    ensures Disjoint(Chosen(sorted, 0, 0)) && InBounds(Chosen(sorted, 0, 0), size)
    ensures Covered(x, Chosen(sorted, 0, 0))
  {
    ChosenDisjoint(sorted, 0, 0, size);
    assert sorted[0..] == sorted;
    DroppedOverlap(sorted, 0, x, [], x);
    assert [] + Chosen(sorted, 0, 0) == Chosen(sorted, 0, 0);
  }

  datatype Segment<K> = Literal(text: string) | Special(span: Candidate<K>)

  /** The part of the input a segment stands for. */
  function Source<K>(segment: Segment<K>, input: string): string
    requires segment.Special? ==> segment.span.position + segment.span.length <= |input|
  {
    match segment
    case Literal(text) => text
    case Special(span) => input[span.position..span.position + span.length]
  }

  predicate SegmentsInBounds<K>(segments: seq<Segment<K>>, size: nat) {
    forall i :: 0 <= i < |segments| ==> segments[i].Special? ==> segments[i].span.position + segments[i].span.length <= size
  }

  function Sources<K>(segments: seq<Segment<K>>, input: string): string
    requires SegmentsInBounds(segments, |input|)
  {
    if segments == [] then "" else Sources(segments[..|segments| - 1], input) + Source(segments[|segments| - 1], input)
  }

  function SpansOf<K>(segments: seq<Segment<K>>): seq<Candidate<K>> {
    if segments == [] then []
    else
      var last := segments[|segments| - 1];
      SpansOf(segments[..|segments| - 1]) + (if last.Special? then [last.span] else [])
  }

  lemma SegmentSnoc<K>(segments: seq<Segment<K>>, s: Segment<K>, input: string)
    requires SegmentsInBounds(segments, |input|)
    requires s.Special? ==> s.span.position + s.span.length <= |input|
    ensures SegmentsInBounds(segments + [s], |input|)
    ensures Sources(segments + [s], input) == Sources(segments, input) + Source(s, input)
    ensures SpansOf(segments + [s]) == SpansOf(segments) + (if s.Special? then [s.span] else [])
  {
    assert (segments + [s])[..|segments|] == segments;
    assert forall i :: 0 <= i < |segments| ==> (segments + [s])[i] == segments[i];
  }

  /** The segments built so far cover the input up to the cursor. */
  ghost predicate Covers<K>(segments: seq<Segment<K>>, input: string, cursor: nat) {
    && cursor <= |input|
    && SegmentsInBounds(segments, |input|) && Sources(segments, input) == input[..cursor]
  }

  /** No empty literal, and no two literals in a row. */
  ghost predicate Tidy<K>(segments: seq<Segment<K>>) {
    && (forall i :: 0 <= i < |segments| ==> segments[i] != Literal(""))
    && (forall i :: 0 < i < |segments| ==> segments[i - 1].Special? || segments[i].Special?)
  }

  predicate EndsSpecial<K>(segments: seq<Segment<K>>) {
    segments == [] || segments[|segments| - 1].Special?
  }

  lemma AddLiteral<K>(segments: seq<Segment<K>>, input: string, cursor: nat, end: nat)
    requires Covers(segments, input, cursor) && cursor < end <= |input|
    ensures Covers(segments + [Literal(input[cursor..end])], input, end)
    ensures SpansOf(segments + [Literal(input[cursor..end])]) == SpansOf(segments)
  {
    SegmentSnoc(segments, Literal(input[cursor..end]), input);
    assert input[..cursor] + input[cursor..end] == input[..end];
  }

  lemma TidyLiteral<K>(segments: seq<Segment<K>>, text: string)
    requires Tidy(segments) && EndsSpecial(segments) && text != ""
    ensures Tidy(segments + [Literal(text)])
  {
  }

  lemma AddSpecial<K>(segments: seq<Segment<K>>, input: string, c: Candidate<K>)
    requires Covers(segments, input, c.position) && c.position + c.length <= |input|
    ensures Covers(segments + [Special(c)], input, c.position + c.length)
    ensures SpansOf(segments + [Special(c)]) == SpansOf(segments) + [c]
  {
    SegmentSnoc(segments, Special(c), input);
    assert input[..c.position] + input[c.position..c.position + c.length] == input[..c.position + c.length];
  }

  lemma TidySpecial<K>(segments: seq<Segment<K>>, c: Candidate<K>)
    requires Tidy(segments)
    ensures Tidy(segments + [Special(c)]) && EndsSpecial(segments + [Special(c)])
  {
  }

  ghost predicate Cut<K>(segments: seq<Segment<K>>, input: string, sorted: seq<Candidate<K>>, k: nat, cursor: nat) {
    && k <= |sorted|
    && Covers(segments, input, cursor) && Tidy(segments) && EndsSpecial(segments)
    && SpansOf(segments) + Chosen(sorted, k, cursor) == Chosen(sorted, 0, 0)
    && (segments == [] ==> cursor == 0)
  }

  /** The two pushes of one turn: literal text before the span, if any, then the span. */
  function CutStep<K>(segments: seq<Segment<K>>, input: string, c: Candidate<K>, cursor: nat): seq<Segment<K>>
    requires cursor <= c.position <= |input|
  {
    (if c.position > cursor then segments + [Literal(input[cursor..c.position])] else segments) + [Special(c)]
  }

  lemma CutStepCovers<K>(segments: seq<Segment<K>>, input: string, c: Candidate<K>, cursor: nat)
    requires Covers(segments, input, cursor) && cursor <= c.position && c.position + c.length <= |input|
    ensures Covers(CutStep(segments, input, c, cursor), input, c.position + c.length)
    ensures SpansOf(CutStep(segments, input, c, cursor)) == SpansOf(segments) + [c]
  {
    if c.position > cursor {
      AddLiteral(segments, input, cursor, c.position);
      AddSpecial(segments + [Literal(input[cursor..c.position])], input, c);
    } else {
      AddSpecial(segments, input, c);
    }
  }

  lemma CutStepTidy<K>(segments: seq<Segment<K>>, input: string, c: Candidate<K>, cursor: nat)
    requires Tidy(segments) && EndsSpecial(segments) && cursor <= c.position <= |input|
    ensures Tidy(CutStep(segments, input, c, cursor)) && EndsSpecial(CutStep(segments, input, c, cursor))
  {
    if c.position > cursor {
      TidyLiteral(segments, input[cursor..c.position]);
      TidySpecial(segments + [Literal(input[cursor..c.position])], c);
    } else {
      TidySpecial(segments, c);
    }
  }

  lemma CutStepOk<K>(segments: seq<Segment<K>>, input: string, sorted: seq<Candidate<K>>, k: nat, cursor: nat)
    requires InBounds(sorted, |input|) && k < |sorted| && Cut(segments, input, sorted, k, cursor)
    requires sorted[k].position >= cursor
    ensures var c := sorted[k];
            Cut(CutStep(segments, input, c, cursor), input, sorted, k + 1, c.position + c.length)
  {
    var c := sorted[k];
    CutStepCovers(segments, input, c, cursor);
    CutStepTidy(segments, input, c, cursor);
    Associate(SpansOf(segments), [c], Chosen(sorted, k + 1, c.position + c.length));
  }

  /** The segments of the input behind `cursor`, from candidate k on. */
  function Pieces<K>(input: string, sorted: seq<Candidate<K>>, k: nat, cursor: nat): seq<Segment<K>>
    requires InBounds(sorted, |input|) && k <= |sorted| && cursor <= |input|
    decreases |sorted| - k
  {
    if k == |sorted| then if cursor < |input| then [Literal(input[cursor..])] else []
    else
      var c := sorted[k];
      if c.position < cursor then Pieces(input, sorted, k + 1, cursor)
      else CutStep([], input, c, cursor) + Pieces(input, sorted, k + 1, c.position + c.length)
  }

  /** An empty input without candidates still has a segment. */
  function Compiled<K>(input: string, sorted: seq<Candidate<K>>): seq<Segment<K>>
    requires InBounds(sorted, |input|)
  {
    var pieces := Pieces(input, sorted, 0, 0);
    if pieces == [] then [Literal(input)] else pieces
  }

  /** The segments made so far, and those still to come, are the pieces. */
  ghost predicate Leads<K>(segments: seq<Segment<K>>, input: string, sorted: seq<Candidate<K>>, k: nat, cursor: nat, pieces: seq<Segment<K>>) {
    && InBounds(sorted, |input|) && k <= |sorted| && cursor <= |input|
    && segments + Pieces(input, sorted, k, cursor) == pieces
  }

  lemma LeadsStep<K>(segments: seq<Segment<K>>, input: string, sorted: seq<Candidate<K>>, k: nat, cursor: nat, pieces: seq<Segment<K>>)
    requires Leads(segments, input, sorted, k, cursor, pieces) && k < |sorted|
    ensures var c := sorted[k];
            if c.position < cursor then Leads(segments, input, sorted, k + 1, cursor, pieces)
            else Leads(CutStep(segments, input, c, cursor), input, sorted, k + 1, c.position + c.length, pieces)
  {
    if sorted[k].position >= cursor {
      PiecesStep(segments, input, sorted, k, cursor);
    }
  }

  lemma LeadsEnd<K>(segments: seq<Segment<K>>, input: string, sorted: seq<Candidate<K>>, cursor: nat, pieces: seq<Segment<K>>)
    requires Leads(segments, input, sorted, |sorted|, cursor, pieces)
    ensures pieces == if cursor < |input| then segments + [Literal(input[cursor..])] else segments
  {
  }

  lemma CutStepAppends<K>(segments: seq<Segment<K>>, input: string, c: Candidate<K>, cursor: nat)
    requires cursor <= c.position <= |input|
    ensures CutStep(segments, input, c, cursor) == segments + CutStep([], input, c, cursor)
  {
  }

  lemma PiecesUnfold<K>(input: string, sorted: seq<Candidate<K>>, k: nat, cursor: nat)
    requires InBounds(sorted, |input|) && k < |sorted| && cursor <= sorted[k].position
    ensures var c := sorted[k];
            Pieces(input, sorted, k, cursor) == CutStep([], input, c, cursor) + Pieces(input, sorted, k + 1, c.position + c.length)
  {
  }

  lemma AppendCut<T>(segments: seq<T>, cut: seq<T>, rest: seq<T>, pieces: seq<T>, longer: seq<T>)
    requires pieces == cut + rest && longer == segments + cut
    ensures segments + pieces == longer + rest
  {
  }

  lemma PiecesStep<K>(segments: seq<Segment<K>>, input: string, sorted: seq<Candidate<K>>, k: nat, cursor: nat)
    requires InBounds(sorted, |input|) && k < |sorted| && cursor <= sorted[k].position
    ensures segments + Pieces(input, sorted, k, cursor)
            == CutStep(segments, input, sorted[k], cursor) + Pieces(input, sorted, k + 1, sorted[k].position + sorted[k].length)
  {
    var c := sorted[k];
    PiecesUnfold(input, sorted, k, cursor);
    CutStepAppends(segments, input, c, cursor);
    AppendCut(segments, CutStep([], input, c, cursor), Pieces(input, sorted, k + 1, c.position + c.length),
              Pieces(input, sorted, k, cursor), CutStep(segments, input, c, cursor));
  }

  /** The cut has come to candidate k. */
  ghost predicate Cutting<K>(segments: seq<Segment<K>>, input: string, sorted: seq<Candidate<K>>, k: nat, cursor: nat) {
    && InBounds(sorted, |input|) && Cut(segments, input, sorted, k, cursor)
    && Leads(segments, input, sorted, k, cursor, Pieces(input, sorted, 0, 0))
  }

  lemma CuttingStarts<K>(input: string, sorted: seq<Candidate<K>>)
    requires InBounds(sorted, |input|)
    ensures Cutting([], input, sorted, 0, 0)
  {
    assert input[..0] == "";
  }

  lemma CuttingStep<K>(segments: seq<Segment<K>>, input: string, sorted: seq<Candidate<K>>, k: nat, cursor: nat)
    requires Cutting(segments, input, sorted, k, cursor) && k < |sorted|
    ensures var c := sorted[k];
            if c.position < cursor then Cutting(segments, input, sorted, k + 1, cursor)
            else c.position <= |input| && Cutting(CutStep(segments, input, c, cursor), input, sorted, k + 1, c.position + c.length)
  {
    LeadsStep(segments, input, sorted, k, cursor, Pieces(input, sorted, 0, 0));
    if sorted[k].position >= cursor {
      CutStepOk(segments, input, sorted, k, cursor);
    }
  }

  /** What the segments have to be. */
  ghost predicate CompiledTo<K>(segments: seq<Segment<K>>, input: string, sorted: seq<Candidate<K>>)
    requires InBounds(sorted, |input|)
  {
    && SegmentsInBounds(segments, |input|) && Sources(segments, input) == input
    && SpansOf(segments) == Chosen(sorted, 0, 0) && (input != "" ==> Tidy(segments))
  }

  /** The last literal, if there is text left, or if there is nothing at all. */
  function Closed<K>(segments: seq<Segment<K>>, input: string, cursor: nat): seq<Segment<K>>
    requires cursor <= |input|
  {
    var all := if cursor < |input| then segments + [Literal(input[cursor..])] else segments;
    if all == [] then [Literal(input)] else all
  }

  lemma CuttingEnds<K>(segments: seq<Segment<K>>, input: string, sorted: seq<Candidate<K>>, cursor: nat)
    requires Cutting(segments, input, sorted, |sorted|, cursor)
    ensures cursor <= |input|
    ensures var closed := Closed(segments, input, cursor);
            closed == Compiled(input, sorted) && CompiledTo(closed, input, sorted) && closed != []
  {
    LeadsEnd(segments, input, sorted, cursor, Pieces(input, sorted, 0, 0));
    assert SpansOf(segments) + [] == SpansOf(segments);
    if cursor < |input| {
      LastLiteral(segments, input, cursor);
    } else {
      assert input[..cursor] == input;
      if segments == [] {
        EmptyLiteral(input, sorted);
      }
    }
  }

  lemma EmptyLiteral<K>(input: string, sorted: seq<Candidate<K>>)
    requires InBounds(sorted, |input|) && CompiledTo([], input, sorted) && input == ""
    ensures CompiledTo([Literal(input)], input, sorted)
  {
    var none: seq<Segment<K>>, last: Segment<K> := [], Literal(input);
    SegmentSnoc(none, last, input);
    assert none + [last] == [last];
  }

  /** The loop over the candidates: literal text in front of each kept span, and the span. */
  method CutAtSpans<K>(input: string, sorted: seq<Candidate<K>>) returns (segments: seq<Segment<K>>, cursor: nat)
    requires InBounds(sorted, |input|)
    ensures Cutting(segments, input, sorted, |sorted|, cursor)
  {
    segments := [];
    cursor := 0;
    CuttingStarts(input, sorted);
    for k := 0 to |sorted|
      invariant Cutting(segments, input, sorted, k, cursor)
    {
      var c := sorted[k];
      CuttingStep(segments, input, sorted, k, cursor);
      if c.position >= cursor {
        segments := CutStep(segments, input, c, cursor);
        cursor := c.position + c.length;
      }
    }
  }

  /** compile_segments after the sort: the segments tile the input, and their spans are the kept candidates. */
  method CompileSegments<K>(input: string, sorted: seq<Candidate<K>>) returns (segments: seq<Segment<K>>)
    requires SortedByPosition(sorted) && InBounds(sorted, |input|)
    ensures segments == Compiled(input, sorted)
    ensures SegmentsInBounds(segments, |input|)
    ensures Sources(segments, input) == input
    ensures SpansOf(segments) == Chosen(sorted, 0, 0)
    ensures segments != []
    ensures input != "" ==> Tidy(segments)
  {
    var cut, cursor := CutAtSpans(input, sorted);
    CuttingEnds(cut, input, sorted, cursor);
    segments := Closed(cut, input, cursor);
  }

  lemma LastLiteral<K>(segments: seq<Segment<K>>, input: string, cursor: nat)
    requires Covers(segments, input, cursor) && cursor < |input| && Tidy(segments) && EndsSpecial(segments)
    ensures var all := segments + [Literal(input[cursor..])];
            && Covers(all, input, |input|) && Sources(all, input) == input && Tidy(all) && SpansOf(all) == SpansOf(segments)
  {
    assert input[cursor..] == input[cursor..|input|] && input[..|input|] == input;
    AddLiteral(segments, input, cursor, |input|);
    TidyLiteral(segments, input[cursor..]);
  }

  // ----- writing timestamp markers into a sample -----

  /** What tokenize_timestamps writes for one kept span: markers stay, plain timestamps are wrapped. */
  function Wrapped(input: string, c: Candidate<TimestampStyle>): string
    requires c.position + c.length <= |input|
  {
    var original := input[c.position..c.position + c.length];
    if PREFIX <= original then original else WrittenMarker(c.kind, original)
  }

  function WrappedTexts(input: string, spans: seq<Candidate<TimestampStyle>>): seq<string>
    requires InBounds(spans, |input|)
  {
    seq(|spans|, i requires 0 <= i < |spans| => Wrapped(input, spans[i]))
  }

  function OriginalTexts<K>(input: string, spans: seq<Candidate<K>>): seq<string>
    requires InBounds(spans, |input|)
  {
    seq(|spans|, i requires 0 <= i < |spans| => input[spans[i].position..spans[i].position + spans[i].length])
  }

  /** The input from `cursor` on, with spans k, k + 1, ... replaced by these texts. */
  function Rewritten<K>(input: string, spans: seq<Candidate<K>>, texts: seq<string>, k: nat, cursor: nat): string
    requires InBounds(spans, |input|) && Disjoint(spans) && |texts| == |spans|
    requires k <= |spans| && cursor <= |input| && (k < |spans| ==> cursor <= spans[k].position)
    decreases |spans| - k
  {
    if k == |spans| then input[cursor..]
    else
      var c := spans[k];
      input[cursor..c.position] + (texts[k] + Rewritten(input, spans, texts, k + 1, c.position + c.length))
  }

  /** The sweep stands at candidate k with `done` spans written; what it has still to write completes the target. */
  ghost predicate Pending<K>(input: string, sorted: seq<Candidate<K>>, spans: seq<Candidate<K>>, texts: seq<string>,
                             k: nat, done: nat, cursor: nat, output: string, target: string) {
    && InBounds(spans, |input|) && Disjoint(spans) && |texts| == |spans|
    && k <= |sorted| && done <= |spans| && cursor <= |input| && (done < |spans| ==> cursor <= spans[done].position)
    && Chosen(sorted, k, cursor) == spans[done..]
    && output + Rewritten(input, spans, texts, done, cursor) == target
  }

  lemma SweepStep<K>(input: string, sorted: seq<Candidate<K>>, spans: seq<Candidate<K>>, texts: seq<string>,
                     k: nat, done: nat, cursor: nat, output: string, target: string)
    requires Pending(input, sorted, spans, texts, k, done, cursor, output, target)
    requires k < |sorted| && sorted[k].position >= cursor
    ensures var c := sorted[k];
            && done < |spans| && spans[done] == c && c.position + c.length <= |input|
            && Pending(input, sorted, spans, texts, k + 1, done + 1, c.position + c.length,
                       output + input[cursor..c.position] + texts[done], target)
  {
    var c := sorted[k];
    var end := c.position + c.length;
    assert spans[done..][0] == c == spans[done] && spans[done..][1..] == spans[done + 1..];
    assert ([c] + Chosen(sorted, k + 1, end))[1..] == Chosen(sorted, k + 1, end);
    var text, rest := input[cursor..c.position], Rewritten(input, spans, texts, done + 1, end);
    Associate(output, text, texts[done] + rest);
    Associate(output + text, texts[done], rest);
  }

  lemma SweepStart<K>(input: string, sorted: seq<Candidate<K>>, texts: seq<string>)
    requires SortedByPosition(sorted) && InBounds(sorted, |input|) && |texts| == |Chosen(sorted, 0, 0)|
    ensures var spans := Chosen(sorted, 0, 0);
            && InBounds(spans, |input|) && Disjoint(spans)
            && Pending(input, sorted, spans, texts, 0, 0, 0, "", Rewritten(input, spans, texts, 0, 0))
  {
    var spans := Chosen(sorted, 0, 0);
    ChosenDisjoint(sorted, 0, 0, |input|);
    assert "" + Rewritten(input, spans, texts, 0, 0) == Rewritten(input, spans, texts, 0, 0) && spans[0..] == spans;
  }

  lemma SweepEnd<K>(input: string, sorted: seq<Candidate<K>>, spans: seq<Candidate<K>>, texts: seq<string>,
                    done: nat, cursor: nat, output: string, target: string)
    requires Pending(input, sorted, spans, texts, |sorted|, done, cursor, output, target)
    ensures output + input[cursor..] == target
  {
    assert |spans[done..]| == 0;
  }

  function Texts<K>(spans: seq<Candidate<K>>, text: Candidate<K> -> string): seq<string> {
    seq(|spans|, i requires 0 <= i < |spans| => text(spans[i]))
  }

  /** The sweep over the sorted candidates, whatever is written for a span. */
  method Sweep<K>(input: string, sorted: seq<Candidate<K>>, text: Candidate<K> -> string) returns (output: string)
    requires SortedByPosition(sorted) && InBounds(sorted, |input|)
    ensures var spans := Chosen(sorted, 0, 0);
            && InBounds(spans, |input|) && Disjoint(spans)
            && output == Rewritten(input, spans, Texts(spans, text), 0, 0)
  {
    ghost var spans, done := Chosen(sorted, 0, 0), 0;
    ghost var texts := Texts(spans, text);
    SweepStart(input, sorted, texts);
    ghost var target := Rewritten(input, spans, texts, 0, 0);
    output := "";
    var cursor := 0;
    for k := 0 to |sorted|
      invariant cursor >= 0 && done >= 0 && Pending(input, sorted, spans, texts, k, done, cursor, output, target)
    {
      var c := sorted[k];
      if c.position >= cursor {
        SweepStep(input, sorted, spans, texts, k, done, cursor, output, target);
        output := output + input[cursor..c.position];
        output := output + text(c);
        cursor := c.position + c.length;
        done := done + 1;
      }
    }
    SweepEnd(input, sorted, spans, texts, done, cursor, output, target);
    output := output + input[cursor..];
  }

  /** Builds the tokenized sample: every kept span is wrapped. */
  method TokenizeTimestamps(input: string, sorted: seq<Candidate<TimestampStyle>>) returns (output: string)
    requires SortedByPosition(sorted) && InBounds(sorted, |input|)
    ensures var spans := Chosen(sorted, 0, 0);
            && InBounds(spans, |input|) && Disjoint(spans)
            && output == Rewritten(input, spans, WrappedTexts(input, spans), 0, 0)
  {
    var text := (c: Candidate<TimestampStyle>) => if c.position + c.length <= |input| then Wrapped(input, c) else "";
    output := Sweep(input, sorted, text);
    SameTexts(input, Chosen(sorted, 0, 0), text);
  }

  lemma SameTexts(input: string, spans: seq<Candidate<TimestampStyle>>, text: Candidate<TimestampStyle> -> string)
    requires InBounds(spans, |input|)
    requires forall c: Candidate<TimestampStyle> :: c.position + c.length <= |input| ==> text(c) == Wrapped(input, c)
    ensures Texts(spans, text) == WrappedTexts(input, spans)
  {
  }

  /** What the sweep from span `from` on writes before the text of span k. */
  function Before<K>(input: string, spans: seq<Candidate<K>>, texts: seq<string>, from: nat, cursor: nat, k: nat): string
    requires InBounds(spans, |input|) && Disjoint(spans) && |texts| == |spans|
    requires from <= k < |spans| && cursor <= spans[from].position
    decreases k - from
  {
    var c := spans[from];
    if from == k then input[cursor..c.position]
    else input[cursor..c.position] + (texts[from] + Before(input, spans, texts, from + 1, c.position + c.length, k))
  }

  lemma Compose(whole: string, a: string, b: string, c: string, before: string, rest: string)
    requires whole == a + (b + (c + rest)) && before == a + (b + c)
    ensures whole == before + rest
  {
  }

  lemma {:induction false} BeforeAndAfter<K>(input: string, spans: seq<Candidate<K>>, texts: seq<string>, from: nat, cursor: nat, k: nat)
    requires InBounds(spans, |input|) && Disjoint(spans) && |texts| == |spans|
    requires from <= k < |spans| && cursor <= spans[from].position
    ensures var c := spans[k];
            Rewritten(input, spans, texts, from, cursor) == Before(input, spans, texts, from, cursor, k)
            + (texts[k] + Rewritten(input, spans, texts, k + 1, c.position + c.length))
    decreases k - from
  {
    if from < k {
      var c := spans[from];
      var end := c.position + c.length;
      BeforeAndAfter(input, spans, texts, from + 1, end, k);
      var rest := texts[k] + Rewritten(input, spans, texts, k + 1, spans[k].position + spans[k].length);
      Compose(Rewritten(input, spans, texts, from, cursor), input[cursor..c.position], texts[from],
              Before(input, spans, texts, from + 1, end, k), Before(input, spans, texts, from, cursor, k), rest);
    }
  }

  lemma OccursInFront(before: string, part: string, rest: string)
    ensures OccursAt(before + (part + rest), part, |before|)
  {
  }

  lemma PlainIsWritten(input: string, spans: seq<Candidate<TimestampStyle>>, texts: seq<string>, k: nat)
    requires InBounds(spans, |input|) && k < |spans| && texts == WrappedTexts(input, spans)
    requires !(PREFIX <= OriginalTexts(input, spans)[k])
    ensures texts[k] == WrittenMarker(spans[k].kind, OriginalTexts(input, spans)[k])
  {
  }

  /** In the tokenized sample, the marker written for a plain timestamp reads back as its style and exactly the original
      text, unless that text closes a marker itself. */
  lemma WrittenTimestampsReadBack(input: string, spans: seq<Candidate<TimestampStyle>>, texts: seq<string>, k: nat, output: string, place: nat)
    requires InBounds(spans, |input|) && Disjoint(spans) && k < |spans| && texts == WrappedTexts(input, spans)
    requires output == Rewritten(input, spans, texts, 0, 0) && place == |Before(input, spans, texts, 0, 0, k)|
    requires !(PREFIX <= OriginalTexts(input, spans)[k])
    ensures ReadsBackAt(output, place, spans[k].kind, OriginalTexts(input, spans)[k])
  {
    var before, rest := CutAtText(input, spans, texts, k);
    PlainIsWritten(input, spans, texts, k);
    ReadsBackBehind(output, before, spans[k].kind, OriginalTexts(input, spans)[k], texts[k], rest);
  }

  lemma CutAtText<K>(input: string, spans: seq<Candidate<K>>, texts: seq<string>, k: nat) returns (before: string, rest: string)
    requires InBounds(spans, |input|) && Disjoint(spans) && |texts| == |spans| && k < |spans|
    ensures before == Before(input, spans, texts, 0, 0, k) && Rewritten(input, spans, texts, 0, 0) == before + (texts[k] + rest)
  {
    var c := spans[k];
    before, rest := Before(input, spans, texts, 0, 0, k), Rewritten(input, spans, texts, k + 1, c.position + c.length);
    BeforeAndAfter(input, spans, texts, 0, 0, k);
  }

  /** At this place a marker starts, and it reads back as this style and value unless the value closes it early. */
  ghost predicate ReadsBackAt(output: string, place: nat, style: TimestampStyle, value: string) {
    && OccursAt(output, PREFIX, place)
    && (ScanMarker(output, place) == Marker(style, value, place + |WrittenMarker(style, value)|) <==> !ClosesEarly(value))
  }

  lemma ReadsBackBehind(output: string, before: string, style: TimestampStyle, value: string, text: string, rest: string)
    requires text == WrittenMarker(style, value) && output == before + (text + rest)
    ensures ReadsBackAt(output, |before|, style, value)
  {
    OccursInFront(before, text, rest);
    PrefixOccurs(output, StyleKey(style), value, |before|);
    MarkerRoundTrip(output, |before|, style, value);
  }

  lemma PrefixOccurs(s: string, key: string, value: string, at: nat)
    requires OccursAt(s, MarkerText(key, value), at)
    ensures OccursAt(s, PREFIX, at)
  {
    MarkerLength(key, value);
    SliceOfSlice(s, at, MarkerText(key, value), 0, |PREFIX|);
  }
}
