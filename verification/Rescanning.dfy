/** Scanning a tokenized sample again: when the scan finds the written and the kept markers and nothing else. */
module Rescanning {
  import opened Options
  import opened Text
  import opened Segments
  import opened Unwrapping
  import opened ScanLocality

  // ----- the whole text -----

  /** Texts that are all written markers. */
  ghost predicate AllMarkers(styles: seq<TimestampStyle>, values: seq<string>, texts: seq<string>) {
    |styles| == |values| == |texts| && forall k: nat :: k < |texts| ==> IsMarker(styles, values, texts, k)
  }

  ghost predicate IsMarker(styles: seq<TimestampStyle>, values: seq<string>, texts: seq<string>, k: nat)
    requires |styles| == |values| == |texts| && k < |texts|
  {
    texts[k] == WrittenMarker(styles[k], values[k])
  }

  function MarkerOf(place: nat, length: nat, style: TimestampStyle, value: string): Candidate<TimestampSpan> {
    Candidate(place, length, -100, TimestampSpan(style, value))
  }

  /** The markers of the texts, where `base` bytes stand before gap k. */
  function Expected(gaps: seq<string>, styles: seq<TimestampStyle>, values: seq<string>, texts: seq<string>, k: nat, base: nat):
    seq<Candidate<TimestampSpan>>
    requires |gaps| == |texts| + 1 && |styles| == |values| == |texts| && k <= |texts|
    decreases |texts| - k
  {
    if k == |texts| then []
    else
      var place := base + |gaps[k]|;
      [MarkerOf(place, |texts[k]|, styles[k], values[k])] + Expected(gaps, styles, values, texts, k + 1, place + |texts[k]|)
  }

  /** The text in front of a kept span starts nothing that reaches into the span or is readable. */
  ghost predicate QuietGap(gap: string) { exists next: nat -> Hit :: Searches(next, gap) && Quiet(next, 0, |gap|) }

  lemma {:induction false} SameQuiet(next: nat -> Hit, other: nat -> Hit, from: nat, size: nat)
    requires forall p: nat {:trigger next(p)} :: next(p) == other(p)
    ensures Quiet(next, from, size) <==> Quiet(other, from, size)
    decreases size - from
  {
    var hit := next(from);
    if hit.Hit? && Advances(hit, from, size) {
      SameQuiet(next, other, Onward(hit), size);
    }
  }

  lemma SearchOfGap(gap: string) returns (inner: nat -> Hit)
    ensures Searches(inner, gap) && (QuietGap(gap) <==> Quiet(inner, 0, |gap|))
  {
    inner := SearchOf(gap);
    if QuietGap(gap) {
      var next: nat -> Hit :| Searches(next, gap) && Quiet(next, 0, |gap|);
      SameSearch(next, inner, gap);
      SameQuiet(next, inner, 0, |gap|);
    }
  }

  /** From gap k on: gaps in front of a span are quiet, and the last one holds no readable marker. */
  ghost predicate QuietFrom(gaps: seq<string>, k: nat)
    requires k < |gaps|
  {
    (forall i :: k <= i < |gaps| - 1 ==> QuietGap(gaps[i])) && AreAll(gaps[|gaps| - 1], [])
  }

  ghost predicate NoneClosesEarly(values: seq<string>, k: nat) {
    forall i :: k <= i < |values| ==> !ClosesEarly(values[i])
  }

  lemma ScanHere(text: string, place: nat, style: TimestampStyle, value: string)
    requires OccursAt(text, WrittenMarker(style, value), place)
    ensures NextHit(text, place).Hit? && NextHit(text, place).position == place
    ensures NextHit(text, place).scan == Marker(style, value, place + |WrittenMarker(style, value)|) <==> !ClosesEarly(value)
  {
    PrefixOccurs(text, StyleKey(style), value, place);
    FindIsFirst(text, PREFIX, place);
    MarkerRoundTrip(text, place, style, value);
  }

  /** One gap and one marker: the scan gives this marker and then `rest` exactly if nothing is wrong here and it gives `rest` behind. */
  lemma StepExactly(next: nat -> Hit, size: nat, base: nat, place: nat, length: nat, style: TimestampStyle, value: string,
                    quiet: bool, early: bool, rest: seq<Candidate<TimestampSpan>>)
    requires AllAdvance(next, size)
    requires quiet ==> Markers(next, base, size) == Markers(next, place, size)
    requires !quiet ==> !StartsAt(Markers(next, base, size), place)
    requires next(place).Hit? && next(place).position == place
    requires next(place).scan == Marker(style, value, place + length) <==> !early
    ensures Markers(next, base, size) == [MarkerOf(place, length, style, value)] + rest
            <==> quiet && !early && Markers(next, place + length, size) == rest
  {
    var hit, found := next(place), Markers(next, place, size);
    if quiet && hit.scan.Marker? {
      assert found[0] == HitMarker(hit) && found[1..] == Markers(next, hit.scan.end, size);
      assert early ==> found[0] != MarkerOf(place, length, style, value);
    } else if quiet {
      assert found == Markers(next, Onward(hit), size) && !StartsAt(found, place);
    }
    assert ([MarkerOf(place, length, style, value)] + rest)[1..] == rest;
  }

  lemma MarkerHit(text: string, next: nat -> Hit, place: nat, style: TimestampStyle, value: string, marker: string)
    requires Searches(next, text) && OccursAt(text, marker, place) && marker == WrittenMarker(style, value)
    ensures next(place).Hit? && next(place).position == place
    ensures next(place).scan == Marker(style, value, place + |marker|) <==> !ClosesEarly(value)
  {
    ScanHere(text, place, style, value);
  }

  lemma GapSearch(text: string, next: nat -> Hit, base: nat, gap: string, inner: nat -> Hit, key: string, value: string)
    requires Searches(next, text) && Searches(inner, gap) && PartAt(text, base, gap)
    requires OccursAt(text, MarkerText(key, value), base + |gap|)
    requires next(base + |gap|).Hit? && next(base + |gap|).position == base + |gap|
    ensures Quiet(inner, 0, |gap|) ==> Markers(next, base, |text|) == Markers(next, base + |gap|, |text|)
    ensures !Quiet(inner, 0, |gap|) ==> !StartsAt(Markers(next, base, |text|), base + |gap|)
  {
    SearchInGap(text, next, base, gap, inner, key, value);
    SearchAdvances(next, text);
    SearchAdvances(inner, gap);
    ScanGap(next, |text|, inner, base, |gap|, 0);
  }

  /** The gap and the marker at k, in the text. */
  lemma GapAndMarker(text: string, next: nat -> Hit, base: nat, gap: string, style: TimestampStyle, value: string, marker: string)
    requires Searches(next, text) && PartAt(text, base, gap)
    requires marker == WrittenMarker(style, value) && PartAt(text, base + |gap|, marker)
    ensures var place := base + |gap|;
            && (QuietGap(gap) ==> Markers(next, base, |text|) == Markers(next, place, |text|))
            && (!QuietGap(gap) ==> !StartsAt(Markers(next, base, |text|), place))
            && next(place).Hit? && next(place).position == place
            && (next(place).scan == Marker(style, value, place + |marker|) <==> !ClosesEarly(value))
  {
    var inner := SearchOfGap(gap);
    MarkerHit(text, next, base + |gap|, style, value, marker);
    GapSearch(text, next, base, gap, inner, StyleKey(style), value);
  }

  lemma PartAtEnd(text: string, base: nat, gap: string)
    requires base <= |text| && text[base..] == gap
    ensures PartAt(text, base, gap) && base + |gap| == |text|
  {
    assert text[base..base + |gap|] == text[base..];
  }

  lemma LastGapSearch(text: string, next: nat -> Hit, base: nat, gap: string, inner: nat -> Hit)
    requires Searches(next, text) && Searches(inner, gap) && PartAt(text, base, gap) && base + |gap| == |text|
    ensures Markers(next, base, |text|) == [] <==> Markers(inner, 0, |gap|) == []
  {
    SearchInLastGap(text, next, base, gap, inner);
    SearchAdvances(next, text);
    SearchAdvances(inner, gap);
    ScanLastGap(next, inner, base, |gap|, 0);
  }

  lemma LastGap(text: string, next: nat -> Hit, base: nat, gap: string)
    requires Searches(next, text) && base <= |text| && text[base..] == gap
    ensures Markers(next, base, |text|) == [] <==> AreAll(gap, [])
  {
    var inner := SearchOf(gap);
    AreAllOf(gap, inner, []);
    PartAtEnd(text, base, gap);
    LastGapSearch(text, next, base, gap, inner);
  }

  /** From gap k on, the scan finds exactly the expected markers if and only if nothing is wrong there. */
  ghost predicate FindsExactly(text: string, next: nat -> Hit, gaps: seq<string>, styles: seq<TimestampStyle>, values: seq<string>,
                               texts: seq<string>, k: nat, base: nat)
    requires |gaps| == |texts| + 1 && |styles| == |values| == |texts| && k <= |texts|
  {
    Markers(next, base, |text|) == Expected(gaps, styles, values, texts, k, base) <==> Fine(gaps, values, k)
  }

  lemma FindsExactlyHere(text: string, next: nat -> Hit, gaps: seq<string>, styles: seq<TimestampStyle>, values: seq<string>,
                         texts: seq<string>, k: nat, base: nat)
    requires |gaps| == |texts| + 1 && |styles| == |values| == |texts| && k < |texts| && Searches(next, text)
    requires PartAt(text, base, gaps[k]) && PartAt(text, base + |gaps[k]|, texts[k])
    requires IsMarker(styles, values, texts, k)
    requires FindsExactly(text, next, gaps, styles, values, texts, k + 1, base + |gaps[k]| + |texts[k]|)
    ensures FindsExactly(text, next, gaps, styles, values, texts, k, base)
  {
    var end := base + |gaps[k]| + |texts[k]|;
    FineSplits(gaps, values, k);
    StepFine(text, next, base, gaps[k], styles[k], values[k], texts[k], Expected(gaps, styles, values, texts, k, base),
             Expected(gaps, styles, values, texts, k + 1, end), Fine(gaps, values, k), Fine(gaps, values, k + 1));
  }

  lemma FindsExactlyAtEnd(text: string, next: nat -> Hit, gaps: seq<string>, styles: seq<TimestampStyle>, values: seq<string>,
                          texts: seq<string>, base: nat)
    requires |gaps| == |texts| + 1 && |styles| == |values| == |texts| && Searches(next, text)
    requires base <= |text| && text[base..] == gaps[|texts|]
    ensures FindsExactly(text, next, gaps, styles, values, texts, |texts|, base)
  {
    LastGap(text, next, base, gaps[|texts|]);
    FineAtEnd(gaps, values);
  }

  lemma {:induction false} ScanFindsExactly(gaps: seq<string>, styles: seq<TimestampStyle>, values: seq<string>, texts: seq<string>,
                                            k: nat, base: nat, text: string, next: nat -> Hit)
    requires |gaps| == |texts| + 1 && AllMarkers(styles, values, texts) && k <= |texts| && base <= |text| && Searches(next, text)
    requires text[base..] == Woven(gaps, texts, k)
    ensures FindsExactly(text, next, gaps, styles, values, texts, k, base)
    decreases |texts| - k
  {
    if k == |texts| {
      FindsExactlyAtEnd(text, next, gaps, styles, values, texts, base);
    } else {
      NextPieces(gaps, texts, k, base, text);
      ScanFindsExactly(gaps, styles, values, texts, k + 1, base + |gaps[k]| + |texts[k]|, text, next);
      assert IsMarker(styles, values, texts, k);
      FindsExactlyHere(text, next, gaps, styles, values, texts, k, base);
    }
  }

  /** From gap k on nothing is wrong: the gaps are quiet, the last one holds no marker, and no value closes early. */
  ghost predicate Fine(gaps: seq<string>, values: seq<string>, k: nat)
    requires k < |gaps|
  {
    QuietFrom(gaps, k) && NoneClosesEarly(values, k)
  }

  lemma FineSplits(gaps: seq<string>, values: seq<string>, k: nat)
    requires k < |values| && |gaps| == |values| + 1
    ensures Fine(gaps, values, k) <==> QuietGap(gaps[k]) && !ClosesEarly(values[k]) && Fine(gaps, values, k + 1)
  {
  }

  lemma FineAtEnd(gaps: seq<string>, values: seq<string>)
    requires |gaps| == |values| + 1
    ensures Fine(gaps, values, |values|) <==> AreAll(gaps[|values|], [])
  {
  }

  lemma StepAt(text: string, next: nat -> Hit, base: nat, gap: string, style: TimestampStyle, value: string, marker: string,
               rest: seq<Candidate<TimestampSpan>>)
    requires Searches(next, text) && PartAt(text, base, gap)
    requires marker == WrittenMarker(style, value) && PartAt(text, base + |gap|, marker)
    ensures Markers(next, base, |text|) == [MarkerOf(base + |gap|, |marker|, style, value)] + rest
            <==> QuietGap(gap) && !ClosesEarly(value) && Markers(next, base + |gap| + |marker|, |text|) == rest
  {
    GapAndMarker(text, next, base, gap, style, value, marker);
    SearchAdvances(next, text);
    StepExactly(next, |text|, base, base + |gap|, |marker|, style, value, QuietGap(gap), ClosesEarly(value), rest);
  }

  lemma StepFine(text: string, next: nat -> Hit, base: nat, gap: string, style: TimestampStyle, value: string, marker: string,
                 all: seq<Candidate<TimestampSpan>>, rest: seq<Candidate<TimestampSpan>>, fine: bool, fineBehind: bool)
    requires Searches(next, text) && PartAt(text, base, gap)
    requires marker == WrittenMarker(style, value) && PartAt(text, base + |gap|, marker)
    requires all == [MarkerOf(base + |gap|, |marker|, style, value)] + rest
    requires fine <==> QuietGap(gap) && !ClosesEarly(value) && fineBehind
    requires Markers(next, base + |gap| + |marker|, |text|) == rest <==> fineBehind
    ensures Markers(next, base, |text|) == all <==> fine
  {
    StepAt(text, next, base, gap, style, value, marker, rest);
  }

  // ----- the tokenized sample -----

  /** A span that is not plain is a marker that the scan reads in the input. */
  ghost predicate IsRead(input: string, c: Candidate<TimestampStyle>)
    requires c.position + c.length <= |input|
  {
    IsPlain(input, c) || ReadsStyle(ScanAt(input, c.position), c)
  }

  predicate ReadsStyle(scan: Scan, c: Candidate<TimestampStyle>) {
    scan.Marker? && scan.style == c.kind && scan.end == c.position + c.length
  }

  ghost predicate KeptAreRead(input: string, spans: seq<Candidate<TimestampStyle>>)
    requires InBounds(spans, |input|)
  {
    forall k :: 0 <= k < |spans| ==> IsRead(input, spans[k])
  }

  /** The value of the marker that a span becomes: the whole of a plain timestamp, the value read of a marker. */
  function MarkedValue(input: string, c: Candidate<TimestampStyle>): string
    requires c.position + c.length <= |input|
  {
    if IsPlain(input, c) then Original(input, c)
    else
      var scan := ScanAt(input, c.position);
      if scan.Marker? then scan.value else ""
  }

  function MarkedValues(input: string, spans: seq<Candidate<TimestampStyle>>): (values: seq<string>)
    requires InBounds(spans, |input|)
    ensures |values| == |spans|
  {
    seq(|spans|, k requires 0 <= k < |spans| => MarkedValue(input, spans[k]))
  }

  lemma {:induction false} StyleInSound(styles: seq<TimestampStyle>, key: string)
    ensures var style := StyleIn(styles, key);
            style.Some? ==> StyleKey(style.value) == key
  {
    if styles != [] && StyleKey(styles[0]) != key {
      StyleInSound(styles[1..], key);
    }
  }

  lemma JoinMarker(text: string, position: nat, separator: nat, end: nat)
    requires position + |PREFIX| <= separator && separator < end && OccursAt(text, SUFFIX, end)
    requires OccursAt(text, PREFIX, position) && OccursAt(text, ":", separator)
    ensures text[position..end + |SUFFIX|] == MarkerText(text[position + |PREFIX|..separator], text[separator + 1..end])
  {
    var keyBegin := position + |PREFIX|;
    assert text[position..end + |SUFFIX|] == text[position..keyBegin] + text[keyBegin..end + |SUFFIX|];
    assert text[keyBegin..end + |SUFFIX|] == text[keyBegin..separator] + text[separator..end + |SUFFIX|];
    assert text[separator..end + |SUFFIX|] == text[separator..separator + 1] + text[separator + 1..end + |SUFFIX|];
    assert text[separator + 1..end + |SUFFIX|] == text[separator + 1..end] + text[end..end + |SUFFIX|];
  }

  lemma ScanParts(styleOf: string -> Option<TimestampStyle>, input: string, keyBegin: nat, scan: Scan)
    returns (separator: nat, end: nat)
    requires scan == ScanKey(styleOf, input, keyBegin) && scan.Marker?
    ensures keyBegin <= separator < end && OccursAt(input, ":", separator) && OccursAt(input, SUFFIX, end)
    ensures styleOf(input[keyBegin..separator]) == Some(scan.style)
    ensures scan.value == input[separator + 1..end] && scan.end == end + |SUFFIX|
  {
    separator, end := Find(input, ":", keyBegin), CloseFrom(input, keyBegin);
    FindIsFirst(input, ":", keyBegin);
    FindIsFirst(input, SUFFIX, separator + 1);
  }

  /** What the scan reads as a marker is a written marker of its style and value, and the value does not close it early. */
  lemma ReadIsWritten(input: string, position: nat)
    requires OccursAt(input, PREFIX, position) && ScanMarker(input, position).Marker?
    ensures var scan := ScanMarker(input, position);
            && position <= scan.end <= |input|
            && input[position..scan.end] == WrittenMarker(scan.style, scan.value) && !ClosesEarly(scan.value)
  {
    var scan := ScanMarker(input, position);
    ScanIsScanKey(input, position);
    var separator, end := ScanParts(StyleFromKey, input, position + |PREFIX|, scan);
    JoinMarker(input, position, separator, end);
    StyleInSound(STYLES, input[position + |PREFIX|..separator]);
    MarkerRoundTrip(input, position, scan.style, scan.value);
  }

  lemma SpanBecomesMarker(input: string, c: Candidate<TimestampStyle>)
    requires c.position + c.length <= |input| && IsRead(input, c)
    ensures Wrapped(input, c) == WrittenMarker(c.kind, MarkedValue(input, c))
    ensures !IsPlain(input, c) ==> !ClosesEarly(MarkedValue(input, c))
  {
    if !IsPlain(input, c) {
      StartsHere(input, c.position, Original(input, c), PREFIX);
      ReadIsWritten(input, c.position);
    }
  }

  lemma StartsHere(input: string, position: nat, part: string, start: string)
    requires OccursAt(input, part, position) && start <= part
    ensures OccursAt(input, start, position)
  {
    SliceOfSlice(input, position, part, 0, |start|);
  }

  lemma SpansBecomeMarkers(input: string, spans: seq<Candidate<TimestampStyle>>)
    requires InBounds(spans, |input|) && KeptAreRead(input, spans)
    ensures AllMarkers(Styles(spans), MarkedValues(input, spans), WrappedTexts(input, spans))
    ensures NoneClosesEarly(MarkedValues(input, spans), 0)
            <==> forall k :: 0 <= k < |spans| && IsPlain(input, spans[k]) ==> !ClosesEarly(Original(input, spans[k]))
  {
    forall k: nat | k < |spans|
      ensures IsMarker(Styles(spans), MarkedValues(input, spans), WrappedTexts(input, spans), k)
      ensures !ClosesEarly(MarkedValues(input, spans)[k]) <==> IsPlain(input, spans[k]) ==> !ClosesEarly(Original(input, spans[k]))
    {
      SpanBecomesMarker(input, spans[k]);
    }
  }

  /** The markers of the tokenized sample: one for each kept span. */
  function SampleMarkers(input: string, spans: seq<Candidate<TimestampStyle>>): seq<Candidate<TimestampSpan>>
    requires InBounds(spans, |input|) && Disjoint(spans)
  {
    Expected(Gaps(input, spans), Styles(spans), MarkedValues(input, spans), WrappedTexts(input, spans), 0, 0)
  }

  /** Outside the kept spans no marker prefix starts anything that is readable or reaches into a kept span, and no plain
      timestamp closes its marker early. */
  ghost predicate Rescannable(input: string, spans: seq<Candidate<TimestampStyle>>)
    requires InBounds(spans, |input|) && Disjoint(spans)
  {
    && QuietFrom(Gaps(input, spans), 0)
    && forall k :: 0 <= k < |spans| && IsPlain(input, spans[k]) ==> !ClosesEarly(Original(input, spans[k]))
  }

  lemma ScanFindsAll(gaps: seq<string>, styles: seq<TimestampStyle>, values: seq<string>, texts: seq<string>)
    requires |gaps| == |texts| + 1 && AllMarkers(styles, values, texts)
    ensures AreAll(Woven(gaps, texts, 0), Expected(gaps, styles, values, texts, 0, 0)) <==> Fine(gaps, values, 0)
  {
    var text := Woven(gaps, texts, 0);
    var next := SearchOf(text);
    assert text[0..] == text;
    ScanFindsExactly(gaps, styles, values, texts, 0, 0, text, next);
    AreAllOf(text, next, Expected(gaps, styles, values, texts, 0, 0));
  }

  /** Scanning the tokenized sample finds the written and the kept markers, with their styles and values, and nothing
      else, if and only if the sample is rescannable. */
  lemma RescanFindsTheMarkers(input: string, spans: seq<Candidate<TimestampStyle>>)
    requires InBounds(spans, |input|) && Disjoint(spans) && KeptAreRead(input, spans)
    ensures AreAll(Rewritten(input, spans, WrappedTexts(input, spans), 0, 0), SampleMarkers(input, spans)) <==> Rescannable(input, spans)
  {
    RewrittenIsWoven(input, spans, WrappedTexts(input, spans), 0);
    SpansBecomeMarkers(input, spans);
    ScanFindsAll(Gaps(input, spans), Styles(spans), MarkedValues(input, spans), WrappedTexts(input, spans));
  }

  // ----- a sample that is not rescannable -----

  const BOGUS := "{{TIMESTAMP:BOGUS:"

  lemma BogusIsNotQuiet()
    ensures !QuietGap(BOGUS)
  {
    NeverCloses(BOGUS, |PREFIX|);
    ScanIsScanKey(BOGUS, 0);
    assert BOGUS[0..|PREFIX|] == PREFIX;
    assert NextHit(BOGUS, 0) == Hit(0, Unclosed);
  }

  lemma NeverCloses(text: string, keyBegin: nat)
    requires '}' !in text
    ensures CloseFrom(text, keyBegin) == -1
  {
    forall i: nat ensures !OccursAt(text, SUFFIX, i) {
      BracesOccur(text, i);
    }
    FindIsFirst(text, SUFFIX, Find(text, ":", keyBegin) + 1);
  }

  /** A marker of unknown style that is not closed swallows the marker written for the timestamp behind it. */
  lemma BogusSwallows(style: TimestampStyle, value: string)
    ensures var marker := WrittenMarker(style, value);
            !AreAll(BOGUS + marker, [MarkerOf(|BOGUS|, |marker|, style, value)])
  {
    var marker := WrittenMarker(style, value);
    var gaps, texts := [BOGUS, ""], [marker];
    BogusIsNotQuiet();
    assert IsMarker([style], [value], texts, 0);
    ScanFindsAll(gaps, [style], [value], texts);
    assert gaps[0] == BOGUS && !Fine(gaps, [value], 0);
    assert Woven(gaps, texts, 1) == "" && marker + "" == marker;
    assert Woven(gaps, texts, 0) == BOGUS + marker;
    assert Expected(gaps, [style], [value], texts, 1, |BOGUS| + |marker|) == [];
    assert Expected(gaps, [style], [value], texts, 0, 0) == [MarkerOf(|BOGUS|, |marker|, style, value)];
  }
}
