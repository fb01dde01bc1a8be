/** Tokenizing a tokenized sample again: when it stays as it is. */
module Retokenizing {
  import opened Text
  import opened Segments
  import opened Unwrapping
  import opened Rescanning

  /** A candidate that starts strictly inside a marker. */
  ghost predicate StartsInside<K>(c: Candidate<K>, marks: seq<Candidate<K>>) {
    exists j :: 0 <= j < |marks| && marks[j].position < c.position < marks[j].position + marks[j].length
  }

  /** Candidates k, k + 1, ... are markers or start inside one, and markers m, m + 1, ... are still among them. */
  ghost predicate OnlyMarks<K>(sorted: seq<Candidate<K>>, k: nat, marks: seq<Candidate<K>>, m: nat, cursor: nat) {
    && k <= |sorted| && m <= |marks|
    && (forall i :: k <= i < |sorted| ==> sorted[i] in marks || StartsInside(sorted[i], marks))
    && (forall j :: m <= j < |marks| ==> marks[j] in sorted[k..] && cursor <= marks[j].position)
    && (forall j :: 0 <= j < m ==> marks[j].position + marks[j].length <= cursor)
  }

  /** The candidate that the sweep keeps next is the next marker. */
  lemma NextIsMark<K>(sorted: seq<Candidate<K>>, k: nat, marks: seq<Candidate<K>>, m: nat, cursor: nat)
    requires SortedByPosition(sorted) && Disjoint(marks) && OnlyMarks(sorted, k, marks, m, cursor) && k < |sorted|
    requires forall j :: 0 <= j < |marks| ==> marks[j].length > 0
    requires sorted[k].position >= cursor
    ensures m < |marks| && sorted[k] == marks[m]
  {
    var c := sorted[k];
    var j: nat :| j < |marks| && (marks[j] == c || marks[j].position < c.position < marks[j].position + marks[j].length);
    assert j >= m;
    FirstOfRest(sorted, k, marks[m]);
    FirstOfRest(sorted, k, marks[j]);
  }

  lemma FirstOfRest<K>(sorted: seq<Candidate<K>>, k: nat, c: Candidate<K>)
    requires SortedByPosition(sorted) && k < |sorted| && c in sorted[k..]
    ensures sorted[k].position <= c.position
  {
    var i :| 0 <= i < |sorted[k..]| && sorted[k..][i] == c;
    assert sorted[k + i] == c;
  }

  lemma MarksStay<K>(sorted: seq<Candidate<K>>, k: nat, marks: seq<Candidate<K>>, m: nat, cursor: nat, m': nat, cursor': nat)
    requires OnlyMarks(sorted, k, marks, m, cursor) && k < |sorted| && m <= m' <= |marks|
    requires forall j :: m' <= j < |marks| ==> sorted[k] != marks[j] && cursor' <= marks[j].position
    requires forall j :: 0 <= j < m' ==> marks[j].position + marks[j].length <= cursor'
    ensures OnlyMarks(sorted, k + 1, marks, m', cursor')
  {
    forall j | m' <= j < |marks| ensures marks[j] in sorted[k + 1..] {
      assert sorted[k..] == [sorted[k]] + sorted[k + 1..];
    }
  }

  /** The sweep leaves out a candidate that starts inside what it has taken. */
  lemma MarkSkipped<K>(sorted: seq<Candidate<K>>, k: nat, marks: seq<Candidate<K>>, m: nat, cursor: nat)
    requires OnlyMarks(sorted, k, marks, m, cursor) && k < |sorted| && sorted[k].position < cursor
    ensures OnlyMarks(sorted, k + 1, marks, m, cursor)
  {
    MarksStay(sorted, k, marks, m, cursor, m, cursor);
  }

  lemma MarkTaken<K>(sorted: seq<Candidate<K>>, k: nat, marks: seq<Candidate<K>>, m: nat, cursor: nat)
    requires Disjoint(marks) && OnlyMarks(sorted, k, marks, m, cursor) && k < |sorted| && m < |marks| && sorted[k] == marks[m]
    requires sorted[k].length > 0
    ensures OnlyMarks(sorted, k + 1, marks, m + 1, sorted[k].position + sorted[k].length)
    ensures marks[m..] == [sorted[k]] + marks[m + 1..]
  {
    MarksStay(sorted, k, marks, m, cursor, m + 1, sorted[k].position + sorted[k].length);
  }

  lemma {:induction false} ChosenAreMarks<K>(sorted: seq<Candidate<K>>, k: nat, marks: seq<Candidate<K>>, m: nat, cursor: nat)
    requires SortedByPosition(sorted) && Disjoint(marks) && OnlyMarks(sorted, k, marks, m, cursor)
    requires forall j :: 0 <= j < |marks| ==> marks[j].length > 0
    ensures Chosen(sorted, k, cursor) == marks[m..]
    decreases |sorted| - k
  {
    if k < |sorted| {
      var c := sorted[k];
      if c.position < cursor {
        MarkSkipped(sorted, k, marks, m, cursor);
        ChosenAreMarks(sorted, k + 1, marks, m, cursor);
      } else {
        NextIsMark(sorted, k, marks, m, cursor);
        MarkTaken(sorted, k, marks, m, cursor);
        ChosenAreMarks(sorted, k + 1, marks, m + 1, c.position + c.length);
      }
    } else {
      assert sorted[k..] == [];
    }
  }

  /** A marker found by the scan, as a candidate of the sweep. */
  function AsSpan(marker: Candidate<TimestampSpan>): Candidate<TimestampStyle> {
    Candidate(marker.position, marker.length, marker.priority, marker.kind.style)
  }

  function AsSpans(markers: seq<Candidate<TimestampSpan>>): (spans: seq<Candidate<TimestampStyle>>)
    ensures |spans| == |markers|
  {
    seq(|markers|, i requires 0 <= i < |markers| => AsSpan(markers[i]))
  }

  lemma HitIsRead(text: string, from: nat)
    ensures var hit := NextHit(text, from);
            hit.Hit? && hit.scan.Marker? ==> ReadAt(text, HitMarker(hit))
  {
    FindIsFirst(text, PREFIX, from);
  }

  ghost predicate AllRead(text: string, markers: seq<Candidate<TimestampSpan>>) {
    forall i :: 0 <= i < |markers| ==> ReadAt(text, markers[i])
  }

  ghost predicate HitsAreRead(text: string, next: nat -> Hit) {
    forall from: nat {:trigger next(from)} :: next(from).Hit? && next(from).scan.Marker? && next(from).position <= next(from).scan.end
      ==> ReadAt(text, HitMarker(next(from)))
  }

  ghost predicate WellRead(text: string, markers: seq<Candidate<TimestampSpan>>) {
    Disjoint(markers) && InBounds(markers, |text|) && AllRead(text, markers)
  }

  lemma PutInFront(text: string, c: Candidate<TimestampSpan>, rest: seq<Candidate<TimestampSpan>>)
    requires WellRead(text, rest) && ReadAt(text, c) && c.position + c.length <= |text|
    requires rest != [] ==> c.position + c.length <= rest[0].position
    ensures WellRead(text, [c] + rest)
  {
    assert forall j :: 0 <= j < |rest| ==> rest[0].position <= rest[j].position;
  }

  lemma MarkersFront(next: nat -> Hit, from: nat, size: nat)
    requires next(from).Hit? && Advances(next(from), from, size)
    ensures var hit, rest := next(from), Markers(next, Onward(next(from)), size);
            Markers(next, from, size) == if hit.scan.Marker? then [HitMarker(hit)] + rest else rest
  {
  }

  /** The markers of a scan are disjoint, in bounds, and each is read in its place. */
  lemma {:induction false} MarkersAreRead(text: string, next: nat -> Hit, from: nat)
    requires HitsAreRead(text, next)
    ensures WellRead(text, Markers(next, from, |text|))
    decreases |text| - from
  {
    var hit := next(from);
    if hit.Hit? && Advances(hit, from, |text|) {
      MarkersAreRead(text, next, Onward(hit));
      MarkersFront(next, from, |text|);
      if hit.scan.Marker? {
        PutInFront(text, HitMarker(hit), Markers(next, Onward(hit), |text|));
      }
    }
  }

  lemma AllMarkersAreRead(text: string, markers: seq<Candidate<TimestampSpan>>)
    requires AreAll(text, markers)
    ensures Disjoint(markers) && InBounds(markers, |text|) && AllRead(text, markers)
  {
    var next := SearchOf(text);
    AreAllOf(text, next, markers);
    forall from: nat | next(from).Hit? && next(from).scan.Marker? && next(from).position <= next(from).scan.end
      ensures ReadAt(text, HitMarker(next(from)))
    {
      assert next(from) == NextHit(text, from);
      HitIsRead(text, from);
    }
    MarkersAreRead(text, next, 0);
  }

  lemma ReadIsNotPlain(text: string, c: Candidate<TimestampSpan>)
    requires ReadAt(text, c)
    ensures c.length > 0 && c.position + c.length <= |text| && !IsPlain(text, AsSpan(c))
  {
    FrontOfSlice(text, c.position, text[c.position..c.position + c.length], |PREFIX|);
  }

  ghost predicate NonePlain(text: string, spans: seq<Candidate<TimestampStyle>>)
    requires InBounds(spans, |text|)
  {
    forall i :: 0 <= i < |spans| ==> spans[i].length > 0 && !IsPlain(text, spans[i])
  }

  /** What the second pass finds besides the markers starts inside one of them. */
  ghost predicate FoundAgain<K>(sorted: seq<Candidate<K>>, marks: seq<Candidate<K>>) {
    && (forall j :: 0 <= j < |marks| ==> marks[j] in sorted)
    && forall i :: 0 <= i < |sorted| ==> sorted[i] in marks || StartsInside(sorted[i], marks)
  }

  /** Tokenizing a text whose candidates are its markers, or start inside one, leaves it as it is. */
  lemma TokenizingAgain(text: string, markers: seq<Candidate<TimestampSpan>>, sorted: seq<Candidate<TimestampStyle>>)
    requires AreAll(text, markers) && SortedByPosition(sorted) && FoundAgain(sorted, AsSpans(markers))
    ensures var spans := Chosen(sorted, 0, 0);
            && spans == AsSpans(markers) && InBounds(spans, |text|) && Disjoint(spans)
            && Rewritten(text, spans, WrappedTexts(text, spans), 0, 0) == text
  {
    var spans := AsSpans(markers);
    MarkersAsSpans(text, markers);
    SweepKeepsMarks(sorted, spans);
    KeptAsTheyAre(text, spans);
  }

  lemma MarkersAsSpans(text: string, markers: seq<Candidate<TimestampSpan>>)
    requires AreAll(text, markers)
    ensures var spans := AsSpans(markers);
            InBounds(spans, |text|) && Disjoint(spans) && NonePlain(text, spans)
  {
    AllMarkersAreRead(text, markers);
    forall i | 0 <= i < |markers|
      ensures markers[i].length > 0 && markers[i].position + markers[i].length <= |text| && !IsPlain(text, AsSpan(markers[i]))
    {
      ReadIsNotPlain(text, markers[i]);
    }
  }

  lemma SweepKeepsMarks<K>(sorted: seq<Candidate<K>>, marks: seq<Candidate<K>>)
    requires SortedByPosition(sorted) && Disjoint(marks) && FoundAgain(sorted, marks) && forall j :: 0 <= j < |marks| ==> marks[j].length > 0
    ensures Chosen(sorted, 0, 0) == marks
  {
    assert sorted[0..] == sorted && marks[0..] == marks;
    ChosenAreMarks(sorted, 0, marks, 0, 0);
  }

  /** Spans that are markers already are written as they are. */
  lemma KeptAsTheyAre(text: string, spans: seq<Candidate<TimestampStyle>>)
    requires InBounds(spans, |text|) && Disjoint(spans) && NonePlain(text, spans)
    ensures Rewritten(text, spans, WrappedTexts(text, spans), 0, 0) == text
  {
    assert WrappedTexts(text, spans) == OriginalTexts(text, spans);
    RewrittenIsWoven(text, spans, OriginalTexts(text, spans), 0);
    InputIsWoven(text, spans, 0);
    assert text[0..] == text;
  }

  /** The tokenizer is idempotent on a rescannable sample, if its patterns match nothing in the output but what starts
      inside a marker. */
  lemma TokenizingTwice(input: string, spans: seq<Candidate<TimestampStyle>>, sorted: seq<Candidate<TimestampStyle>>)
    requires InBounds(spans, |input|) && Disjoint(spans) && KeptAreRead(input, spans) && Rescannable(input, spans)
    requires SortedByPosition(sorted) && FoundAgain(sorted, AsSpans(SampleMarkers(input, spans)))
    ensures var output := Rewritten(input, spans, WrappedTexts(input, spans), 0, 0);
            var again := Chosen(sorted, 0, 0);
            && InBounds(again, |output|) && Disjoint(again)
            && Rewritten(output, again, WrappedTexts(output, again), 0, 0) == output
  {
    RescanFindsTheMarkers(input, spans);
    TokenizingAgain(Rewritten(input, spans, WrappedTexts(input, spans), 0, 0), SampleMarkers(input, spans), sorted);
  }

  // ----- the whole of tokenize_timestamps -----

  /** A match of one of the patterns: it lies in the input and does not start like a marker. */
  predicate IsMatch(input: string, c: Candidate<TimestampStyle>) {
    c.position + c.length <= |input| && IsPlain(input, c)
  }

  ghost predicate AreMatches(input: string, matches: seq<Candidate<TimestampStyle>>) {
    forall i :: 0 <= i < |matches| ==> IsMatch(input, matches[i])
  }

  /** The candidates of a sample: its markers and the matches, by position. */
  ghost predicate AreCandidates(input: string, markers: seq<Candidate<TimestampSpan>>, matches: seq<Candidate<TimestampStyle>>,
                                sorted: seq<Candidate<TimestampStyle>>) {
    && AreAll(input, markers) && AreMatches(input, matches) && SortedByPosition(sorted)
    && multiset(sorted) == multiset(AsSpans(markers) + matches)
  }

  /** A marker that the scan has read, or a match. */
  predicate IsCandidate(input: string, c: Candidate<TimestampStyle>) {
    c.position + c.length <= |input| && (IsPlain(input, c) || ReadsStyle(ScanAt(input, c.position), c))
  }

  lemma MarkerIsCandidate(input: string, c: Candidate<TimestampSpan>)
    requires ReadAt(input, c) && c.position + c.length <= |input|
    ensures IsCandidate(input, AsSpan(c))
  {
  }

  lemma FromEither<K>(sorted: seq<K>, a: seq<K>, b: seq<K>, i: nat)
    requires multiset(sorted) == multiset(a + b) && i < |sorted|
    ensures sorted[i] in a || sorted[i] in b
  {
    assert sorted[i] in multiset(sorted);
    assert sorted[i] in a + b;
  }

  lemma SpansAreCandidates(input: string, markers: seq<Candidate<TimestampSpan>>, c: Candidate<TimestampStyle>)
    requires AreAll(input, markers) && c in AsSpans(markers)
    ensures IsCandidate(input, c)
  {
    AllMarkersAreRead(input, markers);
    var k :| 0 <= k < |markers| && AsSpans(markers)[k] == c;
    MarkerIsCandidate(input, markers[k]);
  }

  lemma CandidatesAre(input: string, markers: seq<Candidate<TimestampSpan>>, matches: seq<Candidate<TimestampStyle>>,
                      sorted: seq<Candidate<TimestampStyle>>, i: nat)
    requires AreCandidates(input, markers, matches, sorted) && i < |sorted|
    ensures IsCandidate(input, sorted[i])
  {
    FromEither(sorted, AsSpans(markers), matches, i);
    if sorted[i] in AsSpans(markers) {
      SpansAreCandidates(input, markers, sorted[i]);
    }
  }

  lemma {:induction false} ChosenAreSorted<K>(sorted: seq<Candidate<K>>, k: nat, cursor: nat, i: nat)
    requires k <= |sorted| && i < |Chosen(sorted, k, cursor)|
    ensures Chosen(sorted, k, cursor)[i] in sorted
    decreases |sorted| - k
  {
    if sorted[k].position < cursor {
      ChosenAreSorted(sorted, k + 1, cursor, i);
    } else if i > 0 {
      ChosenAreSorted(sorted, k + 1, sorted[k].position + sorted[k].length, i - 1);
    }
  }

  lemma KeptAreCandidates(input: string, markers: seq<Candidate<TimestampSpan>>, matches: seq<Candidate<TimestampStyle>>,
                          sorted: seq<Candidate<TimestampStyle>>)
    requires AreCandidates(input, markers, matches, sorted)
    ensures var spans := Chosen(sorted, 0, 0);
            InBounds(sorted, |input|) && InBounds(spans, |input|) && Disjoint(spans) && KeptAreRead(input, spans)
  {
    forall i: nat | i < |sorted| ensures IsCandidate(input, sorted[i]) {
      CandidatesAre(input, markers, matches, sorted, i);
    }
    ChosenDisjoint(sorted, 0, 0, |input|);
    var spans := Chosen(sorted, 0, 0);
    forall i: nat | i < |spans| ensures IsRead(input, spans[i]) {
      ChosenAreSorted(sorted, 0, 0, i);
    }
  }

  /** tokenize_timestamps, and the markers it found, whatever the patterns match and however the sort breaks ties: scanning the output finds the
      markers of all kept spans and nothing else if and only if the sample is rescannable. */
  method TokenizeSample(input: string, matches: seq<Candidate<TimestampStyle>>,
                        sort: seq<Candidate<TimestampStyle>> -> seq<Candidate<TimestampStyle>>) returns (output: string, markers: seq<Candidate<TimestampSpan>>)
    requires AreMatches(input, matches)
    requires forall s {:trigger sort(s)} :: SortedByPosition(sort(s)) && multiset(sort(s)) == multiset(s)
    ensures AreAll(input, markers)
    ensures var spans := Chosen(sort(AsSpans(markers) + matches), 0, 0);
            && InBounds(spans, |input|) && Disjoint(spans) && KeptAreRead(input, spans)
            && output == Rewritten(input, spans, WrappedTexts(input, spans), 0, 0)
            && (AreAll(output, SampleMarkers(input, spans)) <==> Rescannable(input, spans))
  {
    markers := MarkerCandidates(input);
    var sorted := sort(AsSpans(markers) + matches);
    KeptAreCandidates(input, markers, matches, sorted);
    output := TokenizeTimestamps(input, sorted);
    RescanFindsTheMarkers(input, Chosen(sorted, 0, 0));
  }
}
