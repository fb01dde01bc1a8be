/** Taking the markers that tokenize_timestamps has added out of its output again. */
module Unwrapping {
  import opened Options
  import opened Text
  import opened Segments

  /** The scan at a place; too near to the end there is no marker. */
  function ScanAt(output: string, place: nat): Scan {
    if place + |PREFIX| <= |output| then ScanMarker(output, place) else Unclosed
  }

  /** Walks the output and replaces the marker at each of these places by the value that `scan` reads there. */
  function Unwrapped(output: string, scan: nat -> Scan, marks: seq<nat>, cursor: nat): string
    requires cursor <= |output|
    decreases |marks|
  {
    if marks == [] || marks[0] < cursor || marks[0] > |output| then output[cursor..]
    else
      match scan(marks[0])
      case Marker(_, value, end) =>
        if end > |output| then output[cursor..] else output[cursor..marks[0]] + (value + Unwrapped(output, scan, marks[1..], end))
      case Unclosed => Unwrapped(output, scan, marks[1..], cursor)
      case UnknownStyle(_) => Unwrapped(output, scan, marks[1..], cursor)
  }

  function Scanner(output: string): nat -> Scan { (place: nat) => ScanAt(output, place) }

  /** The function is the marker scan of this text. */
  ghost predicate Scans(scan: nat -> Scan, output: string) {
    forall place: nat {:trigger ScanAt(output, place)} :: scan(place) == ScanAt(output, place)
  }

  function Original<K>(input: string, c: Candidate<K>): string
    requires c.position + c.length <= |input|
  {
    input[c.position..c.position + c.length]
  }

  /** A plain timestamp: it is wrapped; the other spans are markers already and stay. */
  predicate IsPlain<K>(input: string, c: Candidate<K>)
    requires c.position + c.length <= |input|
  {
    !(PREFIX <= Original(input, c))
  }

  // ----- texts between and at the spans -----

  /** Gap 0, text 0, gap 1, text 1, ..., from place k on. */
  function Woven(gaps: seq<string>, texts: seq<string>, k: nat): string
    requires |gaps| == |texts| + 1 && k <= |texts|
    decreases |texts| - k
  {
    if k == |texts| then gaps[k] else gaps[k] + (texts[k] + Woven(gaps, texts, k + 1))
  }

  function GapStart<K>(spans: seq<Candidate<K>>, k: nat): nat
    requires k <= |spans|
  {
    if k == 0 then 0 else spans[k - 1].position + spans[k - 1].length
  }

  function GapEnd<K>(spans: seq<Candidate<K>>, size: nat, k: nat): nat
    requires k <= |spans|
  {
    if k == |spans| then size else spans[k].position
  }

  lemma GapInOrder<K>(spans: seq<Candidate<K>>, size: nat, k: nat)
    requires InBounds(spans, size) && Disjoint(spans) && k <= |spans|
    ensures GapStart(spans, k) <= GapEnd(spans, size, k) <= size
  {
  }

  /** The parts of the input that no span covers. */
  function Gaps<K>(input: string, spans: seq<Candidate<K>>): (gaps: seq<string>)
    requires InBounds(spans, |input|) && Disjoint(spans)
    ensures |gaps| == |spans| + 1
  {
    seq(|spans| + 1, k requires 0 <= k <= |spans| =>
      GapInOrder(spans, |input|, k); input[GapStart(spans, k)..GapEnd(spans, |input|, k)])
  }

  lemma RewrittenUnfolds<K>(input: string, spans: seq<Candidate<K>>, texts: seq<string>, k: nat, cursor: nat)
    requires InBounds(spans, |input|) && Disjoint(spans) && |texts| == |spans| && k < |spans| && cursor <= spans[k].position
    requires GapStart(spans, k + 1) <= GapEnd(spans, |input|, k + 1) <= |input|
    ensures Rewritten(input, spans, texts, k, cursor)
            == input[cursor..spans[k].position] + (texts[k] + Rewritten(input, spans, texts, k + 1, GapStart(spans, k + 1)))
  {
  }

  lemma WovenUnfolds(gaps: seq<string>, texts: seq<string>, k: nat)
    requires |gaps| == |texts| + 1 && k < |texts|
    ensures Woven(gaps, texts, k) == gaps[k] + (texts[k] + Woven(gaps, texts, k + 1))
  {
  }

  lemma {:induction false} RewrittenIsWoven<K>(input: string, spans: seq<Candidate<K>>, texts: seq<string>, k: nat)
    requires InBounds(spans, |input|) && Disjoint(spans) && |texts| == |spans| && k <= |spans|
    ensures GapStart(spans, k) <= GapEnd(spans, |input|, k) <= |input|
    ensures Rewritten(input, spans, texts, k, GapStart(spans, k)) == Woven(Gaps(input, spans), texts, k)
    decreases |spans| - k
  {
    GapInOrder(spans, |input|, k);
    if k < |spans| {
      GapInOrder(spans, |input|, k + 1);
      RewrittenIsWoven(input, spans, texts, k + 1);
      RewrittenUnfolds(input, spans, texts, k, GapStart(spans, k));
      WovenUnfolds(Gaps(input, spans), texts, k);
    }
  }

  lemma ThreeParts(s: string, a: nat, b: nat, c: nat)
    requires a <= b <= c <= |s|
    ensures s[a..] == s[a..b] + (s[b..c] + s[c..])
  {
  }

  lemma {:induction false} InputIsWoven<K>(input: string, spans: seq<Candidate<K>>, k: nat)
    requires InBounds(spans, |input|) && Disjoint(spans) && k <= |spans|
    ensures GapStart(spans, k) <= |input|
    ensures Woven(Gaps(input, spans), OriginalTexts(input, spans), k) == input[GapStart(spans, k)..]
    decreases |spans| - k
  {
    GapInOrder(spans, |input|, k);
    if k < |spans| {
      InputIsWoven(input, spans, k + 1);
      ThreeParts(input, GapStart(spans, k), spans[k].position, GapStart(spans, k + 1));
    }
  }

  function PlainSpans<K>(input: string, spans: seq<Candidate<K>>): seq<bool>
    requires InBounds(spans, |input|)
  {
    seq(|spans|, i requires 0 <= i < |spans| => IsPlain(input, spans[i]))
  }

  /** Where the added markers stand when `base` bytes have been written before gap k. */
  function AddedMarks(gaps: seq<string>, plain: seq<bool>, texts: seq<string>, k: nat, base: nat): seq<nat>
    requires |plain| == |texts| && |gaps| == |texts| + 1 && k <= |texts|
    decreases |texts| - k
  {
    if k == |texts| then []
    else
      var place := base + |gaps[k]|;
      (if plain[k] then [place] else []) + AddedMarks(gaps, plain, texts, k + 1, place + |texts[k]|)
  }

  // ----- where a written marker closes -----

  /** The first "}}" of a value that is followed by the suffix of its marker. */
  function Close(value: string): (r: nat)
    ensures r <= |value| && OccursAt(value + SUFFIX, SUFFIX, r)
    ensures forall i: nat :: i < r ==> !BracesAt(value + SUFFIX, i)
  {
    FirstBraces(value, "");
    Find(value + SUFFIX, SUFFIX, 0)
  }

  lemma FirstBraces(value: string, rest: string)
    ensures var s := value + (SUFFIX + rest);
            var r := Find(s, SUFFIX, 0);
            && 0 <= r <= |value| && OccursAt(s, SUFFIX, r)
            && forall i: nat :: i < r ==> !BracesAt(s, i)
    ensures value + (SUFFIX + "") == value + SUFFIX
  {
    var s := value + (SUFFIX + rest);
    FindIsFirst(s, SUFFIX, 0);
    forall i: nat ensures OccursAt(s, SUFFIX, i) <==> BracesAt(s, i) {
      BracesOccur(s, i);
    }
    assert BracesAt(s, |value|);
    assert SUFFIX + "" == SUFFIX;
  }

  /** What follows the marker does not matter. */
  lemma CloseInContext(value: string, rest: string)
    ensures Find(value + (SUFFIX + rest), SUFFIX, 0) == Close(value)
  {
    var s, t := value + (SUFFIX + rest), value + SUFFIX;
    FirstBraces(value, rest);
    FirstBraces(value, "");
    forall i: nat | i <= |value| ensures BracesAt(s, i) <==> BracesAt(t, i) {
    }
    BracesOccur(s, Find(s, SUFFIX, 0));
    BracesOccur(t, Close(value));
  }

  /** What the unwrapped output has in place of a wrapped value: what the scan reads, then what it leaves behind. */
  function Recovered(value: string): string {
    value[..Close(value)] + (value + SUFFIX)[Close(value) + |SUFFIX|..]
  }

  lemma RecoveredLength(value: string)
    ensures |Recovered(value)| == |value|
  {
  }

  /** No "}}" in the value is followed by anything but braces. */
  ghost predicate Restorable(value: string) {
    forall i: nat, j: nat :: BracesAt(value, i) && i < j < |value| ==> value[j] == '}'
  }

  lemma BracesFrom(value: string)
    ensures Restorable(value) <==> forall j :: Close(value) <= j < |value| ==> value[j] == '}'
  {
    var r, s := Close(value), value + SUFFIX;
    BracesOccur(s, r);
    forall i: nat | i + 1 < |value| ensures BracesAt(s, i) <==> BracesAt(value, i) {
    }
    if r + 1 < |value| {
      assert BracesAt(value, r);
    }
  }

  /** Equal from r on means: each character is the one two places further on. */
  lemma {:induction false} AllBraces(value: string, r: nat, j: nat)
    requires r <= j <= |value| && (value + SUFFIX)[r + 2..] == value[r..]
    ensures forall i :: j <= i < |value| ==> value[i] == '}'
    decreases |value| - j
  {
    if j < |value| {
      AllBraces(value, r, j + 1);
      assert value[j] == value[r..][j - r] == (value + SUFFIX)[r + 2..][j - r] == (value + SUFFIX)[j + 2];
    }
  }

  lemma RecoveredExactly(value: string)
    ensures Recovered(value) == value <==> Restorable(value)
  {
    var r, s := Close(value), value + SUFFIX;
    BracesFrom(value);
    assert value == value[..r] + value[r..];
    if Recovered(value) == value {
      assert Recovered(value)[r..] == s[r + 2..];
      AllBraces(value, r, r);
    }
    if forall j :: r <= j < |value| ==> value[j] == '}' {
      BracesRestore(value, r);
    }
  }

  lemma BracesRestore(value: string, r: nat)
    requires r <= |value| && forall j :: r <= j < |value| ==> value[j] == '}'
    ensures (value + SUFFIX)[r + 2..] == value[r..]
  {
  }

  // ----- reading a written marker in its place -----

  /** At `place`, the scan reads the value up to its first "}}" and leaves the rest of value and suffix behind. */
  ghost predicate ReadableAt(output: string, scan: Scan, place: nat, length: nat, value: string) {
    && place + length <= |output| && scan.Marker?
    && scan.value == value[..Close(value)] && place <= scan.end <= place + length
    && output[scan.end..place + length] == (value + SUFFIX)[Close(value) + |SUFFIX|..]
  }

  lemma TailOfMarker(output: string, place: nat, key: string, value: string, r: nat)
    requires OccursAt(output, MarkerText(key, value), place) && r <= |value|
    ensures var end := place + |PREFIX| + |key| + 1 + r + |SUFFIX|;
            var stop := place + |MarkerText(key, value)|;
            end <= stop <= |output| && output[end..stop] == (value + SUFFIX)[r + |SUFFIX|..]
  {
    var head := |PREFIX| + |key| + 1;
    var marker := MarkerText(key, value);
    MarkerLength(key, value);
    SliceOfSlice(output, place, marker, head + r + |SUFFIX|, |value| - r);
    assert marker == (PREFIX + key + ":") + (value + SUFFIX);
    TailOfSecond(PREFIX + key + ":", value + SUFFIX, r + |SUFFIX|);
  }

  lemma TailOfSecond(a: string, b: string, k: nat)
    requires k <= |b|
    ensures (a + b)[|a| + k..] == b[k..]
  {
  }

  lemma MarkerReads(output: string, before: string, style: TimestampStyle, value: string, rest: string)
    requires output == before + (WrittenMarker(style, value) + rest)
    ensures ReadableAt(output, ScanAt(output, |before|), |before|, |WrittenMarker(style, value)|, value)
  {
    OccursInFront(before, WrittenMarker(style, value), rest);
    KeyHasNoColon(style);
    StyleRoundTrip(style);
    KeyReads(output, |before|, StyleKey(style), style, value);
  }

  lemma KeyReads(output: string, place: nat, key: string, style: TimestampStyle, value: string)
    requires ':' !in key && StyleFromKey(key) == Some(style) && OccursAt(output, MarkerText(key, value), place)
    ensures ReadableAt(output, ScanAt(output, place), place, |MarkerText(key, value)|, value)
  {
    var r := Close(value);
    var separator := place + |PREFIX| + |key|;
    ScanFinds(output, place, key, style, value);
    MarkerLength(key, value);
    TailOfMarker(output, place, key, value, r);
  }

  lemma ScanFinds(output: string, place: nat, key: string, style: TimestampStyle, value: string)
    requires ':' !in key && StyleFromKey(key) == Some(style) && OccursAt(output, MarkerText(key, value), place)
    ensures ScanAt(output, place)
            == Marker(style, value[..Close(value)], place + |PREFIX| + |key| + 1 + Close(value) + |SUFFIX|)
  {
    var separator := place + |PREFIX| + |key|;
    MarkerSlices(output, place, key, value);
    MarkerFinds(output, place, key, value);
    CloseInContext(value, output[separator + 1 + |value| + |SUFFIX|..]);
    ScanValue(output, place, separator, separator + 1 + Close(value), style, value, Close(value));
  }

  lemma ScanValue(output: string, place: nat, separator: nat, end: nat, style: TimestampStyle, value: string, r: nat)
    requires place + |PREFIX| <= separator && separator + 1 + |value| <= |output| && r <= |value| && end == separator + 1 + r
    requires Find(output, ":", place + |PREFIX|) == separator && Find(output, SUFFIX, separator + 1) == end
    requires StyleFromKey(output[place + |PREFIX|..separator]) == Some(style)
    requires output[separator + 1..separator + 1 + |value|] == value
    ensures ScanAt(output, place) == Marker(style, value[..r], end + |SUFFIX|)
  {
    FrontOfSlice(output, separator + 1, value, r);
    ScanGives(output, place, separator, end, style);
  }

  lemma FrontOfSlice(s: string, from: nat, value: string, r: nat)
    requires from + |value| <= |s| && s[from..from + |value|] == value && r <= |value|
    ensures s[from..from + r] == value[..r]
  {
    assert s[from..from + |value|][..r] == s[from..from + r];
  }

  // ----- the whole output -----

  /** Text k is the wrapped value, or the value itself if it was a marker. */
  ghost predicate Accepts(styles: seq<TimestampStyle>, plain: seq<bool>, values: seq<string>, texts: seq<string>, k: nat)
    requires |styles| == |plain| == |values| == |texts| && k < |texts|
  {
    texts[k] == if plain[k] then WrittenMarker(styles[k], values[k]) else values[k]
  }

  ghost predicate Wrapping(styles: seq<TimestampStyle>, plain: seq<bool>, values: seq<string>, texts: seq<string>) {
    && |styles| == |plain| == |values| == |texts|
    && forall k: nat :: k < |texts| ==> Accepts(styles, plain, values, texts, k)
  }

  lemma KeptText(styles: seq<TimestampStyle>, plain: seq<bool>, values: seq<string>, texts: seq<string>, k: nat)
    requires Wrapping(styles, plain, values, texts) && k < |texts| && !plain[k]
    ensures texts[k] == values[k]
  {
    assert Accepts(styles, plain, values, texts, k);
  }

  lemma PlainReads(styles: seq<TimestampStyle>, plain: seq<bool>, values: seq<string>, texts: seq<string>, k: nat,
                   output: string, scan: nat -> Scan, place: nat, rest: string)
    requires Wrapping(styles, plain, values, texts) && k < |texts| && plain[k]
    requires place <= |output| && output[place..] == texts[k] + rest && Scans(scan, output)
    ensures ReadableAt(output, scan(place), place, |texts[k]|, values[k])
  {
    assert Accepts(styles, plain, values, texts, k);
    assert output == output[..place] + (texts[k] + rest);
    MarkerReads(output, output[..place], styles[k], values[k], rest);
    assert scan(place) == ScanAt(output, place);
  }

  /** What unwrapping recovers of each text. */
  function RecoveredTexts(plain: seq<bool>, values: seq<string>): (texts: seq<string>)
    requires |plain| == |values|
    ensures |texts| == |values|
  {
    seq(|values|, k requires 0 <= k < |values| => if plain[k] then Recovered(values[k]) else values[k])
  }

  /** Joining what is behind `cur` with the following pieces. */
  lemma JoinKept(output: string, cur: nat, pre: nat, text: string, own: string, rest: string, further: string)
    requires cur <= pre && pre + |text| + |own| <= |output|
    requires output[pre..pre + |text|] == text && output[pre + |text|..pre + |text| + |own|] == own
    requires rest == output[cur..pre + |text| + |own|] + further
    ensures rest == output[cur..pre] + (text + (own + further))
  {
    assert output[cur..pre + |text| + |own|] == output[cur..pre] + (text + own);
    Associate(output[cur..pre], text + own, further);
    Associate(text, own, further);
  }

  lemma JoinRead(output: string, cur: nat, pre: nat, text: string, read: string, tail: string, further: string)
    requires cur <= pre && pre + |text| <= |output| && output[pre..pre + |text|] == text
    ensures output[cur..pre + |text|] + (read + (tail + further)) == output[cur..pre] + (text + ((read + tail) + further))
  {
    assert output[cur..pre + |text|] == output[cur..pre] + text;
    Associate(read, tail, further);
    Associate(output[cur..pre], text, read + (tail + further));
  }

  /** Cutting the output behind `base` at the next text. */
  lemma PiecesInPlace(output: string, base: nat, text: string, own: string, rest: string)
    requires base <= |output| && output[base..] == text + (own + rest)
    ensures base + |text| + |own| <= |output|
    ensures output[base..base + |text|] == text && output[base + |text|..base + |text| + |own|] == own
    ensures output[base + |text|..] == own + rest && output[base + |text| + |own|..] == rest
  {
    CutBehind(output, base, text, own + rest);
    CutBehind(output, base + |text|, own, rest);
  }

  lemma CutBehind(output: string, base: nat, text: string, rest: string)
    requires base <= |output| && output[base..] == text + rest
    ensures base + |text| <= |output| && output[base..base + |text|] == text && output[base + |text|..] == rest
  {
    var tail := output[base..];
    assert tail[..|text|] == text && tail[|text|..] == rest;
    DropDrop(output, base, |text|);
    assert output[base..base + |text|] == tail[..|text|];
  }

  /** Unwrapping with these places, from `cur` on, gives what is left before `base` and then the recovered text. */
  ghost predicate Gives(output: string, scan: nat -> Scan, marks: seq<nat>, cur: nat, base: nat, recovered: string) {
    cur <= base <= |output| && Unwrapped(output, scan, marks, cur) == output[cur..base] + recovered
  }

  lemma KeptStep(output: string, scan: nat -> Scan, marks: seq<nat>, cur: nat, base: nat, text: string, own: string,
                 further: string, recovered: string)
    requires cur <= base && base + |text| + |own| <= |output|
    requires output[base..base + |text|] == text && output[base + |text|..base + |text| + |own|] == own
    requires Gives(output, scan, marks, cur, base + |text| + |own|, further) && recovered == text + (own + further)
    ensures Gives(output, scan, marks, cur, base, recovered)
  {
    JoinKept(output, cur, base, text, own, Unwrapped(output, scan, marks, cur), further);
  }

  lemma UnwrapOne(output: string, scan: nat -> Scan, marks: seq<nat>, cursor: nat)
    requires marks != [] && cursor <= marks[0] <= |output| && scan(marks[0]).Marker? && scan(marks[0]).end <= |output|
    ensures var read := scan(marks[0]);
            Unwrapped(output, scan, marks, cursor) == output[cursor..marks[0]] + (read.value + Unwrapped(output, scan, marks[1..], read.end))
  {
  }

  lemma PlainStep(output: string, scan: nat -> Scan, marks: seq<nat>, cur: nat, base: nat, text: string, length: nat, value: string,
                  further: string, recovered: string)
    requires cur <= base && base + |text| <= |output| && output[base..base + |text|] == text
    requires ReadableAt(output, scan(base + |text|), base + |text|, length, value)
    requires marks != [] && marks[0] == base + |text|
    requires Gives(output, scan, marks[1..], scan(base + |text|).end, base + |text| + length, further)
    requires recovered == text + (Recovered(value) + further)
    ensures Gives(output, scan, marks, cur, base, recovered)
  {
    var tail := (value + SUFFIX)[Close(value) + |SUFFIX|..];
    UnwrapOne(output, scan, marks, cur);
    JoinRead(output, cur, base, text, value[..Close(value)], tail, further);
  }

  lemma LastStep(output: string, scan: nat -> Scan, cur: nat, base: nat, rest: string)
    requires cur <= base <= |output| && output[base..] == rest
    ensures Gives(output, scan, [], cur, base, rest)
  {
    assert output[cur..] == output[cur..base] + output[base..];
  }

  /** What is known of the output at gap k: where the next text stands and what follows. */
  lemma NextPieces(gaps: seq<string>, texts: seq<string>, k: nat, base: nat, output: string)
    requires |gaps| == |texts| + 1 && k < |texts| && base <= |output| && output[base..] == Woven(gaps, texts, k)
    ensures var place := base + |gaps[k]|;
            var next := place + |texts[k]|;
            && next <= |output| && output[base..place] == gaps[k] && output[place..next] == texts[k]
            && output[place..] == texts[k] + Woven(gaps, texts, k + 1) && output[next..] == Woven(gaps, texts, k + 1)
  {
    PiecesInPlace(output, base, gaps[k], texts[k], Woven(gaps, texts, k + 1));
  }

  lemma KeptMarks(gaps: seq<string>, plain: seq<bool>, texts: seq<string>, k: nat, base: nat)
    requires |plain| == |texts| && |gaps| == |texts| + 1 && k < |texts| && !plain[k]
    ensures AddedMarks(gaps, plain, texts, k, base) == AddedMarks(gaps, plain, texts, k + 1, base + |gaps[k]| + |texts[k]|)
  {
  }

  lemma KeptCase(gaps: seq<string>, plain: seq<bool>, texts: seq<string>, k: nat, base: nat,
                 output: string, scan: nat -> Scan, cur: nat, further: string)
    requires |plain| == |texts| && |gaps| == |texts| + 1 && k < |texts| && !plain[k]
    requires var place, next := base + |gaps[k]|, base + |gaps[k]| + |texts[k]|;
             && cur <= base && next <= |output| && output[base..place] == gaps[k] && output[place..next] == texts[k]
             && Gives(output, scan, AddedMarks(gaps, plain, texts, k + 1, next), cur, next, further)
    ensures Gives(output, scan, AddedMarks(gaps, plain, texts, k, base), cur, base, gaps[k] + (texts[k] + further))
  {
    KeptMarks(gaps, plain, texts, k, base);
    KeptStep(output, scan, AddedMarks(gaps, plain, texts, k + 1, base + |gaps[k]| + |texts[k]|), cur, base, gaps[k], texts[k], further, gaps[k] + (texts[k] + further));
  }

  lemma PlainCase(gaps: seq<string>, plain: seq<bool>, texts: seq<string>, k: nat, base: nat,
                  output: string, scan: nat -> Scan, cur: nat, value: string, further: string)
    requires |plain| == |texts| && |gaps| == |texts| + 1 && k < |texts| && plain[k]
    requires var place, next := base + |gaps[k]|, base + |gaps[k]| + |texts[k]|;
             && cur <= base && place <= |output| && output[base..place] == gaps[k]
             && ReadableAt(output, scan(place), place, |texts[k]|, value)
             && Gives(output, scan, AddedMarks(gaps, plain, texts, k + 1, next), scan(place).end, next, further)
    ensures Gives(output, scan, AddedMarks(gaps, plain, texts, k, base), cur, base, gaps[k] + (Recovered(value) + further))
  {
    var marks := AddedMarks(gaps, plain, texts, k, base);
    assert marks[0] == base + |gaps[k]| && marks[1..] == AddedMarks(gaps, plain, texts, k + 1, base + |gaps[k]| + |texts[k]|);
    PlainStep(output, scan, marks, cur, base, gaps[k], |texts[k]|, value, further, gaps[k] + (Recovered(value) + further));
  }

  lemma RecoveredUnfolds(gaps: seq<string>, plain: seq<bool>, values: seq<string>, k: nat)
    requires |plain| == |values| && |gaps| == |values| + 1 && k < |values|
    ensures var recovered := RecoveredTexts(plain, values);
            Woven(gaps, recovered, k)
            == gaps[k] + ((if plain[k] then Recovered(values[k]) else values[k]) + Woven(gaps, recovered, k + 1))
  {
  }

  lemma {:induction false} UnwrapsFrom(styles: seq<TimestampStyle>, gaps: seq<string>, plain: seq<bool>, values: seq<string>, texts: seq<string>,
                                       k: nat, base: nat, output: string, scan: nat -> Scan, cur: nat)
    requires Wrapping(styles, plain, values, texts) && Scans(scan, output) && |gaps| == |texts| + 1 && k <= |texts|
    requires cur <= base <= |output| && output[base..] == Woven(gaps, texts, k)
    ensures Gives(output, scan, AddedMarks(gaps, plain, texts, k, base), cur, base, Woven(gaps, RecoveredTexts(plain, values), k))
    decreases |texts| - k
  {
    if k == |texts| {
      LastStep(output, scan, cur, base, gaps[k]);
    } else {
      var place := base + |gaps[k]|;
      var next, further := place + |texts[k]|, Woven(gaps, RecoveredTexts(plain, values), k + 1);
      NextPieces(gaps, texts, k, base, output);
      RecoveredUnfolds(gaps, plain, values, k);
      if plain[k] {
        PlainReads(styles, plain, values, texts, k, output, scan, place, Woven(gaps, texts, k + 1));
        UnwrapsFrom(styles, gaps, plain, values, texts, k + 1, next, output, scan, scan(place).end);
        PlainCase(gaps, plain, texts, k, base, output, scan, cur, values[k], further);
      } else {
        KeptText(styles, plain, values, texts, k);
        UnwrapsFrom(styles, gaps, plain, values, texts, k + 1, next, output, scan, cur);
        KeptCase(gaps, plain, texts, k, base, output, scan, cur, further);
      }
    }
  }

  // ----- exactness -----

  lemma SamePieces(a: string, b: string, c: string, b': string, c': string)
    requires |b| == |b'|
    ensures a + (b + c) == a + (b' + c') <==> b == b' && c == c'
  {
    if a + (b + c) == a + (b' + c') {
      assert (a + (b + c))[|a|..|a| + |b|] == b && (a + (b' + c'))[|a|..|a| + |b|] == b';
      assert (a + (b + c))[|a| + |b|..] == c && (a + (b' + c'))[|a| + |b|..] == c';
    }
  }

  ghost predicate SameFrom(a: seq<string>, b: seq<string>, k: nat)
    requires |a| == |b|
  {
    forall i :: k <= i < |a| ==> a[i] == b[i]
  }

  lemma {:induction false} WovenSame(gaps: seq<string>, a: seq<string>, b: seq<string>, k: nat)
    requires |gaps| == |a| + 1 == |b| + 1 && k <= |a| && forall i :: 0 <= i < |a| ==> |a[i]| == |b[i]|
    ensures Woven(gaps, a, k) == Woven(gaps, b, k) <==> SameFrom(a, b, k)
    decreases |a| - k
  {
    if k < |a| {
      WovenSame(gaps, a, b, k + 1);
      SamePieces(gaps[k], a[k], Woven(gaps, a, k + 1), b[k], Woven(gaps, b, k + 1));
      assert SameFrom(a, b, k) <==> a[k] == b[k] && SameFrom(a, b, k + 1);
    }
  }

  /** No value that was wrapped has a "}}" followed by anything but braces. */
  ghost predicate AllRestorable(plain: seq<bool>, values: seq<string>)
    requires |plain| == |values|
  {
    forall k :: 0 <= k < |values| && plain[k] ==> Restorable(values[k])
  }

  lemma RecoveredTextsExactly(plain: seq<bool>, values: seq<string>)
    requires |plain| == |values|
    ensures forall i :: 0 <= i < |values| ==> |RecoveredTexts(plain, values)[i]| == |values[i]|
    ensures SameFrom(RecoveredTexts(plain, values), values, 0) <==> AllRestorable(plain, values)
  {
    var recovered := RecoveredTexts(plain, values);
    forall i | 0 <= i < |values| ensures |recovered[i]| == |values[i]| && (recovered[i] == values[i] <==> plain[i] ==> Restorable(values[i])) {
      RecoveredExactly(values[i]);
      RecoveredLength(values[i]);
    }
  }

  function Styles(spans: seq<Candidate<TimestampStyle>>): seq<TimestampStyle> {
    seq(|spans|, i requires 0 <= i < |spans| => spans[i].kind)
  }

  lemma WrappedTextsWrap(input: string, spans: seq<Candidate<TimestampStyle>>)
    requires InBounds(spans, |input|)
    ensures Wrapping(Styles(spans), PlainSpans(input, spans), OriginalTexts(input, spans), WrappedTexts(input, spans))
  {
  }

  /** Unwrapping the added markers in the tokenized sample gives the sample back if and only if no timestamp that was
      wrapped has a "}}" followed by something other than braces. */
  lemma UnwrappingRestores(input: string, spans: seq<Candidate<TimestampStyle>>)
    requires InBounds(spans, |input|) && Disjoint(spans)
    ensures var output := Rewritten(input, spans, WrappedTexts(input, spans), 0, 0);
            var marks := AddedMarks(Gaps(input, spans), PlainSpans(input, spans), WrappedTexts(input, spans), 0, 0);
            Unwrapped(output, Scanner(output), marks, 0) == input <==> AllRestorable(PlainSpans(input, spans), OriginalTexts(input, spans))
  {
    var gaps, values, texts := Gaps(input, spans), OriginalTexts(input, spans), WrappedTexts(input, spans);
    RewrittenIsWoven(input, spans, texts, 0);
    InputIsWoven(input, spans, 0);
    assert input[0..] == input;
    WrappedTextsWrap(input, spans);
    WrappingUnwraps(Styles(spans), gaps, PlainSpans(input, spans), values, texts, Scanner(Woven(gaps, texts, 0)));
    RecoveredTextsExactly(PlainSpans(input, spans), values);
    WovenSame(gaps, RecoveredTexts(PlainSpans(input, spans), values), values, 0);
  }

  lemma WrappingUnwraps(styles: seq<TimestampStyle>, gaps: seq<string>, plain: seq<bool>, values: seq<string>, texts: seq<string>,
                        scan: nat -> Scan)
    requires Wrapping(styles, plain, values, texts) && |gaps| == |texts| + 1 && Scans(scan, Woven(gaps, texts, 0))
    ensures Unwrapped(Woven(gaps, texts, 0), scan, AddedMarks(gaps, plain, texts, 0, 0), 0) == Woven(gaps, RecoveredTexts(plain, values), 0)
  {
    var output, recovered := Woven(gaps, texts, 0), Woven(gaps, RecoveredTexts(plain, values), 0);
    assert output[0..] == output;
    UnwrapsFrom(styles, gaps, plain, values, texts, 0, 0, output, scan, 0);
    assert output[0..0] + recovered == recovered;
  }
}
