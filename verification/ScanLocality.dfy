/** How the marker scan of a part of a text relates to that of the whole text. */
module ScanLocality {
  import opened Options
  import opened Text
  import opened Segments
  import opened Unwrapping

  /** The part stands in the text at `base`. */
  ghost predicate PartAt(text: string, base: nat, part: string) {
    base + |part| <= |text| && text[base..base + |part|] == part
  }

  lemma OccursInPart(text: string, base: nat, part: string, marker: string, j: nat)
    requires PartAt(text, base, part) && j + |marker| <= |part|
    ensures OccursAt(text, marker, base + j) <==> OccursAt(part, marker, j)
  {
    SliceOfSlice(text, base, part, j, |marker|);
  }

  /** A search that succeeds inside the part gives the same place; one that fails there ends beyond it. */
  lemma FindInPart(text: string, base: nat, part: string, marker: string, from: nat)
    requires PartAt(text, base, part)
    ensures var r := Find(part, marker, from);
            var s := Find(text, marker, base + from);
            if r != -1 then s == base + r else s == -1 || s + |marker| > base + |part|
  {
    FindIsFirst(part, marker, from);
    FindIsFirst(text, marker, base + from);
    var r, s := Find(part, marker, from), Find(text, marker, base + from);
    if r != -1 {
      OccursInPart(text, base, part, marker, r);
    }
    if s != -1 && s + |marker| <= base + |part| {
      OccursInPart(text, base, part, marker, s - base);
    }
  }

  // ----- one attempt to read a marker -----

  /** The same scan, further on. */
  function Moved(scan: Scan, base: nat): Scan {
    match scan
    case Unclosed => Unclosed
    case UnknownStyle(end) => UnknownStyle(base + end)
    case Marker(style, value, end) => Marker(style, value, base + end)
  }

  /** Where a marker closes whose key begins here, or -1. */
  function CloseFrom(input: string, keyBegin: nat): (end: int)
    ensures end != -1 ==> keyBegin <= Find(input, ":", keyBegin) < end
  {
    var separator := Find(input, ":", keyBegin);
    if separator == -1 then -1 else Find(input, SUFFIX, separator + 1)
  }

  /** The marker scan for any table of styles. */
  function ScanKey(styleOf: string -> Option<TimestampStyle>, input: string, keyBegin: nat): (scan: Scan)
    ensures scan.Unclosed? || scan.end <= |input|
  {
    var separator, end := Find(input, ":", keyBegin), CloseFrom(input, keyBegin);
    if end == -1 then Unclosed
    else
      match styleOf(input[keyBegin..separator])
      case None => UnknownStyle(end + |SUFFIX|)
      case Some(style) => Marker(style, input[separator + 1..end], end + |SUFFIX|)
  }

  lemma ScanIsScanKey(input: string, position: nat)
    requires position + |PREFIX| <= |input|
    ensures ScanMarker(input, position) == ScanKey(StyleFromKey, input, position + |PREFIX|)
  {
  }

  lemma CloseInPart(text: string, base: nat, part: string, from: nat)
    requires PartAt(text, base, part)
    ensures var inner, outer := CloseFrom(part, from), CloseFrom(text, base + from);
            if inner == -1 then outer == -1 || outer + |SUFFIX| > base + |part|
            else outer == base + inner && Find(text, ":", base + from) == base + Find(part, ":", from)
  {
    FindInPart(text, base, part, ":", from);
    var separator := Find(part, ":", from);
    if separator != -1 {
      FindInPart(text, base, part, SUFFIX, separator + 1);
    }
  }

  /** A marker that closes inside the part is read alike in the whole text; one that does not ends beyond the part. */
  ghost predicate ReadInPart(inner: Scan, outer: Scan, base: nat, length: nat) {
    if inner.Unclosed? then outer.Unclosed? || outer.end > base + length else outer == Moved(inner, base)
  }

  lemma ScanKeyInPart(styleOf: string -> Option<TimestampStyle>, text: string, base: nat, part: string, from: nat)
    requires PartAt(text, base, part)
    ensures ReadInPart(ScanKey(styleOf, part, from), ScanKey(styleOf, text, base + from), base, |part|)
  {
    CloseInPart(text, base, part, from);
    var separator, end := Find(part, ":", from), CloseFrom(part, from);
    if end != -1 {
      SliceOfSlice(text, base, part, from, separator - from);
      SliceOfSlice(text, base, part, separator + 1, end - separator - 1);
    }
  }

  /** The function scans this text from where a key begins. */
  ghost predicate KeyScans(keys: nat -> Scan, text: string, styleOf: string -> Option<TimestampStyle>) {
    forall from: nat {:trigger ScanKey(styleOf, text, from)} :: keys(from) == ScanKey(styleOf, text, from)
  }

  ghost predicate BehindPrefix(scan: nat -> Scan, keys: nat -> Scan, size: nat) {
    forall p: nat {:trigger scan(p)} :: p + |PREFIX| <= size ==> scan(p) == keys(p + |PREFIX|)
  }

  lemma ScannerScansKeys(text: string) returns (keys: nat -> Scan)
    ensures KeyScans(keys, text, StyleFromKey) && BehindPrefix(Scanner(text), keys, |text|)
  {
    keys := (from: nat) => ScanKey(StyleFromKey, text, from);
    forall p: nat | p + |PREFIX| <= |text| ensures Scanner(text)(p) == keys(p + |PREFIX|) {
      ScanIsScanKey(text, p);
    }
  }

  lemma OneBracePair(k: nat)
    requires 1 < k < |PREFIX|
    ensures PREFIX[k] != '{'
  {
    assert k == 2 || k == 3 || k == 4 || k == 5 || k == 6 || k == 7 || k == 8 || k == 9 || k == 10 || k == 11;
  }

  lemma OccursHere(text: string, marker: string, place: nat, k: nat)
    requires OccursAt(text, marker, place) && k < |marker|
    ensures text[place + k] == marker[k]
  {
    assert text[place..place + |marker|][k] == text[place + k];
  }

  /** Two prefixes do not overlap. */
  lemma NoBorder(text: string, s: nat, p: nat)
    requires OccursAt(text, PREFIX, s) && OccursAt(text, PREFIX, p) && s < p
    ensures s + |PREFIX| <= p
  {
    OccursHere(text, PREFIX, p, 0);
    OccursHere(text, PREFIX, p, 1);
    if 1 < p - s < |PREFIX| {
      OccursHere(text, PREFIX, s, p - s);
      OneBracePair(p - s);
    } else if p - s == 1 {
      OccursHere(text, PREFIX, s, 2);
    }
  }

  /** A prefix does not run into a marker that follows. */
  lemma PrefixInGap(text: string, base: nat, gap: string, from: nat)
    requires PartAt(text, base, gap) && OccursAt(text, PREFIX, base + |gap|) && from <= |gap|
    ensures var r := Find(gap, PREFIX, from);
            Find(text, PREFIX, base + from) == if r == -1 then base + |gap| else base + r
  {
    FindInPart(text, base, gap, PREFIX, from);
    FindIsFirst(text, PREFIX, base + from);
    var r, s := Find(gap, PREFIX, from), Find(text, PREFIX, base + from);
    if r == -1 && s < base + |gap| {
      NoBorder(text, s, base + |gap|);
    }
  }

  lemma MarkerEnds(key: string, value: string)
    ensures var marker := MarkerText(key, value);
            && |marker| == |PREFIX| + |key| + 1 + |value| + |SUFFIX|
            && marker[|PREFIX| + |key|..|PREFIX| + |key| + 1] == ":"
            && marker[|PREFIX| + |key| + 1 + |value|..] == SUFFIX
  {
    var marker := MarkerText(key, value);
    assert marker == (PREFIX + key) + (":" + (value + SUFFIX));
    assert marker == (PREFIX + key + ":" + value) + SUFFIX;
  }

  /** Colon and closing braces of a written marker. */
  lemma MarkerCloses(text: string, p: nat, key: string, value: string)
    requires OccursAt(text, MarkerText(key, value), p)
    ensures OccursAt(text, ":", p + |PREFIX| + |key|) && OccursAt(text, SUFFIX, p + |PREFIX| + |key| + 1 + |value|)
  {
    var marker := MarkerText(key, value);
    MarkerEnds(key, value);
    SliceOfSlice(text, p, marker, |PREFIX| + |key|, 1);
    SliceOfSlice(text, p, marker, |PREFIX| + |key| + 1 + |value|, |SUFFIX|);
  }

  /** A prefix in front of a written marker is closed by that marker at the latest. */
  lemma ClosedByMarker(text: string, keyBegin: nat, p: nat, key: string, value: string)
    requires keyBegin <= p && OccursAt(text, MarkerText(key, value), p)
    ensures CloseFrom(text, keyBegin) != -1
  {
    MarkerCloses(text, p, key, value);
    FindIsFirst(text, ":", keyBegin);
    FindIsFirst(text, SUFFIX, Find(text, ":", keyBegin) + 1);
  }

  // ----- the searches of a gap, seen from the whole text -----

  /** What the search of the whole text gives where the search of the gap alone gives `inner`; `behind` is the marker
      that follows the gap. */
  ghost predicate GapHit(outer: Hit, inner: Hit, behind: Hit, base: nat, length: nat) {
    if inner.NoHit? then outer == behind
    else
      && outer.Hit? && outer.position == base + inner.position
      && if inner.scan.Unclosed? then !outer.scan.Unclosed? && outer.scan.end > base + length
         else outer.scan == Moved(inner.scan, base)
  }

  ghost predicate GapHits(next: nat -> Hit, inner: nat -> Hit, base: nat, length: nat) {
    forall from: nat {:trigger inner(from)} :: from <= length ==> GapHit(next(base + from), inner(from), next(base + length), base, length)
  }

  ghost predicate AllAdvance(next: nat -> Hit, size: nat) {
    forall from: nat {:trigger next(from)} :: next(from).Hit? ==> Advances(next(from), from, size)
  }

  lemma SearchAdvances(next: nat -> Hit, text: string)
    requires Searches(next, text)
    ensures AllAdvance(next, |text|)
  {
    forall from: nat | next(from).Hit? ensures Advances(next(from), from, |text|) {
      assert next(from) == NextHit(text, from);
    }
  }

  // The search as a composition of the search for the prefix and the scan, both abstract.

  ghost predicate Finds(find: nat -> int, text: string) {
    forall from: nat {:trigger Find(text, PREFIX, from)} :: find(from) == Find(text, PREFIX, from)
  }

  ghost predicate Composed(next: nat -> Hit, find: nat -> int, scan: nat -> Scan) {
    forall from: nat {:trigger next(from)} :: next(from) == if find(from) < 0 then NoHit else Hit(find(from), scan(find(from)))
  }

  lemma SearchComposes(text: string, next: nat -> Hit) returns (find: nat -> int, scan: nat -> Scan, keys: nat -> Scan)
    requires Searches(next, text)
    ensures Finds(find, text) && KeyScans(keys, text, StyleFromKey) && BehindPrefix(scan, keys, |text|) && Composed(next, find, scan)
  {
    keys := ScannerScansKeys(text);
    find, scan := (from: nat) => Find(text, PREFIX, from), Scanner(text);
    forall from: nat ensures next(from) == if find(from) < 0 then NoHit else Hit(find(from), scan(find(from))) {
      assert next(from) == NextHit(text, from);
    }
  }

  /** The search for the prefix in the gap and in the whole text. */
  ghost predicate FindsInGap(find: nat -> int, inner: nat -> int, base: nat, length: nat) {
    forall from: nat {:trigger inner(from)} :: from <= length ==>
      && (inner(from) == -1 || from <= inner(from) <= length - |PREFIX|)
      && find(base + from) == if inner(from) == -1 then base + length else base + inner(from)
  }

  ghost predicate ScansInGap(scan: nat -> Scan, inner: nat -> Scan, base: nat, length: nat) {
    forall p: nat {:trigger inner(p)} :: p + |PREFIX| <= length ==>
      ReadInPart(inner(p), scan(base + p), base, length) && !scan(base + p).Unclosed?
  }

  lemma PrefixesInGap(text: string, base: nat, gap: string, find: nat -> int, inner: nat -> int)
    requires PartAt(text, base, gap) && OccursAt(text, PREFIX, base + |gap|) && Finds(find, text) && Finds(inner, gap)
    ensures FindsInGap(find, inner, base, |gap|)
  {
    forall from: nat | from <= |gap|
      ensures (inner(from) == -1 || from <= inner(from) <= |gap| - |PREFIX|)
              && find(base + from) == if inner(from) == -1 then base + |gap| else base + inner(from)
    {
      PrefixInGap(text, base, gap, from);
    }
  }

  lemma ScanIsClosed(styleOf: string -> Option<TimestampStyle>, text: string, keyBegin: nat, p: nat, key: string, value: string)
    requires keyBegin <= p && OccursAt(text, MarkerText(key, value), p)
    ensures !ScanKey(styleOf, text, keyBegin).Unclosed?
  {
    ClosedByMarker(text, keyBegin, p, key, value);
  }

  lemma KeyScansInGap(styleOf: string -> Option<TimestampStyle>, text: string, base: nat, gap: string,
                      keys: nat -> Scan, inner: nat -> Scan, from: nat, key: string, value: string)
    requires PartAt(text, base, gap) && OccursAt(text, MarkerText(key, value), base + |gap|) && from <= |gap|
    requires KeyScans(keys, text, styleOf) && KeyScans(inner, gap, styleOf)
    ensures ReadInPart(inner(from), keys(base + from), base, |gap|) && !keys(base + from).Unclosed?
  {
    ScanKeyInPart(styleOf, text, base, gap, from);
    ScanIsClosed(styleOf, text, base + from, base + |gap|, key, value);
  }

  lemma ScansAllInGap(styleOf: string -> Option<TimestampStyle>, text: string, base: nat, gap: string,
                      scan: nat -> Scan, keys: nat -> Scan, inner: nat -> Scan, innerKeys: nat -> Scan, key: string, value: string)
    requires PartAt(text, base, gap) && OccursAt(text, MarkerText(key, value), base + |gap|)
    requires KeyScans(keys, text, styleOf) && KeyScans(innerKeys, gap, styleOf)
    requires BehindPrefix(scan, keys, |text|) && BehindPrefix(inner, innerKeys, |gap|)
    ensures ScansInGap(scan, inner, base, |gap|)
  {
    forall p: nat | p + |PREFIX| <= |gap| ensures ReadInPart(inner(p), scan(base + p), base, |gap|) && !scan(base + p).Unclosed? {
      KeyScansInGap(styleOf, text, base, gap, keys, innerKeys, p + |PREFIX|, key, value);
    }
  }

  lemma ComposedInGap(next: nat -> Hit, find: nat -> int, scan: nat -> Scan,
                      inner: nat -> Hit, innerFind: nat -> int, innerScan: nat -> Scan, base: nat, length: nat)
    requires Composed(next, find, scan) && Composed(inner, innerFind, innerScan)
    requires FindsInGap(find, innerFind, base, length) && ScansInGap(scan, innerScan, base, length)
    ensures GapHits(next, inner, base, length)
  {
    forall from: nat | from <= length ensures GapHit(next(base + from), inner(from), next(base + length), base, length) {
      assert innerFind(length) == -1;
    }
  }

  lemma SearchInGap(text: string, next: nat -> Hit, base: nat, gap: string, inner: nat -> Hit, key: string, value: string)
    requires Searches(next, text) && Searches(inner, gap)
    requires PartAt(text, base, gap) && OccursAt(text, MarkerText(key, value), base + |gap|)
    ensures GapHits(next, inner, base, |gap|)
  {
    var find, scan, keys := SearchComposes(text, next);
    var innerFind, innerScan, innerKeys := SearchComposes(gap, inner);
    PrefixOccurs(text, key, value, base + |gap|);
    PrefixesInGap(text, base, gap, find, innerFind);
    ScansAllInGap(StyleFromKey, text, base, gap, scan, keys, innerScan, innerKeys, key, value);
    ComposedInGap(next, find, scan, inner, innerFind, innerScan, base, |gap|);
  }

  /** In front of a kept span, a marker prefix only starts markers of unknown style that close before the span. */
  predicate Quiet(next: nat -> Hit, from: nat, size: nat)
    decreases size - from
  {
    var hit := next(from);
    hit.NoHit? || (Advances(hit, from, size) && hit.scan.UnknownStyle? && Quiet(next, Onward(hit), size))
  }

  ghost predicate StartsAt(markers: seq<Candidate<TimestampSpan>>, place: nat) {
    markers != [] && markers[0].position == place
  }

  /** Scanning a gap: if it is quiet the scan goes on at the marker behind it, otherwise it reads something else first. */
  lemma {:induction false} ScanGap(next: nat -> Hit, size: nat, inner: nat -> Hit, base: nat, length: nat, from: nat)
    requires AllAdvance(next, size) && AllAdvance(inner, length) && GapHits(next, inner, base, length) && from <= length
    requires next(base + length).Hit? && next(base + length).position == base + length
    ensures Quiet(inner, from, length) ==> Markers(next, base + from, size) == Markers(next, base + length, size)
    ensures !Quiet(inner, from, length) ==> !StartsAt(Markers(next, base + from, size), base + length)
    decreases length - from
  {
    var hit := inner(from);
    if hit.Hit? && hit.scan.UnknownStyle? {
      ScanGap(next, size, inner, base, length, Onward(hit));
    }
  }

  /** Behind the last kept span the two searches agree. */
  ghost predicate LastHits(next: nat -> Hit, inner: nat -> Hit, base: nat, length: nat) {
    forall from: nat {:trigger inner(from)} :: from <= length ==> LastHit(next(base + from), inner(from), base)
  }

  ghost predicate LastHit(outer: Hit, inner: Hit, base: nat) {
    outer == if inner.NoHit? then NoHit else Hit(base + inner.position, Moved(inner.scan, base))
  }

  ghost predicate FindsInLast(find: nat -> int, inner: nat -> int, base: nat, length: nat) {
    forall from: nat {:trigger inner(from)} :: from <= length ==>
      && (inner(from) == -1 || from <= inner(from) <= length - |PREFIX|)
      && find(base + from) == if inner(from) == -1 then -1 else base + inner(from)
  }

  ghost predicate ScansInLast(scan: nat -> Scan, inner: nat -> Scan, base: nat, length: nat) {
    forall p: nat {:trigger inner(p)} :: p + |PREFIX| <= length ==> scan(base + p) == Moved(inner(p), base)
  }

  lemma PrefixesInLast(text: string, base: nat, gap: string, find: nat -> int, inner: nat -> int)
    requires PartAt(text, base, gap) && base + |gap| == |text| && Finds(find, text) && Finds(inner, gap)
    ensures FindsInLast(find, inner, base, |gap|)
  {
    forall from: nat | from <= |gap|
      ensures (inner(from) == -1 || from <= inner(from) <= |gap| - |PREFIX|)
              && find(base + from) == if inner(from) == -1 then -1 else base + inner(from)
    {
      FindInPart(text, base, gap, PREFIX, from);
    }
  }

  lemma KeyScansInLast(styleOf: string -> Option<TimestampStyle>, text: string, base: nat, gap: string,
                       keys: nat -> Scan, inner: nat -> Scan, from: nat)
    requires PartAt(text, base, gap) && base + |gap| == |text|
    requires KeyScans(keys, text, styleOf) && KeyScans(inner, gap, styleOf)
    ensures keys(base + from) == Moved(inner(from), base)
  {
    ScanKeyInPart(styleOf, text, base, gap, from);
  }

  lemma ScansAllInLast(styleOf: string -> Option<TimestampStyle>, text: string, base: nat, gap: string,
                       scan: nat -> Scan, keys: nat -> Scan, inner: nat -> Scan, innerKeys: nat -> Scan)
    requires PartAt(text, base, gap) && base + |gap| == |text|
    requires KeyScans(keys, text, styleOf) && KeyScans(innerKeys, gap, styleOf)
    requires BehindPrefix(scan, keys, |text|) && BehindPrefix(inner, innerKeys, |gap|)
    ensures ScansInLast(scan, inner, base, |gap|)
  {
    forall p: nat | p + |PREFIX| <= |gap| ensures scan(base + p) == Moved(inner(p), base) {
      KeyScansInLast(styleOf, text, base, gap, keys, innerKeys, p + |PREFIX|);
    }
  }

  lemma ComposedInLast(next: nat -> Hit, find: nat -> int, scan: nat -> Scan,
                       inner: nat -> Hit, innerFind: nat -> int, innerScan: nat -> Scan, base: nat, length: nat)
    requires Composed(next, find, scan) && Composed(inner, innerFind, innerScan)
    requires FindsInLast(find, innerFind, base, length) && ScansInLast(scan, innerScan, base, length)
    ensures LastHits(next, inner, base, length)
  {
    forall from: nat | from <= length ensures LastHit(next(base + from), inner(from), base) {
    }
  }

  lemma SearchInLastGap(text: string, next: nat -> Hit, base: nat, gap: string, inner: nat -> Hit)
    requires Searches(next, text) && Searches(inner, gap) && PartAt(text, base, gap) && base + |gap| == |text|
    ensures LastHits(next, inner, base, |gap|)
  {
    var find, scan, keys := SearchComposes(text, next);
    var innerFind, innerScan, innerKeys := SearchComposes(gap, inner);
    PrefixesInLast(text, base, gap, find, innerFind);
    ScansAllInLast(StyleFromKey, text, base, gap, scan, keys, innerScan, innerKeys);
    ComposedInLast(next, find, scan, inner, innerFind, innerScan, base, |gap|);
  }

  lemma {:induction false} ScanLastGap(next: nat -> Hit, inner: nat -> Hit, base: nat, length: nat, from: nat)
    requires AllAdvance(next, base + length) && AllAdvance(inner, length) && LastHits(next, inner, base, length) && from <= length
    ensures Markers(next, base + from, base + length) == [] <==> Markers(inner, from, length) == []
    decreases length - from
  {
    var hit := inner(from);
    if hit.Hit? && !hit.scan.Marker? {
      ScanLastGap(next, inner, base, length, Onward(hit));
    }
  }
}
