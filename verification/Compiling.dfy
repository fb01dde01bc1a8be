/** From the candidates of a sample to its rendering. */
module Compiling {
  import opened Text
  import opened Segments
  import opened Rendering

  /** The render segment that compile_segments makes of a piece; a candidate's kind is the segment it stands for. */
  function ToRender(piece: Segment<RenderSegment>): RenderSegment {
    match piece
    case Literal(text) => LiteralText(text)
    case Special(span) => span.kind
  }

  function ToRenderAll(pieces: seq<Segment<RenderSegment>>): (segments: seq<RenderSegment>)
    ensures |segments| == |pieces|
  {
    seq(|pieces|, i requires 0 <= i < |pieces| => ToRender(pieces[i]))
  }

  /** The texts of pieces, one after the other, when `show` gives the text of a segment. */
  function ShowAll(show: RenderSegment -> string, pieces: seq<Segment<RenderSegment>>): string {
    if pieces == [] then "" else show(ToRender(pieces[0])) + ShowAll(show, pieces[1..])
  }

  function ShowSpans(show: RenderSegment -> string, spans: seq<Candidate<RenderSegment>>): (texts: seq<string>)
    ensures |texts| == |spans|
  {
    seq(|spans|, i requires 0 <= i < |spans| => show(spans[i].kind))
  }

  /** Literal text is shown as it is. */
  ghost predicate ShowsLiterals(show: RenderSegment -> string) {
    forall text: string {:trigger LiteralText(text)} :: show(LiteralText(text)) == text
  }

  lemma {:induction false} ShowAppend(show: RenderSegment -> string, a: seq<Segment<RenderSegment>>, z: seq<Segment<RenderSegment>>)
    ensures ShowAll(show, a + z) == ShowAll(show, a) + ShowAll(show, z)
  {
    if a == [] {
      assert a + z == z;
    } else {
      assert (a + z)[1..] == a[1..] + z;
      ShowAppend(show, a[1..], z);
      Associate(show(ToRender(a[0])), ShowAll(show, a[1..]), ShowAll(show, z));
    }
  }

  lemma ShowOne(show: RenderSegment -> string, piece: Segment<RenderSegment>)
    ensures ShowAll(show, [piece]) == show(ToRender(piece))
  {
    assert [piece][1..] == [];
  }

  lemma ShowCut(show: RenderSegment -> string, input: string, c: Candidate<RenderSegment>, cursor: nat)
    requires ShowsLiterals(show) && cursor <= c.position <= |input|
    ensures ShowAll(show, CutStep([], input, c, cursor)) == input[cursor..c.position] + show(c.kind)
  {
    var text := input[cursor..c.position];
    ShowOne(show, Special(c));
    if c.position > cursor {
      assert CutStep([], input, c, cursor) == [Literal(text)] + [Special(c)];
      ShowOne(show, Literal(text));
      ShowAppend(show, [Literal(text)], [Special(c)]);
    } else {
      assert CutStep([], input, c, cursor) == [Special(c)];
    }
  }

  // ----- replacing the first of several spans -----

  /** The first span and its text, in front of the rest. */
  ghost predicate Behind<K>(input: string, c: Candidate<K>, spans: seq<Candidate<K>>, texts: seq<string>, rest: seq<Candidate<K>>, restTexts: seq<string>) {
    && InBounds(spans, |input|) && Disjoint(spans) && InBounds(rest, |input|) && Disjoint(rest)
    && |texts| == |spans| == |rest| + 1 && |restTexts| == |rest| && spans[0] == c
    && forall i :: 0 <= i < |rest| ==> spans[i + 1] == rest[i] && texts[i + 1] == restTexts[i]
  }

  lemma RewrittenSame<K>(input: string, spans: seq<Candidate<K>>, texts: seq<string>, other: seq<Candidate<K>>, others: seq<string>,
                         k: nat, j: nat, cursor: nat)
    requires InBounds(spans, |input|) && Disjoint(spans) && |texts| == |spans| && k < |spans| && cursor <= spans[k].position
    requires InBounds(other, |input|) && Disjoint(other) && |others| == |other| && j < |other| && spans[k] == other[j] && texts[k] == others[j]
    requires var end := spans[k].position + spans[k].length;
             Rewritten(input, spans, texts, k + 1, end) == Rewritten(input, other, others, j + 1, end)
    ensures Rewritten(input, spans, texts, k, cursor) == Rewritten(input, other, others, j, cursor)
  {
  }

  lemma {:induction false} RewrittenShift<K>(input: string, c: Candidate<K>, spans: seq<Candidate<K>>, texts: seq<string>,
                                             rest: seq<Candidate<K>>, restTexts: seq<string>, k: nat, cursor: nat)
    requires Behind(input, c, spans, texts, rest, restTexts) && k <= |rest| && cursor <= |input| && (k < |rest| ==> cursor <= rest[k].position)
    ensures Rewritten(input, spans, texts, k + 1, cursor) == Rewritten(input, rest, restTexts, k, cursor)
    decreases |rest| - k
  {
    if k < |rest| {
      RewrittenShift(input, c, spans, texts, rest, restTexts, k + 1, rest[k].position + rest[k].length);
      RewrittenSame(input, spans, texts, rest, restTexts, k + 1, k, cursor);
    }
  }

  lemma RestFollows<K>(input: string, c: Candidate<K>, spans: seq<Candidate<K>>, texts: seq<string>, rest: seq<Candidate<K>>, restTexts: seq<string>)
    requires Behind(input, c, spans, texts, rest, restTexts)
    ensures c.position + c.length <= |input| && (rest != [] ==> c.position + c.length <= rest[0].position)
  {
    assert rest != [] ==> spans[1] == rest[0];
  }

  lemma RewrittenFirst<K>(input: string, c: Candidate<K>, spans: seq<Candidate<K>>, texts: seq<string>, rest: seq<Candidate<K>>, restTexts: seq<string>, cursor: nat)
    requires Behind(input, c, spans, texts, rest, restTexts) && cursor <= c.position
    requires c.position + c.length <= |input| && (rest != [] ==> c.position + c.length <= rest[0].position)
    ensures Rewritten(input, spans, texts, 0, cursor)
            == input[cursor..c.position] + texts[0] + Rewritten(input, rest, restTexts, 0, c.position + c.length)
  {
    var end := c.position + c.length;
    RewrittenShift(input, c, spans, texts, rest, restTexts, 0, end);
    Associate(input[cursor..c.position], texts[0], Rewritten(input, spans, texts, 1, end));
  }

  // ----- pieces and spans -----

  /** Shown pieces are the input behind the cursor with these spans replaced. */
  ghost predicate ShownAs(show: RenderSegment -> string, input: string, pieces: seq<Segment<RenderSegment>>, spans: seq<Candidate<RenderSegment>>, cursor: nat) {
    && InBounds(spans, |input|) && Disjoint(spans) && cursor <= |input| && (spans != [] ==> cursor <= spans[0].position)
    && ShowAll(show, pieces) == Rewritten(input, spans, ShowSpans(show, spans), 0, cursor)
  }

  lemma PutFirst(show: RenderSegment -> string, input: string, c: Candidate<RenderSegment>, spans: seq<Candidate<RenderSegment>>, rest: seq<Candidate<RenderSegment>>)
    requires spans == [c] + rest && InBounds(spans, |input|) && Disjoint(spans) && InBounds(rest, |input|) && Disjoint(rest)
    ensures Behind(input, c, spans, ShowSpans(show, spans), rest, ShowSpans(show, rest))
  {
    forall i | 0 <= i < |rest| ensures spans[i + 1] == rest[i] && ShowSpans(show, spans)[i + 1] == ShowSpans(show, rest)[i] {
      assert spans[i + 1] == rest[i];
    }
  }

  /** One span, with the literal in front of it, and the rest. */
  lemma CutShown(show: RenderSegment -> string, input: string, c: Candidate<RenderSegment>, cursor: nat,
                 spans: seq<Candidate<RenderSegment>>, rest: seq<Candidate<RenderSegment>>, pieces: seq<Segment<RenderSegment>>)
    requires ShowsLiterals(show) && Behind(input, c, spans, ShowSpans(show, spans), rest, ShowSpans(show, rest))
    requires cursor <= c.position <= |input| && ShownAs(show, input, pieces, rest, c.position + c.length)
    ensures ShownAs(show, input, CutStep([], input, c, cursor) + pieces, spans, cursor)
  {
    ShowCut(show, input, c, cursor);
    ShowAppend(show, CutStep([], input, c, cursor), pieces);
    RestFollows(input, c, spans, ShowSpans(show, spans), rest, ShowSpans(show, rest));
    RewrittenFirst(input, c, spans, ShowSpans(show, spans), rest, ShowSpans(show, rest), cursor);
  }

  lemma LastShown(show: RenderSegment -> string, input: string, cursor: nat)
    requires ShowsLiterals(show) && cursor <= |input|
    ensures ShownAs(show, input, if cursor < |input| then [Literal(input[cursor..])] else [], [], cursor)
  {
    if cursor < |input| {
      ShowOne(show, Literal(input[cursor..]));
    }
  }

  lemma {:induction false} PiecesShown(show: RenderSegment -> string, input: string, sorted: seq<Candidate<RenderSegment>>, k: nat, cursor: nat)
    requires ShowsLiterals(show) && InBounds(sorted, |input|) && k <= |sorted| && cursor <= |input|
    ensures ShownAs(show, input, Pieces(input, sorted, k, cursor), Chosen(sorted, k, cursor), cursor)
    decreases |sorted| - k
  {
    if k == |sorted| {
      LastShown(show, input, cursor);
    } else {
      var c := sorted[k];
      if c.position < cursor {
        PiecesShown(show, input, sorted, k + 1, cursor);
      } else {
        var end := c.position + c.length;
        ChosenDisjoint(sorted, k, cursor, |input|);
        PiecesShown(show, input, sorted, k + 1, end);
        PutFirst(show, input, c, Chosen(sorted, k, cursor), Chosen(sorted, k + 1, end));
        CutShown(show, input, c, cursor, Chosen(sorted, k, cursor), Chosen(sorted, k + 1, end), Pieces(input, sorted, k + 1, end));
      }
    }
  }

  // ----- rendering -----

  /** What a segment shows on this occasion. */
  function Shower(formats: Formats, sourceIp: string, destinationIp: string, instant: int, calendar: bool, profile: nat): RenderSegment -> string {
    (segment: RenderSegment) => Piece(Bound([], formats, sourceIp, destinationIp), segment, instant, calendar, profile)
  }

  ghost predicate Shows(show: RenderSegment -> string, b: Bound, instant: int, calendar: bool, profile: nat) {
    forall segment {:trigger Piece(b, segment, instant, calendar, profile)} :: show(segment) == Piece(b, segment, instant, calendar, profile)
  }

  lemma {:induction false} JoinedIsShowAll(show: RenderSegment -> string, pieces: seq<Segment<RenderSegment>>, texts: seq<string>, n: nat)
    requires n <= |texts| == |pieces| && forall k :: 0 <= k < |texts| ==> texts[k] == show(ToRender(pieces[k]))
    ensures Joined(texts, n) == ShowAll(show, pieces[..n])
  {
    if n > 0 {
      JoinedIsShowAll(show, pieces, texts, n - 1);
      assert pieces[..n] == pieces[..n - 1] + [pieces[n - 1]];
      ShowAppend(show, pieces[..n - 1], [pieces[n - 1]]);
      ShowOne(show, pieces[n - 1]);
    }
  }

  lemma CompiledShown(show: RenderSegment -> string, input: string, sorted: seq<Candidate<RenderSegment>>)
    requires ShowsLiterals(show) && InBounds(sorted, |input|)
    ensures ShownAs(show, input, Compiled(input, sorted), Chosen(sorted, 0, 0), 0)
  {
    PiecesShown(show, input, sorted, 0, 0);
    if Pieces(input, sorted, 0, 0) == [] {
      ShowOne(show, Literal(input));
      assert input == "" by { PiecesCover(input, sorted, 0, 0); }
    }
  }

  /** Text that is left makes a piece. */
  lemma {:induction false} PiecesCover(input: string, sorted: seq<Candidate<RenderSegment>>, k: nat, cursor: nat)
    requires InBounds(sorted, |input|) && k <= |sorted| && cursor <= |input|
    ensures Pieces(input, sorted, k, cursor) == [] ==> cursor == |input|
    decreases |sorted| - k
  {
    if k < |sorted| && sorted[k].position < cursor {
      PiecesCover(input, sorted, k + 1, cursor);
    }
  }

  lemma RenderedIsShown(show: RenderSegment -> string, b: Bound, input: string, compiled: seq<Segment<RenderSegment>>,
                        spans: seq<Candidate<RenderSegment>>, instant: int, calendar: bool, profile: nat)
    requires Shows(show, b, instant, calendar, profile) && b.segments == ToRenderAll(compiled) && ShownAs(show, input, compiled, spans, 0)
    ensures Plain(b, instant, calendar, profile) == Rewritten(input, spans, ShowSpans(show, spans), 0, 0)
  {
    JoinedIsShowAll(show, compiled, PieceTexts(b, instant, calendar, profile), |compiled|);
    assert compiled[..|compiled|] == compiled;
  }

  lemma ShowerShows(b: Bound, instant: int, calendar: bool, profile: nat) returns (show: RenderSegment -> string)
    ensures show == Shower(b.formats, b.sourceIp, b.destinationIp, instant, calendar, profile)
    ensures Shows(show, b, instant, calendar, profile) && ShowsLiterals(show)
  {
    show := Shower(b.formats, b.sourceIp, b.destinationIp, instant, calendar, profile);
  }

  lemma SpansShown(show: RenderSegment -> string, b: Bound, spans: seq<Candidate<RenderSegment>>, instant: int, calendar: bool, profile: nat)
    requires Shows(show, b, instant, calendar, profile)
    ensures forall i :: 0 <= i < |spans| ==> ShowsSegment(b, spans[i].kind, instant, calendar, profile, ShowSpans(show, spans)[i])
  {
    forall i | 0 <= i < |spans| ensures ShowsSegment(b, spans[i].kind, instant, calendar, profile, ShowSpans(show, spans)[i]) {
      PieceShows(b, spans[i].kind, instant, calendar, profile);
    }
  }

  /** Rendering a compiled sample gives the sample with every kept span replaced by what its segment shows: the bound
      source address for a source marker, and so on. */
  lemma RenderingReplacesSpans(b: Bound, input: string, sorted: seq<Candidate<RenderSegment>>, instant: int, calendar: bool, profile: nat)
    requires SortedByPosition(sorted) && InBounds(sorted, |input|) && b.segments == ToRenderAll(Compiled(input, sorted))
    ensures var spans, show := Chosen(sorted, 0, 0), Shower(b.formats, b.sourceIp, b.destinationIp, instant, calendar, profile);
            && InBounds(spans, |input|) && Disjoint(spans)
            && Plain(b, instant, calendar, profile) == Rewritten(input, spans, ShowSpans(show, spans), 0, 0)
            && forall i :: 0 <= i < |spans| ==>
                 ShowsSegment(b, spans[i].kind, instant, calendar, profile, ShowSpans(show, spans)[i])
  {
    var show := ShowerShows(b, instant, calendar, profile);
    SpansShown(show, b, Chosen(sorted, 0, 0), instant, calendar, profile);
    CompiledShown(show, input, sorted);
    RenderedIsShown(show, b, input, Compiled(input, sorted), Chosen(sorted, 0, 0), instant, calendar, profile);
  }
}
