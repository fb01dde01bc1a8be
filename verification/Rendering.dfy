/** The shift-register generator that draws synthetic profiles. */
module ProfileDraw {
  const PROFILE_COUNT := 50
  const WORD := 0x1_0000_0000_0000_0000

  function MixRight12(x: bv64): (y: bv64)
    ensures x != 0 ==> y != 0
  {
    x ^ (x >> 12)
  }

  function MixLeft25(x: bv64): (y: bv64)
    ensures x != 0 ==> y != 0
  {
    x ^ (x << 25)
  }

  function MixRight27(x: bv64): (y: bv64)
    ensures x != 0 ==> y != 0
  {
    x ^ (x >> 27)
  }

  /** One step of the generator. The state never becomes zero, from which it could never leave. */
  function NextState(state: bv64): (next: bv64)
    ensures state != 0 ==> next != 0
  {
    MixRight27(MixLeft25(MixRight12(state)))
  }

  function Scramble(sequence: bv64): (state: bv64)
    ensures state != 0
  {
    var a := (sequence ^ (sequence >> 30)) * 0xBF58476D1CE4E5B9;
    var b := (a ^ (a >> 27)) * 0x94D049BB133111EB;
    var c := b ^ (b >> 31);
    if c == 0 then 0xA0761D6478BD642F else c
  }

  function ProfileIndex(state: bv64): (index: nat)
    ensures index < PROFILE_COUNT
  {
    state as nat * 0x2545F4914F6CDD1D % WORD % PROFILE_COUNT
  }

  /** State after n draws. */
  function StateAfter(state: bv64, n: nat): (after: bv64)
    ensures state != 0 ==> after != 0
  {
    if n == 0 then state else NextState(StateAfter(state, n - 1))
  }
}

/** Rendering of a prepared log with its caches, against the plain rendering of its segments. */
module Rendering {
  import opened Decimal
  import opened Segments
  import opened ProfileDraw

  const NANOS := 1_000_000_000

  datatype PrivacyKind =
    | Person | Store | StoreCode | UserId | EmployeeId | Department | Organization | Email
    | Phone | Address | IpAddress | MacAddress | Host | Identifier | Secret | FilePath

  type Digits = n: nat | n <= 9

  datatype TimestampToken = TimestampToken(style: TimestampStyle, dateSeparator: char, dateTimeSeparator: char, fractionalDigits: Digits,
                                           hourWidth: nat, zoneOffsetMinutes: int, hasWeekday: bool, zoneSuffix: string)

  datatype RenderSegment =
    | LiteralText(text: string)
    | Timestamp(token: TimestampToken)
    | Privacy(kind: PrivacyKind)
    | SourceIp
    | DestinationIp

  datatype CompiledLog = CompiledLog(segments: seq<RenderSegment>, capacityHint: nat, hasTimestamp: bool, hasPrivacy: bool, cacheProfiles: bool)

  function Hint(segment: RenderSegment): nat {
    match segment
    case LiteralText(text) => |text|
    case Timestamp(_) => 40
    case Privacy(_) => 64
    case SourceIp => 64
    case DestinationIp => 64
  }

  function HintSum(segments: seq<RenderSegment>): nat {
    if segments == [] then 0 else HintSum(segments[..|segments| - 1]) + Hint(segments[|segments| - 1])
  }

  ghost predicate CompiledFrom(log: CompiledLog, segments: seq<RenderSegment>) {
    && log.segments == segments
    && log.capacityHint == HintSum(segments)
    && (log.hasTimestamp <==> exists i :: 0 <= i < |segments| && segments[i].Timestamp?)
    && (log.hasPrivacy <==> exists i :: 0 <= i < |segments| && segments[i].Privacy?)
    && (log.cacheProfiles <==> log.hasPrivacy && log.capacityHint <= 65_536)
  }

  method MakeCompiledLog(segments: seq<RenderSegment>) returns (log: CompiledLog)
    ensures CompiledFrom(log, segments)
  {
    var hint, hasTimestamp, hasPrivacy := 0, false, false;
    for i := 0 to |segments|
      invariant hint == HintSum(segments[..i])
      invariant hasTimestamp <==> exists k :: 0 <= k < i && segments[k].Timestamp?
      invariant hasPrivacy <==> exists k :: 0 <= k < i && segments[k].Privacy?
    {
      assert segments[..i + 1][..i] == segments[..i];
      hint := hint + Hint(segments[i]);
      hasTimestamp := hasTimestamp || segments[i].Timestamp?;
      hasPrivacy := hasPrivacy || segments[i].Privacy?;
    }
    assert segments[..|segments|] == segments;
    log := CompiledLog(segments, hint, hasTimestamp, hasPrivacy, hasPrivacy && hint <= 65_536);
  }

  /** Calendar conversion and number formatting, as functions of the whole second. UTC conversion rounds the
      second down, local conversion truncates it. */
  datatype Formats = Formats(
    head: (TimestampToken, int, int, bool) -> string,
    tail: (TimestampToken, int, int, bool) -> string,
    synthetic: (PrivacyKind, nat) -> string)

  /** duration_cast to seconds. */
  function Truncated(instant: int): int {
    if instant >= 0 then instant / NANOS else -(-instant / NANOS)
  }

  function NineDigits(n: nat): (digits: string)
    requires n < NANOS
    ensures |digits| >= 9
  {
    var digits := ToDecimal(n);
    seq(if |digits| < 9 then 9 - |digits| else 0, _ => '0') + digits
  }

  function Fraction(instant: int, digits: Digits): string {
    if digits == 0 then "" else "." + NineDigits(instant % NANOS)[..digits]
  }

  function ShowsFraction(token: TimestampToken): bool {
    token.style.Iso8601? || token.style.YearFirst? || token.style.CompactWithT? || token.style.TimeOnly?
  }

  function ShownDigits(token: TimestampToken): Digits {
    if ShowsFraction(token) then token.fractionalDigits else 0
  }

  function Stamp(formats: Formats, token: TimestampToken, instant: int, calendar: bool): string {
    formats.head(token, instant / NANOS, Truncated(instant), calendar)
    + Fraction(instant, ShownDigits(token))
    + formats.tail(token, instant / NANOS, Truncated(instant), calendar)
  }

  /** Everything a rendering depends on besides the instant. */
  datatype Bound = Bound(segments: seq<RenderSegment>, formats: Formats, sourceIp: string, destinationIp: string)

  function NonTimestamp(b: Bound, segment: RenderSegment, profile: nat): string {
    match segment
    case LiteralText(text) => text
    case Privacy(kind) => b.formats.synthetic(kind, profile)
    case SourceIp => b.sourceIp
    case DestinationIp => b.destinationIp
    case Timestamp(_) => ""
  }

  function Piece(b: Bound, segment: RenderSegment, instant: int, calendar: bool, profile: nat): string {
    if segment.Timestamp? then Stamp(b.formats, segment.token, instant, calendar) else NonTimestamp(b, segment, profile)
  }

  // ----- what a segment shows, told apart from how it is made -----

  /** These are the first d of the nine digits of n. */
  ghost predicate CutOff(n: nat, d: Digits, digits: string) {
    && |digits| == d && AllDigits(digits)
    && FromDecimal(digits) * TenTo(9 - d) <= n < (FromDecimal(digits) + 1) * TenTo(9 - d)
  }

  lemma NineDigitsRead(n: nat)
    requires n < NANOS
    ensures var digits := NineDigits(n); |digits| == 9 && AllDigits(digits) && FromDecimal(digits) == n
  {
    var digits := ToDecimal(n);
    assert TenTo(9) == NANOS;
    DecimalLength(n, 9);
    DecimalRoundTrip(n);
    LeadingZeros(digits, seq(9 - |digits|, _ => '0'));
  }

  lemma DigitsCutOff(n: nat, d: Digits)
    requires n < NANOS
    ensures CutOff(n, d, NineDigits(n)[..d])
  {
    NineDigitsRead(n);
    FirstDigits(NineDigits(n), d);
  }

  /** Head, a point and the digits of the fraction if any are shown, tail. */
  ghost predicate ShowsInstant(formats: Formats, token: TimestampToken, instant: int, calendar: bool, text: string) {
    exists digits: string :: CutOff(instant % NANOS, ShownDigits(token), digits)
      && text == formats.head(token, instant / NANOS, Truncated(instant), calendar)
               + (if digits == "" then "" else "." + digits)
               + formats.tail(token, instant / NANOS, Truncated(instant), calendar)
  }

  /** The text that stands for a segment: literal text itself, the addresses bound to the log, the synthetic value of the
      profile, the formatted instant. */
  ghost predicate ShowsSegment(b: Bound, segment: RenderSegment, instant: int, calendar: bool, profile: nat, text: string) {
    && (segment.LiteralText? ==> text == segment.text)
    && (segment.SourceIp? ==> text == b.sourceIp)
    && (segment.DestinationIp? ==> text == b.destinationIp)
    && (segment.Privacy? ==> text == b.formats.synthetic(segment.kind, profile))
    && (segment.Timestamp? ==> ShowsInstant(b.formats, segment.token, instant, calendar, text))
  }

  lemma PieceShows(b: Bound, segment: RenderSegment, instant: int, calendar: bool, profile: nat)
    ensures ShowsSegment(b, segment, instant, calendar, profile, Piece(b, segment, instant, calendar, profile))
  {
    if segment.Timestamp? {
      StampShows(b.formats, segment.token, instant, calendar);
    }
  }

  lemma StampShows(formats: Formats, token: TimestampToken, instant: int, calendar: bool)
    ensures ShowsInstant(formats, token, instant, calendar, Stamp(formats, token, instant, calendar))
  {
    var d := ShownDigits(token);
    DigitsCutOff(instant % NANOS, d);
    assert CutOff(instant % NANOS, d, NineDigits(instant % NANOS)[..d]);
  }

  /** A log of one segment shows that segment. */
  lemma OneSegmentShows(b: Bound, instant: int, calendar: bool, profile: nat)
    requires |b.segments| == 1
    ensures ShowsSegment(b, b.segments[0], instant, calendar, profile, Plain(b, instant, calendar, profile))
  {
    PieceShows(b, b.segments[0], instant, calendar, profile);
    var texts := PieceTexts(b, instant, calendar, profile);
    assert Joined(texts, 0) + texts[0] == texts[0];
  }

  /** The first n texts, one after the other. */
  function Joined(texts: seq<string>, n: nat): string
    requires n <= |texts|
  {
    if n == 0 then "" else Joined(texts, n - 1) + texts[n - 1]
  }

  lemma {:induction false} JoinedSame(a: seq<string>, b: seq<string>, n: nat)
    requires n <= |a| == |b| && forall k :: 0 <= k < n ==> a[k] == b[k]
    ensures Joined(a, n) == Joined(b, n)
  {
    if n > 0 {
      JoinedSame(a, b, n - 1);
    }
  }

  function PieceTexts(b: Bound, instant: int, calendar: bool, profile: nat): (texts: seq<string>)
    ensures |texts| == |b.segments|
    ensures forall k :: 0 <= k < |texts| ==> texts[k] == Piece(b, b.segments[k], instant, calendar, profile)
  {
    seq(|b.segments|, k requires 0 <= k < |b.segments| => Piece(b, b.segments[k], instant, calendar, profile))
  }

  /** The segments rendered one by one, without any cache. */
  function Plain(b: Bound, instant: int, calendar: bool, profile: nat): string {
    Joined(PieceTexts(b, instant, calendar, profile), |b.segments|)
  }

  /** Without timestamps the instant does not matter, without privacy tokens the profile does not. */
  lemma PlainIndependent(b: Bound, i1: int, c1: bool, p1: nat, i2: int, c2: bool, p2: nat)
    requires (forall k :: 0 <= k < |b.segments| ==> !b.segments[k].Timestamp?) || (i1 == i2 && c1 == c2)
    requires (forall k :: 0 <= k < |b.segments| ==> !b.segments[k].Privacy?) || p1 == p2
    ensures Plain(b, i1, c1, p1) == Plain(b, i2, c2, p2)
  {
    forall k | 0 <= k < |b.segments| ensures PieceTexts(b, i1, c1, p1)[k] == PieceTexts(b, i2, c2, p2)[k] {
      PieceIndependent(b, b.segments[k], i1, c1, p1, i2, c2, p2);
    }
    JoinedSame(PieceTexts(b, i1, c1, p1), PieceTexts(b, i2, c2, p2), |b.segments|);
  }

  lemma PieceIndependent(b: Bound, segment: RenderSegment, i1: int, c1: bool, p1: nat, i2: int, c2: bool, p2: nat)
    requires segment.Timestamp? ==> i1 == i2 && c1 == c2
    requires segment.Privacy? ==> p1 == p2
    ensures Piece(b, segment, i1, c1, p1) == Piece(b, segment, i2, c2, p2)
  {
  }

  // ----- what two instants of one second have in common -----

  /** The same second, whichever way it is rounded. From the epoch on both ways agree. */
  predicate SameSecond(i1: int, i2: int) {
    i1 / NANOS == i2 / NANOS && Truncated(i1) == Truncated(i2)
  }

  /** The fractional digits this segment shows are those of both instants. */
  predicate DigitsAgree(segment: RenderSegment, i1: int, i2: int) {
    segment.Timestamp? ==>
      var d := ShownDigits(segment.token);
      NineDigits(i1 % NANOS)[..d] == NineDigits(i2 % NANOS)[..d]
  }

  predicate SameDigits(b: Bound, i1: int, i2: int) {
    forall k :: 0 <= k < |b.segments| ==> DigitsAgree(b.segments[k], i1, i2)
  }

  /** Concatenations of parts of equal length are equal exactly when the parts are. */
  lemma SplitEqual(a1: string, z1: string, a2: string, z2: string)
    requires |a1| == |a2|
    ensures a1 + z1 == a2 + z2 <==> a1 == a2 && z1 == z2
  {
    assert (a1 + z1)[..|a1|] == a1 && (a2 + z2)[..|a2|] == a2;
    assert (a1 + z1)[|a1|..] == z1 && (a2 + z2)[|a2|..] == z2;
  }

  lemma FractionsDiffer(i1: int, i2: int, digits: Digits)
    ensures |Fraction(i1, digits)| == |Fraction(i2, digits)|
    ensures Fraction(i1, digits) == Fraction(i2, digits) <==> NineDigits(i1 % NANOS)[..digits] == NineDigits(i2 % NANOS)[..digits]
  {
    SplitEqual(".", NineDigits(i1 % NANOS)[..digits], ".", NineDigits(i2 % NANOS)[..digits]);
  }

  lemma PiecesDiffer(b: Bound, segment: RenderSegment, i1: int, i2: int, calendar: bool, profile: nat)
    requires SameSecond(i1, i2)
    ensures |Piece(b, segment, i1, calendar, profile)| == |Piece(b, segment, i2, calendar, profile)|
    ensures Piece(b, segment, i1, calendar, profile) == Piece(b, segment, i2, calendar, profile) <==> DigitsAgree(segment, i1, i2)
  {
    if segment.Timestamp? {
      var token, f := segment.token, b.formats;
      var d := ShownDigits(token);
      var head := f.head(token, i1 / NANOS, Truncated(i1), calendar);
      var tail := f.tail(token, i1 / NANOS, Truncated(i1), calendar);
      FractionsDiffer(i1, i2, d);
      SplitEqual(head, Fraction(i1, d), head, Fraction(i2, d));
      SplitEqual(head + Fraction(i1, d), tail, head + Fraction(i2, d), tail);
    }
  }

  ghost predicate AllAgree(agree: nat -> bool, n: nat) { forall k: nat :: k < n ==> agree(k) }

  /** Texts of parts that are equally long in pairs are equal exactly when all pairs are. */
  lemma {:induction false} JoinedEqual(a: seq<string>, b: seq<string>, agree: nat -> bool, n: nat)
    requires n <= |a| == |b|
    requires forall k: nat :: k < n ==> |a[k]| == |b[k]| && (a[k] == b[k] <==> agree(k))
    ensures |Joined(a, n)| == |Joined(b, n)|
    ensures Joined(a, n) == Joined(b, n) <==> AllAgree(agree, n)
  {
    if n > 0 {
      JoinedEqual(a, b, agree, n - 1);
      SplitEqual(Joined(a, n - 1), a[n - 1], Joined(b, n - 1), b[n - 1]);
      assert AllAgree(agree, n) <==> AllAgree(agree, n - 1) && agree(n - 1);
    }
  }

  lemma PieceTextsDiffer(b: Bound, i1: int, i2: int, calendar: bool, profile: nat, t1: seq<string>, t2: seq<string>, agree: nat -> bool)
    requires SameSecond(i1, i2) && t1 == PieceTexts(b, i1, calendar, profile) && t2 == PieceTexts(b, i2, calendar, profile)
    requires forall k: nat :: k < |b.segments| ==> (agree(k) <==> DigitsAgree(b.segments[k], i1, i2))
    ensures forall k: nat :: k < |b.segments| ==> |t1[k]| == |t2[k]| && (t1[k] == t2[k] <==> agree(k))
  {
    forall k: nat | k < |b.segments| ensures |t1[k]| == |t2[k]| && (t1[k] == t2[k] <==> agree(k)) {
      PiecesDiffer(b, b.segments[k], i1, i2, calendar, profile);
    }
  }

  /** Two instants of one second render alike exactly when no segment shows a digit in which they differ. */
  lemma PlainEqualExactly(b: Bound, i1: int, i2: int, calendar: bool, profile: nat)
    requires SameSecond(i1, i2)
    ensures |Plain(b, i1, calendar, profile)| == |Plain(b, i2, calendar, profile)|
    ensures Plain(b, i1, calendar, profile) == Plain(b, i2, calendar, profile) <==> SameDigits(b, i1, i2)
  {
    var t1, t2 := PieceTexts(b, i1, calendar, profile), PieceTexts(b, i2, calendar, profile);
    var agree := (k: nat) => k < |b.segments| && DigitsAgree(b.segments[k], i1, i2);
    PieceTextsDiffer(b, i1, i2, calendar, profile, t1, t2, agree);
    JoinedEqual(t1, t2, agree, |b.segments|);
    assert AllAgree(agree, |b.segments|) <==> SameDigits(b, i1, i2);
  }

  /** The epoch and half a second later differ for every log that shows at least one fractional digit. */
  lemma HalfSecondDiffers(b: Bound, k: nat, calendar: bool, profile: nat)
    requires k < |b.segments| && b.segments[k].Timestamp? && ShownDigits(b.segments[k].token) > 0
    ensures Truncated(0) == Truncated(NANOS / 2)
    ensures Plain(b, 0, calendar, profile) != Plain(b, NANOS / 2, calendar, profile)
  {
    PlainEqualExactly(b, 0, NANOS / 2, calendar, profile);
    LeadingDigits();
    DigitsDiffer(NineDigits(0), NineDigits(NANOS / 2), ShownDigits(b.segments[k].token));
    assert !DigitsAgree(b.segments[k], 0, NANOS / 2);
  }

  lemma DigitsDiffer(a: string, b: string, d: nat)
    requires 0 < d <= |a| && d <= |b| && a[0] != b[0]
    ensures a[..d] != b[..d]
  {
    assert a[..d][0] == a[0] && b[..d][0] == b[0];
  }

  lemma LeadingDigits()
    ensures NineDigits(0)[0] == '0' && NineDigits(NANOS / 2)[0] == '5'
  {
    PowersOfTen(8);
  }

  /** A five and n zeros. */
  lemma {:induction false} PowersOfTen(n: nat)
    ensures |ToDecimal(5 * TenTo(n))| == n + 1 && ToDecimal(5 * TenTo(n))[0] == '5'
  {
    if n > 0 {
      PowersOfTen(n - 1);
      assert 5 * TenTo(n) / 10 == 5 * TenTo(n - 1);
    }
  }

  /** Instants whose timestamps were made, with their calendar flag. */
  type Seen = set<(int, bool)>

  /** The text is the plain rendering at an instant already seen, of this second and flag. */
  ghost predicate Rendered(b: Bound, text: string, seen: Seen, second: int, calendar: bool, profile: nat) {
    exists instant: int :: (instant, calendar) in seen && Truncated(instant) == second && text == Plain(b, instant, calendar, profile)
  }

  /** The first n stamps are those of this instant. */
  ghost predicate StampsAt(b: Bound, stamps: seq<string>, n: nat, instant: int, calendar: bool)
    requires n <= |stamps| == |b.segments|
  {
    forall k :: 0 <= k < n ==> b.segments[k].Timestamp? ==> stamps[k] == Stamp(b.formats, b.segments[k].token, instant, calendar)
  }

  lemma StampPut(b: Bound, stamps: seq<string>, n: nat, stamp: string, instant: int, calendar: bool)
    requires n < |stamps| == |b.segments| && StampsAt(b, stamps, n, instant, calendar)
    requires b.segments[n].Timestamp? ==> stamp == Stamp(b.formats, b.segments[n].token, instant, calendar)
    ensures StampsAt(b, stamps[n := stamp], n + 1, instant, calendar)
  {
  }

  function Blank(n: nat): seq<string> {
    seq(n, _ => "")
  }

  /** The texts of the output loop over cached stamps. */
  function StampedTexts(b: Bound, stamps: seq<string>, profile: nat): (texts: seq<string>)
    requires |stamps| == |b.segments|
    ensures |texts| == |stamps|
    ensures forall k :: 0 <= k < |texts| ==>
              texts[k] == if b.segments[k].Timestamp? then stamps[k] else NonTimestamp(b, b.segments[k], profile)
  {
    seq(|stamps|, k requires 0 <= k < |stamps| => if b.segments[k].Timestamp? then stamps[k] else NonTimestamp(b, b.segments[k], profile))
  }

  function Assembled(b: Bound, stamps: seq<string>, profile: nat): string
    requires |stamps| == |b.segments|
  {
    Joined(StampedTexts(b, stamps, profile), |stamps|)
  }

  lemma AssembledIsPlain(b: Bound, stamps: seq<string>, instant: int, calendar: bool, profile: nat)
    requires |stamps| == |b.segments| && StampsAt(b, stamps, |stamps|, instant, calendar)
    ensures Assembled(b, stamps, profile) == Plain(b, instant, calendar, profile)
  {
    JoinedSame(StampedTexts(b, stamps, profile), PieceTexts(b, instant, calendar, profile), |stamps|);
  }

  /** This segment is a timestamp that is not empty. */
  ghost predicate ShowsTime(b: Bound, segment: RenderSegment, instant: int, calendar: bool) {
    segment.Timestamp? && Stamp(b.formats, segment.token, instant, calendar) != ""
  }

  lemma {:induction false} JoinedNotLonger(a: seq<string>, b: seq<string>, n: nat)
    requires n <= |a| == |b| && forall k :: 0 <= k < n ==> |a[k]| <= |b[k]|
    ensures |Joined(a, n)| <= |Joined(b, n)|
  {
    if n > 0 {
      JoinedNotLonger(a, b, n - 1);
    }
  }

  lemma {:induction false} JoinedShorter(a: seq<string>, b: seq<string>, n: nat, i: nat)
    requires i < n <= |a| == |b| && |a[i]| < |b[i]| && forall k :: 0 <= k < n ==> |a[k]| <= |b[k]|
    ensures |Joined(a, n)| < |Joined(b, n)|
  {
    if i < n - 1 {
      JoinedShorter(a, b, n - 1, i);
    } else {
      JoinedNotLonger(a, b, n - 1);
    }
  }

  /** A log without its timestamps is shorter, as soon as one of them is not empty. */
  lemma BlankIsShorter(b: Bound, k: nat, instant: int, calendar: bool, profile: nat)
    requires k < |b.segments| && ShowsTime(b, b.segments[k], instant, calendar)
    ensures |Assembled(b, Blank(|b.segments|), profile)| < |Plain(b, instant, calendar, profile)|
  {
    JoinedShorter(StampedTexts(b, Blank(|b.segments|), profile), PieceTexts(b, instant, calendar, profile), |b.segments|, k);
  }

  /** What the first rendering gives out when its second is taken for the initial cached second: nothing, or the log
      without its timestamps. */
  function Lost(b: Bound, hasPrivacy: bool, profile: nat): string {
    if hasPrivacy then Assembled(b, Blank(|b.segments|), profile) else ""
  }

  /** The log shows something at this instant that is missing from the lost rendering. */
  ghost predicate Visible(b: Bound, hasPrivacy: bool, instant: int, calendar: bool) {
    || (exists k :: 0 <= k < |b.segments| && ShowsTime(b, b.segments[k], instant, calendar))
    || (!hasPrivacy && Plain(b, instant, calendar, 0) != "")
  }

  lemma LostIsWrong(b: Bound, hasPrivacy: bool, instant: int, calendar: bool, profile: nat)
    requires Visible(b, hasPrivacy, instant, calendar) && (!hasPrivacy ==> profile == 0)
    ensures Lost(b, hasPrivacy, profile) != Plain(b, instant, calendar, profile)
  {
    if k :| 0 <= k < |b.segments| && ShowsTime(b, b.segments[k], instant, calendar) {
      BlankIsShorter(b, k, instant, calendar, profile);
    }
  }

  /** One profile's cached output. */
  datatype ProfileEntry = ProfileEntry(valid: bool, second: int, calendar: bool, output: string)

  ghost predicate EntryOk(b: Bound, hasTimestamp: bool, entry: ProfileEntry, seen: Seen, profile: nat) {
    entry.valid ==> Shown(b, hasTimestamp, entry.output, seen, entry.second, entry.calendar, profile)
  }

  /** A correct output for this second, flag and profile. */
  ghost predicate Shown(b: Bound, hasTimestamp: bool, output: string, seen: Seen, second: int, calendar: bool, profile: nat) {
    if hasTimestamp then Rendered(b, output, seen, second, calendar, profile) else output == Plain(b, 0, false, profile)
  }

  lemma AssembledWithoutStamps(b: Bound, stamps: seq<string>, profile: nat)
    requires |stamps| == |b.segments| && forall k :: 0 <= k < |b.segments| ==> !b.segments[k].Timestamp?
    ensures Assembled(b, stamps, profile) == Plain(b, 0, false, profile)
  {
    JoinedSame(StampedTexts(b, stamps, profile), PieceTexts(b, 0, false, profile), |stamps|);
  }

  class PreparedLog {
    const compiled: CompiledLog
    const formats: Formats
    const sourceIp: string
    const destinationIp: string
    const offset: int
    const timestampCache: array<string>
    const privacyCache: array<ProfileEntry>
    var cached: string
    var cachedSecond: int
    var cachedCalendar: bool
    var randomState: bv64
    /** The instants whose timestamps were made, and the last one. */
    ghost var seen: Seen
    ghost var made: int
    /** Whether the cached second is that of a rendering rather than the initial -1. */
    ghost var primed: bool

    function B(): Bound { Bound(compiled.segments, formats, sourceIp, destinationIp) }

    ghost predicate Static() { !compiled.hasTimestamp && !compiled.hasPrivacy }

    ghost predicate Structure() {
      && CompiledFrom(compiled, compiled.segments)
      && timestampCache.Length == |compiled.segments| && privacyCache.Length == PROFILE_COUNT
    }

    /** The cached output or stamps are those of the instant last made, or nothing was rendered yet. */
    ghost predicate CachedOk()
      reads `cached, `cachedSecond, `cachedCalendar, `primed, `seen, `made, timestampCache
      requires Structure()
    {
      && (!primed ==> cachedSecond == -1 && !cachedCalendar && timestampCache[..] == Blank(|compiled.segments|))
      && (Static() ==> cached == Plain(B(), 0, false, 0))
      && (compiled.hasTimestamp && primed ==> (made, cachedCalendar) in seen && Truncated(made) == cachedSecond)
      && (compiled.hasTimestamp && !compiled.hasPrivacy ==> cached == if primed then Plain(B(), made, cachedCalendar, 0) else "")
      && (compiled.hasTimestamp && compiled.hasPrivacy && primed ==>
            StampsAt(B(), timestampCache[..], timestampCache.Length, made, cachedCalendar))
    }

    ghost predicate ProfilesOk()
      reads `primed, `seen, privacyCache
      requires Structure()
    {
      && (forall p :: 0 <= p < PROFILE_COUNT ==> EntryOk(B(), compiled.hasTimestamp, privacyCache[p], seen, p))
      && (!primed ==> forall p :: 0 <= p < PROFILE_COUNT ==> !privacyCache[p].valid)
    }

    /** All that a rendering needs in order to run. */
    ghost predicate Usable()
      reads `randomState
    {
      Structure() && randomState != 0
    }

    ghost predicate Valid()
      reads this, timestampCache, privacyCache
    {
      Usable() && CachedOk() && ProfilesOk()
    }

    constructor (compiled: CompiledLog, formats: Formats, sourceIp: string, destinationIp: string, offset: int, sequence: bv64)
      requires CompiledFrom(compiled, compiled.segments)
      ensures Valid() && !primed && seen == {} && fresh(timestampCache) && fresh(privacyCache)
      ensures this.compiled == compiled && this.offset == offset
      ensures B() == Bound(compiled.segments, formats, sourceIp, destinationIp)
      ensures randomState == Scramble(sequence)
    {
      this.compiled, this.formats, this.sourceIp, this.destinationIp, this.offset := compiled, formats, sourceIp, destinationIp, offset;
      timestampCache := new string[|compiled.segments|](_ => "");
      privacyCache := new ProfileEntry[PROFILE_COUNT](_ => ProfileEntry(false, -1, false, ""));
      cached, cachedSecond, cachedCalendar, randomState := "", -1, false, Scramble(sequence);
      seen, primed := {}, false;
      new;
      if !compiled.hasTimestamp && !compiled.hasPrivacy {
        RenderStatic();
      }
    }

    /** A log with neither timestamps nor privacy tokens is rendered once and for all. */
    method RenderStatic()
      requires Structure() && Static() && cached == ""
      modifies this`cached
      ensures cached == Plain(B(), 0, false, 0)
    {
      ghost var b, texts := B(), PieceTexts(B(), 0, false, 0);
      for i := 0 to |compiled.segments|
        invariant cached == Joined(texts, i)
      {
        cached := cached + NonTimestamp(B(), compiled.segments[i], 0);
        assert texts[i] == NonTimestamp(b, b.segments[i], 0);
      }
    }

    /** One draw of the generator. */
    method NextProfileIndex() returns (index: nat)
      requires randomState != 0
      modifies this`randomState
      ensures randomState == NextState(old(randomState)) && randomState != 0
      ensures index == ProfileIndex(randomState)
    {
      randomState := NextState(randomState);
      index := ProfileIndex(randomState);
    }

    /** Fills the per-segment cache with the stamps of one instant. */
    method RefreshStamps(adjusted: int, calendar: bool)
      requires Structure()
      modifies timestampCache
      ensures StampsAt(B(), timestampCache[..], timestampCache.Length, adjusted, calendar)
    {
      ghost var b := B();
      for i := 0 to |compiled.segments|
        invariant StampsAt(b, timestampCache[..], i, adjusted, calendar)
      {
        ghost var before := timestampCache[..];
        if compiled.segments[i].Timestamp? {
          timestampCache[i] := Stamp(formats, compiled.segments[i].token, adjusted, calendar);
        }
        assert timestampCache[..] == before[i := timestampCache[i]];
        StampPut(b, before, i, timestampCache[i], adjusted, calendar);
      }
    }

    /** The output loop; with privacy tokens the stamps come from the cache, otherwise each is made on the spot. */
    method Assemble(adjusted: int, calendar: bool, profile: nat) returns (output: string)
      requires Structure()
      ensures compiled.hasPrivacy ==> output == Assembled(B(), timestampCache[..], profile)
      ensures !compiled.hasPrivacy ==> output == Plain(B(), adjusted, calendar, profile)
    {
      output := "";
      ghost var b := B();
      ghost var texts := if compiled.hasPrivacy then StampedTexts(b, timestampCache[..], profile) else PieceTexts(b, adjusted, calendar, profile);
      for i := 0 to |compiled.segments|
        invariant output == Joined(texts, i)
      {
        var segment := compiled.segments[i];
        var text;
        if segment.Timestamp? {
          text := if compiled.hasPrivacy then timestampCache[i] else Stamp(formats, segment.token, adjusted, calendar);
        } else {
          text := NonTimestamp(B(), segment, profile);
        }
        assert text == texts[i];
        output := output + text;
      }
    }

    /** Whether the caches stand at this second and flag. */
    predicate At(second: int, calendar: bool)
      reads `cachedSecond, `cachedCalendar
    {
      second == cachedSecond && calendar == cachedCalendar
    }

    /** Whether the initial second -1 cannot be mistaken for a cached one. */
    ghost predicate Genuine(second: int, calendar: bool)
      reads `primed
    {
      !compiled.hasTimestamp || primed || !(second == -1 && !calendar)
    }

    /** The instant whose timestamps a new rendering shows: the one last made if it is of this second and flag. */
    ghost function Basis(adjusted: int, calendar: bool): int
      reads `made, `primed, `cachedSecond, `cachedCalendar
    {
      if primed && At(Truncated(adjusted), calendar) then made else adjusted
    }

    /** Brings the stamp cache to this second if it is not there yet. */
    method StampsFor(adjusted: int, calendar: bool)
      requires Usable() && compiled.hasPrivacy
      modifies this`cachedSecond, this`cachedCalendar, this`primed, this`made, timestampCache
      ensures primed == (old(primed) || (compiled.hasTimestamp && !old(At(Truncated(adjusted), calendar))))
      ensures if compiled.hasTimestamp && !old(At(Truncated(adjusted), calendar)) then
                && made == adjusted && At(Truncated(adjusted), calendar)
                && StampsAt(B(), timestampCache[..], timestampCache.Length, adjusted, calendar)
              else
                && made == old(made) && cachedSecond == old(cachedSecond) && cachedCalendar == old(cachedCalendar)
                && timestampCache[..] == old(timestampCache[..])
    {
      if compiled.hasTimestamp && (Truncated(adjusted) != cachedSecond || calendar != cachedCalendar) {
        RefreshStamps(adjusted, calendar);
        cachedSecond, cachedCalendar, primed, made := Truncated(adjusted), calendar, true, adjusted;
      }
    }

    /** Stores an output and its second. If the output is right, the caches stay sound. */
    method Store(output: string, second: int, calendar: bool, profile: nat)
      requires Usable() && profile < PROFILE_COUNT
      modifies this`cached, this`cachedSecond, this`cachedCalendar, this`primed, this`seen, privacyCache
      ensures At(second, calendar) && primed
      ensures seen == if compiled.hasTimestamp then old(seen) + {(made, calendar)} else old(seen)
      ensures old(Storable(output, second, calendar, profile)) ==> Valid()
    {
      ghost var sound, before := Storable(output, second, calendar, profile), seen;
      if compiled.cacheProfiles {
        privacyCache[profile] := ProfileEntry(true, second, calendar, output);
      } else {
        cached := output;
      }
      cachedSecond, cachedCalendar, primed := second, calendar, true;
      if compiled.hasTimestamp {
        seen := seen + {(made, calendar)};
      }
      if sound {
        forall p | 0 <= p < PROFILE_COUNT ensures EntryOk(B(), compiled.hasTimestamp, privacyCache[p], seen, p) {
          assert old(EntryOk(B(), compiled.hasTimestamp, privacyCache[p], before, p));
        }
      }
    }

    /** The right output for the instant last made; with privacy tokens the stamp cache is that instant's. */
    ghost predicate RightOutput(output: string, calendar: bool, profile: nat)
      reads `made
    {
      if compiled.hasTimestamp then output == Plain(B(), made, calendar, profile) else output == Plain(B(), 0, false, profile)
    }

    ghost predicate Storable(output: string, second: int, calendar: bool, profile: nat)
      reads this, timestampCache, privacyCache
    {
      && Usable() && !Static() && ProfilesOk()
      && (!compiled.hasPrivacy ==> profile == 0)
      && RightOutput(output, calendar, profile)
      && (compiled.hasTimestamp ==> Truncated(made) == second)
      && (compiled.hasTimestamp && compiled.hasPrivacy ==> StampsAt(B(), timestampCache[..], timestampCache.Length, made, calendar))
    }

    /** A rendering that no cached output answers. */
    method RenderAnew(adjusted: int, calendar: bool, profile: nat) returns (output: string)
      requires Usable() && !Static() && profile < PROFILE_COUNT && (!compiled.hasPrivacy ==> profile == 0)
      requires compiled.hasPrivacy || !At(Truncated(adjusted), calendar)
      modifies this`cached, this`cachedSecond, this`cachedCalendar, this`primed, this`seen, this`made, timestampCache, privacyCache
      ensures At(Truncated(adjusted), calendar) && primed
      ensures old(Valid() && Genuine(Truncated(adjusted), calendar)) ==>
                Valid() && Renewed(output, old(seen), old(Basis(adjusted, calendar)), calendar, profile)
      ensures old(Valid() && !Genuine(Truncated(adjusted), calendar)) ==>
                output == Lost(B(), compiled.hasPrivacy, profile) && timestampCache[..] == Blank(|compiled.segments|)
    {
      ghost var sound := Valid() && Genuine(Truncated(adjusted), calendar);
      if compiled.hasPrivacy {
        StampsFor(adjusted, calendar);
      } else {
        made := adjusted;
      }
      output := Assemble(adjusted, calendar, profile);
      if sound {
        AssembledIsRight(output, adjusted, calendar, profile);
        assert Storable(output, Truncated(adjusted), calendar, profile);
      }
      Store(output, Truncated(adjusted), calendar, profile);
    }

    /** The output was made anew, or repeats the last one, at this instant. */
    ghost predicate Renewed(output: string, before: Seen, basis: int, calendar: bool, profile: nat)
      reads `seen, `made
    {
      && RightOutput(output, calendar, profile)
      && (compiled.hasTimestamp ==> made == basis && seen == before + {(made, calendar)})
    }

    lemma AssembledIsRight(output: string, adjusted: int, calendar: bool, profile: nat)
      requires Structure()
      requires compiled.hasPrivacy ==> output == Assembled(B(), timestampCache[..], profile)
      requires compiled.hasPrivacy && compiled.hasTimestamp ==> StampsAt(B(), timestampCache[..], timestampCache.Length, made, calendar)
      requires !compiled.hasPrivacy ==> output == Plain(B(), adjusted, calendar, profile) && (compiled.hasTimestamp ==> made == adjusted)
      requires compiled.hasPrivacy || compiled.hasTimestamp
      ensures RightOutput(output, calendar, profile)
    {
      if compiled.hasPrivacy {
        if compiled.hasTimestamp {
          AssembledIsPlain(B(), timestampCache[..], made, calendar, profile);
        } else {
          AssembledWithoutStamps(B(), timestampCache[..], profile);
        }
      }
    }

    /** The profile cache answers when it holds this profile's output for this second and flag, or needs neither. */
    method FindOutput(second: int, calendar: bool, profile: nat) returns (hit: bool, output: string)
      requires Usable() && profile < PROFILE_COUNT
      ensures hit ==> compiled.cacheProfiles
      ensures hit && Valid() ==> primed && Shown(B(), compiled.hasTimestamp, output, seen, second, calendar, profile)
    {
      var entry := privacyCache[profile];
      assert Valid() ==> EntryOk(B(), compiled.hasTimestamp, entry, seen, profile);
      hit := compiled.cacheProfiles && entry.valid
             && (!compiled.hasTimestamp || (entry.second == second && entry.calendar == calendar));
      output := entry.output;
    }

    /** The output comes from the profile cache, and nothing changed. */
    twostate predicate Answered(output: string, second: int, calendar: bool, profile: nat)
      reads this
    {
      && compiled.cacheProfiles
      && cachedSecond == old(cachedSecond) && cachedCalendar == old(cachedCalendar)
      && seen == old(seen) && made == old(made) && primed == old(primed)
      && Shown(B(), compiled.hasTimestamp, output, seen, second, calendar, profile)
    }

    /** The profile cache first, a new rendering otherwise. */
    method FindOrRender(adjusted: int, calendar: bool, profile: nat) returns (output: string)
      requires Usable() && !Static() && profile < PROFILE_COUNT && (!compiled.hasPrivacy ==> profile == 0)
      requires compiled.hasPrivacy || !At(Truncated(adjusted), calendar)
      modifies this`cached, this`cachedSecond, this`cachedCalendar, this`primed, this`seen, this`made, timestampCache, privacyCache
      ensures old(Valid() && Genuine(Truncated(adjusted), calendar)) ==>
                && Valid() && primed
                && (|| Answered(output, Truncated(adjusted), calendar, profile)
                    || (At(Truncated(adjusted), calendar)
                        && Renewed(output, old(seen), old(Basis(adjusted, calendar)), calendar, profile)))
      ensures old(Valid() && !Genuine(Truncated(adjusted), calendar)) ==>
                && output == Lost(B(), compiled.hasPrivacy, profile)
                && At(Truncated(adjusted), calendar) && timestampCache[..] == Blank(|compiled.segments|)
    {
      var hit;
      hit, output := FindOutput(Truncated(adjusted), calendar, profile);
      if !hit {
        output := RenderAnew(adjusted, calendar, profile);
      }
    }

    /** Whether the last output can be given out again. */
    predicate Repeats(second: int, calendar: bool)
      reads `cachedSecond, `cachedCalendar
    {
      !compiled.hasPrivacy && At(second, calendar)
    }

    /** render() for logs with timestamps or privacy tokens. */
    method RenderAt(adjusted: int, calendar: bool) returns (output: string, ghost profile: nat)
      requires Usable() && !Static()
      modifies this, timestampCache, privacyCache
      ensures Usable() && randomState == (if compiled.hasPrivacy then NextState(old(randomState)) else old(randomState))
      ensures profile == if compiled.hasPrivacy then ProfileIndex(randomState) else 0
      ensures old(Valid() && Genuine(Truncated(adjusted), calendar)) ==>
                && Valid() && primed
                && (|| Answered(output, Truncated(adjusted), calendar, profile)
                    || (At(Truncated(adjusted), calendar)
                        && Renewed(output, old(seen), old(Basis(adjusted, calendar)), calendar, profile)))
      ensures old(Valid() && !Genuine(Truncated(adjusted), calendar)) ==>
                && output == Lost(B(), compiled.hasPrivacy, profile)
                && At(Truncated(adjusted), calendar) && timestampCache[..] == Blank(|compiled.segments|)
    {
      if Repeats(Truncated(adjusted), calendar) {
        return cached, 0;
      }
      var index := 0;
      if compiled.hasPrivacy {
        index := NextProfileIndex();
      }
      profile := index;
      output := FindOrRender(adjusted, calendar, index);
    }

    /** render(): the plain rendering, with the drawn profile, at the instant whose timestamps were last made if that is
        of this second and flag, and at this call's otherwise; or an output from the profile cache made in this second
        for this profile. Only when the first second is mistaken for a cached one are the timestamps lost, and the
        stamp cache stays blank. */
    method Render(now: int, calendar: bool) returns (output: string, ghost profile: nat)
      requires Usable()
      modifies this, timestampCache, privacyCache
      ensures Usable() && randomState == (if compiled.hasPrivacy then NextState(old(randomState)) else old(randomState))
      ensures profile == if compiled.hasPrivacy then ProfileIndex(randomState) else 0
      ensures var adjusted := now + offset * NANOS;
              old(Valid() && Genuine(Truncated(adjusted), calendar)) ==>
                && Valid() && (compiled.hasTimestamp ==> primed)
                && (|| Answered(output, Truncated(adjusted), calendar, profile)
                    || ((compiled.hasTimestamp ==> At(Truncated(adjusted), calendar))
                        && Renewed(output, old(seen), old(Basis(adjusted, calendar)), calendar, profile)))
      ensures var adjusted := now + offset * NANOS;
              old(Valid() && !Genuine(Truncated(adjusted), calendar)) ==>
                && output == Lost(B(), compiled.hasPrivacy, profile)
                && At(Truncated(adjusted), calendar) && timestampCache[..] == Blank(|compiled.segments|)
    {
      var adjusted := now + offset * NANOS;
      if !compiled.hasTimestamp && !compiled.hasPrivacy {
        return cached, 0;
      }
      output, profile := RenderAt(adjusted, calendar);
    }
  }

  // ----- a whole history of calls on one log -----

  datatype Call = Call(adjusted: int, calendar: bool)

  /** Two calls the caches cannot tell apart. */
  predicate Alike(c: Call, d: Call) {
    Truncated(c.adjusted) == Truncated(d.adjusted) && c.calendar == d.calendar
  }

  /** Calls of one second and flag follow one another, as they do under a clock that never goes back. */
  ghost predicate Contiguous(calls: seq<Call>) {
    forall j, k, i :: 0 <= j < k < i < |calls| && Alike(calls[j], calls[i]) ==> Alike(calls[k], calls[i])
  }

  /** First call of the unbroken run of alike calls that ends with the i-th. */
  function RunStart(calls: seq<Call>, i: nat): (j: nat)
    requires i < |calls|
    ensures j <= i && Alike(calls[j], calls[i])
  {
    if i > 0 && Alike(calls[i - 1], calls[i]) then RunStart(calls, i - 1) else i
  }

  lemma {:induction false} RunStartUnique(calls: seq<Call>, j: nat, i: nat)
    requires Contiguous(calls) && j <= i < |calls| && Alike(calls[j], calls[i])
    ensures RunStart(calls, i) == RunStart(calls, j)
  {
    if j < i {
      assert Alike(calls[i - 1], calls[i]);
      RunStartUnique(calls, j, i - 1);
    }
  }

  /** The i-th output is plain rendering at the instant of this call or an earlier one of the same second and flag. */
  ghost predicate FromHistory(b: Bound, calls: seq<Call>, i: nat, output: string, profile: nat)
    requires i < |calls|
  {
    exists j :: 0 <= j <= i && Alike(calls[j], calls[i]) && output == Plain(b, calls[j].adjusted, calls[j].calendar, profile)
  }

  /** The i-th output is plain rendering at the instant at which its run of alike calls began. */
  ghost predicate FromRun(b: Bound, calls: seq<Call>, i: nat, output: string, profile: nat)
    requires i < |calls|
  {
    output == Plain(b, calls[RunStart(calls, i)].adjusted, calls[i].calendar, profile)
  }

  /** This instant is that of one of the first n calls, which began a run if every output is exact. */
  ghost predicate Began(calls: seq<Call>, n: nat, exact: bool, instant: int, calendar: bool)
    requires n <= |calls|
  {
    exists j: nat :: j < n && calls[j] == Call(instant, calendar) && (exact ==> RunStart(calls, j) == j)
  }

  ghost predicate SeenBegan(seen: Seen, calls: seq<Call>, n: nat, exact: bool)
    requires n <= |calls|
  {
    forall instant: int, calendar: bool :: (instant, calendar) in seen ==> Began(calls, n, exact, instant, calendar)
  }

  /** Without profile outputs, or under a clock that never goes back, every output shows the start of its run. */
  ghost predicate Exact(compiled: CompiledLog, calls: seq<Call>) {
    !compiled.cacheProfiles || Contiguous(calls)
  }

  /** The first call of a log with timestamps falls in the second that the caches start with. */
  predicate Mistaken(compiled: CompiledLog, calls: seq<Call>) {
    compiled.hasTimestamp && calls != [] && Truncated(calls[0].adjusted) == -1 && !calls[0].calendar
  }

  /** Profile of the i-th call: the generator advances once per call, if the log has privacy tokens at all. */
  function ProfileOf(compiled: CompiledLog, state: bv64, i: nat): nat {
    if compiled.hasPrivacy then ProfileIndex(StateAfter(state, i + 1)) else 0
  }

  /** The i-th output is as good as it can be. */
  ghost predicate Good(b: Bound, calls: seq<Call>, i: nat, exact: bool, output: string, profile: nat)
    requires i < |calls|
  {
    FromHistory(b, calls, i, output, profile) && (exact ==> FromRun(b, calls, i, output, profile))
  }

  lemma UntimedIsGood(b: Bound, compiled: CompiledLog, calls: seq<Call>, i: nat, exact: bool, output: string, profile: nat)
    requires CompiledFrom(compiled, b.segments) && !compiled.hasTimestamp && i < |calls|
    requires output == Plain(b, 0, false, profile)
    ensures Good(b, calls, i, exact, output, profile)
  {
    var start := calls[RunStart(calls, i)];
    PlainIndependent(b, 0, false, profile, start.adjusted, start.calendar, profile);
  }

  /** An output from the profile cache shows an earlier call of its second; under a clock that never goes back, the start of its run. */
  lemma AnsweredIsGood(b: Bound, calls: seq<Call>, i: nat, exact: bool, output: string, seen: Seen, profile: nat)
    requires i < |calls| && SeenBegan(seen, calls, i, exact) && (exact ==> Contiguous(calls))
    requires Rendered(b, output, seen, Truncated(calls[i].adjusted), calls[i].calendar, profile)
    ensures Good(b, calls, i, exact, output, profile)
    ensures exact ==> i > 0 && Alike(calls[i - 1], calls[i])
  {
    var c := calls[i];
    var instant: int :| (instant, c.calendar) in seen && Truncated(instant) == Truncated(c.adjusted)
                        && output == Plain(b, instant, c.calendar, profile);
    assert Began(calls, i, exact, instant, c.calendar);
    var j: nat :| j < i && calls[j] == Call(instant, c.calendar) && (exact ==> RunStart(calls, j) == j);
    assert Alike(calls[j], calls[i]);
    if exact {
      RunStartUnique(calls, j, i);
    }
  }

  /** Where the caches stand between two calls when every output is exact. */
  ghost predicate Standing(calls: seq<Call>, i: nat, second: int, calendar: bool, made: int)
    requires i <= |calls|
  {
    i > 0 ==> second == Truncated(calls[i - 1].adjusted) && calendar == calls[i - 1].calendar
              && made == calls[RunStart(calls, i - 1)].adjusted
  }

  lemma SeenOneMore(seen: Seen, calls: seq<Call>, i: nat, exact: bool, made: int, calendar: bool)
    requires i < |calls| && SeenBegan(seen, calls, i, exact) && Began(calls, i + 1, exact, made, calendar)
    ensures SeenBegan(seen + {(made, calendar)}, calls, i + 1, exact)
  {
    forall instant: int, flag: bool | (instant, flag) in seen + {(made, calendar)}
      ensures Began(calls, i + 1, exact, instant, flag)
    {
      if (instant, flag) in seen {
        assert Began(calls, i, exact, instant, flag);
      }
    }
  }

  /** The cached instant is shown again: it is that of an earlier call; if every output is exact, the start of the run. */
  lemma KeptBegan(calls: seq<Call>, i: nat, exact: bool, seen: Seen, second: int, calendar: bool, made: int)
    requires 0 < i < |calls| && SeenBegan(seen, calls, i, exact) && (exact ==> Standing(calls, i, second, calendar, made))
    requires (made, calendar) in seen && Truncated(made) == second == Truncated(calls[i].adjusted) && calendar == calls[i].calendar
    ensures Began(calls, i + 1, exact, made, calendar) && (exact ==> made == calls[RunStart(calls, i)].adjusted)
    ensures exists j :: 0 <= j <= i && Alike(calls[j], calls[i]) && calls[j] == Call(made, calendar)
  {
    assert Began(calls, i, exact, made, calendar);
    var j: nat :| j < i && calls[j] == Call(made, calendar) && (exact ==> RunStart(calls, j) == j);
    assert Alike(calls[j], calls[i]);
    assert exact ==> Alike(calls[i - 1], calls[i]);
  }

  /** Otherwise this call's own instant is shown, which begins a run if every output is exact. */
  lemma OwnBegan(calls: seq<Call>, i: nat, exact: bool, second: int, calendar: bool, before: int)
    requires i < |calls| && (exact ==> Standing(calls, i, second, calendar, before))
    requires i > 0 ==> !(second == Truncated(calls[i].adjusted) && calendar == calls[i].calendar)
    ensures Began(calls, i + 1, exact, calls[i].adjusted, calls[i].calendar)
    ensures exact ==> RunStart(calls, i) == i
  {
    assert calls[i] == Call(calls[i].adjusted, calls[i].calendar);
  }

  /** The instant that a new rendering shows is that of an earlier call, or this one; if every output is exact, the start of the run. */
  lemma RenewedIsGood(b: Bound, calls: seq<Call>, i: nat, exact: bool, output: string, seen: Seen, profile: nat,
                      primed: bool, second: int, calendar: bool, before: int, made: int)
    requires i < |calls| && SeenBegan(seen, calls, i, exact) && (exact ==> Standing(calls, i, second, calendar, before))
    requires primed ==> (before, calendar) in seen && Truncated(before) == second
    requires primed <==> i > 0
    requires var c := calls[i];
             made == if primed && second == Truncated(c.adjusted) && calendar == c.calendar then before else c.adjusted
    requires output == Plain(b, made, calls[i].calendar, profile)
    ensures Good(b, calls, i, exact, output, profile)
    ensures SeenBegan(seen + {(made, calls[i].calendar)}, calls, i + 1, exact)
    ensures exact ==> made == calls[RunStart(calls, i)].adjusted
  {
    var c := calls[i];
    if primed && second == Truncated(c.adjusted) && calendar == c.calendar {
      KeptBegan(calls, i, exact, seen, second, calendar, made);
    } else {
      OwnBegan(calls, i, exact, second, calendar, before);
      assert Alike(calls[i], calls[i]);
    }
    SeenOneMore(seen, calls, i, exact, made, c.calendar);
  }

  lemma SeenBeganStays(seen: Seen, calls: seq<Call>, i: nat, exact: bool)
    requires i < |calls| && SeenBegan(seen, calls, i, exact)
    ensures SeenBegan(seen, calls, i + 1, exact)
  {
    forall instant: int, flag: bool | (instant, flag) in seen ensures Began(calls, i + 1, exact, instant, flag) {
      assert Began(calls, i, exact, instant, flag);
    }
  }

  /** Where a log stands after its first i calls. */
  ghost predicate After(log: PreparedLog, calls: seq<Call>, i: nat, exact: bool)
    reads log, log.timestampCache, log.privacyCache
    requires i <= |calls|
  {
    && log.Valid()
    && (log.compiled.hasTimestamp ==>
          && (log.primed <==> i > 0) && SeenBegan(log.seen, calls, i, exact)
          && (exact ==> Standing(calls, i, log.cachedSecond, log.cachedCalendar, log.made)))
  }

  /** One call of a history. */
  method RenderNext(log: PreparedLog, calls: seq<Call>, i: nat, ghost exact: bool) returns (output: string, ghost profile: nat)
    requires log.Usable() && i < |calls| && (exact ==> Exact(log.compiled, calls))
    modifies log, log.timestampCache, log.privacyCache
    ensures log.Usable()
    ensures log.randomState == if log.compiled.hasPrivacy then NextState(old(log.randomState)) else old(log.randomState)
    ensures profile == if log.compiled.hasPrivacy then ProfileIndex(log.randomState) else 0
    ensures old(After(log, calls, i, exact) && log.Genuine(Truncated(calls[i].adjusted), calls[i].calendar)) ==>
              After(log, calls, i + 1, exact) && Good(log.B(), calls, i, exact, output, profile)
    ensures old(log.Valid() && !log.Genuine(Truncated(calls[i].adjusted), calls[i].calendar)) ==>
              output == Lost(log.B(), log.compiled.hasPrivacy, profile)
  {
    var c := calls[i];
    ghost var sound := After(log, calls, i, exact) && log.Genuine(Truncated(c.adjusted), c.calendar);
    ghost var seen, primed, second, calendar, made := log.seen, log.primed, log.cachedSecond, log.cachedCalendar, log.made;
    output, profile := log.Render(c.adjusted - log.offset * NANOS, c.calendar);
    if sound {
      if !log.compiled.hasTimestamp {
        UntimedIsGood(log.B(), log.compiled, calls, i, exact, output, profile);
      } else if log.Renewed(output, seen, if primed && second == Truncated(c.adjusted) && calendar == c.calendar then made else c.adjusted, c.calendar, profile)
                && log.At(Truncated(c.adjusted), c.calendar) {
        RenewedIsGood(log.B(), calls, i, exact, output, seen, profile, primed, second, calendar, made, log.made);
      } else {
        AnsweredIsGood(log.B(), calls, i, exact, output, seen, profile);
        SeenBeganStays(seen, calls, i, exact);
      }
    }
  }

  /** State of the generator after i calls. */
  function Drawn(compiled: CompiledLog, state: bv64, i: nat): bv64 {
    if compiled.hasPrivacy then StateAfter(state, i) else state
  }

  /** The outputs so far are all good. */
  ghost predicate AllGood(b: Bound, compiled: CompiledLog, calls: seq<Call>, exact: bool, outputs: seq<string>, state: bv64)
    requires |outputs| <= |calls|
  {
    forall k :: 0 <= k < |outputs| ==> Good(b, calls, k, exact, outputs[k], ProfileOf(compiled, state, k))
  }

  /** The first output, if there is one, is wrong. */
  ghost predicate FirstWrong(b: Bound, compiled: CompiledLog, calls: seq<Call>, outputs: seq<string>, state: bv64)
    requires |outputs| <= |calls|
  {
    outputs != [] ==> !FromHistory(b, calls, 0, outputs[0], ProfileOf(compiled, state, 0))
  }

  lemma FirstIsLost(b: Bound, compiled: CompiledLog, calls: seq<Call>, output: string, state: bv64)
    requires CompiledFrom(compiled, b.segments)
    requires calls != [] && Visible(b, compiled.hasPrivacy, calls[0].adjusted, calls[0].calendar)
    requires output == Lost(b, compiled.hasPrivacy, ProfileOf(compiled, state, 0))
    ensures FirstWrong(b, compiled, calls, [output], state)
  {
    LostIsWrong(b, compiled.hasPrivacy, calls[0].adjusted, calls[0].calendar, ProfileOf(compiled, state, 0));
  }

  lemma AllGoodSnoc(b: Bound, compiled: CompiledLog, calls: seq<Call>, exact: bool, outputs: seq<string>, output: string, state: bv64)
    requires |outputs| < |calls| && AllGood(b, compiled, calls, exact, outputs, state)
    requires Good(b, calls, |outputs|, exact, output, ProfileOf(compiled, state, |outputs|))
    ensures AllGood(b, compiled, calls, exact, outputs + [output], state)
  {
  }

  /** A log and the outputs it gave out for the first calls. */
  ghost predicate InHistory(log: PreparedLog, calls: seq<Call>, outputs: seq<string>, state: bv64)
    reads log, log.timestampCache, log.privacyCache
  {
    && log.Usable() && |outputs| <= |calls| && log.randomState == Drawn(log.compiled, state, |outputs|)
    && (outputs == [] ==> log.Valid() && !log.primed)
    && if Mistaken(log.compiled, calls) then FirstWrong(log.B(), log.compiled, calls, outputs, state)
       else After(log, calls, |outputs|, Exact(log.compiled, calls))
            && AllGood(log.B(), log.compiled, calls, Exact(log.compiled, calls), outputs, state)
  }

  lemma NotMistaken(log: PreparedLog, calls: seq<Call>, i: nat)
    requires i < |calls| && After(log, calls, i, Exact(log.compiled, calls)) && !Mistaken(log.compiled, calls)
    ensures log.Genuine(Truncated(calls[i].adjusted), calls[i].calendar)
  {
  }

  /** One more call. */
  method Continue(log: PreparedLog, calls: seq<Call>, outputs: seq<string>, ghost state: bv64) returns (next: seq<string>)
    requires InHistory(log, calls, outputs, state) && |outputs| < |calls|
    requires Visible(log.B(), log.compiled.hasPrivacy, calls[0].adjusted, calls[0].calendar)
    modifies log, log.timestampCache, log.privacyCache
    ensures |next| == |outputs| + 1 && InHistory(log, calls, next, state)
  {
    var n := |outputs|;
    ghost var b, compiled := log.B(), log.compiled;
    ghost var exact, mistaken := Exact(compiled, calls), Mistaken(compiled, calls);
    if !mistaken {
      NotMistaken(log, calls, n);
    }
    var output;
    ghost var profile;
    output, profile := RenderNext(log, calls, n, exact);
    assert profile == ProfileOf(compiled, state, n);
    next := outputs + [output];
    if !mistaken {
      AllGoodSnoc(b, compiled, calls, exact, outputs, output, state);
    } else if n == 0 {
      assert next == [output];
      FirstIsLost(b, compiled, calls, output, state);
    } else {
      assert next[0] == outputs[0];
    }
  }

  /** Renders a sequence of calls on a fresh log. Every output is plain rendering at the instant of an alike call, unless
      the first call is mistaken for a cached second; and under a clock that never goes back that instant is the start
      of the run of alike calls. */
  method RenderHistory(log: PreparedLog, calls: seq<Call>) returns (outputs: seq<string>)
    requires log.Valid() && !log.primed && log.seen == {}
    requires calls != [] ==> Visible(log.B(), log.compiled.hasPrivacy, calls[0].adjusted, calls[0].calendar)
    modifies log, log.timestampCache, log.privacyCache
    ensures |outputs| == |calls|
    ensures (forall i :: 0 <= i < |calls| ==>
               FromHistory(log.B(), calls, i, outputs[i], ProfileOf(log.compiled, old(log.randomState), i)))
            <==> !Mistaken(log.compiled, calls)
    ensures !Mistaken(log.compiled, calls) && Exact(log.compiled, calls) ==>
              forall i :: 0 <= i < |calls| ==>
                FromRun(log.B(), calls, i, outputs[i], ProfileOf(log.compiled, old(log.randomState), i))
  {
    outputs := [];
    ghost var state := log.randomState;
    while |outputs| < |calls|
      invariant InHistory(log, calls, outputs, state)
    {
      outputs := Continue(log, calls, outputs, state);
    }
  }

  /** An output that shows the start of its run is byte for byte the plain one exactly when the shown digits of that
      instant are those of its own call. */
  lemma HistoryIsExact(b: Bound, calls: seq<Call>, i: nat, output: string, profile: nat)
    requires i < |calls| && FromRun(b, calls, i, output, profile)
    requires SameSecond(calls[RunStart(calls, i)].adjusted, calls[i].adjusted)
    ensures output == Plain(b, calls[i].adjusted, calls[i].calendar, profile)
            <==> SameDigits(b, calls[RunStart(calls, i)].adjusted, calls[i].adjusted)
  {
    PlainEqualExactly(b, calls[RunStart(calls, i)].adjusted, calls[i].adjusted, calls[i].calendar, profile);
  }

  /** In any history, with or without profile outputs, an output is the plain one when no alike call before it has
      other shown digits. */
  lemma HistoryIsExactWhen(b: Bound, calls: seq<Call>, i: nat, output: string, profile: nat)
    requires i < |calls| && FromHistory(b, calls, i, output, profile)
    requires forall j :: 0 <= j <= i && Alike(calls[j], calls[i]) ==>
               SameSecond(calls[j].adjusted, calls[i].adjusted) && SameDigits(b, calls[j].adjusted, calls[i].adjusted)
    ensures output == Plain(b, calls[i].adjusted, calls[i].calendar, profile)
  {
    var j :| 0 <= j <= i && Alike(calls[j], calls[i]) && output == Plain(b, calls[j].adjusted, calls[j].calendar, profile);
    PlainEqualExactly(b, calls[j].adjusted, calls[i].adjusted, calls[i].calendar, profile);
  }

  /** From the epoch on, rounding the second down and truncating it agree. */
  lemma AlikeSinceEpoch(c: Call, d: Call)
    requires Alike(c, d) && c.adjusted >= 0 && d.adjusted >= 0
    ensures SameSecond(c.adjusted, d.adjusted)
  {
  }

  /** Calls under a clock that never goes back, all with one calendar flag. */
  lemma ClockIsContiguous(calls: seq<Call>)
    requires forall j, i :: 0 <= j < i < |calls| ==> calls[j].adjusted <= calls[i].adjusted && calls[j].calendar == calls[i].calendar
    ensures Contiguous(calls)
  {
    forall j, k, i | 0 <= j < k < i < |calls| && Alike(calls[j], calls[i]) ensures Alike(calls[k], calls[i]) {
      TruncatedMonotone(calls[j].adjusted, calls[k].adjusted);
      TruncatedMonotone(calls[k].adjusted, calls[i].adjusted);
    }
  }

  lemma TruncatedMonotone(i1: int, i2: int)
    requires i1 <= i2
    ensures Truncated(i1) <= Truncated(i2)
  {
  }

  /** A log that shows a fractional digit, rendered at the epoch and again half a second later, gives out the epoch twice. */
  lemma FractionIsFrozen(b: Bound, k: nat, calendar: bool, output: string, profile: nat)
    requires k < |b.segments| && b.segments[k].Timestamp? && ShownDigits(b.segments[k].token) > 0
    requires FromRun(b, [Call(0, calendar), Call(NANOS / 2, calendar)], 1, output, profile)
    ensures output == Plain(b, 0, calendar, profile) != Plain(b, NANOS / 2, calendar, profile)
  {
    HalfSecondDiffers(b, k, calendar, profile);
  }

  /** The first rendering of a log of one segment that is not a timestamp: the literal text, the bound source or destination
      address, or the synthetic value of the profile that the first draw gives. */
  method RenderOne(log: PreparedLog, now: int, calendar: bool) returns (output: string)
    requires log.Valid() && !log.primed && |log.compiled.segments| == 1 && !log.compiled.segments[0].Timestamp?
    modifies log, log.timestampCache, log.privacyCache
    ensures var segment := log.compiled.segments[0];
            && (segment.LiteralText? ==> output == segment.text)
            && (segment.SourceIp? ==> output == log.sourceIp)
            && (segment.DestinationIp? ==> output == log.destinationIp)
            && (segment.Privacy? ==> output == log.formats.synthetic(segment.kind, ProfileIndex(NextState(old(log.randomState)))))
  {
    ghost var profile;
    assert !log.compiled.hasTimestamp;
    output, profile := log.Render(now, calendar);
    OneSegmentShows(log.B(), 0, false, profile);
  }

  /** The first rendering of a log with timestamps is right exactly when its truncated second cannot be taken
      for the initial cached second, which is that of the instants in (-2 s, -1 s] with the calendar flag off. */
  method FirstRendering(log: PreparedLog, now: int, calendar: bool) returns (output: string, ghost profile: nat)
    requires log.Valid() && !log.primed && log.compiled.hasTimestamp
    requires Visible(log.B(), log.compiled.hasPrivacy, now + log.offset * NANOS, calendar)
    modifies log, log.timestampCache, log.privacyCache
    ensures profile == if log.compiled.hasPrivacy then ProfileIndex(NextState(old(log.randomState))) else 0
    ensures var adjusted := now + log.offset * NANOS;
            output == Plain(log.B(), adjusted, calendar, profile) <==> !(-2 * NANOS < adjusted <= -NANOS && !calendar)
  {
    output, profile := log.Render(now, calendar);
    if Truncated(now + log.offset * NANOS) == -1 && !calendar {
      LostIsWrong(log.B(), log.compiled.hasPrivacy, now + log.offset * NANOS, calendar, profile);
    }
  }
}
