/** Expansion of a template's test-case values into its sample. */
module TestCases {
  import opened Text

  /** One entry of the ordered token map: a token and the values that replace its markers. */
  datatype Group = Group(token: string, values: seq<string>)

  datatype Expansion = Expanded(text: string) | InvalidToken(token: string) | CountMismatch(token: string)

  predicate ValidToken(token: string) {
    token != "" && forall i :: 0 <= i < |token| ==> 'A' <= token[i] <= 'Z' || token[i] == '_'
  }

  function Marker(token: string): string { "{{" + token + "}}" }

  /** The text between the non-overlapping occurrences of a marker, found from left to right. */
  function Split(s: string, marker: string): (pieces: seq<string>)
    requires marker != ""
    ensures |pieces| >= 1
    decreases |s|
  {
    var p := Find(s, marker, 0);
    if p == -1 then [s] else [s[..p]] + Split(s[p + |marker|..], marker)
  }

  /** pieces[0], values[0], pieces[1], values[1], ... */
  function Interleave(pieces: seq<string>, values: seq<string>): string
    requires |pieces| == |values| + 1
  {
    if values == [] then pieces[0] else pieces[0] + values[0] + Interleave(pieces[1..], values[1..])
  }

  function Mapped(values: seq<string>, f: string -> string): (r: seq<string>)
    ensures |r| == |values|
    ensures forall i :: 0 <= i < |r| ==> r[i] == f(values[i])
  {
    seq(|values|, i requires 0 <= i < |values| => f(values[i]))
  }

  /** The meaning of one group: every marker of the original text becomes its value, everything else stays. */
  function Substituted(s: string, group: Group, sanitize: string -> string): string
    requires |Split(s, Marker(group.token))| == |group.values| + 1
  {
    Interleave(Split(s, Marker(group.token)), Mapped(group.values, sanitize))
  }

  function ExpandGroups(s: string, groups: seq<Group>, sanitize: string -> string): Expansion
    decreases |groups|
  {
    if groups == [] then Expanded(s)
    else
      var group := groups[0];
      if !ValidToken(group.token) then InvalidToken(group.token)
      else if |Split(s, Marker(group.token))| != |group.values| + 1 then CountMismatch(group.token)
      else ExpandGroups(Substituted(s, group, sanitize), groups[1..], sanitize)
  }

  function Join(pieces: seq<string>, marker: string): string
    requires pieces != []
  {
    if |pieces| == 1 then pieces[0] else pieces[0] + (marker + Join(pieces[1..], marker))
  }

  /** The first marker of the joined text is the one after the first piece, and so on for the rest. */
  ghost predicate Clean(pieces: seq<string>, marker: string)
    requires pieces != []
  {
    if |pieces| == 1 then Find(pieces[0], marker, 0) == -1
    else Find(Join(pieces, marker), marker, 0) == |pieces[0]| && Clean(pieces[1..], marker)
  }

  /** Cutting at the markers loses nothing. */
  lemma {:induction false} SplitTiles(s: string, marker: string)
    requires marker != ""
    ensures Join(Split(s, marker), marker) == s
    decreases |s|
  {
    if Find(s, marker, 0) != -1 {
      var before, rest := FirstCut(s, marker);
      SplitTiles(rest, marker);
      JoinCons(before, Split(rest, marker), marker);
    }
  }

  /** The first cut: what is before the first marker and what is behind it. */
  lemma FirstCut(s: string, marker: string) returns (before: string, rest: string)
    requires marker != "" && Find(s, marker, 0) != -1
    ensures |rest| < |s| && s == before + (marker + rest)
    ensures Split(s, marker) == [before] + Split(rest, marker)
  {
    var p := Find(s, marker, 0);
    before, rest := s[..p], s[p + |marker|..];
    CutAtMarker(s, marker);
  }

  /** Cutting leaves no marker behind. */
  lemma {:induction false} SplitIsClean(s: string, marker: string)
    requires marker != ""
    ensures Clean(Split(s, marker), marker)
    decreases |s|
  {
    var p := Find(s, marker, 0);
    if p != -1 {
      SplitIsClean(s[p + |marker|..], marker);
      SplitTiles(s, marker);
      CleanCons(s[..p], Split(s[p + |marker|..], marker), marker);
    }
  }

  lemma CleanCons(piece: string, pieces: seq<string>, marker: string)
    requires pieces != [] && Clean(pieces, marker)
    requires Find(Join([piece] + pieces, marker), marker, 0) == |piece|
    ensures Clean([piece] + pieces, marker)
  {
    assert ([piece] + pieces)[1..] == pieces;
  }

  lemma JoinCons(piece: string, pieces: seq<string>, marker: string)
    requires pieces != []
    ensures Join([piece] + pieces, marker) == piece + (marker + Join(pieces, marker))
  {
    assert ([piece] + pieces)[1..] == pieces;
  }

  lemma CutAtMarker(s: string, marker: string)
    requires Find(s, marker, 0) != -1
    ensures var p := Find(s, marker, 0);
            s == s[..p] + (marker + s[p + |marker|..])
  {
    FindIsFirst(s, marker, 0);
  }

  /** A search that starts after `done` meets the next marker after the next piece. */
  lemma NextMarker(done: string, pieces: seq<string>, marker: string)
    requires marker != "" && pieces != [] && Clean(pieces, marker)
    ensures Find(done + Join(pieces, marker), marker, |done|) ==
            if |pieces| == 1 then -1 else |done| + |pieces[0]|
  {
    FindShift(done + Join(pieces, marker), marker, |done|, 0);
    assert (done + Join(pieces, marker))[|done|..] == Join(pieces, marker);
  }

  method CountOccurrences(input: string, marker: string) returns (count: nat)
    requires marker != ""
    ensures count + 1 == |Split(input, marker)|
  {
    count := 0;
    var position := 0;
    ghost var done, pieces := "", Split(input, marker);
    SplitTiles(input, marker);
    SplitIsClean(input, marker);
    assert input == "" + input;
    while true
      invariant pieces != [] && Clean(pieces, marker)
      invariant input == done + Join(pieces, marker) && position == |done|
      invariant count + |pieces| == |Split(input, marker)|
      decreases |pieces|
    {
      NextMarker(done, pieces, marker);
      var found := Find(input, marker, position);
      if found == -1 {
        return;
      }
      count := count + 1;
      position := found + |marker|;
      AppendFirst(done, pieces[0], marker, Join(pieces[1..], marker));
      done, pieces := done + pieces[0] + marker, pieces[1..];
    }
  }

  lemma AppendFirst(done: string, piece: string, marker: string, rest: string)
    ensures done + (piece + (marker + rest)) == done + piece + marker + rest
  {
  }

  function Replace(s: string, position: nat, length: nat, value: string): string
    requires position + length <= |s|
  {
    s[..position] + value + s[position + length..]
  }

  lemma ReplaceMarker(done: string, piece: string, marker: string, rest: string, value: string)
    ensures Replace(done + (piece + (marker + rest)), |done| + |piece|, |marker|, value) == (done + piece + value) + rest
  {
    var s := done + (piece + (marker + rest));
    assert s[..|done| + |piece|] == done + piece;
    assert s[|done| + |piece| + |marker|..] == rest;
  }

  lemma InterleaveAt(done: string, pieces: seq<string>, values: seq<string>, i: nat)
    requires i < |values| && |pieces| == |values| - i + 1
    ensures done + Interleave(pieces, values[i..]) == (done + pieces[0] + values[i]) + Interleave(pieces[1..], values[i + 1..])
  {
    var rest := values[i..];
    assert rest[0] == values[i] && rest[1..] == values[i + 1..];
    Associate(done, pieces[0] + values[i], Interleave(pieces[1..], values[i + 1..]));
    Associate(done, pieces[0], values[i]);
  }

  /** The text during the loop: the finished part, then the pieces that still have markers between them. */
  ghost predicate Progress(text: string, search: nat, pieces: seq<string>, marker: string, values: seq<string>, i: nat, target: string) {
    && i <= |values| && |pieces| == |values| - i + 1 && Clean(pieces, marker)
    && search <= |text| && text == text[..search] + Join(pieces, marker)
    && text[..search] + Interleave(pieces, values[i..]) == target
  }

  lemma ReplaceStep(text: string, search: nat, pieces: seq<string>, marker: string, values: seq<string>, i: nat, target: string)
    requires marker != "" && i < |values|
    requires Progress(text, search, pieces, marker, values, i, target)
    ensures var position := Find(text, marker, search);
            && position != -1
            && Progress(Replace(text, position, |marker|, values[i]), position + |values[i]|, pieces[1..], marker, values, i + 1, target)
  {
    var done, rest := text[..search], Join(pieces[1..], marker);
    NextMarker(done, pieces, marker);
    ReplaceMarker(done, pieces[0], marker, rest, values[i]);
    InterleaveAt(done, pieces, values, i);
    assert (done + pieces[0] + values[i] + rest)[..|done + pieces[0] + values[i]|] == done + pieces[0] + values[i];
  }

  /** The in-place loop: no search misses, and a value is never searched again, whatever it contains. */
  method ReplaceMarkers(text: string, marker: string, values: seq<string>, sanitize: string -> string) returns (result: string)
    requires marker != "" && |Split(text, marker)| == |values| + 1
    ensures result == Interleave(Split(text, marker), Mapped(values, sanitize))
  {
    ghost var pieces, sanitized := Split(text, marker), Mapped(values, sanitize);
    ghost var target := Interleave(pieces, sanitized);
    result := text;
    var search := 0;
    SplitTiles(text, marker);
    SplitIsClean(text, marker);
    assert sanitized[0..] == sanitized && text == text[..0] + text && text[..0] + target == target;
    for i := 0 to |values|
      invariant search >= 0 && Progress(result, search, pieces, marker, sanitized, i, target)
    {
      ReplaceStep(result, search, pieces, marker, sanitized, i, target);
      var position := Find(result, marker, search);
      var value := sanitize(values[i]);
      result := Replace(result, position, |marker|, value);
      search := position + |value|;
      pieces := pieces[1..];
    }
  }

  method ExpandTestCase(sample: string, groups: seq<Group>, sanitize: string -> string) returns (r: Expansion)
    ensures r == ExpandGroups(sample, groups, sanitize)
  {
    var result := sample;
    assert groups[0..] == groups;
    for i := 0 to |groups|
      invariant ExpandGroups(result, groups[i..], sanitize) == ExpandGroups(sample, groups, sanitize)
    {
      var group := groups[i];
      if !ValidToken(group.token) {
        return InvalidToken(group.token);
      }
      var count := CountOccurrences(result, Marker(group.token));
      if count != |group.values| {
        return CountMismatch(group.token);
      }
      assert groups[i..][1..] == groups[i + 1..];
      result := ReplaceMarkers(result, Marker(group.token), group.values, sanitize);
    }
    return Expanded(result);
  }

  // ----- the list of strings a test case is keyed by does not say where a token's values end -----

  function Flat(groups: seq<Group>): seq<string> {
    if groups == [] then [] else [groups[0].token] + groups[0].values + Flat(groups[1..])
  }

  function MapGroups(groups: seq<Group>, f: string -> string): seq<Group> {
    if groups == [] then []
    else [Group(groups[0].token, Mapped(groups[0].values, f))] + MapGroups(groups[1..], f)
  }

  /** Yet two groupings of one list that both pass the marker count are the same grouping. */
  lemma {:induction false} GroupingIsUnique(s: string, a: seq<Group>, b: seq<Group>, tokenize: string -> string, sanitize: string -> string)
    requires Flat(a) == Flat(b)
    requires ExpandGroups(s, MapGroups(a, tokenize), sanitize).Expanded?
    requires ExpandGroups(s, MapGroups(b, tokenize), sanitize).Expanded?
    ensures a == b
    decreases |a|
  {
    if a == [] || b == [] {
      assert Flat([]) == [];
      assert a != [] ==> |Flat(a)| >= 1;
      assert b != [] ==> |Flat(b)| >= 1;
    } else {
      var n := |a[0].values|;
      assert Flat(a)[0] == a[0].token && Flat(b)[0] == b[0].token;
      assert |b[0].values| == n == |Split(s, Marker(a[0].token))| - 1;
      assert Flat(a)[1..n + 1] == a[0].values && Flat(b)[1..n + 1] == b[0].values;
      assert Flat(a)[n + 1..] == Flat(a[1..]) && Flat(b)[n + 1..] == Flat(b[1..]);
      var mapped := MapGroups(a, tokenize);
      assert mapped[1..] == MapGroups(a[1..], tokenize);
      assert MapGroups(b, tokenize)[1..] == MapGroups(b[1..], tokenize);
      assert a[0] == b[0];
      GroupingIsUnique(Substituted(s, mapped[0], sanitize), a[1..], b[1..], tokenize, sanitize);
      assert a == [a[0]] + a[1..] && b == [b[0]] + b[1..];
    }
  }
}
