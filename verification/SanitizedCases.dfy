/** What an expanded template is made of: its own text and sanitized values. */
module SanitizedCases {
  import opened Text
  import opened TestCases

  predicate Without(s: string, c: char) { c !in s }

  predicate AllWithout(pieces: seq<string>, c: char) {
    forall i :: 0 <= i < |pieces| ==> Without(pieces[i], c)
  }

  lemma {:induction false} SplitWithout(s: string, marker: string, c: char)
    requires marker != "" && Without(s, c)
    ensures AllWithout(Split(s, marker), c)
    decreases |s|
  {
    if Find(s, marker, 0) != -1 {
      var before, rest := FirstCut(s, marker);
      SplitWithout(rest, marker, c);
    }
  }

  lemma {:induction false} InterleaveWithout(pieces: seq<string>, values: seq<string>, c: char)
    requires |pieces| == |values| + 1 && AllWithout(pieces, c) && AllWithout(values, c)
    ensures Without(Interleave(pieces, values), c)
  {
    assert Without(pieces[0], c);
    if values != [] {
      assert Without(values[0], c);
      assert AllWithout(pieces[1..], c);
      assert AllWithout(values[1..], c);
      InterleaveWithout(pieces[1..], values[1..], c);
    }
  }

  /** Every value, sanitized, is free of the character. */
  predicate SanitizedWithout(groups: seq<Group>, sanitize: string -> string, c: char) {
    forall i :: 0 <= i < |groups| ==> ValuesWithout(groups[i].values, sanitize, c)
  }

  predicate ValuesWithout(values: seq<string>, sanitize: string -> string, c: char) {
    forall k :: 0 <= k < |values| ==> Without(sanitize(values[k]), c)
  }

  lemma SubstitutedWithout(s: string, group: Group, sanitize: string -> string, c: char)
    requires |Split(s, Marker(group.token))| == |group.values| + 1
    requires Without(s, c) && ValuesWithout(group.values, sanitize, c)
    ensures Without(Substituted(s, group, sanitize), c)
  {
    SplitWithout(s, Marker(group.token), c);
    InterleaveWithout(Split(s, Marker(group.token)), Mapped(group.values, sanitize), c);
  }

  /** A character that sanitizing keeps out of every value, and that the template does not have, is not in the result. */
  lemma {:induction false} ExpansionIsSanitized(s: string, groups: seq<Group>, sanitize: string -> string, c: char)
    requires Without(s, c) && SanitizedWithout(groups, sanitize, c)
    ensures var r := ExpandGroups(s, groups, sanitize);
            r.Expanded? ==> Without(r.text, c)
    decreases |groups|
  {
    if groups != [] {
      var group := groups[0];
      if ValidToken(group.token) && |Split(s, Marker(group.token))| == |group.values| + 1 {
        SubstitutedWithout(s, group, sanitize, c);
        assert SanitizedWithout(groups[1..], sanitize, c);
        ExpansionIsSanitized(Substituted(s, group, sanitize), groups[1..], sanitize, c);
      }
    }
  }

  lemma OneCut(before: string, marker: string, after: string)
    requires marker != "" && Find(before + (marker + after), marker, 0) == |before| && Find(after, marker, 0) == -1
    ensures Split(before + (marker + after), marker) == [before, after]
  {
    var s := before + (marker + after);
    assert s[..|before|] == before && s[|before| + |marker|..] == after;
  }

  /** The only marker of a template gives way to the sanitized value, whatever is around it. */
  lemma OneMarkerExpands(before: string, token: string, after: string, value: string, sanitize: string -> string)
    requires ValidToken(token)
    requires Find(before + (Marker(token) + after), Marker(token), 0) == |before| && Find(after, Marker(token), 0) == -1
    ensures ExpandGroups(before + (Marker(token) + after), [Group(token, [value])], sanitize) == Expanded(before + sanitize(value) + after)
  {
    var s, group := before + (Marker(token) + after), Group(token, [value]);
    OneCut(before, Marker(token), after);
    assert Mapped([value], sanitize) == [sanitize(value)];
    InterleaveTwo(before, after, sanitize(value));
    ExpandOne(s, group, sanitize);
  }

  lemma InterleaveTwo(before: string, after: string, value: string)
    ensures Interleave([before, after], [value]) == before + value + after
  {
    assert [before, after][1..] == [after] && [value][1..] == [];
  }

  lemma ExpandOne(s: string, group: Group, sanitize: string -> string)
    requires ValidToken(group.token) && |Split(s, Marker(group.token))| == |group.values| + 1
    ensures ExpandGroups(s, [group], sanitize) == Expanded(Substituted(s, group, sanitize))
  {
    var r := Substituted(s, group, sanitize);
    assert [group][1..] == [];
    assert ExpandGroups(r, [], sanitize) == Expanded(r);
  }
}
