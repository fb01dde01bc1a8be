/** The replacements that sanitizing starts with, and what they do to the names of test-case tokens. */
module BrandNames {
  import opened Text
  import opened TestCases
  import opened PreparationCache

  /** std::tolower on ASCII. */
  function Lower(c: char): char {
    if 'A' <= c <= 'Z' then (c as int + 32) as char else c
  }

  predicate MatchesAt(value: string, needle: string, position: nat) {
    position + |needle| <= |value| && forall i :: 0 <= i < |needle| ==> Lower(value[position + i]) == Lower(needle[i])
  }

  /** Every occurrence from left to right, whatever its case; a replacement is not searched again. */
  function Replaced(value: string, needle: string, replacement: string): string
    requires needle != ""
    decreases |value|
  {
    if |value| < |needle| then value
    else if MatchesAt(value, needle, 0) then replacement + Replaced(value[|needle|..], needle, replacement)
    else [value[0]] + Replaced(value[1..], needle, replacement)
  }

  lemma MatchesFurtherOn(value: string, needle: string, position: nat)
    requires position <= |value|
    ensures MatchesAt(value, needle, position) <==> MatchesAt(value[position..], needle, 0)
  {
    var rest := value[position..];
    assert forall i :: 0 <= i < |rest| ==> rest[i] == value[position + i];
  }

  lemma KeepOne(value: string, position: nat, target: string, rest: string)
    requires position < |value| && value[..position] + ([value[position]] + rest) == target
    ensures value[..position + 1] + rest == target
  {
    assert value[..position + 1] == value[..position] + [value[position]];
    Associate(value[..position], [value[position]], rest);
  }

  lemma ReplaceOne(value: string, position: nat, length: nat, replacement: string, target: string, rest: string)
    requires position + length <= |value| && value[..position] + (replacement + rest) == target
    ensures var next := Replace(value, position, length, replacement);
            && next[..position + |replacement|] + rest == target
            && next[position + |replacement|..] == value[position + length..]
  {
    var next := Replace(value, position, length, replacement);
    assert next[..position + |replacement|] == value[..position] + replacement;
    Associate(value[..position], replacement, rest);
  }

  /** The loop replaces in place and goes on behind the replacement. */
  method ReplaceIgnoringCase(value: string, needle: string, replacement: string) returns (result: string)
    ensures result == if needle == "" then value else Replaced(value, needle, replacement)
  {
    result := value;
    if needle == "" || |value| < |needle| {
      return;
    }
    var position := 0;
    ghost var target := Replaced(value, needle, replacement);
    assert value[..0] + Replaced(value[0..], needle, replacement) == target by { assert value[0..] == value; }
    while position + |needle| <= |result|
      invariant 0 <= position <= |result|
      invariant result[..position] + Replaced(result[position..], needle, replacement) == target
      decreases |result| - position
    {
      MatchesFurtherOn(result, needle, position);
      if !MatchesAt(result, needle, position) {
        assert result[position..][1..] == result[position + 1..];
        KeepOne(result, position, target, Replaced(result[position + 1..], needle, replacement));
        position := position + 1;
      } else {
        assert result[position..][|needle|..] == result[position + |needle|..];
        ReplaceOne(result, position, |needle|, replacement, target, Replaced(result[position + |needle|..], needle, replacement));
        result := Replace(result, position, |needle|, replacement);
        position := position + |replacement|;
      }
    }
    assert result == result[..position] + result[position..];
  }

  function Brands(s: string): string {
    var a := Replaced(s, "test123", "Your-Company");
    var b := Replaced(a, "lottermart", "Your-Company");
    var c := Replaced(b, "lottemart", "Your-Company");
    var d := Replaced(c, "lotte", "Your");
    Replaced(d, "mart", "company")
  }

  // ----- no brand name is left -----

  ghost predicate Absent(value: string, name: string) { forall i: nat :: !MatchesAt(value, name, i) }

  predicate HasLetter(name: string, c: char) { exists i :: 0 <= i < |name| && Lower(name[i]) == Lower(c) }

  /** The replacement brings no part of the name with it: neither its first nor its last letter is one of the name. */
  predicate BringsNoPart(replacement: string, name: string) {
    && replacement != "" && name != ""
    && !HasLetter(name, replacement[0]) && !HasLetter(name, replacement[|replacement| - 1])
  }

  /** The first m characters of a result are those of the text, or a replacement begins among them. */
  lemma {:induction false} UntouchedPrefix(value: string, needle: string, replacement: string, m: nat)
    requires needle != "" && replacement != "" && m <= |Replaced(value, needle, replacement)|
    ensures var r := Replaced(value, needle, replacement);
            || (m <= |value| && r[..m] == value[..m])
            || exists k :: 0 <= k < m && r[k] == replacement[0]
    decreases |value|
  {
    var r := Replaced(value, needle, replacement);
    if m > 0 && |value| >= |needle| {
      if MatchesAt(value, needle, 0) {
        assert r[0] == replacement[0];
      } else {
        var rest := Replaced(value[1..], needle, replacement);
        UntouchedPrefix(value[1..], needle, replacement, m - 1);
        if k :| 0 <= k < m - 1 && rest[k] == replacement[0] {
          assert r[k + 1] == replacement[0];
        } else {
          assert r[..m] == [value[0]] + rest[..m - 1] && value[..m] == [value[0]] + value[1..][..m - 1];
        }
      }
    }
  }

  lemma MatchInPrefix(a: string, b: string, name: string, m: nat)
    requires m <= |a| && m <= |b| && a[..m] == b[..m] && |name| <= m
    ensures MatchesAt(a, name, 0) <==> MatchesAt(b, name, 0)
  {
    assert forall i :: 0 <= i < m ==> a[i] == a[..m][i] && b[i] == b[..m][i];
  }

  lemma MatchHasLetter(value: string, name: string, position: nat, k: nat)
    requires MatchesAt(value, name, position) && position <= k < position + |name|
    ensures HasLetter(name, value[k])
  {
    assert Lower(name[k - position]) == Lower(value[k]);
  }

  /** A match at the head of a result is one of the text, since it cannot touch a replacement. */
  lemma HeadMatch(value: string, needle: string, replacement: string, name: string)
    requires needle != "" && BringsNoPart(replacement, name) && MatchesAt(Replaced(value, needle, replacement), name, 0)
    ensures MatchesAt(value, name, 0)
  {
    var r := Replaced(value, needle, replacement);
    UntouchedPrefix(value, needle, replacement, |name|);
    if k :| 0 <= k < |name| && r[k] == replacement[0] {
      MatchHasLetter(r, name, 0, k);
    } else {
      MatchInPrefix(r, value, name, |name|);
    }
  }

  lemma MatchBehind(first: string, rest: string, name: string, i: nat)
    requires |first| <= i && MatchesAt(first + rest, name, i)
    ensures MatchesAt(rest, name, i - |first|)
  {
    assert (first + rest)[|first|..] == rest;
    assert forall j :: 0 <= j < |rest| ==> rest[j] == (first + rest)[|first| + j];
  }

  lemma MatchInFirst(first: string, rest: string, name: string, i: nat)
    requires i + |name| <= |first| && MatchesAt(first + rest, name, i)
    ensures MatchesAt(first, name, i)
  {
  }

  lemma MatchMoves(value: string, name: string, k: nat, i: nat)
    requires k <= |value| && MatchesAt(value[k..], name, i)
    ensures MatchesAt(value, name, k + i)
  {
    var tail := value[k..];
    assert forall j :: 0 <= j < |tail| ==> tail[j] == value[k + j];
  }

  lemma AbsentTail(value: string, name: string, k: nat)
    requires Absent(value, name) && k <= |value|
    ensures Absent(value[k..], name)
  {
    forall i: nat ensures !MatchesAt(value[k..], name, i) {
      if MatchesAt(value[k..], name, i) {
        MatchMoves(value, name, k, i);
      }
    }
  }

  /** A replaced name is gone, and one that was gone before stays away. */
  lemma {:induction false} ReplacedIsAbsent(value: string, needle: string, replacement: string, name: string)
    requires needle != "" && BringsNoPart(replacement, name) && Absent(replacement, name)
    requires name == needle || Absent(value, name)
    ensures Absent(Replaced(value, needle, replacement), name)
    decreases |value|
  {
    if |value| >= |needle| {
      var k := if MatchesAt(value, needle, 0) then |needle| else 1;
      if name != needle {
        AbsentTail(value, name, k);
      }
      ReplacedIsAbsent(value[k..], needle, replacement, name);
      forall i: nat ensures !MatchesAt(Replaced(value, needle, replacement), name, i) {
        NoMatchAt(value, needle, replacement, name, i);
      }
    }
  }

  lemma NoMatchAt(value: string, needle: string, replacement: string, name: string, i: nat)
    requires needle != "" && |value| >= |needle| && BringsNoPart(replacement, name) && Absent(replacement, name)
    requires name == needle || Absent(value, name)
    requires Absent(Replaced(value[if MatchesAt(value, needle, 0) then |needle| else 1..], needle, replacement), name)
    ensures !MatchesAt(Replaced(value, needle, replacement), name, i)
  {
    var r := Replaced(value, needle, replacement);
    if MatchesAt(r, name, i) {
      if !MatchesAt(value, needle, 0) {
        if i == 0 {
          HeadMatch(value, needle, replacement, name);
        } else {
          MatchBehind([value[0]], Replaced(value[1..], needle, replacement), name, i);
        }
      } else if i < |replacement| < i + |name| {
        MatchHasLetter(r, name, i, |replacement| - 1);
      } else if i < |replacement| {
        MatchInFirst(replacement, Replaced(value[|needle|..], needle, replacement), name, i);
      } else {
        MatchBehind(replacement, Replaced(value[|needle|..], needle, replacement), name, i);
      }
    }
  }

  lemma NoMatchWithout(value: string, name: string, k: nat, i: nat)
    requires k < |name| && forall j :: 0 <= j < |value| ==> Lower(value[j]) != Lower(name[k])
    ensures !MatchesAt(value, name, i)
  {
    if i + k < |value| {
      assert Lower(value[i + k]) != Lower(name[k]);
    }
  }

  /** A text without one of the letters of a name does not have the name. */
  lemma AbsentIn(value: string, name: string, k: nat)
    requires k < |name| && forall i :: 0 <= i < |value| ==> Lower(value[i]) != Lower(name[k])
    ensures Absent(value, name)
  {
    forall i: nat ensures !MatchesAt(value, name, i) {
      NoMatchWithout(value, name, k, i);
    }
  }

  lemma ReplacementsAre(name: string, t: nat)
    requires t < |name| && Lower(name[t]) == 't'
    ensures Absent("Your-Company", name) && Absent("Your", name) && Absent("company", name)
  {
    AbsentIn("Your-Company", name, t);
    AbsentIn("Your", name, t);
    AbsentIn("company", name, t);
  }

  lemma Replacements(name: string)
    requires name == "test123" || name == "lotte" || name == "mart"
    ensures BringsNoPart("Your-Company", name) && BringsNoPart("company", name)
    ensures name != "mart" ==> BringsNoPart("Your", name)
    ensures Absent("Your-Company", name) && Absent("Your", name) && Absent("company", name)
  {
    ReplacementsAre(name, if name == "test123" then 0 else if name == "lotte" then 2 else 3);
  }

  /** Whatever the text, sanitizing leaves none of the names in it, in any case; the two longer names contain the shorter ones. */
  lemma NoBrandRemains(s: string)
    ensures Absent(Brands(s), "test123") && Absent(Brands(s), "lotte") && Absent(Brands(s), "mart")
  {
    var a := Replaced(s, "test123", "Your-Company");
    var b := Replaced(a, "lottermart", "Your-Company");
    var c := Replaced(b, "lottemart", "Your-Company");
    var d := Replaced(c, "lotte", "Your");
    Replacements("test123");
    ReplacedIsAbsent(s, "test123", "Your-Company", "test123");
    ReplacedIsAbsent(a, "lottermart", "Your-Company", "test123");
    ReplacedIsAbsent(b, "lottemart", "Your-Company", "test123");
    ReplacedIsAbsent(c, "lotte", "Your", "test123");
    ReplacedIsAbsent(d, "mart", "company", "test123");
    Replacements("lotte");
    ReplacedIsAbsent(c, "lotte", "Your", "lotte");
    ReplacedIsAbsent(d, "mart", "company", "lotte");
    Replacements("mart");
    ReplacedIsAbsent(d, "mart", "company", "mart");
  }

  /** A character that no token name has. */
  ghost predicate Foreign(s: string) {
    exists i :: 0 <= i < |s| && !('A' <= s[i] <= 'Z' || s[i] == '_')
  }

  lemma ForeignPart(a: string, b: string)
    ensures Foreign(a + b) <==> Foreign(a) || Foreign(b)
  {
    var s := a + b;
    assert forall i :: 0 <= i < |a| ==> s[i] == a[i];
    assert forall i :: 0 <= i < |b| ==> s[|a| + i] == b[i];
  }

  /** A replacement that is no name leaves the text alone or makes it one that is no name. */
  lemma {:induction false} ReplacedOrForeign(value: string, needle: string, replacement: string)
    requires needle != "" && Foreign(replacement)
    ensures Replaced(value, needle, replacement) == value || Foreign(Replaced(value, needle, replacement))
    decreases |value|
  {
    if |value| >= |needle| {
      if MatchesAt(value, needle, 0) {
        ForeignPart(replacement, Replaced(value[|needle|..], needle, replacement));
      } else {
        ReplacedOrForeign(value[1..], needle, replacement);
        ForeignPart([value[0]], Replaced(value[1..], needle, replacement));
        assert value == [value[0]] + value[1..];
      }
    }
  }

  lemma ReplacementsAreForeign()
    ensures Foreign("Your-Company") && Foreign("Your") && Foreign("company")
  {
    assert "Your-Company"[1] == 'o' && "Your"[1] == 'o' && "company"[0] == 'c';
  }

  /** The five replacements leave a text alone or put a character in that no name has. */
  lemma BrandsOrForeign(s: string)
    ensures Brands(s) == s || Foreign(Brands(s))
  {
    ReplacementsAreForeign();
    var a := Replaced(s, "test123", "Your-Company");
    ReplacedOrForeign(s, "test123", "Your-Company");
    var b := Replaced(a, "lottermart", "Your-Company");
    ReplacedOrForeign(a, "lottermart", "Your-Company");
    var c := Replaced(b, "lottemart", "Your-Company");
    ReplacedOrForeign(b, "lottemart", "Your-Company");
    var d := Replaced(c, "lotte", "Your");
    ReplacedOrForeign(c, "lotte", "Your");
    ReplacedOrForeign(d, "mart", "company");
  }

  /** Sanitizing turns no name into another name, if the steps after these replacements leave their result alone. */
  lemma NamesAreKept<E>(r: Renderer<E>, name: string)
    requires r.tokenize(name) == Brands(name)
    ensures r.KeepsName(name)
  {
    BrandsOrForeign(name);
  }

  /** It does turn names into what is no name. */
  lemma NamesAreRewritten<E>(r: Renderer<E>)
    requires r.tokenize("MART") == Brands("MART")
    ensures ValidToken("MART") && r.tokenize("MART") == "company" && !ValidToken("company") && r.KeepsName("MART")
  {
    var name := "MART";
    NamesAreKept(r, name);
    assert "company"[0] == 'c';
    assert MatchesAt(name, "mart", 0);
    assert name[4..] == "" && Replaced("", "mart", "company") == "";
    assert Lower(name[0]) == 'm' && Lower("test123"[0]) == 't' && Lower("lotte"[0]) == 'l';
    NoLongNeedle(name, "test123", "Your-Company");
    NoLongNeedle(name, "lottermart", "Your-Company");
    NoLongNeedle(name, "lottemart", "Your-Company");
    NoLongNeedle(name, "lotte", "Your");
  }

  lemma NoLongNeedle(value: string, needle: string, replacement: string)
    requires |value| < |needle|
    ensures Replaced(value, needle, replacement) == value
  {
  }
}
