/** Runs and templates that show where the preparation cache stops being transparent or bounded. */
module CacheExamples {
  import opened Text
  import opened Options
  import opened TestCases
  import opened CacheKeys
  import opened PreparationCache

  // ----- more than 512 entries -----

  /** A tokenizer that rewrites one sample. */
  const REWRITES := Renderer((s: string) => if s == "x" then "" else s, (s: string) => s, (s: string) => s)

  function Sample(k: nat): string { seq(k, _ => 'y') }

  function Filler(k: nat): LogTemplate { LogTemplate("", Sample(k), []) }

  const RACER := LogTemplate("", "x", [])

  lemma KeyOfSample(a: string, b: string)
    requires a != b
    ensures CacheKey(LogTemplate("", a, [])) != CacheKey(LogTemplate("", b, []))
  {
    var x, y := LogTemplate("", a, []), LogTemplate("", b, []);
    if CacheKey(x) == CacheKey(y) {
      KeyDecodes(Strings(x), Strings(y));
      SameStrings(x, y);
    }
  }

  lemma FillerCompiles(k: nat)
    ensures REWRITES.Tokenize(Filler(k)) == Filler(k) && REWRITES.Compile(Filler(k)) == Some(Sample(k))
  {
    assert Sample(k) != "x" by {
      assert k == 1 ==> Sample(k)[0] == 'y';
    }
  }

  lemma RacerCompiles()
    ensures REWRITES.Tokenize(RACER) == Filler(0) && REWRITES.Compile(Filler(0)) == Some("")
  {
    assert Sample(0) == "";
  }

  lemma Reach(s: Shared<string>, step: Step)
    requires Reachable(REWRITES, s) && Possible(REWRITES, s, step)
    ensures Reachable(REWRITES, Apply(REWRITES, s, step))
  {
  }

  /** Caller 1 has compiled the racer and is about to publish; the table holds the first n fillers. */
  ghost predicate Filled(s: Shared<string>, n: nat) {
    && |s.calls| == 2 && s.races == 0
    && (s.calls[0].Idle? || s.calls[0].Returned?) && s.calls[1] == Publish(RACER, RACER, "")
    && |s.entries| == n
    && (forall key :: key in s.entries ==> exists k: nat :: k < n && key == CacheKey(Filler(k)))
    && (n > 0 ==> CacheKey(Filler(0)) in s.entries)
  }

  lemma FillerIsNew(s: Shared<string>, n: nat)
    requires Filled(s, n)
    ensures CacheKey(Filler(n)) !in s.entries && CacheKey(RACER) !in s.entries
  {
    forall k: nat | k < n ensures CacheKey(Filler(k)) != CacheKey(Filler(n)) {
      assert |Sample(k)| != |Sample(n)|;
      KeyOfSample(Sample(k), Sample(n));
    }
    forall k: nat ensures CacheKey(Filler(k)) != CacheKey(RACER) {
      assert k == 1 ==> Sample(k)[0] == 'y';
      KeyOfSample(Sample(k), "x");
    }
  }

  lemma StartRace() returns (s: Shared<string>)
    ensures Reachable(REWRITES, s) && Filled(s, 0)
  {
    RacerCompiles();
    s := Empty<string>(2);
    Reach(s, Begin(1, RACER, false));
    s := Apply(REWRITES, s, Begin(1, RACER, false));
    Reach(s, Advance(1, "", ""));
    s := Apply(REWRITES, s, Advance(1, "", ""));
    Reach(s, Advance(1, "", ""));
    s := Apply(REWRITES, s, Advance(1, "", ""));
  }

  /** Caller 0 stands here, all else is as in s. */
  ghost predicate CallerAt(s: Shared<string>, t: Shared<string>, phase: Phase<string>) {
    s.calls != [] && t == s.(calls := s.calls[0 := phase])
  }

  lemma BeginFiller(s: Shared<string>, n: nat) returns (t: Shared<string>)
    requires Reachable(REWRITES, s) && Filled(s, n) && n < MAXIMUM_ENTRIES
    ensures Reachable(REWRITES, t) && CallerAt(s, t, LookOriginal(Filler(n), Filler(n)))
  {
    FillerCompiles(n);
    var step := Begin(0, Filler(n), false);
    Reach(s, step);
    t := Apply(REWRITES, s, step);
  }

  lemma MissOriginal(s: Shared<string>, t: Shared<string>, n: nat) returns (u: Shared<string>)
    requires Reachable(REWRITES, t) && Filled(s, n) && n < MAXIMUM_ENTRIES && CallerAt(s, t, LookOriginal(Filler(n), Filler(n)))
    ensures Reachable(REWRITES, u) && CallerAt(s, u, LookTokenized(Filler(n), Filler(n)))
  {
    FillerIsNew(s, n);
    var step := Advance(0, "", "");
    Reach(t, step);
    u := Apply(REWRITES, t, step);
    assert u.calls == s.calls[0 := LookTokenized(Filler(n), Filler(n))];
  }

  lemma MissTokenized(s: Shared<string>, t: Shared<string>, n: nat) returns (u: Shared<string>)
    requires Reachable(REWRITES, t) && Filled(s, n) && n < MAXIMUM_ENTRIES && CallerAt(s, t, LookTokenized(Filler(n), Filler(n)))
    ensures Reachable(REWRITES, u) && CallerAt(s, u, Publish(Filler(n), Filler(n), Sample(n)))
  {
    FillerIsNew(s, n);
    FillerCompiles(n);
    var step := Advance(0, "", "");
    Reach(t, step);
    u := Apply(REWRITES, t, step);
    assert u.calls == s.calls[0 := Publish(Filler(n), Filler(n), Sample(n))];
  }

  /** Caller 0 looks up a filler that is not there yet. */
  lemma LookUpFiller(s: Shared<string>, n: nat) returns (t: Shared<string>)
    requires Reachable(REWRITES, s) && Filled(s, n) && n < MAXIMUM_ENTRIES
    ensures Reachable(REWRITES, t) && CallerAt(s, t, Publish(Filler(n), Filler(n), Sample(n)))
  {
    t := BeginFiller(s, n);
    t := MissOriginal(s, t, n);
    t := MissTokenized(s, t, n);
  }

  lemma AddFiller(s: Shared<string>, n: nat) returns (t: Shared<string>)
    requires Reachable(REWRITES, s) && Filled(s, n) && n < MAXIMUM_ENTRIES
    ensures Reachable(REWRITES, t) && Filled(t, n + 1)
  {
    var key := CacheKey(Filler(n));
    var looked := LookUpFiller(s, n);
    FillerIsNew(s, n);
    FillerCompiles(n);
    var step := Advance(0, "", key);
    PublishApplied(REWRITES, looked, 0, "", key);
    UpdateSize(s.entries, key, Sample(n));
    Reach(looked, step);
    t := Apply(REWRITES, looked, step);
    assert t.entries == s.entries[key := Sample(n)];
    forall other | other in t.entries ensures exists k: nat :: k < n + 1 && other == CacheKey(Filler(k)) {
      if other in s.entries {
        var k: nat :| k < n && other == CacheKey(Filler(k));
      } else {
        assert other == CacheKey(Filler(n));
      }
    }
  }

  lemma {:induction false} Fill(n: nat) returns (s: Shared<string>)
    requires n <= MAXIMUM_ENTRIES
    ensures Reachable(REWRITES, s) && Filled(s, n)
  {
    if n == 0 {
      s := StartRace();
    } else {
      var before := Fill(n - 1);
      s := AddFiller(before, n - 1);
    }
  }

  /** The bound of 512 is not kept: a call that compiled while others filled the table adds an entry without evicting. */
  lemma TableCanOverflow() returns (s: Shared<string>)
    ensures Reachable(REWRITES, s) && |s.entries| == MAXIMUM_ENTRIES + 1
  {
    var full := Fill(MAXIMUM_ENTRIES);
    var key := CacheKey(Filler(0));
    RacerCompiles();
    FillerIsNew(full, MAXIMUM_ENTRIES);
    PublishApplied(REWRITES, full, 1, key, key);
    UpdateSize(full.entries, CacheKey(RACER), full.entries[key]);
    Reach(full, Advance(1, key, key));
    s := Apply(REWRITES, full, Advance(1, key, key));
  }

  // ----- a string that does not settle -----

  const SHIFTS := Renderer((s: string) => if s == "a" then "b" else if s == "b" then "c" else s, (s: string) => s, (s: string) => s)

  /** Why strings have to settle: the cache compiles the tokenized template, which tokenizes it once more. */
  lemma SettlingMatters()
    ensures var item := LogTemplate("", "a", []);
            && !SHIFTS.Settles(item.sample) && SHIFTS.Compile(item) == Some("b") && SHIFTS.Compile(SHIFTS.Tokenize(item)) == Some("c")
  {
    var item := LogTemplate("", "a", []);
    assert SHIFTS.Tokenize(item) == LogTemplate("", "b", []) && SHIFTS.Tokenize(SHIFTS.Tokenize(item)) == LogTemplate("", "c", []);
  }

  // ----- a tokenizer that rewrites the name of a token -----

  const RENAMES := Renderer((s: string) => if s == "B" then "X" else s, (s: string) => s, (s: string) => s)

  const TEXT := "{{B}}{{X}}"

  function WithGroups(groups: seq<Group>): LogTemplate { LogTemplate("", TEXT, groups) }

  lemma FindMarker(name: char, at: int)
    requires 'A' <= name <= 'Z'
    requires (name == 'B' && at == 0) || (name == 'X' && at == 5) || (name != 'B' && name != 'X' && at == -1)
    ensures Find(TEXT, Marker([name]), 0) == at
  {
    var m := Marker([name]);
    FindIsFirst(TEXT, m, 0);
    assert m[2] == name && |m| == 5;
    forall i: nat | OccursAt(TEXT, m, i) ensures i + 5 <= |TEXT| && TEXT[i + 2] == name {
      MiddleOfMarker(TEXT, m, i);
    }
    if at >= 0 {
      assert TEXT[at..at + 5] == m;
      assert OccursAt(TEXT, m, at);
    }
  }

  lemma Substitutes(name: char, at: nat)
    requires (name == 'B' && at == 0) || (name == 'X' && at == 5)
    ensures |Split(TEXT, Marker([name]))| == 2
    ensures Split(TEXT, Marker([name]))[0] == TEXT[..at]
  {
    FindMarker(name, at);
    var m := Marker([name]);
    assert |m| == 5;
    var rest := TEXT[at + 5..];
    FindIsFirst(rest, m, 0);
    forall i: nat | OccursAt(rest, m, i) ensures i + 5 <= |rest| && rest[i + 2] == name {
      MiddleOfMarker(rest, m, i);
    }
  }

  lemma MiddleOfMarker(s: string, marker: string, i: nat)
    requires |marker| == 5 && OccursAt(s, marker, i)
    ensures i + 5 <= |s| && s[i + 2] == marker[2]
  {
    assert s[i..i + 5][2] == s[i + 2];
  }

  lemma SkipsA(values: seq<string>, rest: seq<Group>, sanitize: string -> string)
    ensures values == [] ==> ExpandGroups(TEXT, [Group("A", values)] + rest, sanitize) == ExpandGroups(TEXT, rest, sanitize)
    ensures values != [] ==> ExpandGroups(TEXT, [Group("A", values)] + rest, sanitize).CountMismatch?
  {
    FindMarker('A', -1);
    assert Marker("A") == Marker(['A']);
    assert Split(TEXT, Marker("A")) == [TEXT];
    assert ([Group("A", values)] + rest)[1..] == rest;
  }

  lemma ExpandsTo(name: char, at: nat, value: string, sanitize: string -> string)
    requires (name == 'B' && at == 0) || (name == 'X' && at == 5)
    ensures var e := ExpandGroups(TEXT, [Group([name], [value])], sanitize);
            && e.Expanded? && |e.text| >= at + |sanitize(value)|
            && e.text[..at] == TEXT[..at] && e.text[at..at + |sanitize(value)|] == sanitize(value)
  {
    Substitutes(name, at);
    var g := Group([name], [value]);
    assert [g][1..] == [];
    var pieces, texts := Split(TEXT, Marker([name])), Mapped([value], sanitize);
    assert texts[1..] == [] && |pieces[1..]| == 1;
    var text := pieces[0] + texts[0] + Interleave(pieces[1..], texts[1..]);
    assert text == Interleave(pieces, texts);
  }

  const FIRST := WithGroups([Group("A", []), Group("X", ["v"])])
  const REFUSED := WithGroups([Group("A", ["B", "v"])])
  const THIRD := WithGroups([Group("A", []), Group("B", ["v"])])

  /** Groups whose values the tokenizer leaves alone. */
  lemma MapsToItself(name: string)
    ensures MapGroups([Group("A", []), Group(name, ["v"])], RENAMES.tokenize) == [Group("A", []), Group(name, ["v"])]
  {
    var groups := [Group("A", []), Group(name, ["v"])];
    assert groups[1..] == [Group(name, ["v"])] && groups[1..][1..] == [];
    assert Mapped(["v"], RENAMES.tokenize) == ["v"] && Mapped([], RENAMES.tokenize) == [];
    assert MapGroups(groups[1..], RENAMES.tokenize) == [Group(name, ["v"])];
  }

  lemma FlatOfTwo(name: string)
    ensures Flat([Group("A", []), Group(name, ["v"])]) == ["A", name, "v"]
  {
    var groups := [Group("A", []), Group(name, ["v"])];
    assert groups[1..] == [Group(name, ["v"])] && groups[1..][1..] == [];
    assert Flat(groups[1..]) == [name] + ["v"] + Flat([]);
    assert Flat(groups) == ["A"] + [] + Flat(groups[1..]);
  }

  lemma FlatOfOne(name: string)
    ensures Flat([Group("A", [name, "v"])]) == ["A", name, "v"]
  {
    var groups := [Group("A", [name, "v"])];
    assert groups[1..] == [];
    assert Flat(groups) == ["A"] + [name, "v"] + Flat([]);
  }

  lemma FirstCompiles()
    ensures RENAMES.Tokenize(FIRST) == FIRST
    ensures RENAMES.Compile(FIRST).Some? && RENAMES.Compile(FIRST).value != "" && RENAMES.Compile(FIRST).value[0] == '{'
  {
    MapsToItself("X");
    SkipsA([], [Group("X", ["v"])], RENAMES.sanitize);
    assert [Group("A", [])] + [Group("X", ["v"])] == FIRST.groups;
    ExpandsTo('X', 5, "v", RENAMES.sanitize);
    assert ['X'] == "X";
    var text := ExpandGroups(TEXT, [Group("X", ["v"])], RENAMES.sanitize).text;
    assert text[..5][0] == text[0] && TEXT[..5][0] == '{';
  }

  lemma FirstIsRegular()
    ensures RENAMES.Regular(FIRST)
  {
    assert FIRST.groups[1..] == [Group("X", ["v"])] && FIRST.groups[1..][1..] == [];
    assert RENAMES.RegularGroup(Group("A", [])) && RENAMES.RegularGroup(Group("X", ["v"]));
  }

  lemma ThirdCompiles()
    ensures RENAMES.Compile(THIRD).Some? && RENAMES.Compile(THIRD).value != "" && RENAMES.Compile(THIRD).value[0] == 'v'
  {
    MapsToItself("B");
    SkipsA([], [Group("B", ["v"])], RENAMES.sanitize);
    assert [Group("A", [])] + [Group("B", ["v"])] == THIRD.groups;
    ExpandsTo('B', 0, "v", RENAMES.sanitize);
    assert ['B'] == "B";
    var text := ExpandGroups(TEXT, [Group("B", ["v"])], RENAMES.sanitize).text;
    assert text[0..1][0] == text[0];
  }

  lemma RefusedIsRefused()
    ensures RENAMES.Tokenize(REFUSED) == WithGroups([Group("A", ["X", "v"])]) && RENAMES.Compile(REFUSED).None?
  {
    var groups := REFUSED.groups;
    assert groups[1..] == [];
    assert Mapped(["B", "v"], RENAMES.tokenize) == ["X", "v"];
    assert MapGroups(groups, RENAMES.tokenize) == [Group("A", ["X", "v"])];
    SkipsA(["X", "v"], [], RENAMES.sanitize);
    assert [Group("A", ["X", "v"])] + [] == [Group("A", ["X", "v"])];
  }

  /** Why no name may become another one: here one does, every string settles, and a refused template that finds the first one's
      entry under its tokenized key puts it under the key of a third, which compiles to something else. */
  lemma NamesMatter()
    ensures (forall s {:trigger RENAMES.Settles(s)} :: RENAMES.Settles(s)) && !RENAMES.KeepsName("B")
    ensures RENAMES.Regular(FIRST) && RENAMES.Compile(REFUSED).None?
    ensures CacheKey(RENAMES.Tokenize(REFUSED)) == CacheKey(RENAMES.Tokenize(FIRST)) && CacheKey(REFUSED) == CacheKey(THIRD)
    ensures RENAMES.Compile(FIRST).Some? && RENAMES.Compile(THIRD).Some? && RENAMES.Compile(FIRST) != RENAMES.Compile(THIRD)
  {
    FirstCompiles();
    FirstIsRegular();
    ThirdCompiles();
    assert ValidToken("B") && ValidToken("X") && RENAMES.tokenize("B") == "X";
    RefusedIsRefused();
    FlatOfTwo("X");
    FlatOfTwo("B");
    FlatOfOne("X");
    FlatOfOne("B");
  }
}
