/** The key of a preparation-cache entry: the template's strings, each with its length in front. */
module CacheKeys {
  import opened Text
  import opened Decimal
  import opened Framing
  import opened TestCases

  datatype LogTemplate = LogTemplate(id: string, sample: string, groups: seq<Group>)

  function Component(value: string): string {
    ToDecimal(|value|) + (":" + (value + "|"))
  }

  function KeyOf(strings: seq<string>): string {
    if strings == [] then "" else Component(strings[0]) + KeyOf(strings[1..])
  }

  function Strings(item: LogTemplate): seq<string> {
    [item.sample] + Flat(item.groups)
  }

  function CacheKey(item: LogTemplate): string {
    KeyOf(Strings(item))
  }

  lemma {:induction false} KeyAppend(a: seq<string>, b: seq<string>)
    ensures KeyOf(a + b) == KeyOf(a) + KeyOf(b)
  {
    if a == [] {
      assert a + b == b;
    } else {
      assert (a + b)[1..] == a[1..] + b;
      KeyAppend(a[1..], b);
      Associate(Component(a[0]), KeyOf(a[1..]), KeyOf(b));
    }
  }

  lemma KeySnoc(a: seq<string>, s: string)
    ensures KeyOf(a + [s]) == KeyOf(a) + Component(s)
  {
    KeyAppend(a, [s]);
    assert [s][1..] == [];
    assert KeyOf([s]) == Component(s) + "";
  }

  lemma {:induction false} FlatAppend(a: seq<Group>, b: seq<Group>)
    ensures Flat(a + b) == Flat(a) + Flat(b)
  {
    if a == [] {
      assert a + b == b;
    } else {
      FlatAppend(a[1..], b);
      assert (a + b)[1..] == a[1..] + b;
      Associate([a[0].token] + a[0].values, Flat(a[1..]), Flat(b));
    }
  }

  lemma FlatSnoc(a: seq<Group>, g: Group)
    ensures Flat(a + [g]) == Flat(a) + ([g.token] + g.values)
  {
    FlatAppend(a, [g]);
    assert [g][1..] == [];
    assert Flat([g]) == [g.token] + g.values + [];
  }

  lemma OneMoreValue(base: seq<string>, values: seq<string>, j: nat)
    requires j < |values|
    ensures base + values[..j + 1] == base + values[..j] + [values[j]]
  {
  }

  lemma OneMoreGroup(item: LogTemplate, i: nat, done: seq<string>)
    requires i < |item.groups| && done == [item.sample] + Flat(item.groups[..i])
    ensures done + [item.groups[i].token] + item.groups[i].values == [item.sample] + Flat(item.groups[..i + 1])
  {
    var g := item.groups[i];
    assert item.groups[..i + 1] == item.groups[..i] + [g];
    FlatSnoc(item.groups[..i], g);
    Associate(done, [g.token], g.values);
    Associate([item.sample], Flat(item.groups[..i]), [g.token] + g.values);
  }

  /** The loops that build the key. */
  method BuildKey(item: LogTemplate) returns (key: string)
    ensures key == CacheKey(item)
  {
    key := "" + Component(item.sample);
    ghost var done := [item.sample];
    KeySnoc([], item.sample);
    assert [] + [item.sample] == done;
    for i := 0 to |item.groups|
      invariant key == KeyOf(done)
      invariant done == [item.sample] + Flat(item.groups[..i])
    {
      var g := item.groups[i];
      KeySnoc(done, g.token);
      key := key + Component(g.token);
      ghost var base := done + [g.token];
      assert base + g.values[..0] == base;
      for j := 0 to |g.values|
        invariant key == KeyOf(base + g.values[..j])
      {
        KeySnoc(base + g.values[..j], g.values[j]);
        OneMoreValue(base, g.values, j);
        key := key + Component(g.values[j]);
      }
      assert g.values[..|g.values|] == g.values;
      OneMoreGroup(item, i, done);
      done := base + g.values;
    }
    assert item.groups[..|item.groups|] == item.groups;
  }

  lemma ComponentsDiffer(a: string, restA: string, b: string, restB: string)
    requires Component(a) + restA == Component(b) + restB
    ensures a == b && restA == restB
  {
    var da, db := ToDecimal(|a|), ToDecimal(|b|);
    var tailA, tailB := ":" + (a + "|") + restA, ":" + (b + "|") + restB;
    assert Component(a) + restA == da + tailA && Component(b) + restB == db + tailB;
    DigitRunStops(da, tailA, 0);
    DigitRunStops(db, tailB, 0);
    SameDigits(da, tailA, db, tailB);
    DecimalRoundTrip(|a|);
    DecimalRoundTrip(|b|);
    SameTail(a, restA, b, restB);
  }

  lemma SameTail(a: string, restA: string, b: string, restB: string)
    requires |a| == |b| && ":" + (a + "|") + restA == ":" + (b + "|") + restB
    ensures a == b && restA == restB
  {
    var tailA, tailB := ":" + (a + "|") + restA, ":" + (b + "|") + restB;
    assert tailA[1..1 + |a|] == a && tailB[1..1 + |b|] == b;
    assert tailA[|a| + 2..] == restA && tailB[|b| + 2..] == restB;
  }

  lemma SameDigits(da: string, tailA: string, db: string, tailB: string)
    requires da + tailA == db + tailB && |da| == |db|
    ensures da == db && tailA == tailB
  {
    assert (da + tailA)[..|da|] == da && (db + tailB)[..|db|] == db;
    assert (da + tailA)[|da|..] == tailA && (db + tailB)[|db|..] == tailB;
  }

  /** A key determines the list of strings it was built from. */
  lemma {:induction false} KeyDecodes(a: seq<string>, b: seq<string>)
    requires KeyOf(a) == KeyOf(b)
    ensures a == b
  {
    if a == [] || b == [] {
      assert a != [] ==> |KeyOf(a)| > 0;
      assert b != [] ==> |KeyOf(b)| > 0;
    } else {
      ComponentsDiffer(a[0], KeyOf(a[1..]), b[0], KeyOf(b[1..]));
      KeyDecodes(a[1..], b[1..]);
      assert a == [a[0]] + a[1..] && b == [b[0]] + b[1..];
    }
  }
}

/** The preparation cache: compiled templates under string keys, with aliases and eviction. */
module PreparationCache {
  import opened Text
  import opened TestCases
  import opened CacheKeys
  import opened Options

  const MAXIMUM_ENTRIES := 512

  /** The parts of the renderer that the cache only calls: tokenizer, sanitizer, segment compiler with analysis. */
  datatype Renderer<!E> = Renderer(tokenize: string -> string, sanitize: string -> string, build: string -> E) {

    function Tokenize(item: LogTemplate): LogTemplate {
      LogTemplate(item.id, tokenize(item.sample), MapGroups(item.groups, tokenize))
    }

    /** Direct compilation of one template, without any cache; None when the test case is refused. */
    function Compile(item: LogTemplate): Option<E> {
      var tokenized := Tokenize(item);
      match ExpandGroups(tokenized.sample, tokenized.groups, sanitize)
      case Expanded(text) => Some(build(text))
      case InvalidToken(_) => None
      case CountMismatch(_) => None
    }

    /** Tokenizing the tokenized string changes nothing more. */
    predicate Settles(s: string) { tokenize(tokenize(s)) == tokenize(s) }

    /** The tokenizer does not turn this token name into another one. It may turn it into something that is no name. */
    predicate KeepsName(name: string) {
      ValidToken(name) && ValidToken(tokenize(name)) ==> tokenize(name) == name
    }

    predicate RegularGroup(group: Group) {
      KeepsName(group.token) && forall i :: 0 <= i < |group.values| ==> Settles(group.values[i])
    }

    predicate RegularGroups(groups: seq<Group>) { groups == [] || (RegularGroup(groups[0]) && RegularGroups(groups[1..])) }

    /** What a request has to bring: a sample and values that settle, and names that are not turned into others. */
    predicate Regular(item: LogTemplate) { Settles(item.sample) && RegularGroups(item.groups) }

    lemma {:induction false} MapTwice(groups: seq<Group>)
      requires RegularGroups(groups)
      ensures MapGroups(MapGroups(groups, tokenize), tokenize) == MapGroups(groups, tokenize)
      ensures RegularGroups(MapGroups(groups, tokenize))
    {
      if groups != [] {
        MapTwice(groups[1..]);
        var once := MapGroups(groups, tokenize);
        assert once[1..] == MapGroups(groups[1..], tokenize);
        assert Mapped(once[0].values, tokenize) == once[0].values;
      }
    }

    lemma TokenizedCompilesAlike(item: LogTemplate)
      requires Regular(item)
      ensures Tokenize(Tokenize(item)) == Tokenize(item) && Regular(Tokenize(item))
      ensures Compile(Tokenize(item)) == Compile(item)
    {
      MapTwice(item.groups);
    }

    /** Keys collide, but never for two templates that both compile to different things. */
    lemma KeyDetermines(a: LogTemplate, b: LogTemplate)
      requires CacheKey(a) == CacheKey(b)
      requires Compile(a).Some? && Compile(b).Some?
      ensures Compile(a) == Compile(b)
    {
      KeyDecodes(Strings(a), Strings(b));
      assert Strings(a)[0] == a.sample && Strings(b)[0] == b.sample;
      assert Strings(a)[1..] == Flat(a.groups) && Strings(b)[1..] == Flat(b.groups);
      GroupingIsUnique(tokenize(a.sample), a.groups, b.groups, tokenize, sanitize);
    }

    /** Each string is the original or its tokenized form. */
    ghost predicate Close(original: seq<string>, flat: seq<string>) {
      && |flat| == |original|
      && forall p :: 0 <= p < |flat| ==> flat[p] == original[p] || flat[p] == tokenize(original[p])
    }

    /** The list is what some regular template that compiles to this entry becomes when tokenized, but for strings that are
        still to be tokenized. */
    ghost predicate StandsFor(list: seq<string>, x: LogTemplate, entry: E) {
      Regular(x) && Compile(x) == Some(entry) && Close(list, Strings(Tokenize(x)))
    }

    /** An entry may stand under a key that is built from such a list. */
    ghost predicate RightFor(key: string, entry: E) {
      exists list: seq<string>, x: LogTemplate :: KeyOf(list) == key && StandsFor(list, x, entry)
    }

    ghost predicate AllRight(entries: map<string, E>) {
      forall key :: key in entries ==> RightFor(key, entries[key])
    }

    lemma RightList(list: seq<string>, entry: E) returns (x: LogTemplate)
      requires RightFor(KeyOf(list), entry)
      ensures StandsFor(list, x, entry)
    {
      var other: seq<string>, y: LogTemplate :| KeyOf(other) == KeyOf(list) && StandsFor(other, y, entry);
      KeyDecodes(other, list);
      x := y;
    }

    /** A string that differs is the tokenized form of one that settles. */
    ghost predicate SettledClose(original: seq<string>, flat: seq<string>) {
      && |flat| == |original|
      && forall p :: 0 <= p < |flat| ==> flat[p] == original[p] || (flat[p] == tokenize(original[p]) && Settles(original[p]))
    }

    lemma SettledAppend(a: seq<string>, a': seq<string>, b: seq<string>, b': seq<string>)
      requires SettledClose(a, a') && SettledClose(b, b')
      ensures SettledClose(a + b, a' + b')
    {
    }

    lemma CloseThrough(original: seq<string>, once: seq<string>, flat: seq<string>)
      requires SettledClose(original, once) && Close(once, flat)
      ensures Close(original, flat)
    {
    }

    lemma {:induction false} MappedIsClose(groups: seq<Group>)
      requires RegularGroups(groups)
      ensures SettledClose(Flat(groups), Flat(MapGroups(groups, tokenize)))
    {
      if groups != [] {
        MappedIsClose(groups[1..]);
        var mapped := MapGroups(groups, tokenize);
        assert mapped[1..] == MapGroups(groups[1..], tokenize);
        SettledAppend([groups[0].token] + groups[0].values, [groups[0].token] + Mapped(groups[0].values, tokenize),
                      Flat(groups[1..]), Flat(mapped[1..]));
      }
    }

    lemma TokenizedIsClose(item: LogTemplate)
      requires Regular(item)
      ensures SettledClose(Strings(item), Strings(Tokenize(item)))
    {
      MappedIsClose(item.groups);
      SettledAppend([item.sample], [tokenize(item.sample)], Flat(item.groups), Flat(Tokenize(item).groups));
    }

    /** What a template compiles to may stand under both of its keys. */
    lemma CompiledIsRight(item: LogTemplate, entry: E)
      requires Regular(item) && Compile(item) == Some(entry)
      ensures RightFor(CacheKey(item), entry) && RightFor(CacheKey(Tokenize(item)), entry)
    {
      TokenizedIsClose(item);
      assert StandsFor(Strings(item), item, entry);
      assert StandsFor(Strings(Tokenize(item)), item, entry);
    }

    /** What is right for the tokenized template is right for the template, refused or not. */
    lemma AliasIsRight(item: LogTemplate, entry: E)
      requires Regular(item) && RightFor(CacheKey(Tokenize(item)), entry)
      ensures RightFor(CacheKey(item), entry)
    {
      var x := RightList(Strings(Tokenize(item)), entry);
      TokenizedIsClose(item);
      CloseThrough(Strings(item), Strings(Tokenize(item)), Strings(Tokenize(x)));
      assert StandsFor(Strings(item), x, entry);
    }

    lemma TokenizeToo(s: string, t: string)
      requires Settles(t) && (tokenize(t) == s || tokenize(t) == tokenize(s))
      ensures tokenize(s) == tokenize(t)
    {
    }

    lemma SameName(a: string, b: string)
      requires ValidToken(a) && ValidToken(b) && KeepsName(a) && (b == a || b == tokenize(a))
      ensures a == b
    {
    }

    /** What expansion asks of the first group. */
    lemma FirstExpands(s: string, groups: seq<Group>)
      requires groups != [] && ExpandGroups(s, MapGroups(groups, tokenize), sanitize).Expanded?
      ensures ValidToken(groups[0].token) && |Split(s, Marker(groups[0].token))| == |groups[0].values| + 1
    {
    }

    lemma MappedParts(groups: seq<Group>)
      requires groups != []
      ensures var mapped, n := MapGroups(groups, tokenize), |groups[0].values|;
              && |Flat(mapped)| == n + 1 + |Flat(MapGroups(groups[1..], tokenize))|
              && Flat(mapped)[0] == groups[0].token && Flat(mapped)[1..n + 1] == Mapped(groups[0].values, tokenize)
              && Flat(mapped)[n + 1..] == Flat(MapGroups(groups[1..], tokenize))
    {
      var mapped := MapGroups(groups, tokenize);
      assert mapped[1..] == MapGroups(groups[1..], tokenize);
      FlatParts(mapped);
    }

    lemma CloseParts(a: seq<string>, b: seq<string>, from: nat, to: nat)
      requires Close(a, b) && from <= to <= |a|
      ensures Close(a[from..to], b[from..to]) && Close(a[to..], b[to..])
    {
      assert forall p :: 0 <= p < |b[from..to]| ==> b[from..to][p] == b[from + p] && a[from..to][p] == a[from + p];
      assert forall p :: 0 <= p < |b[to..]| ==> b[to..][p] == b[to + p] && a[to..][p] == a[to + p];
    }

    lemma SameValues(a: seq<string>, b: seq<string>)
      requires Close(a, Mapped(b, tokenize)) && forall i :: 0 <= i < |b| ==> Settles(b[i])
      ensures Mapped(a, tokenize) == Mapped(b, tokenize)
    {
      forall i | 0 <= i < |a| ensures tokenize(a[i]) == tokenize(b[i]) {
        assert Mapped(b, tokenize)[i] == tokenize(b[i]);
        TokenizeToo(a[i], b[i]);
      }
    }

    /** The first groups: names that are both valid are equal, and both have as many values as the text has markers. */
    lemma SameFirstGroup(s: string, a: seq<Group>, b: seq<Group>)
      requires a != [] && b != [] && Close(Flat(a), Flat(MapGroups(b, tokenize)))
      requires ExpandGroups(s, MapGroups(a, tokenize), sanitize).Expanded? && ExpandGroups(s, MapGroups(b, tokenize), sanitize).Expanded?
      requires KeepsName(a[0].token) && RegularGroup(b[0])
      ensures a[0].token == b[0].token && Mapped(a[0].values, tokenize) == Mapped(b[0].values, tokenize)
      ensures Close(Flat(a[1..]), Flat(MapGroups(b[1..], tokenize)))
    {
      FirstExpands(s, a);
      FirstExpands(s, b);
      FlatParts(a);
      MappedParts(b);
      SameName(a[0].token, b[0].token);
      CloseParts(Flat(a), Flat(MapGroups(b, tokenize)), 1, |a[0].values| + 1);
      SameValues(a[0].values, b[0].values);
    }

    /** Two groupings that both expand and have close strings are the same once tokenized. */
    lemma {:induction false} SameGroups(s: string, a: seq<Group>, b: seq<Group>)
      requires Close(Flat(a), Flat(MapGroups(b, tokenize))) && RegularGroups(a) && RegularGroups(b)
      requires ExpandGroups(s, MapGroups(a, tokenize), sanitize).Expanded? && ExpandGroups(s, MapGroups(b, tokenize), sanitize).Expanded?
      ensures MapGroups(a, tokenize) == MapGroups(b, tokenize)
      decreases |a|
    {
      if a == [] || b == [] {
        FlatEmpty(a);
        FlatEmpty(MapGroups(b, tokenize));
      } else {
        var mapped, other := MapGroups(a, tokenize), MapGroups(b, tokenize);
        assert mapped[1..] == MapGroups(a[1..], tokenize) && other[1..] == MapGroups(b[1..], tokenize);
        SameFirstGroup(s, a, b);
        SameGroups(Substituted(s, mapped[0], sanitize), a[1..], b[1..]);
      }
    }

    /** A template that compiles compiles to whatever right entry its key finds. */
    lemma HitIsRight(item: LogTemplate, entry: E)
      requires Regular(item) && RightFor(CacheKey(item), entry)
      ensures Compile(item).Some? ==> Compile(item) == Some(entry)
    {
      if Compile(item).Some? {
        var x := RightList(Strings(item), entry);
        var y := Tokenize(x);
        assert Strings(item)[0] == item.sample && Strings(y)[0] == y.sample;
        TokenizeToo(item.sample, x.sample);
        CloseTail(item, y);
        SameGroups(tokenize(item.sample), item.groups, x.groups);
      }
    }

    lemma CloseTail(item: LogTemplate, y: LogTemplate)
      requires Close(Strings(item), Strings(y))
      ensures Close(Flat(item.groups), Flat(y.groups))
    {
      assert Strings(item)[1..] == Flat(item.groups) && Strings(y)[1..] == Flat(y.groups);
      forall p | 0 <= p < |Flat(item.groups)|
        ensures Flat(item.groups)[p] == Strings(item)[p + 1] && Flat(y.groups)[p] == Strings(y)[p + 1]
      {
      }
    }
  }

  lemma FlatEmpty(groups: seq<Group>)
    ensures Flat(groups) == [] <==> groups == []
  {
  }

  lemma SameStrings(a: LogTemplate, b: LogTemplate)
    requires Strings(a) == Strings(b)
    ensures a.sample == b.sample && Flat(a.groups) == Flat(b.groups)
  {
    assert Strings(a)[0] == a.sample && Strings(b)[0] == b.sample;
    assert Strings(a)[1..] == Flat(a.groups) && Strings(b)[1..] == Flat(b.groups);
  }

  lemma FlatParts(groups: seq<Group>)
    requires groups != []
    ensures var n := |groups[0].values|;
            && |Flat(groups)| == n + 1 + |Flat(groups[1..])|
            && Flat(groups)[0] == groups[0].token && Flat(groups)[1..n + 1] == groups[0].values
            && Flat(groups)[n + 1..] == Flat(groups[1..])
  {
  }

  /** Keys do collide: one string list, two groupings. */
  lemma KeysCollide()
    ensures var a, b := [Group("A", ["B"])], [Group("A", []), Group("B", [])];
            a != b && CacheKey(LogTemplate("", "{{A}}", a)) == CacheKey(LogTemplate("", "{{A}}", b))
  {
    var a, b := [Group("A", ["B"])], [Group("A", []), Group("B", [])];
    assert a[1..] == [] && b[1..] == [Group("B", [])] && b[1..][1..] == [];
    assert Flat(a) == ["A", "B"];
    assert Flat(b) == ["A"] + [] + Flat(b[1..]);
    assert Flat(b[1..]) == ["B"] + [] + Flat([]);
    assert Flat(b) == ["A", "B"];
  }

  lemma OneMarker()
    ensures |Split("{{A}}", Marker("A"))| == 2
  {
    var s := "{{A}}";
    assert Marker("A") == s;
    assert OccursAt(s, s, 0);
    FindIsFirst(s, s, 0);
    assert s[5..] == "";
  }

  lemma OneGroupExpands(s: string, groups: seq<Group>, sanitize: string -> string)
    requires |groups| == 1 && ValidToken(groups[0].token) && |Split(s, Marker(groups[0].token))| == |groups[0].values| + 1
    ensures ExpandGroups(s, groups, sanitize).Expanded?
  {
    assert groups[1..] == [];
  }

  lemma FirstGroupRefused(s: string, groups: seq<Group>, sanitize: string -> string)
    requires groups != [] && ValidToken(groups[0].token) && |Split(s, Marker(groups[0].token))| != |groups[0].values| + 1
    ensures ExpandGroups(s, groups, sanitize).CountMismatch?
  {
  }

  /** What a collision does: the second template is refused when compiled by itself, yet its key finds the first one's entry. */
  lemma CollisionHidesRefusal<E>(r: Renderer<E>)
    requires forall s :: r.tokenize(s) == s
    ensures var a, b := LogTemplate("", "{{A}}", [Group("A", ["B"])]), LogTemplate("", "{{A}}", [Group("A", []), Group("B", [])]);
            r.Compile(a).Some? && r.Compile(b).None? && CacheKey(a) == CacheKey(b)
  {
    var a, b := [Group("A", ["B"])], [Group("A", []), Group("B", [])];
    KeysCollide();
    OneMarker();
    var mapped := MapGroups(a, r.tokenize);
    assert |mapped| == 1 && mapped[0].token == "A" && |mapped[0].values| == 1 && mapped[1..] == [];
    var other := MapGroups(b, r.tokenize);
    assert other[0].token == "A" && |other[0].values| == 0;
    OneGroupExpands("{{A}}", mapped, r.sanitize);
    FirstGroupRefused("{{A}}", other, r.sanitize);
  }

  /** entries_.erase(entries_.begin()) removes some entry; which one is up to the hash table. */
  function Evict<E>(entries: map<string, E>, victim: string): map<string, E> {
    entries - {victim}
  }

  function InsertedWithEviction<E>(entries: map<string, E>, key: string, entry: E, victim: string): map<string, E> {
    (if |entries| >= MAXIMUM_ENTRIES && key !in entries then Evict(entries, victim) else entries)[key := entry]
  }

  lemma InsertedSize<E>(entries: map<string, E>, key: string, entry: E, victim: string, extra: nat)
    requires |entries| <= MAXIMUM_ENTRIES + extra
    requires |entries| >= MAXIMUM_ENTRIES && key !in entries ==> victim in entries
    ensures |InsertedWithEviction(entries, key, entry, victim)| <= MAXIMUM_ENTRIES + extra
  {
    UpdateSize(entries, key, entry);
    if |entries| >= MAXIMUM_ENTRIES && key !in entries {
      var smaller := Evict(entries, victim);
      EvictSize(entries, victim);
      UpdateSize(smaller, key, entry);
    }
  }

  lemma UpdateSize<K, V>(m: map<K, V>, k: K, v: V)
    ensures |m[k := v]| == if k in m then |m| else |m| + 1
  {
    if k in m {
      assert m[k := v].Keys == m.Keys;
    } else {
      assert m[k := v].Keys == m.Keys + {k};
    }
    assert |m[k := v].Keys| == |m[k := v]|;
  }

  lemma EvictSize<E>(entries: map<string, E>, victim: string)
    requires victim in entries
    ensures |Evict(entries, victim)| == |entries| - 1
  {
    var smaller := Evict(entries, victim);
    assert smaller[victim := entries[victim]] == entries;
    UpdateSize(smaller, victim, entries[victim]);
  }

  lemma InsertRight<E>(r: Renderer<E>, entries: map<string, E>, key: string, entry: E, victim: string)
    requires r.AllRight(entries) && r.RightFor(key, entry)
    ensures r.AllRight(InsertedWithEviction(entries, key, entry, victim))
  {
  }

  /** The table gained this entry under some of these keys, and kept the rest but for `lost` entries at most. */
  ghost predicate Grew<E>(before: map<string, E>, after: map<string, E>, keys: set<string>, entry: E, lost: nat) {
    && (forall key :: key in after ==> (key in keys && after[key] == entry) || (key in before && after[key] == before[key]))
    && |before.Keys - after.Keys| <= lost
  }

  /** The entry was inserted, whichever entry was evicted for it. */
  ghost predicate Inserted<E>(before: map<string, E>, after: map<string, E>, key: string, entry: E) {
    exists victim :: after == InsertedWithEviction(before, key, entry, victim)
  }

  lemma InsertedGrew<E>(before: map<string, E>, after: map<string, E>, key: string, entry: E)
    requires Inserted(before, after, key, entry)
    ensures key in after && after[key] == entry && Grew(before, after, {key}, entry, 1)
    ensures |before| < MAXIMUM_ENTRIES || key in before ==> after == before[key := entry]
  {
    var victim :| after == InsertedWithEviction(before, key, entry, victim);
    assert before.Keys - after.Keys <= {victim};
    SubsetSize(before.Keys - after.Keys, {victim});
  }

  /** The entry was inserted under the tokenized key, and under the original one if that is another. */
  ghost predicate InsertedBoth<E>(before: map<string, E>, after: map<string, E>, tokenizedKey: string, originalKey: string, entry: E) {
    if originalKey == tokenizedKey then Inserted(before, after, tokenizedKey, entry)
    else exists v1 :: Inserted(InsertedWithEviction(before, tokenizedKey, entry, v1), after, originalKey, entry)
  }

  lemma InsertedBothGrew<E>(before: map<string, E>, after: map<string, E>, tokenizedKey: string, originalKey: string, entry: E)
    requires InsertedBoth(before, after, tokenizedKey, originalKey, entry)
    ensures originalKey in after && after[originalKey] == entry && Grew(before, after, {originalKey, tokenizedKey}, entry, 2)
    ensures |before| + 2 <= MAXIMUM_ENTRIES ==> after == before[tokenizedKey := entry][originalKey := entry]
  {
    if originalKey == tokenizedKey {
      OnceInserted(before, after, tokenizedKey, entry);
    } else {
      var v1 :| Inserted(InsertedWithEviction(before, tokenizedKey, entry, v1), after, originalKey, entry);
      ThenInserted(before, InsertedWithEviction(before, tokenizedKey, entry, v1), after, tokenizedKey, originalKey, entry);
    }
  }

  lemma OnceInserted<E>(before: map<string, E>, after: map<string, E>, key: string, entry: E)
    requires Inserted(before, after, key, entry)
    ensures key in after && after[key] == entry && Grew(before, after, {key, key}, entry, 2)
    ensures |before| + 2 <= MAXIMUM_ENTRIES ==> after == before[key := entry][key := entry]
  {
    InsertedGrew(before, after, key, entry);
    UpdateAgain(before, key, entry);
    GrewLess(before, after, key, entry);
  }

  lemma UpdateAgain<K, V>(m: map<K, V>, k: K, v: V)
    ensures m[k := v][k := v] == m[k := v]
  {
  }

  lemma GrewLess<E>(before: map<string, E>, after: map<string, E>, key: string, entry: E)
    requires Grew(before, after, {key}, entry, 1)
    ensures Grew(before, after, {key, key}, entry, 2)
  {
    assert {key, key} == {key};
  }

  lemma ThenInserted<E>(before: map<string, E>, once: map<string, E>, after: map<string, E>, tokenizedKey: string, originalKey: string, entry: E)
    requires Inserted(before, once, tokenizedKey, entry) && Inserted(once, after, originalKey, entry)
    ensures originalKey in after && after[originalKey] == entry && Grew(before, after, {originalKey, tokenizedKey}, entry, 2)
    ensures |before| + 2 <= MAXIMUM_ENTRIES ==> after == before[tokenizedKey := entry][originalKey := entry]
  {
    InsertedGrew(before, once, tokenizedKey, entry);
    InsertedGrew(once, after, originalKey, entry);
    GrewTwice(before, once, after, tokenizedKey, originalKey, entry);
    UpdateSize(before, tokenizedKey, entry);
  }

  lemma SubsetSize<T>(a: set<T>, b: set<T>)
    requires a <= b
    ensures |a| <= |b|
  {
    assert b == a + (b - a);
  }

  lemma GrewTwice<E>(before: map<string, E>, once: map<string, E>, twice: map<string, E>, first: string, second: string, entry: E)
    requires Grew(before, once, {first}, entry, 1) && Grew(once, twice, {second}, entry, 1)
    ensures Grew(before, twice, {second, first}, entry, 2)
  {
    var lost, a, b := before.Keys - twice.Keys, before.Keys - once.Keys, once.Keys - twice.Keys;
    SubsetSize(lost, a + b);
    assert |a + b| <= |a| + |b|;
  }

  /** What a successful call leaves behind: the entry under the original key; nothing else new but perhaps the entry under the
      tokenized key; at most two old entries lost. With room for two none is lost, and a new template stands under both keys. */
  ghost predicate Learned<E>(before: map<string, E>, after: map<string, E>, originalKey: string, tokenizedKey: string, entry: E) {
    && originalKey in after && after[originalKey] == entry
    && Grew(before, after, {originalKey, tokenizedKey}, entry, 2)
    && (|before| + 2 <= MAXIMUM_ENTRIES ==>
          && before.Keys <= after.Keys
          && (originalKey !in before ==> tokenizedKey in after && after[tokenizedKey] == entry))
  }

  lemma KnownAlready<E>(entries: map<string, E>, originalKey: string, tokenizedKey: string)
    requires originalKey in entries
    ensures Learned(entries, entries, originalKey, tokenizedKey, entries[originalKey])
  {
    assert entries.Keys - entries.Keys == {};
  }

  lemma AliasLearned<E>(before: map<string, E>, after: map<string, E>, originalKey: string, tokenizedKey: string, entry: E)
    requires Inserted(before, after, originalKey, entry)
    requires tokenizedKey in before && before[tokenizedKey] == entry
    ensures Learned(before, after, originalKey, tokenizedKey, entry)
  {
    InsertedGrew(before, after, originalKey, entry);
  }

  lemma BothLearned<E>(before: map<string, E>, after: map<string, E>, tokenizedKey: string, originalKey: string, entry: E)
    requires InsertedBoth(before, after, tokenizedKey, originalKey, entry)
    ensures Learned(before, after, originalKey, tokenizedKey, entry)
  {
    InsertedBothGrew(before, after, tokenizedKey, originalKey, entry);
  }

  datatype Answer<E> = Found(entry: E) | Refused

  /** One caller at a time. */
  class LogPreparationCache<E> {
    const renderer: Renderer<E>
    var entries: map<string, E>
    var compilationCount: nat

    constructor (renderer: Renderer<E>)
      ensures this.renderer == renderer && entries == map[] && compilationCount == 0
    {
      this.renderer := renderer;
      entries := map[];
      compilationCount := 0;
    }

    method Find(key: string) returns (found: Option<E>)
      ensures found == if key in entries then Some(entries[key]) else None
    {
      found := if key in entries then Some(entries[key]) else None;
    }

    /** Inserts or replaces; a full table loses one entry first. */
    method InsertAlias(key: string, entry: E)
      requires |entries| <= MAXIMUM_ENTRIES
      modifies this
      ensures |entries| <= MAXIMUM_ENTRIES
      ensures key in entries && entries[key] == entry && compilationCount == old(compilationCount)
      ensures Inserted(old(entries), entries, key, entry)
      ensures old(renderer.AllRight(entries)) && renderer.RightFor(key, entry) ==> renderer.AllRight(entries)
    {
      var victim := key;
      if |entries| >= MAXIMUM_ENTRIES && key !in entries {
        assert entries.Keys != {} by { assert |entries.Keys| == |entries|; }
        victim :| victim in entries;
        InsertedSize(entries, key, entry, victim, 0);
        entries := Evict(entries, victim);
      } else {
        InsertedSize(entries, key, entry, victim, 0);
      }
      entries := entries[key := entry];
      assert entries == InsertedWithEviction(old(entries), key, entry, victim);
    }

    /** Returns what direct compilation returns, for every item that compiles on its own. What was found or compiled can be
        found again: under the item's key always, and under the tokenized key as well if nothing had to be evicted. */
    method GetOrCompile(item: LogTemplate) returns (answer: Answer<E>)
      requires |entries| <= MAXIMUM_ENTRIES
      requires renderer.Regular(item) && renderer.AllRight(entries)
      modifies this
      ensures |entries| <= MAXIMUM_ENTRIES && renderer.AllRight(entries)
      ensures renderer.Compile(item).Some? ==> answer == Found(renderer.Compile(item).value) && CacheKey(item) in entries
      ensures renderer.Compile(item).None? && answer.Refused? ==> entries == old(entries)
      ensures renderer.Compile(item).None? ==>
                (answer.Refused? <==> CacheKey(item) !in old(entries) && CacheKey(renderer.Tokenize(item)) !in old(entries))
      ensures var missed := CacheKey(item) !in old(entries) && CacheKey(renderer.Tokenize(item)) !in old(entries);
              compilationCount == old(compilationCount) + (if missed && answer.Found? then 1 else 0)
      ensures answer.Found? ==> Learned(old(entries), entries, CacheKey(item), CacheKey(renderer.Tokenize(item)), answer.entry)
    {
      var originalKey := BuildKey(item);
      var cached := Find(originalKey);
      if cached.Some? {
        renderer.HitIsRight(item, cached.value);
        KnownAlready(entries, originalKey, CacheKey(renderer.Tokenize(item)));
        return Found(cached.value);
      }
      var tokenized := renderer.Tokenize(item);
      var tokenizedKey := BuildKey(tokenized);
      renderer.TokenizedCompilesAlike(item);
      cached := Find(tokenizedKey);
      if cached.Some? {
        renderer.AliasIsRight(item, cached.value);
        renderer.HitIsRight(item, cached.value);
        InsertAlias(originalKey, cached.value);
        AliasLearned(old(entries), entries, originalKey, tokenizedKey, cached.value);
        return Found(cached.value);
      }
      answer := CompileAnew(item, tokenized, originalKey, tokenizedKey);
    }

    /** The rest of a call that found nothing. */
    method CompileAnew(item: LogTemplate, tokenized: LogTemplate, originalKey: string, tokenizedKey: string) returns (answer: Answer<E>)
      requires |entries| <= MAXIMUM_ENTRIES
      requires renderer.Regular(item) && renderer.AllRight(entries)
      requires tokenized == renderer.Tokenize(item) && renderer.Compile(tokenized) == renderer.Compile(item)
      requires originalKey == CacheKey(item) && tokenizedKey == CacheKey(tokenized)
      modifies this
      ensures |entries| <= MAXIMUM_ENTRIES && renderer.AllRight(entries)
      ensures answer == if renderer.Compile(item).Some? then Found(renderer.Compile(item).value) else Refused
      ensures answer.Refused? ==> entries == old(entries) && compilationCount == old(compilationCount)
      ensures answer.Found? ==>
                && compilationCount == old(compilationCount) + 1
                && Learned(old(entries), entries, originalKey, tokenizedKey, answer.entry)
    {
      var compiled := renderer.Compile(tokenized);
      if compiled.None? {
        return Refused;
      }
      renderer.CompiledIsRight(item, compiled.value);
      Publish(originalKey, tokenizedKey, compiled.value);
      BothLearned(old(entries), entries, tokenizedKey, originalKey, compiled.value);
      compilationCount := compilationCount + 1;
      return Found(compiled.value);
    }

    /** The entry goes under the tokenized key, and under the original one if that is another. */
    method Publish(originalKey: string, tokenizedKey: string, entry: E)
      requires |entries| <= MAXIMUM_ENTRIES && renderer.AllRight(entries)
      requires renderer.RightFor(originalKey, entry) && renderer.RightFor(tokenizedKey, entry)
      modifies this
      ensures |entries| <= MAXIMUM_ENTRIES && renderer.AllRight(entries)
      ensures originalKey in entries && entries[originalKey] == entry && compilationCount == old(compilationCount)
      ensures InsertedBoth(old(entries), entries, tokenizedKey, originalKey, entry)
    {
      InsertAlias(tokenizedKey, entry);
      if originalKey != tokenizedKey {
        InsertAlias(originalKey, entry);
      }
    }

    /** A template asked for twice, the second time perhaps in its tokenized form, is compiled once. */
    method GetTwice(item: LogTemplate, tokenizedThen: bool) returns (first: Answer<E>, second: Answer<E>)
      requires |entries| + 2 <= MAXIMUM_ENTRIES
      requires renderer.Regular(item) && renderer.AllRight(entries)
      requires CacheKey(item) !in entries && CacheKey(renderer.Tokenize(item)) !in entries
      modifies this
      ensures first.Found? ==> second == first && compilationCount == old(compilationCount) + 1
      ensures first.Refused? ==> second.Refused? && compilationCount == old(compilationCount) && entries == old(entries)
    {
      renderer.TokenizedCompilesAlike(item);
      first := GetOrCompile(item);
      second := GetOrCompile(if tokenizedThen then renderer.Tokenize(item) else item);
    }
  }

  // ----- any number of callers, interleaved between the critical sections -----

  /** Where a call stands. `original` is the caller's template; `item` is the one being looked up. */
  datatype Phase<E> =
    | Idle
    | LookOriginal(original: LogTemplate, item: LogTemplate)
    | LookTokenized(original: LogTemplate, item: LogTemplate)
    | StoreAlias(original: LogTemplate, item: LogTemplate, entry: E)
    | Publish(original: LogTemplate, item: LogTemplate, entry: E)
    | StoreOriginal(original: LogTemplate, entry: E)
    | Returned(original: LogTemplate, entry: E)
    | Thrown(original: LogTemplate)

  datatype Shared<E> = Shared(entries: map<string, E>, calls: seq<Phase<E>>, races: nat)

  /** A caller starts get_or_compile, or tokenize_and_cache, which tokenizes first; or it does its next atomic section. */
  datatype Step =
    | Begin(caller: nat, item: LogTemplate, tokenizeFirst: bool)
    | Advance(caller: nat, victim: string, secondVictim: string)

  /** After get_or_compile has its entry: done, or tokenize_and_cache still stores the caller's own key. */
  function Finish<E>(original: LogTemplate, item: LogTemplate, entry: E): Phase<E> {
    if CacheKey(original) == CacheKey(item) then Returned(original, entry) else StoreOriginal(original, entry)
  }

  /** The publishing section: table afterwards, entry returned, and whether another caller had published first. */
  function Published<E>(entries: map<string, E>, tokenizedKey: string, originalKey: string, entry: E, v1: string, v2: string): (map<string, E>, E, bool) {
    if tokenizedKey in entries then (entries[originalKey := entries[tokenizedKey]], entries[tokenizedKey], true)
    else
      var once := InsertedWithEviction(entries, tokenizedKey, entry, v1);
      (if originalKey == tokenizedKey then once else InsertedWithEviction(once, originalKey, entry, v2), entry, false)
  }

  function Apply<E>(r: Renderer<E>, s: Shared<E>, step: Step): Shared<E>
    requires step.caller < |s.calls|
  {
    var c := step.caller;
    match step
    case Begin(_, item, tokenizeFirst) =>
      s.(calls := s.calls[c := LookOriginal(item, if tokenizeFirst then r.Tokenize(item) else item)])
    case Advance(_, v1, v2) =>
      match s.calls[c]
      case LookOriginal(original, item) =>
        var key := CacheKey(item);
        s.(calls := s.calls[c := if key in s.entries then Finish(original, item, s.entries[key]) else LookTokenized(original, item)])
      case LookTokenized(original, item) =>
        var key := CacheKey(r.Tokenize(item));
        s.(calls := s.calls[c :=
          if key in s.entries then StoreAlias(original, item, s.entries[key])
          else match r.Compile(r.Tokenize(item)) { case Some(entry) => Publish(original, item, entry) case None => Thrown(original) }])
      case StoreAlias(original, item, entry) =>
        s.(entries := InsertedWithEviction(s.entries, CacheKey(item), entry, v1), calls := s.calls[c := Finish(original, item, entry)])
      case Publish(original, item, entry) =>
        var (entries, chosen, raced) := Published(s.entries, CacheKey(r.Tokenize(item)), CacheKey(item), entry, v1, v2);
        Shared(entries, s.calls[c := Finish(original, item, chosen)], s.races + if raced then 1 else 0)
      case StoreOriginal(original, entry) =>
        s.(entries := InsertedWithEviction(s.entries, CacheKey(original), entry, v1), calls := s.calls[c := Returned(original, entry)])
      case Idle => s
      case Returned(_, _) => s
      case Thrown(_) => s
  }

  /** A caller begins when it is free, with any regular item, whether it compiles or not; victims are entries. */
  ghost predicate Possible<E>(r: Renderer<E>, s: Shared<E>, step: Step) {
    && step.caller < |s.calls|
    && (match step
        case Begin(c, item, _) => (s.calls[c].Idle? || s.calls[c].Returned? || s.calls[c].Thrown?) && r.Regular(item)
        case Advance(c, v1, v2) =>
          && (|s.entries| >= MAXIMUM_ENTRIES ==> v1 in s.entries)
          && (s.calls[c].Publish? ==>
                var once := InsertedWithEviction(s.entries, CacheKey(r.Tokenize(s.calls[c].item)), s.calls[c].entry, v1);
                |once| >= MAXIMUM_ENTRIES ==> v2 in once))
  }

  /** The item being looked up is the caller's or its tokenized form, and the caller's is regular. */
  predicate Looking<E>(r: Renderer<E>, original: LogTemplate, item: LogTemplate) {
    r.Regular(original) && (item == original || item == r.Tokenize(original))
  }

  ghost predicate GoodPhase<E>(r: Renderer<E>, p: Phase<E>) {
    match p
    case Idle => true
    case LookOriginal(original, item) => Looking(r, original, item)
    case LookTokenized(original, item) => Looking(r, original, item)
    case StoreAlias(original, item, entry) => Looking(r, original, item) && r.RightFor(CacheKey(r.Tokenize(item)), entry)
    case Publish(original, item, entry) => Looking(r, original, item) && r.Compile(item) == Some(entry)
    case StoreOriginal(original, entry) => r.Regular(original) && r.RightFor(CacheKey(r.Tokenize(original)), entry)
    case Returned(original, entry) => r.Regular(original) && r.RightFor(CacheKey(original), entry)
    case Thrown(original) => r.Compile(original).None?
  }

  ghost predicate Good<E>(r: Renderer<E>, s: Shared<E>) {
    && r.AllRight(s.entries)
    && (forall c :: 0 <= c < |s.calls| ==> GoodPhase(r, s.calls[c]))
    && |s.entries| <= MAXIMUM_ENTRIES + s.races
  }

  lemma LookedIsRegular<E>(r: Renderer<E>, original: LogTemplate, item: LogTemplate)
    requires Looking(r, original, item)
    ensures r.Regular(item) && r.Tokenize(item) == r.Tokenize(original)
    ensures r.Compile(r.Tokenize(item)) == r.Compile(original) == r.Compile(item)
  {
    r.TokenizedCompilesAlike(original);
  }

  lemma FinishGood<E>(r: Renderer<E>, original: LogTemplate, item: LogTemplate, entry: E)
    requires Looking(r, original, item) && r.RightFor(CacheKey(item), entry)
    ensures GoodPhase(r, Finish(original, item, entry))
  {
  }

  lemma ReplaceGood<E>(r: Renderer<E>, s: Shared<E>, c: nat, entries: map<string, E>, after: Phase<E>, races: nat)
    requires Good(r, s) && c < |s.calls| && GoodPhase(r, after)
    requires r.AllRight(entries) && |entries| <= MAXIMUM_ENTRIES + races
    ensures Good(r, Shared(entries, s.calls[c := after], races))
  {
  }

  /** Another caller has published first: its entry is the same. */
  lemma RacedGood<E>(r: Renderer<E>, entries: map<string, E>, item: LogTemplate, entry: E)
    requires r.AllRight(entries) && r.Regular(item) && r.Compile(item) == Some(entry) && CacheKey(r.Tokenize(item)) in entries
    ensures entries[CacheKey(r.Tokenize(item))] == entry
    ensures r.AllRight(entries[CacheKey(item) := entry]) && |entries[CacheKey(item) := entry]| <= |entries| + 1
  {
    r.TokenizedCompilesAlike(item);
    r.CompiledIsRight(item, entry);
    r.HitIsRight(r.Tokenize(item), entries[CacheKey(r.Tokenize(item))]);
    UpdateSize(entries, CacheKey(item), entry);
  }

  lemma PublishedGood<E>(r: Renderer<E>, s: Shared<E>, item: LogTemplate, entry: E, v1: string, v2: string)
    requires Good(r, s) && r.Regular(item) && r.Compile(item) == Some(entry)
    requires |s.entries| >= MAXIMUM_ENTRIES ==> v1 in s.entries
    requires var once := InsertedWithEviction(s.entries, CacheKey(r.Tokenize(item)), entry, v1);
             |once| >= MAXIMUM_ENTRIES ==> v2 in once
    ensures var (entries, chosen, raced) := Published(s.entries, CacheKey(r.Tokenize(item)), CacheKey(item), entry, v1, v2);
            && r.AllRight(entries) && chosen == entry
            && |entries| <= MAXIMUM_ENTRIES + s.races + (if raced then 1 else 0)
  {
    var tokenizedKey, originalKey := CacheKey(r.Tokenize(item)), CacheKey(item);
    if tokenizedKey in s.entries {
      RacedGood(r, s.entries, item, entry);
    } else {
      r.CompiledIsRight(item, entry);
      BothInserted(r, s.entries, tokenizedKey, originalKey, entry, v1, v2, s.races);
      PublishedFirst(r, s.entries, tokenizedKey, originalKey, entry, v1, v2, s.races);
    }
  }

  /** After publishing, both keys have the entry that is returned, unless the second eviction hits the first insertion. */
  lemma PublishedUnderBoth<E>(entries: map<string, E>, tokenizedKey: string, originalKey: string, entry: E, v1: string, v2: string)
    ensures var (after, chosen, raced) := Published(entries, tokenizedKey, originalKey, entry, v1, v2);
            && originalKey in after && after[originalKey] == chosen
            && (v2 != tokenizedKey || |entries| + 2 <= MAXIMUM_ENTRIES ==> tokenizedKey in after && after[tokenizedKey] == chosen)
            && (!raced ==> chosen == entry) && (raced <==> tokenizedKey in entries)
  {
    UpdateSize(entries, tokenizedKey, entry);
  }

  lemma PublishedFirst<E>(r: Renderer<E>, entries: map<string, E>, tokenizedKey: string, originalKey: string, entry: E, v1: string, v2: string, races: nat)
    requires tokenizedKey !in entries
    requires var once := InsertedWithEviction(entries, tokenizedKey, entry, v1);
             var twice := InsertedWithEviction(once, originalKey, entry, v2);
             r.AllRight(once) && r.AllRight(twice) && |once| <= MAXIMUM_ENTRIES + races && |twice| <= MAXIMUM_ENTRIES + races
    ensures var (after, chosen, raced) := Published(entries, tokenizedKey, originalKey, entry, v1, v2);
            r.AllRight(after) && chosen == entry && !raced && |after| <= MAXIMUM_ENTRIES + races
  {
  }

  lemma BothInserted<E>(r: Renderer<E>, entries: map<string, E>, first: string, second: string, entry: E, v1: string, v2: string, extra: nat)
    requires r.AllRight(entries) && r.RightFor(first, entry) && r.RightFor(second, entry)
    requires |entries| <= MAXIMUM_ENTRIES + extra && (|entries| >= MAXIMUM_ENTRIES ==> v1 in entries)
    requires var once := InsertedWithEviction(entries, first, entry, v1); |once| >= MAXIMUM_ENTRIES ==> v2 in once
    ensures var once := InsertedWithEviction(entries, first, entry, v1);
            var twice := InsertedWithEviction(once, second, entry, v2);
            && r.AllRight(once) && |once| <= MAXIMUM_ENTRIES + extra
            && r.AllRight(twice) && |twice| <= MAXIMUM_ENTRIES + extra
  {
    InsertRight(r, entries, first, entry, v1);
    InsertedSize(entries, first, entry, v1, extra);
    var once := InsertedWithEviction(entries, first, entry, v1);
    InsertRight(r, once, second, entry, v2);
    InsertedSize(once, second, entry, v2, extra);
  }

  lemma LookOriginalGood<E>(r: Renderer<E>, s: Shared<E>, c: nat, v1: string, v2: string)
    requires Good(r, s) && c < |s.calls| && s.calls[c].LookOriginal?
    ensures Good(r, Apply(r, s, Advance(c, v1, v2)))
  {
    var call := s.calls[c];
    assert GoodPhase(r, call);
    var key := CacheKey(call.item);
    if key in s.entries {
      FinishGood(r, call.original, call.item, s.entries[key]);
      ReplaceGood(r, s, c, s.entries, Finish(call.original, call.item, s.entries[key]), s.races);
    } else {
      ReplaceGood(r, s, c, s.entries, LookTokenized(call.original, call.item), s.races);
    }
  }

  lemma LookTokenizedGood<E>(r: Renderer<E>, s: Shared<E>, c: nat, v1: string, v2: string)
    requires Good(r, s) && c < |s.calls| && s.calls[c].LookTokenized?
    ensures Good(r, Apply(r, s, Advance(c, v1, v2)))
  {
    var call := s.calls[c];
    assert GoodPhase(r, call);
    LookedIsRegular(r, call.original, call.item);
    var key := CacheKey(r.Tokenize(call.item));
    if key in s.entries {
      ReplaceGood(r, s, c, s.entries, StoreAlias(call.original, call.item, s.entries[key]), s.races);
    } else {
      var compiled := r.Compile(r.Tokenize(call.item));
      ReplaceGood(r, s, c, s.entries,
                  if compiled.Some? then Publish(call.original, call.item, compiled.value) else Thrown(call.original), s.races);
    }
  }

  lemma InsertGood<E>(r: Renderer<E>, s: Shared<E>, c: nat, key: string, entry: E, after: Phase<E>, victim: string)
    requires Good(r, s) && c < |s.calls| && GoodPhase(r, after) && r.RightFor(key, entry)
    requires |s.entries| >= MAXIMUM_ENTRIES ==> victim in s.entries
    ensures Good(r, s.(entries := InsertedWithEviction(s.entries, key, entry, victim), calls := s.calls[c := after]))
  {
    InsertRight(r, s.entries, key, entry, victim);
    InsertedSize(s.entries, key, entry, victim, s.races);
  }

  lemma StoreAliasGood<E>(r: Renderer<E>, s: Shared<E>, c: nat, v1: string, v2: string)
    requires Good(r, s) && c < |s.calls| && s.calls[c].StoreAlias?
    requires |s.entries| >= MAXIMUM_ENTRIES ==> v1 in s.entries
    ensures Good(r, Apply(r, s, Advance(c, v1, v2)))
  {
    var call := s.calls[c];
    assert GoodPhase(r, call);
    LookedIsRegular(r, call.original, call.item);
    r.AliasIsRight(call.item, call.entry);
    FinishGood(r, call.original, call.item, call.entry);
    InsertGood(r, s, c, CacheKey(call.item), call.entry, Finish(call.original, call.item, call.entry), v1);
  }

  lemma StoreOriginalGood<E>(r: Renderer<E>, s: Shared<E>, c: nat, v1: string, v2: string)
    requires Good(r, s) && c < |s.calls| && s.calls[c].StoreOriginal?
    requires |s.entries| >= MAXIMUM_ENTRIES ==> v1 in s.entries
    ensures Good(r, Apply(r, s, Advance(c, v1, v2)))
  {
    var call := s.calls[c];
    assert GoodPhase(r, call);
    r.AliasIsRight(call.original, call.entry);
    InsertGood(r, s, c, CacheKey(call.original), call.entry, Returned(call.original, call.entry), v1);
  }

  lemma PublishApplied<E>(r: Renderer<E>, s: Shared<E>, c: nat, v1: string, v2: string)
    requires c < |s.calls| && s.calls[c].Publish?
    ensures var call := s.calls[c];
            var (entries, chosen, raced) := Published(s.entries, CacheKey(r.Tokenize(call.item)), CacheKey(call.item), call.entry, v1, v2);
            Apply(r, s, Advance(c, v1, v2))
            == Shared(entries, s.calls[c := Finish(call.original, call.item, chosen)], s.races + if raced then 1 else 0)
  {
  }

  lemma PublishGood<E>(r: Renderer<E>, s: Shared<E>, c: nat, v1: string, v2: string)
    requires Good(r, s) && c < |s.calls| && s.calls[c].Publish?
    requires |s.entries| >= MAXIMUM_ENTRIES ==> v1 in s.entries
    requires var once := InsertedWithEviction(s.entries, CacheKey(r.Tokenize(s.calls[c].item)), s.calls[c].entry, v1);
             |once| >= MAXIMUM_ENTRIES ==> v2 in once
    ensures Good(r, Apply(r, s, Advance(c, v1, v2)))
  {
    var call := s.calls[c];
    assert GoodPhase(r, call);
    LookedIsRegular(r, call.original, call.item);
    PublishedGood(r, s, call.item, call.entry, v1, v2);
    r.CompiledIsRight(call.item, call.entry);
    FinishGood(r, call.original, call.item, call.entry);
    PublishApplied(r, s, c, v1, v2);
    var (entries, chosen, raced) := Published(s.entries, CacheKey(r.Tokenize(call.item)), CacheKey(call.item), call.entry, v1, v2);
    ReplaceGood(r, s, c, entries, Finish(call.original, call.item, chosen), s.races + if raced then 1 else 0);
  }

  lemma StepKeepsGood<E>(r: Renderer<E>, s: Shared<E>, step: Step)
    requires Good(r, s) && Possible(r, s, step)
    ensures Good(r, Apply(r, s, step))
  {
    match step
    case Begin(c, item, first) =>
      ReplaceGood(r, s, c, s.entries, LookOriginal(item, if first then r.Tokenize(item) else item), s.races);
    case Advance(c, v1, v2) =>
      match s.calls[c] {
        case LookOriginal(_, _) => LookOriginalGood(r, s, c, v1, v2);
        case LookTokenized(_, _) => LookTokenizedGood(r, s, c, v1, v2);
        case StoreAlias(_, _, _) => StoreAliasGood(r, s, c, v1, v2);
        case StoreOriginal(_, _) => StoreOriginalGood(r, s, c, v1, v2);
        case Publish(_, _, _) => PublishGood(r, s, c, v1, v2);
        case Idle =>
        case Returned(_, _) =>
        case Thrown(_) =>
      }
  }

  function Empty<E>(callers: nat): Shared<E> {
    Shared(map[], seq(callers, _ => Idle), 0)
  }

  /** Some interleaving of steps leads from the empty cache to s. */
  least predicate Reachable<E(!new)>(r: Renderer<E>, s: Shared<E>) {
    || s == Empty(|s.calls|)
    || exists before: Shared<E>, step :: Reachable(r, before) && Possible(r, before, step) && s == Apply(r, before, step)
  }

  least lemma ReachableIsGood<E(!new)>(r: Renderer<E>, s: Shared<E>)
    requires Reachable(r, s)
    ensures Good(r, s)
  {
    if s != Empty(|s.calls|) {
      var before: Shared<E>, step :| Reachable(r, before) && Possible(r, before, step) && s == Apply(r, before, step);
      ReachableIsGood(r, before);
      StepKeepsGood(r, before, step);
    }
  }

  /** Under every interleaving of regular requests: a call for a template that compiles never throws, and when it returns it has
      what direct compilation gives; the table exceeds 512 entries at most by the number of lost publishing races. */
  lemma CacheIsTransparent<E(!new)>(r: Renderer<E>, s: Shared<E>, c: nat)
    requires Reachable(r, s) && c < |s.calls|
    ensures s.calls[c].Returned? && r.Compile(s.calls[c].original).Some? ==> r.Compile(s.calls[c].original) == Some(s.calls[c].entry)
    ensures s.calls[c].Thrown? ==> r.Compile(s.calls[c].original).None?
    ensures |s.entries| <= MAXIMUM_ENTRIES + s.races
  {
    ReachableIsGood(r, s);
    assert GoodPhase(r, s.calls[c]);
    if s.calls[c].Returned? {
      r.HitIsRight(s.calls[c].original, s.calls[c].entry);
    }
  }

  /** The loser of a publishing race inserts its alias without evicting: a full table grows. */
  lemma RacingInsertGrows<E>(entries: map<string, E>, tokenizedKey: string, originalKey: string, entry: E, v1: string, v2: string)
    requires |entries| >= MAXIMUM_ENTRIES && tokenizedKey in entries
    ensures |Published(entries, tokenizedKey, originalKey, entry, v1, v2).0| > |entries| <==> originalKey !in entries
  {
    UpdateSize(entries, originalKey, entries[tokenizedKey]);
  }
}
