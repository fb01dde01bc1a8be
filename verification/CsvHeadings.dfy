/** What counts as a heading or a byte order mark, told without the loader's trimming and lower-casing, and the file that loads. */
module CsvHeadings {
  import opened CsvReader

  function Bytes(s: string): (bytes: seq<int>)
    ensures |bytes| == |s| && forall i :: 0 <= i < |s| ==> bytes[i] == s[i] as int
  {
    seq(|s|, i requires 0 <= i < |s| => s[i] as int)
  }

  /** The same letters as a word written in small letters, in either case. */
  predicate Spells(core: string, word: string) {
    |core| == |word| && forall i :: 0 <= i < |word| ==> SameLetter(core[i], word[i])
  }

  predicate SameLetter(c: char, small: char) {
    c == small || ('a' <= small <= 'z' && c as int == small as int - 32)
  }

  /** The Korean for "sample log" in UTF-8, in one word or two. */
  const KOREAN_SAMPLE := [0xEC, 0x83, 0x98, 0xED, 0x94, 0x8C]
  const KOREAN_LOG := [0xEB, 0xA1, 0x9C, 0xEA, 0xB7, 0xB8]

  predicate HeadingWord(core: string) {
    || Spells(core, "sample") || Spells(core, "sample_log")
    || Bytes(core) == KOREAN_SAMPLE + KOREAN_LOG || Bytes(core) == KOREAN_SAMPLE + [0x20] + KOREAN_LOG
  }

  predicate AllBlank(s: string) { forall i :: 0 <= i < |s| ==> s[i] == ' ' || s[i] == '\t' }

  ghost predicate Heading(value: string) {
    exists before, core, after :: value == before + (core + after) && AllBlank(before) && AllBlank(after) && HeadingWord(core)
  }

  // ----- trimming -----

  lemma {:induction false} TrimLeftCuts(s: string) returns (before: string)
    ensures s == before + TrimLeft(s) && AllBlank(before)
  {
    if s != "" && IsBlank(s[0]) {
      var rest := TrimLeftCuts(s[1..]);
      before := [s[0]] + rest;
      assert s == [s[0]] + s[1..];
    } else {
      before := "";
    }
  }

  lemma {:induction false} TrimRightCuts(s: string) returns (after: string)
    ensures s == TrimRight(s) + after && AllBlank(after)
    decreases |s|
  {
    if s != "" && IsBlank(s[|s| - 1]) {
      var rest := TrimRightCuts(s[..|s| - 1]);
      after := rest + [s[|s| - 1]];
      assert s == s[..|s| - 1] + [s[|s| - 1]];
    } else {
      after := "";
    }
  }

  lemma {:induction false} TrimLeftTo(before: string, s: string)
    requires AllBlank(before) && s != "" && !IsBlank(s[0])
    ensures TrimLeft(before + s) == s
  {
    if before == "" {
      assert before + s == s;
    } else {
      assert (before + s)[1..] == before[1..] + s;
      TrimLeftTo(before[1..], s);
    }
  }

  lemma {:induction false} TrimRightTo(s: string, after: string)
    requires AllBlank(after) && s != "" && !IsBlank(s[|s| - 1])
    ensures TrimRight(s + after) == s
  {
    if after == "" {
      assert s + after == s;
    } else {
      assert (s + after)[..|s + after| - 1] == s + after[..|after| - 1];
      TrimRightTo(s, after[..|after| - 1]);
    }
  }

  // ----- the four words -----

  lemma LowerSpells(core: string, word: string)
    requires forall i :: 0 <= i < |word| ==> 'a' <= word[i] <= 'z' || word[i] == '_'
    ensures Lower(core) == word <==> Spells(core, word)
  {
    if Spells(core, word) {
      assert forall i :: 0 <= i < |word| ==> SameLetter(core[i], word[i]);
    }
    if Lower(core) == word {
      forall i | 0 <= i < |word| ensures SameLetter(core[i], word[i]) {
        assert Lower(core)[i] == word[i];
      }
    }
  }

  /** No byte of the word is a letter, so case does not matter. */
  lemma LowerLeaves(core: string, word: string, bytes: seq<int>)
    requires Bytes(word) == bytes && forall i :: 0 <= i < |bytes| ==> bytes[i] > 'z' as int || bytes[i] == 0x20
    ensures Lower(core) == word <==> Bytes(core) == bytes
  {
    if Bytes(core) == bytes {
      forall i | 0 <= i < |core| ensures Lower(core)[i] == word[i] {
        assert Bytes(core)[i] == Bytes(word)[i] == bytes[i];
      }
    }
    if Lower(core) == word {
      forall i | 0 <= i < |core| ensures Bytes(core)[i] == bytes[i] {
        assert Lower(core)[i] == word[i] && Bytes(word)[i] == bytes[i];
      }
    }
  }

  const ONE_WORD := "\U{EC}\U{83}\U{98}\U{ED}\U{94}\U{8C}\U{EB}\U{A1}\U{9C}\U{EA}\U{B7}\U{B8}"
  const TWO_WORDS := "\U{EC}\U{83}\U{98}\U{ED}\U{94}\U{8C} \U{EB}\U{A1}\U{9C}\U{EA}\U{B7}\U{B8}"

  lemma OneWordBytes()
    ensures Bytes(ONE_WORD) == KOREAN_SAMPLE + KOREAN_LOG
  {
  }

  lemma TwoWordsBytes()
    ensures Bytes(TWO_WORDS) == KOREAN_SAMPLE + [0x20] + KOREAN_LOG
  {
  }

  lemma LowerIsHeading(core: string)
    ensures Lower(core) in HEADERS <==> HeadingWord(core)
  {
    LowerSpells(core, "sample");
    LowerSpells(core, "sample_log");
    OneWordBytes();
    LowerLeaves(core, ONE_WORD, KOREAN_SAMPLE + KOREAN_LOG);
    TwoWordsBytes();
    LowerLeaves(core, TWO_WORDS, KOREAN_SAMPLE + [0x20] + KOREAN_LOG);
  }

  lemma HeadingWordEnds(core: string)
    requires HeadingWord(core)
    ensures core != "" && !IsBlank(core[0]) && !IsBlank(core[|core| - 1])
  {
    var n := |core|;
    if Spells(core, "sample") {
      assert SameLetter(core[0], 's') && SameLetter(core[n - 1], 'e');
    } else if Spells(core, "sample_log") {
      assert SameLetter(core[0], 's') && SameLetter(core[n - 1], 'g');
    } else {
      assert n > 0 && Bytes(core)[0] == 0xEC && Bytes(core)[n - 1] == 0xB8;
    }
  }

  /** A field is taken for a heading if and only if it is one of the four words, in any case, between blanks. */
  lemma HeadingExactly(value: string)
    ensures IsOptionalHeader(value) <==> Heading(value)
  {
    if before, core, after :| value == before + (core + after) && AllBlank(before) && AllBlank(after) && HeadingWord(core) {
      HeadingWordEnds(core);
      assert (core + after)[0] == core[0];
      TrimLeftTo(before, core + after);
      TrimRightTo(core, after);
      LowerIsHeading(core);
    }
    if IsOptionalHeader(value) {
      var rest := TrimLeft(value);
      var before := TrimLeftCuts(value);
      var after := TrimRightCuts(rest);
      LowerIsHeading(TrimRight(rest));
      assert value == before + (TrimRight(rest) + after);
    }
  }

  // ----- the file that loads -----

  /** The content of a file that may start with a UTF-8 byte order mark. */
  ghost predicate FileOf(content: string, text: string) {
    || (content == text && !(|text| >= 3 && Bytes(text[..3]) == [0xEF, 0xBB, 0xBF]))
    || (content != "" && |content| >= 3 && Bytes(content[..3]) == [0xEF, 0xBB, 0xBF] && content[3..] == text)
  }

  lemma BomExactly(s: string)
    ensures BOM <= s <==> |s| >= 3 && Bytes(s[..3]) == [0xEF, 0xBB, 0xBF]
  {
    assert Bytes(BOM) == [0xEF, 0xBB, 0xBF];
    if |s| >= 3 {
      assert forall i :: 0 <= i < 3 ==> Bytes(s[..3])[i] == s[i] as int && Bytes(BOM)[i] == BOM[i] as int;
      assert BOM <= s <==> s[..3] == BOM;
    }
  }

  lemma BomIsDropped(content: string, text: string)
    requires FileOf(content, text)
    ensures WithoutBom(content) == text
  {
    BomExactly(content);
  }

  function FirstColumn(lines: seq<Line>): (values: seq<string>)
    requires forall i :: 0 <= i < |lines| ==> |lines[i].cells| == 1
    ensures |values| == |lines| && forall i :: 0 <= i < |lines| ==> values[i] == Normalised(lines[i].cells[0].value)
  {
    seq(|lines|, i requires 0 <= i < |lines| => Normalised(lines[i].cells[0].value))
  }

  /** A file with one written, non-empty sample per line, with or without a byte order mark, loads as exactly those
      samples in order, the first left out if and only if it is a heading. */
  lemma FileLoads(content: string, lines: seq<Line>, finalBreak: bool, result: LoadResult)
    requires forall i :: 0 <= i < |lines| ==> |lines[i].cells| == 1 && WritableRow(lines[i].cells) && lines[i].cells[0].value != ""
    requires lines != [] && !TableHasNul(lines)
    requires FileOf(content, TableText(lines, finalBreak)) && LoadedFrom(Scan(WithoutBom(content), START), result)
    ensures var values := FirstColumn(lines);
            var samples := if Heading(values[0]) then values[1..] else values;
            result == if samples == [] then NoSamples else Samples(samples)
  {
    BomIsDropped(content, TableText(lines, finalBreak));
    LoadRoundTrip(lines, finalBreak, result);
    var rows, values := TableValues(lines), FirstColumn(lines);
    forall i | 0 <= i < |rows| ensures rows[i][0] == values[i] {
      assert rows[i] == CellValues(lines[i].cells);
    }
    HeadingExactly(values[0]);
    assert ColumnSamples(rows) == if Heading(values[0]) then values[1..] else values;
  }
}
