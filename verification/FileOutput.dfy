/** Names of generated files. */
module FileNames {
  import opened Decimal

  function Padded(digits: string): string {
    seq(if |digits| < 4 then 4 - |digits| else 0, _ => '0') + digits
  }

  /** The first file carries the bare timestamp, the others a sequence number of at least four digits. */
  function FileName(timestamp: string, index: nat): string {
    timestamp + ((if index > 0 then "_" + Padded(ToDecimal(index + 1)) else "") + ".log")
  }

  /** What a name looks like: the timestamp; behind it, for every file but the first, the file's number in decimal with at
      least four digits; the extension. */
  lemma FileNameShape(timestamp: string, index: nat) returns (number: string)
    ensures FileName(timestamp, index) == timestamp + number + ".log"
    ensures index == 0 ==> number == ""
    ensures index > 0 ==>
              && |number| >= 5 && number[0] == '_' && AllDigits(number[1..]) && FromDecimal(number[1..]) == index + 1
              && (|number| > 5 ==> number[1] != '0')
  {
    number := if index == 0 then "" else "_" + Padded(ToDecimal(index + 1));
    PaddedValue(index + 1);
    assert index > 0 ==> number[1..] == Padded(ToDecimal(index + 1));
  }

  lemma PaddedValue(n: nat)
    ensures AllDigits(Padded(ToDecimal(n))) && FromDecimal(Padded(ToDecimal(n))) == n
  {
    var digits := ToDecimal(n);
    LeadingZeros(digits, seq(if |digits| < 4 then 4 - |digits| else 0, _ => '0'));
    DecimalRoundTrip(n);
  }

  lemma StripSuffix(a: string, b: string, suffix: string)
    requires a + suffix == b + suffix
    ensures a == b
  {
    assert |a| == |b|;
    assert (a + suffix)[..|a|] == a && (b + suffix)[..|b|] == b;
  }

  lemma StripPrefix(prefix: string, a: string, b: string)
    requires prefix + a == prefix + b
    ensures a == b
  {
    assert (prefix + a)[|prefix|..] == a && (prefix + b)[|prefix|..] == b;
  }

  /** Different indices never share a name. */
  lemma FileNameInjective(timestamp: string, i: nat, j: nat)
    requires FileName(timestamp, i) == FileName(timestamp, j)
    ensures i == j
  {
    var a := if i > 0 then "_" + Padded(ToDecimal(i + 1)) else "";
    var b := if j > 0 then "_" + Padded(ToDecimal(j + 1)) else "";
    StripPrefix(timestamp, a + ".log", b + ".log");
    StripSuffix(a, b, ".log");
    if i > 0 && j > 0 {
      StripPrefix("_", Padded(ToDecimal(i + 1)), Padded(ToDecimal(j + 1)));
      PaddedValue(i + 1);
      PaddedValue(j + 1);
    }
  }
}

/** The FILE transport: one new file per log line, under limits. */
module FileOutput {
  import opened Text
  import opened Framing
  import opened FileNames
  import opened Limits

  datatype SendResult = Sent | TotalBytesLimitReached | FileCountLimitReached | DurationLimitReached

  /** The output directory. Opening with O_EXCL fails on an existing name. */
  class Directory {
    var files: map<string, string>

    constructor (files: map<string, string>)
      ensures this.files == files
    {
      this.files := files;
    }

    method CreateExclusive(name: string, content: string) returns (created: bool)
      modifies this
      ensures created <==> name !in old(files)
      ensures files == if created then old(files)[name := content] else old(files)
    {
      created := name !in files;
      if created {
        files := files[name := content];
      }
    }
  }

  datatype FileLimits = FileLimits(bytes: nat, count: nat, duration: nat)

  /** The line count of `send`: line feeds, plus one for an unfinished last line. */
  method CountLogs(payload: string) returns (count: nat)
    requires payload != ""
    ensures count == |Lines(payload)|
  {
    count := 0;
    for i := 0 to |payload|
      invariant count == LineFeeds(payload[..i])
    {
      assert payload[..i + 1][..i] == payload[..i];
      if payload[i] == '\n' {
        count := count + 1;
      }
    }
    assert payload[..|payload|] == payload;
    LinesCount(payload);
    if payload[|payload| - 1] != '\n' {
      count := count + 1;
    }
  }

  function LineFeeds(s: string): nat {
    if s == "" then 0 else LineFeeds(s[..|s| - 1]) + (if s[|s| - 1] == '\n' then 1 else 0)
  }

  lemma {:induction false} LineFeedsAppend(a: string, b: string)
    ensures LineFeeds(a + b) == LineFeeds(a) + LineFeeds(b)
  {
    if b == "" {
      assert a + b == a;
    } else {
      assert (a + b)[..|a + b| - 1] == a + b[..|b| - 1];
      LineFeedsAppend(a, b[..|b| - 1]);
    }
  }

  lemma {:induction false} NoLineFeeds(s: string)
    requires Find(s, "\n", 0) == -1
    ensures LineFeeds(s) == 0 && '\n' !in s
  {
    if i :| 0 <= i < |s| && s[i] == '\n' {
      assert s[i..i + 1] == "\n";
      assert OccursAt(s, "\n", i);
      FindIsFirst(s, "\n", 0);
    }
    ZeroLineFeeds(s);
  }

  lemma {:induction false} ZeroLineFeeds(s: string)
    requires '\n' !in s
    ensures LineFeeds(s) == 0
  {
    if s != "" {
      ZeroLineFeeds(s[..|s| - 1]);
    }
  }

  /** The first line: no line feed before its last character. */
  lemma FirstLineFeed(s: string)
    requires Find(s, "\n", 0) != -1
    ensures var lf := Find(s, "\n", 0);
            s == s[..lf + 1] + s[lf + 1..] && s[lf] == '\n' && LineFeeds(s[..lf + 1]) == 1
  {
    FindIsFirst(s, "\n", 0);
    var lf := Find(s, "\n", 0);
    assert s[lf..lf + 1] == [s[lf]];
    forall i | 0 <= i < lf ensures s[i] != '\n' {
      assert OccursAt(s, "\n", i) <==> s[i..i + 1] == [s[i]] == "\n";
    }
    assert s[..lf + 1][..lf] == s[..lf];
    ZeroLineFeeds(s[..lf]);
  }

  lemma {:induction false} LinesCount(s: string)
    requires s != ""
    ensures |Lines(s)| == LineFeeds(s) + (if s[|s| - 1] == '\n' then 0 else 1)
    decreases |s|
  {
    var first, rest := FirstLine(s);
    LineFeedsAppend(first, rest);
    if Find(s, "\n", 0) == -1 {
      NoLineFeeds(s);
      assert first == s;
    } else {
      FirstLineFeed(s);
      assert first == s[..|first|];
      if rest != "" {
        LinesCount(rest);
      }
    }
  }

  /** The files of a transport: increasing indices below the next one, each on disk with its content. */
  ghost predicate OnDisk(timestamp: string, files: map<string, string>, indices: seq<nat>, contents: seq<string>, next: nat) {
    && |indices| == |contents|
    && (forall i :: 0 <= i < |indices| ==> indices[i] < next)
    && (forall i, j :: 0 <= i < j < |indices| ==> indices[i] < indices[j])
    && (forall i :: 0 <= i < |indices| ==> FileName(timestamp, indices[i]) in files && files[FileName(timestamp, indices[i])] == contents[i])
  }

  /** Files that were there stay as they are, beside exactly `count` new ones. */
  ghost predicate OnlyAdds(before: map<string, string>, after: map<string, string>, count: int) {
    && (forall n :: n in before ==> n in after && after[n] == before[n])
    && |after| == |before| + count
  }

  lemma OneMoreOnDisk(timestamp: string, files: map<string, string>, indices: seq<nat>, contents: seq<string>, next: nat, index: nat, log: string)
    requires OnDisk(timestamp, files, indices, contents, next)
    requires next <= index && FileName(timestamp, index) !in files
    ensures OnDisk(timestamp, files[FileName(timestamp, index) := log], indices + [index], contents + [log], index + 1)
  {
  }

  lemma OneMoreAdded(start: map<string, string>, files: map<string, string>, count: int, name: string, log: string)
    requires OnlyAdds(start, files, count) && name !in files
    ensures OnlyAdds(start, files[name := log], count + 1)
  {
    assert files[name := log].Keys == files.Keys + {name};
    assert |files[name := log]| == |files[name := log].Keys|;
  }

  /** Every one of these names belongs to an index below `next`. */
  ghost predicate AllTried(timestamp: string, names: set<string>, next: nat) {
    forall n :: n in names ==> exists k: nat :: k < next && n == FileName(timestamp, k)
  }

  lemma FreshName(timestamp: string, names: set<string>, untried: set<string>, next: nat)
    requires AllTried(timestamp, names - untried, next)
    ensures FileName(timestamp, next) in names ==> FileName(timestamp, next) in untried
    ensures AllTried(timestamp, names - (untried - {FileName(timestamp, next)}), next + 1)
  {
    var name := FileName(timestamp, next);
    if name in names - untried {
      var k: nat :| k < next && name == FileName(timestamp, k);
      FileNameInjective(timestamp, k, next);
      assert false;
    }
    forall n | n in names - (untried - {name}) ensures exists k: nat :: k < next + 1 && n == FileName(timestamp, k) {
      if n != name {
        assert n in names - untried;
      }
    }
  }

  class FileTransport {
    const directory: Directory
    const timestamp: string
    const limits: FileLimits
    var nextFileIndex: nat
    var fileCount: nat
    var totalSize: nat
    ghost var indices: seq<nat>
    ghost var contents: seq<string>
    /** What the last call answered, and the time since connect of the last call that was written. */
    ghost var answered: SendResult
    ghost var written: nat

    ghost predicate Valid()
      reads this, directory
    {
      && fileCount == |indices|
      && totalSize == |Concat(contents)|
      && OnDisk(timestamp, directory.files, indices, contents, nextFileIndex)
    }

    ghost predicate WithinLimits()
      reads this
    {
      && (limits.bytes > 0 ==> totalSize <= limits.bytes)
      && (limits.count > 0 ==> fileCount <= limits.count)
      && (limits.duration > 0 && contents != [] ==> written < limits.duration)
    }

    /** connect() with a fresh timestamp. */
    constructor (directory: Directory, timestamp: string, limits: FileLimits)
      ensures Valid() && WithinLimits() && contents == [] && fileCount == 0 && totalSize == 0
      ensures this.directory == directory && this.timestamp == timestamp && this.limits == limits
    {
      this.directory := directory;
      this.timestamp := timestamp;
      this.limits := limits;
      nextFileIndex, fileCount, totalSize := 0, 0, 0;
      indices, contents, answered, written := [], [], Sent, 0;
    }

    /** The retry loop: takes the next free name; it ends because each collision uses up one existing file. */
    method CreateNext(log: string) returns (index: nat)
      modifies this`nextFileIndex, directory
      ensures old(nextFileIndex) <= index && nextFileIndex == index + 1
      ensures FileName(timestamp, index) !in old(directory.files)
      ensures forall k :: old(nextFileIndex) <= k < index ==> FileName(timestamp, k) in old(directory.files)
      ensures directory.files == old(directory.files)[FileName(timestamp, index) := log]
    {
      ghost var untried := directory.files.Keys;
      index := nextFileIndex;
      while true
        invariant index == nextFileIndex >= old(nextFileIndex)
        invariant directory.files == old(directory.files)
        invariant forall k :: old(nextFileIndex) <= k < index ==> FileName(timestamp, k) in old(directory.files)
        invariant AllTried(timestamp, directory.files.Keys - untried, nextFileIndex)
        decreases untried
      {
        FreshName(timestamp, directory.files.Keys, untried, nextFileIndex);
        var name := FileName(timestamp, nextFileIndex);
        nextFileIndex := nextFileIndex + 1;
        var created := directory.CreateExclusive(name, log);
        if created {
          return;
        }
        untried := untried - {name};
        index := nextFileIndex;
      }
    }

    method WriteOne(log: string)
      requires Valid()
      modifies this, directory
      ensures Valid()
      ensures indices == old(indices) + [nextFileIndex - 1] && contents == old(contents) + [log]
      ensures fileCount == old(fileCount) + 1 && totalSize == old(totalSize) + |log|
      ensures FileName(timestamp, nextFileIndex - 1) !in old(directory.files)
      ensures directory.files == old(directory.files)[FileName(timestamp, nextFileIndex - 1) := log]
    {
      var index := CreateNext(log);
      fileCount := fileCount + 1;
      totalSize := totalSize + |log|;
      OneMoreOnDisk(timestamp, old(directory.files), indices, contents, old(nextFileIndex), index, log);
      ConcatSnoc(contents, log);
      indices, contents := indices + [index], contents + [log];
    }

    /** The splitting loop of `send`. */
    method WriteLines(payload: string)
      requires Valid()
      modifies this, directory
      ensures Valid() && OnlyAdds(old(directory.files), directory.files, |Lines(payload)|)
      ensures contents == old(contents) + Lines(payload)
      ensures fileCount == old(fileCount) + |Lines(payload)| && totalSize == old(totalSize) + |payload|
    {
      var start := 0;
      assert payload[0..] == payload;
      while start < |payload|
        invariant 0 <= start <= |payload|
        invariant Valid()
        invariant OnlyAdds(old(directory.files), directory.files, fileCount - old(fileCount))
        invariant contents + LinesFrom(payload, start) == old(contents) + Lines(payload)
        invariant totalSize == old(totalSize) + start
      {
        var log := CutLine(payload, start);
        Associate(contents, [log], LinesFrom(payload, start + |log|));
        ghost var files := directory.files;
        WriteOne(log);
        OneMoreAdded(old(directory.files), files, fileCount - 1 - old(fileCount), FileName(timestamp, nextFileIndex - 1), log);
        start := start + |log|;
      }
      assert LinesFrom(payload, start) == [];
    }

    /** A refusal changes nothing; an accepted payload becomes one new file per line, in order, beside the existing files. */
    method Send(payload: string, elapsed: nat) returns (result: SendResult)
      requires Valid() && WithinLimits()
      modifies this, directory
      ensures Valid() && WithinLimits()
      ensures OnlyAdds(old(directory.files), directory.files, if result == Sent then |Lines(payload)| else 0)
      ensures answered == result
      ensures var late := limits.duration > 0 && elapsed >= limits.duration;
              var tooLong := limits.bytes > 0 && old(totalSize) + |payload| > limits.bytes;
              var tooMany := limits.count > 0 && old(fileCount) + |Lines(payload)| > limits.count;
              && (result.DurationLimitReached? <==> payload != "" && late)
              && (result.TotalBytesLimitReached? <==> payload != "" && !late && tooLong)
              && (result.FileCountLimitReached? <==> payload != "" && !late && !tooLong && tooMany)
      ensures result != Sent ==> directory.files == old(directory.files) && contents == old(contents) && nextFileIndex == old(nextFileIndex)
      ensures result == Sent ==> contents == old(contents) + Lines(payload) && Concat(contents[|old(contents)|..]) == payload
    {
      LinesTile(payload);
      answered := Sent;
      if payload == "" {
        assert Lines(payload) == [];
        return Sent;
      }
      if limits.duration > 0 && elapsed >= limits.duration {
        answered := DurationLimitReached;
        return DurationLimitReached;
      }
      if limits.bytes > 0 && (totalSize >= limits.bytes || |payload| > limits.bytes - totalSize) {
        answered := TotalBytesLimitReached;
        return TotalBytesLimitReached;
      }
      var logCount := CountLogs(payload);
      if limits.count > 0 && (fileCount >= limits.count || logCount > limits.count - fileCount) {
        answered := FileCountLimitReached;
        return FileCountLimitReached;
      }
      WriteLines(payload);
      answered, written := Sent, elapsed;
      return Sent;
    }
  }

  function LinesFrom(payload: string, start: nat): seq<string>
    requires start <= |payload|
  {
    Lines(payload[start..])
  }

  /** The line that starts here is the first of the remaining ones. */
  method CutLine(payload: string, start: nat) returns (log: string)
    requires start < |payload|
    ensures 0 < |log| <= |payload| - start
    ensures LinesFrom(payload, start) == [log] + LinesFrom(payload, start + |log|)
  {
    var newline := Find(payload, "\n", start);
    log := if newline == -1 then payload[start..] else payload[start..newline + 1];
    FirstLineHere(payload, start, log);
  }

  lemma FirstLineHere(payload: string, start: nat, log: string)
    requires start < |payload|
    requires var newline := Find(payload, "\n", start);
             log == if newline == -1 then payload[start..] else payload[start..newline + 1]
    ensures 0 < |log| <= |payload| - start
    ensures LinesFrom(payload, start) == [log] + LinesFrom(payload, start + |log|)
  {
    FindShift(payload, "\n", start, 0);
    var first, rest := FirstLine(payload[start..]);
    SameCut(payload, start, first, rest, log);
  }

  lemma SameCut(payload: string, start: nat, first: string, rest: string, log: string)
    requires start <= |payload| && payload[start..] == first + rest
    requires |log| == |first| && log == payload[start..start + |first|]
    ensures log == first && payload[start + |log|..] == rest
  {
    DropDrop(payload, start, |first|);
    assert payload[start..][..|first|] == first && payload[start..][|first|..] == rest;
  }
}
