/** Byte strings as the program sees them: a `string` stands for std::string, one `char` per byte. */
module Text {

  /** marker occurs in s at index i. */
  ghost predicate OccursAt(s: string, marker: string, i: nat) {
    i + |marker| <= |s| && s[i..i + |marker|] == marker
  }

  /** std::string::find: the least occurrence at or after `from`, or -1 for npos. */
  function Find(s: string, marker: string, from: nat): (r: int)
    ensures r == -1 || from <= r <= |s| - |marker|
    decreases |s| - from
  {
    if from + |marker| > |s| then -1
    else if s[from..from + |marker|] == marker then from
    else Find(s, marker, from + 1)
  }

  lemma {:induction false} FindIsFirst(s: string, marker: string, from: nat)
    ensures var r := Find(s, marker, from);
            && (r != -1 ==> OccursAt(s, marker, r))
            && forall j: nat :: from <= j && OccursAt(s, marker, j) ==> r != -1 && r <= j
    decreases |s| - from
  {
    if from + |marker| <= |s| && s[from..from + |marker|] != marker {
      FindIsFirst(s, marker, from + 1);
    }
  }

  /** Searching s from position cut + k is searching the rest of s from position k. */
  lemma {:induction false} FindShift(s: string, marker: string, cut: nat, k: nat)
    requires cut <= |s|
    ensures Find(s, marker, cut + k) == (var r := Find(s[cut..], marker, k); if r == -1 then -1 else r + cut)
    decreases |s| - k
  {
    if cut + k + |marker| <= |s| {
      assert s[cut..][k..k + |marker|] == s[cut + k..cut + k + |marker|];
      if s[cut + k..cut + k + |marker|] != marker {
        FindShift(s, marker, cut, k + 1);
      }
    }
  }

  lemma Associate<T>(a: seq<T>, b: seq<T>, c: seq<T>)
    ensures a + (b + c) == (a + b) + c
  {
  }

  lemma DropDrop(s: string, i: nat, k: nat)
    requires i + k <= |s|
    ensures s[i..][k..] == s[i + k..]
  {
  }

  /** All pieces written one after the other. */
  function Concat(pieces: seq<string>): (r: string) {
    if pieces == [] then "" else pieces[0] + Concat(pieces[1..])
  }

  lemma {:induction false} ConcatAppend(a: seq<string>, b: seq<string>)
    ensures Concat(a + b) == Concat(a) + Concat(b)
  {
    if a == [] {
      assert a + b == b;
    } else {
      assert (a + b)[1..] == a[1..] + b;
      ConcatAppend(a[1..], b);
    }
  }

  lemma ConcatSnoc(a: seq<string>, x: string)
    ensures Concat(a + [x]) == Concat(a) + x
  {
    ConcatAppend(a, [x]);
    assert Concat([x]) == x + Concat([]) by { assert [x][1..] == []; }
  }

  /** The first n items of an endless supply: the payloads a worker renders. */
  function Prefix(source: nat -> string, n: nat): (items: seq<string>)
    ensures |items| == n
  {
    seq(n, i requires 0 <= i < n => source(i))
  }

  lemma PrefixSnoc(source: nat -> string, n: nat)
    ensures Prefix(source, n + 1) == Prefix(source, n) + [source(n)]
  {
  }

  /** Concatenation of a list of lists. */
  function Flatten<T>(groups: seq<seq<T>>): seq<T> {
    if groups == [] then [] else groups[0] + Flatten(groups[1..])
  }

  lemma {:induction false} FlattenAppend<T>(a: seq<seq<T>>, b: seq<seq<T>>)
    ensures Flatten(a + b) == Flatten(a) + Flatten(b)
  {
    if a == [] {
      assert a + b == b;
    } else {
      assert (a + b)[1..] == a[1..] + b;
      FlattenAppend(a[1..], b);
    }
  }

  lemma {:induction false} FlattenSnoc<T>(groups: seq<seq<T>>, last: seq<T>)
    ensures Flatten(groups + [last]) == Flatten(groups) + last
  {
    if groups == [] {
      assert [last][1..] == [];
      assert groups + [last] == [last];
    } else {
      assert (groups + [last])[1..] == groups[1..] + [last];
      FlattenSnoc(groups[1..], last);
    }
  }
}

/** std::to_chars and std::to_string on unsigned values, and the reading that inverts them. */
module Decimal {

  predicate IsDigit(c: char) { '0' <= c <= '9' }

  predicate AllDigits(s: string) { forall i :: 0 <= i < |s| ==> IsDigit(s[i]) }

  function DigitOf(n: nat): (c: char)
    requires n < 10
    ensures IsDigit(c)
  {
    "0123456789"[n]
  }

  function ValueOf(c: char): nat
    requires IsDigit(c)
  {
    c as int - '0' as int
  }

  function ToDecimal(n: nat): (s: string)
    ensures s != "" && AllDigits(s)
    ensures n > 0 ==> s[0] != '0'
  {
    if n < 10 then [DigitOf(n)] else ToDecimal(n / 10) + [DigitOf(n % 10)]
  }

  function FromDecimal(s: string): nat
    requires AllDigits(s)
  {
    if s == "" then 0 else 10 * FromDecimal(s[..|s| - 1]) + ValueOf(s[|s| - 1])
  }

  /** Reading back what was printed. */
  lemma {:induction false} DecimalRoundTrip(n: nat)
    ensures FromDecimal(ToDecimal(n)) == n
  {
    var s := ToDecimal(n);
    if n < 10 {
      assert s[..0] == "";
    } else {
      DecimalRoundTrip(n / 10);
      assert s[..|s| - 1] == ToDecimal(n / 10);
    }
  }

  /** Zero padding on the left keeps the value. */
  lemma {:induction false} LeadingZeros(s: string, zeros: string)
    requires AllDigits(s) && forall i :: 0 <= i < |zeros| ==> zeros[i] == '0'
    ensures AllDigits(zeros + s) && FromDecimal(zeros + s) == FromDecimal(s)
  {
    if s != "" {
      assert (zeros + s)[..|zeros + s| - 1] == zeros + s[..|s| - 1];
      LeadingZeros(s[..|s| - 1], zeros);
    } else if zeros != "" {
      assert zeros + s == zeros;
      var shorter := zeros[..|zeros| - 1];
      LeadingZeros("", shorter);
      assert shorter + "" == shorter;
    } else {
      assert zeros + s == "";
    }
  }

  function TenTo(n: nat): (power: nat)
    ensures power >= 1
  {
    if n == 0 then 1 else 10 * TenTo(n - 1)
  }

  lemma {:induction false} DecimalLength(n: nat, k: nat)
    requires k > 0 && n < TenTo(k)
    ensures |ToDecimal(n)| <= k
  {
    if n >= 10 {
      DecimalLength(n / 10, k - 1);
    }
  }

  /** The first d digits of a number are what is left of it without its last ones. */
  lemma {:induction false} FirstDigits(s: string, d: nat)
    requires AllDigits(s) && d <= |s|
    ensures var unit := TenTo(|s| - d);
            FromDecimal(s[..d]) * unit <= FromDecimal(s) < (FromDecimal(s[..d]) + 1) * unit
    decreases |s|
  {
    if d == |s| {
      assert s[..d] == s;
    } else {
      var shorter := s[..|s| - 1];
      FirstDigits(shorter, d);
      assert shorter[..d] == s[..d];
      Tenfold(FromDecimal(s[..d]), TenTo(|shorter| - d), FromDecimal(shorter), ValueOf(s[|s| - 1]));
    }
  }

  lemma Tenfold(front: nat, unit: nat, n: nat, last: nat)
    requires front * unit <= n < (front + 1) * unit && last < 10
    ensures front * (10 * unit) <= 10 * n + last < (front + 1) * (10 * unit)
  {
    assert front * (10 * unit) == 10 * (front * unit);
    assert (front + 1) * (10 * unit) == 10 * ((front + 1) * unit);
  }
}
