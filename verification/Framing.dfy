/** Message framing on a byte stream: octet counting and newline termination (section 3.4 of RFC 6587). */
module Framing {
  import opened Text
  import opened Decimal
  import opened Options

  datatype StreamFraming = Newline | OctetCounting

  predicate IsBreak(c: char) { c == '\r' || c == '\n' }

  predicate NoBreaks(s: string) { forall i :: 0 <= i < |s| ==> !IsBreak(s[i]) }

  function EscapeChar(c: char): string {
    if c == '\r' then "\\r" else if c == '\n' then "\\n" else [c]
  }

  /** The payload with its line breaks spelled out, so that one event stays on one line. */
  function Escape(payload: string): string {
    if payload == "" then "" else EscapeChar(payload[0]) + Escape(payload[1..])
  }

  function Frame(payload: string, framing: StreamFraming): string {
    match framing
    case OctetCounting => ToDecimal(|payload|) + " " + payload
    case Newline => Escape(payload) + "\n"
  }

  function Frames(payloads: seq<string>, framing: StreamFraming): string {
    if payloads == [] then "" else Frame(payloads[0], framing) + Frames(payloads[1..], framing)
  }

  function FrameList(payloads: seq<string>, framing: StreamFraming): (frames: seq<string>)
    ensures |frames| == |payloads|
    ensures forall i :: 0 <= i < |frames| ==> frames[i] == Frame(payloads[i], framing)
  {
    seq(|payloads|, i requires 0 <= i < |payloads| => Frame(payloads[i], framing))
  }

  /** The text buffer that frames are appended to. */
  class Batch {
    var bytes: string

    constructor ()
      ensures bytes == ""
    {
      bytes := "";
    }

    method AppendFrame(payload: string, framing: StreamFraming)
      modifies this
      ensures bytes == old(bytes) + Frame(payload, framing)
    {
      if framing == OctetCounting {
        bytes := bytes + ToDecimal(|payload|);
        bytes := bytes + " ";
        bytes := bytes + payload;
        return;
      }
      if NoBreaks(payload) {
        EscapeIsIdentity(payload);
        bytes := bytes + payload;
        bytes := bytes + "\n";
        return;
      }
      for i := 0 to |payload|
        invariant bytes == old(bytes) + Escape(payload[..i])
      {
        assert payload[..i + 1] == payload[..i] + [payload[i]];
        EscapeSnoc(payload[..i], payload[i]);
        if payload[i] == '\r' {
          bytes := bytes + "\\r";
        } else if payload[i] == '\n' {
          bytes := bytes + "\\n";
        } else {
          bytes := bytes + [payload[i]];
        }
      }
      assert payload[..|payload|] == payload;
      bytes := bytes + "\n";
    }
  }

  /** The size test of the packer agrees with what AppendFrame writes. */
  method NewlineFrameSize(payload: string) returns (size: nat)
    ensures size == |Frame(payload, Newline)|
    ensures size >= |payload| + 1
  {
    var breaks := 0;
    for i := 0 to |payload|
      invariant breaks >= 0
      invariant i + breaks == |Escape(payload[..i])|
    {
      assert payload[..i + 1] == payload[..i] + [payload[i]];
      EscapeSnoc(payload[..i], payload[i]);
      if IsBreak(payload[i]) {
        breaks := breaks + 1;
      }
    }
    assert payload[..|payload|] == payload;
    size := |payload| + 1 + breaks;
  }

  lemma {:induction false} EscapeSnoc(s: string, c: char)
    ensures Escape(s + [c]) == Escape(s) + EscapeChar(c)
  {
    if s == "" {
      assert s + [c] == [c] && [c][1..] == "";
    } else {
      assert (s + [c])[1..] == s[1..] + [c];
      EscapeSnoc(s[1..], c);
    }
  }

  /** The shortcut for payloads without line breaks writes the same bytes as the loop, and only it could. */
  lemma {:induction false} EscapeIsIdentity(s: string)
    ensures NoBreaks(Escape(s))
    ensures Escape(s) == s <==> NoBreaks(s)
    ensures |Escape(s)| >= |s|
  {
    if s != "" {
      EscapeIsIdentity(s[1..]);
      assert s == [s[0]] + s[1..];
      if NoBreaks(s) {
        assert NoBreaks(s[1..]);
      }
    }
  }

  lemma {:induction false} FramesAppend(a: seq<string>, b: seq<string>, framing: StreamFraming)
    ensures Frames(a + b, framing) == Frames(a, framing) + Frames(b, framing)
  {
    if a == [] {
      assert a + b == b;
    } else {
      assert (a + b)[1..] == a[1..] + b;
      FramesAppend(a[1..], b, framing);
    }
  }

  lemma FramesSnoc(a: seq<string>, payload: string, framing: StreamFraming)
    ensures Frames(a + [payload], framing) == Frames(a, framing) + Frame(payload, framing)
  {
    FramesAppend(a, [payload], framing);
    assert [payload][1..] == [];
    assert Frames([payload], framing) == Frame(payload, framing) + "";
  }

  lemma FrameNonempty(payload: string, framing: StreamFraming)
    ensures |Frame(payload, framing)| > |payload|
  {
    EscapeIsIdentity(payload);
  }

  /** A list of k payloads takes at least k bytes. */
  lemma {:induction false} FramesLength(payloads: seq<string>, framing: StreamFraming)
    ensures |Frames(payloads, framing)| >= |payloads|
  {
    if payloads != [] {
      FrameNonempty(payloads[0], framing);
      FramesLength(payloads[1..], framing);
    }
  }

  // ----- the receiver of an octet-counted stream, section 3.4.1 of RFC 6587 -----

  function DigitRun(s: string, from: nat): (end: nat)
    requires from <= |s|
    ensures from <= end <= |s|
    ensures AllDigits(s[from..end])
    ensures end < |s| ==> !IsDigit(s[end])
    decreases |s| - from
  {
    if from == |s| || !IsDigit(s[from]) then from else DigitRun(s, from + 1)
  }

  /** MSG-LEN is a digit string without leading zero, then one space, then that many octets. */
  function DecodeOctets(s: string): Option<seq<string>>
    decreases |s|
  {
    if s == "" then Some([])
    else
      var end := DigitRun(s, 0);
      if end == 0 || s[0] == '0' || end == |s| || s[end] != ' ' then None
      else
        var length := FromDecimal(s[..end]);
        if end + 1 + length > |s| then None
        else
          match DecodeOctets(s[end + 1 + length..])
          case None => None
          case Some(rest) => Some([s[end + 1..end + 1 + length]] + rest)
  }

  lemma {:induction false} DigitRunStops(digits: string, rest: string, from: nat)
    requires AllDigits(digits) && from <= |digits|
    requires rest != "" && !IsDigit(rest[0])
    ensures DigitRun(digits + rest, from) == |digits|
    decreases |digits| - from
  {
    if from < |digits| {
      assert (digits + rest)[from] == digits[from];
      DigitRunStops(digits, rest, from + 1);
    }
  }

  /** One frame at the head of the stream. */
  lemma OctetHead(p: string, rest: string)
    ensures DecodeOctets(Frame(p, OctetCounting) + rest) ==
            if p == "" then None
            else match DecodeOctets(rest) { case None => None case Some(others) => Some([p] + others) }
  {
    var digits := ToDecimal(|p|);
    var s := Frame(p, OctetCounting) + rest;
    assert s == digits + (" " + p + rest);
    DigitRunStops(digits, " " + p + rest, 0);
    DecimalRoundTrip(|p|);
    assert s[..|digits|] == digits;
    PayloadSlices(digits + " ", p, rest);
    assert s == (digits + " ") + p + rest;
  }

  lemma PayloadSlices(head: string, p: string, rest: string)
    ensures (head + p + rest)[|head|..|head| + |p|] == p
    ensures (head + p + rest)[|head| + |p|..] == rest
  {
  }

  /** Whatever the payloads contain, the receiver recovers exactly their list, unless one of them is empty. */
  lemma {:induction false} OctetRoundTrip(payloads: seq<string>)
    ensures DecodeOctets(Frames(payloads, OctetCounting)) ==
            if "" in payloads then None else Some(payloads)
  {
    if payloads != [] {
      var others := payloads[1..];
      OctetHead(payloads[0], Frames(others, OctetCounting));
      OctetRoundTrip(others);
      assert payloads == [payloads[0]] + others;
    }
  }

  // ----- the receiver of a newline-terminated stream, section 3.4.2 of RFC 6587 -----

  /** The text cut after each LF; a last piece without LF is kept. */
  function Lines(s: string): seq<string>
    decreases |s|
  {
    var lf := Find(s, "\n", 0);
    if s == "" then []
    else if lf == -1 then [s]
    else [s[..lf + 1]] + Lines(s[lf + 1..])
  }

  /** The lines together are the text, and none is empty. */
  lemma {:induction false} LinesTile(s: string)
    ensures Concat(Lines(s)) == s
    ensures forall i :: 0 <= i < |Lines(s)| ==> Lines(s)[i] != ""
    decreases |s|
  {
    if s != "" {
      var first, rest := FirstLine(s);
      LinesTile(rest);
      assert ([first] + Lines(rest))[1..] == Lines(rest);
    }
  }

  /** The first line ends with the first LF, or is everything. */
  lemma FirstLine(s: string) returns (first: string, rest: string)
    requires s != ""
    ensures first != "" && |rest| < |s| && s == first + rest
    ensures Lines(s) == [first] + Lines(rest)
    ensures |first| == (var lf := Find(s, "\n", 0); if lf == -1 then |s| else lf + 1)
  {
    var lf := Find(s, "\n", 0);
    if lf == -1 {
      first, rest := s, "";
    } else {
      first, rest := s[..lf + 1], s[lf + 1..];
    }
  }

  lemma FindFirstBreak(line: string, rest: string)
    requires NoBreaks(line)
    ensures Find(line + "\n" + rest, "\n", 0) == |line|
  {
    var s := line + "\n" + rest;
    assert s[|line|..|line| + 1] == "\n";
    assert OccursAt(s, "\n", |line|);
    FindIsFirst(s, "\n", 0);
    var r := Find(s, "\n", 0);
    assert s[r..r + 1] == [s[r]];
  }

  lemma LinesCons(line: string, rest: string)
    requires NoBreaks(line)
    ensures Lines(line + "\n" + rest) == [line + "\n"] + Lines(rest)
  {
    var s := line + "\n" + rest;
    FindFirstBreak(line, rest);
    assert s[..|line| + 1] == line + "\n";
    assert s[|line| + 1..] == rest;
  }

  lemma FrameListCons(payloads: seq<string>, framing: StreamFraming)
    requires payloads != []
    ensures FrameList(payloads, framing) == [Frame(payloads[0], framing)] + FrameList(payloads[1..], framing)
  {
  }

  /** Cutting the stream at every LF gives one line per payload, in order: its escaped text. */
  lemma {:induction false} NewlineSplit(payloads: seq<string>)
    ensures Lines(Frames(payloads, Newline)) == FrameList(payloads, Newline)
  {
    if payloads != [] {
      EscapeIsIdentity(payloads[0]);
      LinesCons(Escape(payloads[0]), Frames(payloads[1..], Newline));
      NewlineSplit(payloads[1..]);
      FrameListCons(payloads, Newline);
    }
  }

  // ----- what newline escaping loses -----

  /** The natural reading of an escaped line. */
  function Unescape(s: string): string
    decreases |s|
  {
    if s == "" then ""
    else if |s| >= 2 && s[0] == '\\' && s[1] == 'r' then "\r" + Unescape(s[2..])
    else if |s| >= 2 && s[0] == '\\' && s[1] == 'n' then "\n" + Unescape(s[2..])
    else [s[0]] + Unescape(s[1..])
  }

  predicate SpellsBreakAt(s: string, i: nat) {
    i + 1 < |s| && s[i] == '\\' && (s[i + 1] == 'r' || s[i + 1] == 'n')
  }

  /** An escaped payload can be read back exactly when it did not already contain a spelled-out break. */
  lemma {:induction false} UnescapeRoundTrip(p: string)
    ensures Unescape(Escape(p)) == p <==> forall i: nat :: !SpellsBreakAt(p, i)
    decreases |p|
  {
    if p != "" {
      var e := Escape(p);
      assert e == EscapeChar(p[0]) + Escape(p[1..]);
      UnescapeRoundTrip(p[1..]);
      assert forall i: nat :: SpellsBreakAt(p, i + 1) <==> SpellsBreakAt(p[1..], i);
      assert (forall i: nat :: !SpellsBreakAt(p, i)) <==> !SpellsBreakAt(p, 0) && (forall i: nat :: !SpellsBreakAt(p[1..], i)) by {
        if exists i: nat :: SpellsBreakAt(p, i) {
          var i: nat :| SpellsBreakAt(p, i);
          assert i > 0 ==> SpellsBreakAt(p[1..], i - 1);
        }
        if i: nat :| SpellsBreakAt(p[1..], i) {
          assert SpellsBreakAt(p, i + 1);
        }
      }
      if IsBreak(p[0]) {
        assert e[2..] == Escape(p[1..]);
        assert p == [p[0]] + p[1..];
      } else {
        assert e[1..] == Escape(p[1..]);
        assert p == [p[0]] + p[1..];
        assert |p| > 1 ==> e[1] == EscapeChar(p[1])[0];
        if SpellsBreakAt(p, 0) {
          assert Unescape(e)[0] != p[0];
        }
      }
    }
  }

  /** Two different payloads that produce the same line. */
  lemma EscapeCollides()
    ensures Escape("\n") == Escape("\\n") && "\n" != "\\n"
  {
    EscapeIsIdentity("\\n");
    assert "\n"[1..] == "";
    assert "\\n"[0] == '\\' && "\\n"[1] == 'n';
  }
}
