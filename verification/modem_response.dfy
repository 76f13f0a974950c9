/** The dashboard's readers of AT-command responses (script.js
    `processSignal`, `processSIM`, `processInfo`), each turned into a pure
    function from the response lines to the value it would display, `None`
    standing for "leave the display as it is". */
module ModemResponse {
  import opened Wrappers
  import opened Text

  /** One +CSQ answer: the raw rssi and bit-error-rate numbers. */
  datatype SignalReading = SignalReading(rssi: nat, ber: nat)

  const CsqMarker: string := "+CSQ:"
  const CpinMarker: string := "+CPIN:"

  /** The index of the first line containing `marker`, as `lines.find`
      picks it. */
  function FirstContaining(lines: seq<string>, marker: string): (k: Option<nat>)
    ensures k.Some? ==> k.value < |lines| && Contains(lines[k.value], marker)
    ensures k.Some? ==> forall j :: 0 <= j < k.value ==> !Contains(lines[j], marker)
    ensures k.None? ==> forall j :: 0 <= j < |lines| ==> !Contains(lines[j], marker)
  {
    if lines == [] then None
    else if Contains(lines[0], marker) then Some(0)
    else match FirstContaining(lines[1..], marker)
      case None => None
      case Some(k) => Some(k + 1)
  }

  // ---------------------------------------------------------------------------
  // processSignal: the regular expression \+CSQ:\s*(\d+),(\d+)
  // ---------------------------------------------------------------------------

  /** The regular expression tried at position `p` of `line`: the marker,
      any whitespace, a digit run, a comma, a digit run. Both digit runs are
      taken whole, as the greedy groups do (no shorter run can be followed by
      the comma, or by anything the pattern needs). */
  function MatchCsqAt(line: string, p: nat): (r: Option<SignalReading>)
    ensures r.Some? ==> OccursAt(line, CsqMarker, p) && p + |CsqMarker| + 3 <= |line|
  {
    if !OccursAt(line, CsqMarker, p) then None
    else CsqFields(line[p + |CsqMarker|..])
  }

  /** The part of the pattern after the marker, `\s*(\d+),(\d+)`, matched at
      the start of `after`. */
  function CsqFields(after: string): (r: Option<SignalReading>)
    ensures r.Some? ==> |after| >= 3
  {
    CsqNumbers(TrimStart(after))
  }

  /** `(\d+),(\d+)` matched at the start of `rest`. */
  function CsqNumbers(rest: string): (r: Option<SignalReading>)
    ensures r.Some? ==> |rest| >= 3
  {
    var rssi := DigitRun(rest);
    if rssi == [] || |rssi| == |rest| || rest[|rssi|] != ',' then None
    else
      var ber := DigitRun(rest[|rssi| + 1..]);
      if ber == [] then None
      else Some(SignalReading(ParseDigits(rssi), ParseDigits(ber)))
  }

  /** The pattern matches nowhere in `from..to` (exclusive). */
  predicate NoMatchBetween(line: string, from: nat, to: nat) {
    forall q :: from <= q < to ==> MatchCsqAt(line, q).None?
  }

  /** The leftmost position from `from` on where the pattern matches. */
  function CsqMatchPosition(line: string, from: nat): (p: Option<nat>)
    ensures p.Some? ==> from <= p.value <= |line| && MatchCsqAt(line, p.value).Some?
    ensures p.Some? ==> NoMatchBetween(line, from, p.value)
    ensures p.None? ==> NoMatchBetween(line, from, |line| + 1)
    decreases |line| - from
  {
    if from > |line| then None
    else if MatchCsqAt(line, from).Some? then Some(from)
    else CsqMatchPosition(line, from + 1)
  }

  /** `String.prototype.match` with a non-global pattern: the match at the
      leftmost position where there is one. */
  function SearchCsq(line: string, from: nat): (r: Option<SignalReading>)
    ensures r.Some? ==> exists p :: from <= p <= |line| && MatchCsqAt(line, p) == r && NoMatchBetween(line, from, p)
    ensures r.None? ==> NoMatchBetween(line, from, |line| + 1)
    ensures r.Some? ==> Contains(line, CsqMarker)
  {
    match CsqMatchPosition(line, from)
    case None => None
    case Some(p) =>
      OccursContains(line, CsqMarker, p);
      MatchCsqAt(line, p)
  }

  /** The +CSQ reading of a response: only the first line mentioning +CSQ:
      is examined, and the reading is absent when that line does not match
      the pattern, whatever later lines hold. */
  function ParseSignal(lines: seq<string>): (r: Option<SignalReading>)
    ensures r.Some? ==> exists k :: 0 <= k < |lines| && Contains(lines[k], CsqMarker)
  {
    match FirstContaining(lines, CsqMarker)
    case None => None
    case Some(k) => SearchCsq(lines[k], 0)
  }

  /** The line a modem sends for a reading, "+CSQ: <rssi>,<ber>". */
  function FormatCsq(s: SignalReading): string {
    CsqMarker + " " + NatToString(s.rssi) + "," + NatToString(s.ber)
  }

  /** A well-formed +CSQ line is read back as the reading it carries, whatever
      lines follow it. */
  lemma ParseSignalFormatCsq(s: SignalReading, later: seq<string>)
    ensures ParseSignal([FormatCsq(s)] + later) == Some(s)
  {
    var line := FormatCsq(s);
    var lines := [line] + later;
    MatchFormatCsq(s);
    assert lines[0] == line;
    assert FirstContaining(lines, CsqMarker) == Some(0);
  }

  lemma MatchFormatCsq(s: SignalReading)
    ensures OccursAt(FormatCsq(s), CsqMarker, 0)
    ensures MatchCsqAt(FormatCsq(s), 0) == Some(s)
  {
    var line := FormatCsq(s);
    var after := " " + (NatToString(s.rssi) + ("," + NatToString(s.ber)));
    assert line == CsqMarker + after;
    assert line[..|CsqMarker|] == CsqMarker;
    assert line[|CsqMarker|..] == after;
    CsqFieldsFormat(s);
  }

  /** The fields of a formatted reading read back as that reading. */
  lemma CsqFieldsFormat(s: SignalReading)
    ensures CsqFields(" " + (NatToString(s.rssi) + ("," + NatToString(s.ber)))) == Some(s)
  {
    var b := NatToString(s.ber);
    assert b + [] == b;
    assert AllSpace(" ") by {
      assert " "[0] == ' ';
    }
    CsqFieldsOf(" ", NatToString(s.rssi), b, []);
    ParseNatToString(s.rssi);
    ParseNatToString(s.ber);
  }

  /** Any whitespace, a numeral, a comma and a numeral not followed by
      another digit are read as those two numbers. */
  lemma CsqFieldsOf(pad: string, a: string, b: string, tail: string)
    requires AllSpace(pad)
    requires a != [] && AllDigits(a) && b != [] && AllDigits(b)
    requires tail == [] || !IsDigit(tail[0])
    ensures CsqFields(pad + (a + ("," + (b + tail)))) == Some(SignalReading(ParseDigits(a), ParseDigits(b)))
  {
    var rest := a + ("," + (b + tail));
    assert rest[0] == a[0] && IsDigit(a[0]);
    TrimStartPadded(pad, rest);
    CsqNumbersOf(a, b, tail);
  }

  /** Two numerals around a comma, the second not followed by another digit,
      are read as those two numbers. */
  lemma CsqNumbersOf(a: string, b: string, tail: string)
    requires a != [] && AllDigits(a) && b != [] && AllDigits(b)
    requires tail == [] || !IsDigit(tail[0])
    ensures CsqNumbers(a + ("," + (b + tail))) == Some(SignalReading(ParseDigits(a), ParseDigits(b)))
  {
    DigitsCommaDigits(a, b, tail);
  }

  /** The digit run of "<a>,<b><tail>" stops at the comma, and the one after
      it is `b`. */
  lemma DigitsCommaDigits(a: string, b: string, tail: string)
    requires AllDigits(a) && AllDigits(b)
    requires tail == [] || !IsDigit(tail[0])
    ensures DigitRun(a + ("," + (b + tail))) == a
    ensures (a + ("," + (b + tail)))[|a|] == ','
    ensures (a + ("," + (b + tail)))[|a| + 1..] == b + tail
    ensures DigitRun(b + tail) == b
  {
    var comma := "," + (b + tail);
    assert comma[0] == ',';
    DigitRunStopsAt(a, comma);
    assert (a + comma)[|a|] == comma[0];
    assert (a + comma)[|a| + 1..] == comma[1..] == b + tail;
    DigitRunStopsAt(b, tail);
  }

  /** A +CSQ: line with any whitespace after the marker reads as its two
      numbers, whatever unmarked lines come before it and whatever lines
      follow ("+CSQ: 18,99" and "+CSQ:18,99" both read rssi 18, ber 99). */
  lemma ParseSignalReads(pre: seq<string>, pad: string, a: string, b: string, tail: string, later: seq<string>)
    requires forall j :: 0 <= j < |pre| ==> !Contains(pre[j], CsqMarker)
    requires AllSpace(pad)
    requires a != [] && AllDigits(a) && b != [] && AllDigits(b)
    requires tail == [] || !IsDigit(tail[0])
    ensures ParseSignal(pre + ([CsqMarker + (pad + (a + ("," + (b + tail))))] + later))
      == Some(SignalReading(ParseDigits(a), ParseDigits(b)))
  {
    var after := pad + (a + ("," + (b + tail)));
    var line := CsqMarker + after;
    assert line[..|CsqMarker|] == CsqMarker;
    assert line[|CsqMarker|..] == after;
    CsqFieldsOf(pad, a, b, tail);
    assert MatchCsqAt(line, 0).Some?;
    assert CsqMatchPosition(line, 0) == Some(0);
    FirstLineWithMarker(line, later, CsqMarker);
    ParseSignalSkipsUnmarked(pre, [line] + later);
  }

  /** A match anywhere in the first +CSQ: line, with no match before it in
      that line, is the reading ("x+CSQ: 18,99" reads rssi 18, ber 99). */
  lemma ParseSignalFinds(lines: seq<string>, k: nat, p: nat)
    requires FirstContaining(lines, CsqMarker) == Some(k)
    requires p <= |lines[k]| && MatchCsqAt(lines[k], p).Some?
    requires NoMatchBetween(lines[k], 0, p)
    ensures ParseSignal(lines) == MatchCsqAt(lines[k], p)
  {
    var line := lines[k];
    var m := CsqMatchPosition(line, 0);
    if m.None? {
      assert false;
    } else {
      LeftmostMatchUnique(line, m.value, p);
    }
  }

  /** Two positions that both match with no match before them are one. */
  lemma LeftmostMatchUnique(line: string, a: nat, b: nat)
    requires MatchCsqAt(line, a).Some? && NoMatchBetween(line, 0, a)
    requires MatchCsqAt(line, b).Some? && NoMatchBetween(line, 0, b)
    ensures a == b
  {
    if a < b {
      assert false;
    } else if b < a {
      assert false;
    }
  }

  /** The converse: a reading comes from the first +CSQ: line, at the
      leftmost position where the pattern matches, and there the line holds
      the marker, whitespace, the rssi's digits, a comma and the ber's
      digits, the latter not followed by another digit. */
  lemma ParseSignalShape(lines: seq<string>, s: SignalReading)
      returns (k: nat, p: nat, pad: string, a: string, b: string, tail: string)
    requires ParseSignal(lines) == Some(s)
    ensures k < |lines| && Contains(lines[k], CsqMarker)
    ensures forall j :: 0 <= j < k ==> !Contains(lines[j], CsqMarker)
    ensures p <= |lines[k]| && NoMatchBetween(lines[k], 0, p)
    ensures lines[k][p..] == CsqMarker + (pad + (a + ("," + (b + tail))))
    ensures AllSpace(pad) && a != [] && AllDigits(a) && b != [] && AllDigits(b)
    ensures ParseDigits(a) == s.rssi && ParseDigits(b) == s.ber
    ensures tail == [] || !IsDigit(tail[0])
  {
    k := FirstContaining(lines, CsqMarker).value;
    var line := lines[k];
    p := CsqMatchPosition(line, 0).value;
    assert MatchCsqAt(line, p) == Some(s);
    var after := line[p + |CsqMarker|..];
    pad, a, b, tail := CsqFieldsShape(after, s);
    SliceSplit(line, p, p + |CsqMarker|);
  }

  lemma CommaSplit(rest: string, a: string, x: string)
    requires |a| < |rest| && a == rest[..|a|] && rest[|a|] == ','
    requires x == rest[|a| + 1..]
    ensures rest == a + ("," + x)
  {
    SliceAround(rest, |a|);
  }

  /** What the fields after the marker hold when they read as a reading. */
  lemma CsqFieldsShape(after: string, s: SignalReading) returns (pad: string, a: string, b: string, tail: string)
    requires CsqFields(after) == Some(s)
    ensures after == pad + (a + ("," + (b + tail)))
    ensures AllSpace(pad) && a != [] && AllDigits(a) && b != [] && AllDigits(b)
    ensures ParseDigits(a) == s.rssi && ParseDigits(b) == s.ber
    ensures tail == [] || !IsDigit(tail[0])
  {
    var rest := TrimStart(after);
    TrimStartCut(after);
    pad := after[..|after| - |rest|];
    assert after == pad + rest;
    a, b, tail := CsqNumbersShape(rest, s);
  }

  /** What the numbers part holds when it reads as a reading. */
  lemma CsqNumbersShape(rest: string, s: SignalReading) returns (a: string, b: string, tail: string)
    requires CsqNumbers(rest) == Some(s)
    ensures rest == a + ("," + (b + tail))
    ensures a != [] && AllDigits(a) && b != [] && AllDigits(b)
    ensures ParseDigits(a) == s.rssi && ParseDigits(b) == s.ber
    ensures tail == [] || !IsDigit(tail[0])
  {
    a := DigitRun(rest);
    var x := rest[|a| + 1..];
    b := DigitRun(x);
    tail := x[|b|..];
    assert x == b + tail by {
      assert b == x[..|b|];
    }
    CommaSplit(rest, a, x);
  }

  /** The reply "+CSQ: 0,0" reads as rssi 0, ber 0. */
  lemma ParseSignalZero()
    ensures ParseSignal(["+CSQ: 0,0"]) == Some(SignalReading(0, 0))
  {
    var s := SignalReading(0, 0);
    assert FormatCsq(s) == "+CSQ: 0,0";
    ParseSignalFormatCsq(s, []);
    assert [FormatCsq(s)] + [] == ["+CSQ: 0,0"];
  }

  /** A response without any +CSQ: line has no reading. */
  lemma ParseSignalNeedsMarker(lines: seq<string>)
    requires forall k :: 0 <= k < |lines| ==> !Contains(lines[k], CsqMarker)
    ensures ParseSignal(lines) == None
  {
  }

  /** Once a response has a +CSQ: line, appending more lines changes nothing:
      only the first such line is ever examined. */
  lemma {:induction false} ParseSignalIgnoresLaterLines(lines: seq<string>, later: seq<string>)
    requires exists k :: 0 <= k < |lines| && Contains(lines[k], CsqMarker)
    ensures ParseSignal(lines + later) == ParseSignal(lines)
  {
    FirstContainingPrefix(lines, later, CsqMarker);
  }

  lemma {:induction false} FirstContainingPrefix(lines: seq<string>, later: seq<string>, marker: string)
    requires exists k :: 0 <= k < |lines| && Contains(lines[k], marker)
    ensures FirstContaining(lines + later, marker) == FirstContaining(lines, marker)
    ensures FirstContaining(lines, marker).Some?
    ensures (lines + later)[FirstContaining(lines, marker).value] == lines[FirstContaining(lines, marker).value]
  {
    assert (lines + later)[0] == lines[0];
    if !Contains(lines[0], marker) {
      assert (lines + later)[1..] == lines[1..] + later;
      var k :| 0 <= k < |lines| && Contains(lines[k], marker);
      assert lines[1..][k - 1] == lines[k];
      FirstContainingPrefix(lines[1..], later, marker);
    }
  }

  /** Lines before the first one containing the marker are passed over. */
  lemma {:induction false} FirstContainingAfter(pre: seq<string>, lines: seq<string>, marker: string)
    requires forall j :: 0 <= j < |pre| ==> !Contains(pre[j], marker)
    ensures FirstContaining(lines, marker).None? ==> FirstContaining(pre + lines, marker).None?
    ensures FirstContaining(lines, marker).Some? ==>
      FirstContaining(pre + lines, marker) == Some(|pre| + FirstContaining(lines, marker).value)
    decreases |pre|
  {
    if pre != [] {
      assert (pre + lines)[0] == pre[0];
      assert (pre + lines)[1..] == pre[1..] + lines;
      FirstContainingAfter(pre[1..], lines, marker);
    } else {
      assert pre + lines == lines;
    }
  }

  /** Lines without "+CSQ:" before the first one with it change nothing. */
  lemma ParseSignalSkipsUnmarked(pre: seq<string>, lines: seq<string>)
    requires forall j :: 0 <= j < |pre| ==> !Contains(pre[j], CsqMarker)
    ensures ParseSignal(pre + lines) == ParseSignal(lines)
  {
    FirstContainingAfter(pre, lines, CsqMarker);
    if FirstContaining(lines, CsqMarker).Some? {
      var k := FirstContaining(lines, CsqMarker).value;
      assert (pre + lines)[|pre| + k] == lines[k];
    }
  }

  /** With `k` the first line mentioning +CSQ:, there is no reading exactly
      when the pattern matches nowhere in that line, whatever later lines
      hold. */
  lemma ParseSignalNone(lines: seq<string>, k: nat)
    requires FirstContaining(lines, CsqMarker) == Some(k)
    ensures ParseSignal(lines).None? <==> NoMatchBetween(lines[k], 0, |lines[k]| + 1)
  {
    assert ParseSignal(lines) == SearchCsq(lines[k], 0);
    SearchCsqNone(lines[k]);
  }

  /** The search fails exactly when the pattern matches at no position. */
  lemma SearchCsqNone(line: string)
    ensures SearchCsq(line, 0).None? <==> NoMatchBetween(line, 0, |line| + 1)
  {
    var m := CsqMatchPosition(line, 0);
    if m.Some? && NoMatchBetween(line, 0, |line| + 1) {
      NoMatchAt(line, 0, |line| + 1, m.value);
      assert false;
    }
  }

  /** A position inside a stretch without matches does not match. */
  lemma NoMatchAt(line: string, from: nat, to: nat, q: nat)
    requires NoMatchBetween(line, from, to) && from <= q < to
    ensures MatchCsqAt(line, q).None?
  {
  }

  /** For example, a malformed first +CSQ: line hides a well-formed later
      one. */
  lemma ParseSignalFirstLineDecides()
    ensures ParseSignal(["+CSQ: ?", "+CSQ: 18,99"]) == None
  {
    var first := "+CSQ: ?";
    assert first[..5] == CsqMarker;
    assert OccursAt(first, CsqMarker, 0);
    assert FirstContaining(["+CSQ: ?", "+CSQ: 18,99"], CsqMarker) == Some(0);
    forall p | 0 <= p <= |first|
      ensures MatchCsqAt(first, p).None?
    {
      UnreadableCsqLine(p);
    }
    ParseSignalNone(["+CSQ: ?", "+CSQ: 18,99"], 0);
  }

  /** "+CSQ: ?" matches the pattern at no position. */
  lemma UnreadableCsqLine(p: nat)
    requires p <= |"+CSQ: ?"|
    ensures MatchCsqAt("+CSQ: ?", p).None?
  {
    var first := "+CSQ: ?";
    if p == 0 {
      assert first == CsqMarker + (" " + "?");
      NoDigitAfterMarker(first, " ", "?");
    } else if p == 1 {
      assert first[1] == 'C';
      NoMarkerAt(first, 1);
    } else if p == 2 {
      assert first[2] == 'S';
      NoMarkerAt(first, 2);
    } else {
      NoMarkerAt(first, p);
    }
  }

  /** The pattern cannot match at a position that does not hold the '+' of
      the marker, nor where the marker would run past the end. */
  lemma NoMarkerAt(line: string, p: nat)
    requires p + |CsqMarker| > |line| || (p < |line| && line[p] != '+')
    ensures MatchCsqAt(line, p).None?
  {
    if p + |CsqMarker| <= |line| {
      assert line[p..p + |CsqMarker|][0] == line[p];
    }
  }

  /** A marker followed by blanks and then neither a blank nor a digit does
      not match. */
  lemma NoDigitAfterMarker(line: string, pad: string, t: string)
    requires line == CsqMarker + (pad + t) && AllSpace(pad)
    requires t != [] && !IsSpace(t[0]) && !IsDigit(t[0])
    ensures MatchCsqAt(line, 0).None?
  {
    assert line[..|CsqMarker|] == CsqMarker;
    assert line[|CsqMarker|..] == pad + t;
    TrimStartPadded(pad, t);
    assert DigitRun(t) == [];
  }

  // ---------------------------------------------------------------------------
  // processSIM
  // ---------------------------------------------------------------------------

  /** The SIM status of a response: the first line mentioning +CPIN: is split
      on ':' and its second field, trimmed, is the status; a blank status
      shows as "Unknown". No +CPIN: line, no status. */
  function ParseSim(lines: seq<string>): (r: Option<string>)
    ensures r.Some? <==> exists k :: 0 <= k < |lines| && Contains(lines[k], CpinMarker)
    ensures r.Some? ==> r.value != [] && ':' !in r.value
    ensures r.Some? && r.value != Unknown ==> Trim(r.value) == r.value
  {
    match FirstContaining(lines, CpinMarker)
    case None => None
    case Some(k) => Some(SimText(lines[k]))
  }

  /** What the SIM field shows for a +CPIN: line: its status field, or
      "Unknown" when that is blank. */
  function SimText(line: string): (text: string)
    ensures text != [] && ':' !in text
    ensures text != Unknown ==> Trim(text) == text
    ensures StatusField(line) != [] ==> text == StatusField(line)
    ensures StatusField(line) == [] ==> text == Unknown
  {
    var status := StatusField(line);
    UnknownIsPlainWord();
    if status == [] then Unknown else status
  }

  lemma UnknownIsPlainWord()
    ensures Unknown != [] && ':' !in Unknown
  {
    assert forall i :: 0 <= i < |Unknown| ==> Unknown[i] != ':';
  }

  /** What the SIM field shows for a +CPIN: line with a blank status. */
  const Unknown: string := "Unknown"

  /** The second ':'-separated field of a line, trimmed (empty when the line
      has no ':'). */
  function StatusField(line: string): (status: string)
    ensures ':' !in status
    ensures Trim(status) == status
  {
    var fields := Split(line, ':');
    SplitFieldsFree(line, ':');
    if |fields| > 1 then
      TrimKeepsOut(fields[1], ':');
      TrimIdempotent(fields[1]);
      Trim(fields[1])
    else []
  }

  /** The status field is the text between the line's first ':' and the
      next one (or the end of the line), trimmed: "+CPIN: SIM PIN: 3" has
      the status "SIM PIN". */
  lemma StatusFieldOf(a: string, b: string, rest: string)
    requires ':' !in a && ':' !in b
    requires rest == [] || rest[0] == ':'
    ensures StatusField(a + ":" + b + rest) == Trim(b)
  {
    SecondField(a, b, rest, ':');
  }

  /** Lines without "+CPIN:" before the first one with it change nothing. */
  lemma ParseSimSkipsUnmarked(pre: seq<string>, lines: seq<string>)
    requires forall j :: 0 <= j < |pre| ==> !Contains(pre[j], CpinMarker)
    ensures ParseSim(pre + lines) == ParseSim(lines)
  {
    FirstContainingAfter(pre, lines, CpinMarker);
    if FirstContaining(lines, CpinMarker).Some? {
      var k := FirstContaining(lines, CpinMarker).value;
      assert (pre + lines)[|pre| + k] == lines[k];
    }
  }

  /** The SIM status of a response is read from its first "+CPIN:" line,
      whatever unmarked lines come before it and whatever lines follow: the
      text between that line's first ':' and the next one, trimmed, or
      "Unknown" when that is blank. */
  lemma ParseSimReads(pre: seq<string>, a: string, b: string, rest: string, later: seq<string>)
    requires forall j :: 0 <= j < |pre| ==> !Contains(pre[j], CpinMarker)
    requires ':' !in a && ':' !in b
    requires rest == [] || rest[0] == ':'
    requires Contains(a + ":" + b + rest, CpinMarker)
    ensures ParseSim(pre + ([a + ":" + b + rest] + later)) == Some(if Trim(b) == [] then Unknown else Trim(b))
  {
    var line := a + ":" + b + rest;
    assert ([line] + later)[0] == line;
    assert FirstContaining([line] + later, CpinMarker) == Some(0);
    StatusFieldOf(a, b, rest);
    ParseSimSkipsUnmarked(pre, [line] + later);
  }

  lemma TrimKeepsOut(s: string, c: char)
    requires c !in s
    ensures c !in Trim(s)
  {
    var a := LeadingSpace(s);
    var t := Trim(s);
    TrimIsSlice(s);
    forall i | 0 <= i < |t|
      ensures t[i] != c
    {
      assert t[i] == s[a + i];
    }
  }

  lemma TrimIdempotent(s: string)
    ensures Trim(Trim(s)) == Trim(s)
  {
    var t := Trim(s);
    if t != [] {
      TrimPadded([], t, []);
      assert [] + t + [] == t;
    } else {
      TrimAllSpace(t);
    }
  }

  /** The replies "+CPIN:" + padding + status read as the status, for any
      status free of ':' and of surrounding whitespace ("+CPIN: READY" and
      "+CPIN:READY" both read "READY"), whatever lines follow. */
  lemma ParseSimFormatCpin(pad: string, status: string, later: seq<string>)
    requires AllSpace(pad)
    requires status != [] && ':' !in status
    requires !IsSpace(status[0]) && !IsSpace(status[|status| - 1])
    ensures ParseSim([CpinMarker + pad + status] + later) == Some(status)
  {
    var line := CpinMarker + pad + status;
    assert line[..|CpinMarker|] == CpinMarker;
    FirstLineWithMarker(line, later, CpinMarker);
    var parts := ["+CPIN", pad + status];
    assert ':' !in pad + status by {
      forall i | 0 <= i < |pad + status|
        ensures (pad + status)[i] != ':'
      {
        if i >= |pad| {
          assert (pad + status)[i] == status[i - |pad|];
        } else {
          assert IsSpace(pad[i]);
        }
      }
    }
    assert Join(parts, ':') == line;
    SplitJoin(parts, ':');
    TrimPadded(pad, status, []);
    assert pad + status + [] == pad + status;
  }

  /** A +CPIN: line with nothing but whitespace after the marker shows
      "Unknown", whatever lines follow. */
  lemma ParseSimBlank(pad: string, later: seq<string>)
    requires AllSpace(pad)
    ensures ParseSim([CpinMarker + pad] + later) == Some(Unknown)
  {
    var line := CpinMarker + pad;
    assert line[..|CpinMarker|] == CpinMarker;
    FirstLineWithMarker(line, later, CpinMarker);
    var parts := ["+CPIN", pad];
    assert ':' !in pad by {
      forall i | 0 <= i < |pad|
        ensures pad[i] != ':'
      {
        assert IsSpace(pad[i]);
      }
    }
    assert Join(parts, ':') == line;
    SplitJoin(parts, ':');
    TrimAllSpace(pad);
  }

  /** A first line that starts with the marker is the one `find` picks. */
  lemma FirstLineWithMarker(line: string, later: seq<string>, marker: string)
    requires |marker| <= |line| && line[..|marker|] == marker
    ensures FirstContaining([line] + later, marker) == Some(0)
  {
    assert OccursAt(line, marker, 0);
    OccursContains(line, marker, 0);
  }

  // ---------------------------------------------------------------------------
  // processInfo
  // ---------------------------------------------------------------------------

  /** The module identity shown for an ATI response: its first line, or the
      placeholder "--" when that line is empty; nothing for no lines. */
  function ParseInfo(lines: seq<string>): (r: Option<string>)
    ensures r.Some? <==> |lines| > 0
    ensures r.Some? ==> r.value != []
    ensures r.Some? && lines[0] != [] ==> r.value == lines[0]
    ensures r.Some? && lines[0] == [] ==> r.value == "--"
  {
    if |lines| > 0 then Some(if lines[0] == [] then "--" else lines[0]) else None
  }
}
