/** The back end's AT exchange (back-end/main.py `send_at_command`): after
    writing the command it reads lines until one ends the response, keeping
    every line that is neither blank nor the modem's echo of the command.
    The serial port is replaced by the finite sequence of what its reads
    return; running out of reads is the time-out. Also the port filter of
    `find_at_port`. */
module AtCollector {
  import opened Wrappers
  import opened Text

  /** One read from the port: a line of text (not yet stripped; an empty one
      stands for a read that timed out with no data), or a serial exception. */
  datatype Read = Line(raw: string) | Fault(reason: string)

  datatype Status = Success | Error | Timeout | CommError

  /** The dictionary the function returns: a status and the lines kept. */
  datatype Response = Response(status: Status, data: seq<string>)

  /** The text written to the modem for `cmd`: the command, then CR LF. */
  function FullCommand(cmd: string): (w: string)
    ensures |w| == |cmd| + 2 && w[..|cmd|] == cmd && w[|cmd|..] == "\r\n"
  {
    var w := cmd + "\r\n";
    assert w[..|cmd|] == cmd && w[|cmd|..] == "\r\n";
    w
  }

  /** Stripping the written text gives back the stripped command. */
  lemma FullCommandStrips(cmd: string)
    ensures Trim(FullCommand(cmd)) == Trim(cmd)
  {
    assert FullCommand(cmd) == cmd + "\r\n";
    var crlf := "\r\n";
    assert AllSpace(crlf) by {
      assert crlf[0] == '\r' && crlf[1] == '\n';
    }
    var t := TrimStart(cmd);
    var a := |cmd| - |t|;
    TrimStartCut(cmd);
    if t == [] {
      assert cmd[..a] == cmd;
      TrimAllSpace(cmd);
      assert AllSpace(cmd + crlf) by {
        forall i | 0 <= i < |cmd + crlf|
          ensures IsSpace((cmd + crlf)[i])
        {
          if i < |cmd| {
            assert (cmd + crlf)[i] == cmd[i];
          } else {
            assert (cmd + crlf)[i] == crlf[i - |cmd|];
          }
        }
      }
      TrimAllSpace(cmd + crlf);
    } else {
      assert cmd + crlf == cmd[..a] + (t + crlf);
      TrimStartPadded(cmd[..a], t + crlf);
      TrimEndSpaces(t, crlf);
    }
  }

  /** A stripped line the loop passes over: blank, or the command's echo. */
  predicate Skipped(line: string, cmd: string) {
    line == [] || line == cmd
  }

  /** A kept line that ends the exchange: exactly "OK", or any line that
      mentions ERROR (such as "+CME ERROR: 10"). */
  predicate Terminates(line: string) {
    line == "OK" || Contains(line, "ERROR")
  }

  predicate NoTerminator(lines: seq<string>) {
    forall i :: 0 <= i < |lines| ==> !Terminates(lines[i])
  }

  /** The stripped lines the loop would keep from `input`, in order, up to
      the first serial exception: independent of where the exchange ends. */
  function Kept(input: seq<Read>, cmd: string): (kept: seq<string>)
    ensures |kept| <= |input|
    ensures forall i :: 0 <= i < |kept| ==> !Skipped(kept[i], cmd)
  {
    if input == [] then []
    else match input[0]
      case Fault(_) => []
      case Line(raw) =>
        var line := Trim(raw);
        if Skipped(line, cmd) then Kept(input[1..], cmd) else [line] + Kept(input[1..], cmd)
  }

  /** The reason given by the first serial exception among `input`. */
  function FirstFault(input: seq<Read>): Option<string> {
    if input == [] then None
    else match input[0]
      case Fault(reason) => Some(reason)
      case Line(_) => FirstFault(input[1..])
  }

  /** The index of the first terminating line. */
  function FirstTerminator(lines: seq<string>): (k: Option<nat>)
    ensures k.Some? ==> k.value < |lines| && Terminates(lines[k.value]) && NoTerminator(lines[..k.value])
    ensures k.None? ==> NoTerminator(lines)
  {
    if lines == [] then None
    else if Terminates(lines[0]) then Some(0)
    else match FirstTerminator(lines[1..])
      case None => None
      case Some(k) =>
        assert lines[..k + 1] == [lines[0]] + lines[1..][..k];
        Some(k + 1)
  }

  /** What the exchange returns, stated over the whole input at once: the
      kept lines cut just after the first terminating line, with success
      when that line is "OK" (checked before ERROR) and error otherwise; with
      no terminating line, a serial exception gives a comm error whose only
      line is the exception's text, and running out of reads gives a
      time-out with every kept line. */
  function Collected(input: seq<Read>, cmd: string): (r: Response)
    ensures r.status == CommError ==> FirstFault(input).Some? && r.data == [FirstFault(input).value]
    ensures r.status != CommError ==> r.data <= Kept(input, cmd)
  {
    Respond(Kept(input, cmd), FirstFault(input))
  }

  /** The response for the kept lines and the first serial exception. */
  function Respond(kept: seq<string>, fault: Option<string>): (r: Response)
    ensures r.status == CommError ==> fault.Some? && r.data == [fault.value]
    ensures r.status != CommError ==> r.data <= kept
  {
    match FirstTerminator(kept)
    case Some(k) =>
      assert kept[..k + 1] <= kept;
      Response(if kept[k] == "OK" then Success else Error, kept[..k + 1])
    case None =>
      match fault
      case Some(reason) => Response(CommError, [reason])
      case None => Response(Timeout, kept)
  }

  /** What a response means for the reads it came from: its data are the
      kept lines in order, cut at the first terminating line and including
      it; the status says which line that was, or that there was none. */
  lemma CollectedMeaning(input: seq<Read>, cmd: string)
    ensures var r := Collected(input, cmd);
      r.status != CommError ==> |r.data| <= |Kept(input, cmd)| && r.data == Kept(input, cmd)[..|r.data|]
    ensures var r := Collected(input, cmd);
      r.status != CommError ==> forall i :: 0 <= i < |r.data| ==> !Skipped(r.data[i], cmd)
    ensures var r := Collected(input, cmd);
      r.status == Success || r.status == Error ==>
        r.data != [] && NoTerminator(r.data[..|r.data| - 1]) && Terminates(r.data[|r.data| - 1])
    ensures var r := Collected(input, cmd);
      r.status == Success <==> r.status != CommError && r.data != [] && r.data[|r.data| - 1] == "OK"
    ensures var r := Collected(input, cmd);
      r.status == Timeout <==> NoTerminator(Kept(input, cmd)) && FirstFault(input).None?
    ensures var r := Collected(input, cmd);
      r.status == Timeout ==> r.data == Kept(input, cmd)
    ensures var r := Collected(input, cmd);
      r.status == CommError <==> NoTerminator(Kept(input, cmd)) && FirstFault(input).Some?
    ensures var r := Collected(input, cmd);
      r.status == CommError ==> FirstFault(input).Some? && r.data == [FirstFault(input).value]
  {
    var kept := Kept(input, cmd);
    var fault := FirstFault(input);
    var r := Collected(input, cmd);
    assert r == Respond(kept, fault);
    RespondMeaning(kept, fault, r);
    if r.status != CommError {
      PrefixNotSkipped(r.data, kept, cmd);
    }
  }

  /** A prefix of lines none of which is skipped has no skipped line either. */
  lemma PrefixNotSkipped(data: seq<string>, kept: seq<string>, cmd: string)
    requires |data| <= |kept| && data == kept[..|data|]
    requires forall i :: 0 <= i < |kept| ==> !Skipped(kept[i], cmd)
    ensures forall i :: 0 <= i < |data| ==> !Skipped(data[i], cmd)
  {
    forall i | 0 <= i < |data|
      ensures !Skipped(data[i], cmd)
    {
      assert data[i] == kept[i];
    }
  }

  /** `CollectedMeaning` for any kept lines and any first exception. */
  lemma RespondMeaning(kept: seq<string>, fault: Option<string>, r: Response)
    requires r == Respond(kept, fault)
    ensures r.status != CommError ==> |r.data| <= |kept| && r.data == kept[..|r.data|]
    ensures r.status == Success || r.status == Error ==>
      r.data != [] && NoTerminator(r.data[..|r.data| - 1]) && Terminates(r.data[|r.data| - 1])
    ensures r.status == Success <==> r.status != CommError && r.data != [] && r.data[|r.data| - 1] == "OK"
    ensures r.status == Timeout <==> NoTerminator(kept) && fault.None?
    ensures r.status == Timeout ==> r.data == kept
    ensures r.status == CommError <==> NoTerminator(kept) && fault.Some?
    ensures r.status == CommError ==> fault.Some? && r.data == [fault.value]
  {
    match FirstTerminator(kept)
    case Some(k) =>
      var data := kept[..k + 1];
      assert data[..k] == kept[..k] && data[k] == kept[k];
    case None =>
      assert kept[..|kept|] == kept;
  }

  /** The response of the whole exchange, given the lines already gathered
      and the response of the rest of it. */
  function Resume(gathered: seq<string>, rest: Response): Response {
    if rest.status == CommError then rest else Response(rest.status, gathered + rest.data)
  }

  /** `Collected` obeys the recurrence of one turn of the read loop: a fault
      ends the exchange, a skipped line changes nothing, "OK" and ERROR
      lines end it with that line as the only one gathered so far, and any
      other line is gathered before what the rest of the input gives. */
  lemma {:induction false} CollectedStep(input: seq<Read>, cmd: string)
    requires |input| > 0
    ensures input[0].Fault? ==> Collected(input, cmd) == Response(CommError, [input[0].reason])
    ensures input[0].Line? && Skipped(Trim(input[0].raw), cmd) ==>
      Collected(input, cmd) == Collected(input[1..], cmd)
    ensures input[0].Line? && !Skipped(Trim(input[0].raw), cmd) && Trim(input[0].raw) == "OK" ==>
      Collected(input, cmd) == Response(Success, ["OK"])
    ensures input[0].Line? && !Skipped(Trim(input[0].raw), cmd) && !(Trim(input[0].raw) == "OK") && Contains(Trim(input[0].raw), "ERROR")
      ==> Collected(input, cmd) == Response(Error, [Trim(input[0].raw)])
    ensures input[0].Line? && !Skipped(Trim(input[0].raw), cmd) && !Terminates(Trim(input[0].raw)) ==>
      Collected(input, cmd) == Resume([Trim(input[0].raw)], Collected(input[1..], cmd))
  {
    var tail := input[1..];
    match input[0]
    case Fault(_) =>
    case Line(raw) =>
      var line := Trim(raw);
      if !Skipped(line, cmd) {
        var rest := Kept(tail, cmd);
        assert Kept(input, cmd) == [line] + rest;
        assert FirstFault(input) == FirstFault(tail);
        if Terminates(line) {
          RespondStops(line, rest, FirstFault(tail));
        } else {
          RespondGathers(line, rest, FirstFault(tail));
        }
      }
  }

  /** A terminating first line ends the response there. */
  lemma RespondStops(line: string, rest: seq<string>, fault: Option<string>)
    requires Terminates(line)
    ensures Respond([line] + rest, fault) == Response(if line == "OK" then Success else Error, [line])
  {
    var kept := [line] + rest;
    assert kept[0] == line;
    assert kept[..1] == [line];
  }

  /** Any other first line is gathered in front of the response for the
      rest. */
  lemma RespondGathers(line: string, rest: seq<string>, fault: Option<string>)
    requires !Terminates(line)
    ensures Respond([line] + rest, fault) == Resume([line], Respond(rest, fault))
  {
    var kept := [line] + rest;
    assert kept[0] == line && kept[1..] == rest;
    match FirstTerminator(rest)
    case None =>
    case Some(k) =>
      assert FirstTerminator(kept) == Some(k + 1);
      assert kept[k + 1] == rest[k];
      assert kept[..k + 2] == [line] + rest[..k + 1];
  }

  /** The read loop as written, with its early returns: it gives back
      exactly the response `Collected` describes. */
  method SendAtCommand(input: seq<Read>, cmd: string) returns (r: Response)
    ensures r == Collected(input, cmd)
  {
    var responseLines: seq<string> := [];
    var i := 0;
    while i < |input|
      invariant 0 <= i <= |input|
      invariant Collected(input, cmd) == Resume(responseLines, Collected(input[i..], cmd))
    {
      CollectedStep(input[i..], cmd);
      assert input[i..][0] == input[i] && input[i..][1..] == input[i + 1..];
      match input[i]
      case Fault(reason) =>
        assert Collected(input[i..], cmd) == Response(CommError, [reason]);
        return Response(CommError, [reason]);
      case Line(raw) =>
        var line := Trim(raw);
        if !Skipped(line, cmd) {
          if line == "OK" {
            assert Collected(input[i..], cmd) == Response(Success, [line]);
            return Response(Success, responseLines + [line]);
          }
          if Contains(line, "ERROR") {
            assert Collected(input[i..], cmd) == Response(Error, [line]);
            return Response(Error, responseLines + [line]);
          }
          ResumeTwice(responseLines, [line], Collected(input[i + 1..], cmd));
          responseLines := responseLines + [line];
        } else {
          assert Collected(input[i..], cmd) == Collected(input[i + 1..], cmd);
        }
        i := i + 1;
    }
    assert input[i..] == [];
    return Response(Timeout, responseLines);
  }

  lemma ResumeTwice(a: seq<string>, b: seq<string>, r: Response)
    ensures Resume(a, Resume(b, r)) == Resume(a + b, r)
  {
    assert a + (b + r.data) == a + b + r.data;
  }

  /** A modem echoing the command does not disturb the response, provided the
      command has no surrounding whitespace of its own. */
  lemma EchoIsSkipped(cmd: string, input: seq<Read>)
    requires cmd == [] || (!IsSpace(cmd[0]) && !IsSpace(cmd[|cmd| - 1]))
    ensures Collected([Line(FullCommand(cmd))] + input, cmd) == Collected(input, cmd)
  {
    EchoStrips(cmd);
    SkipLine(cmd, FullCommand(cmd), input);
  }

  /** The echo of such a command strips to the command, or to nothing. */
  lemma EchoStrips(cmd: string)
    requires cmd == [] || (!IsSpace(cmd[0]) && !IsSpace(cmd[|cmd| - 1]))
    ensures Skipped(Trim(FullCommand(cmd)), cmd)
  {
    assert FullCommand(cmd) == cmd + "\r\n";
    if cmd == [] {
      assert AllSpace("\r\n") by {
        assert "\r\n"[0] == '\r' && "\r\n"[1] == '\n';
      }
      TrimAllSpace("\r\n");
      assert cmd + "\r\n" == "\r\n";
    } else {
      StripCrLf(cmd);
    }
  }

  /** A blank line or the echo is passed over. */
  lemma SkipLine(cmd: string, raw: string, input: seq<Read>)
    requires Skipped(Trim(raw), cmd)
    ensures Collected([Line(raw)] + input, cmd) == Collected(input, cmd)
  {
    CollectedStep([Line(raw)] + input, cmd);
    assert ([Line(raw)] + input)[1..] == input;
  }

  /** Any other line that does not end the exchange is gathered in front of
      what the rest of the input gives. */
  lemma KeepLine(cmd: string, raw: string, input: seq<Read>)
    requires !Skipped(Trim(raw), cmd) && !Terminates(Trim(raw))
    ensures Collected([Line(raw)] + input, cmd) == Resume([Trim(raw)], Collected(input, cmd))
  {
    CollectedStep([Line(raw)] + input, cmd);
    assert ([Line(raw)] + input)[1..] == input;
  }

  /** A line of exactly "OK" always means success, even though ERROR is
      checked too. */
  lemma OkMeansSuccess(cmd: string, raw: string, input: seq<Read>)
    requires Trim(raw) == "OK" && cmd != "OK"
    ensures Collected([Line(raw)] + input, cmd) == Response(Success, ["OK"])
  {
    CollectedStep([Line(raw)] + input, cmd);
  }

  /** A kept line mentioning ERROR (such as "+CME ERROR: 10") ends the
      exchange with status error, that line last, whatever follows. */
  lemma ErrorLineEnds(cmd: string, raw: string, input: seq<Read>)
    requires !Skipped(Trim(raw), cmd) && Trim(raw) != "OK" && Contains(Trim(raw), "ERROR")
    ensures Collected([Line(raw)] + input, cmd) == Response(Error, [Trim(raw)])
  {
    CollectedStep([Line(raw)] + input, cmd);
  }

  /** A line the modem ends with CR LF strips back to its text. */
  lemma StripCrLf(line: string)
    requires line != [] && !IsSpace(line[0]) && !IsSpace(line[|line| - 1])
    ensures Trim(line + "\r\n") == line
  {
    var crlf := "\r\n";
    assert AllSpace(crlf) by {
      assert crlf[0] == '\r' && crlf[1] == '\n';
    }
    TrimPadded([], line, crlf);
    assert [] + line + crlf == line + crlf;
  }

  // ---------------------------------------------------------------------------
  // Port candidates
  // ---------------------------------------------------------------------------

  /** A device name `find_at_port` is willing to probe. */
  predicate IsPortCandidate(device: string) {
    Contains(device, "USB") || Contains(device, "COM")
  }

  /** The devices worth probing, in the order the system lists them. */
  function PortCandidates(devices: seq<string>): (r: seq<string>)
    ensures |r| <= |devices|
    ensures forall d :: d in r <==> d in devices && IsPortCandidate(d)
  {
    if devices == [] then []
    else (if IsPortCandidate(devices[0]) then [devices[0]] else []) + PortCandidates(devices[1..])
  }

  /** Filtering respects the listing order: the candidates of two listings
      in a row are those of the first followed by those of the second. */
  lemma {:induction false} PortCandidatesAppend(a: seq<string>, b: seq<string>)
    ensures PortCandidates(a + b) == PortCandidates(a) + PortCandidates(b)
  {
    if a == [] {
      assert a + b == b;
    } else {
      assert (a + b)[1..] == a[1..] + b;
      PortCandidatesAppend(a[1..], b);
    }
  }
}
