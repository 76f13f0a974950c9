/** Whole exchanges: a modem's reply lines go through `send_at_command`
    (back-end/main.py) and the response's data lines through the
    dashboard's readers (script.js). The lemmas follow a well-formed reply
    from the serial line to the page. */
module Exchange {
  import opened Wrappers
  import opened Text
  import opened ModemResponse
  import opened AtCollector
  import opened Dashboard

  /** A command as the back end sends it: it starts with the "AT" prefix
      (so no reply line starting with '+' is mistaken for its echo) and
      does not end in whitespace. */
  predicate AtCommand(cmd: string) {
    |cmd| >= 2 && cmd[0] == 'A' && cmd[1] == 'T' && !IsSpace(cmd[|cmd| - 1])
  }

  /** A +CSQ line is plain text the collector keeps as it is: it has no
      surrounding whitespace and never ends the exchange. */
  lemma FormatCsqIsPlain(s: SignalReading)
    ensures FormatCsq(s) != [] && !IsSpace(FormatCsq(s)[0]) && !IsSpace(FormatCsq(s)[|FormatCsq(s)| - 1])
    ensures !Terminates(FormatCsq(s))
  {
    var line := FormatCsq(s);
    var ber := NatToString(s.ber);
    assert line[0] == '+';
    assert line[|line| - 1] == ber[|ber| - 1];
    assert IsDigit(ber[|ber| - 1]);
    assert 'E' !in line by {
      var rssi := NatToString(s.rssi);
      assert line == CsqMarker + " " + rssi + "," + ber;
      assert 'E' !in rssi by {
        forall i | 0 <= i < |rssi| ensures rssi[i] != 'E' {
          assert IsDigit(rssi[i]);
        }
      }
      assert 'E' !in ber by {
        forall i | 0 <= i < |ber| ensures ber[i] != 'E' {
          assert IsDigit(ber[i]);
        }
      }
    }
    ContainsHasChars(line, "ERROR", 0);
  }

  /** "OK" sent with CR LF is stripped back to "OK". */
  lemma OkLine()
    ensures Trim("OK\r\n") == "OK"
  {
    StripCrLf("OK");
    assert "OK" + "\r\n" == "OK\r\n";
  }

  /** A blank line strips to nothing and is passed over. */
  lemma BlankLine()
    ensures Trim("\r\n") == []
  {
    assert AllSpace("\r\n") by {
      assert "\r\n"[0] == '\r' && "\r\n"[1] == '\n';
    }
    TrimAllSpace("\r\n");
  }

  /** The +CSQ exchange: the modem echoes the command, sends its reading,
      a blank line and "OK". The back end answers success with the reading
      line and "OK", whatever comes after, and the dashboard shows exactly
      that reading. */
  lemma CsqExchange(cmd: string, s: SignalReading, later: seq<Read>, v: View)
    requires AtCommand(cmd)
    ensures var r := Collected(CsqReply(cmd, s, later), cmd);
      && r == Response(Success, [FormatCsq(s)] + ["OK"])
      && ParseSignal(r.data) == Some(s)
      && ShownReading(ProcessSignal(v, r.data)) == Some(s)
  {
    CsqCollected(cmd, s, later);
    ShowsReading(s, v);
  }

  /** The dashboard's side of the +CSQ exchange. */
  lemma ShowsReading(s: SignalReading, v: View)
    ensures ParseSignal([FormatCsq(s)] + ["OK"]) == Some(s)
    ensures ShownReading(ProcessSignal(v, [FormatCsq(s)] + ["OK"])) == Some(s)
  {
    ParseSignalFormatCsq(s, ["OK"]);
  }

  /** The collector's side of the +CSQ exchange. */
  lemma CsqCollected(cmd: string, s: SignalReading, later: seq<Read>)
    requires AtCommand(cmd)
    ensures Collected(CsqReply(cmd, s, later), cmd) == Response(Success, [FormatCsq(s)] + ["OK"])
  {
    var rest := [Line(FormatCsq(s) + "\r\n")] + ([Line("\r\n")] + ([Line("OK\r\n")] + later));
    EchoIsSkipped(cmd, rest);
    CsqThenOk(cmd, s, later);
  }

  /** After the echo: the reading is gathered, the blank line passed over
      and "OK" ends the exchange with success. */
  lemma CsqThenOk(cmd: string, s: SignalReading, later: seq<Read>)
    requires AtCommand(cmd)
    ensures Collected([Line(FormatCsq(s) + "\r\n")] + ([Line("\r\n")] + ([Line("OK\r\n")] + later)), cmd)
      == Response(Success, [FormatCsq(s)] + ["OK"])
  {
    KeepCsqLine(cmd, s, [Line("\r\n")] + ([Line("OK\r\n")] + later));
    BlankThenOk(cmd, later);
  }

  /** A +CSQ line is gathered, stripped of its CR LF. */
  lemma KeepCsqLine(cmd: string, s: SignalReading, rest: seq<Read>)
    requires AtCommand(cmd)
    ensures Collected([Line(FormatCsq(s) + "\r\n")] + rest, cmd) == Resume([FormatCsq(s)], Collected(rest, cmd))
  {
    var line := FormatCsq(s);
    FormatCsqIsPlain(s);
    StripCrLf(line);
    NotTheEcho(cmd, line);
    KeepLine(cmd, line + "\r\n", rest);
  }
  /** A blank line and then "OK" end the exchange with success. */
  lemma BlankThenOk(cmd: string, later: seq<Read>)
    requires AtCommand(cmd)
    ensures Collected([Line("\r\n")] + ([Line("OK\r\n")] + later), cmd) == Response(Success, ["OK"])
  {
    BlankLine();
    SkipLine(cmd, "\r\n", [Line("OK\r\n")] + later);
    OkLine();
    OkMeansSuccess(cmd, "OK\r\n", later);
  }

  /** A reply line starting with '+' is neither blank nor the echo. */
  lemma NotTheEcho(cmd: string, line: string)
    requires AtCommand(cmd)
    requires line != [] && line[0] == '+'
    ensures !Skipped(line, cmd)
  {
  }

  /** What a modem sends for +CSQ: the echo, the reading, a blank line,
      "OK", and whatever follows. */
  function CsqReply(cmd: string, s: SignalReading, later: seq<Read>): seq<Read> {
    [Line(FullCommand(cmd))] + ([Line(FormatCsq(s) + "\r\n")] + ([Line("\r\n")] + ([Line("OK\r\n")] + later)))
  }

  /** The +CPIN? exchange: the modem echoes the command, sends "+CPIN: "
      and its status, a blank line and "OK". The back end answers success
      with the status line and "OK", and the SIM field shows the status. */
  lemma SimExchange(cmd: string, status: string, later: seq<Read>, v: View)
    requires AtCommand(cmd)
    requires status != [] && ':' !in status && !IsSpace(status[0]) && !IsSpace(status[|status| - 1])
    requires !Contains(status, "ERROR")
    ensures var r := Collected(SimReply(cmd, status, later), cmd);
      && r == Response(Success, [CpinLine(status)] + ["OK"])
      && ParseSim(r.data) == Some(status)
      && ProcessSim(v, r.data).simStatus == status
  {
    SimCollected(cmd, status, later);
    ShowsStatus(status, v);
  }

  /** The collector's side of the +CPIN? exchange. */
  lemma SimCollected(cmd: string, status: string, later: seq<Read>)
    requires AtCommand(cmd)
    requires status != [] && !IsSpace(status[|status| - 1])
    requires !Contains(status, "ERROR")
    ensures Collected(SimReply(cmd, status, later), cmd) == Response(Success, [CpinLine(status)] + ["OK"])
  {
    var rest := [Line(CpinLine(status) + "\r\n")] + ([Line("\r\n")] + ([Line("OK\r\n")] + later));
    EchoIsSkipped(cmd, rest);
    CpinThenOk(cmd, status, later);
  }

  /** After the echo: the status line is gathered, the blank line passed
      over and "OK" ends the exchange with success. */
  lemma CpinThenOk(cmd: string, status: string, later: seq<Read>)
    requires AtCommand(cmd)
    requires status != [] && !IsSpace(status[|status| - 1])
    requires !Contains(status, "ERROR")
    ensures Collected([Line(CpinLine(status) + "\r\n")] + ([Line("\r\n")] + ([Line("OK\r\n")] + later)), cmd)
      == Response(Success, [CpinLine(status)] + ["OK"])
  {
    KeepCpinLine(cmd, status, [Line("\r\n")] + ([Line("OK\r\n")] + later));
    BlankThenOk(cmd, later);
  }

  /** The dashboard's side of the +CPIN? exchange. */
  lemma ShowsStatus(status: string, v: View)
    requires status != [] && ':' !in status && !IsSpace(status[0]) && !IsSpace(status[|status| - 1])
    ensures ParseSim([CpinLine(status)] + ["OK"]) == Some(status)
    ensures ProcessSim(v, [CpinLine(status)] + ["OK"]).simStatus == status
  {
    assert AllSpace(" ") by {
      assert " "[0] == ' ';
    }
    ParseSimFormatCpin(" ", status, ["OK"]);
  }

  /** The line a modem sends for a SIM status. */
  function CpinLine(status: string): string {
    CpinMarker + " " + status
  }

  /** What a modem sends for +CPIN?: the echo, the status line, a blank
      line, "OK", and whatever follows. */
  function SimReply(cmd: string, status: string, later: seq<Read>): seq<Read> {
    [Line(FullCommand(cmd))] + ([Line(CpinLine(status) + "\r\n")] + ([Line("\r\n")] + ([Line("OK\r\n")] + later)))
  }

  /** A +CPIN: line whose status does not mention ERROR is gathered,
      stripped of its CR LF. */
  lemma KeepCpinLine(cmd: string, status: string, rest: seq<Read>)
    requires AtCommand(cmd)
    requires status != [] && !IsSpace(status[|status| - 1])
    requires !Contains(status, "ERROR")
    ensures Collected([Line(CpinLine(status) + "\r\n")] + rest, cmd) == Resume([CpinLine(status)], Collected(rest, cmd))
  {
    CpinLineIsPlain(status);
    NotTheEcho(cmd, CpinLine(status));
    KeepLine(cmd, CpinLine(status) + "\r\n", rest);
  }

  /** A +CPIN: line has no surrounding whitespace, and it ends the exchange
      only when its status mentions ERROR. */
  lemma CpinLineIsPlain(status: string)
    requires status != [] && !IsSpace(status[|status| - 1])
    ensures CpinLine(status) != [] && CpinLine(status)[0] == '+'
    ensures Trim(CpinLine(status) + "\r\n") == CpinLine(status)
    ensures Terminates(CpinLine(status)) <==> Contains(status, "ERROR")
  {
    CpinLineStrips(status);
    CpinLineErrors(status);
  }

  lemma CpinLineStrips(status: string)
    requires status != [] && !IsSpace(status[|status| - 1])
    ensures Trim(CpinMarker + " " + status + "\r\n") == CpinMarker + " " + status
  {
    var line := CpinMarker + " " + status;
    assert line[0] == '+' && line[|line| - 1] == status[|status| - 1];
    StripCrLf(line);
  }

  lemma CpinLineErrors(status: string)
    ensures Contains(CpinMarker + " " + status, "ERROR") <==> Contains(status, "ERROR")
  {
    var head := CpinMarker + " ";
    assert 'E' !in head by {
      assert forall i :: 0 <= i < |head| ==> head[i] != 'E';
    }
    ContainsAfterPrefix(head, status, "ERROR");
    ContainsAfterSuffix(head, status, "ERROR");
  }

  /** Whatever the modem sends, a response that is not a comm error shows
      its first line as the module identity, never the "--" placeholder,
      because the back end never keeps a blank line; a comm error shows the
      exception's text instead. */
  lemma InfoShowsFirstLine(input: seq<Read>, cmd: string, v: View)
    ensures var r := Collected(input, cmd);
      r.status != CommError && r.data != [] ==> ProcessInfo(v, r.data).modelInfo == r.data[0]
    ensures var r := Collected(input, cmd);
      r.status == CommError && FirstFault(input).value != [] ==> ProcessInfo(v, r.data).modelInfo == FirstFault(input).value
  {
    CollectedMeaning(input, cmd);
  }
}
