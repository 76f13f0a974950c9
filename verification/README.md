# EC200U cellular dashboard: response handling, modelled in Dafny

The dashboard talks to a Quectel EC200U modem. A Python back end
(`back-end/main.py`) writes AT commands to the serial port and gathers the
modem's reply lines until an `OK`, an `ERROR` or a time-out. A browser
controller (`script.js`) turns the reply lines into what the page shows:

- the SIM status from `+CPIN:`;
- the signal reading from `+CSQ:`, shown as a raw rssi, a dBm label on the
  rssi scale of 3GPP TS 27.007 section 8.5, a quality word, a BER
  percentage and a row of five bars;
- the module identity from `ATI`.

This project models both halves as pure functions and proves what they
promise.

- `wrappers.dfy`, module `Wrappers`: the `Option` type.
- `text.dfy`, module `Text`: the string operations the two programs rely on.
  - JavaScript `trim` and Python `strip` (`Trim`).
  - `includes` and `in` (`Contains`).
  - `split(':')` (`Split`).
  - Decimal digits (`NatToString`, `DigitRun`, `LeadingInt`).
- `signal_display.dfy`, module `SignalDisplay`: `rssiToDbm`,
  `getQualityText` and `updateSignalBars`. The bars are a `seq<bool>`, not
  DOM classes.
- `modem_response.dfy`, module `ModemResponse`: the parsers inside
  `processSignal`, `processSIM` and `processInfo`.
  - The regular expression `\+CSQ:\s*(\d+),(\d+)` is a leftmost search over
    positions.
  - `lines.find` picks the first line containing the marker.
- `dashboard.dfy`, module `Dashboard`: the page as a `View` record.
  - `processInfo`, `processSIM`, `processSignal` and `resetUI` are
    functions from view to view.
  - `fetchStatus` (`Refresh`) applies the three readers in turn.
- `at_collector.dfy`, module `AtCollector`: `send_at_command`.
  - The serial port is a finite sequence of reads. Each read is a raw line
    or a serial exception.
  - `Collected` states the response over the whole input at once.
  - `SendAtCommand` is the read loop as written, and it is proved to
    compute `Collected`.
  - The `"USB"`/`"COM"` port-candidate filter of `find_at_port` is here too.
- `exchange.dfy`, module `Exchange`: whole exchanges, from the modem's reply
  lines through the back end to the page.

Points where the code behaves in a way a reader might not expect, modelled
as written:

- `resetUI` puts "--" in the port, model and SIM fields, clears the rssi
  and dBm fields and calls `updateSignalBars(0)`. It does not touch the
  quality word or the BER field, which keep their last text. `ResetUi`
  states this as written.
- For rssi 99 (TS 27.007's "not known or not detectable") the dBm label is
  "Unknown", yet the quality word is "Excellent" and all five bars are lit.
  `NotDetectableReading` states this as written.

## Model

| member | source | states |
|---|---|---|
| SignalDisplay.RssiToDbm | script.js:136-142 | the label of an rssi in 0..31 starts with a minus sign (a negative level) and every other rssi is "Unknown"; the value in each label is stated by RssiToDbmFollowsCsqScale, RssiToDbmReadsBack and RssiToDbmIncreasing |
| SignalDisplay.RssiToDbmFollowsCsqScale | script.js:137-141 | every rssi in 0..31, the three spelled-out labels included, is labelled with the TS 27.007 level -113 + 2·rssi, then " dBm", then " or less" at 0 and " or greater" at 31 |
| SignalDisplay.EndLabelNumerals | script.js:137-140 | the numerals in the literal labels "-113", "-111" and "-51" are the decimal forms of -113, -111 and -51 |
| SignalDisplay.RssiToDbmReadsBack | script.js:136-142 | reading the number back from the label recovers the TS 27.007 level for every rssi in 0..31; the label is "Unknown", and carries no number, exactly when rssi is outside 0..31 |
| SignalDisplay.RssiToDbmIncreasing | script.js:139 | the labelled dBm value grows strictly with rssi over 0..31 and lies in [-109, -53] for 2..30 |
| SignalDisplay.QualityOf | script.js:144-151 | the category's rank is the number of the cut points 5, 10, 15, 20, 25 the rssi reaches, so below 5 is "Very Poor" and 25 or more is "Excellent" |
| SignalDisplay.QualityMonotone | script.js:144-151 | a larger rssi never gets a lower category |
| SignalDisplay.ActiveBarCount | script.js:153-161 | the number of lit bars is at most five |
| SignalDisplay.SignalBars | script.js:153-161 | five bars, and bar i is lit exactly when i is below the number of thresholds 10, 15, 20, 25, 30 the rssi meets |
| SignalDisplay.SignalBarsPrefix | script.js:156-160 | a lit bar has every bar to its left lit |
| SignalDisplay.SignalBarsMonotone | script.js:153-161 | a larger rssi lights at least the same bars |
| SignalDisplay.SignalBarsExample | script.js:156-160 | rssi 22 lights three bars, the first three |
| SignalDisplay.NotDetectableReading | script.js:136-161 | rssi 99 reads "Unknown" dBm but "Excellent" quality and five lit bars |
| ModemResponse.FirstContaining | script.js:111 | `find` semantics: the index of a line containing the marker with no earlier one, or none when no line contains it |
| ModemResponse.CsqMatchPosition | script.js:122 | the position found is one where the pattern matches with no match at any earlier position; none is found only when the pattern matches nowhere |
| ModemResponse.MatchCsqAt | script.js:122 | the pattern matched at one position: a match needs the "+CSQ:" marker at that position and at least three characters (digit, comma, digit) after it; CsqFieldsOf and CsqFieldsShape state which texts match and what they read as, and NoMarkerAt and NoDigitAfterMarker which do not |
| ModemResponse.SearchCsqNone | script.js:122 | `match` gives no result exactly when the pattern matches at no position of the line |
| ModemResponse.SearchCsq | script.js:122 | `match` semantics: a result is the match at some position with no match at any earlier one, and there is none only when the pattern matches at no position; a match needs the "+CSQ:" marker in the line |
| ModemResponse.ParseSignal | script.js:120-122 | a reading is only ever found on a line containing "+CSQ:" |
| ModemResponse.ParseSignalReads | script.js:120-125 | a "+CSQ:" line with any whitespace after the marker ("+CSQ: 18,99", "+CSQ:18,99") reads as its two numbers, whatever unmarked lines come before it and whatever lines follow |
| ModemResponse.ParseSignalNone | script.js:120-123 | with the first "+CSQ:" line fixed, there is no reading exactly when the pattern matches nowhere in that line, whatever later lines hold |
| ModemResponse.ParseSignalFinds | script.js:120-123 | the match is looked for anywhere in the first "+CSQ:" line: a match at any position of that line with no match before it is the reading ("x+CSQ: 18,99" reads 18, 99) |
| ModemResponse.LeftmostMatchUnique | script.js:122 | two positions that both match with no match before either are the same position |
| ModemResponse.NoMarkerAt | script.js:122 | the pattern cannot match where the line does not hold the '+' of "+CSQ:" or where the marker would run past the end of the line |
| ModemResponse.NoDigitAfterMarker | script.js:122 | "+CSQ:" followed by blanks and then a character that is neither blank nor digit does not match, since `\s*` cannot skip it and `(\d+)` needs a digit |
| ModemResponse.ParseSignalShape | script.js:120-125 | conversely, a reading comes from the first "+CSQ:" line, at the leftmost matching position, where the line holds the marker, whitespace, the rssi's digits, a comma and the ber's digits not followed by another digit |
| ModemResponse.CsqFieldsShape | script.js:122 | the text after the marker that matches `\s*(\d+),(\d+)` is whitespace, the rssi's digits, a comma, the ber's digits and a rest not starting with a digit |
| ModemResponse.CsqFieldsOf | script.js:122 | any whitespace, two numerals around a comma and a rest not starting with a digit match `\s*(\d+),(\d+)` with those two numbers |
| ModemResponse.ParseSignalSkipsUnmarked | script.js:120 | lines without "+CSQ:" placed before the response change nothing |
| ModemResponse.ParseSignalFormatCsq | script.js:120-125 | the line "+CSQ: <rssi>,<ber>" reads back as exactly that rssi and ber, whatever lines follow |
| ModemResponse.ParseSignalZero | script.js:120-125 | "+CSQ: 0,0" reads as rssi 0, ber 0 |
| ModemResponse.ParseSignalNeedsMarker | script.js:120-121 | a response with no "+CSQ:" line has no reading |
| ModemResponse.ParseSignalIgnoresLaterLines | script.js:120 | once a response has a "+CSQ:" line, appending lines never changes the reading |
| ModemResponse.ParseSignalFirstLineDecides | script.js:120-123 | for example, the malformed first line "+CSQ: ?" gives no reading although the later line "+CSQ: 18,99" would match; ParseSignalNone states the general case |
| ModemResponse.ParseSim | script.js:109-116 | a status is found exactly when some line contains "+CPIN:"; it is non-empty, free of ':' and, unless it is "Unknown", trimmed |
| ModemResponse.ParseSimReads | script.js:111-113 | the status is read from the first "+CPIN:" line, whatever unmarked lines precede it and whatever lines follow: the text between its first ':' and the next one (or the end), trimmed, or "Unknown" when that is blank |
| ModemResponse.ParseSimSkipsUnmarked | script.js:111 | lines without "+CPIN:" placed before the response change nothing |
| ModemResponse.SimText | script.js:113 | the text shown for a "+CPIN:" line is its status field when that is not blank and "Unknown" otherwise; it is non-empty, has no ':' and, unless "Unknown", no surrounding whitespace |
| ModemResponse.StatusField | script.js:113 | the second ':'-separated field, trimmed, contains no ':' and has no surrounding whitespace |
| ModemResponse.StatusFieldOf | script.js:113 | the status field of a line is exactly the text between its first ':' and the next one (or the end), trimmed, so "+CPIN: SIM PIN: 3" gives "SIM PIN" |
| Text.SecondField | script.js:113 | splitting on a separator, the second field is the text between the first separator and the next one (or the end) |
| ModemResponse.ParseSimFormatCpin | script.js:111-113 | "+CPIN:" followed by any whitespace and a status reads as exactly that status, whatever lines follow ("+CPIN: READY" and "+CPIN:READY" both give "READY") |
| ModemResponse.ParseSimBlank | script.js:113 | a "+CPIN:" line with only whitespace after the marker reads "Unknown" |
| ModemResponse.ParseInfo | script.js:104-105 | an identity exists exactly when there are lines; it is the first line when that is not empty and the placeholder "--" when it is |
| Dashboard.ProcessInfo | script.js:103-107 | only the model field changes; no lines leave the page as it was; otherwise the field shows the first line, or "--" when that line is empty |
| Dashboard.ProcessSim | script.js:109-116 | only the SIM field changes; with no "+CPIN:" line nothing changes; otherwise the field shows the status ParseSim reads, which is non-empty and free of ':' |
| Dashboard.ProcessSignal | script.js:118-134 | the info fields never change; without a reading nothing changes; with one, the panel reads back as that reading, its dBm label, quality word and bars all belong to its rssi, and ActiveBarCount bars are lit |
| Dashboard.ShowReading | script.js:124-131 | the redrawn panel's rssi and "<ber>%" fields read back as the reading, and every other panel field agrees with it |
| Dashboard.LitBarsCount | script.js:153-161 | the bars drawn for an rssi light exactly ActiveBarCount of them |
| Dashboard.ResetUi | script.js:181-188 | the port, model and SIM fields show the placeholder "--", all five bars are dark, the rssi and dBm fields hold no number, and the quality and BER fields keep their previous text |
| Dashboard.Refresh | script.js:88-90 | each reader writes only its own fields, so the model and SIM fields are what their own reader gives, the signal panel is what processSignal gives when the +CSQ answer has a reading and is left as it was when it has none, the port field never changes, and absent answers change nothing |
| Dashboard.RefreshInAnyOrder | script.js:88-90 | applying the answers in the opposite order gives the same page |
| AtCollector.FullCommand | back-end/main.py:48 | the text written is the command followed by exactly CR LF |
| AtCollector.FullCommandStrips | back-end/main.py:48 | stripping the written text gives back the stripped command; since the echo test compares the stripped line with the command as given, only a command without surrounding whitespace has its echo recognised |
| AtCollector.Kept | back-end/main.py:57-60 | the kept lines are never blank and never the echo, and are no more than the reads |
| AtCollector.FirstTerminator | back-end/main.py:61-64 | the index of a line that is "OK" or contains "ERROR", with no such line before it, or none when there is no such line |
| AtCollector.Collected | back-end/main.py:46-67 | the response over the whole input: a comm_error carries the first serial exception's text as its only line, and any other response's data is a prefix of the kept lines; CollectedMeaning states the rest of its meaning |
| AtCollector.Respond | back-end/main.py:60-67 | the response for the kept lines and the first serial exception: a comm_error carries only the exception text, and any other response's data is a prefix of the kept lines |
| AtCollector.RespondMeaning | back-end/main.py:60-67 | for any kept lines and first exception: the data is cut just after the first line that is "OK" or contains "ERROR", success exactly when that line is "OK", time-out with every kept line exactly when there is neither such a line nor an exception, and comm_error exactly when there is an exception but no such line |
| AtCollector.CollectedMeaning | back-end/main.py:46-67 | the data is the kept lines in order, cut just after the first terminating line; success exactly when that line is "OK"; time-out exactly when no line terminates and no serial exception occurs, with every kept line; comm_error exactly when a serial exception comes before any terminating line, with the exception text as the only line; a terminating line read before the first exception decides the response |
| AtCollector.CollectedStep | back-end/main.py:53-67 | one loop turn: an exception ends with comm_error, a blank or echo line changes nothing, "OK" ends with success, an ERROR line ends with error, and any other line is gathered before the rest |
| AtCollector.SendAtCommand | back-end/main.py:46-67 | the read loop with its early returns gives exactly the response Collected describes |
| AtCollector.EchoIsSkipped | back-end/main.py:58-59 | for a command without surrounding whitespace, the echo of the command does not change the response |
| AtCollector.SkipLine | back-end/main.py:58-59 | a line that strips to nothing or to the command is passed over |
| AtCollector.KeepLine | back-end/main.py:57-60 | any other non-terminating line is gathered, stripped, in front of what the rest of the input gives |
| AtCollector.OkMeansSuccess | back-end/main.py:58-62 | for any command other than "OK" (whose echo test would pass the line over first), a line stripping to exactly "OK" ends the exchange with success, even though the ERROR condition is checked as well |
| AtCollector.ErrorLineEnds | back-end/main.py:63-64 | a kept line mentioning ERROR, such as "+CME ERROR: 10", ends the exchange with error and is the last line of the data |
| AtCollector.StripCrLf | back-end/main.py:57 | a line the modem ends with CR LF strips back to its text |
| AtCollector.PortCandidates | back-end/main.py:26 | a device is a candidate exactly when it is listed and its name contains "USB" or "COM" |
| AtCollector.PortCandidatesAppend | back-end/main.py:26 | filtering keeps the listing order |
| Exchange.CsqExchange | back-end/main.py:46-65 | an echo, a "+CSQ: <rssi>,<ber>" line, a blank line and "OK" give success with data [the reading line, "OK"], and the page then shows exactly that reading |
| Exchange.CsqCollected | back-end/main.py:46-65 | the back end's response to that +CSQ reply |
| Exchange.ShowsReading | script.js:118-134 | the dashboard reads that success data as the reading |
| Exchange.SimExchange | back-end/main.py:46-65 | an echo, "+CPIN: <status>", a blank line and "OK" give success with the status line and "OK", and the SIM field then shows exactly the status |
| Exchange.SimCollected | back-end/main.py:46-65 | the back end's response to that +CPIN? reply |
| Exchange.ShowsStatus | script.js:109-116 | the dashboard reads that success data as the status |
| Exchange.CpinLineIsPlain | back-end/main.py:57-64 | a "+CPIN: <status>" line strips back to itself and ends the exchange only when its status mentions ERROR |
| Exchange.InfoShowsFirstLine | script.js:103-107 | a response that is not a comm error shows its first line as the module identity, never the placeholder; a comm error shows the exception text when it is non-empty |

## Left out

- DOM updates, `fetch`, the auto-refresh timer, logging and the connection
  indicator in `script.js`. They are I/O. The page is the `View` record,
  and the `fetchStatus` answers are parameters of `Refresh`.
- `fetchStatus` requests `/status`, and `connect` and `disconnect` post to
  `/connect` and `/disconnect`; `back-end/main.py` serves none of these. It
  serves `/api/health`, `/api/signal`, `/api/info` and
  `/api/command/{cmd}`. `Refresh` takes the three answers as given and does
  not model the HTTP layer.
- `front-end/script.js`: it holds only the fetch, health-check and timer
  code, and not the parsing methods.
- FastAPI endpoints, CORS, the startup hook, the global serial connection
  and `find_at_port`'s probing. These are the web framework, shared mutable
  state and hardware I/O. Only its name filter is modelled, as
  `PortCandidates`.
- Serial I/O and the wall-clock time-out in `send_at_command`. The reads
  are a finite sequence, and the time-out is running out of reads. An
  empty read is a `Line` with empty text, which the loop passes over like a
  blank line. An exception raised by `ser.write` is a `Fault` as the first
  read. UTF-8 decoding with `errors='ignore'` is not modelled: reads are
  already text.
- Trim: whitespace is the ASCII space and the characters '\t' to '\r', for
  JavaScript `trim`, the regular expression's `\s` and Python `strip`
  alike. The Unicode spaces all three also remove are not modelled. Nor is
  a difference between the two languages on ASCII text: Python `strip` also
  removes the separators '\x1c' to '\x1f', which JavaScript `trim` keeps.
- ParseSignal: its own contract only ties a reading to a line containing
  the marker; what the reading is, in both directions, is stated by
  `ParseSignalFinds` (any match position in the first "+CSQ:" line),
  `ParseSignalReads` (a line starting with the marker) and
  `ParseSignalShape` (the converse), and when there is none by
  `ParseSignalNone`. `parseInt` is modelled as
  exact on any digit run; the precision loss of runs beyond 2^53 is not
  modelled.
- ParseSim: its own contract states only when a status exists and its
  form; which status it is comes from `ParseSimReads` and `StatusFieldOf`.
- SignalBars: the page is assumed to have exactly five `.bar` elements, as
  `updateSignalBars` indexes bars 0 to 4.
