/** The dashboard page as a value (script.js `CellularDashboard`): the text of
    its status fields and the lit state of its five signal bars. Each of
    `processInfo`, `processSIM`, `processSignal` and `resetUI` becomes a
    function from one view to the next. */
module Dashboard {
  import opened Wrappers
  import opened Text
  import opened SignalDisplay
  import opened ModemResponse

  /** The fields the controller writes, named after their element ids. */
  datatype View = View(
    portInfo: string,
    modelInfo: string,
    simStatus: string,
    signalValue: string,
    rssiValue: string,
    berValue: string,
    qualityText: string,
    bars: seq<bool>)

  /** The reading the signal panel displays, read back from its rssi and
      "<ber>%" fields; `None` when they do not hold numbers. */
  function ShownReading(v: View): Option<SignalReading> {
    var ber := v.berValue;
    if v.signalValue != [] && AllDigits(v.signalValue)
      && |ber| >= 2 && ber[|ber| - 1] == '%' && AllDigits(ber[..|ber| - 1])
    then Some(SignalReading(ParseDigits(v.signalValue), ParseDigits(ber[..|ber| - 1])))
    else None
  }

  /** The whole signal panel describes one reading: the dBm label, the
      quality word and the bars all belong to the rssi it shows. */
  predicate PanelAgrees(v: View) {
    match ShownReading(v)
    case None => false
    case Some(s) =>
      && v.rssiValue == RssiToDbm(s.rssi)
      && v.qualityText == QualityOf(s.rssi).Label()
      && v.bars == SignalBars(s.rssi)
  }

  function NumberOfLitBars(bars: seq<bool>): nat {
    if bars == [] then 0 else (if bars[0] then 1 else 0) + NumberOfLitBars(bars[1..])
  }

  /** `processInfo`: the model field shows the first line of the ATI answer
      ("--" for an empty one); with no lines nothing changes. */
  function ProcessInfo(v: View, lines: seq<string>): (r: View)
    ensures r == v.(modelInfo := r.modelInfo)
    ensures lines == [] ==> r == v
    ensures lines != [] ==> r.modelInfo != [] && (lines[0] != [] ==> r.modelInfo == lines[0])
    ensures lines != [] && lines[0] == [] ==> r.modelInfo == "--"
  {
    match ParseInfo(lines)
    case None => v
    case Some(model) => v.(modelInfo := model)
  }

  /** `processSIM`: the SIM field shows the status of the first +CPIN: line;
      a response without one leaves the page as it was. */
  function ProcessSim(v: View, lines: seq<string>): (r: View)
    ensures r == v.(simStatus := r.simStatus)
    ensures (forall k :: 0 <= k < |lines| ==> !Contains(lines[k], CpinMarker)) ==> r == v
    ensures (exists k :: 0 <= k < |lines| && Contains(lines[k], CpinMarker)) ==>
      r.simStatus != [] && ':' !in r.simStatus
    ensures ParseSim(lines).Some? ==> r.simStatus == ParseSim(lines).value
  {
    match ParseSim(lines)
    case None => v
    case Some(status) => v.(simStatus := status)
  }

  /** `processSignal`: a parsed reading redraws the whole signal panel, which
      then shows that reading and agrees with itself; a response without a
      reading leaves the page as it was. */
  function ProcessSignal(v: View, lines: seq<string>): (r: View)
    ensures r.portInfo == v.portInfo && r.modelInfo == v.modelInfo && r.simStatus == v.simStatus
    ensures ParseSignal(lines).None? ==> r == v
    ensures ParseSignal(lines).Some? ==> ShownReading(r) == ParseSignal(lines) && PanelAgrees(r)
    ensures ParseSignal(lines).Some? ==> NumberOfLitBars(r.bars) == ActiveBarCount(ParseSignal(lines).value.rssi)
  {
    match ParseSignal(lines)
    case None => v
    case Some(s) => ShowReading(v, s)
  }

  /** The signal panel redrawn for one reading. */
  function ShowReading(v: View, s: SignalReading): (r: View)
    ensures r.portInfo == v.portInfo && r.modelInfo == v.modelInfo && r.simStatus == v.simStatus
    ensures ShownReading(r) == Some(s) && PanelAgrees(r)
    ensures NumberOfLitBars(r.bars) == ActiveBarCount(s.rssi)
  {
    var r := v.(
      signalValue := NatToString(s.rssi),
      rssiValue := RssiToDbm(s.rssi),
      berValue := NatToString(s.ber) + "%",
      qualityText := QualityOf(s.rssi).Label(),
      bars := SignalBars(s.rssi));
    ParseNatToString(s.rssi);
    ParseNatToString(s.ber);
    assert r.berValue[..|r.berValue| - 1] == NatToString(s.ber);
    LitBarsCount(s.rssi);
    r
  }

  /** The bars drawn for an rssi light exactly `ActiveBarCount` of them. */
  lemma LitBarsCount(rssi: int)
    ensures NumberOfLitBars(SignalBars(rssi)) == ActiveBarCount(rssi)
  {
    LitPrefixCount(SignalBars(rssi), ActiveBarCount(rssi));
  }

  /** A row whose lit bars are its first `n` has `n` lit bars. */
  lemma {:induction false} LitPrefixCount(bars: seq<bool>, n: nat)
    requires n <= |bars|
    requires forall i :: 0 <= i < |bars| ==> (bars[i] <==> i < n)
    ensures NumberOfLitBars(bars) == n
  {
    if bars != [] {
      var m: nat := if n > 0 then n - 1 else 0;
      assert forall i :: 0 <= i < |bars[1..]| ==> (bars[1..][i] <==> i < m) by {
        forall i | 0 <= i < |bars[1..]|
          ensures bars[1..][i] <==> i < m
        {
          assert bars[1..][i] == bars[i + 1];
        }
      }
      LitPrefixCount(bars[1..], m);
    }
  }

  /** `resetUI`: the port, model, SIM and signal fields return to their
      placeholders and `updateSignalBars(0)` leaves every bar dark. The
      quality word and the BER field are not touched and keep what they
      showed. */
  function ResetUi(v: View): (r: View)
    ensures |r.bars| == |BarThresholds| && forall i :: 0 <= i < |r.bars| ==> !r.bars[i]
    ensures NumberOfLitBars(r.bars) == 0
    ensures ShownReading(r) == None && LeadingInt(r.rssiValue) == None
    ensures r.qualityText == v.qualityText && r.berValue == v.berValue
    ensures r.portInfo == "--" && r.modelInfo == "--" && r.simStatus == "--"
  {
    var r := v.(
      portInfo := "--",
      modelInfo := "--",
      simStatus := "--",
      signalValue := "--",
      rssiValue := "-- dBm",
      bars := SignalBars(0));
    assert !IsDigit(r.signalValue[0]);
    assert r.rssiValue[1] == '-';
    assert DigitRun(r.rssiValue[1..]) == [];
    LitBarsCount(0);
    r
  }

  /** `fetchStatus`: the ATI, +CPIN and +CSQ answers (an absent one read as
      no lines) are applied in turn. Each writes its own fields only, and
      absent answers change nothing. */
  function Refresh(v: View, info: Option<seq<string>>, sim: Option<seq<string>>, signal: Option<seq<string>>): (r: View)
    ensures r.portInfo == v.portInfo
    ensures r.modelInfo == ProcessInfo(v, info.GetOr([])).modelInfo
    ensures r.simStatus == ProcessSim(v, sim.GetOr([])).simStatus
    ensures ParseSignal(signal.GetOr([])).Some? ==> r.(portInfo := v.portInfo, modelInfo := v.modelInfo, simStatus := v.simStatus) == ProcessSignal(v, signal.GetOr([]))
    ensures ParseSignal(signal.GetOr([])).None? ==> r == v.(modelInfo := r.modelInfo, simStatus := r.simStatus)
    ensures info.None? && sim.None? && signal.None? ==> r == v
  {
    ProcessSignal(ProcessSim(ProcessInfo(v, info.GetOr([])), sim.GetOr([])), signal.GetOr([]))
  }

  /** Applying the three answers in the opposite order gives the same page. */
  lemma RefreshInAnyOrder(v: View, info: Option<seq<string>>, sim: Option<seq<string>>, signal: Option<seq<string>>)
    ensures Refresh(v, info, sim, signal)
      == ProcessInfo(ProcessSim(ProcessSignal(v, signal.GetOr([])), sim.GetOr([])), info.GetOr([]))
  {
  }
}
