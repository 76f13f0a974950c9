/** What the dashboard shows for one signal reading (script.js `rssiToDbm`,
    `getQualityText`, `updateSignalBars`): a dBm label on the +CSQ rssi
    scale of 3GPP TS 27.007 section 8.5, a quality word from a threshold
    ladder, and a row of five signal bars. */
module SignalDisplay {
  import opened Wrappers
  import opened Text

  // ---------------------------------------------------------------------------
  // dBm label
  // ---------------------------------------------------------------------------

  /** The dBm label for a raw rssi: the two ends of the scale carry "or less"
      and "or greater", 2..30 step by 2 dBm from -109, anything else is
      "Unknown". */
  function RssiToDbm(rssi: int): (r: string)
    ensures 0 <= rssi <= 31 ==> r != [] && r[0] == '-'
    ensures !(0 <= rssi <= 31) ==> r == "Unknown"
  {
    if rssi == 0 then "-113 dBm or less"
    else if rssi == 1 then "-111 dBm"
    else if 2 <= rssi <= 30 then IntToString(-109 + 2 * (rssi - 2)) + " dBm"
    else if rssi == 31 then "-51 dBm or greater"
    else "Unknown"
  }

  /** The level TS 27.007 assigns to an rssi of the +CSQ scale: -113 dBm at 0,
      two dBm more per step, -51 dBm at 31. */
  function CsqLevel(rssi: int): int
    requires 0 <= rssi <= 31
  {
    -113 + 2 * rssi
  }

  /** The qualifier TS 27.007 attaches to the open ends of the scale. */
  function CsqQualifier(rssi: int): string {
    if rssi == 0 then " or less" else if rssi == 31 then " or greater" else ""
  }

  /** Every in-range label, the three spelled-out ones included, is the
      TS 27.007 level of that rssi followed by " dBm" and the end qualifier. */
  lemma RssiToDbmFollowsCsqScale(rssi: int)
    requires 0 <= rssi <= 31
    ensures RssiToDbm(rssi) == IntToString(CsqLevel(rssi)) + " dBm" + CsqQualifier(rssi)
  {
    if rssi == 0 {
      LowestLabel();
    } else if rssi == 1 {
      SecondLabel();
    } else if rssi == 31 {
      HighestLabel();
    } else {
      assert -109 + 2 * (rssi - 2) == CsqLevel(rssi);
    }
  }

  /** The spelled-out label for rssi 0 is -113, " dBm" and " or less". */
  lemma LowestLabel()
    ensures RssiToDbm(0) == IntToString(CsqLevel(0)) + " dBm" + CsqQualifier(0)
  {
    EndLabelNumerals();
    LowestLabelText();
  }

  // Kept apart from its caller so that the solver compares these literals
  // without the definition of RssiToDbm in view.
  lemma LowestLabelText()
    ensures "-113 dBm or less" == "-113" + " dBm" + " or less"
  {
  }

  /** The spelled-out label for rssi 1 is -111 and " dBm". */
  lemma SecondLabel()
    ensures RssiToDbm(1) == IntToString(CsqLevel(1)) + " dBm" + CsqQualifier(1)
  {
    EndLabelNumerals();
    SecondLabelText();
  }

  // Kept apart from its caller so that the solver compares these literals
  // without the definition of RssiToDbm in view.
  lemma SecondLabelText()
    ensures "-111 dBm" == "-111" + " dBm" + ""
  {
  }

  /** The spelled-out label for rssi 31 is -51, " dBm" and " or greater". */
  lemma HighestLabel()
    ensures RssiToDbm(31) == IntToString(CsqLevel(31)) + " dBm" + CsqQualifier(31)
  {
    EndLabelNumerals();
    HighestLabelText();
  }

  // Kept apart from its caller so that the solver compares these literals
  // without the definition of RssiToDbm in view.
  lemma HighestLabelText()
    ensures "-51 dBm or greater" == "-51" + " dBm" + " or greater"
  {
  }

  /** The numerals spelled out in the three literal labels. */
  lemma EndLabelNumerals()
    ensures IntToString(-113) == "-113"
    ensures IntToString(-111) == "-111"
    ensures IntToString(-51) == "-51"
  {
    assert NatToString(1) == "1";
    assert NatToString(5) == "5";
    assert NatToString(11) == NatToString(1) + [DigitChar(1)];
    assert NatToString(11) == "11";
    assert NatToString(113) == NatToString(11) + [DigitChar(3)];
    assert NatToString(111) == NatToString(11) + [DigitChar(1)];
    assert NatToString(51) == NatToString(5) + [DigitChar(1)];
  }

  /** Reading the number at the head of each label recovers the TS 27.007
      level, so every in-range rssi gets its own label; out-of-range values
      all read "Unknown", which carries no number. */
  lemma RssiToDbmReadsBack(rssi: int)
    ensures 0 <= rssi <= 31 ==> LeadingInt(RssiToDbm(rssi)) == Some(CsqLevel(rssi))
    ensures RssiToDbm(rssi) == "Unknown" <==> !(0 <= rssi <= 31)
    ensures LeadingInt(RssiToDbm(rssi)).None? <==> !(0 <= rssi <= 31)
  {
    if 0 <= rssi <= 31 {
      LabelStartsWithLevel(rssi);
    } else {
      assert "Unknown"[0] == 'U';
    }
  }

  lemma LabelStartsWithLevel(rssi: int)
    requires 0 <= rssi <= 31
    ensures LeadingInt(RssiToDbm(rssi)) == Some(CsqLevel(rssi))
    ensures RssiToDbm(rssi) != "Unknown"
  {
    RssiToDbmFollowsCsqScale(rssi);
    NegativeLevelLabel(CsqLevel(rssi), CsqQualifier(rssi));
  }

  /** A negative level followed by " dBm" and any qualifier reads back as
      that level and is never the "Unknown" label. */
  lemma NegativeLevelLabel(v: int, qualifier: string)
    requires v < 0
    ensures LeadingInt(IntToString(v) + " dBm" + qualifier) == Some(v)
    ensures IntToString(v) + " dBm" + qualifier != "Unknown"
  {
    var rest := " dBm" + qualifier;
    assert IntToString(v) + " dBm" + qualifier == IntToString(v) + rest;
    assert rest[0] == ' ';
    LeadingIntOfIntToString(v, rest);
    assert (IntToString(v) + rest)[0] == '-';
  }

  /** Between the two ends the label's value lies in [-109, -53] and grows
      strictly with rssi; across the whole scale it never decreases. */
  lemma RssiToDbmIncreasing(a: int, b: int)
    requires 0 <= a < b <= 31
    ensures LeadingInt(RssiToDbm(a)).Some? && LeadingInt(RssiToDbm(b)).Some?
    ensures LeadingInt(RssiToDbm(a)).value < LeadingInt(RssiToDbm(b)).value
    ensures 2 <= a <= 30 ==> -109 <= LeadingInt(RssiToDbm(a)).value <= -53
  {
    RssiToDbmReadsBack(a);
    RssiToDbmReadsBack(b);
  }

  // ---------------------------------------------------------------------------
  // Quality word
  // ---------------------------------------------------------------------------

  datatype Quality = VeryPoor | Poor | Fair | Good | VeryGood | Excellent {

    /** Position on the ladder, 0 for the worst category. */
    function Rank(): nat {
      match this
      case VeryPoor => 0
      case Poor => 1
      case Fair => 2
      case Good => 3
      case VeryGood => 4
      case Excellent => 5
    }

    /** The text the dashboard prints for the category. */
    function Label(): string {
      match this
      case VeryPoor => "Very Poor"
      case Poor => "Poor"
      case Fair => "Fair"
      case Good => "Good"
      case VeryGood => "Very Good"
      case Excellent => "Excellent"
    }
  }

  /** How many of `thresholds` the value meets or exceeds. */
  function CountMet(thresholds: seq<int>, v: int): (n: nat)
    ensures n <= |thresholds|
  {
    if thresholds == [] then 0
    else (if v >= thresholds[0] then 1 else 0) + CountMet(thresholds[1..], v)
  }

  /** A larger value never meets fewer thresholds. */
  lemma {:induction false} CountMetMonotone(thresholds: seq<int>, a: int, b: int)
    requires a <= b
    ensures CountMet(thresholds, a) <= CountMet(thresholds, b)
  {
    if thresholds != [] {
      CountMetMonotone(thresholds[1..], a, b);
    }
  }

  /** Against ascending thresholds, the ones met are exactly the first
      `CountMet` of them. */
  lemma {:induction false} CountMetAscending(thresholds: seq<int>, v: int, i: int)
    requires forall j, k :: 0 <= j < k < |thresholds| ==> thresholds[j] < thresholds[k]
    requires 0 <= i < |thresholds|
    ensures v >= thresholds[i] <==> i < CountMet(thresholds, v)
  {
    var tail := thresholds[1..];
    if i == 0 {
      if v < thresholds[0] {
        CountMetNone(tail, v);
      }
    } else {
      CountMetAscending(tail, v, i - 1);
      if v < thresholds[0] {
        CountMetNone(tail, v);
      }
    }
  }

  lemma {:induction false} CountMetNone(thresholds: seq<int>, v: int)
    requires forall j :: 0 <= j < |thresholds| ==> v < thresholds[j]
    ensures CountMet(thresholds, v) == 0
  {
    if thresholds != [] {
      CountMetNone(thresholds[1..], v);
    }
  }

  /** The cut points of the quality ladder, lowest first. */
  const QualityCuts: seq<int> := [5, 10, 15, 20, 25]

  /** The quality category of an rssi: its rank is the number of cut points
      it reaches, so everything below 5 is "Very Poor". */
  function QualityOf(rssi: int): (q: Quality)
    ensures q.Rank() == CountMet(QualityCuts, rssi)
  {
    assert CountMet(QualityCuts, rssi) == CountMet([10, 15, 20, 25], rssi) + (if rssi >= 5 then 1 else 0) by {
      assert QualityCuts[1..] == [10, 15, 20, 25];
    }
    assert CountMet([10, 15, 20, 25], rssi) == CountMet([15, 20, 25], rssi) + (if rssi >= 10 then 1 else 0) by {
      assert [10, 15, 20, 25][1..] == [15, 20, 25];
    }
    assert CountMet([15, 20, 25], rssi) == CountMet([20, 25], rssi) + (if rssi >= 15 then 1 else 0) by {
      assert [15, 20, 25][1..] == [20, 25];
    }
    assert CountMet([20, 25], rssi) == CountMet([25], rssi) + (if rssi >= 20 then 1 else 0) by {
      assert [20, 25][1..] == [25];
    }
    assert CountMet([25], rssi) == if rssi >= 25 then 1 else 0 by {
      assert [25][1..] == [];
    }
    if rssi >= 25 then Excellent
    else if rssi >= 20 then VeryGood
    else if rssi >= 15 then Good
    else if rssi >= 10 then Fair
    else if rssi >= 5 then Poor
    else VeryPoor
  }

  /** A stronger signal never gets a lower category. */
  lemma QualityMonotone(a: int, b: int)
    requires a <= b
    ensures QualityOf(a).Rank() <= QualityOf(b).Rank()
  {
    CountMetMonotone(QualityCuts, a, b);
  }

  // ---------------------------------------------------------------------------
  // Signal bars
  // ---------------------------------------------------------------------------

  /** The rssi each of the five bars needs before it lights, left to right. */
  const BarThresholds: seq<int> := [10, 15, 20, 25, 30]

  /** The number of lit bars: how many bar thresholds the rssi meets. */
  function ActiveBarCount(rssi: int): (n: nat)
    ensures n <= |BarThresholds|
  {
    CountMet(BarThresholds, rssi)
  }

  /** Which bars are lit: after all are cleared, bar i lights when the rssi
      reaches its threshold. The lit bars are the first `ActiveBarCount` ones. */
  function SignalBars(rssi: int): (bars: seq<bool>)
    ensures |bars| == |BarThresholds|
    ensures forall i :: 0 <= i < |bars| ==> (bars[i] <==> i < ActiveBarCount(rssi))
  {
    var bars := [rssi >= 10, rssi >= 15, rssi >= 20, rssi >= 25, rssi >= 30];
    assert forall i :: 0 <= i < |bars| ==> (bars[i] <==> i < ActiveBarCount(rssi)) by {
      forall i | 0 <= i < |bars|
        ensures bars[i] <==> i < ActiveBarCount(rssi)
      {
        CountMetAscending(BarThresholds, rssi, i);
      }
    }
    bars
  }

  /** Lit bars always form a prefix: a lit bar has every bar before it lit. */
  lemma SignalBarsPrefix(rssi: int, i: int, j: int)
    requires 0 <= i <= j < |BarThresholds|
    requires SignalBars(rssi)[j]
    ensures SignalBars(rssi)[i]
  {
  }

  /** A stronger signal never lights fewer bars. */
  lemma SignalBarsMonotone(a: int, b: int)
    requires a <= b
    ensures ActiveBarCount(a) <= ActiveBarCount(b)
    ensures forall i :: 0 <= i < |BarThresholds| && SignalBars(a)[i] ==> SignalBars(b)[i]
  {
    CountMetMonotone(BarThresholds, a, b);
  }

  /** An rssi of 22 meets 10, 15 and 20 but not 25 or 30: three bars. */
  lemma SignalBarsExample()
    ensures ActiveBarCount(22) == 3
    ensures SignalBars(22) == [true, true, true, false, false]
  {
  }

  /** The three displays judge an rssi independently: 99, which TS 27.007
      uses for "not known or not detectable", reads "Unknown" dBm yet
      meets every quality cut and every bar threshold. */
  lemma NotDetectableReading()
    ensures RssiToDbm(99) == "Unknown"
    ensures QualityOf(99) == Excellent && ActiveBarCount(99) == |BarThresholds|
  {
  }
}
