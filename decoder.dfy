/** The frame decoder (`processPacket`): a completed frame becomes the list
    of records the bridge hands to its sinks, in the order it emits them —
    the raw dump line, the `packet` time-series point, and for the one known
    frame type the `raw` point and the per-register-block points and topic
    values. The decoder is pure; the only state `processPacket` touches,
    the energy integrator, is passed in as the result of its update (see
    `Bridge.ProcessFrame`). */
module Decoder {
  import opened BusTypes
  import opened Format

  /** The topics the bridge publishes frame values on. */
  datatype Topic =
    | FlowTemperature | ReturnTemperature | DifferenceTemperature
    | HotWaterTemperature | OutsideTemperature | ExhaustTemperature
    | NominalTemperature | SystemPressure | BurnerPower | EnergyTotal
    | OperatingState | PumpToggle | HeatingToggle | HotWaterToggle

  const Prefix: string := "atagbridge"

  /** The topic string, rooted at the configured prefix. */
  function TopicPath(t: Topic): (path: string)
    ensures |path| > |Prefix| + 1 && path[..|Prefix| + 1] == Prefix + "/"
  {
    Prefix + "/" +
      match t
      case FlowTemperature => "temperature/flow"
      case ReturnTemperature => "temperature/return"
      case DifferenceTemperature => "temperature/difference"
      case HotWaterTemperature => "temperature/hotwater"
      case OutsideTemperature => "temperature/outside"
      case ExhaustTemperature => "temperature/exhaust"
      case NominalTemperature => "temperature/nominal"
      case SystemPressure => "pressure"
      case BurnerPower => "power"
      case EnergyTotal => "energy"
      case OperatingState => "state"
      case PumpToggle => "toggles/pump"
      case HeatingToggle => "toggles/heating"
      case HotWaterToggle => "toggles/hotwater"
  }

  /** A published value: a string, or a float whose `String(float)`
      formatting is left to the sink. */
  datatype Payload = Text(text: string) | FloatText(value: real)

  /** One record handed to a sink. */
  datatype Output =
    | Dump(line: string)
    | PacketPoint(address: string, lastByte: string, size: nat)
    | RawPoint(index: string, values: seq<int>)
    | TemperaturesPoint(flow: int, returnFlow: int, hotWater: int, outside: int, exhaust: int)
    | PressuresPoint(system: real)
    | Publish(topic: Topic, payload: Payload)

  /** The rated power the percentage of sub-index 7 is scaled by. */
  const MaxPower: real := 21.6

  const FrameTypeA: Byte := 0x41
  const FrameTypeALength: nat := 30
  const FrameTypeB: Byte := 0x71
  const FrameTypeBLength: nat := 41

  /** Offset of the sub-index byte and of the first of the eight values. */
  const IndexOffset: nat := 18
  const ValuesOffset: nat := 19

  /** The only frame type whose fields are extracted. */
  predicate IsTypeA(f: Frame)
    ensures IsTypeA(f) ==> |f| >= ValuesOffset + 8 && f[0] == 0x41
  {
    |f| == FrameTypeALength && f[0] == FrameTypeA
  }

  /** Recognised by the bridge, but without any field extraction. */
  predicate IsTypeB(f: Frame)
    ensures IsTypeB(f) ==> !IsTypeA(f)
  {
    |f| == FrameTypeBLength && f[0] == FrameTypeB
  }

  /** The eight values after the sub-index, each read as `int8_t`. */
  function Values(f: Frame): (v: seq<int>)
    requires |f| >= ValuesOffset + 8
    ensures |v| == 8
    ensures forall i :: 0 <= i < 8 ==> -128 <= v[i] < 128 && v[i] % 256 == f[ValuesOffset + i]
  {
    var v := seq(8, i requires 0 <= i < 8 => Signed(f[ValuesOffset + i]));
    assert forall i :: 0 <= i < 8 ==> v[i] == Signed(f[ValuesOffset + i]);
    v
  }

  /** The operating-state names, indexed by the state byte. */
  const StateNames: seq<string> := ["AUS", "LZ", "ZZ", "HB", "WW", "KV", "RT", "NH", "NW", "KT"]

  function StateName(key: nat): (r: Option<string>)
    ensures r.Some? <==> key < 10
  {
    if key < |StateNames| then Some(StateNames[key]) else None
  }

  /** The published state: the table's name for the byte, or the `int8_t`
      value in decimal when the table has none. */
  function StatePayload(v: int): (s: string)
    ensures v % 256 < |StateNames| ==> s == StateNames[v % 256]
    ensures v % 256 >= |StateNames| ==> s == IntToDecimal(v)
  {
    match StateName(v % 256)
    case Some(name) => name
    case None => IntToDecimal(v)
  }

  /** `"1"` when the bit(s) of `mask` are set in `bits`, `"0"` otherwise;
      `bits / mask % 2` is bit log2(mask) of the two's complement value. */
  function FlagText(bits: int, mask: nat): (s: string)
    requires mask > 0
    ensures s == "0" || s == "1"
    ensures s == "1" <==> (bits / mask) % 2 == 1
  {
    if (bits / mask) % 2 == 1 then "1" else "0"
  }

  /** `MAX_POWER * percent / 100`. */
  function Power(percent: int): (p: real)
    ensures 0 <= percent <= 100 ==> 0.0 <= p <= MaxPower
    ensures percent < 0 <==> p < 0.0
    ensures percent == 100 ==> p == MaxPower
  {
    MaxPower * percent as real / 100.0
  }

  /** The records for one register block, selected by the sub-index. */
  function BlockRecords(index: Byte, v: seq<int>, energy: real): (r: seq<Output>)
    requires |v| == 8
    ensures index == 3 ==> |r| == 8
    ensures index == 4 ==> |r| == 1
    ensures index == 6 ==> |r| == 2
    ensures index == 7 ==> |r| == 5
    ensures index != 3 && index != 4 && index != 6 && index != 7 ==> r == []
  {
    if index == 3 then
      [ TemperaturesPoint(v[0], v[1], v[2], v[3], v[4]),
        Publish(FlowTemperature, Text(IntToDecimal(v[0]))),
        Publish(ReturnTemperature, Text(IntToDecimal(v[1]))),
        Publish(DifferenceTemperature, Text(IntToDecimal(v[0] - v[1]))),
        Publish(HotWaterTemperature, Text(IntToDecimal(v[2]))),
        Publish(OutsideTemperature, Text(IntToDecimal(v[3]))),
        Publish(ExhaustTemperature, Text(IntToDecimal(v[4]))),
        Publish(NominalTemperature, Text(IntToDecimal(v[7]))) ]
    else if index == 4 then
      [ Publish(OperatingState, Text(StatePayload(v[6]))) ]
    else if index == 6 then
      [ PressuresPoint(v[7] as real / 10.0),
        Publish(SystemPressure, FloatText(v[7] as real / 10.0)) ]
    else if index == 7 then
      [ Publish(BurnerPower, FloatText(Power(v[6]))),
        Publish(EnergyTotal, FloatText(energy / 3600.0)),
        Publish(PumpToggle, Text(FlagText(v[7], 1))),
        Publish(HeatingToggle, Text(FlagText(v[7], 2))),
        Publish(HotWaterToggle, Text(FlagText(v[7], 4))) ]
    else
      []
  }

  /** The power sample a frame hands to the energy integrator, if any. */
  function PowerOf(f: Frame): (p: Option<real>)
    ensures p.Some? <==> IsTypeA(f) && f[IndexOffset] == 7
  {
    if IsTypeA(f) && f[IndexOffset] == 7 then Some(Power(Signed(f[ValuesOffset + 6]))) else None
  }

  /** `processPacket` on frame `f`; `energy` is the integral the energy
      integrator returns when the frame carries a power sample. */
  function Decode(f: Frame, energy: real): (r: seq<Output>)
    ensures r == [] <==> |f| < 2
    ensures |r| > 2 ==> IsTypeA(f)
  {
    if |f| < 2 then []
    else
      [ Dump(DumpText(f)),
        PacketPoint(HexTag(f[0]), HexTag(f[|f| - 1]), |f|) ]
      + (if IsTypeA(f)
         then [RawPoint(NatToDecimal(f[IndexOffset]), Values(f))]
              + BlockRecords(f[IndexOffset], Values(f), energy)
         else [])
  }

  // ---------------------------------------------------------------------
  // Properties of the decoder

  /** The layout of a decoded (0x41, 30) frame: dump line, `packet` point,
      `raw` point, then the records of its register block. */
  lemma DecodeOfTypeA(f: Frame, energy: real)
    requires IsTypeA(f)
    ensures |Decode(f, energy)| >= 3
    ensures Decode(f, energy)[2] == RawPoint(NatToDecimal(f[IndexOffset]), Values(f))
    ensures Decode(f, energy)[3..] == BlockRecords(f[IndexOffset], Values(f), energy)
  {
  }

  /** Frames too short to carry an address produce nothing at all. */
  lemma ShortFrameIsSilent(f: Frame, energy: real)
    requires |f| < 2
    ensures Decode(f, energy) == []
  {
  }

  /** Every other frame produces the dump line and the `packet` point, and
      both can be read back: the dump line gives the whole frame, the tags
      give its first and last byte. */
  lemma DiagnosticsForEveryFrame(f: Frame, energy: real)
    requires |f| >= 2
    ensures |Decode(f, energy)| >= 2
    ensures Decode(f, energy)[0].Dump? && ParseDump(Decode(f, energy)[0].line) == Some(f)
    ensures Decode(f, energy)[1].PacketPoint?
    ensures ParseHexTag(Decode(f, energy)[1].address) == Some(f[0])
    ensures ParseHexTag(Decode(f, energy)[1].lastByte) == Some(f[|f| - 1])
    ensures Decode(f, energy)[1].size == |f|
  {
    DumpRoundTrip(f);
    HexTagRoundTrip(f[0]);
    HexTagRoundTrip(f[|f| - 1]);
  }

  /** Fields are extracted exactly for the (0x41, 30) frame: it yields the
      `raw` point of sub-index and eight signed values; every other frame,
      including the reserved (0x71, 41) type, yields the diagnostics only. */
  lemma ExtractionOnlyForTypeA(f: Frame, energy: real)
    requires |f| >= 2
    ensures |Decode(f, energy)| > 2 <==> IsTypeA(f)
    ensures IsTypeA(f) ==>
      && Decode(f, energy)[2].RawPoint?
      && ParseInt(Decode(f, energy)[2].index) == Some(f[IndexOffset])
      && |Decode(f, energy)[2].values| == 8
      && forall i :: 0 <= i < 8 ==> Decode(f, energy)[2].values[i] == Signed(f[ValuesOffset + i])
    ensures IsTypeB(f) ==> |Decode(f, energy)| == 2
  {
    if IsTypeA(f) {
      IntToDecimalRoundTrip(f[IndexOffset]);
    }
  }

  /** The energy value is used only when the frame carries a power sample. */
  lemma EnergyOnlyForPowerFrames(f: Frame, e1: real, e2: real)
    requires PowerOf(f).None?
    ensures Decode(f, e1) == Decode(f, e2)
  {
  }

  /** Sub-index 3: the temperatures point of values 0 to 4 (offsets 19 to
      23) and seven topic values in decimal — flow, return, their
      difference, hot water, outside, exhaust and nominal (value 7, offset
      26). */
  lemma TemperatureBlock(f: Frame, energy: real)
    requires IsTypeA(f) && f[IndexOffset] == 3
    ensures Decode(f, energy)[3..] ==
      [ TemperaturesPoint(Signed(f[19]), Signed(f[20]), Signed(f[21]), Signed(f[22]), Signed(f[23])),
        Publish(FlowTemperature, Text(IntToDecimal(Signed(f[19])))),
        Publish(ReturnTemperature, Text(IntToDecimal(Signed(f[20])))),
        Publish(DifferenceTemperature, Text(IntToDecimal(Signed(f[19]) - Signed(f[20])))),
        Publish(HotWaterTemperature, Text(IntToDecimal(Signed(f[21])))),
        Publish(OutsideTemperature, Text(IntToDecimal(Signed(f[22])))),
        Publish(ExhaustTemperature, Text(IntToDecimal(Signed(f[23])))),
        Publish(NominalTemperature, Text(IntToDecimal(Signed(f[26])))) ]
  {
    DecodeOfTypeA(f, energy);
    var v := Values(f);
    assert v[0] == Signed(f[19]) && v[1] == Signed(f[20]) && v[2] == Signed(f[21]);
    assert v[3] == Signed(f[22]) && v[4] == Signed(f[23]) && v[7] == Signed(f[26]);
  }

  /** Reads a published state back: a table name gives its code, anything
      else is read as a decimal number. */
  function ParseState(s: string): Option<int>
  {
    if s == "AUS" then Some(0) else if s == "LZ" then Some(1)
    else if s == "ZZ" then Some(2) else if s == "HB" then Some(3)
    else if s == "WW" then Some(4) else if s == "KV" then Some(5)
    else if s == "RT" then Some(6) else if s == "NH" then Some(7)
    else if s == "NW" then Some(8) else if s == "KT" then Some(9)
    else ParseInt(s)
  }

  lemma StateNameRoundTrip(k: nat)
    requires k < 10
    ensures ParseState(StateNames[k]) == Some(k)
  {
    if k == 0 {} else if k == 1 {} else if k == 2 {} else if k == 3 {} else if k == 4 {}
    else if k == 5 {} else if k == 6 {} else if k == 7 {} else if k == 8 {} else {}
  }

  /** The published state identifies the state byte: a value 0..9 by its
      name, any other (signed) value by its decimal text, never mixed up. */
  lemma StatePayloadRoundTrip(b: Byte)
    ensures ParseState(StatePayload(Signed(b))) == Some(Signed(b))
    ensures b < 10 ==> StatePayload(Signed(b)) == StateNames[b]
  {
    var v := Signed(b);
    if b < 10 {
      assert v % 256 == b;
      StateNameRoundTrip(b);
    } else {
      var s := IntToDecimal(v);
      assert StatePayload(v) == s;
      assert s[0] != 'A' && s[0] != 'L' && s[0] != 'Z' && s[0] != 'H' && s[0] != 'W';
      assert s[0] != 'K' && s[0] != 'R' && s[0] != 'N';
      IntToDecimalRoundTrip(v);
    }
  }

  /** Sub-index 4: one state value, from value 6. */
  lemma StateBlock(f: Frame, energy: real)
    requires IsTypeA(f) && f[IndexOffset] == 4
    ensures Decode(f, energy)[3..] == [Publish(OperatingState, Text(StatePayload(Signed(f[25]))))]
    ensures ParseState(StatePayload(Signed(f[25]))) == Some(Signed(f[25]))
  {
    StatePayloadRoundTrip(f[25]);
  }

  /** Sub-index 6: the system pressure, value 7 in tenths of a bar (signed). */
  lemma PressureBlock(f: Frame, energy: real)
    requires IsTypeA(f) && f[IndexOffset] == 6
    ensures Decode(f, energy)[3..] == [PressuresPoint(Signed(f[26]) as real / 10.0),
                                       Publish(SystemPressure, FloatText(Signed(f[26]) as real / 10.0))]
    ensures Decode(f, energy)[3].system * 10.0 == Signed(f[26]) as real
  {
  }

  /** The flags of value 7 are bits 0, 1 and 2 of the byte as received,
      whether it is read signed or not. */
  lemma FlagIsBitOfByte(b: Byte, mask: nat)
    requires mask == 1 || mask == 2 || mask == 4
    ensures FlagText(Signed(b), mask) == FlagText(b, mask)
  {
    if b >= 128 {
      var v := b - 256;
      assert Signed(b) == v;
      if mask == 1 {
        assert v / 1 == b - 256;
      } else if mask == 2 {
        assert v / 2 == b / 2 - 128;
      } else {
        assert v / 4 == b / 4 - 64;
      }
    }
  }

  /** Sub-index 7: power from value 6, then the energy total, then the pump,
      heating and hot-water flags from bits 0, 1 and 2 of value 7. */
  lemma PowerBlock(f: Frame, energy: real)
    requires IsTypeA(f) && f[IndexOffset] == 7
    ensures PowerOf(f) == Some(MaxPower * Signed(f[25]) as real / 100.0)
    ensures Decode(f, energy)[3..] ==
      [ Publish(BurnerPower, FloatText(MaxPower * Signed(f[25]) as real / 100.0)),
        Publish(EnergyTotal, FloatText(energy / 3600.0)),
        Publish(PumpToggle, Text(if f[26] % 2 == 1 then "1" else "0")),
        Publish(HeatingToggle, Text(if (f[26] / 2) % 2 == 1 then "1" else "0")),
        Publish(HotWaterToggle, Text(if (f[26] / 4) % 2 == 1 then "1" else "0")) ]
  {
    FlagIsBitOfByte(f[26], 1);
    FlagIsBitOfByte(f[26], 2);
    FlagIsBitOfByte(f[26], 4);
  }

  /** Any other sub-index: only the `raw` point. */
  lemma OtherBlock(f: Frame, energy: real)
    requires IsTypeA(f) && f[IndexOffset] !in {3, 4, 6, 7}
    ensures |Decode(f, energy)| == 3
  {
  }

  // ---------------------------------------------------------------------
  // Worked examples

  /** Sub-index 3 with values 20, 18, 45, -3, 60, 0, 0, 22. */
  lemma TemperatureExample(f: Frame, energy: real)
    requires IsTypeA(f) && f[IndexOffset] == 3
    requires f[19..27] == [20, 18, 45, 253, 60, 0, 0, 22]
    ensures Decode(f, energy)[3..] ==
      [ TemperaturesPoint(20, 18, 45, -3, 60),
        Publish(FlowTemperature, Text("20")),
        Publish(ReturnTemperature, Text("18")),
        Publish(DifferenceTemperature, Text("2")),
        Publish(HotWaterTemperature, Text("45")),
        Publish(OutsideTemperature, Text("-3")),
        Publish(ExhaustTemperature, Text("60")),
        Publish(NominalTemperature, Text("22")) ]
  {
    assert Signed(f[19]) == 20 && Signed(f[20]) == 18 && Signed(f[21]) == 45 by {
      assert f[19] == 20 && f[20] == 18 && f[21] == 45;
    }
    assert Signed(f[22]) == -3 && Signed(f[23]) == 60 && Signed(f[26]) == 22 by {
      assert f[22] == 253 && f[23] == 60 && f[26] == 22;
    }
    calc {
      Decode(f, energy)[3..];
      { TemperatureBlock(f, energy); }
      [ TemperaturesPoint(20, 18, 45, -3, 60),
        Publish(FlowTemperature, Text(IntToDecimal(20))),
        Publish(ReturnTemperature, Text(IntToDecimal(18))),
        Publish(DifferenceTemperature, Text(IntToDecimal(2))),
        Publish(HotWaterTemperature, Text(IntToDecimal(45))),
        Publish(OutsideTemperature, Text(IntToDecimal(-3))),
        Publish(ExhaustTemperature, Text(IntToDecimal(60))),
        Publish(NominalTemperature, Text(IntToDecimal(22))) ];
      { ExampleDecimals(); }
      [ TemperaturesPoint(20, 18, 45, -3, 60),
        Publish(FlowTemperature, Text("20")),
        Publish(ReturnTemperature, Text("18")),
        Publish(DifferenceTemperature, Text("2")),
        Publish(HotWaterTemperature, Text("45")),
        Publish(OutsideTemperature, Text("-3")),
        Publish(ExhaustTemperature, Text("60")),
        Publish(NominalTemperature, Text("22")) ];
    }
  }

  lemma ExampleDecimals()
    ensures IntToDecimal(20) == "20" && IntToDecimal(18) == "18" && IntToDecimal(2) == "2"
    ensures IntToDecimal(45) == "45" && IntToDecimal(-3) == "-3" && IntToDecimal(60) == "60"
    ensures IntToDecimal(22) == "22" && IntToDecimal(-56) == "-56"
  {
    assert NatToDecimal(20) == NatToDecimal(2) + [DecimalDigit(0)];
    assert NatToDecimal(18) == NatToDecimal(1) + [DecimalDigit(8)];
    assert NatToDecimal(45) == NatToDecimal(4) + [DecimalDigit(5)];
    assert NatToDecimal(60) == NatToDecimal(6) + [DecimalDigit(0)];
    assert NatToDecimal(22) == NatToDecimal(2) + [DecimalDigit(2)];
    assert NatToDecimal(56) == NatToDecimal(5) + [DecimalDigit(6)];
  }

  /** Value 7 is signed: a pressure byte of 215 reads as -41 tenths. */
  lemma PressureExample(f: Frame, energy: real)
    requires IsTypeA(f) && f[IndexOffset] == 6 && f[26] == 215
    ensures Decode(f, energy)[3] == PressuresPoint(-4.1)
  {
  }

  /** A state byte of 4 publishes "WW". */
  lemma StateNameExample(f: Frame, energy: real)
    requires IsTypeA(f) && f[IndexOffset] == 4 && f[25] == 4
    ensures Decode(f, energy)[3] == Publish(OperatingState, Text("WW"))
  {
    StateBlock(f, energy);
  }

  /** A state byte of 200, outside the table, publishes its signed value "-56". */
  lemma StateNumberExample(f: Frame, energy: real)
    requires IsTypeA(f) && f[IndexOffset] == 4 && f[25] == 200
    ensures Decode(f, energy)[3] == Publish(OperatingState, Text("-56"))
  {
    StateBlock(f, energy);
    assert Signed(f[25]) == -56;
    assert StateName(-56 % 256) == None;
    ExampleDecimals();
  }

  /** 50 percent of the rated power is 10.8. */
  lemma PowerExample(f: Frame)
    requires IsTypeA(f) && f[IndexOffset] == 7 && f[25] == 50
    ensures PowerOf(f) == Some(10.8)
  {
  }
}
