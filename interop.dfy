/** What the host scripts and the firmware make of each other's bytes: the
    Python encoder against the firmware's `receiveCommand`, the firmware's
    `sendCommand` against the Python decoders, and the text lines board A
    prints against the host's line parsers. Some of these agree; the effect
    and button-LED payloads do not, and the lemmas state the mismatch as
    the code has it. */
module Interop {
  import opened Py
  import opened Bits
  import Protocol
  import Communication
  import TeensyCommTest
  import OctoLedStrips
  import TeensyASpecific
  import Buttons
  import DualTeensy
  import SerialHandle
  import IdentifyTeensys

  // ---------------------------------------------------------------------
  // Host frames into the firmware

  /** A frame from `to_bytes()` with `data_length <= 32` is accepted by
      `receiveCommand`, whatever follows it on the wire and in memory, and
      the firmware sees the host's command, length and data. */
  lemma HostFrameAccepted(p: Protocol.Packet, rest: seq<Byte>, after: seq<Byte>)
    requires Protocol.Sendable(p) && |after| >= Communication.MAX_OVERREAD
    ensures Protocol.Encode(p).Ok?
    ensures var f := Protocol.Encode(p).value;
      var s := Communication.FromImage(f);
      Communication.Accepted(f + rest, after) == Some(s)
      && s.command == p.command && s.dataLength == p.dataLength
      && s.data[..p.dataLength] == p.data[..p.dataLength]
  {
    Protocol.EncodeLayout(p);
    var f := Protocol.Encode(p).value;
    var s := Communication.FromImage(f);
    assert (f + rest)[..Communication.STRUCT_SIZE] == f;
    assert s.data == Protocol.Pad(p.data);
    Communication.FwChecksumMatchesHost(s, after);
    assert Protocol.Covered(p.dataLength, s.data) == Protocol.Covered(p.dataLength, p.data) by {
      assert s.data[..p.dataLength] == p.data[..p.dataLength];
    }
  }

  /** A pulse requested on the host for any strip number reaches the strip
      board as an accepted `LED_PULSE` frame for the normalised strip, which
      `triggerLedPulse` takes as in range. */
  lemma PulseReachesStrip(stripId: int, rest: seq<Byte>, after: seq<Byte>)
    requires |after| >= Communication.MAX_OVERREAD
    ensures Protocol.Encode(Protocol.CreateLedPulsePacket(stripId)).Ok?
    ensures var f := Protocol.Encode(Protocol.CreateLedPulsePacket(stripId)).value;
      var a := Communication.Accepted(f + rest, after);
      a.Some? && a.value.command == Protocol.CMD_LED_PULSE
      && OctoLedStrips.PulseStrip(a.value) == Protocol.ValidatedStripId(stripId)
      && 0 <= OctoLedStrips.PulseStrip(a.value) < OctoLedStrips.NUM_LED_STRIPS
  {
    var p := Protocol.CreateLedPulsePacket(stripId);
    HostFrameAccepted(p, rest, after);
    var s := Communication.FromImage(Protocol.Encode(p).value);
    assert s.data[..1] == p.data[..1];
  }

  /** `create_led_effect_packet` puts the normalised strip in `data[0]`, and
      that is the byte the firmware reads as the effect id: the mode chosen
      depends on the strip and never on `effect_type`. */
  lemma EffectChosenByStrip(stripId: int, effectType: int, params: seq<int>,
                            mode: OctoLedStrips.EffectMode, start: Communication.Word32, now: Communication.Word32)
    requires IsByte(effectType) && AllBytes(params) && |params| <= Protocol.DATA_SIZE - 2
    ensures Protocol.Encode(Protocol.CreateLedEffectPacket(stripId, effectType, params)).Ok?
    ensures var f := Protocol.Encode(Protocol.CreateLedEffectPacket(stripId, effectType, params)).value;
      var id := Protocol.ValidatedStripId(stripId) as Byte;
      OctoLedStrips.EffectAfter(mode, start, Communication.FromImage(f), now)
      == match OctoLedStrips.EffectFor(id)
         case None => (mode, start)
         case Some(m) => (m, if OctoLedStrips.Breathing(m) then now else start)
  {
    var p := Protocol.CreateLedEffectPacket(stripId, effectType, params);
    assert AllBytes(p.data) by {
      assert forall i :: 2 <= i < |p.data| ==> p.data[i] == params[i - 2];
    }
    Protocol.EncodeLayout(p);
    var f := Protocol.Encode(p).value;
    assert f[2..34][0] == Protocol.Pad(p.data)[0];
  }

  /** For example, asking strip 2 for effect 0 (off) switches the strip
      board to sine breathing. */
  lemma EffectTypeIgnored(mode: OctoLedStrips.EffectMode, start: Communication.Word32, now: Communication.Word32)
    ensures Protocol.Encode(Protocol.CreateLedEffectPacket(2, 0, [])).Ok?
    ensures OctoLedStrips.EffectAfter(mode, start,
              Communication.FromImage(Protocol.Encode(Protocol.CreateLedEffectPacket(2, 0, [])).value), now)
            == (OctoLedStrips.SineBreathing, now)
  {
    EffectChosenByStrip(2, 0, [], mode, start, now);
    assert Protocol.ValidatedStripId(2) == 2;
  }

  /** The five-byte button-LED frame of the monitor script is read by
      `handleButtonLedCommand` field for field. */
  lemma ButtonLedFiveBytes(buttonId: Byte, r: Byte, g: Byte, b: Byte, brightness: Byte)
    ensures Protocol.Encode(TeensyCommTest.ButtonLedPacket(buttonId, r, g, b, brightness)).Ok?
    ensures TeensyASpecific.HandleButtonLedCommand(
              Communication.FromImage(Protocol.Encode(TeensyCommTest.ButtonLedPacket(buttonId, r, g, b, brightness)).value))
            == TeensyASpecific.ButtonLedCommand(buttonId, brightness, r, g, b)
  {
    TeensyCommTest.ButtonLedFrame(buttonId, r, g, b, brightness);
    var f := Protocol.Encode(TeensyCommTest.ButtonLedPacket(buttonId, r, g, b, brightness)).value;
    assert f[2..7] == [buttonId as int, brightness as int, r as int, g as int, b as int];
    assert f[2..34][..5] == f[2..7];
  }

  /** The four-byte frame of `create_button_led_packet` has no brightness
      byte, so the firmware takes red as the brightness, green as red, blue
      as green and the zero padding as blue. */
  lemma ButtonLedFourBytes(buttonId: Byte, r: Byte, g: Byte, b: Byte)
    ensures Protocol.Encode(Protocol.CreateButtonLedPacket(buttonId, r, g, b)).Ok?
    ensures TeensyASpecific.HandleButtonLedCommand(
              Communication.FromImage(Protocol.Encode(Protocol.CreateButtonLedPacket(buttonId, r, g, b)).value))
            == TeensyASpecific.ButtonLedCommand(buttonId, r, g, b, 0)
  {
    var p := Protocol.CreateButtonLedPacket(buttonId, r, g, b);
    Protocol.EncodeLayout(p);
    var f := Protocol.Encode(p).value;
    assert f[2..34] == Protocol.Pad(p.data);
  }

  // ---------------------------------------------------------------------
  // Firmware frames into the host

  /** A frame `sendCommand` writes with `length <= 32` is decoded by the
      host's `from_bytes` to the firmware's command, length and data. */
  lemma FirmwareFrameDecoded(command: Byte, data: seq<Byte>, length: Byte,
                             stale: Communication.Struct, after: seq<Byte>)
    requires length <= Communication.DATA_SIZE && |data| >= length
    ensures var m := Communication.Image(Communication.Sent(command, data, length, stale, after));
      Protocol.Decode(m) == Ok(Protocol.Packet(command, length, data[..length], m[34]))
  {
    Communication.SentLayout(command, data, length, stale, after);
    var m := Communication.Image(Communication.Sent(command, data, length, stale, after));
    assert m[2..34][..length] == m[2..2 + length];
  }

  /** The host reads from a firmware frame the packet that the firmware's
      own checksum vouches for: `from_bytes` of the monitor accepts it. */
  lemma MonitorAcceptsFirmwareFrame(command: Byte, data: seq<Byte>, length: Byte,
                                    stale: Communication.Struct, after: seq<Byte>)
    requires length <= Communication.DATA_SIZE && |data| >= length
    ensures var m := Communication.Image(Communication.Sent(command, data, length, stale, after));
      TeensyCommTest.FromBytes(m) == Ok(Some(Protocol.Packet(m[0], m[1], m[2..34], m[34])))
  {
    Communication.SentLayout(command, data, length, stale, after);
    var m := Communication.Image(Communication.Sent(command, data, length, stale, after));
    assert Protocol.Covered(length, m[2..34]) == Protocol.Covered(length, data[..length]) by {
      assert m[2..34][..length] == m[2..2 + length];
    }
  }

  /** The heartbeat the firmware sends is reported with the time it was
      sent at. */
  lemma HeartbeatReported(now: Communication.Word32, stale: Communication.Struct, after: seq<Byte>)
    ensures var m := Communication.Image(Communication.Sent(Protocol.CMD_HEARTBEAT, Communication.BigEndian4(now), 4, stale, after));
      TeensyCommTest.FromBytes(m).Ok? && TeensyCommTest.FromBytes(m).value.Some?
      && TeensyCommTest.PacketReport(TeensyCommTest.FromBytes(m).value.value) == TeensyCommTest.Heartbeat(now)
  {
    var d := Communication.BigEndian4(now);
    MonitorAcceptsFirmwareFrame(Protocol.CMD_HEARTBEAT, d, 4, stale, after);
    Communication.SentLayout(Protocol.CMD_HEARTBEAT, d, 4, stale, after);
    var m := Communication.Image(Communication.Sent(Protocol.CMD_HEARTBEAT, d, 4, stale, after));
    assert m[2..34][..4] == d[..4] == d;
    TeensyCommTest.HeartbeatReport(Protocol.Packet(m[0], m[1], m[2..34], m[34]), now);
  }

  /** A sensor frame is reported with the firmware's sensor id, 16-bit
      analog reading and digital reading. */
  lemma SensorReported(v: Communication.Word32, high: bool, stale: Communication.Struct, after: seq<Byte>)
    requires v < 0x1_0000
    ensures var m := Communication.Image(Communication.Sent(Protocol.CMD_SENSOR_DATA,
                       TeensyASpecific.SensorPayload(v, high), 4, stale, after));
      TeensyCommTest.FromBytes(m).Ok? && TeensyCommTest.FromBytes(m).value.Some?
      && TeensyCommTest.PacketReport(TeensyCommTest.FromBytes(m).value.value)
         == TeensyCommTest.SensorData(1, v, if high then 1 else 0)
  {
    var d := TeensyASpecific.SensorPayload(v, high);
    MonitorAcceptsFirmwareFrame(Protocol.CMD_SENSOR_DATA, d, 4, stale, after);
    Communication.SentLayout(Protocol.CMD_SENSOR_DATA, d, 4, stale, after);
    var m := Communication.Image(Communication.Sent(Protocol.CMD_SENSOR_DATA, d, 4, stale, after));
    assert m[2..34][..4] == d[..4] == d;
    assert v / 256 % 256 == v / 256;
    TeensyCommTest.SensorReport(Protocol.Packet(m[0], m[1], m[2..34], m[34]), v, if high then 1 else 0);
  }

  // ---------------------------------------------------------------------
  // Board A's text lines into the host

  /** The characters of a press line are ASCII. */
  lemma PressLineAscii(n: nat)
    ensures var line := Buttons.PressLine(n);
      (forall i :: 0 <= i < |line| ==> line[i] as int < 128)
      && line[|line| - 1] == '\n'
      && forall i :: 0 <= i < |line| - 1 ==> line[i] != '\n'
  {
    var d := Decimal(n);
    var line := Buttons.PressLine(n);
    assert forall i :: 0 <= i < |d| ==> line[|Buttons.PRESS_PREFIX| + i] == d[i] && IsDigit(d[i]);
  }

  /** The press line without its newline is its own strip. */
  lemma PressLineStripped(n: nat)
    ensures Strip(Buttons.PressLine(n)) == Buttons.PRESS_PREFIX + Decimal(n)
  {
    var body := Buttons.PRESS_PREFIX + Decimal(n);
    var line := Buttons.PressLine(n);
    assert line == body + "\n";
    assert StripLeft(line) == line;
    assert line[..|line| - 1] == body;
    assert IsDigit(body[|body| - 1]);
    assert StripRight(line) == StripRight(body);
    StripUnchanged(body);
    assert StripRight(StripLeft(body)) == body;
    assert StripLeft(body) == body;
  }

  /** A press line goes over the wire as one `readline()` worth of ASCII
      bytes that decode back to it. */
  lemma PressLineBytes(n: nat)
    ensures var bytes := SerialHandle.EncodeAscii(Buttons.PressLine(n));
      SerialHandle.LineLength(bytes) == |bytes|
      && SerialHandle.DecodeAscii(bytes) == Ok(Buttons.PressLine(n))
  {
    var line := Buttons.PressLine(n);
    PressLineAscii(n);
    var bytes := SerialHandle.EncodeAscii(line);
    assert bytes[|bytes| - 1] == SerialHandle.NEWLINE;
    var k := SerialHandle.LineLength(bytes);
    assert bytes[k - 1] == SerialHandle.NEWLINE;
    SerialHandle.DecodeEncode(line);
  }

  /** The line board A prints for button `i + 1`, read back by `readline()`
      as one line, makes the relay pulse strip `i`. */
  lemma PressLineRelayed(i: nat)
    ensures var bytes := SerialHandle.EncodeAscii(Buttons.PressLine(i + 1));
      SerialHandle.LineLength(bytes) == |bytes|
      && DualTeensy.LineAction(bytes) == Some(i)
  {
    PressLineBytes(i + 1);
    PressLineStripped(i + 1);
    assert Buttons.PRESS_PREFIX == DualTeensy.BUTTON_PREFIX;
    DualTeensy.ButtonLineParses(i + 1);
  }

  /** A string without some character of `sub` does not contain `sub`. */
  lemma {:induction false} MissingCharNotContained(s: string, sub: string, c: char)
    requires c in sub && c !in s
    ensures !Contains(s, sub)
    decreases |s|
  {
    if |s| > 0 {
      assert c !in s[1..] by {
        assert forall j :: 0 <= j < |s| - 1 ==> s[1..][j] == s[j + 1];
      }
      MissingCharNotContained(s[1..], sub, c);
    }
  }

  /** A port on which board A has printed a press line is identified as
      board A. */
  lemma PressLineIdentifiesA(n: nat)
    ensures var bytes := SerialHandle.EncodeAscii(Buttons.PressLine(n));
      IdentifyTeensys.Collected(bytes) == [Buttons.PRESS_PREFIX + Decimal(n)]
      && IdentifyTeensys.Classify(IdentifyTeensys.Collected(bytes)) == "A"
  {
    var body := Buttons.PRESS_PREFIX + Decimal(n);
    PressLineCollected(n);
    PressBodyMarks(n);
    assert IdentifyTeensys.AnyContains([body], IdentifyTeensys.PRESS_MARK) by {
      assert [body][0] == body;
    }
  }

  /** `check_port` keeps the press line, newline stripped, as its one
      message. */
  lemma PressLineCollected(n: nat)
    ensures IdentifyTeensys.Collected(SerialHandle.EncodeAscii(Buttons.PressLine(n)))
            == [Buttons.PRESS_PREFIX + Decimal(n)]
  {
    PressLineBytes(n);
    PressLineStripped(n);
    OneLineCollected(SerialHandle.EncodeAscii(Buttons.PressLine(n)), Buttons.PressLine(n));
  }

  /** Bytes that make one decodable, non-blank line give one message. */
  lemma OneLineCollected(bytes: seq<Byte>, text: string)
    requires bytes != [] && SerialHandle.LineLength(bytes) == |bytes|
    requires SerialHandle.DecodeAscii(bytes) == Ok(text) && Strip(text) != ""
    ensures IdentifyTeensys.Collected(bytes) == [Strip(text)]
  {
    assert bytes[..|bytes|] == bytes && bytes[|bytes|..] == [];
    IdentifyTeensys.NextLine(bytes, bytes, []);
    var kept := IdentifyTeensys.Kept(bytes);
    assert |kept| == 1 && kept[0] == Strip(text);
  }

  /** A press line carries board A's mark and not board B's. */
  lemma PressBodyMarks(n: nat)
    ensures var body := Buttons.PRESS_PREFIX + Decimal(n);
      Contains(body, IdentifyTeensys.PRESS_MARK) && !Contains(body, IdentifyTeensys.B_MARK)
  {
    var d := Decimal(n);
    var body := Buttons.PRESS_PREFIX + d;
    assert body[..|IdentifyTeensys.PRESS_MARK|] == IdentifyTeensys.PRESS_MARK;
    StartsWithContains(body, IdentifyTeensys.PRESS_MARK);
    assert IdentifyTeensys.B_MARK[5] == 'y';
    forall j | 0 <= j < |body|
      ensures body[j] != 'y'
    {
      if j >= |Buttons.PRESS_PREFIX| {
        assert body[j] == d[j - |Buttons.PRESS_PREFIX|];
      }
    }
    MissingCharNotContained(body, IdentifyTeensys.B_MARK, 'y');
  }
}
