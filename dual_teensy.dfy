/** The host relay (led_controller/raspberry_pi/utils/dual_teensy.py): it
    connects to the button board A and the two LED receiver boards B and C,
    turns every `BUTTON_PRESS:<n>` line from A into an LED pulse for strip
    `n-1` sent to both receivers, and hands the strip to an optional sound
    callback. The monitor threads are not modelled; `MonitorStep` is one pass
    of the `monitor_teensy_a` loop body. */
module DualTeensy {
  import opened Py
  import opened Bits
  import opened Config
  import opened DeviceUtils
  import opened Protocol
  import opened SerialHandle

  const BUTTON_PREFIX := "BUTTON_PRESS:"

  /** The strip a stripped line from board A asks to pulse: for a line that
      starts with `BUTTON_PRESS:`, the int in its second `:`-field, minus one.
      Any other line, or a field `int()` rejects (the ValueError is caught),
      asks for nothing. */
  function ButtonStrip(line: string): (r: Option<int>)
    ensures !StartsWith(line, BUTTON_PREFIX) ==> r == None
    ensures r.Some? ==> SplitField(line, ':', 1).Ok? && ParseInt(SplitField(line, ':', 1).value) == Ok(r.value + 1)
    ensures (StartsWith(line, BUTTON_PREFIX) && SplitField(line, ':', 1).Ok? && ParseInt(SplitField(line, ':', 1).value).Ok?) ==>
              r == Some(ParseInt(SplitField(line, ':', 1).value).value - 1)
  {
    if !StartsWith(line, BUTTON_PREFIX) || SplitField(line, ':', 1).Err? || ParseInt(SplitField(line, ':', 1).value).Err? then None
    else Some(ParseInt(SplitField(line, ':', 1).value).value - 1)
  }

  /** `BUTTON_PRESS:<n>` written in decimal asks for strip `n - 1`. */
  lemma ButtonLineParses(n: nat)
    ensures ButtonStrip(BUTTON_PREFIX + Decimal(n)) == Some(n - 1)
  {
    var d := Decimal(n);
    var line := BUTTON_PREFIX + d;
    assert line[..|BUTTON_PREFIX|] == BUTTON_PREFIX;
    SecondFieldOfDigits(d);
    ParseDecimal(n);
  }

  /** The second `:`-field of `BUTTON_PRESS:d`, for digits `d`, is `d`. */
  lemma SecondFieldOfDigits(d: string)
    requires AllDigits(d)
    ensures SplitField(BUTTON_PREFIX + d, ':', 1) == Ok(d)
  {
    assert BUTTON_PREFIX + d == "BUTTON_PRESS" + [':'] + d;
    assert ':' !in d by {
      assert forall i :: 0 <= i < |d| ==> IsDigit(d[i]);
    }
    SplitAfterPrefix("BUTTON_PRESS", ':', d);
    SplitNoSep(d, ':');
  }

  /** What one `readline()` result asks for: it is decoded, stripped and
      parsed; a decode error is caught and asks for nothing. */
  function LineAction(bytes: seq<Byte>): (r: Option<int>)
    ensures r.Some? ==> DecodeAscii(bytes).Ok? && ButtonStrip(Strip(DecodeAscii(bytes).value)) == r
    ensures DecodeAscii(bytes).Ok? ==> r == ButtonStrip(Strip(DecodeAscii(bytes).value))
    ensures DecodeAscii(bytes).Err? ==> r == None
  {
    match DecodeAscii(bytes)
    case Err(_) => None
    case Ok(text) => ButtonStrip(Strip(text))
  }

  /** The bytes `create_led_pulse_packet(strip).to_bytes()` sends. */
  function PulseBytes(stripId: int): Frame {
    PulseFrame(stripId);
    Encode(CreateLedPulsePacket(stripId)).value
  }

  /** `PulseBytes` is what encoding the pulse packet gives. */
  lemma PulseBytesEncoded(stripId: int)
    ensures Encode(CreateLedPulsePacket(stripId)) == Ok(PulseBytes(stripId))
  {
    PulseFrame(stripId);
  }

  /** The three boards were all detected. */
  predicate AllDetected(ports: seq<PortInfo>) {
    Truthy(FindTeensy("a", ports)) && Truthy(FindTeensy("b", ports)) && Truthy(FindTeensy("c", ports))
  }

  /** `connect()` opens all three boards: each is detected, and none of their
      devices refuses to open. */
  predicate ConnectSucceeds(ports: seq<PortInfo>, unopenable: set<string>) {
    AllDetected(ports)
    && FindTeensy("a", ports).value !in unopenable
    && FindTeensy("b", ports).value !in unopenable
    && FindTeensy("c", ports).value !in unopenable
  }

  /** The keys `connect()` tests in the detection result. */
  lemma DetectedKeys(found: map<string, string>, ports: seq<PortInfo>)
    requires forall i :: 0 <= i < |TEENSY_IDS| ==> Detected(found, TEENSY_IDS[i], ports)
    ensures ("teensy_a" in found && "teensy_b" in found && "teensy_c" in found) <==> AllDetected(ports)
    ensures "teensy_a" in found ==> Truthy(FindTeensy("a", ports)) && found["teensy_a"] == FindTeensy("a", ports).value
    ensures "teensy_b" in found ==> Truthy(FindTeensy("b", ports)) && found["teensy_b"] == FindTeensy("b", ports).value
    ensures "teensy_c" in found ==> Truthy(FindTeensy("c", ports)) && found["teensy_c"] == FindTeensy("c", ports).value
  {
    assert Detected(found, TEENSY_IDS[0], ports);
    assert Detected(found, TEENSY_IDS[1], ports);
    assert Detected(found, TEENSY_IDS[2], ports);
    assert Key("a") == "teensy_a" && Key("b") == "teensy_b" && Key("c") == "teensy_c";
  }

  /** What `send_led_command_to_receiver_teensies(strip)` does to the
      receivers: with both present, the pulse frame goes to B and then,
      unless B's write raised, to C; with either missing nothing is
      written. */
  twostate predicate PulseOutcome(b: Serial?, c: Serial?, stripId: int)
    reads b, c
  {
    (b != null && c != null ==>
       var sentB := old(Writable(b));
       Sent(b, PulseBytes(stripId), sentB) && Sent(c, PulseBytes(stripId), sentB && old(Writable(c))))
    && (b != null && c == null ==> Sent(b, [], false))
    && (b == null && c != null ==> Sent(c, [], false))
  }

  class DualTeensyTester {
    var baudrate: int
    var teensyAPort: Option<string>
    var teensyBPort: Option<string>
    var teensyCPort: Option<string>
    var teensyA: Serial?
    var teensyB: Serial?
    var teensyC: Serial?
    var running: bool
    /** A `sound_callback` was given. */
    const hasSoundCallback: bool
    /** The strip ids the sound callback has been called with. */
    var soundCalls: seq<int>

    /** Every handle is its own object (each came from its own open). */
    predicate Valid()
      reads this
    {
      (teensyA != null && teensyB != null ==> teensyA != teensyB)
      && (teensyA != null && teensyC != null ==> teensyA != teensyC)
      && (teensyB != null && teensyC != null ==> teensyB != teensyC)
    }

    constructor (baudrate: int, hasSoundCallback: bool)
      ensures Valid()
      ensures this.baudrate == baudrate && this.hasSoundCallback == hasSoundCallback
      ensures teensyAPort == None && teensyBPort == None && teensyCPort == None
      ensures teensyA == null && teensyB == null && teensyC == null
      ensures !running && soundCalls == []
    {
      this.baudrate := baudrate;
      this.hasSoundCallback := hasSoundCallback;
      teensyAPort, teensyBPort, teensyCPort := None, None, None;
      teensyA, teensyB, teensyC := null, null, null;
      running := false;
      soundCalls := [];
    }

    /** The opening half of `connect()`: A, B and C are opened in that
        order from the detected devices; devices in `unopenable` raise on
        open. Each failure returns False after closing the boards already
        opened, which stay in their fields. */
    method OpenBoards(a: string, b: string, c: string, unopenable: set<string>) returns (ok: bool)
      requires Valid()
      modifies this
      ensures Valid()
      ensures ok <==> a !in unopenable && b !in unopenable && c !in unopenable
      ensures teensyAPort == Some(a) && teensyBPort == Some(b) && teensyCPort == Some(c)
      ensures running == old(running) && soundCalls == old(soundCalls) && baudrate == old(baudrate)
      ensures a in unopenable ==> teensyA == old(teensyA) && teensyB == old(teensyB) && teensyC == old(teensyC)
      ensures a !in unopenable ==> fresh(teensyA) && teensyA.device == a
      ensures a !in unopenable && b in unopenable ==>
        !teensyA.isOpen && teensyA.closeCount == 1 && teensyB == old(teensyB) && teensyC == old(teensyC)
      ensures a !in unopenable && b !in unopenable ==> fresh(teensyB) && teensyB.device == b
      ensures a !in unopenable && b !in unopenable && c in unopenable ==>
        !teensyA.isOpen && teensyA.closeCount == 1 && !teensyB.isOpen && teensyB.closeCount == 1
        && teensyC == old(teensyC)
      ensures ok ==>
        fresh(teensyC) && teensyC.device == c
        && Writable(teensyA) && Writable(teensyB) && Writable(teensyC)
    {
      teensyAPort, teensyBPort, teensyCPort := Some(a), Some(b), Some(c);
      if a in unopenable {
        return false;
      }
      teensyA := new Serial.Open(a);
      if b in unopenable {
        teensyA.Close();
        return false;
      }
      teensyB := new Serial.Open(b);
      if c in unopenable {
        teensyA.Close();
        teensyB.Close();
        return false;
      }
      teensyC := new Serial.Open(c);
      return true;
    }

    /** `connect()`: detection on `ports`; unless all three boards were
        found, False with nothing changed; otherwise the three devices are
        recorded and opened by `OpenBoards`. */
    method Connect(ports: seq<PortInfo>, unopenable: set<string>) returns (ok: bool)
      requires Valid()
      modifies this
      ensures Valid()
      ensures ok <==> ConnectSucceeds(ports, unopenable)
      ensures running == old(running) && soundCalls == old(soundCalls) && baudrate == old(baudrate)
      ensures !AllDetected(ports) ==>
        teensyAPort == old(teensyAPort) && teensyBPort == old(teensyBPort) && teensyCPort == old(teensyCPort)
        && teensyA == old(teensyA) && teensyB == old(teensyB) && teensyC == old(teensyC)
      ensures AllDetected(ports) ==>
        teensyAPort == FindTeensy("a", ports) && teensyBPort == FindTeensy("b", ports)
        && teensyCPort == FindTeensy("c", ports)
      ensures ok ==>
        fresh(teensyA) && fresh(teensyB) && fresh(teensyC)
        && teensyA.device == teensyAPort.value && teensyB.device == teensyBPort.value
        && teensyC.device == teensyCPort.value
        && Writable(teensyA) && Writable(teensyB) && Writable(teensyC)
    {
      var found := DeviceUtils.DetectAllTeensys(ports);
      DetectedKeys(found, ports);
      if "teensy_a" !in found || "teensy_b" !in found || "teensy_c" !in found {
        return false;
      }
      ok := OpenBoards(found["teensy_a"], found["teensy_b"], found["teensy_c"], unopenable);
    }

    /** `send_led_command_to_receiver_teensies(strip_id)`. */
    method SendToReceivers(stripId: int)
      requires Valid()
      modifies teensyB, teensyC
      ensures PulseOutcome(teensyB, teensyC, stripId)
    {
      if teensyB == null || teensyC == null {
        return;
      }
      var packet := CreateLedPulsePacket(stripId);
      var pkt := new CommandPacket(packet.command, packet.dataLength, Some(packet.data), packet.checksum);
      var bytes := pkt.ToBytes();
      PulseBytesEncoded(stripId);
      assert bytes == Ok(PulseBytes(stripId));
      var sentB := teensyB.Write(bytes.value);
      if sentB {
        var sentC := teensyC.Write(bytes.value);
      }
    }

    /** The body of the monitor's `try` for one line read from A: a line
        asking for strip `s` sends the pulse for `s` to the receivers, then
        gives `s` to the sound callback; any other line changes nothing. */
    method HandleLine(bytes: seq<Byte>)
      requires Valid()
      modifies this, teensyB, teensyC
      ensures Valid()
      ensures teensyA == old(teensyA) && running == old(running)
      ensures teensyAPort == old(teensyAPort) && teensyBPort == old(teensyBPort) && teensyCPort == old(teensyCPort)
      ensures LineAction(bytes).Some? ==>
        var s := LineAction(bytes).value;
        teensyB == old(teensyB) && teensyC == old(teensyC) && PulseOutcome(old(teensyB), old(teensyC), s)
        && soundCalls == old(soundCalls) + (if hasSoundCallback then [s] else [])
      ensures LineAction(bytes).None? ==>
        teensyB == old(teensyB) && teensyC == old(teensyC) && soundCalls == old(soundCalls)
        && (old(teensyB) != null ==> Sent(old(teensyB), [], false))
        && (old(teensyC) != null ==> Sent(old(teensyC), [], false))
    {
      var action := LineAction(bytes);
      if action.Some? {
        HandlePress(action.value);
      }
    }

    /** What a line asking for strip `s` does: the pulse for `s` goes to
        the receivers, then `s` to the sound callback. */
    method HandlePress(s: int)
      requires Valid()
      modifies this, teensyB, teensyC
      ensures Valid()
      ensures teensyA == old(teensyA) && running == old(running)
      ensures teensyAPort == old(teensyAPort) && teensyBPort == old(teensyBPort) && teensyCPort == old(teensyCPort)
      ensures teensyB == old(teensyB) && teensyC == old(teensyC) && PulseOutcome(old(teensyB), old(teensyC), s)
      ensures soundCalls == old(soundCalls) + (if hasSoundCallback then [s] else [])
    {
      SendToReceivers(s);
      if hasSoundCallback {
        soundCalls := soundCalls + [s];
      }
    }

    /** One pass of the `monitor_teensy_a` loop. The loop ends (`alive` is
        false) when `running` is off, or when `in_waiting` raises on a closed
        port, outside the loop's `try`. Otherwise, with bytes waiting on A,
        one line is read from A and handled. */
    method MonitorStep() returns (alive: bool, line: Option<seq<Byte>>)
      requires Valid()
      modifies this, teensyA, teensyB, teensyC
      ensures alive <==> old(running) && (old(teensyA) == null || old(teensyA.isOpen))
      ensures line.Some? <==> alive && old(teensyA) != null && old(teensyA.rx) != []
      ensures line.Some? ==>
        line.value == old(teensyA.rx)[..LineLength(old(teensyA.rx))]
        && old(teensyA).rx == old(teensyA.rx)[LineLength(old(teensyA.rx))..]
      ensures line.None? ==>
        teensyB == old(teensyB) && teensyC == old(teensyC) && soundCalls == old(soundCalls)
        && (old(teensyA) != null ==> Sent(old(teensyA), [], false))
        && (old(teensyB) != null ==> Sent(old(teensyB), [], false))
        && (old(teensyC) != null ==> Sent(old(teensyC), [], false))
      ensures line.Some? && LineAction(line.value).Some? ==>
        var s := LineAction(line.value).value;
        teensyB == old(teensyB) && teensyC == old(teensyC) && PulseOutcome(old(teensyB), old(teensyC), s)
        && soundCalls == old(soundCalls) + (if hasSoundCallback then [s] else [])
      ensures line.Some? && LineAction(line.value).None? ==>
        teensyB == old(teensyB) && teensyC == old(teensyC) && soundCalls == old(soundCalls)
        && (old(teensyB) != null ==> Sent(old(teensyB), [], false))
        && (old(teensyC) != null ==> Sent(old(teensyC), [], false))
      ensures Valid() && teensyA == old(teensyA) && running == old(running)
    {
      line := None;
      if !running {
        return false, None;
      }
      if teensyA == null {
        return true, None;
      }
      var waiting := teensyA.InWaiting();
      if waiting.Err? {
        return false, None;
      }
      alive := true;
      if waiting.value > 0 {
        var read := teensyA.ReadLine();
        line := Some(read.value);
        HandleLine(read.value);
      }
    }

    /** `start_monitoring()`: needs A and B (C is not checked). */
    method StartMonitoring() returns (ok: bool)
      modifies this
      ensures ok <==> old(teensyA) != null && old(teensyB) != null
      ensures running == (ok || old(running))
      ensures teensyA == old(teensyA) && teensyB == old(teensyB) && teensyC == old(teensyC)
      ensures soundCalls == old(soundCalls)
    {
      if teensyA == null || teensyB == null {
        return false;
      }
      running := true;
      return true;
    }

    /** `stop_monitoring()`: clears `running`, closes every handle that is
        set, once, and clears it. */
    method StopMonitoring()
      requires Valid()
      modifies this, teensyA, teensyB, teensyC
      ensures Valid()
      ensures !running && teensyA == null && teensyB == null && teensyC == null
      ensures old(teensyA) != null ==> !old(teensyA).isOpen && old(teensyA).closeCount == old(teensyA.closeCount) + 1
      ensures old(teensyB) != null ==> !old(teensyB).isOpen && old(teensyB).closeCount == old(teensyB.closeCount) + 1
      ensures old(teensyC) != null ==> !old(teensyC).isOpen && old(teensyC).closeCount == old(teensyC.closeCount) + 1
      ensures soundCalls == old(soundCalls) && teensyAPort == old(teensyAPort)
    {
      running := false;
      if teensyA != null {
        teensyA.Close();
        teensyA := null;
      }
      if teensyB != null {
        teensyB.Close();
        teensyB := null;
      }
      if teensyC != null {
        teensyC.Close();
        teensyC := null;
      }
    }

    /** `__enter__()`: the tester itself when `connect()` succeeds, else
        ConnectionError. */
    method Enter(ports: seq<PortInfo>, unopenable: set<string>) returns (r: Result<DualTeensyTester>)
      requires Valid()
      modifies this
      ensures Valid()
      ensures r.Ok? <==> ConnectSucceeds(ports, unopenable)
      ensures r.Ok? ==> r.value == this
      ensures r.Err? ==> r.error == ConnectionError
    {
      var ok := Connect(ports, unopenable);
      if ok {
        return Ok(this);
      }
      return Err(ConnectionError);
    }
  }
}
