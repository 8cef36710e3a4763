/** The older two-board relay (led_controller/raspberry_pi/dual_teensy.py):
    board A sends button lines, board B drives the LED strips. Detection is
    the two-board `detect_all_teensys` of `LegacyDeviceUtils`; line parsing
    and the pulse frame are those of `DualTeensy`. The `config` and
    `protocol` modules the script imports are not part of this model: their
    constants, `create_led_pulse_packet` and `to_bytes` are taken from
    utils/config.py and utils/protocol.py (`Config`, `Protocol`). The
    monitor threads are not modelled; `MonitorStep` is one pass of the
    `monitor_teensy_a` loop body. */
module LegacyDualTeensy {
  import opened Py
  import opened Bits
  import opened DeviceUtils
  import opened LegacyDeviceUtils
  import opened Protocol
  import opened SerialHandle
  import opened DualTeensy

  /** Both boards are detected and neither device refuses to open. */
  predicate BothConnect(ports: seq<PortInfo>, unopenable: set<string>) {
    Truthy(FindTeensyA(ports)) && Truthy(FindTeensyB(ports))
    && FindTeensyA(ports).value !in unopenable && FindTeensyB(ports).value !in unopenable
  }

  /** What `send_led_command_to_teensy_b(strip)` does to B: the pulse frame
      is written when B accepts writes, and nothing happens otherwise. */
  twostate predicate PulseToB(b: Serial?, stripId: int)
    reads b
  {
    b != null ==> Sent(b, PulseBytes(stripId), old(Writable(b)))
  }

  class DualTeensyTester {
    var baudrate: int
    var teensyAPort: Option<string>
    var teensyBPort: Option<string>
    var teensyA: Serial?
    var teensyB: Serial?
    var running: bool
    /** A `sound_callback` was given. */
    const hasSoundCallback: bool
    /** The strip ids the sound callback has been called with. */
    var soundCalls: seq<int>

    /** The two handles are distinct objects. */
    predicate Valid()
      reads this
    {
      teensyA != null && teensyB != null ==> teensyA != teensyB
    }

    constructor (baudrate: int, hasSoundCallback: bool)
      ensures Valid()
      ensures this.baudrate == baudrate && this.hasSoundCallback == hasSoundCallback
      ensures teensyAPort == None && teensyBPort == None && teensyA == null && teensyB == null
      ensures !running && soundCalls == []
    {
      this.baudrate := baudrate;
      this.hasSoundCallback := hasSoundCallback;
      teensyAPort, teensyBPort := None, None;
      teensyA, teensyB := null, null;
      running := false;
      soundCalls := [];
    }

    /** The opening half of `connect()`: A, then B; a device in
        `unopenable` raises on open. A failure on B closes A, which stays in
        its field. */
    method OpenBoards(a: string, b: string, unopenable: set<string>) returns (ok: bool)
      requires Valid()
      modifies this
      ensures Valid()
      ensures ok <==> a !in unopenable && b !in unopenable
      ensures teensyAPort == Some(a) && teensyBPort == Some(b)
      ensures running == old(running) && soundCalls == old(soundCalls) && baudrate == old(baudrate)
      ensures a in unopenable ==> teensyA == old(teensyA) && teensyB == old(teensyB)
      ensures a !in unopenable ==> fresh(teensyA) && teensyA.device == a
      ensures a !in unopenable && b in unopenable ==>
        !teensyA.isOpen && teensyA.closeCount == 1 && teensyB == old(teensyB)
      ensures ok ==> fresh(teensyB) && teensyB.device == b && Writable(teensyA) && Writable(teensyB)
    {
      teensyAPort, teensyBPort := Some(a), Some(b);
      if a in unopenable {
        return false;
      }
      teensyA := new Serial.Open(a);
      if b in unopenable {
        teensyA.Close();
        return false;
      }
      teensyB := new Serial.Open(b);
      return true;
    }

    /** `connect()`: unless both boards were detected, False with nothing
        changed; otherwise the two devices are recorded and opened. */
    method Connect(ports: seq<PortInfo>, unopenable: set<string>) returns (ok: bool)
      requires Valid()
      modifies this
      ensures Valid()
      ensures ok <==> BothConnect(ports, unopenable)
      ensures running == old(running) && soundCalls == old(soundCalls) && baudrate == old(baudrate)
      ensures !(Truthy(FindTeensyA(ports)) && Truthy(FindTeensyB(ports))) ==>
        teensyAPort == old(teensyAPort) && teensyBPort == old(teensyBPort)
        && teensyA == old(teensyA) && teensyB == old(teensyB)
      ensures Truthy(FindTeensyA(ports)) && Truthy(FindTeensyB(ports)) ==>
        teensyAPort == FindTeensyA(ports) && teensyBPort == FindTeensyB(ports)
      ensures ok ==>
        fresh(teensyA) && fresh(teensyB)
        && teensyA.device == teensyAPort.value && teensyB.device == teensyBPort.value
        && Writable(teensyA) && Writable(teensyB)
    {
      var found := LegacyDeviceUtils.DetectAllTeensys(ports);
      if "teensy_a" !in found || "teensy_b" !in found {
        return false;
      }
      ok := OpenBoards(found["teensy_a"], found["teensy_b"], unopenable);
    }

    /** `send_led_command_to_teensy_b(strip_id)`. */
    method SendToTeensyB(stripId: int)
      modifies teensyB
      ensures PulseToB(teensyB, stripId)
    {
      if teensyB == null {
        return;
      }
      var packet := CreateLedPulsePacket(stripId);
      var pkt := new CommandPacket(packet.command, packet.dataLength, Some(packet.data), packet.checksum);
      var bytes := pkt.ToBytes();
      PulseBytesEncoded(stripId);
      assert bytes == Ok(PulseBytes(stripId));
      var sent := teensyB.Write(bytes.value);
    }

    /** The body of the monitor's `try` for one line read from A: a line
        asking for strip `s` sends the pulse for `s` to B, then gives `s`
        to the sound callback; any other line changes nothing. */
    method HandleLine(bytes: seq<Byte>)
      requires Valid()
      modifies this, teensyB
      ensures Valid()
      ensures teensyA == old(teensyA) && teensyB == old(teensyB) && running == old(running)
      ensures teensyAPort == old(teensyAPort) && teensyBPort == old(teensyBPort)
      ensures LineAction(bytes).Some? ==>
        var s := LineAction(bytes).value;
        PulseToB(old(teensyB), s) && soundCalls == old(soundCalls) + (if hasSoundCallback then [s] else [])
      ensures LineAction(bytes).None? ==>
        soundCalls == old(soundCalls) && (old(teensyB) != null ==> Sent(old(teensyB), [], false))
    {
      var action := LineAction(bytes);
      if action.Some? {
        HandlePress(action.value);
      }
    }

    /** What a line asking for strip `s` does: the pulse for `s` goes to
        B, then `s` to the sound callback. */
    method HandlePress(s: int)
      requires Valid()
      modifies this, teensyB
      ensures Valid()
      ensures teensyA == old(teensyA) && teensyB == old(teensyB) && running == old(running)
      ensures teensyAPort == old(teensyAPort) && teensyBPort == old(teensyBPort)
      ensures PulseToB(old(teensyB), s) && soundCalls == old(soundCalls) + (if hasSoundCallback then [s] else [])
    {
      SendToTeensyB(s);
      if hasSoundCallback {
        soundCalls := soundCalls + [s];
      }
    }

    /** One pass of the `monitor_teensy_a` loop: it ends when `running` is
        off or when `in_waiting` raises on a closed port; otherwise, with
        bytes waiting on A, one line is read and handled. */
    method MonitorStep() returns (alive: bool, line: Option<seq<Byte>>)
      requires Valid()
      modifies this, teensyA, teensyB
      ensures Valid() && teensyA == old(teensyA) && teensyB == old(teensyB) && running == old(running)
      ensures alive <==> old(running) && (old(teensyA) == null || old(teensyA.isOpen))
      ensures line.Some? <==> alive && old(teensyA) != null && old(teensyA.rx) != []
      ensures line.Some? ==>
        line.value == old(teensyA.rx)[..LineLength(old(teensyA.rx))]
        && old(teensyA).rx == old(teensyA.rx)[LineLength(old(teensyA.rx))..]
      ensures line.None? ==>
        soundCalls == old(soundCalls)
        && (old(teensyA) != null ==> Sent(old(teensyA), [], false))
        && (old(teensyB) != null ==> Sent(old(teensyB), [], false))
      ensures line.Some? && LineAction(line.value).Some? ==>
        var s := LineAction(line.value).value;
        PulseToB(old(teensyB), s) && soundCalls == old(soundCalls) + (if hasSoundCallback then [s] else [])
      ensures line.Some? && LineAction(line.value).None? ==>
        soundCalls == old(soundCalls) && (old(teensyB) != null ==> Sent(old(teensyB), [], false))
    {
      line := None;
      if !running {
        return false, None;
      }
      if teensyA == null {
        return true, None;
      }
      var waiting := teensyA.InWaiting();
      if waiting.Err? {
        return false, None;
      }
      alive := true;
      if waiting.value > 0 {
        var read := teensyA.ReadLine();
        line := Some(read.value);
        HandleLine(read.value);
      }
    }

    /** `start_monitoring()`: needs both handles. */
    method StartMonitoring() returns (ok: bool)
      modifies this
      ensures ok <==> old(teensyA) != null && old(teensyB) != null
      ensures running == (ok || old(running))
      ensures teensyA == old(teensyA) && teensyB == old(teensyB) && soundCalls == old(soundCalls)
    {
      if teensyA == null || teensyB == null {
        return false;
      }
      running := true;
      return true;
    }

    /** `stop_monitoring()` (also `__exit__`): clears `running`, closes each
        handle that is set, once, and clears it. */
    method StopMonitoring()
      requires Valid()
      modifies this, teensyA, teensyB
      ensures Valid()
      ensures !running && teensyA == null && teensyB == null
      ensures old(teensyA) != null ==> !old(teensyA).isOpen && old(teensyA).closeCount == old(teensyA.closeCount) + 1
      ensures old(teensyB) != null ==> !old(teensyB).isOpen && old(teensyB).closeCount == old(teensyB.closeCount) + 1
      ensures soundCalls == old(soundCalls) && teensyAPort == old(teensyAPort) && teensyBPort == old(teensyBPort)
    {
      running := false;
      if teensyA != null {
        teensyA.Close();
        teensyA := null;
      }
      if teensyB != null {
        teensyB.Close();
        teensyB := null;
      }
    }

    /** `__enter__()`: the tester itself when `connect()` succeeds, else
        ConnectionError. */
    method Enter(ports: seq<PortInfo>, unopenable: set<string>) returns (r: Result<DualTeensyTester>)
      requires Valid()
      modifies this
      ensures Valid()
      ensures r.Ok? <==> BothConnect(ports, unopenable)
      ensures r.Ok? ==> r.value == this
      ensures r.Err? ==> r.error == ConnectionError
    {
      var ok := Connect(ports, unopenable);
      if ok {
        return Ok(this);
      }
      return Err(ConnectionError);
    }
  }
}
