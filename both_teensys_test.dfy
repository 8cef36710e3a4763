/** The stand-alone two-board test script
    (led_controller/raspberry_pi/test/test_both_teensys.py). It finds the
    boards by parsing the text printed by `pio device list`, which is an
    input here (None when the command fails), keeps its own copy of the
    frame codec (the same code as `Protocol.CommandPacket`, which is reused),
    and relays button lines from A to B without normalising the strip. */
module BothTeensysTest {
  import opened Py
  import opened Bits
  import opened DeviceUtils
  import opened Protocol
  import opened SerialHandle
  import opened DualTeensy

  /** The serial numbers the script looks for; B differs from the
      catalogue's. */
  const LOCAL_A_SERIAL := "14094100"
  const LOCAL_B_SERIAL := "17656680"

  const PORT_PREFIX := "/dev/ttyACM"
  const SER := "SER="

  // ---------------------------------------------------------------------
  // re.search(r'SER=(\d+)', line)

  /** The longest run of digits at the start of `s`. */
  function DigitRun(s: string): (r: string)
    ensures AllDigits(r) && |r| <= |s| && r == s[..|r|]
    ensures |r| < |s| ==> !IsDigit(s[|r|])
    ensures |s| > 0 && IsDigit(s[0]) ==> |r| > 0
    decreases |s|
  {
    if s == [] || !IsDigit(s[0]) then [] else [s[0]] + DigitRun(s[1..])
  }

  /** The pattern matches at `i`: `SER=` followed by a digit. */
  predicate SerAt(s: string, i: int) {
    0 <= i && i + 5 <= |s|
    && s[i] == 'S' && s[i + 1] == 'E' && s[i + 2] == 'R' && s[i + 3] == '=' && IsDigit(s[i + 4])
  }

  /** `i` is the leftmost match. */
  predicate FirstSer(s: string, i: int) {
    SerAt(s, i) && forall j :: 0 <= j < i ==> !SerAt(s, j)
  }

  lemma SerAtShift(s: string)
    requires |s| > 0
    ensures forall k :: 0 <= k ==> (SerAt(s[1..], k) <==> SerAt(s, k + 1))
  {

  }

  /** The group of the leftmost match: the digits after the first `SER=`
      that is followed by a digit; None when there is no such place. */
  function SerSearch(s: string): (r: Option<string>)
    ensures r.None? <==> forall i :: !SerAt(s, i)
    ensures r.Some? ==> exists i :: FirstSer(s, i) && r.value == DigitRun(s[i + 4..])
    ensures r.Some? ==> |r.value| > 0 && AllDigits(r.value)
    decreases |s|
  {
    if |s| < 5 then None
    else if SerAt(s, 0) then
      assert FirstSer(s, 0);
      Some(DigitRun(s[4..]))
    else
      SerAtShift(s);
      var r := SerSearch(s[1..]);
      if r.Some? then
        var k :| FirstSer(s[1..], k) && r.value == DigitRun(s[1..][k + 4..]);
        assert s[1..][k + 4..] == s[k + 5..];
        forall j | 0 <= j < k + 1
          ensures !SerAt(s, j)
        {
          if j > 0 {
            assert !SerAt(s[1..], j - 1);
          }
        }
        assert FirstSer(s, k + 1);
        r
      else
        assert forall i :: SerAt(s, i) ==> i == 0 || SerAt(s[1..], i - 1);
        r
  }

  /** The run of digits at the start of `d + t` is `d` when `t` does not
      continue it. */
  lemma DigitRunOf(d: string, t: string)
    requires AllDigits(d)
    requires t == [] || !IsDigit(t[0])
    ensures DigitRun(d + t) == d
  {
    var r := DigitRun(d + t);
    assert r == (d + t)[..|d|];
  }

  /** No match starts inside `p` when `p` holds none and what follows it
      begins with `S`. */
  lemma NoSerBefore(p: string, rest: string)
    requires forall i :: !SerAt(p, i)
    requires |rest| > 0 && rest[0] == 'S'
    ensures forall j :: 0 <= j < |p| ==> !SerAt(p + rest, j)
  {
    var s := p + rest;
    forall j | 0 <= j < |p|
      ensures !SerAt(s, j)
    {
      if j + 5 <= |p| {
        assert !SerAt(p, j);
      } else {
        assert s[|p|] == 'S';
      }
    }
  }

  /** The search reports the digits after the leftmost match. */
  lemma SerSearchFirst(s: string, i: int)
    requires FirstSer(s, i)
    ensures SerSearch(s) == Some(DigitRun(s[i + 4..]))
  {
    assert SerAt(s, i);
    var r := SerSearch(s);
    assert r.Some?;
    var j :| FirstSer(s, j) && r.value == DigitRun(s[j + 4..]);
    assert j < i ==> !SerAt(s, j);
    assert i < j ==> !SerAt(s, i);
    assert i == j;
  }

  lemma SerPrefix(u: string)
    ensures |SER + u| == 4 + |u|
    ensures (SER + u)[0] == 'S' && (SER + u)[1] == 'E' && (SER + u)[2] == 'R' && (SER + u)[3] == '='
    ensures forall k :: 0 <= k < |u| ==> (SER + u)[4 + k] == u[k]
  {
  }

  /** A `Hardware ID` line `p + "SER=" + d + t` yields `d` when `p` holds
      no earlier match and `t` does not continue the digits. */
  lemma SerSearchFinds(p: string, d: string, t: string)
    requires forall i :: !SerAt(p, i)
    requires |d| > 0 && AllDigits(d)
    requires t == [] || !IsDigit(t[0])
    ensures SerSearch(p + SER + d + t) == Some(d)
  {
    JoinLine(p, d, t);
    SerSearchAfter(p, d + t);
    DigitRunOf(d, t);
  }

  lemma JoinLine(p: string, d: string, t: string)
    ensures p + SER + d + t == p + (SER + (d + t))
  {
  }

  /** `SER=` placed after a prefix without a match, and followed by a
      digit, is the leftmost match. */
  lemma SerSearchAfter(p: string, u: string)
    requires forall i :: !SerAt(p, i)
    requires |u| > 0 && IsDigit(u[0])
    ensures SerSearch(p + (SER + u)) == Some(DigitRun(u))
  {
    MatchAfter(p, u);
    SerSearchFirst(p + (SER + u), |p|);
  }

  lemma MatchAfter(p: string, u: string)
    requires forall i :: !SerAt(p, i)
    requires |u| > 0 && IsDigit(u[0])
    ensures FirstSer(p + (SER + u), |p|) && (p + (SER + u))[|p| + 4..] == u
  {
    var rest := SER + u;
    var s := p + rest;
    SerPrefix(u);
    NoSerBefore(p, rest);
    assert forall k :: 0 <= k < 5 ==> s[|p| + k] == rest[k];
    assert SerAt(s, |p|);
    assert s[|p| + 4..] == u;
  }

  // ---------------------------------------------------------------------
  // detect_teensy_ports()

  /** The key a serial number is stored under, if any. */
  function SerialKey(serial: string): (k: Option<string>)
    ensures k.Some? <==> serial == LOCAL_A_SERIAL || serial == LOCAL_B_SERIAL
    ensures serial == LOCAL_A_SERIAL ==> k == Some("teensy_a")
    ensures serial == LOCAL_B_SERIAL ==> k == Some("teensy_b")
  {
    if serial == LOCAL_A_SERIAL then Some("teensy_a")
    else if serial == LOCAL_B_SERIAL then Some("teensy_b")
    else None
  }

  /** The loop's state: the port line awaiting its serial, and the result. */
  datatype ScanState = ScanState(current: Option<string>, ports: map<string, string>)

  /** One line of the output: a port line becomes the current port; a
      `SER=` line seen with a current port stores that port under the key of
      its serial, if the serial is known, and clears the current port. */
  function Step(st: ScanState, line: string): ScanState {
    if StartsWith(line, PORT_PREFIX) then ScanState(Some(Strip(line)), st.ports)
    else if Truthy(st.current) && Contains(line, SER) then
      var key := match SerSearch(line) case None => None case Some(n) => SerialKey(n);
      ScanState(None, if key.Some? then st.ports[key.value := st.current.value] else st.ports)
    else st
  }

  /** The state after the given lines. */
  function Scan(lines: seq<string>): ScanState
    decreases |lines|
  {
    if lines == [] then ScanState(None, map[])
    else Step(Scan(lines[..|lines| - 1]), lines[|lines| - 1])
  }

  /** The dictionary `detect_teensy_ports()` returns for the command's
      output; a failed command gives the empty one. */
  function DetectedPorts(stdout: Option<string>): map<string, string> {
    if stdout.None? then map[] else Scan(Split(stdout.value, '\n')).ports
  }

  /** `detect_teensy_ports()`. */
  method DetectTeensyPorts(stdout: Option<string>) returns (ports: map<string, string>)
    ensures ports == DetectedPorts(stdout)
  {
    if stdout.None? {
      return map[];
    }
    var lines := Split(stdout.value, '\n');
    ports := map[];
    var current: Option<string> := None;
    var i := 0;
    while i < |lines|
      invariant 0 <= i <= |lines|
      invariant ScanState(current, ports) == Scan(lines[..i])
    {
      var line := lines[i];
      ghost var prev := ScanState(current, ports);
      if StartsWith(line, PORT_PREFIX) {
        current := Some(Strip(line));
      } else if Truthy(current) && Contains(line, SER) {
        var found := SerSearch(line);
        if found.Some? {
          if found.value == LOCAL_A_SERIAL {
            ports := ports["teensy_a" := current.value];
          } else if found.value == LOCAL_B_SERIAL {
            ports := ports["teensy_b" := current.value];
          }
        }
        current := None;
      }
      assert ScanState(current, ports) == Step(prev, line);
      ScanPrefix(lines, i);
      i := i + 1;
    }
    assert lines[..|lines|] == lines;
  }

  lemma ScanPrefix(lines: seq<string>, i: nat)
    requires i < |lines|
    ensures Scan(lines[..i + 1]) == Step(Scan(lines[..i]), lines[i])
  {
    assert lines[..i + 1][..i] == lines[..i];
  }

  /** The only keys are `teensy_a` and `teensy_b`. */
  lemma {:induction false} ScanKeys(lines: seq<string>)
    ensures forall k :: k in Scan(lines).ports ==> k == "teensy_a" || k == "teensy_b"
    decreases |lines|
  {
    if lines != [] {
      var prefix := lines[..|lines| - 1];
      ScanKeys(prefix);
      StepKeys(Scan(prefix), lines[|lines| - 1]);
    }
  }

  /** One line adds at most the key of a known serial. */
  lemma StepKeys(st: ScanState, line: string)
    requires forall k :: k in st.ports ==> k == "teensy_a" || k == "teensy_b"
    ensures forall k :: k in Step(st, line).ports ==> k == "teensy_a" || k == "teensy_b"
  {
    if !StartsWith(line, PORT_PREFIX) && Truthy(st.current) && Contains(line, SER) {
      var key := match SerSearch(line) case None => None case Some(n) => SerialKey(n);
      assert key.Some? ==> key.value == "teensy_a" || key.value == "teensy_b";
    }
  }

  /** Every key of the detection result is `teensy_a` or `teensy_b`. */
  lemma DetectedKeysBounded(stdout: Option<string>)
    ensures forall k :: k in DetectedPorts(stdout) ==> k == "teensy_a" || k == "teensy_b"
  {
    if stdout.Some? {
      ScanKeys(Split(stdout.value, '\n'));
    }
  }

  /** A port line is never empty once stripped, so it always counts as a
      current port. */
  lemma PortLineTruthy(line: string)
    requires StartsWith(line, PORT_PREFIX)
    ensures Truthy(Some(Strip(line)))
  {
    assert line[0] == '/';
    assert !IsSpace(line[0]);
    var l := StripLeft(line);
    assert l == line;
    assert |StripRight(l)| > 0;
  }

  lemma ScanSnoc2(lines: seq<string>, a: string, b: string)
    ensures Scan(lines + [a, b]) == Step(Step(Scan(lines), a), b)
  {
    assert (lines + [a, b])[..|lines| + 1] == lines + [a];
    assert (lines + [a])[..|lines|] == lines;
  }

  /** A port line followed by a serial line stores the stripped port under
      the serial's key (overwriting an earlier board), or nothing for an
      unknown serial, and leaves no current port. */
  lemma PairRecorded(lines: seq<string>, portLine: string, serLine: string)
    requires StartsWith(portLine, PORT_PREFIX)
    requires !StartsWith(serLine, PORT_PREFIX) && Contains(serLine, SER)
    ensures var before := Scan(lines).ports;
      var key := match SerSearch(serLine) case None => None case Some(n) => SerialKey(n);
      Scan(lines + [portLine, serLine])
        == ScanState(None, if key.Some? then before[key.value := Strip(portLine)] else before)
  {
    ScanSnoc2(lines, portLine, serLine);
    PortLineTruthy(portLine);
  }

  /** Each port line pairs with at most one serial line: after a `SER=`
      line, a second one before the next port line is ignored. */
  lemma SecondSerialIgnored(lines: seq<string>, ser1: string, ser2: string)
    requires !StartsWith(ser1, PORT_PREFIX) && Contains(ser1, SER)
    requires !StartsWith(ser2, PORT_PREFIX)
    ensures Scan(lines + [ser1, ser2]) == Scan(lines + [ser1])
  {
    ScanSnoc2(lines, ser1, ser2);
    assert (lines + [ser1])[..|lines|] == lines;
  }

  // ---------------------------------------------------------------------
  // The script's pulse command

  /** `CommandPacket(CMD_LED_PULSE, 1, [strip_id]).to_bytes()`: the strip
      is not normalised. */
  function LocalPulse(stripId: int): Result<Frame> {
    Encode(Packet(CMD_LED_PULSE, 1, [stripId], 0))
  }

  /** For strips 0..7 the script sends the shared pulse frame; for 8..255 a
      frame with the raw strip; outside 0..255 `bytes()` raises
      ValueError. */
  lemma LocalPulseAgainstShared(stripId: int)
    ensures 0 <= stripId < NUM_STRIPS_PER_TEENSY ==> LocalPulse(stripId) == Ok(PulseBytes(stripId))
    ensures NUM_STRIPS_PER_TEENSY <= stripId < 256 ==>
      LocalPulse(stripId).Ok? && LocalPulse(stripId).value[2] == stripId
      && LocalPulse(stripId) != Ok(PulseBytes(stripId))
    ensures (stripId < 0 || stripId > 255) ==> LocalPulse(stripId) == Err(ValueError)
  {
    var p := Packet(CMD_LED_PULSE, 1, [stripId], 0);
    PulseBytesEncoded(stripId);
    if 0 <= stripId < NUM_STRIPS_PER_TEENSY {
      assert p == CreateLedPulsePacket(stripId);
    } else if NUM_STRIPS_PER_TEENSY <= stripId < 256 {
      EncodeSucceeds(p);
      EncodeLayout(p);
      PulseFrame(stripId);
      assert Pad([stripId])[0] == stripId;
      assert LocalPulse(stripId).value[2] == stripId;
      assert PulseBytes(stripId)[2] == ValidatedStripId(stripId) < NUM_STRIPS_PER_TEENSY;
    } else {
      assert !IsByte(p.data[0]);
    }
  }

  /** What `send_led_command_to_teensy_b(strip)` does to B: when B is set,
      the frame is written if it could be built and B accepts writes. */
  twostate predicate LocalSendOutcome(b: Serial?, stripId: int)
    reads b
  {
    b != null ==>
      var f := LocalPulse(stripId);
      Sent(b, if f.Ok? then f.value else [], f.Ok? && old(Writable(b)))
  }

  class DualTeensyTester {
    var baudrate: int
    var teensyAPort: Option<string>
    var teensyBPort: Option<string>
    var teensyA: Serial?
    var teensyB: Serial?
    var running: bool

    predicate Valid()
      reads this
    {
      teensyA != null && teensyB != null ==> teensyA != teensyB
    }

    constructor (baudrate: int)
      ensures Valid() && this.baudrate == baudrate
      ensures teensyAPort == None && teensyBPort == None && teensyA == null && teensyB == null
      ensures !running
    {
      this.baudrate := baudrate;
      teensyAPort, teensyBPort := None, None;
      teensyA, teensyB := null, null;
      running := false;
    }

    /** The opening half of `connect()`: A, then B; a failure on B closes
        A. */
    method OpenBoards(a: string, b: string, unopenable: set<string>) returns (ok: bool)
      requires Valid()
      modifies this
      ensures Valid()
      ensures ok <==> a !in unopenable && b !in unopenable
      ensures teensyAPort == Some(a) && teensyBPort == Some(b)
      ensures running == old(running) && baudrate == old(baudrate)
      ensures a in unopenable ==> teensyA == old(teensyA) && teensyB == old(teensyB)
      ensures a !in unopenable ==> fresh(teensyA) && teensyA.device == a
      ensures a !in unopenable && b in unopenable ==>
        !teensyA.isOpen && teensyA.closeCount == 1 && teensyB == old(teensyB)
      ensures ok ==> fresh(teensyB) && teensyB.device == b && Writable(teensyA) && Writable(teensyB)
    {
      teensyAPort, teensyBPort := Some(a), Some(b);
      if a in unopenable {
        return false;
      }
      teensyA := new Serial.Open(a);
      if b in unopenable {
        teensyA.Close();
        return false;
      }
      teensyB := new Serial.Open(b);
      return true;
    }

    /** `connect()`: both boards must appear in the `pio device list`
        output and open. */
    method Connect(stdout: Option<string>, unopenable: set<string>) returns (ok: bool)
      requires Valid()
      modifies this
      ensures Valid()
      ensures ok <==> "teensy_a" in DetectedPorts(stdout) && "teensy_b" in DetectedPorts(stdout)
                      && DetectedPorts(stdout)["teensy_a"] !in unopenable
                      && DetectedPorts(stdout)["teensy_b"] !in unopenable
      ensures running == old(running) && baudrate == old(baudrate)
      ensures !("teensy_a" in DetectedPorts(stdout) && "teensy_b" in DetectedPorts(stdout)) ==>
        teensyAPort == old(teensyAPort) && teensyBPort == old(teensyBPort)
        && teensyA == old(teensyA) && teensyB == old(teensyB)
      ensures ok ==>
        fresh(teensyA) && fresh(teensyB)
        && teensyA.device == DetectedPorts(stdout)["teensy_a"]
        && teensyB.device == DetectedPorts(stdout)["teensy_b"]
        && Writable(teensyA) && Writable(teensyB)
    {
      var found := DetectTeensyPorts(stdout);
      if "teensy_a" !in found || "teensy_b" !in found {
        return false;
      }
      ok := OpenBoards(found["teensy_a"], found["teensy_b"], unopenable);
    }

    /** `send_led_command_to_teensy_b(strip_id)`: nothing without B;
        otherwise the frame is built first, and a strip outside 0..255
        raises ValueError there, before the guarded write. */
    method SendToTeensyB(stripId: int) returns (raised: Option<PyError>)
      modifies teensyB
      ensures raised.Some? <==> teensyB != null && LocalPulse(stripId).Err?
      ensures raised.Some? ==> raised.value == LocalPulse(stripId).error
      ensures LocalSendOutcome(teensyB, stripId)
    {
      if teensyB == null {
        return None;
      }
      var pkt := new CommandPacket(CMD_LED_PULSE, 1, Some([stripId]), 0);
      var bytes := pkt.ToBytes();
      if bytes.Err? {
        return Some(bytes.error);
      }
      var sent := teensyB.Write(bytes.value);
      return None;
    }

    /** The monitor's `try` for one line from A: a button line sends its
        strip to B; an exception from building the frame is caught. */
    method HandleLine(bytes: seq<Byte>)
      requires Valid()
      modifies teensyB
      ensures LineAction(bytes).Some? ==> LocalSendOutcome(teensyB, LineAction(bytes).value)
      ensures LineAction(bytes).None? ==> teensyB != null ==> Sent(teensyB, [], false)
    {
      var action := LineAction(bytes);
      if action.Some? {
        var raised := SendToTeensyB(action.value);
      }
    }

    /** One pass of the `monitor_teensy_a` loop. */
    method MonitorStep() returns (alive: bool, line: Option<seq<Byte>>)
      requires Valid()
      modifies teensyA, teensyB
      ensures alive <==> running && (teensyA == null || old(teensyA.isOpen))
      ensures line.Some? <==> alive && teensyA != null && old(teensyA.rx) != []
      ensures line.Some? ==>
        line.value == old(teensyA.rx)[..LineLength(old(teensyA.rx))]
        && teensyA.rx == old(teensyA.rx)[LineLength(old(teensyA.rx))..]
      ensures line.None? ==>
        (teensyA != null ==> Sent(teensyA, [], false)) && (teensyB != null ==> Sent(teensyB, [], false))
      ensures line.Some? && LineAction(line.value).Some? ==>
        LocalSendOutcome(teensyB, LineAction(line.value).value)
      ensures line.Some? && LineAction(line.value).None? ==>
        teensyB != null ==> Sent(teensyB, [], false)
    {
      line := None;
      if !running {
        return false, None;
      }
      if teensyA == null {
        return true, None;
      }
      var waiting := teensyA.InWaiting();
      if waiting.Err? {
        return false, None;
      }
      alive := true;
      if waiting.value > 0 {
        var read := teensyA.ReadLine();
        line := Some(read.value);
        HandleLine(read.value);
      }
    }
  }
}
