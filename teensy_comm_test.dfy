/** The binary-mode board A monitor
    (led_controller/raspberry_pi/test_teensy_communication.py): its own
    frame decoder, which accepts longer inputs and keeps all 32 payload
    bytes, the 5-byte button-LED command, the guarded packet read, the
    decoding of received packets, and the port guess. The interactive
    `main` and the monitor loop are not modelled. */
module TeensyCommTest {
  import opened Py
  import opened Bits
  import opened Protocol
  import Communication
  import opened DeviceUtils
  import opened SerialHandle

  const DEFAULT_PORT := "/dev/ttyACM0"

  /** `CommandPacket.from_bytes(data_bytes)`: None for fewer than 35
      bytes; otherwise bytes 0..34 make a packet with all 32 payload bytes,
      which is None unless its checksum byte matches. The checksum loop
      runs past the payload for a length above 32 (IndexError). */
  function FromBytes(b: seq<Byte>): (r: Result<Option<Packet>>)
    ensures |b| < FRAME_SIZE ==> r == Ok(None)
    ensures |b| >= FRAME_SIZE && b[1] > DATA_SIZE ==> r == Err(IndexError)
    ensures |b| >= FRAME_SIZE && b[1] <= DATA_SIZE ==>
      r.Ok? && (r.value.Some? <==> b[34] as int == Checksum(b[0], b[1], b[2..34]).value)
    ensures r.Ok? && r.value.Some? ==>
      r.value.value == Packet(b[0], b[1], b[2..34], b[34]) && |r.value.value.data| == DATA_SIZE
    ensures r.Err? ==> r.error == IndexError
  {
    if |b| < FRAME_SIZE then Ok(None)
    else
      var p := Packet(b[0], b[1], b[2..34], b[34]);
      match Checksum(p.command, p.dataLength, p.data)
      case Err(e) => Err(e)
      case Ok(expected) => if p.checksum != expected then Ok(None) else Ok(Some(p))
  }

  /** Bytes after the 35th are ignored. */
  lemma FromBytesIgnoresTail(b: seq<Byte>)
    requires |b| >= FRAME_SIZE
    ensures FromBytes(b) == FromBytes(b[..FRAME_SIZE])
  {
    assert b[..FRAME_SIZE][2..34] == b[2..34];
  }

  /** Every frame the shared encoder builds is accepted, with its payload
      zero-padded to 32 bytes. */
  lemma AcceptsEncoded(p: Packet)
    requires Sendable(p)
    ensures Encode(p).Ok?
    ensures FromBytes(Encode(p).value)
            == Ok(Some(Packet(p.command, p.dataLength, Pad(p.data), Checksum(p.command, p.dataLength, p.data).value)))
  {
    EncodeSucceeds(p);
    EncodeLayout(p);
    var f := Encode(p).value;
    var c := Checksum(p.command, p.dataLength, p.data).value;
    var n := p.dataLength;
    assert f[2..34] == Pad(p.data);
    assert Covered(n, Pad(p.data)) == Covered(n, p.data) by {
      assert Pad(p.data)[..n] == p.data[..n];
    }
  }

  // ---------------------------------------------------------------------
  // send_button_led_command

  /** The packet `send_button_led_command` builds: length 5, payload
      `[button_id, brightness, r, g, b]` and 27 zeros. */
  function ButtonLedPacket(buttonId: int, r: int, g: int, b: int, brightness: int): Packet {
    Packet(CMD_BUTTON_LED, 5, [buttonId, brightness, r, g, b] + Zeros(27), 0)
  }

  /** The frame: built when all five values are bytes, ValueError from
      `bytes()` otherwise; its checksum covers the five values. */
  lemma ButtonLedFrame(buttonId: int, r: int, g: int, b: int, brightness: int)
    ensures var f := Encode(ButtonLedPacket(buttonId, r, g, b, brightness));
      var vals := [buttonId, brightness, r, g, b];
      (f.Ok? <==> AllBytes(vals))
      && (f.Err? ==> f.error == ValueError)
      && (f.Ok? ==>
            f.value[0] == CMD_BUTTON_LED && f.value[1] == 5 && f.value[2..7] == vals
            && (forall i :: 7 <= i < 34 ==> f.value[i] == 0)
            && f.value[34] as int == XorFold(PyXor(PyXor(0, CMD_BUTTON_LED), 5), vals))
  {
    var p := ButtonLedPacket(buttonId, r, g, b, brightness);
    var vals := [buttonId, brightness, r, g, b];
    assert |p.data| == DATA_SIZE;
    assert Covered(5, p.data) == vals;
    assert p.data[..5] == vals;
    if AllBytes(vals) {
      assert AllBytes(p.data);
      EncodeSucceeds(p);
      EncodeLayout(p);
      assert Pad(p.data) == p.data;
    } else {
      var k :| 0 <= k < 5 && !IsByte(vals[k]);
      assert p.data[k] == vals[k];
      assert !AllBytes(p.data);
    }
  }

  // ---------------------------------------------------------------------
  // handle_packet

  /** The LED colours of the first four buttons. */
  const FEEDBACK_COLOURS: seq<(int, int, int)> := [(255, 0, 0), (0, 255, 0), (0, 0, 255), (255, 255, 0)]

  /** What `handle_packet` makes of one packet. */
  datatype Report =
    | ButtonPressed(buttonId: int)
    | SensorData(sensorId: int, analog: int, digital: int)
    | Heartbeat(timestamp: int)
    | ShortPayload
    | UnknownCommand(command: int)

  /** `(data[1] << 8) | data[2]`. */
  function AnalogValue(hi: Byte, lo: Byte): (v: nat)
    ensures v == hi * 256 + lo
  {
    assert Pow2(8) == 256;
    OrShift(hi, lo, 8);
    OrNat(hi * 256, lo)
  }

  /** `(data[0] << 24) | (data[1] << 16) | (data[2] << 8) | data[3]`. */
  function TimestampValue(d: seq<Byte>): (v: nat)
    requires |d| >= 4
    ensures v == Communication.BigEndianValue(d)
  {
    OrBytes(d[0] as int, d[1] as int, d[2] as int, d[3] as int);
    var d0: nat, d1: nat, d2: nat, d3: nat := d[0] as int, d[1] as int, d[2] as int, d[3] as int;
    OrNat(OrNat(OrNat(d0 * 0x100_0000, d1 * 0x1_0000), d2 * 0x100), d3)
  }

  /** The shifted bytes do not overlap, so or-ing them adds them. */
  lemma OrBytes(d0: nat, d1: nat, d2: nat, d3: nat)
    requires d1 < 0x100 && d2 < 0x100 && d3 < 0x100
    ensures OrNat(OrNat(OrNat(d0 * 0x100_0000, d1 * 0x1_0000), d2 * 0x100), d3)
            == d0 * 0x100_0000 + d1 * 0x1_0000 + d2 * 0x100 + d3
  {
    assert Pow2(8) == 0x100 && Pow2(16) == 0x1_0000 && Pow2(24) == 0x100_0000;
    var x := d0 * 0x100 + d1;
    var y := x * 0x100 + d2;
    OrShift(d0, d1 * 0x1_0000, 24);
    assert d0 * 0x100_0000 + d1 * 0x1_0000 == x * 0x1_0000;
    OrShift(x, d2 * 0x100, 16);
    assert x * 0x1_0000 + d2 * 0x100 == y * 0x100;
    OrShift(y, d3, 8);
  }

  /** The branch `handle_packet` takes for a packet from `FromBytes`. */
  function PacketReport(p: Packet): (r: Report)
    requires |p.data| == DATA_SIZE && AllBytes(p.data)
  {
    if p.command == CMD_BUTTON_PRESS then
      ButtonPressed(if p.dataLength > 0 then p.data[0] else 0)
    else if p.command == CMD_SENSOR_DATA then
      if p.dataLength >= 4 then SensorData(p.data[0], AnalogValue(p.data[1], p.data[2]), p.data[3])
      else ShortPayload
    else if p.command == CMD_HEARTBEAT then
      if p.dataLength >= 4 then Heartbeat(TimestampValue(p.data)) else ShortPayload
    else UnknownCommand(p.command)
  }

  /** The colour fed back for a button: only the first four buttons get
      one. */
  function Feedback(buttonId: int): (c: Option<(int, int, int)>)
    ensures c.Some? <==> 0 <= buttonId < |FEEDBACK_COLOURS|
  {
    if 0 <= buttonId < |FEEDBACK_COLOURS| then Some(FEEDBACK_COLOURS[buttonId]) else None
  }

  /** A heartbeat whose payload starts with the big-endian bytes of `now`
      reports `now`. */
  lemma HeartbeatReport(p: Packet, now: Communication.Word32)
    requires p.command == CMD_HEARTBEAT && p.dataLength >= 4
    requires |p.data| == DATA_SIZE && AllBytes(p.data)
    requires p.data[..4] == Communication.BigEndian4(now)
    ensures PacketReport(p) == Heartbeat(now)
  {
    var d := Communication.BigEndian4(now);
    assert forall i :: 0 <= i < 4 ==> p.data[i] == p.data[..4][i];
    assert Communication.BigEndianValue(p.data) == Communication.BigEndianValue(d);
    Communication.BigEndianRoundTrip(now);
  }

  /** A sensor frame whose payload starts with the sensor id, the two bytes
      of a 16-bit reading and the digital reading reports those values. */
  lemma SensorReport(p: Packet, v: nat, digital: Byte)
    requires p.command == CMD_SENSOR_DATA && p.dataLength >= 4
    requires |p.data| == DATA_SIZE && AllBytes(p.data)
    requires v < 0x1_0000 && p.data[..4] == [1, v / 256, v % 256, digital]
    ensures PacketReport(p) == SensorData(1, v, digital)
  {
    assert forall i :: 0 <= i < 4 ==> p.data[i] == p.data[..4][i];
  }

  class TeensyAMonitor {
    const port: string
    const baudrate: int
    var ser: Serial?
    var running: bool

    constructor (port: string, baudrate: int)
      ensures this.port == port && this.baudrate == baudrate && ser == null && !running
    {
      this.port := port;
      this.baudrate := baudrate;
      ser := null;
      running := false;
    }

    /** `send_button_led_command(...)`: nothing unless connected; the
        frame's `bytes()` raises ValueError for a value outside 0..255, and
        a failing write raises, outside any `try`. */
    method SendButtonLedCommand(buttonId: int, r: int, g: int, b: int, brightness: int)
      returns (raised: Option<PyError>)
      modifies ser
      ensures ser == null || !old(ser.isOpen) ==> raised == None
      ensures ser != null ==>
        var f := Encode(ButtonLedPacket(buttonId, r, g, b, brightness));
        var written := old(ser.isOpen) && f.Ok? && !old(ser.writeFails);
        Sent(ser, if f.Ok? then f.value else [], written)
        && (raised.Some? <==> old(ser.isOpen) && !written)
        && (raised.Some? && f.Err? ==> raised.value == f.error)
        && (raised.Some? && f.Ok? ==> raised.value == SerialException)
    {
      if ser == null || !ser.isOpen {
        return None;
      }
      var packet := ButtonLedPacket(buttonId, r, g, b, brightness);
      var pkt := new CommandPacket(packet.command, packet.dataLength, Some(packet.data), 0);
      var bytes := pkt.ToBytes();
      if bytes.Err? {
        return Some(bytes.error);
      }
      var ok := ser.Write(bytes.value);
      if !ok {
        return Some(SerialException);
      }
      return None;
    }

    /** `read_packet()`: with a connected port and at least 35 bytes
        waiting, 35 are read and decoded, any exception giving None;
        otherwise nothing is read. */
    method ReadPacket() returns (p: Option<Packet>)
      modifies ser
      ensures ser == null || !old(ser.isOpen) || |old(ser.rx)| < FRAME_SIZE ==>
        p == None && (ser != null ==> ser.rx == old(ser.rx))
      ensures ser != null && old(ser.isOpen) && |old(ser.rx)| >= FRAME_SIZE ==>
        ser.rx == old(ser.rx)[FRAME_SIZE..]
        && p == (match FromBytes(old(ser.rx)[..FRAME_SIZE]) case Err(_) => None case Ok(q) => q)
      ensures ser != null ==> ser.tx == old(ser.tx) && ser.isOpen == old(ser.isOpen)
    {
      if ser == null || !ser.isOpen {
        return None;
      }
      var waiting := ser.InWaiting();
      if waiting.Err? || waiting.value < FRAME_SIZE {
        return None;
      }
      var data := ser.Read(FRAME_SIZE);
      if data.Err? {
        return None;
      }
      var decoded := FromBytes(data.value);
      if decoded.Err? {
        return None;
      }
      return decoded.value;
    }

    /** `handle_packet(packet)`: the report, and for a pressed button below
        4 the LED feedback sent back at full brightness. */
    method HandlePacket(packet: Packet) returns (report: Report, raised: Option<PyError>)
      requires |packet.data| == DATA_SIZE && AllBytes(packet.data)
      modifies ser
      ensures report == PacketReport(packet)
      ensures !(report.ButtonPressed? && Feedback(report.buttonId).Some?) ==>
        raised == None && (ser != null ==> Sent(ser, [], false))
      ensures report.ButtonPressed? && Feedback(report.buttonId).Some? && ser != null ==>
        var c := Feedback(report.buttonId).value;
        var f := Encode(ButtonLedPacket(report.buttonId, c.0, c.1, c.2, 255));
        f.Ok? && Sent(ser, f.value, old(ser.isOpen) && !old(ser.writeFails))
        && raised == (if old(ser.isOpen) && old(ser.writeFails) then Some(SerialException) else None)
    ensures report.ButtonPressed? && Feedback(report.buttonId).Some? && ser == null ==> raised == None
    {
      report := PacketReport(packet);
      raised := None;
      if report.ButtonPressed? {
        var colour := Feedback(report.buttonId);
        if colour.Some? {
          var c := colour.value;
          ButtonLedFrame(report.buttonId, c.0, c.1, c.2, 255);
          raised := SendButtonLedCommand(report.buttonId, c.0, c.1, c.2, 255);
        }
      }
    }
  }

  /** `'USB' in description or 'ACM' in device or 'tty' in device`. */
  predicate UsbLike(p: PortInfo) {
    Contains(p.description, "USB") || Contains(p.device, "ACM") || Contains(p.device, "tty")
  }

  predicate FirstUsbLike(ports: seq<PortInfo>, i: int) {
    0 <= i < |ports| && UsbLike(ports[i]) && forall j :: 0 <= j < i ==> !UsbLike(ports[j])
  }

  /** `find_teensy_port()`: the first USB-like port, else `/dev/ttyACM0`;
      never None. */
  function FindTeensyPort(ports: seq<PortInfo>): (r: string)
    ensures (forall i :: 0 <= i < |ports| ==> !UsbLike(ports[i])) ==> r == DEFAULT_PORT
    ensures (exists i :: 0 <= i < |ports| && UsbLike(ports[i])) ==>
      exists i :: FirstUsbLike(ports, i) && r == ports[i].device
  {
    if ports == [] then DEFAULT_PORT
    else if UsbLike(ports[0]) then
      assert FirstUsbLike(ports, 0);
      ports[0].device
    else
      var r := FindTeensyPort(ports[1..]);
      if exists i :: 0 <= i < |ports| && UsbLike(ports[i]) then
        var i :| 0 <= i < |ports| && UsbLike(ports[i]);
        assert UsbLike(ports[1..][i - 1]);
        var k :| FirstUsbLike(ports[1..], k) && r == ports[1..][k].device;
        assert FirstUsbLike(ports, k + 1);
        r
      else r
  }
}
