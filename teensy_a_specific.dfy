/** Board A's own command handling and sensor report
    (led_controller/src/teensy_a/teensy_a_specific.cpp). The analog and
    digital sensor reads are inputs; the text `handleButtonLedCommand`
    prints is modelled as the list of commands it has handled. */
module TeensyASpecific {
  import opened Bits
  import opened Py
  import Protocol
  import opened Communication

  const SENSOR_READ_INTERVAL_MS := 100
  const SENSOR_ID := 0x01
  const SENSOR_DATA_LENGTH := 4

  /** The five fields `handleButtonLedCommand` takes from a frame. */
  datatype ButtonLedCommand = ButtonLedCommand(buttonId: Byte, brightness: Byte, r: Byte, g: Byte, b: Byte)

  /** `handleButtonLedCommand(packet)`: the button, brightness and colour
      are the first five payload bytes, whatever `data_length` says. */
  function HandleButtonLedCommand(p: Struct): (c: ButtonLedCommand)
    ensures [c.buttonId, c.brightness, c.r, c.g, c.b] == Image(p)[2..7]
  {
    ButtonLedCommand(p.data[0], p.data[1], p.data[2], p.data[3], p.data[4])
  }

  /** `digitalRead` as a byte: 1 for HIGH, 0 for LOW. */
  function DigitalByte(high: bool): Byte {
    if high then 1 else 0
  }

  /** The four bytes `readAndSendSensorData` sends: the sensor id, the
      analog value's second and first bytes (`(v >> 8) & 0xFF`, `v & 0xFF`)
      and the digital reading. */
  function SensorPayload(v: Word32, high: bool): (d: seq<Byte>)
    ensures d == [SENSOR_ID, v / 256 % 256, v % 256, DigitalByte(high)]
  {
    assert Pow2(8) == 256 && Pow2(0) == 1;
    [SENSOR_ID, ByteOf(v, 8), ByteOf(v, 0), DigitalByte(high)]
  }

  /** A 16-bit reading is the two middle bytes read as a big-endian number. */
  lemma SensorValueInPayload(v: Word32, high: bool)
    requires v < 0x1_0000
    ensures var d := SensorPayload(v, high);
      d[1] as int * 256 + d[2] as int == v && d[0] == SENSOR_ID && d[3] == (if high then 1 else 0)
  {
    SplitWord16(v);
  }

  lemma SplitWord16(v: nat)
    requires v < 0x1_0000
    ensures v / 256 % 256 * 256 + v % 256 == v
  {
    assert v / 256 < 256;
  }

  /** `millis() - lastSensorRead > 100` in unsigned 32-bit arithmetic. */
  predicate SensorReadDue(last: Word32, now: Word32) {
    Elapsed(last, now) > SENSOR_READ_INTERVAL_MS
  }

  /** Counting `k` milliseconds from the last read, across a wrap of
      `millis()` or not, the next read is due exactly when `k > 100`. */
  lemma SensorReadDueAfter(last: Word32, k: Word32)
    ensures SensorReadDue(last, (last + k) % WORD) <==> k > SENSOR_READ_INTERVAL_MS
  {
    if last + k >= WORD {
      assert (last + k) % WORD == last + k - WORD;
      assert ((last + k - WORD) - last) % WORD == k;
    }
  }

  /** `readAndSendSensorData()`: one `CMD_SENSOR_DATA` frame of length 4. */
  method ReadAndSendSensorData(comm: Comm, v: Word32, high: bool, stale: Struct)
    modifies comm
    ensures comm.tx == old(comm.tx) + Image(Sent(Protocol.CMD_SENSOR_DATA, SensorPayload(v, high), SENSOR_DATA_LENGTH, stale, []))
    ensures comm.rx == old(comm.rx) && comm.lastHeartbeat == old(comm.lastHeartbeat)
  {
    var sensorData := [SENSOR_ID, ByteOf(v, 8), ByteOf(v, 0), DigitalByte(high)];
    assert sensorData == SensorPayload(v, high) by {
      assert Pow2(8) == 256 && Pow2(0) == 1;
    }
    comm.SendCommand(Protocol.CMD_SENSOR_DATA, sensorData, SENSOR_DATA_LENGTH, stale, []);
  }

  /** The sensor frame carries the payload and the host's checksum of it. */
  lemma SensorFrameLayout(v: Word32, high: bool, stale: Struct, after: seq<Byte>)
    ensures var m := Image(Sent(Protocol.CMD_SENSOR_DATA, SensorPayload(v, high), SENSOR_DATA_LENGTH, stale, after));
      m[0] == Protocol.CMD_SENSOR_DATA && m[1] == 4 && m[2..6] == SensorPayload(v, high)
      && Protocol.Checksum(Protocol.CMD_SENSOR_DATA, 4, SensorPayload(v, high)) == Ok(m[34] as int)
  {
    SentLayout(Protocol.CMD_SENSOR_DATA, SensorPayload(v, high), SENSOR_DATA_LENGTH, stale, after);
    assert SensorPayload(v, high)[..4] == SensorPayload(v, high);
  }

  /** The state of `loopTeensyA`: the commands handled so far and the static
      `lastSensorRead`. */
  class TeensyA {
    var handled: seq<ButtonLedCommand>
    var lastSensorRead: Word32

    constructor ()
      ensures handled == [] && lastSensorRead == 0
    {
      handled := [];
      lastSensorRead := 0;
    }

    /** `loopTeensyA()`: one `receiveCommand`; a valid `CMD_BUTTON_LED`
        frame is handled and every other frame ignored; then the sensor
        timestamp moves to `now` when more than 100 ms have passed (the
        sensor report itself is disabled in this loop). */
    method LoopTeensyA(comm: Comm, stale: Struct, after: seq<Byte>, now: Word32)
      requires |after| >= MAX_OVERREAD
      modifies this, comm
      ensures comm.rx == Remaining(old(comm.rx)) && comm.tx == old(comm.tx)
      ensures var frame := Accepted(old(comm.rx), after);
        handled == old(handled)
          + (if frame.Some? && frame.value.command == Protocol.CMD_BUTTON_LED
             then [HandleButtonLedCommand(frame.value)] else [])
      ensures lastSensorRead == if SensorReadDue(old(lastSensorRead), now) then now else old(lastSensorRead)
    {
      var ok, packet := comm.ReceiveCommand(stale, after);
      if ok && packet.command == Protocol.CMD_BUTTON_LED {
        handled := handled + [HandleButtonLedCommand(packet)];
      }
      if Elapsed(lastSensorRead, now) > SENSOR_READ_INTERVAL_MS {
        lastSensorRead := now;
      }
    }
  }
}
