/** The host's 35-byte command frame (led_controller/raspberry_pi/utils/protocol.py):
    `command:u8 | data_length:u8 | data:u8[32] | checksum:u8`, where the
    checksum is the XOR of `command`, `data_length` and the first
    `data_length` data bytes. `CommandPacket` keeps Python's loose typing:
    its fields are arbitrary ints and `to_bytes` raises when they do not fit. */
module Protocol {
  import opened Py
  import opened Bits

  const CMD_LED_PULSE := 0x01
  const CMD_LED_EFFECT := 0x02
  const CMD_BUTTON_PRESS := 0x10
  const CMD_BUTTON_LED := 0x11
  const CMD_SENSOR_DATA := 0x20
  const CMD_HEARTBEAT := 0xFF

  /** 1 + 1 + 32 + 1 bytes. */
  const FRAME_SIZE := 35
  const DATA_SIZE := 32

  /** Strips driven by one receiver board (the firmware's NUM_LED_STRIPS;
      the host's config never defines the name it imports). */
  const NUM_STRIPS_PER_TEENSY := 8

  type Frame = s: seq<Byte> | |s| == FRAME_SIZE witness seq(FRAME_SIZE, _ => 0)

  /** The fields of a CommandPacket object. */
  datatype Packet = Packet(command: int, dataLength: int, data: seq<int>, checksum: int)

  function Zeros(n: nat): (z: seq<int>)
    ensures |z| == n && forall i :: 0 <= i < n ==> z[i] == 0
  {
    seq(n, _ => 0)
  }

  /** The data bytes the checksum loop visits: `range(data_length)` is empty
      for a negative length. */
  function Covered(dataLength: int, data: seq<int>): seq<int>
    requires dataLength <= |data|
  {
    if dataLength <= 0 then [] else data[..dataLength]
  }

  /** `calculate_checksum()`: XOR of command, length and `data[0..length)`;
      IndexError when the length runs past the data list. */
  function Checksum(command: int, dataLength: int, data: seq<int>): (r: Result<int>)
    ensures r.Err? <==> dataLength > |data|
    ensures r.Err? ==> r.error == IndexError
  {
    if dataLength > |data| then Err(IndexError)
    else Ok(XorFold(PyXor(PyXor(0, command), dataLength), Covered(dataLength, data)))
  }

  /** With byte-valued fields the checksum is itself a byte. */
  lemma ChecksumIsByte(command: int, dataLength: int, data: seq<int>)
    requires IsByte(command) && IsByte(dataLength) && dataLength <= |data| && AllBytes(data)
    ensures Checksum(command, dataLength, data).Ok?
    ensures IsByte(Checksum(command, dataLength, data).value)
  {
    XorByte(0, command);
    XorByte(command, dataLength);
    XorFoldByte(PyXor(PyXor(0, command), dataLength), Covered(dataLength, data));
  }

  /** `bytes(data)` packed as `32s`: truncated or zero-padded to 32 bytes. */
  function Pad(data: seq<int>): (r: seq<Byte>)
    requires AllBytes(data)
    ensures |r| == DATA_SIZE
    ensures forall i :: 0 <= i < DATA_SIZE ==> r[i] == if i < |data| then data[i] else 0
  {
    seq(DATA_SIZE, i requires 0 <= i < DATA_SIZE => if i < |data| then data[i] as Byte else 0)
  }

  /** `struct.pack('BB32sB', command, data_length, bytes(data), checksum)`:
      `bytes()` raises ValueError on a non-byte element, `pack` raises
      struct.error on a non-byte field. */
  function Pack(command: int, dataLength: int, data: seq<int>, checksum: int): (r: Result<Frame>)
    ensures r.Ok? <==> AllBytes(data) && IsByte(command) && IsByte(dataLength) && IsByte(checksum)
    ensures r.Ok? ==> r.value[0] == command && r.value[1] == dataLength
                      && r.value[2..34] == Pad(data) && r.value[34] == checksum
  {
    if !AllBytes(data) then Err(ValueError)
    else if !(IsByte(command) && IsByte(dataLength) && IsByte(checksum)) then Err(StructError)
    else Ok([command as Byte, dataLength as Byte] + Pad(data) + [checksum as Byte])
  }

  /** What `to_bytes()` returns: the checksum is recomputed, then packed. */
  function Encode(p: Packet): Result<Frame> {
    match Checksum(p.command, p.dataLength, p.data)
    case Err(e) => Err(e)
    case Ok(c) => Pack(p.command, p.dataLength, p.data, c)
  }

  /** `from_bytes()`: ValueError unless exactly 35 bytes; the data keeps only
      the first `data_length` payload bytes; the recomputed checksum runs past
      that list (IndexError) for a length above 32; ValueError on a checksum
      mismatch. */
  function Decode(bytes: seq<Byte>): (r: Result<Packet>)
    ensures |bytes| != FRAME_SIZE ==> r == Err(ValueError)
    ensures |bytes| == FRAME_SIZE && bytes[1] > DATA_SIZE ==> r == Err(IndexError)
    ensures r.Ok? ==> |bytes| == FRAME_SIZE && bytes[1] <= DATA_SIZE
                      && r.value == Packet(bytes[0], bytes[1], bytes[2..2 + bytes[1]], bytes[34])
    ensures |bytes| == FRAME_SIZE && bytes[1] <= DATA_SIZE ==>
      (r.Ok? <==> Checksum(bytes[0], bytes[1], bytes[2..2 + bytes[1]]) == Ok(bytes[34] as int))
      && (r.Err? ==> r.error == ValueError)
  {
    if |bytes| != FRAME_SIZE then Err(ValueError)
    else
      var command, dataLength, payload, checksum := bytes[0], bytes[1], bytes[2..34], bytes[34];
      var data := if dataLength <= DATA_SIZE then payload[..dataLength] else payload;
      assert dataLength <= DATA_SIZE ==> data == bytes[2..2 + dataLength];
      match Checksum(command, dataLength, data)
      case Err(e) => Err(e)
      case Ok(expected) =>
        if checksum != expected then Err(ValueError)
        else Ok(Packet(command, dataLength, data, checksum))
  }

  /** A packet the host can send: every field a byte, a length within the
      32-byte payload and covered by the data list. */
  predicate Sendable(p: Packet) {
    IsByte(p.command) && 0 <= p.dataLength <= DATA_SIZE && p.dataLength <= |p.data|
    && AllBytes(p.data)
  }

  /** `to_bytes()` succeeds exactly when every field is a byte and the length
      is covered by the data list; it raises IndexError when the length runs
      past the data. */
  lemma EncodeSucceeds(p: Packet)
    ensures Encode(p).Ok? <==>
      IsByte(p.command) && IsByte(p.dataLength) && p.dataLength <= |p.data| && AllBytes(p.data)
    ensures p.dataLength > |p.data| ==> Encode(p) == Err(IndexError)
  {
    if IsByte(p.command) && IsByte(p.dataLength) && p.dataLength <= |p.data| && AllBytes(p.data) {
      ChecksumIsByte(p.command, p.dataLength, p.data);
    }
  }

  /** The frame layout: command, length, the 32 data bytes zero-padded or
      truncated, then the checksum. */
  lemma EncodeLayout(p: Packet)
    requires IsByte(p.command) && IsByte(p.dataLength) && p.dataLength <= |p.data| && AllBytes(p.data)
    ensures Encode(p).Ok?
    ensures var f := Encode(p).value;
      f[0] == p.command && f[1] == p.dataLength && f[2..34] == Pad(p.data)
      && Ok(f[34] as int) == Checksum(p.command, p.dataLength, p.data)
  {
    ChecksumIsByte(p.command, p.dataLength, p.data);
  }

  /** Round trip: decoding an encoded packet gives back its command, length
      and checksum, and the first `data_length` data bytes. */
  lemma RoundTrip(p: Packet)
    requires Sendable(p)
    ensures Encode(p).Ok?
    ensures Decode(Encode(p).value) ==
      Ok(Packet(p.command, p.dataLength, p.data[..p.dataLength],
                Checksum(p.command, p.dataLength, p.data).value))
  {
    EncodeLayout(p);
    var f := Encode(p).value;
    var n := p.dataLength;
    var payload := f[2..34];
    assert payload[..n] == p.data[..n];
    assert Covered(n, payload[..n]) == Covered(n, p.data);
  }

  /** Changing the command byte of an encoded frame makes it undecodable. */
  lemma CommandTamperDetected(p: Packet, c: Byte)
    requires Sendable(p) && c != p.command
    ensures Encode(p).Ok?
    ensures Decode(Encode(p).value[0 := c]) == Err(ValueError)
  {
    EncodeLayout(p);
    var f := Encode(p).value;
    var g := f[0 := c];
    var n := p.dataLength;
    assert g[1] == n && g[34] == f[34] && g[2..2 + n] == f[2..2 + n];
    assert f[2..2 + n] == p.data[..n];
    assert Covered(n, g[2..2 + n]) == Covered(n, p.data);
    XorNatInjective(n, c, p.command);
    XorByte(c, n);
    XorByte(p.command, n);
    XorFoldAccInjective(PyXor(PyXor(0, c), n), PyXor(PyXor(0, p.command), n), Covered(n, p.data));
  }

  /** Changing any covered data byte of an encoded frame makes it
      undecodable. */
  lemma DataTamperDetected(p: Packet, k: nat, v: Byte)
    requires Sendable(p) && k < p.dataLength && v != p.data[k]
    ensures Encode(p).Ok?
    ensures Decode(Encode(p).value[2 + k := v]) == Err(ValueError)
  {
    EncodeLayout(p);
    var f := Encode(p).value;
    var g := f[2 + k := v];
    var n := p.dataLength;
    var acc := PyXor(PyXor(0, p.command), n);
    assert g[0] == f[0] && g[1] == n && g[34] == f[34];
    assert f[2..2 + n] == p.data[..n];
    assert g[2..2 + n] == p.data[..n][k := v];
    assert Covered(n, g[2..2 + n]) == p.data[..n][k := v];
    assert Covered(n, p.data) == p.data[..n];
    XorByte(0, p.command);
    XorByte(p.command, n);
    XorFoldChanged(acc, p.data[..n], k, v);
  }

  /** Changing the checksum byte of an encoded frame makes it undecodable. */
  lemma ChecksumTamperDetected(p: Packet, c: Byte)
    requires Sendable(p)
    ensures Encode(p).Ok?
    ensures c != Encode(p).value[34] ==> Decode(Encode(p).value[34 := c]) == Err(ValueError)
  {
    EncodeLayout(p);
    var f := Encode(p).value;
    var g := f[34 := c];
    assert g[2..2 + p.dataLength] == f[2..2 + p.dataLength] == p.data[..p.dataLength];
    assert Covered(p.dataLength, g[2..2 + p.dataLength]) == Covered(p.dataLength, p.data);
  }

  // ---------------------------------------------------------------------
  // Strip ids and packet builders

  /** `get_validated_strip_id`: Python's `%` with a positive modulus floors,
      as Dafny's does, so every int lands in `[0, 8)`. */
  function ValidatedStripId(stripId: int): (r: int)
    ensures 0 <= r < NUM_STRIPS_PER_TEENSY
    ensures 0 <= stripId < NUM_STRIPS_PER_TEENSY ==> r == stripId
    ensures (stripId - r) % NUM_STRIPS_PER_TEENSY == 0
  {
    stripId % NUM_STRIPS_PER_TEENSY
  }

  /** Normalising twice is normalising once. */
  lemma ValidatedStripIdIdempotent(stripId: int)
    ensures ValidatedStripId(ValidatedStripId(stripId)) == ValidatedStripId(stripId)
  {
  }

  /** Strip ids that differ by a multiple of 8 normalise alike. */
  lemma {:induction false} ValidatedStripIdPeriodic(stripId: int, k: int)
    ensures ValidatedStripId(stripId + k * NUM_STRIPS_PER_TEENSY) == ValidatedStripId(stripId)
    decreases if k < 0 then -k else k
  {
    if k > 0 {
      ValidatedStripIdPeriodic(stripId, k - 1);
      assert stripId + k * 8 == (stripId + (k - 1) * 8) + 8;
    } else if k < 0 {
      ValidatedStripIdPeriodic(stripId, k + 1);
      assert stripId + k * 8 == (stripId + (k + 1) * 8) - 8;
    }
  }

  /** `create_led_pulse_packet(strip_id)`. */
  function CreateLedPulsePacket(stripId: int): (p: Packet)
    ensures Sendable(p)
  {
    Packet(CMD_LED_PULSE, 1, [ValidatedStripId(stripId)], 0)
  }

  /** The pulse frame is `[0x01, 1, s, 0 x 31, s]` with `s` the normalised
      strip: the checksum `1 ^ 1 ^ s` is `s` itself. */
  lemma PulseFrame(stripId: int)
    ensures Encode(CreateLedPulsePacket(stripId)).Ok?
    ensures var f := Encode(CreateLedPulsePacket(stripId)).value;
      var s := ValidatedStripId(stripId);
      f[0] == CMD_LED_PULSE && f[1] == 1 && f[2] == s && f[34] == s
      && forall i :: 3 <= i < 34 ==> f[i] == 0
  {
    var p := CreateLedPulsePacket(stripId);
    EncodeLayout(p);
    var s := ValidatedStripId(stripId);
    assert PyXor(PyXor(0, 1), 1) == 0;
    assert Covered(1, p.data) == [s];
    assert XorFold(0, [s]) == PyXor(XorFold(0, []), s);
  }

  /** `create_led_effect_packet(strip_id, effect_type, *params)`. */
  function CreateLedEffectPacket(stripId: int, effectType: int, params: seq<int>): (p: Packet)
    ensures p.command == CMD_LED_EFFECT && p.dataLength == |p.data| == 2 + |params|
    ensures p.data[0] == ValidatedStripId(stripId) && p.data[1] == effectType
    ensures p.data[2..] == params
  {
    Packet(CMD_LED_EFFECT, 2 + |params|, [ValidatedStripId(stripId), effectType] + params, 0)
  }

  /** `create_button_led_packet(button_id, r, g, b)`. */
  function CreateButtonLedPacket(buttonId: int, r: int, g: int, b: int): (p: Packet)
    ensures p.command == CMD_BUTTON_LED && p.dataLength == |p.data| == 4
    ensures p.data == [buttonId, r, g, b]
  {
    Packet(CMD_BUTTON_LED, 4, [buttonId, r, g, b], 0)
  }

  // ---------------------------------------------------------------------
  // The mutable packet object

  /** A `CommandPacket` object; `to_bytes` rewrites its `checksum` field. */
  class CommandPacket {
    var command: int
    var dataLength: int
    var data: seq<int>
    var checksum: int

    function Fields(): Packet
      reads this
    {
      Packet(command, dataLength, data, checksum)
    }

    /** `CommandPacket(command, data_length, data, checksum)`; a missing data
        list becomes 32 zeros. */
    constructor (command: int, dataLength: int, data: Option<seq<int>>, checksum: int)
      ensures Fields() == Packet(command, dataLength, if data.Some? then data.value else Zeros(DATA_SIZE), checksum)
    {
      this.command := command;
      this.dataLength := dataLength;
      this.data := if data.Some? then data.value else Zeros(DATA_SIZE);
      this.checksum := checksum;
    }

    /** `calculate_checksum()`: the accumulator loop. */
    method CalculateChecksum() returns (r: Result<int>)
      ensures r == Checksum(command, dataLength, data)
    {
      var acc := PyXor(PyXor(0, command), dataLength);
      var i := 0;
      while i < dataLength
        invariant 0 <= i <= |data|
        invariant i == 0 || i <= dataLength
        invariant acc == XorFold(PyXor(PyXor(0, command), dataLength), data[..i])
      {
        if i >= |data| {
          return Err(IndexError);
        }
        assert data[..i + 1][..i] == data[..i];
        acc := PyXor(acc, data[i]);
        i := i + 1;
      }
      assert dataLength >= 0 ==> i == dataLength;
      return Ok(acc);
    }

    /** `to_bytes()`: stores the recomputed checksum (unless computing it
        raised), then packs the frame. */
    method ToBytes() returns (r: Result<Frame>)
      modifies this
      ensures command == old(command) && dataLength == old(dataLength) && data == old(data)
      ensures checksum == (match Checksum(command, dataLength, data)
                           case Ok(c) => c
                           case Err(_) => old(checksum))
      ensures r == Encode(old(Fields()))
    {
      var c := CalculateChecksum();
      if c.Err? {
        return Err(c.error);
      }
      checksum := c.value;
      r := Pack(command, dataLength, data, checksum);
    }

    /** `CommandPacket.from_bytes(bytes)`: builds the object, then checks it
        with its own `calculate_checksum()`. */
    static method FromBytes(bytes: seq<Byte>) returns (r: Result<CommandPacket>)
      ensures r.Ok? <==> Decode(bytes).Ok?
      ensures r.Ok? ==> fresh(r.value) && r.value.Fields() == Decode(bytes).value
      ensures r.Err? ==> r.error == Decode(bytes).error
    {
      if |bytes| != FRAME_SIZE {
        return Err(ValueError);
      }
      var dataLength := bytes[1];
      var payload := bytes[2..34];
      var data := if dataLength <= DATA_SIZE then payload[..dataLength] else payload;
      assert dataLength <= DATA_SIZE ==> data == bytes[2..2 + dataLength];
      var packet := new CommandPacket(bytes[0], dataLength, Some(data), bytes[34]);
      var expected := packet.CalculateChecksum();
      if expected.Err? {
        return Err(expected.error);
      }
      if bytes[34] != expected.value {
        return Err(ValueError);
      }
      return Ok(packet);
    }
  }
}
