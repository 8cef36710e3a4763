/** The firmware side of the command frame (led_controller/src/shared/
    communication.cpp): the packed `struct CommandPacket` written to and read
    from the USB serial port, its XOR checksum, and the once-a-second
    heartbeat.

    `calculateChecksum` reads `data[i]` for every `i < data_length`, and a
    received `data_length` can be anything up to 255, so the loop can run
    past the 32-byte array into the checksum field and the memory after the
    struct. The model makes those reads explicit: the checksum is computed
    over the struct's memory image followed by `after`, the bytes that
    happen to follow it. */
module Communication {
  import opened Bits
  import Protocol
  import opened Py

  const STRUCT_SIZE := 35
  const DATA_SIZE := 32

  /** How far past the struct the checksum loop can read: a length byte of
      255 reaches `2 + 255` bytes into memory that starts at the struct. */
  const MAX_OVERREAD := 2 + 255 - STRUCT_SIZE

  const HEARTBEAT_INTERVAL_MS := 1000

  /** `unsigned long` on the Teensy: 32 bits. */
  const WORD := 0x1_0000_0000
  type Word32 = x: int | 0 <= x < WORD

  type Payload = s: seq<Byte> | |s| == DATA_SIZE witness seq(DATA_SIZE, _ => 0)

  /** `struct CommandPacket { uint8_t command, data_length, data[32], checksum; }` */
  datatype Struct = Struct(command: Byte, dataLength: Byte, data: Payload, checksum: Byte)

  /** The struct's bytes in memory: one-byte fields, so no padding. */
  function Image(p: Struct): (m: seq<Byte>)
    ensures |m| == STRUCT_SIZE
    ensures m[0] == p.command && m[1] == p.dataLength && m[2..34] == p.data && m[34] == p.checksum
  {
    [p.command, p.dataLength] + p.data + [p.checksum]
  }

  /** The struct `readBytes` fills from 35 raw bytes. */
  function FromImage(m: seq<Byte>): (p: Struct)
    requires |m| == STRUCT_SIZE
  {
    Struct(m[0], m[1], m[2..34], m[34])
  }

  lemma ImageRoundTrip(p: Struct, m: seq<Byte>)
    requires |m| == STRUCT_SIZE
    ensures FromImage(Image(p)) == p
    ensures Image(FromImage(m)) == m
  {
    assert Image(FromImage(m)) == m[..2] + m[2..34] + m[34..];
  }

  /** The bytes `calculateChecksum` reads as `data[0..data_length)`. */
  function Scanned(p: Struct, after: seq<Byte>): (s: seq<Byte>)
    requires p.dataLength <= STRUCT_SIZE - 2 + |after|
    ensures |s| == p.dataLength
  {
    (Image(p) + after)[2..2 + p.dataLength]
  }

  /** `calculateChecksum(packet)`: `command ^ data_length ^ data[0] ^ ...`,
      over whatever memory the index reaches. */
  function FwChecksum(p: Struct, after: seq<Byte>): (c: Byte)
    requires p.dataLength <= STRUCT_SIZE - 2 + |after|
  {
    XorByte(0, p.command);
    XorByte(p.command, p.dataLength);
    XorFoldByte(PyXor(PyXor(0, p.command), p.dataLength), Scanned(p, after));
    XorFold(PyXor(PyXor(0, p.command), p.dataLength), Scanned(p, after))
  }

  /** Within the 32-byte array the firmware checksum is the host's, whatever
      lies after the struct. */
  lemma FwChecksumMatchesHost(p: Struct, after: seq<Byte>)
    requires p.dataLength <= DATA_SIZE
    ensures FwChecksum(p, after) == FwChecksum(p, [])
    ensures Protocol.Checksum(p.command, p.dataLength, p.data) == Ok(FwChecksum(p, after) as int)
  {
    assert Scanned(p, after) == p.data[..p.dataLength] == Scanned(p, []);
  }

  /** The accumulator loop of `calculateChecksum`. */
  method CalculateChecksum(p: Struct, after: seq<Byte>) returns (c: Byte)
    requires p.dataLength <= STRUCT_SIZE - 2 + |after|
    ensures c == FwChecksum(p, after)
  {
    var memory := Image(p) + after;
    XorByte(0, p.command);
    XorByte(p.command, p.dataLength);
    var acc: Byte := XorNat(XorNat(0, p.command), p.dataLength);
    var i := 0;
    while i < p.dataLength
      invariant 0 <= i <= p.dataLength
      invariant acc == XorFold(PyXor(PyXor(0, p.command), p.dataLength), memory[2..2 + i])
    {
      assert memory[2..2 + i + 1][..i] == memory[2..2 + i];
      XorByte(acc, memory[2 + i]);
      acc := XorNat(acc, memory[2 + i]);
      i := i + 1;
    }
    c := acc;
  }

  /** `data` after the copy loop: the first `min(length, 32)` bytes from the
      caller, the rest left as the uninitialised stack held them. */
  function Filled(data: seq<Byte>, length: Byte, stale: Payload): (r: Payload)
    requires |data| >= if length < DATA_SIZE then length else DATA_SIZE
    ensures forall i :: 0 <= i < DATA_SIZE ==>
      r[i] == if i < length then data[i] else stale[i]
  {
    seq(DATA_SIZE, i requires 0 <= i < DATA_SIZE => if i < length then data[i] else stale[i])
  }

  /** The struct `sendCommand` writes: `stale` is the uninitialised local it
      starts from, `after` the memory that follows it. */
  function Sent(command: Byte, data: seq<Byte>, length: Byte, stale: Struct, after: seq<Byte>): Struct
    requires |data| >= if length < DATA_SIZE then length else DATA_SIZE
    requires length <= STRUCT_SIZE - 2 + |after|
  {
    var filled := Struct(command, length, Filled(data, length, stale.data), stale.checksum);
    filled.(checksum := FwChecksum(filled, after))
  }

  /** A frame sent with `length <= 32` carries the command, the length, the
      caller's first `length` bytes and the XOR of them. */
  lemma SentLayout(command: Byte, data: seq<Byte>, length: Byte, stale: Struct, after: seq<Byte>)
    requires length <= DATA_SIZE && |data| >= length
    ensures var m := Image(Sent(command, data, length, stale, after));
      m[0] == command && m[1] == length && m[2..2 + length] == data[..length]
      && Protocol.Checksum(command, length, data[..length]) == Ok(m[34] as int)
  {
    var filled := Struct(command, length, Filled(data, length, stale.data), stale.checksum);
    var m := Image(Sent(command, data, length, stale, after));
    assert m[2..2 + length] == filled.data[..length] == data[..length];
    FwChecksumMatchesHost(filled, after);
    assert Protocol.Covered(length, filled.data) == Protocol.Covered(length, data[..length]);
  }

  /** Milliseconds since the last heartbeat, in unsigned 32-bit arithmetic. */
  function Elapsed(last: Word32, now: Word32): Word32 {
    (now - last) % WORD
  }

  /** `now - lastHeartbeat > 1000`. */
  predicate HeartbeatDue(last: Word32, now: Word32) {
    Elapsed(last, now) > HEARTBEAT_INTERVAL_MS
  }

  /** Counting `k` milliseconds from `last`, across a wrap of `millis()` or
      not, the heartbeat is due exactly when `k > 1000`. */
  lemma HeartbeatDueAfter(last: Word32, k: Word32)
    ensures HeartbeatDue(last, (last + k) % WORD) <==> k > HEARTBEAT_INTERVAL_MS
  {
    if last + k >= WORD {
      assert (last + k) % WORD == last + k - WORD;
      assert ((last + k - WORD) - last) % WORD == k;
    }
  }

  /** `(now >> k) & 0xFF`: one byte of a 32-bit value. */
  function ByteOf(now: Word32, k: nat): (b: Byte)
    ensures b == now / Pow2(k) % 256
  {
    var x := now / Pow2(k);
    Pow2Bytes();
    AndLowMask(x, 8);
    AndNat(x, 0xFF)
  }

  /** The four heartbeat bytes, most significant first. */
  function BigEndian4(now: Word32): (b: seq<Byte>)
    ensures b == [now / 0x100_0000 % 256, now / 0x1_0000 % 256, now / 0x100 % 256, now % 256]
  {
    assert Pow2(0) == 1 && Pow2(8) == 0x100 && Pow2(16) == 0x1_0000 && Pow2(24) == 0x100_0000;
    [ByteOf(now, 24), ByteOf(now, 16), ByteOf(now, 8), ByteOf(now, 0)]
  }

  /** The number four bytes spell, most significant first. */
  function BigEndianValue(d: seq<Byte>): (v: int)
    requires |d| >= 4
    ensures 0 <= v < WORD
  {
    d[0] as int * 0x100_0000 + d[1] as int * 0x1_0000 + d[2] as int * 0x100 + d[3] as int
  }

  /** The host reads back the timestamp the firmware wrote. */
  lemma BigEndianRoundTrip(now: Word32)
    ensures BigEndianValue(BigEndian4(now)) == now
  {
    var a, b, c, d := now / 0x100_0000, now / 0x1_0000, now / 0x100, now % 256;
    assert BigEndian4(now) == [a % 256, b % 256, c % 256, d];
    SpellOut(now);
  }

  lemma SpellOut(now: Word32)
    ensures (now / 0x100_0000 % 256) * 0x100_0000 + (now / 0x1_0000 % 256) * 0x1_0000
            + (now / 0x100 % 256) * 0x100 + now % 256 == now
  {
    var a, b, c, d := now / 0x100_0000, now / 0x1_0000, now / 0x100, now % 256;
    assert now == c * 0x100 + d;
    assert c == b * 0x100 + c % 256;
    assert b == a * 0x100 + b % 256;
    assert a < 256;
  }

  /** The firmware's USB serial port, and the static `lastHeartbeat` of
      `sendHeartbeat`. */
  /** The frame `receiveCommand` reports as received from the waiting
      bytes `rx`: the first 35 when there are that many and their checksum
      byte matches. */
  function Accepted(rx: seq<Byte>, after: seq<Byte>): (r: Option<Struct>)
    requires |after| >= MAX_OVERREAD
    ensures r.Some? <==> |rx| >= STRUCT_SIZE
                         && FromImage(rx[..STRUCT_SIZE]).checksum == FwChecksum(FromImage(rx[..STRUCT_SIZE]), after)
    ensures r.Some? ==> r.value == FromImage(rx[..STRUCT_SIZE])
  {
    if |rx| < STRUCT_SIZE then None
    else
      var p := FromImage(rx[..STRUCT_SIZE]);
      if p.checksum == FwChecksum(p, after) then Some(p) else None
  }

  /** What one `receiveCommand` call leaves waiting. */
  function Remaining(rx: seq<Byte>): (r: seq<Byte>)
    ensures |rx| < STRUCT_SIZE ==> r == rx
    ensures |rx| >= STRUCT_SIZE ==> rx == rx[..STRUCT_SIZE] + r
  {
    if |rx| < STRUCT_SIZE then rx else rx[STRUCT_SIZE..]
  }

  class Comm {
    /** Bytes received and not yet read. */
    var rx: seq<Byte>
    /** Every byte written so far. */
    var tx: seq<Byte>
    var lastHeartbeat: Word32

    constructor (input: seq<Byte>)
      ensures rx == input && tx == [] && lastHeartbeat == 0
    {
      rx := input;
      tx := [];
      lastHeartbeat := 0;
    }

    /** `sendCommand(command, data, length)`: copies `min(length, 32)` bytes,
        stores `length` unclamped, sets the checksum and writes all 35 bytes. */
    method SendCommand(command: Byte, data: seq<Byte>, length: Byte, stale: Struct, after: seq<Byte>)
      requires |data| >= if length < DATA_SIZE then length else DATA_SIZE
      requires length <= STRUCT_SIZE - 2 + |after|
      modifies this
      ensures tx == old(tx) + Image(Sent(command, data, length, stale, after))
      ensures rx == old(rx) && lastHeartbeat == old(lastHeartbeat)
    {
      var buffer: seq<Byte> := stale.data;
      var i := 0;
      while i < length && i < DATA_SIZE
        invariant 0 <= i <= DATA_SIZE && i <= length
        invariant |buffer| == DATA_SIZE
        invariant forall j :: 0 <= j < DATA_SIZE ==> buffer[j] == if j < i then data[j] else stale.data[j]
      {
        buffer := buffer[i := data[i]];
        i := i + 1;
      }
      assert buffer == Filled(data, length, stale.data);
      var packet := Struct(command, length, buffer, stale.checksum);
      var c := CalculateChecksum(packet, after);
      packet := packet.(checksum := c);
      tx := tx + Image(packet);
    }

    /** `receiveCommand(packet)`: with fewer than 35 bytes waiting nothing is
        read; otherwise exactly 35 bytes become the struct and the result says
        whether its checksum byte matches the recomputed one. */
    method ReceiveCommand(packet: Struct, after: seq<Byte>) returns (ok: bool, received: Struct)
      requires |after| >= MAX_OVERREAD
      modifies this
      ensures |old(rx)| < STRUCT_SIZE ==> !ok && received == packet && rx == old(rx)
      ensures |old(rx)| >= STRUCT_SIZE ==>
        received == FromImage(old(rx)[..STRUCT_SIZE]) && rx == old(rx)[STRUCT_SIZE..]
        && (ok <==> received.checksum == FwChecksum(received, after))
      ensures tx == old(tx) && lastHeartbeat == old(lastHeartbeat)
    {
      if |rx| < STRUCT_SIZE {
        return false, packet;
      }
      received := FromImage(rx[..STRUCT_SIZE]);
      rx := rx[STRUCT_SIZE..];
      var expected := CalculateChecksum(received, after);
      ok := received.checksum == expected;
    }

    /** `sendHeartbeat()`: when more than a second has passed since the last
        one, records `now` and sends it big-endian as a heartbeat frame;
        otherwise does nothing. */
    method SendHeartbeat(now: Word32, stale: Struct)
      modifies this
      ensures HeartbeatDue(old(lastHeartbeat), now) ==>
        lastHeartbeat == now
        && tx == old(tx) + Image(Sent(Protocol.CMD_HEARTBEAT, BigEndian4(now), 4, stale, []))
      ensures !HeartbeatDue(old(lastHeartbeat), now) ==>
        lastHeartbeat == old(lastHeartbeat) && tx == old(tx)
      ensures rx == old(rx)
    {
      if Elapsed(lastHeartbeat, now) > HEARTBEAT_INTERVAL_MS {
        lastHeartbeat := now;
        SendCommand(Protocol.CMD_HEARTBEAT, BigEndian4(now), 4, stale, []);
      }
    }
  }
}
