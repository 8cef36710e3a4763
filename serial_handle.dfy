/** An open pyserial port as the host scripts use it: bytes the board has
    sent and not yet been read, every byte written, whether the port is
    open, and whether the device rejects writes. `readline()` returns the
    bytes through the first newline, or everything waiting when the timeout
    expires first; `decode('utf-8')` is taken over ASCII text. */
module SerialHandle {
  import opened Bits
  import opened Py

  const NEWLINE: Byte := 10

  /** How many bytes `readline()` takes from the waiting input. */
  function LineLength(rx: seq<Byte>): (n: nat)
    ensures n <= |rx|
    ensures NEWLINE in rx ==> 0 < n && rx[n - 1] == NEWLINE && NEWLINE !in rx[..n - 1]
    ensures NEWLINE !in rx ==> n == |rx|
    decreases |rx|
  {
    if rx == [] then 0
    else if rx[0] == NEWLINE then 1
    else
      var n := LineLength(rx[1..]);
      assert NEWLINE in rx ==> NEWLINE in rx[1..];
      assert NEWLINE in rx ==> rx[..n + 1][1..] == rx[1..][..n];
      1 + n
  }

  /** `bytes.decode('utf-8')` for ASCII text; any byte of 128 or more is
      reported as a decode error. */
  function DecodeAscii(b: seq<Byte>): (r: Result<string>)
    ensures r.Ok? <==> forall i :: 0 <= i < |b| ==> b[i] < 128
    ensures r.Err? ==> r.error == UnicodeDecodeError
    ensures r.Ok? ==> |r.value| == |b| && forall i :: 0 <= i < |b| ==> r.value[i] as int == b[i]
  {
    if forall i :: 0 <= i < |b| ==> b[i] < 128 then
      Ok(seq(|b|, i requires 0 <= i < |b| => b[i] as char))
    else Err(UnicodeDecodeError)
  }

  /** The bytes of ASCII text. */
  function EncodeAscii(s: string): (b: seq<Byte>)
    requires forall i :: 0 <= i < |s| ==> s[i] as int < 128
    ensures |b| == |s| && forall i :: 0 <= i < |s| ==> b[i] == s[i] as int
  {
    seq(|s|, i requires 0 <= i < |s| => s[i] as int)
  }

  /** Decoding what was encoded gives the text back. */
  lemma DecodeEncode(s: string)
    requires forall i :: 0 <= i < |s| ==> s[i] as int < 128
    ensures DecodeAscii(EncodeAscii(s)) == Ok(s)
  {
    var r := DecodeAscii(EncodeAscii(s));
    assert r.Ok?;
    forall i | 0 <= i < |s|
      ensures r.value[i] == s[i]
    {
      assert r.value[i] as int == s[i] as int;
    }
    assert r.value == s;
  }

  /** Between two states, `h` received `data` when `sent` and nothing
      otherwise, and nothing else about it changed. */
  twostate predicate Sent(h: Serial, data: seq<Byte>, sent: bool)
    reads h
  {
    h.tx == (if sent then old(h.tx) + data else old(h.tx))
    && h.isOpen == old(h.isOpen) && h.rx == old(h.rx) && h.writeFails == old(h.writeFails)
    && h.closeCount == old(h.closeCount) && h.flushCount == old(h.flushCount)
  }

  /** `h` would accept a write. */
  predicate Writable(h: Serial)
    reads h
  {
    h.isOpen && !h.writeFails
  }

  /** One `serial.Serial` object. */
  class Serial {
    const device: string
    var isOpen: bool
    /** Bytes received and not yet read. */
    var rx: seq<Byte>
    /** Every byte written. */
    var tx: seq<Byte>
    /** The device raises on every write. */
    var writeFails: bool
    var closeCount: nat
    var flushCount: nat

    /** `serial.Serial(device, ...)` when the open succeeds. */
    constructor Open(device: string)
      ensures this.device == device && isOpen && rx == [] && tx == [] && !writeFails
      ensures closeCount == 0 && flushCount == 0
    {
      this.device := device;
      isOpen := true;
      rx := [];
      tx := [];
      writeFails := false;
      closeCount := 0;
      flushCount := 0;
    }

    /** The board sends `bytes` (the environment's move). */
    method Deliver(bytes: seq<Byte>)
      modifies this
      ensures rx == old(rx) + bytes
      ensures isOpen == old(isOpen) && tx == old(tx) && writeFails == old(writeFails)
      ensures closeCount == old(closeCount) && flushCount == old(flushCount)
    {
      rx := rx + bytes;
    }

    /** `in_waiting`: raises on a closed port. */
    method InWaiting() returns (r: Result<nat>)
      ensures r == if isOpen then Ok(|rx|) else Err(SerialException)
    {
      if !isOpen {
        return Err(SerialException);
      }
      return Ok(|rx|);
    }

    /** `readline()`: raises on a closed port. */
    method ReadLine() returns (r: Result<seq<Byte>>)
      modifies this
      ensures !old(isOpen) ==> r == Err(SerialException) && rx == old(rx)
      ensures old(isOpen) ==>
        r == Ok(old(rx)[..LineLength(old(rx))]) && rx == old(rx)[LineLength(old(rx))..]
      ensures isOpen == old(isOpen) && tx == old(tx) && writeFails == old(writeFails)
      ensures closeCount == old(closeCount) && flushCount == old(flushCount)
    {
      if !isOpen {
        return Err(SerialException);
      }
      var n := LineLength(rx);
      r := Ok(rx[..n]);
      rx := rx[n..];
    }

    /** `read(n)`: up to `n` waiting bytes (fewer when the timeout expires
        first); raises on a closed port. */
    method Read(n: nat) returns (r: Result<seq<Byte>>)
      modifies this
      ensures !old(isOpen) ==> r == Err(SerialException) && rx == old(rx)
      ensures old(isOpen) ==>
        var k := if n < |old(rx)| then n else |old(rx)|;
        r == Ok(old(rx)[..k]) && rx == old(rx)[k..]
      ensures isOpen == old(isOpen) && tx == old(tx) && writeFails == old(writeFails)
      ensures closeCount == old(closeCount) && flushCount == old(flushCount)
    {
      if !isOpen {
        return Err(SerialException);
      }
      var k := if n < |rx| then n else |rx|;
      r := Ok(rx[..k]);
      rx := rx[k..];
    }

    /** `write(data)`: raises on a closed port or a failing device, and then
        writes nothing. */
    method Write(data: seq<Byte>) returns (ok: bool)
      modifies this
      ensures ok <==> old(isOpen) && !old(writeFails)
      ensures tx == if ok then old(tx) + data else old(tx)
      ensures isOpen == old(isOpen) && rx == old(rx) && writeFails == old(writeFails)
      ensures closeCount == old(closeCount) && flushCount == old(flushCount)
    {
      if !isOpen || writeFails {
        return false;
      }
      tx := tx + data;
      return true;
    }

    /** `flush()`. */
    method Flush()
      modifies this
      ensures flushCount == old(flushCount) + 1
      ensures isOpen == old(isOpen) && rx == old(rx) && tx == old(tx) && writeFails == old(writeFails)
      ensures closeCount == old(closeCount)
    {
      flushCount := flushCount + 1;
    }

    /** `close()`. */
    method Close()
      modifies this
      ensures !isOpen && closeCount == old(closeCount) + 1
      ensures rx == old(rx) && tx == old(tx) && writeFails == old(writeFails) && flushCount == old(flushCount)
    {
      isOpen := false;
      closeCount := closeCount + 1;
    }
  }
}
