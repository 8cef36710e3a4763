/** The keyboard-to-serial relay (led_controller/serial_relay.py): the
    search for a board among the enumerated ports, and the key handler
    that forwards `a`. Port enumeration is an input, the keyboard listener
    and the printing are not modelled. */
module SerialRelay {
  import opened Bits
  import opened Py
  import opened SerialHandle
  import DeviceUtils

  type PortInfo = DeviceUtils.PortInfo

  const INDICATORS: seq<string> := ["teensy", "pjrc", "usb serial"]

  /** `port.manufacturer.lower()` after `getattr(port, 'manufacturer', '')`:
      a missing attribute reads as `''`, a present `None` has no `lower`. */
  function Manufacturer(p: PortInfo): (r: Result<string>)
    ensures r.Err? <==> p.manufacturer == Present(None)
    ensures r.Err? ==> r.error == AttributeError
  {
    match p.manufacturer
    case Missing => Ok("")
    case Present(None) => Err(AttributeError)
    case Present(Some(m)) => Ok(Lower(m))
  }

  /** Port `p` carries one of the indicators in its lower-cased description
      or manufacturer (and its manufacturer can be read). */
  predicate Indicated(p: PortInfo) {
    && Manufacturer(p).Ok?
    && (exists k :: 0 <= k < |INDICATORS|
          && (Contains(Lower(p.description), INDICATORS[k]) || Contains(Manufacturer(p).value, INDICATORS[k])))
  }

  /** The loop stops at port `i`: every port before it was read without
      error and carries no indicator. */
  predicate ReachedPort(ports: seq<PortInfo>, i: int) {
    0 <= i < |ports| && forall j :: 0 <= j < i ==> Manufacturer(ports[j]).Ok? && !Indicated(ports[j])
  }

  /** `find_teensy_port()`: the device of the first port with an indicator;
      a `None` manufacturer met first raises `AttributeError`, even on a
      port whose description matches; None when the list runs out. */
  function FindTeensyPort(ports: seq<PortInfo>): (r: Result<Option<string>>)
    ensures r == Ok(None) <==> forall j :: 0 <= j < |ports| ==> Manufacturer(ports[j]).Ok? && !Indicated(ports[j])
    ensures r.Err? ==>
      r.error == AttributeError && exists i :: ReachedPort(ports, i) && Manufacturer(ports[i]).Err?
    ensures r.Ok? && r.value.Some? ==>
      exists i :: ReachedPort(ports, i) && Indicated(ports[i]) && r.value.value == ports[i].device
  {
    if ports == [] then Ok(None)
    else if Manufacturer(ports[0]).Err? then
      assert ReachedPort(ports, 0);
      Err(AttributeError)
    else if Indicated(ports[0]) then
      assert ReachedPort(ports, 0);
      Ok(Some(ports[0].device))
    else
      var r := FindTeensyPort(ports[1..]);
      if r.Err? then
        var i :| ReachedPort(ports[1..], i) && Manufacturer(ports[1..][i]).Err?;
        ReachedNext(ports, i);
        r
      else if r.value.Some? then
        var i :| ReachedPort(ports[1..], i) && Indicated(ports[1..][i]) && r.value.value == ports[1..][i].device;
        ReachedNext(ports, i);
        r
      else
        assert forall j :: 1 <= j < |ports| ==> ports[j] == ports[1..][j - 1];
        r
  }

  /** Passing over a first port that is readable and unmarked. */
  lemma ReachedNext(ports: seq<PortInfo>, i: int)
    requires ports != [] && Manufacturer(ports[0]).Ok? && !Indicated(ports[0])
    requires ReachedPort(ports[1..], i)
    ensures ReachedPort(ports, i + 1) && ports[i + 1] == ports[1..][i]
  {
    forall j | 0 <= j < i + 1
      ensures Manufacturer(ports[j]).Ok? && !Indicated(ports[j])
    {
      if j > 0 {
        assert ports[j] == ports[1..][j - 1];
      }
    }
  }

  /** A port whose description names the board is found when it comes
      first and its manufacturer is readable. */
  lemma DescriptionFound(p: PortInfo, rest: seq<PortInfo>)
    requires Manufacturer(p).Ok? && StartsWith(Lower(p.description), "teensy")
    ensures FindTeensyPort([p] + rest) == Ok(Some(p.device))
  {
    StartsWithContains(Lower(p.description), INDICATORS[0]);
  }

  /** A key event from the listener: a key with a character (possibly
      None), or a special key without the `char` attribute. */
  datatype Key = CharKey(keyChar: Option<char>) | SpecialKey

  const A_BYTE: Byte := 0x61

  /** `on_key_press(key, ser)`: the key `a` writes the single byte `a` and
      flushes; every other key, and a special key (whose `AttributeError`
      is swallowed), does nothing. A failing write raises out of the
      handler before the flush. */
  method OnKeyPress(key: Key, ser: Serial) returns (raised: Option<PyError>)
    modifies ser
    ensures var isA := key == CharKey(Some('a'));
      var written := isA && old(ser.isOpen) && !old(ser.writeFails);
      ser.tx == (if written then old(ser.tx) + [A_BYTE] else old(ser.tx))
      && ser.flushCount == (if written then old(ser.flushCount) + 1 else old(ser.flushCount))
      && raised == (if isA && !written then Some(SerialException) else None)
    ensures ser.isOpen == old(ser.isOpen) && ser.rx == old(ser.rx) && ser.closeCount == old(ser.closeCount)
  {
    if key.SpecialKey? {
      return None;
    }
    if key.keyChar == Some('a') {
      var ok := ser.Write([A_BYTE]);
      if !ok {
        return Some(SerialException);
      }
      ser.Flush();
    }
    return None;
  }
}
