/** The older two-board discovery module
    (led_controller/raspberry_pi/device_utils.py). Its `find_teensy_by_serial`
    and `get_all_serial_ports` are the same code as in utils/device_utils.py
    and are reused from `DeviceUtils`; the module it imports its constants
    from is not part of this model, so the values of utils/config.py are
    used. */
module LegacyDeviceUtils {
  import opened Py
  import opened Config
  import opened DeviceUtils

  /** `find_teensy_a()`. */
  function FindTeensyA(ports: seq<PortInfo>): (r: Option<string>)
    ensures r.Some? ==> exists i :: FirstWithSerial(TEENSY_A_SERIAL, ports, i) && r.value == ports[i].device
  {
    FindTeensyBySerial(TEENSY_A_SERIAL, ports)
  }

  /** `find_teensy_b()`. */
  function FindTeensyB(ports: seq<PortInfo>): (r: Option<string>)
    ensures r.Some? ==> exists i :: FirstWithSerial(TEENSY_B_SERIAL, ports, i) && r.value == ports[i].device
  {
    FindTeensyBySerial(TEENSY_B_SERIAL, ports)
  }

  /** The two-board finders agree with the catalogue lookup that replaced
      them. */
  lemma FindersMatchCatalogue(ports: seq<PortInfo>)
    ensures FindTeensyA(ports) == FindTeensy("a", ports)
    ensures FindTeensyB(ports) == FindTeensy("b", ports)
  {
    assert Lower("a") == "a";
    assert Lower("b") == "b";
  }

  /** `detect_all_teensys()`: board A, then board B, each stored when its
      finder's result is truthy; no other key. */
  method DetectAllTeensys(ports: seq<PortInfo>) returns (found: map<string, string>)
    ensures forall k :: k in found ==> k == "teensy_a" || k == "teensy_b"
    ensures "teensy_a" in found <==> Truthy(FindTeensyA(ports))
    ensures "teensy_a" in found ==> found["teensy_a"] == FindTeensyA(ports).value
    ensures "teensy_b" in found <==> Truthy(FindTeensyB(ports))
    ensures "teensy_b" in found ==> found["teensy_b"] == FindTeensyB(ports).value
  {
    found := map[];
    var teensyA := FindTeensyA(ports);
    if Truthy(teensyA) {
      found := found["teensy_a" := teensyA.value];
    }
    var teensyB := FindTeensyB(ports);
    if Truthy(teensyB) {
      found := found["teensy_b" := teensyB.value];
    }
  }

  /** The condition of `find_any_teensy_port`. The conditional expression
      binds loosest, so the whole `or` chain is its then-branch: a port
      without an `hwid` attribute never matches, whatever its description
      or device. */
  predicate TeensyLike(p: PortInfo) {
    if p.hwid.Present? then
      Contains(p.description, "USB") || Contains(p.device, "ACM") || Contains(p.device, "tty")
      || Contains(p.hwid.value, TEENSY_USB_VID_PID)
    else false
  }

  /** Port `i` is the first Teensy-like one. */
  predicate FirstTeensyLike(ports: seq<PortInfo>, i: int) {
    0 <= i < |ports| && TeensyLike(ports[i]) && forall j :: 0 <= j < i ==> !TeensyLike(ports[j])
  }

  /** `find_any_teensy_port()`: the first Teensy-like port, else None. */
  function FindAnyTeensyPort(ports: seq<PortInfo>): (r: Option<string>)
    ensures r.None? <==> forall i :: 0 <= i < |ports| ==> !TeensyLike(ports[i])
    ensures r.Some? ==> exists i :: FirstTeensyLike(ports, i) && r.value == ports[i].device
  {
    if ports == [] then None
    else if TeensyLike(ports[0]) then Some(ports[0].device)
    else
      var r := FindAnyTeensyPort(ports[1..]);
      if r.Some? then
        var k :| FirstTeensyLike(ports[1..], k) && r.value == ports[1..][k].device;
        assert FirstTeensyLike(ports, k + 1);
        r
      else r
  }

  /** A port lacking `hwid` is passed over even when its description names
      USB and its device is an ACM tty. */
  lemma PortWithoutHwidSkipped(p: PortInfo, rest: seq<PortInfo>)
    requires p.hwid.Missing?
    ensures FindAnyTeensyPort([p] + rest) == FindAnyTeensyPort(rest)
  {
    assert ([p] + rest)[1..] == rest;
  }
}
