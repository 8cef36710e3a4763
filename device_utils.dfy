/** Board discovery on the host (led_controller/raspberry_pi/utils/
    device_utils.py). The enumerated serial ports are an input: one record
    per port, in enumeration order, with the attributes the code reads. */
module DeviceUtils {
  import opened Py
  import opened Config

  /** A `ListPortInfo`: `serial_number` may be None; `manufacturer` and
      `hwid` are read through `getattr`/`hasattr`, so they may be missing. */
  datatype PortInfo = PortInfo(
    device: string,
    description: string,
    serialNumber: Option<string>,
    manufacturer: Attr<Option<string>>,
    hwid: Attr<string>)

  /** Python truthiness of an optional string. */
  predicate Truthy(s: Option<string>) {
    s.Some? && s.value != ""
  }

  /** Port `i` is the first whose serial number is `target`. */
  predicate FirstWithSerial(target: string, ports: seq<PortInfo>, i: int) {
    0 <= i < |ports| && ports[i].serialNumber == Some(target)
    && forall j :: 0 <= j < i ==> ports[j].serialNumber != Some(target)
  }

  /** `find_teensy_by_serial(target)`: the device of the first port whose
      serial number equals the target, else None. */
  function FindTeensyBySerial(target: string, ports: seq<PortInfo>): (r: Option<string>)
    ensures r.None? <==> forall i :: 0 <= i < |ports| ==> ports[i].serialNumber != Some(target)
    ensures r.Some? ==> exists i :: FirstWithSerial(target, ports, i) && r.value == ports[i].device
  {
    if ports == [] then None
    else if ports[0].serialNumber == Some(target) then Some(ports[0].device)
    else
      var r := FindTeensyBySerial(target, ports[1..]);
      if r.Some? then
        var k :| FirstWithSerial(target, ports[1..], k) && r.value == ports[1..][k].device;
        assert FirstWithSerial(target, ports, k + 1);
        r
      else r
  }

  /** `find_teensy(id)`: the id is lower-cased; an id outside the catalogue
      gives None whatever the ports, a known one searches for its serial. */
  function FindTeensy(id: string, ports: seq<PortInfo>): (r: Option<string>)
    ensures Lower(id) !in TEENSY_MAPPING ==> r == None
    ensures Lower(id) in TEENSY_MAPPING ==> r == FindTeensyBySerial(TEENSY_MAPPING[Lower(id)], ports)
  {
    var key := Lower(id);
    if key !in TEENSY_MAPPING then None
    else FindTeensyBySerial(TEENSY_MAPPING[key], ports)
  }

  /** Board ids are case-insensitive. */
  lemma FindTeensyIgnoresCase(id: string, ports: seq<PortInfo>)
    ensures FindTeensy(id, ports) == FindTeensy(Lower(id), ports)
  {
    LowerIdempotent(id);
  }

  /** `find_teensy("A")` and `find_teensy("a")` find the same board. */
  lemma UpperCaseId(ports: seq<PortInfo>)
    ensures FindTeensy("A", ports) == FindTeensy("a", ports) == FindTeensyBySerial(TEENSY_A_SERIAL, ports)
  {
    assert Lower("A") == "a";
    assert Lower("a") == "a";
  }

  /** The `detect_all_teensys` key of a board id. */
  function Key(id: string): string {
    "teensy_" + id
  }

  lemma KeysDistinct()
    ensures forall i, j :: 0 <= i < j < |TEENSY_IDS| ==> Key(TEENSY_IDS[i]) != Key(TEENSY_IDS[j])
  {
    assert Key("a")[7] == 'a' && Key("b")[7] == 'b' && Key("c")[7] == 'c';
  }

  /** `found` holds board `id` exactly when `find_teensy(id)` is truthy, and
      then holds that device. */
  predicate Detected(found: map<string, string>, id: string, ports: seq<PortInfo>) {
    var port := FindTeensy(id, ports);
    if Truthy(port) then Key(id) in found && found[Key(id)] == port.value
    else Key(id) !in found
  }

  /** `detect_all_teensys()`: for every catalogue id in order, a truthy
      `find_teensy` result is stored under `teensy_<id>`. */
  method DetectAllTeensys(ports: seq<PortInfo>) returns (found: map<string, string>)
    ensures forall k :: k in found ==> exists i :: 0 <= i < |TEENSY_IDS| && k == Key(TEENSY_IDS[i])
    ensures forall i :: 0 <= i < |TEENSY_IDS| ==> Detected(found, TEENSY_IDS[i], ports)
  {
    KeysDistinct();
    found := map[];
    var n := 0;
    while n < |TEENSY_IDS|
      invariant 0 <= n <= |TEENSY_IDS|
      invariant forall k :: k in found ==> exists i :: 0 <= i < n && k == Key(TEENSY_IDS[i])
      invariant forall i :: 0 <= i < n ==> Detected(found, TEENSY_IDS[i], ports)
    {
      var id := TEENSY_IDS[n];
      var port := FindTeensy(id, ports);
      if Truthy(port) {
        found := found[Key(id) := port.value];
      }
      n := n + 1;
    }
  }

  /** One entry of `get_all_serial_ports()`. */
  datatype PortEntry = PortEntry(device: string, description: string, serialNumber: string, hwid: Option<string>)

  /** The entry for one port: a falsy serial number reads `'Unknown'`; `hwid`
      is present only when the port has that attribute. */
  function Entry(p: PortInfo): (e: PortEntry)
    ensures e.device == p.device && e.description == p.description
    ensures Truthy(p.serialNumber) ==> e.serialNumber == p.serialNumber.value
    ensures !Truthy(p.serialNumber) ==> e.serialNumber == "Unknown"
    ensures e.hwid.Some? <==> p.hwid.Present?
    ensures p.hwid.Present? ==> e.hwid.value == p.hwid.value
  {
    PortEntry(p.device, p.description,
              if Truthy(p.serialNumber) then p.serialNumber.value else "Unknown",
              if p.hwid.Present? then Some(p.hwid.value) else None)
  }

  /** `get_all_serial_ports()`: one entry per port, in order. */
  method GetAllSerialPorts(ports: seq<PortInfo>) returns (entries: seq<PortEntry>)
    ensures |entries| == |ports|
    ensures forall i :: 0 <= i < |ports| ==> entries[i] == Entry(ports[i])
  {
    entries := [];
    for i := 0 to |ports|
      invariant |entries| == i
      invariant forall j :: 0 <= j < i ==> entries[j] == Entry(ports[j])
    {
      entries := entries + [Entry(ports[i])];
    }
  }
}
