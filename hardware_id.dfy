/** Board identification from two jumper pins
    (led_controller/src/shared/hardware_id.cpp, with the ids of
    led_controller/include/hardware_id.h). A pin reads LOW when its jumper
    to ground is fitted and HIGH otherwise; the two reads are the inputs
    (`true` is HIGH). */
module HardwareId {
  import opened Bits

  const DEVICE_ID_TEENSY_A := 0
  const DEVICE_ID_TEENSY_B := 1
  const DEVICE_ID_TEENSY_C := 2
  const DEVICE_ID_UNKNOWN := 3

  datatype DeviceType = TeensyA | TeensyB | TeensyC | Unknown

  /** The enum's value. */
  function DeviceId(t: DeviceType): nat {
    match t
    case TeensyA => DEVICE_ID_TEENSY_A
    case TeensyB => DEVICE_ID_TEENSY_B
    case TeensyC => DEVICE_ID_TEENSY_C
    case Unknown => DEVICE_ID_UNKNOWN
  }

  /** `(DeviceType)id` for an id in 0..3. */
  function FromId(id: nat): (t: DeviceType)
    requires id < 4
    ensures DeviceId(t) == id
  {
    if id == DEVICE_ID_TEENSY_A then TeensyA
    else if id == DEVICE_ID_TEENSY_B then TeensyB
    else if id == DEVICE_ID_TEENSY_C then TeensyC
    else Unknown
  }

  /** A `bool` promoted to an integer. */
  function Bit(b: bool): nat {
    if b then 1 else 0
  }

  /** `(~x) & 0x03` after `x` is promoted to `int`: for a two-bit `x`, the
      two bits inverted. */
  lemma InvertTwoBits(x: nat)
    requires x < 4
    ensures AndInt(BitNot(x), 3) == 3 - x
  {
    AndLowMask(x, 2);
    assert Pow2(2) == 4;
    AndNatCommutes(3, x);
  }

  /** `getDeviceType()`: `deviceId = (pin1 << 1) | pin0` in a `uint8_t`,
      then `(~deviceId) & 0x03`, so a fitted jumper sets its bit. */
  function GetDeviceType(pin0: bool, pin1: bool): (t: DeviceType)
    ensures DeviceId(t) == 2 * Bit(!pin1) + Bit(!pin0)
  {
    assert Pow2(1) == 2;
    OrShift(Bit(pin1), Bit(pin0), 1);
    var deviceId := OrNat(Bit(pin1) * 2, Bit(pin0));
    InvertTwoBits(deviceId);
    FromId(AndInt(BitNot(deviceId), 3))
  }

  /** The jumper table: no jumper is board A, a jumper on pin 0 board B, on
      pin 1 board C, on both the error state. */
  lemma PinTable()
    ensures GetDeviceType(true, true) == TeensyA
    ensures GetDeviceType(false, true) == TeensyB
    ensures GetDeviceType(true, false) == TeensyC
    ensures GetDeviceType(false, false) == Unknown
  {
    assert DeviceId(GetDeviceType(true, true)) == 0;
    assert DeviceId(GetDeviceType(false, true)) == 1;
    assert DeviceId(GetDeviceType(true, false)) == 2;
    assert DeviceId(GetDeviceType(false, false)) == 3;
  }

  /** The pin reads and the types correspond one to one. */
  lemma PinsBijective(p0: bool, p1: bool, q0: bool, q1: bool, t: DeviceType)
    ensures GetDeviceType(p0, p1) == GetDeviceType(q0, q1) ==> p0 == q0 && p1 == q1
    ensures exists r0, r1 :: GetDeviceType(r0, r1) == t
  {
    PinTable();
    match t
    case TeensyA => assert GetDeviceType(true, true) == t;
    case TeensyB => assert GetDeviceType(false, true) == t;
    case TeensyC => assert GetDeviceType(true, false) == t;
    case Unknown => assert GetDeviceType(false, false) == t;
  }

  /** `getDeviceName(type)`. */
  function GetDeviceName(t: DeviceType): string {
    match t
    case TeensyA => "Teensy A - Input Controller"
    case TeensyB => "Teensy B - LED Strip Controller"
    case TeensyC => "Teensy C - LED Strip Controller"
    case Unknown => "Unknown Device"
  }

  /** The three boards have different names, none of them the unknown one. */
  lemma NamesDistinct(s: DeviceType, t: DeviceType)
    ensures s != t && s != Unknown && t != Unknown ==> GetDeviceName(s) != GetDeviceName(t)
    ensures s != Unknown ==> GetDeviceName(s) != "Unknown Device"
  {
    var a, b, c := GetDeviceName(TeensyA), GetDeviceName(TeensyB), GetDeviceName(TeensyC);
    assert a[7] == 'A' && b[7] == 'B' && c[7] == 'C';
    assert a[0] != 'U' && b[0] != 'U' && c[0] != 'U';
  }

  function HasButtons(t: DeviceType): bool {
    t == TeensyA
  }

  function HasButtonLeds(t: DeviceType): bool {
    t == TeensyA
  }

  function HasOctoLedStrips(t: DeviceType): bool {
    t == TeensyB || t == TeensyC
  }

  /** Board A is the only input board, B and C are the only strip boards,
      and an unidentified board gets neither role. */
  lemma Capabilities(pin0: bool, pin1: bool)
    ensures var t := GetDeviceType(pin0, pin1);
      (HasButtons(t) <==> pin0 && pin1)
      && HasButtonLeds(t) == HasButtons(t)
      && (HasOctoLedStrips(t) <==> pin0 != pin1)
      && !(HasButtons(t) && HasOctoLedStrips(t))
      && (t == Unknown ==> !HasButtons(t) && !HasOctoLedStrips(t))
  {
    PinTable();
  }
}
