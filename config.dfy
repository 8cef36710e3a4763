/** The host's board catalogue and identifiers
    (led_controller/raspberry_pi/utils/config.py). */
module Config {

  const TEENSY_A_SERIAL := "14094100"
  const TEENSY_B_SERIAL := "4278530"
  const TEENSY_C_SERIAL := "17985960"

  /** `TEENSY_MAPPING`: board id to USB serial number. */
  const TEENSY_MAPPING: map<string, string> :=
    map["a" := TEENSY_A_SERIAL, "b" := TEENSY_B_SERIAL, "c" := TEENSY_C_SERIAL]

  /** The mapping's keys in the order a Python dict yields them. */
  const TEENSY_IDS: seq<string> := ["a", "b", "c"]

  /** USB vendor:product of a Teensy. */
  const TEENSY_USB_VID_PID := "16C0:0487"

  /** The ordered ids are exactly the mapping's keys, each once. */
  lemma TeensyIds()
    ensures forall i :: 0 <= i < |TEENSY_IDS| ==> TEENSY_IDS[i] in TEENSY_MAPPING
    ensures forall id :: id in TEENSY_MAPPING <==> id in TEENSY_IDS
    ensures forall i, j :: 0 <= i < j < |TEENSY_IDS| ==> TEENSY_IDS[i] != TEENSY_IDS[j]
  {
  }
}
