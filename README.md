# gourd_led_controller, modelled in Dafny

The LED controller has two halves. A Raspberry Pi runs Python host scripts. Three Teensy boards run C++ firmware.

- **Board A** reads buttons, drives the eye LEDs and reports over USB serial.
- **Boards B and C** drive eight WS2811 strips each through OctoWS2811.

This project models both halves. It proves what each piece promises and what each side makes of the other's bytes.

## The frame

Host and firmware exchange a 35-byte frame: a command byte, a length byte, 32 payload bytes, and an XOR checksum. The checksum covers the command, the length and the first `data_length` payload bytes.

- **Host side (`Protocol`).** The encoder and decoder of `utils/protocol.py`, with Python's exceptions as `Result` errors. The model proves:
  - the round trip;
  - that a changed payload byte is detected;
  - that strip ids are normalised into 0..7.
- **Firmware side (`Communication`).**
  - The firmware's `CommandPacket` struct is modelled as its memory image.
  - `calculateChecksum` trusts `data_length`. For lengths above 32 it reads past the struct, so the bytes that follow the struct in memory are an explicit parameter.
  - `receiveCommand` consumes 35 bytes and accepts exactly the frames whose checksum matches.
  - `sendCommand` writes the image of the filled struct.
  - The heartbeat and sensor timers use unsigned 32-bit `millis()` arithmetic, so they stay correct across a wrap-around.

## Firmware

- **`OctoLedStrips`** (boards B and C). A pool of eight pulse slots and the background effect mode. It draws into the LED buffer, held as an `array`.
- **`Eyes`** (board A). Prefix-sum offsets of the eyes in their chain, a pool of ripple slots, and brightness boosts.
- **`Buttons`** (board A). Press detection prints `BUTTON_PRESS:<n>` and `PIN_STATES:` text lines.
- **`TeensyASpecific`** (board A). The button-LED command and the sensor report.
- **`HardwareId`**. Tells the boards apart from two jumper pins.

## Host

- **Board discovery.**
  - `DeviceUtils` finds boards by USB serial number, with case-insensitive matching.
  - `LegacyDeviceUtils` is the older two-board finder.
  - `BothTeensysTest` parses `pio device list` output.
- **The relay (`DualTeensy`, `LegacyDualTeensy`).** It reads board A's press lines and sends a pulse for strip `n-1`. It is modelled as classes over abstract serial handles (`SerialHandle.Serial`: an open flag, a queue of received bytes and a log of written bytes).
- **The monitor scripts.**
  - `TeensyCommTest` has its own decoder, the five-byte button-LED command and the packet reports.
  - `TeensyCommTextTest` classifies text lines.
- **Small tools.**
  - `IdentifyTeensys` tells boards apart from what they print.
  - `SerialRelay` relays keyboard key presses.
  - `SoundMain` handles the sound engine's GPIO rising edges and its `trigger` dispatch.

## Cross-side behaviour (`Interop`)

`Interop` proves how each side reads the other's output:

- Host frames are accepted by the firmware.
- Firmware frames are decoded by the host.
- Board A's press lines make the relay pulse the right strip, and identify the port as board A.

## Behaviour modelled as the code has it

These are places where the parts disagree. The model keeps the code's behaviour.

- **Effect frames.** `create_led_effect_packet` puts the strip in `data[0]`, and the strip firmware reads `data[0]` as the effect id. The effect chosen therefore depends on the strip and never on `effect_type` (`Interop.EffectChosenByStrip`).
- **Button-LED frames.**
  - `create_button_led_packet` sends four bytes without brightness, but `handleButtonLedCommand` reads five. Each colour is therefore shifted one place (`Interop.ButtonLedFourBytes`).
  - The monitor script's five-byte frame is read correctly.
- **`triggerRipple`.** The loop index shadows the eye parameter, so a ripple records its slot index as its eye.
- **The relay.** Every pulse goes to both receivers B and C.
- **Constants that disagree.**
  - `NUM_STRIPS_PER_TEENSY` is 8, from the firmware's `config.h`; the host's config does not define it.
  - `NUM_BUTTONS` is 6 in one header and 4 in another, so the button count is the length of the input readings.
  - The eye LED counts list 16 initialisers while `NUM_EYES` is 4, so the counts are a parameter.
- **Legacy discovery.** The legacy `device_utils.py` imports a `config` module that is not part of this model, so the serial numbers of `utils/config.py` are used.
- **Legacy relay.** The legacy `dual_teensy.py` imports `config` and `protocol` modules that are not part of this model. `LegacyDualTeensy` therefore uses the constants of `utils/config.py`, and the `create_led_pulse_packet` and `to_bytes` of `utils/protocol.py`.

The Python helpers (`Py`: `strip`, `split`, `lower`, `int()`, `startswith`, `in`) and the bit arithmetic (`Bits`: XOR on Python integers, shifts and masks) are modelled once and shared.

## Model

| member | source | states |
|---|---|---|
| Protocol.Zeros | led_controller/raspberry_pi/utils/protocol.py:36 | The default data list of a fresh packet is 32 zero bytes. |
| Protocol.Checksum | led_controller/raspberry_pi/utils/protocol.py:39-46 | The XOR of command, length and the covered data bytes. It fails with IndexError exactly when `data_length` runs past the data list. |
| Protocol.ChecksumIsByte | led_controller/raspberry_pi/utils/protocol.py:39-46 | When every field is a byte and the length is covered, the checksum succeeds and is itself a byte. |
| Protocol.Pad | led_controller/raspberry_pi/utils/protocol.py:51-55 | The `32s` field is exactly 32 bytes: the data truncated, or padded with zeros. |
| Protocol.Pack | led_controller/raspberry_pi/utils/protocol.py:51-55 | `struct.pack` succeeds exactly when every field is a byte. Command and length come first. |
| Protocol.Decode | led_controller/raspberry_pi/utils/protocol.py:58-74 | ValueError for any length other than 35, and IndexError for a length byte above 32. Otherwise the frame decodes exactly when its trailing byte equals the recomputed checksum, and a mismatch raises ValueError. A decoded packet keeps the first `data_length` payload bytes. |
| Protocol.EncodeSucceeds | led_controller/raspberry_pi/utils/protocol.py:48-56 | `to_bytes` succeeds if and only if every field is a byte and the length is covered by the data. A length past the data raises IndexError. |
| Protocol.EncodeLayout | led_controller/raspberry_pi/utils/protocol.py:48-56 | The frame is command, length, the 32 padded data bytes, then the checksum. |
| Protocol.RoundTrip | led_controller/raspberry_pi/utils/protocol.py:48-74 | Decoding an encoded sendable packet returns its command, length and checksum, and `data[:data_length]`. |
| Protocol.CommandTamperDetected | led_controller/raspberry_pi/utils/protocol.py:39-74 | Changing the command byte of an encoded frame makes `from_bytes` raise ValueError. |
| Protocol.DataTamperDetected | led_controller/raspberry_pi/utils/protocol.py:39-74 | Changing any payload byte below `data_length` makes `from_bytes` raise ValueError. |
| Protocol.ChecksumTamperDetected | led_controller/raspberry_pi/utils/protocol.py:70-72 | Changing the checksum byte makes `from_bytes` raise ValueError. |
| Protocol.ValidatedStripId | led_controller/raspberry_pi/utils/protocol.py:82-83 | For every integer, negatives included, the result lies in 0..7. It keeps ids already in range and differs from its input by a multiple of 8. |
| Protocol.ValidatedStripIdIdempotent | led_controller/raspberry_pi/utils/protocol.py:82-83 | Normalising twice is normalising once. |
| Protocol.ValidatedStripIdPeriodic | led_controller/raspberry_pi/utils/protocol.py:82-83 | Ids that differ by a multiple of 8 normalise alike. |
| Protocol.CreateLedPulsePacket | led_controller/raspberry_pi/utils/protocol.py:86-88 | The pulse packet is always sendable: bytes only, length 1, within the payload. |
| Protocol.PulseFrame | led_controller/raspberry_pi/utils/protocol.py:86-88 | The pulse frame is `0x01, 1, s`, then 31 zeros, then checksum `s`, where `s` is the normalised strip. |
| Protocol.CreateLedEffectPacket | led_controller/raspberry_pi/utils/protocol.py:90-93 | Command 0x02, length `2 + len(params)`. `data[0]` is the normalised strip, `data[1]` the effect type, and the params follow. |
| Protocol.CreateButtonLedPacket | led_controller/raspberry_pi/utils/protocol.py:96-98 | Command 0x11, length 4 and data `[button_id, r, g, b]`, with no brightness byte. |
| Protocol.CommandPacket.constructor | led_controller/raspberry_pi/utils/protocol.py:33-37 | Stores the four fields; a missing data list becomes 32 zeros. |
| Protocol.CommandPacket.CalculateChecksum | led_controller/raspberry_pi/utils/protocol.py:39-46 | The accumulator loop returns exactly `Checksum` of the fields, IndexError included. |
| Protocol.CommandPacket.ToBytes | led_controller/raspberry_pi/utils/protocol.py:48-56 | Returns the encoding of the old fields. Stores the recomputed checksum unless computing it raised, and changes no other field. |
| Protocol.CommandPacket.FromBytes | led_controller/raspberry_pi/utils/protocol.py:58-74 | Succeeds exactly when `Decode` does, with a fresh object holding the decoded fields; otherwise raises the same error. |
| Communication.Image | led_controller/src/shared/communication.h:6-11 | The packed struct is 35 bytes: command, length, the 32 data bytes, checksum. |
| Communication.ImageRoundTrip | led_controller/src/shared/communication.cpp:29 | `readBytes` into the struct and the struct's bytes are inverse: any 35 bytes survive the trip both ways. |
| Communication.Scanned | led_controller/src/shared/communication.cpp:68-70 | The checksum loop reads exactly `data_length` bytes, past the array when the length exceeds 32. |
| Communication.FwChecksumMatchesHost | led_controller/src/shared/communication.cpp:63-73 | With `data_length <= 32` the firmware checksum reads nothing past the array and equals the host's XOR fold. |
| Communication.CalculateChecksum | led_controller/src/shared/communication.cpp:63-73 | The accumulator loop returns the XOR of command, length and the scanned bytes. |
| Communication.Filled | led_controller/src/shared/communication.cpp:14-17 | The copy loop fills the first `min(length, 32)` slots from the caller's data. The other slots keep the uninitialised local's bytes. |
| Communication.SentLayout | led_controller/src/shared/communication.cpp:9-25 | A frame sent with length at most 32 carries the command, the length and the caller's first `length` bytes. Its checksum byte is the host's checksum of them. |
| Communication.HeartbeatDueAfter | led_controller/src/shared/communication.cpp:50 | In unsigned 32-bit arithmetic, `k` milliseconds after the last heartbeat the next is due exactly when `k > 1000`, across a wrap of `millis()` too. |
| Communication.ByteOf | led_controller/src/shared/communication.cpp:54-57 | `(now >> k) & 0xFF` is the byte of `now` at bit `k`. |
| Communication.BigEndian4 | led_controller/src/shared/communication.cpp:53-57 | The heartbeat payload holds the four bytes of `now`, most significant first. |
| Communication.BigEndianValue | led_controller/src/shared/communication.cpp:53-57 | Any four bytes spell a 32-bit value. |
| Communication.BigEndianRoundTrip | led_controller/src/shared/communication.cpp:53-57 | Reading the four heartbeat bytes back big-endian gives `now`. |
| Communication.Accepted | led_controller/src/shared/communication.cpp:27-44 | A frame is reported exactly when 35 bytes are waiting and their checksum byte matches the recomputed one. |
| Communication.Remaining | led_controller/src/shared/communication.cpp:28-43 | With fewer than 35 bytes waiting, nothing is consumed. Otherwise exactly the first 35 are. |
| Communication.Comm.constructor | led_controller/src/shared/communication.cpp:47 | The port starts with nothing sent and `lastHeartbeat` 0. |
| Communication.Comm.SendCommand | led_controller/src/shared/communication.cpp:9-25 | Appends exactly the 35-byte image of the filled struct, whose length field is `length` and whose checksum is recomputed. Nothing else changes. |
| Communication.Comm.ReceiveCommand | led_controller/src/shared/communication.cpp:27-44 | With fewer than 35 bytes waiting, returns false and consumes nothing. Otherwise consumes exactly 35 and returns true if and only if the checksum matches. |
| Communication.Comm.SendHeartbeat | led_controller/src/shared/communication.cpp:46-61 | When due, records `now` and sends a 4-byte big-endian heartbeat frame. Otherwise nothing changes. |
| Buttons.PressedIds | led_controller/src/input_devices/buttons.cpp:35-45 | The listed button numbers lie in `1..k`, each belongs to a button that fell, and they strictly increase. |
| Buttons.PressedIdsComplete | led_controller/src/input_devices/buttons.cpp:35-45 | Every button that fell is listed, as `i + 1`. |
| Buttons.PressLinesInOrder | led_controller/src/input_devices/buttons.cpp:39-44 | The text emitted is one `BUTTON_PRESS:<i+1>\n` line per fallen button, in increasing order, and nothing for the others. |
| Buttons.ReadingsLayout | led_controller/src/input_devices/buttons.cpp:52-55 | Reading `i` sits at position `2i`. A comma follows it exactly when it is not the last, so there is no trailing comma. |
| Buttons.PinStatesShape | led_controller/src/input_devices/buttons.cpp:51-56 | With `n` buttons the debug line holds `n` readings and `n - 1` commas, and ends in a newline. |
| Buttons.ButtonScanner.constructor | led_controller/src/input_devices/buttons.cpp:48 | Nothing written yet, and `lastDebug` starts at 0. |
| Buttons.ButtonScanner.LoopButtons | led_controller/src/input_devices/buttons.cpp:33-58 | Appends the press lines, then the debug line only when more than 10000 ms have passed in unsigned arithmetic. Only then is `lastDebug` updated. |
| Buttons.ButtonScanner.EmitPresses | led_controller/src/input_devices/buttons.cpp:35-45 | The button loop appends exactly the press lines. |
| Buttons.ButtonScanner.EmitPinStates | led_controller/src/input_devices/buttons.cpp:51-56 | The printing loop appends exactly the `PIN_STATES:` line. |
| TeensyASpecific.HandleButtonLedCommand | led_controller/src/teensy_a/teensy_a_specific.cpp:36-42 | The button, brightness and r, g, b are frame bytes 2..6, that is `data[0..5)`, whatever `data_length` says. |
| TeensyASpecific.SensorPayload | led_controller/src/teensy_a/teensy_a_specific.cpp:62-66 | The payload is `[0x01, (v >> 8) & 0xFF, v & 0xFF, digital]`. |
| TeensyASpecific.SensorValueInPayload | led_controller/src/teensy_a/teensy_a_specific.cpp:63-66 | For a 16-bit reading, the middle bytes read big-endian give back the value. The id is 1, and the last byte is 1 for HIGH and 0 for LOW. |
| TeensyASpecific.SensorReadDueAfter | led_controller/src/teensy_a/teensy_a_specific.cpp:29-31 | `k` ms after the last read, across a wrap of `millis()` or not, the next read is due exactly when `k > 100`. |
| TeensyASpecific.ReadAndSendSensorData | led_controller/src/teensy_a/teensy_a_specific.cpp:57-69 | Appends exactly one `CMD_SENSOR_DATA` frame of length 4 carrying the sensor payload. |
| TeensyASpecific.SensorFrameLayout | led_controller/src/teensy_a/teensy_a_specific.cpp:62-68 | The sensor frame is command 0x20 with length 4 and the payload in bytes 2..5. Its checksum is the host's checksum of that payload. |
| TeensyASpecific.TeensyA.constructor | led_controller/src/teensy_a/teensy_a_specific.cpp:29 | Nothing handled yet, and `lastSensorRead` starts at 0. |
| TeensyASpecific.TeensyA.LoopTeensyA | led_controller/src/teensy_a/teensy_a_specific.cpp:16-34 | Receives one frame. Only a valid `CMD_BUTTON_LED` frame is handled; every other frame is ignored. The sensor timestamp moves to `now` exactly when more than 100 ms have passed. |
| OctoLedStrips.FirstInactive | led_controller/src/led_controllers/octo_led_strips.cpp:43-52 | None exactly when every slot is active. Otherwise the slot found is inactive and every slot before it is active. |
| OctoLedStrips.TriggerOutcome | led_controller/src/led_controllers/octo_led_strips.cpp:40-54 | A strip outside 0..7 or a full pool changes nothing. Otherwise the lowest inactive slot takes `(timestamp, strip)` and no other slot changes. Active pulses stay on valid strips. |
| OctoLedStrips.LitPixelInBuffer | led_controller/src/led_controllers/octo_led_strips.cpp:137-139 | A pixel `strip * 50 + ledIndex` lit by a pulse lies inside the 400-pixel buffer, on the pulse's own strip at that LED. |
| OctoLedStrips.EffectNumbering | led_controller/src/led_controllers/octo_led_strips.cpp:162-184 | Effect ids 0..3 select OFF, RED_BREATHING, SINE_BREATHING and PULSES_ONLY in the enum's numbering. No other id selects a mode. |
| OctoLedStrips.EffectTransitions | led_controller/src/led_controllers/octo_led_strips.cpp:159-187 | Only an `LED_EFFECT` frame with a payload and an id up to 3 changes the mode, to the mode so numbered. The breathing clock restarts exactly for ids 1 and 2. |
| OctoLedStrips.LedStrips.constructor | led_controller/src/led_controllers/octo_led_strips.cpp:65-77 | Every pulse slot starts inactive. The initial mode is RED_BREATHING and the breathing clock starts at 0. |
| OctoLedStrips.LedStrips.Setup | led_controller/src/led_controllers/octo_led_strips.cpp:24-38 | Clears the `active` flag of all 8 slots, keeping their other fields, and starts the breathing clock at `now`. |
| OctoLedStrips.LedStrips.TriggerLedPulse | led_controller/src/led_controllers/octo_led_strips.cpp:40-54 | The slot array after the search loop is the `Triggered` pool, whose behaviour `TriggerOutcome` states. |
| OctoLedStrips.LedStrips.DrawAllPulses | led_controller/src/led_controllers/octo_led_strips.cpp:130-145 | Each active slot whose LED index is on the strip lights exactly pixel `strip * 50 + ledIndex`. A slot whose index left the strip is retired. No other pixel or slot changes. |
| OctoLedStrips.LedStrips.DrawBackground | led_controller/src/led_controllers/octo_led_strips.cpp:80-128 | Every pixel takes the breathing colour in a breathing mode, and black otherwise. |
| OctoLedStrips.LedStrips.Dispatch | led_controller/src/led_controllers/octo_led_strips.cpp:151-188 | A pulse frame triggers on strip `data[0]`, or strip 0 for an empty payload. An effect frame moves the mode as `EffectTransitions` states. Other commands change nothing. |
| OctoLedStrips.LedStrips.LoopLedStrips | led_controller/src/led_controllers/octo_led_strips.cpp:147-212 | Dispatches at most one accepted frame. Every pixel then shows the background, except those the active pulses light, and finished pulses are retired. |
| Eyes.SumSnoc | led_controller/src/teensy_a/eyes.cpp:57 | Adding one more count at the end adds it to the running total. |
| Eyes.OffsetIsPrefixSum | led_controller/src/teensy_a/eyes.cpp:36-42 | `computeEyeOffset(e)` is the sum of the counts of the eyes before `e`. Taken at `NUM_EYES`, it is the total `setupEyes` computes. |
| Eyes.OffsetMonotone | led_controller/src/teensy_a/eyes.cpp:36-42 | Offsets never decrease with the eye index, so the eyes' LED ranges do not overlap. |
| Eyes.OffsetBound | led_controller/src/teensy_a/eyes.cpp:36-42 | With at most 24 LEDs per eye, the eyes before `e` fit in `e` slots of the `eyeLeds` buffer. |
| Eyes.FirstIdle | led_controller/src/teensy_a/eyes.cpp:72-81 | None exactly when every ripple slot is active. Otherwise the slot found is inactive and every earlier slot is active. |
| Eyes.RippleOutcome | led_controller/src/teensy_a/eyes.cpp:71-82 | A full pool is left unchanged. Otherwise exactly the lowest idle slot becomes active and stores its own index, because the loop variable shadows the eye argument. Every active slot stays indexed by its slot. |
| Eyes.Boosts | led_controller/src/teensy_a/eyes.cpp:100-116 | The processed ripples leave one boost count per eye: every wave index stays below `NUM_EYES`. |
| Eyes.BoostsCountRipples | led_controller/src/teensy_a/eyes.cpp:100-116 | The boosts add up to the number of travelling ripples: each brightens exactly one eye, once. |
| Eyes.ShowsUpToFrame | led_controller/src/teensy_a/eyes.cpp:118-139 | Writing at or after eye `k`'s first LED keeps the colours of the eyes before it. |
| Eyes.EyeLeds.constructor | led_controller/src/teensy_a/eyes.cpp:6-31 | The initial state has every ripple inactive, a total of 0, empty state and multiplier vectors, and the breathing clock at 0. |
| Eyes.EyeLeds.ComputeEyeOffset | led_controller/src/teensy_a/eyes.cpp:36-42 | The loop returns the sum of the counts before eye `e`. |
| Eyes.EyeLeds.Setup | led_controller/src/teensy_a/eyes.cpp:44-68 | `total_eye_leds` is the sum of all counts, which is `computeEyeOffset(NUM_EYES)` and fits the buffer. The registered LEDs are cleared. One false state and one 1.0 multiplier are appended per eye. The breathing clock starts at `now`. |
| Eyes.EyeLeds.TriggerRipple | led_controller/src/teensy_a/eyes.cpp:71-82 | The slot array after the loop is the pool `RippleOutcome` describes. |
| Eyes.EyeLeds.SetEyeStatus | led_controller/src/teensy_a/eyes.cpp:85-88 | Only `eye_states[eye]` changes, then a ripple is triggered. |
| Eyes.EyeLeds.LoopEyes | led_controller/src/teensy_a/eyes.cpp:90-141 | The multipliers are reset and boosted by the travelling ripples. No ripple slot changes, because the loop clears `active` on a copy. Eye `e`'s LEDs take its colour, and no LED past `total_eye_leds` is written. |
| Eyes.EyeLeds.BoostEyes | led_controller/src/teensy_a/eyes.cpp:93-116 | The multiplier reset and the ripple loop leave exactly `Boosts` for the eyes, and change no other field. |
| Eyes.EyeLeds.DrawEyes | led_controller/src/teensy_a/eyes.cpp:118-139 | Every eye's LEDs show its colour, and nothing past the last eye changes. |
| Eyes.EyeLeds.FillEye | led_controller/src/teensy_a/eyes.cpp:136-138 | Exactly the LEDs `offset(e)..offset(e+1)` take the colour. |
| HardwareId.FromId | led_controller/include/hardware_id.h:11-21 | The enum value of the type cast from an id in 0..3 is that id. |
| HardwareId.InvertTwoBits | led_controller/src/shared/hardware_id.cpp:19 | `(~x) & 0x03` on the promoted two-bit id is `3 - x`: both bits inverted. |
| HardwareId.GetDeviceType | led_controller/src/shared/hardware_id.cpp:3-22 | The device id is `2*(pin1 LOW) + (pin0 LOW)`, so a fitted jumper sets its bit. |
| HardwareId.PinTable | led_controller/src/shared/hardware_id.cpp:16-21 | Both pins HIGH give TEENSY_A, pin 0 LOW gives TEENSY_B, pin 1 LOW gives TEENSY_C, both LOW give UNKNOWN. |
| HardwareId.PinsBijective | led_controller/src/shared/hardware_id.cpp:16-21 | Different pin readings give different types, and every type has a pin reading. |
| HardwareId.NamesDistinct | led_controller/src/shared/hardware_id.cpp:24-31 | A, B and C have different names, and none of them is "Unknown Device". |
| HardwareId.Capabilities | led_controller/src/shared/hardware_id.cpp:33-43 | Buttons and button LEDs exactly when both pins read HIGH (board A). Octo strips exactly when the pins differ (B or C). No type has both, and UNKNOWN has neither. |
| Config.TeensyIds | led_controller/raspberry_pi/utils/config.py:19-23 | The ids iterated in dict order are exactly the mapping's keys, each once. |
| DeviceUtils.FindTeensyBySerial | led_controller/raspberry_pi/utils/device_utils.py:17-54 | Returns the device of the first port, in enumeration order, whose `serial_number` equals the target. Returns None if and only if no port's serial number does. |
| DeviceUtils.FindTeensy | led_controller/raspberry_pi/utils/device_utils.py:57-85 | An id not in `TEENSY_MAPPING` after lower-casing gives None without a search. A known id gives `find_teensy_by_serial` of its serial. |
| DeviceUtils.FindTeensyIgnoresCase | led_controller/raspberry_pi/utils/device_utils.py:68 | `find_teensy(id)` equals `find_teensy(id.lower())`. |
| DeviceUtils.UpperCaseId | led_controller/raspberry_pi/utils/device_utils.py:68-78 | `"A"` and `"a"` both find board A's serial. |
| DeviceUtils.KeysDistinct | led_controller/raspberry_pi/utils/device_utils.py:110 | The keys `teensy_a`, `teensy_b` and `teensy_c` are distinct, so no detection overwrites another. |
| DeviceUtils.DetectAllTeensys | led_controller/raspberry_pi/utils/device_utils.py:91-112 | Key `teensy_<id>` is present if and only if `find_teensy(id)` found a port, and holds that port. There are no other keys. |
| DeviceUtils.Entry | led_controller/raspberry_pi/utils/device_utils.py:125-131 | The device and description are copied. A falsy serial number becomes `'Unknown'`. `hwid` is present exactly when the port has the attribute. |
| DeviceUtils.GetAllSerialPorts | led_controller/raspberry_pi/utils/device_utils.py:115-133 | One entry per port, in enumeration order. |
| LegacyDeviceUtils.FindTeensyA | led_controller/raspberry_pi/device_utils.py:51-61 | A device found for board A belongs to the first port carrying A's serial number. |
| LegacyDeviceUtils.FindTeensyB | led_controller/raspberry_pi/device_utils.py:64-74 | A device found for board B belongs to the first port carrying B's serial number. |
| LegacyDeviceUtils.FindersMatchCatalogue | led_controller/raspberry_pi/device_utils.py:51-74 | `find_teensy_a/b` give what the newer `find_teensy("a"/"b")` gives. |
| LegacyDeviceUtils.DetectAllTeensys | led_controller/raspberry_pi/device_utils.py:77-100 | Keys are a subset of `{teensy_a, teensy_b}`. Each key is present exactly when its finder's result is truthy, and holds that device. |
| LegacyDeviceUtils.FindAnyTeensyPort | led_controller/raspberry_pi/device_utils.py:106-133 | Returns the first port matching the parsed condition: `'USB'` in the description, `'ACM'` or `'tty'` in the device, or the VID:PID in `hwid`, all only when `hwid` exists. Returns None if and only if no port matches. |
| LegacyDeviceUtils.PortWithoutHwidSkipped | led_controller/raspberry_pi/device_utils.py:122-125 | Because the conditional expression binds loosest, a port without an `hwid` attribute never matches, whatever its description or device. |
| DualTeensy.ButtonStrip | led_controller/raspberry_pi/utils/dual_teensy.py:127-132 | A line not starting with `BUTTON_PRESS:` asks for nothing. A `BUTTON_PRESS:` line whose second `:`-field `int()` accepts as n asks for strip n-1, and a strip asked for is always such an int minus one. |
| DualTeensy.ButtonLineParses | led_controller/raspberry_pi/utils/dual_teensy.py:127-132 | `BUTTON_PRESS:<n>`, with `n` in decimal, asks for strip `n - 1`. |
| DualTeensy.SecondFieldOfDigits | led_controller/raspberry_pi/utils/dual_teensy.py:128 | `line.split(":")[1]` of `BUTTON_PRESS:<digits>` is the digits. |
| DualTeensy.LineAction | led_controller/raspberry_pi/utils/dual_teensy.py:121-140 | A line that decodes asks for exactly what its stripped text asks for. A line that does not decode asks for nothing, because the decode error is caught. |
| DualTeensy.PulseBytesEncoded | led_controller/raspberry_pi/utils/dual_teensy.py:105-106 | The bytes written are the encoding of `create_led_pulse_packet(strip_id)`. |
| DualTeensy.DetectedKeys | led_controller/raspberry_pi/utils/dual_teensy.py:49-63 | The three keys `connect` tests are present exactly when all three boards were found, and each holds the device `find_teensy` found. |
| DualTeensy.DualTeensyTester.constructor | led_controller/raspberry_pi/utils/dual_teensy.py:35-44 | No ports, no handles, not running, and no callback calls yet. |
| DualTeensy.DualTeensyTester.OpenBoards | led_controller/raspberry_pi/utils/dual_teensy.py:61-92 | Opens A, B, C in order and succeeds only when all three open. A failure on B closes A; a failure on C closes A and B. The closed handles stay in their fields. |
| DualTeensy.DualTeensyTester.Connect | led_controller/raspberry_pi/utils/dual_teensy.py:46-92 | Returns False, with nothing opened or recorded, when A, B or C is undetected. Otherwise records the three devices and returns True exactly when all three open. |
| DualTeensy.DualTeensyTester.SendToReceivers | led_controller/raspberry_pi/utils/dual_teensy.py:94-114 | Nothing is written if B or C is missing. Otherwise the same pulse frame goes to B, then to C, and a write failure on B skips C. |
| DualTeensy.DualTeensyTester.HandleLine | led_controller/raspberry_pi/utils/dual_teensy.py:121-140 | A press line for strip `s` sends the pulse for `s`, then gives `s`, un-normalised, to the callback once. Any other line, including an unparsable one, writes nothing and calls nothing. |
| DualTeensy.DualTeensyTester.HandlePress | led_controller/raspberry_pi/utils/dual_teensy.py:131-137 | The receivers get the pulse for `s`, and only afterwards does the callback, if set, get `s`. |
| DualTeensy.DualTeensyTester.MonitorStep | led_controller/raspberry_pi/utils/dual_teensy.py:118-142 | One loop pass. It ends when `running` is off, or when `in_waiting` raises on a closed port. Otherwise, with bytes waiting on A, it takes exactly one line off A and handles it. |
| DualTeensy.DualTeensyTester.StartMonitoring | led_controller/raspberry_pi/utils/dual_teensy.py:173-191 | Returns False, leaving `running` unchanged, unless A and B are set (C is not checked). Otherwise sets `running`. |
| DualTeensy.DualTeensyTester.StopMonitoring | led_controller/raspberry_pi/utils/dual_teensy.py:193-210 | Clears `running`. Closes each set handle exactly once and clears it, so a second call closes nothing. |
| DualTeensy.DualTeensyTester.Enter | led_controller/raspberry_pi/utils/dual_teensy.py:212-217 | Returns the tester itself when `connect` succeeds; raises ConnectionError exactly when it fails. |
| LegacyDualTeensy.DualTeensyTester.constructor | led_controller/raspberry_pi/dual_teensy.py:36-43 | No ports, no handles, not running, and no callback calls yet. |
| LegacyDualTeensy.DualTeensyTester.OpenBoards | led_controller/raspberry_pi/dual_teensy.py:57-76 | Opens A, then B, and succeeds only when both open. A failure on B closes A, which stays in its field. |
| LegacyDualTeensy.DualTeensyTester.Connect | led_controller/raspberry_pi/dual_teensy.py:45-76 | Returns False, with nothing opened, when A or B is undetected. Otherwise returns True exactly when both open. |
| LegacyDualTeensy.DualTeensyTester.SendToTeensyB | led_controller/raspberry_pi/dual_teensy.py:78-93 | Writes nothing when B is unset. Otherwise writes exactly one pulse frame, which is lost when the write raises. |
| LegacyDualTeensy.DualTeensyTester.HandleLine | led_controller/raspberry_pi/dual_teensy.py:99-119 | For a `BUTTON_PRESS:<n>` line, strip `n-1` is sent to B and then given to the callback if one is set. Any other line does nothing. |
| LegacyDualTeensy.DualTeensyTester.HandlePress | led_controller/raspberry_pi/dual_teensy.py:110-116 | B gets the pulse for `s`, then the callback, if set, gets `s`. |
| LegacyDualTeensy.DualTeensyTester.MonitorStep | led_controller/raspberry_pi/dual_teensy.py:97-121 | One loop pass. It ends when `running` is off or `in_waiting` raises. Otherwise it takes at most one line off A and handles it. |
| LegacyDualTeensy.DualTeensyTester.StartMonitoring | led_controller/raspberry_pi/dual_teensy.py:137-153 | Succeeds, setting `running`, exactly when both handles are set. |
| LegacyDualTeensy.DualTeensyTester.StopMonitoring | led_controller/raspberry_pi/dual_teensy.py:155-168 | Clears `running`, and closes and clears each set handle exactly once. It is idempotent. |
| LegacyDualTeensy.DualTeensyTester.Enter | led_controller/raspberry_pi/dual_teensy.py:170-175 | Raises ConnectionError exactly when `connect` fails; otherwise returns the tester. |
| BothTeensysTest.DigitRun | led_controller/raspberry_pi/test/test_both_teensys.py:73 | `\d+` is greedy: the result is the longest run of digits at the start of the text. |
| BothTeensysTest.SerSearch | led_controller/raspberry_pi/test/test_both_teensys.py:73-75 | `re.search(r'SER=(\d+)')` gives no match if and only if no `SER=` is followed by a digit. Otherwise its group is the non-empty digit run after the leftmost such `SER=`. |
| BothTeensysTest.SerSearchFirst | led_controller/raspberry_pi/test/test_both_teensys.py:73-75 | The search reports the digits after the leftmost match, whichever match is named. |
| BothTeensysTest.SerSearchFinds | led_controller/raspberry_pi/test/test_both_teensys.py:71-75 | A line `p + "SER=" + d + t` yields the serial `d` when `p` holds no earlier match and `t` does not continue the digits. |
| BothTeensysTest.DigitRunOf | led_controller/raspberry_pi/test/test_both_teensys.py:73 | The digit run of `d + t` is `d` when `t` does not start with a digit. |
| BothTeensysTest.SerialKey | led_controller/raspberry_pi/test/test_both_teensys.py:76-81 | Only the script's own A and B serials have a key, `teensy_a` and `teensy_b` respectively. |
| BothTeensysTest.DetectTeensyPorts | led_controller/raspberry_pi/test/test_both_teensys.py:54-91 | The line loop returns exactly the `Scan` of the output lines, and `{}` when the command fails. |
| BothTeensysTest.ScanKeys | led_controller/raspberry_pi/test/test_both_teensys.py:76-81 | Result keys are a subset of `{teensy_a, teensy_b}`. |
| BothTeensysTest.DetectedKeysBounded | led_controller/raspberry_pi/test/test_both_teensys.py:54-91 | Whatever the command prints, or if it fails, the detected keys are a subset of `{teensy_a, teensy_b}`. |
| BothTeensysTest.PortLineTruthy | led_controller/raspberry_pi/test/test_both_teensys.py:69-72 | A `/dev/ttyACM` line stripped is never empty, so it always sets a current port. |
| BothTeensysTest.PairRecorded | led_controller/raspberry_pi/test/test_both_teensys.py:69-82 | A port line followed by a `SER=` line stores the stripped port under the serial's key, overwriting an earlier entry. An unknown serial stores nothing. Either way, no current port is left. |
| BothTeensysTest.SecondSerialIgnored | led_controller/raspberry_pi/test/test_both_teensys.py:72-82 | After a `SER=` line, a second non-port line changes nothing, so each port line pairs with at most one serial line. |
| BothTeensysTest.LocalPulseAgainstShared | led_controller/raspberry_pi/test/test_both_teensys.py:35-52 | For strips 0..7 the script sends the shared pulse frame. For 8..255 it sends the raw strip, a different frame. Outside 0..255, `bytes()` raises ValueError. |
| BothTeensysTest.DualTeensyTester.constructor | led_controller/raspberry_pi/test/test_both_teensys.py:94-100 | No ports, no handles, and not running. |
| BothTeensysTest.DualTeensyTester.OpenBoards | led_controller/raspberry_pi/test/test_both_teensys.py:114-133 | Opens A, then B, and succeeds only when both open. A failure on B closes A. |
| BothTeensysTest.DualTeensyTester.Connect | led_controller/raspberry_pi/test/test_both_teensys.py:102-133 | Returns False, with nothing opened, unless both keys were parsed from the device list. Otherwise returns True exactly when both open. |
| BothTeensysTest.DualTeensyTester.SendToTeensyB | led_controller/raspberry_pi/test/test_both_teensys.py:135-148 | Nothing happens without B. Otherwise the un-normalised frame is written when it can be built, and the ValueError of an out-of-byte strip escapes before the write. |
| BothTeensysTest.DualTeensyTester.HandleLine | led_controller/raspberry_pi/test/test_both_teensys.py:153-170 | A button line sends its raw strip to B, and a build failure is caught by the monitor's handler. Any other line writes nothing. |
| BothTeensysTest.DualTeensyTester.MonitorStep | led_controller/raspberry_pi/test/test_both_teensys.py:150-172 | One loop pass. It ends when `running` is off or `in_waiting` raises. Otherwise it takes at most one line off A and handles it. |
| TeensyCommTest.FromBytes | led_controller/raspberry_pi/test_teensy_communication.py:38-57 | Fewer than 35 bytes give None. A length above 32 runs the checksum loop off the payload (IndexError). Otherwise the packet of bytes 0..34, with all 32 payload bytes, is returned exactly when byte 34 is the XOR checksum. |
| TeensyCommTest.FromBytesIgnoresTail | led_controller/raspberry_pi/test_teensy_communication.py:41-47 | Only the first 35 bytes decide the result. |
| TeensyCommTest.AcceptsEncoded | led_controller/raspberry_pi/test_teensy_communication.py:38-57 | Every frame the host encoder builds is accepted. The packet has the payload zero-padded to 32 bytes and the sender's checksum. |
| TeensyCommTest.ButtonLedFrame | led_controller/raspberry_pi/test_teensy_communication.py:83-101 | The button-LED frame is built exactly when button, brightness and colour are bytes, and raises ValueError otherwise. It is 0x11, length 5, the five values in that order, 27 zeros, and their XOR checksum. |
| TeensyCommTest.AnalogValue | led_controller/raspberry_pi/test_teensy_communication.py:178 | `(hi << 8) \| lo` is `hi * 256 + lo`. |
| TeensyCommTest.TimestampValue | led_controller/raspberry_pi/test_teensy_communication.py:184 | The four or-ed shifted bytes are the big-endian value of the first four payload bytes. |
| TeensyCommTest.OrBytes | led_controller/raspberry_pi/test_teensy_communication.py:184 | The shifted bytes do not overlap, so or-ing them equals adding them. |
| TeensyCommTest.Feedback | led_controller/raspberry_pi/test_teensy_communication.py:170-173 | Only buttons 0..3 get a feedback colour. |
| TeensyCommTest.HeartbeatReport | led_controller/raspberry_pi/test_teensy_communication.py:182-185 | A heartbeat frame carrying the big-endian bytes of `now` is reported as timestamp `now`. |
| TeensyCommTest.SensorReport | led_controller/raspberry_pi/test_teensy_communication.py:175-180 | A sensor frame carrying id 1, a 16-bit reading and a digital byte is reported with exactly those values. |
| TeensyCommTest.TeensyAMonitor.constructor | led_controller/raspberry_pi/test_teensy_communication.py:60-64 | Stores the port and baud rate, with no handle and not running. |
| TeensyCommTest.TeensyAMonitor.SendButtonLedCommand | led_controller/raspberry_pi/test_teensy_communication.py:83-104 | Does nothing unless connected. Otherwise writes the button-LED frame. A ValueError from building the frame or a failed write escapes, and nothing is written. |
| TeensyCommTest.TeensyAMonitor.ReadPacket | led_controller/raspberry_pi/test_teensy_communication.py:106-119 | Reads nothing unless connected with at least 35 bytes waiting. Otherwise consumes exactly 35 bytes and returns their decoding, with an exception read as None. |
| TeensyCommTest.TeensyAMonitor.HandlePacket | led_controller/raspberry_pi/test_teensy_communication.py:161-188 | The report follows the packet's command and length. Only a press of buttons 0..3 sends back that button's colour at brightness 255. A failed write raises SerialException; nothing else raises. |
| TeensyCommTest.FindTeensyPort | led_controller/raspberry_pi/test_teensy_communication.py:190-200 | Returns the device of the first port with `USB` in its description or `ACM`/`tty` in its device. Otherwise returns `/dev/ttyACM0`. |
| TeensyCommTextTest.HandleTextCommand | led_controller/raspberry_pi/test/test_teensy_communication.py:153-178 | A `BUTTON_PRESS:` line is a press of the button after the colon, coloured only for buttons 1..6, or a caught parse error. Otherwise a `PIN_STATES:` line is pin states, and anything else is debug output. The three cases are disjoint and exhaustive. |
| TeensyCommTextTest.ButtonLineClassified | led_controller/raspberry_pi/test/test_teensy_communication.py:157-167 | The line the firmware prints for button `n` reads back as a press of button `n`. |
| TeensyCommTextTest.EmptyButtonField | led_controller/raspberry_pi/test/test_teensy_communication.py:159-170 | `BUTTON_PRESS:` with nothing after the colon is a caught error, not a press. |
| TeensyCommTextTest.PinStatesLine | led_controller/raspberry_pi/test/test_teensy_communication.py:172-174 | A `PIN_STATES:` line is never taken for a press. |
| IdentifyTeensys.Kept | led_controller/raspberry_pi/identify_teensys.py:21-27 | A line adds one message exactly when it decodes and is not blank. That message is the stripped text. |
| IdentifyTeensys.CollectedStripped | led_controller/raspberry_pi/identify_teensys.py:19-27 | Every collected message is non-blank and already stripped. |
| IdentifyTeensys.Classify | led_controller/raspberry_pi/identify_teensys.py:32-44 | `B` exactly when some message contains `Teensy B`. Otherwise `A` exactly when one contains `BUTTON_PRESS`, `PIN_STATES` or `Starting Teensy A`. Otherwise `?`. |
| IdentifyTeensys.ClassifyIgnoresOrder | led_controller/raspberry_pi/identify_teensys.py:32-44 | The verdict does not depend on the order of the messages. |
| IdentifyTeensys.SilentPortUnknown | led_controller/raspberry_pi/identify_teensys.py:42-44 | A port that prints nothing is unknown. |
| IdentifyTeensys.CheckPort | led_controller/raspberry_pi/identify_teensys.py:9-48 | A port that fails to open gives None. Otherwise all waiting lines are consumed, the port is closed once, and the verdict on the collected messages is returned. |
| IdentifyTeensys.CollectMessages | led_controller/raspberry_pi/identify_teensys.py:17-27 | The loop drains the waiting bytes and collects exactly the messages of their lines. |
| SerialRelay.Manufacturer | led_controller/serial_relay.py:21 | A missing attribute reads as empty. A `None` manufacturer raises AttributeError. |
| SerialRelay.FindTeensyPort | led_controller/serial_relay.py:14-30 | The device of the first port whose lower-cased description or manufacturer contains an indicator. AttributeError if a `None` manufacturer comes first. None exactly when every port is readable and unmarked. |
| SerialRelay.DescriptionFound | led_controller/serial_relay.py:18-28 | A readable first port whose description starts with `teensy` is chosen. |
| SerialRelay.OnKeyPress | led_controller/serial_relay.py:32-41 | Only the key `a` writes the byte `a` and flushes. A special key or any other key does nothing. A failed write raises before the flush. |
| SoundMain.RisingMembers | led_controller/raspberry_pi/sound/main.py:40-46 | A pin fires in a pass exactly when it reads HIGH while recorded inactive. It fires at most once, and only if it has been scanned. |
| SoundMain.GpioButtonInputs.constructor | led_controller/raspberry_pi/sound/main.py:31-36 | Every pin starts inactive. |
| SoundMain.GpioButtonInputs.Poll | led_controller/raspberry_pi/sound/main.py:38-47 | One pass fires the rising pins in pin order and records each pin's reading as its new activation. |
| SoundMain.FirstPollFiresHighPins | led_controller/raspberry_pi/sound/main.py:36-46 | From the initial state, the first pass fires exactly the pins read HIGH. |
| SoundMain.SecondPollFiresRisingEdges | led_controller/raspberry_pi/sound/main.py:40-46 | In consecutive passes a pin fires exactly on a LOW-to-HIGH edge, so holding a button fires once. |
| SoundMain.PyIndex | led_controller/raspberry_pi/sound/main.py:355 | Python list indexing: `-n..n-1` is accepted, with negatives counting from the end. Anything else raises IndexError. |
| SoundMain.TriggerDomain | led_controller/raspberry_pi/sound/main.py:349-361 | `trigger` accepts 15 and every index in -16..15. Any other index raises IndexError, since `//` floors and there are eight voices. |
| SoundMain.TriggerVoiceOfIndex | led_controller/raspberry_pi/sound/main.py:354-361 | For 0..14, the voice and the odd/even choice give back the index. Odd indices boost amplitude, frequency and pan; even ones boost amplitude only. |
| SoundMain.MinusOneIsLastVoice | led_controller/raspberry_pi/sound/main.py:354-359 | Index -1 fully boosts the last voice. |
| SoundMain.WiredInputsAccepted | led_controller/raspberry_pi/sound/main.py:363-395 | Distinct pins, and no pin or key bound in the engine ever raises. Among the keys routed through `trigger`, only `v` plays a clip. |
| Interop.HostFrameAccepted | led_controller/raspberry_pi/utils/protocol.py:48-56 | Whatever follows it, a frame from `to_bytes()` with `data_length <= 32` passes the firmware's checksum check in `receiveCommand`. The firmware then sees the host's command, length and data. |
| Interop.PulseReachesStrip | led_controller/raspberry_pi/utils/protocol.py:86-88 | A pulse asked for on any strip number is accepted by the strip board as an `LED_PULSE` frame for the normalised strip. The strip is within 0..7, the range `triggerLedPulse` draws. |
| Interop.EffectChosenByStrip | led_controller/raspberry_pi/utils/protocol.py:90-93 | The host puts the strip where the firmware reads the effect id, so the mode the strip board switches to depends on the strip and never on `effect_type`. |
| Interop.EffectTypeIgnored | led_controller/src/led_controllers/octo_led_strips.cpp:159-170 | Asking strip 2 for effect 0 (off) switches the strip board to sine breathing. |
| Interop.ButtonLedFiveBytes | led_controller/src/teensy_a/teensy_a_specific.cpp:36-42 | Board A reads the monitor script's five-byte button-LED frame field for field. |
| Interop.ButtonLedFourBytes | led_controller/raspberry_pi/utils/protocol.py:96-98 | The four-byte button-LED frame has no brightness byte, so board A reads red as brightness, green as red, blue as green, and a zero as blue. |
| Interop.FirmwareFrameDecoded | led_controller/src/shared/communication.cpp:9-25 | For `length <= 32`, the shared host decoder turns a frame `sendCommand` writes back into the firmware's command, length and data. |
| Interop.MonitorAcceptsFirmwareFrame | led_controller/raspberry_pi/test_teensy_communication.py:38-57 | The monitor's decoder accepts every frame `sendCommand` writes with `length <= 32`, checksum included. |
| Interop.HeartbeatReported | led_controller/raspberry_pi/test_teensy_communication.py:182-185 | The monitor reports a firmware heartbeat with the timestamp it was sent at. |
| Interop.SensorReported | led_controller/raspberry_pi/test_teensy_communication.py:175-180 | The monitor reports a firmware sensor frame with its id, 16-bit analog reading and digital reading. |
| Interop.PressLineAscii | led_controller/src/input_devices/buttons.cpp:41-43 | A press line is ASCII and holds exactly one newline, at its end. |
| Interop.PressLineStripped | led_controller/src/input_devices/buttons.cpp:41-43 | Stripping a press line removes only its newline. |
| Interop.PressLineBytes | led_controller/src/input_devices/buttons.cpp:41-43 | One `readline()` takes a whole press line, and its bytes decode back to the line. |
| Interop.PressLineRelayed | led_controller/raspberry_pi/utils/dual_teensy.py:121-140 | The line board A prints for button `i + 1`, read as one line, makes the relay pulse strip `i`. |
| Interop.PressLineCollected | led_controller/raspberry_pi/identify_teensys.py:19-27 | `check_port` keeps a press line, without its newline, as its only message. |
| Interop.PressLineIdentifiesA | led_controller/raspberry_pi/identify_teensys.py:32-41 | A port on which board A printed a press line is identified as board A. |
| Interop.PressBodyMarks | led_controller/raspberry_pi/identify_teensys.py:33-36 | A press line carries board A's mark and not board B's. |
| Py.ParseInt | led_controller/raspberry_pi/utils/dual_teensy.py:128 | Python's `int()` on text succeeds exactly when the stripped text is an optional sign followed by ASCII digits, with single underscores allowed between two digits. Anything else raises ValueError. Plain digit text gives its decimal value. |
| Py.UnderscoreBetweenDigits | led_controller/raspberry_pi/utils/dual_teensy.py:128 | `int("1_0")` is 10. |
| Py.LeadingUnderscore | led_controller/raspberry_pi/utils/dual_teensy.py:128 | `int("_1")` raises ValueError. |
| Py.TrailingUnderscore | led_controller/raspberry_pi/utils/dual_teensy.py:128 | `int("1_")` raises ValueError. |
| Py.DoubledUnderscore | led_controller/raspberry_pi/utils/dual_teensy.py:128 | `int("1__0")` raises ValueError. |

## Left out

- Threads, `time.sleep`, `threading.Timer`, the monitor loops' `while running` are not modelled. Each monitor is modelled as one pass (`MonitorStep`). Keyboard interrupts are not modelled either.
- Serial I/O is an abstract handle. Opening and writing can fail, and `in_waiting` can raise, by switches on the handle. Timeouts and partial reads are not modelled: bytes are taken to be waiting already.
- `LegacyDualTeensy`: the `config` and `protocol` modules that `raspberry_pi/dual_teensy.py` imports are not part of this model. Its serial numbers, command constants, pulse packet and frame encoding are taken from `utils/config.py` and `utils/protocol.py`, so a difference in those missing modules is not captured.
- UTF-8 decoding is modelled as ASCII only. A byte of 128 or more is a decode error, so multi-byte characters are not modelled. For the same reason, `Py.ParseInt` and `Py.Strip` handle only ASCII digits and ASCII whitespace. Python's `int()` also accepts other Unicode decimal digits and strips Unicode whitespace, but those never reach it from an ASCII-decoded line.
- `Py.Lower` lower-cases ASCII letters only. Python's `str.lower()` also maps non-ASCII capitals, for example U+212A KELVIN SIGN to `k`. `SerialRelay` applies it to a port's description and manufacturer, which are not ASCII-decoded here, so a port named only through such a capital is not found by the model.
- `Eyes.EyeLeds.SetEyeStatus` requires the eye index to be in range. `setEyeStatus` in `eyes.cpp` writes `eye_states[eye_index]` without a bounds check, so an out-of-range index is undefined behaviour in C++ and is not modelled.
- `BothTeensysTest.DigitRun` (with `BothTeensysTest.SerSearch`) matches only ASCII digits. Python's `\d` in `re.search(r'SER=(\d+)')` also matches other Unicode decimal digits, so for a `SER=` followed by such a digit the model skips that match and goes on to a later one. The `pio device list` text is not decoded as ASCII here, so this case is not excluded.
- Floating point is not modelled:
  - the breathing sine;
  - pulse and ripple progress, given as the resulting LED index or travel distance;
  - `DecayingParameter` ramps.
  - The eye brightness multiplier is kept as its number of 1.5 boosts.
- Hardware calls are inputs or are dropped:
  - FastLED and OctoWS2811 `show()`;
  - pyo audio objects and the clip player;
  - GPIO setup;
  - `digitalRead` and `analogRead`, whose readings are inputs;
  - the keyboard listener;
  - all printing and logging.
- `millis()` is read once per loop pass and given as `now`. The source reads it twice in the button loop and `loopTeensyA`, which differs only when the clock ticks between the reads.
- `readAndSendSensorData` is commented out in `loopTeensyA`. It is modelled as its own operation, and the loop only advances the sensor timestamp.
- The analog reading is taken as a nonnegative 32-bit value, as `analogRead` returns.
- `SoundMain.GpioButtonInputs.Poll` records the fired pins at the end of the pass rather than at each callback. The callbacks do not touch the activations, so the order among them is the same.
- The `hwid` attribute of a port is taken to be a string or missing. `str()` of other types is not modelled.
- `check_port`'s three-second window is not modelled: the bytes the board sends in it are the waiting bytes.
- The interactive `main()` functions, `print_available_ports`, and argument parsing are not modelled. So are the connect and monitor loops of the scripts, beyond the modelled pass.
- The sound engine's voices, filters, reverb and the frequency banks' values are not modelled. Only the number of voices (eight) is used.
