/** The LED receiver firmware of boards B and C
    (led_controller/src/led_controllers/octo_led_strips.cpp): a pool of
    eight travelling-pulse slots, the background effect mode, and the
    command dispatch of `loopLedStrips`.

    The OctoWS2811 drawing buffer is the array `pixels`, one colour per LED
    over the eight strips of 50; `setPixel(i, c)` is `pixels[i] := c` and
    `show()` is not modelled. The float parts of a frame are inputs: the
    breathing colour the sine computation gives, and for each pulse slot the
    LED index `int(progress * 50)` its elapsed time gives. `millis()` is read
    once per loop pass, as `now`. */
module OctoLedStrips {
  import opened Bits
  import opened Py
  import Protocol
  import opened Communication

  const MAX_ACTIVE_PULSES := 8
  const NUM_LED_STRIPS := 8
  const LED_STRIP_NUM_LEDS := 50
  const NUM_PIXELS := LED_STRIP_NUM_LEDS * NUM_LED_STRIPS
  const PULSE_COLOUR := 0x00FF_FFFF
  const BACKGROUND_COLOUR := 0

  /** `struct LedPulse { bool active; unsigned long startTime; int strip; }` */
  datatype LedPulse = LedPulse(active: bool, startTime: Word32, strip: int)

  datatype EffectMode = Off | RedBreathing | SineBreathing | PulsesOnly

  // ---------------------------------------------------------------------
  // The pulse pool

  /** Every active pulse runs on one of the eight strips. */
  predicate StripsInRange(slots: seq<LedPulse>) {
    forall i :: 0 <= i < |slots| && slots[i].active ==> 0 <= slots[i].strip < NUM_LED_STRIPS
  }

  /** The lowest-index inactive slot, if any. */
  function FirstInactive(slots: seq<LedPulse>): (r: Option<nat>)
    ensures r.None? <==> forall i :: 0 <= i < |slots| ==> slots[i].active
    ensures r.Some? ==>
      r.value < |slots| && !slots[r.value].active && forall j :: 0 <= j < r.value ==> slots[j].active
  {
    if slots == [] then None
    else if !slots[0].active then Some(0)
    else match FirstInactive(slots[1..])
      case None => None
      case Some(i) => Some(i + 1)
  }

  /** The pool after `triggerLedPulse(timestamp, strip)`. */
  function Triggered(slots: seq<LedPulse>, timestamp: Word32, strip: int): seq<LedPulse> {
    if 0 <= strip < NUM_LED_STRIPS then
      match FirstInactive(slots)
      case None => slots
      case Some(i) => slots[i := LedPulse(true, timestamp, strip)]
    else slots
  }

  /** A strip outside 0..7 or a full pool changes nothing; otherwise the
      lowest inactive slot takes the pulse and no other slot changes, and
      active pulses stay on valid strips. */
  lemma TriggerOutcome(slots: seq<LedPulse>, timestamp: Word32, strip: int)
    ensures !(0 <= strip < NUM_LED_STRIPS) ==> Triggered(slots, timestamp, strip) == slots
    ensures (forall i :: 0 <= i < |slots| ==> slots[i].active) ==> Triggered(slots, timestamp, strip) == slots
    ensures 0 <= strip < NUM_LED_STRIPS && (exists i :: 0 <= i < |slots| && !slots[i].active) ==>
      exists k :: 0 <= k < |slots| && !slots[k].active && (forall j :: 0 <= j < k ==> slots[j].active)
        && Triggered(slots, timestamp, strip) == slots[k := LedPulse(true, timestamp, strip)]
    ensures StripsInRange(slots) ==> StripsInRange(Triggered(slots, timestamp, strip))
  {
    var r := FirstInactive(slots);
    if 0 <= strip < NUM_LED_STRIPS && r.Some? {
      var k := r.value;
      assert !slots[k].active && (forall j :: 0 <= j < k ==> slots[j].active);
    }
  }

  /** Whether slot `p`, at LED index `ledIndex`, lights pixel `pixel`. */
  predicate Lights(p: LedPulse, ledIndex: int, pixel: int) {
    p.active && 0 <= ledIndex < LED_STRIP_NUM_LEDS && pixel == p.strip * LED_STRIP_NUM_LEDS + ledIndex
  }

  /** A pulse whose LED index has left the strip is retired. */
  function Retire(p: LedPulse, ledIndex: int): LedPulse {
    if p.active && !(0 <= ledIndex < LED_STRIP_NUM_LEDS) then p.(active := false) else p
  }

  /** A lit pixel lies on its pulse's strip, so inside the drawing buffer. */
  lemma LitPixelInBuffer(p: LedPulse, ledIndex: int, pixel: int)
    requires StripsInRange([p]) && Lights(p, ledIndex, pixel)
    ensures 0 <= pixel < NUM_PIXELS
    ensures pixel / LED_STRIP_NUM_LEDS == p.strip && pixel % LED_STRIP_NUM_LEDS == ledIndex
  {
    assert [p][0] == p;
    DivModUnique(pixel, LED_STRIP_NUM_LEDS, p.strip, ledIndex);
  }

  // ---------------------------------------------------------------------
  // Effects

  /** The mode an `LED_EFFECT` frame's `data[0]` selects: the enum's
      numbering, and nothing for other ids. */
  function EffectFor(effectId: Byte): Option<EffectMode> {
    match effectId
    case 0 => Some(Off)
    case 1 => Some(RedBreathing)
    case 2 => Some(SineBreathing)
    case 3 => Some(PulsesOnly)
    case _ => None
  }

  /** The enum value of a mode. */
  function EffectId(m: EffectMode): Byte {
    match m
    case Off => 0
    case RedBreathing => 1
    case SineBreathing => 2
    case PulsesOnly => 3
  }

  /** `EffectFor` selects exactly the mode whose number is given. */
  lemma EffectNumbering(effectId: Byte, m: EffectMode)
    ensures EffectFor(EffectId(m)) == Some(m)
    ensures EffectFor(effectId) == Some(m) ==> EffectId(m) == effectId
    ensures EffectFor(effectId).None? <==> effectId > 3
  {
  }

  predicate Breathing(m: EffectMode) {
    m == RedBreathing || m == SineBreathing
  }

  /** The strip an `LED_PULSE` frame asks for: `data[0]`, or 0 for an
      empty payload. */
  function PulseStrip(p: Struct): int {
    if p.dataLength > 0 then p.data[0] else 0
  }

  /** The effect mode and breathing start after dispatching `p` at `now`. */
  function EffectAfter(mode: EffectMode, start: Word32, p: Struct, now: Word32): (EffectMode, Word32) {
    if p.command == Protocol.CMD_LED_EFFECT && p.dataLength > 0 then
      match EffectFor(p.data[0])
      case None => (mode, start)
      case Some(m) => (m, if Breathing(m) then now else start)
    else (mode, start)
  }

  /** Only an `LED_EFFECT` frame with a payload and a known id changes the
      mode, to the mode so numbered; the breathing clock restarts exactly
      when a breathing mode is selected. */
  lemma EffectTransitions(mode: EffectMode, start: Word32, p: Struct, now: Word32)
    ensures var (m, s) := EffectAfter(mode, start, p, now);
      var selects := p.command == Protocol.CMD_LED_EFFECT && p.dataLength > 0 && p.data[0] <= 3;
      (selects ==> EffectId(m) == p.data[0] && s == (if p.data[0] == 1 || p.data[0] == 2 then now else start))
      && (!selects ==> m == mode && s == start)
  {
    if p.command == Protocol.CMD_LED_EFFECT && p.dataLength > 0 && p.data[0] <= 3 {
      var m :| EffectFor(p.data[0]) == Some(m);
      EffectNumbering(p.data[0], m);
    }
  }

  /** The colour every pixel has before the pulses are drawn. */
  function Background(mode: EffectMode, breathingColour: int): int {
    if Breathing(mode) then breathingColour else BACKGROUND_COLOUR
  }

  class LedStrips {
    /** `activePulses[MAX_ACTIVE_PULSES]` */
    const pulses: array<LedPulse>
    /** The drawing buffer. */
    const pixels: array<int>
    var currentEffect: EffectMode
    var breathingStart: Word32

    predicate Valid()
      reads this, pulses
    {
      pulses.Length == MAX_ACTIVE_PULSES && pixels.Length == NUM_PIXELS
      && StripsInRange(pulses[..])
    }

    /** The static initial state: zeroed slots, red breathing. */
    constructor ()
      ensures Valid() && fresh(pulses) && fresh(pixels)
      ensures forall i :: 0 <= i < MAX_ACTIVE_PULSES ==> !pulses[i].active
      ensures currentEffect == RedBreathing && breathingStart == 0
    {
      pulses := new LedPulse[MAX_ACTIVE_PULSES](_ => LedPulse(false, 0, 0));
      pixels := new int[NUM_PIXELS](_ => BACKGROUND_COLOUR);
      currentEffect := RedBreathing;
      breathingStart := 0;
    }

    /** `setupLedStrips()`: every slot inactive, and the breathing clock
        starts at `now`. */
    method Setup(now: Word32)
      requires Valid()
      modifies this, pulses
      ensures Valid()
      ensures forall i :: 0 <= i < MAX_ACTIVE_PULSES ==> pulses[i] == old(pulses[i]).(active := false)
      ensures breathingStart == now && currentEffect == old(currentEffect)
    {
      for i := 0 to MAX_ACTIVE_PULSES
        invariant forall j :: 0 <= j < MAX_ACTIVE_PULSES ==>
          pulses[j] == if j < i then old(pulses[j]).(active := false) else old(pulses[j])
        invariant currentEffect == old(currentEffect)
      {
        pulses[i] := pulses[i].(active := false);
      }
      breathingStart := now;
    }

    /** `triggerLedPulse(timestamp, strip)`. */
    method TriggerLedPulse(timestamp: Word32, strip: int)
      requires Valid()
      modifies pulses
      ensures Valid()
      ensures pulses[..] == Triggered(old(pulses[..]), timestamp, strip)
    {
      TriggerOutcome(pulses[..], timestamp, strip);
      if 0 <= strip < NUM_LED_STRIPS {
        var i := 0;
        while i < MAX_ACTIVE_PULSES
          invariant 0 <= i <= MAX_ACTIVE_PULSES
          invariant forall j :: 0 <= j < i ==> pulses[j].active
          invariant pulses[..] == old(pulses[..])
        {
          if !pulses[i].active {
            assert FirstInactive(pulses[..]) == Some(i);
            pulses[i] := LedPulse(true, timestamp, strip);
            return;
          }
          i := i + 1;
        }
      }
    }

    /** `drawAllPulses()`: each active slot whose LED index is on the strip
        lights that LED of its strip; one whose index has run off the strip
        is retired. No other pixel and no other slot changes. */
    method DrawAllPulses(ledIndex: seq<int>)
      requires Valid() && |ledIndex| == MAX_ACTIVE_PULSES
      modifies pulses, pixels
      ensures Valid()
      ensures forall i :: 0 <= i < MAX_ACTIVE_PULSES ==> pulses[i] == Retire(old(pulses[i]), ledIndex[i])
      ensures forall x :: 0 <= x < NUM_PIXELS ==>
        pixels[x] == if exists i :: 0 <= i < MAX_ACTIVE_PULSES && Lights(old(pulses[i]), ledIndex[i], x)
                     then PULSE_COLOUR else old(pixels[x])
    {
      for i := 0 to MAX_ACTIVE_PULSES
        invariant forall j :: 0 <= j < MAX_ACTIVE_PULSES ==>
          pulses[j] == if j < i then Retire(old(pulses[j]), ledIndex[j]) else old(pulses[j])
        invariant forall x :: 0 <= x < NUM_PIXELS ==>
          pixels[x] == if exists j :: 0 <= j < i && Lights(old(pulses[j]), ledIndex[j], x)
                       then PULSE_COLOUR else old(pixels[x])
      {
        var p := pulses[i];
        if p.active {
          if 0 <= ledIndex[i] < LED_STRIP_NUM_LEDS {
            var pixel := p.strip * LED_STRIP_NUM_LEDS + ledIndex[i];
            assert StripsInRange([p]) by {
              assert old(pulses[..])[i] == p;
            }
            LitPixelInBuffer(p, ledIndex[i], pixel);
            pixels[pixel] := PULSE_COLOUR;
            forall x | 0 <= x < NUM_PIXELS && x != pixel
              ensures !Lights(p, ledIndex[i], x)
            {
            }
          } else {
            pulses[i] := p.(active := false);
          }
        }
      }
    }

    /** `clearAllLEDs()` followed by the background drawing of the current
        mode: every pixel takes the background colour. */
    method DrawBackground(breathingColour: int)
      requires Valid()
      modifies pixels
      ensures forall x :: 0 <= x < NUM_PIXELS ==> pixels[x] == Background(currentEffect, breathingColour)
    {
      for x := 0 to NUM_PIXELS
        invariant forall y :: 0 <= y < x ==> pixels[y] == BACKGROUND_COLOUR
      {
        pixels[x] := BACKGROUND_COLOUR;
      }
      if Breathing(currentEffect) {
        for s := 0 to NUM_LED_STRIPS
          invariant forall y :: 0 <= y < NUM_PIXELS ==>
            pixels[y] == if y < s * LED_STRIP_NUM_LEDS then breathingColour else BACKGROUND_COLOUR
        {
          var offset := s * LED_STRIP_NUM_LEDS;
          for l := 0 to LED_STRIP_NUM_LEDS
            invariant forall y :: 0 <= y < NUM_PIXELS ==>
              pixels[y] == if y < offset + l then breathingColour else BACKGROUND_COLOUR
          {
            pixels[offset + l] := breathingColour;
          }
        }
      }
    }

    /** The `switch` on a received frame: a pulse frame triggers a pulse on
        its strip, an effect frame may change the mode. */
    method Dispatch(p: Struct, now: Word32)
      requires Valid()
      modifies this, pulses
      ensures Valid()
      ensures pulses[..] == if p.command == Protocol.CMD_LED_PULSE then Triggered(old(pulses[..]), now, PulseStrip(p))
                            else old(pulses[..])
      ensures (currentEffect, breathingStart) == EffectAfter(old(currentEffect), old(breathingStart), p, now)
    {
      if p.command == Protocol.CMD_LED_PULSE {
        var strip := if p.dataLength > 0 then p.data[0] as int else 0;
        TriggerLedPulse(now, strip);
      } else if p.command == Protocol.CMD_LED_EFFECT {
        if p.dataLength > 0 {
          var effectId := p.data[0];
          if effectId == 0 {
            currentEffect := Off;
          } else if effectId == 1 {
            currentEffect := RedBreathing;
            breathingStart := now;
          } else if effectId == 2 {
            currentEffect := SineBreathing;
            breathingStart := now;
          } else if effectId == 3 {
            currentEffect := PulsesOnly;
          }
        }
      }
    }

    /** One pass of `loopLedStrips()`: at most one received frame is
        dispatched, then every pixel shows the background of the current
        mode except those the active pulses light, and finished pulses are
        retired. */
    method LoopLedStrips(comm: Comm, stale: Struct, after: seq<Byte>, now: Word32,
                         breathingColour: int, ledIndex: seq<int>)
      requires Valid() && |after| >= MAX_OVERREAD && |ledIndex| == MAX_ACTIVE_PULSES
      modifies comm, this, pulses, pixels
      ensures Valid()
      ensures comm.rx == Remaining(old(comm.rx)) && comm.tx == old(comm.tx)
      ensures var frame := Accepted(old(comm.rx), after);
        var slots := if frame.Some? && frame.value.command == Protocol.CMD_LED_PULSE
                     then Triggered(old(pulses[..]), now, PulseStrip(frame.value)) else old(pulses[..]);
        (currentEffect, breathingStart)
          == (if frame.Some? then EffectAfter(old(currentEffect), old(breathingStart), frame.value, now)
              else (old(currentEffect), old(breathingStart)))
        && (forall i :: 0 <= i < MAX_ACTIVE_PULSES ==> pulses[i] == Retire(slots[i], ledIndex[i]))
        && (forall x :: 0 <= x < NUM_PIXELS ==>
              pixels[x] == if exists i :: 0 <= i < MAX_ACTIVE_PULSES && Lights(slots[i], ledIndex[i], x)
                           then PULSE_COLOUR else Background(currentEffect, breathingColour))
    {
      var ok, packet := comm.ReceiveCommand(stale, after);
      if ok {
        Dispatch(packet, now);
      }
      ghost var slots := pulses[..];
      DrawBackground(breathingColour);
      assert pulses[..] == slots;
      DrawAllPulses(ledIndex);
    }
  }
}
