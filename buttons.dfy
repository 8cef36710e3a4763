/** The button scan of board A (led_controller/src/input_devices/buttons.cpp):
    one text line per button press, and every ten seconds a line with the
    raw pin readings. The serial port is the text written so far, `out`.
    Debouncing is Bounce2's: the buttons that `fell()` on this pass are an
    input, as are the pin readings and `millis()`, read once as `now`. The
    number of buttons is the length of those inputs (6 in
    led_controller/include/pins_teensy_a.h, 4 in
    led_controller/src/input_devices/buttons.h). */
module Buttons {
  import opened Py
  import opened Communication

  const PRESS_PREFIX := "BUTTON_PRESS:"
  const PIN_STATES_PREFIX := "PIN_STATES:"
  const DEBUG_INTERVAL_MS := 10000

  /** The line for button number `id` (1-based). */
  function PressLine(id: nat): string {
    PRESS_PREFIX + Decimal(id) + "\n"
  }

  /** The lines for the buttons among the first `k` that fell, in order. */
  function PressLines(fell: seq<bool>, k: nat): string
    requires k <= |fell|
  {
    if k == 0 then ""
    else if fell[k - 1] then PressLines(fell, k - 1) + PressLine(k)
    else PressLines(fell, k - 1)
  }

  /** The numbers of the buttons among the first `k` that fell. */
  function PressedIds(fell: seq<bool>, k: nat): (ids: seq<nat>)
    requires k <= |fell|
    ensures forall j :: 0 <= j < |ids| ==> 1 <= ids[j] <= k && fell[ids[j] - 1]
    ensures forall j, l :: 0 <= j < l < |ids| ==> ids[j] < ids[l]
  {
    if k == 0 then []
    else
      var ids := PressedIds(fell, k - 1);
      if fell[k - 1] then ids + [k] else ids
  }

  /** Every button among the first `k` that fell is listed. */
  lemma {:induction false} PressedIdsComplete(fell: seq<bool>, k: nat)
    requires k <= |fell|
    ensures forall i :: 0 <= i < k && fell[i] ==> i + 1 in PressedIds(fell, k)
  {
    if k > 0 {
      PressedIdsComplete(fell, k - 1);
    }
  }

  /** The lines for a list of button numbers. */
  function Lines(ids: seq<nat>): string {
    if ids == [] then "" else Lines(ids[..|ids| - 1]) + PressLine(ids[|ids| - 1])
  }

  /** The press lines are exactly one line per fallen button, by increasing
      number. */
  lemma {:induction false} PressLinesInOrder(fell: seq<bool>, k: nat)
    requires k <= |fell|
    ensures PressLines(fell, k) == Lines(PressedIds(fell, k))
  {
    if k > 0 {
      PressLinesInOrder(fell, k - 1);
      var ids := PressedIds(fell, k - 1);
      if fell[k - 1] {
        assert PressedIds(fell, k) == ids + [k];
        LinesSnoc(ids, k);
      } else {
        assert PressedIds(fell, k) == ids;
      }
    }
  }

  lemma LinesSnoc(ids: seq<nat>, id: nat)
    ensures Lines(ids + [id]) == Lines(ids) + PressLine(id)
  {
    assert (ids + [id])[..|ids|] == ids;
  }

  /** `digitalRead` printed: `1` for HIGH, `0` for LOW. */
  function Reading(high: bool): string {
    if high then "1" else "0"
  }

  /** The readings of the first `k` pins of `n`, each followed by a comma
      unless it is the last pin. */
  function Readings(pins: seq<bool>, k: nat): string
    requires k <= |pins|
  {
    if k == 0 then ""
    else Readings(pins, k - 1) + Reading(pins[k - 1]) + (if k - 1 < |pins| - 1 then "," else "")
  }

  /** Appending reading `i` (and its comma) to text ending in the first
      `i` readings. */
  lemma ReadingsStep(pins: seq<bool>, i: nat, head: string)
    requires i < |pins|
    ensures head + Readings(pins, i) + (Reading(pins[i]) + (if i < |pins| - 1 then "," else ""))
            == head + Readings(pins, i + 1)
  {
  }

  /** The debug line. */
  function PinStatesLine(pins: seq<bool>): string {
    PIN_STATES_PREFIX + Readings(pins, |pins|) + "\n"
  }

  /** Reading `i` sits at position `2i`, and a comma after it exactly when
      it is not the last. */
  lemma {:induction false} ReadingsLayout(pins: seq<bool>, k: nat)
    requires k <= |pins|
    ensures |Readings(pins, k)| == if k == |pins| && k > 0 then 2 * k - 1 else 2 * k
    ensures forall i :: 0 <= i < k ==> Readings(pins, k)[2 * i] == (if pins[i] then '1' else '0')
    ensures forall i :: 0 <= i < k && i < |pins| - 1 ==> Readings(pins, k)[2 * i + 1] == ','
  {
    if k > 0 {
      ReadingsLayout(pins, k - 1);
      var r := Readings(pins, k - 1);
      var piece := Reading(pins[k - 1]) + (if k - 1 < |pins| - 1 then "," else "");
      assert Readings(pins, k) == r + piece;
      assert |r| == 2 * (k - 1);
      forall i | 0 <= i < k
        ensures (r + piece)[2 * i] == (if pins[i] then '1' else '0')
      {
        if i < k - 1 {
          assert (r + piece)[2 * i] == r[2 * i];
        }
      }
      forall i | 0 <= i < k && i < |pins| - 1
        ensures (r + piece)[2 * i + 1] == ','
      {
        if i < k - 1 {
          assert (r + piece)[2 * i + 1] == r[2 * i + 1];
        }
      }
    }
  }

  /** With `n` buttons the debug line holds `n` readings and `n - 1`
      commas, and ends in a newline. */
  lemma PinStatesShape(pins: seq<bool>)
    requires |pins| >= 1
    ensures var line := PinStatesLine(pins);
      var body := line[|PIN_STATES_PREFIX|..|line| - 1];
      line[|line| - 1] == '\n'
      && |body| == 2 * |pins| - 1
      && (forall i :: 0 <= i < |pins| ==> body[2 * i] == (if pins[i] then '1' else '0'))
      && (forall i :: 0 <= i < |pins| - 1 ==> body[2 * i + 1] == ',')
  {
    ReadingsLayout(pins, |pins|);
    var line := PinStatesLine(pins);
    assert line[|PIN_STATES_PREFIX|..|line| - 1] == Readings(pins, |pins|);
  }

  class ButtonScanner {
    /** Text written to the serial port. */
    var out: string
    /** `static unsigned long lastDebug` */
    var lastDebug: Word32

    constructor ()
      ensures out == "" && lastDebug == 0
    {
      out := "";
      lastDebug := 0;
    }

    /** `loopButtons()`: a press line per fallen button, then the debug
        line when more than ten seconds have passed since the last one,
        which restarts the ten seconds. */
    method LoopButtons(fell: seq<bool>, pins: seq<bool>, now: Word32)
      requires |fell| == |pins|
      modifies this
      ensures var due := Elapsed(old(lastDebug), now) > DEBUG_INTERVAL_MS;
        out == old(out) + PressLines(fell, |fell|) + (if due then PinStatesLine(pins) else "")
        && lastDebug == (if due then now else old(lastDebug))
    {
      EmitPresses(fell);
      if Elapsed(lastDebug, now) > DEBUG_INTERVAL_MS {
        lastDebug := now;
        EmitPinStates(pins);
      }
    }

    /** The button loop of `loopButtons()`. */
    method EmitPresses(fell: seq<bool>)
      modifies this
      ensures out == old(out) + PressLines(fell, |fell|) && lastDebug == old(lastDebug)
    {
      for i := 0 to |fell|
        invariant out == old(out) + PressLines(fell, i)
        invariant lastDebug == old(lastDebug)
      {
        if fell[i] {
          ghost var before := out;
          out := out + PRESS_PREFIX;
          out := out + Decimal(i + 1);
          out := out + "\n";
          assert out == before + PressLine(i + 1);
        }
      }
    }

    /** The debug line of `loopButtons()`. */
    method EmitPinStates(pins: seq<bool>)
      modifies this
      ensures out == old(out) + PinStatesLine(pins) && lastDebug == old(lastDebug)
    {
      out := out + PIN_STATES_PREFIX;
      for i := 0 to |pins|
        invariant out == old(out) + PIN_STATES_PREFIX + Readings(pins, i)
        invariant lastDebug == old(lastDebug)
      {
        ghost var before := out;
        ghost var piece := Reading(pins[i]) + (if i < |pins| - 1 then "," else "");
        out := out + Reading(pins[i]);
        if i < |pins| - 1 {
          out := out + ",";
        }
        assert out == before + piece;
        ReadingsStep(pins, i, old(out) + PIN_STATES_PREFIX);
      }
      out := out + "\n";
    }
  }
}
