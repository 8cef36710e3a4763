/** The text-mode board A monitor
    (led_controller/raspberry_pi/test/test_teensy_communication.py). Its
    frame decoder and button-LED frame are the same code as the binary
    monitor's (`TeensyCommTest.FromBytes`, `TeensyCommTest.ButtonLedPacket`);
    what it adds is the classification of the text lines board A prints.
    Printing is not modelled: a line's class and the colour it would be
    shown with are the result. */
module TeensyCommTextTest {
  import opened Py
  import opened DualTeensy

  const PIN_STATES_PREFIX := "PIN_STATES:"

  /** The colours of buttons 1 to 6. */
  const BUTTON_COLOURS: seq<(int, int, int)> :=
    [(255, 0, 0), (0, 255, 0), (0, 0, 255), (255, 255, 0), (255, 0, 255), (0, 255, 255)]

  /** The branch `handle_text_command` takes. */
  datatype TextEvent =
    | ButtonPressed(buttonId: int, colour: Option<(int, int, int)>)
      /** `int()` rejected the field after the colon (the error is caught). */
    | BadButtonLine
    | PinStates
    | Debug

  /** The colour looked up for a button: buttons 1 to 6 only, 1-based. */
  function ButtonColour(buttonId: int): Option<(int, int, int)> {
    if 1 <= buttonId <= |BUTTON_COLOURS| then Some(BUTTON_COLOURS[buttonId - 1]) else None
  }

  /** `handle_text_command(line)`: a `BUTTON_PRESS:` line first, then a
      `PIN_STATES:` line, else debug output; the three branches are
      disjoint and cover every line. */
  function HandleTextCommand(line: string): (e: TextEvent)
    ensures StartsWith(line, BUTTON_PREFIX) <==> e.ButtonPressed? || e.BadButtonLine?
    ensures e.PinStates? <==> !StartsWith(line, BUTTON_PREFIX) && StartsWith(line, PIN_STATES_PREFIX)
    ensures e.Debug? <==> !StartsWith(line, BUTTON_PREFIX) && !StartsWith(line, PIN_STATES_PREFIX)
    ensures e.ButtonPressed? ==> ButtonStrip(line) == Some(e.buttonId - 1)
    ensures e.ButtonPressed? ==> (e.colour.Some? <==> 1 <= e.buttonId <= 6)
    ensures e.ButtonPressed? && e.colour.Some? ==> e.colour.value == BUTTON_COLOURS[e.buttonId - 1]
    ensures e.BadButtonLine? ==> ButtonStrip(line) == None
  {
    if StartsWith(line, BUTTON_PREFIX) then
      match ButtonStrip(line)
      case None => BadButtonLine
      case Some(s) => ButtonPressed(s + 1, ButtonColour(s + 1))
    else if StartsWith(line, PIN_STATES_PREFIX) then PinStates
    else Debug
  }

  /** The line the firmware prints for button `n` is classified as a press
      of button `n`. */
  lemma ButtonLineClassified(n: nat)
    ensures HandleTextCommand(BUTTON_PREFIX + Decimal(n))
            == ButtonPressed(n, if 1 <= n <= 6 then Some(BUTTON_COLOURS[n - 1]) else None)
  {
    var line := BUTTON_PREFIX + Decimal(n);
    assert line[..|BUTTON_PREFIX|] == BUTTON_PREFIX;
    ButtonLineParses(n);
  }

  /** `BUTTON_PRESS:` with nothing after the colon is a caught parse
      error, not a press. */
  lemma EmptyButtonField()
    ensures HandleTextCommand(BUTTON_PREFIX) == BadButtonLine
  {
    assert BUTTON_PREFIX == "BUTTON_PRESS" + [':'] + "";
    SplitAfterPrefix("BUTTON_PRESS", ':', "");
    SplitNoSep("", ':');
  }

  /** A `PIN_STATES:` line is never taken for a button press. */
  lemma PinStatesLine(rest: string)
    ensures HandleTextCommand(PIN_STATES_PREFIX + rest) == PinStates
  {
    var line := PIN_STATES_PREFIX + rest;
    assert line[..|PIN_STATES_PREFIX|] == PIN_STATES_PREFIX;
    assert line[0] == 'P';
  }
}
