/** Which board sits on a port, judged from what it prints
    (led_controller/raspberry_pi/identify_teensys.py). The bytes the board
    sends during the three-second window are taken to be waiting on the
    port; the window, the sleeps and the printing are not modelled. */
module IdentifyTeensys {
  import opened Bits
  import opened Py
  import opened SerialHandle

  const B_MARK := "Teensy B"
  const PRESS_MARK := "BUTTON_PRESS"
  const PIN_STATES_MARK := "PIN_STATES"
  const A_START_MARK := "Starting Teensy A"

  /** What one `readline()` contributes to `messages`: the decoded line
      stripped, when it decodes and is not blank (a decode error is
      swallowed by the bare `except`). */
  function Kept(line: seq<Byte>): (m: seq<string>)
    ensures |m| <= 1
    ensures |m| == 1 <==> DecodeAscii(line).Ok? && Strip(DecodeAscii(line).value) != ""
    ensures |m| == 1 ==> m[0] == Strip(DecodeAscii(line).value) && m[0] != "" && Trimmed(m[0])
  {
    match DecodeAscii(line)
    case Err(_) => []
    case Ok(text) => if Strip(text) != "" then [Strip(text)] else []
  }

  /** The messages collected from the waiting bytes, line by line. */
  function Collected(rx: seq<Byte>): seq<string>
    decreases |rx|
  {
    if rx == [] then []
    else
      var n := LineLength(rx);
      Kept(rx[..n]) + Collected(rx[n..])
  }

  /** Every message is non-blank and already stripped. */
  predicate AllStripped(m: seq<string>) {
    forall i :: 0 <= i < |m| ==> m[i] != "" && Trimmed(m[i])
  }

  lemma AllStrippedAppend(a: seq<string>, b: seq<string>)
    requires AllStripped(a) && AllStripped(b)
    ensures AllStripped(a + b)
  {
    forall i | 0 <= i < |a + b|
      ensures (a + b)[i] != "" && Trimmed((a + b)[i])
    {
      if i >= |a| {
        assert (a + b)[i] == b[i - |a|];
      }
    }
  }

  /** What `check_port` collects is non-blank and stripped. */
  lemma {:induction false} CollectedStripped(rx: seq<Byte>)
    ensures AllStripped(Collected(rx))
    decreases |rx|
  {
    if rx != [] {
      var n := LineLength(rx);
      CollectedStripped(rx[n..]);
      NextLine(rx, rx[..n], rx[n..]);
      AllStrippedAppend(Kept(rx[..n]), Collected(rx[n..]));
    }
  }

  /** Some message contains `mark`. */
  predicate AnyContains(messages: seq<string>, mark: string) {
    exists i :: 0 <= i < |messages| && Contains(messages[i], mark)
  }

  /** The verdict on a list of messages: a `Teensy B` line wins whatever
      else was seen; then any of board A's lines; else unknown. */
  function Classify(messages: seq<string>): (r: string)
    ensures r == "B" <==> AnyContains(messages, B_MARK)
    ensures r == "A" <==>
      !AnyContains(messages, B_MARK)
      && (AnyContains(messages, PRESS_MARK) || AnyContains(messages, PIN_STATES_MARK) || AnyContains(messages, A_START_MARK))
    ensures r == "?" <==> r != "A" && r != "B"
  {
    if AnyContains(messages, B_MARK) then "B"
    else if AnyContains(messages, PRESS_MARK) || AnyContains(messages, PIN_STATES_MARK) then "A"
    else if AnyContains(messages, A_START_MARK) then "A"
    else "?"
  }

  /** The verdict depends on which messages were seen, not on their order. */
  lemma ClassifyIgnoresOrder(a: seq<string>, b: seq<string>)
    ensures Classify(a + b) == Classify(b + a)
  {
    forall mark | mark in [B_MARK, PRESS_MARK, PIN_STATES_MARK, A_START_MARK]
      ensures AnyContains(a + b, mark) == AnyContains(b + a, mark)
    {
      AnyContainsAppend(a, b, mark);
      AnyContainsAppend(b, a, mark);
    }
  }

  lemma AnyContainsAppend(a: seq<string>, b: seq<string>, mark: string)
    ensures AnyContains(a + b, mark) <==> AnyContains(a, mark) || AnyContains(b, mark)
  {
    if AnyContains(a + b, mark) {
      var i :| 0 <= i < |a + b| && Contains((a + b)[i], mark);
      if i >= |a| {
        assert b[i - |a|] == (a + b)[i];
      }
    }
    if AnyContains(a, mark) {
      var i :| 0 <= i < |a| && Contains(a[i], mark);
      assert (a + b)[i] == a[i];
    }
    if AnyContains(b, mark) {
      var i :| 0 <= i < |b| && Contains(b[i], mark);
      assert (a + b)[|a| + i] == b[i];
    }
  }

  /** With nothing printed the verdict is unknown. */
  lemma SilentPortUnknown()
    ensures Classify([]) == "?"
  {
  }

  /** `check_port(port, name)`: `ser` is the opened port, or null when
      opening raised (the result is then None). The loop reads lines while
      bytes are waiting, keeps the non-blank ones, closes the port and
      classifies what it kept. */
  method CheckPort(ser: Serial?) returns (r: Option<string>)
    requires ser != null ==> ser.isOpen
    modifies ser
    ensures ser == null ==> r == None
    ensures ser != null ==>
      r == Some(Classify(Collected(old(ser.rx))))
      && ser.rx == [] && !ser.isOpen && ser.tx == old(ser.tx) && ser.closeCount == old(ser.closeCount) + 1
  {
    if ser == null {
      return None;
    }
    var messages := CollectMessages(ser);
    ser.Close();
    r := Some(Classify(messages));
  }

  /** The reading loop of `check_port`. */
  method CollectMessages(ser: Serial) returns (messages: seq<string>)
    requires ser.isOpen
    modifies ser
    ensures messages == Collected(old(ser.rx))
    ensures ser.rx == [] && ser.isOpen && ser.tx == old(ser.tx) && ser.closeCount == old(ser.closeCount)
  {
    messages := [];
    var waiting := ser.InWaiting();
    while waiting.Ok? && waiting.value > 0
      invariant ser.isOpen && ser.tx == old(ser.tx) && ser.closeCount == old(ser.closeCount)
      invariant messages + Collected(ser.rx) == Collected(old(ser.rx))
      invariant waiting == Ok(|ser.rx|)
      decreases |ser.rx|
    {
      ghost var before := ser.rx;
      ghost var kept := messages;
      var line := ser.ReadLine();
      assert line.Ok? && |ser.rx| < |before|;
      var text := DecodeAscii(line.value);
      assert Kept(line.value) == if text.Ok? && Strip(text.value) != "" then [Strip(text.value)] else [];
      if text.Ok? && Strip(text.value) != "" {
        messages := messages + [Strip(text.value)];
      }
      NextLine(before, line.value, ser.rx);
      assert messages == kept + Kept(line.value);
      Concat(kept, Kept(line.value), Collected(ser.rx));
      waiting := ser.InWaiting();
    }
  }

  lemma Concat(a: seq<string>, b: seq<string>, c: seq<string>)
    ensures (a + b) + c == a + (b + c)
  {
  }

  /** One `readline()` takes one line's messages off the front. */
  lemma NextLine(rx: seq<Byte>, line: seq<Byte>, rest: seq<Byte>)
    requires rx != [] && line == rx[..LineLength(rx)] && rest == rx[LineLength(rx)..]
    ensures Collected(rx) == Kept(line) + Collected(rest)
  {
  }
}
