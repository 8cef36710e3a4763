/** The input side of the sound engine (led_controller/raspberry_pi/sound/
    main.py): the GPIO rising-edge detector of `GPIOButtonInputs` and the
    `trigger` dispatch from a button index to a clip or a voice boost. The
    pin readings are inputs; the audio objects are left out, so a boost is
    recorded by which parameter it targets and the amount and ramp time it
    passes. */
module SoundMain {
  import opened Py

  // ---------------------------------------------------------------------
  // GPIO rising edges

  /** The pins, in the `pins` dict's order, are distinct keys. */
  predicate Distinct(pins: seq<int>) {
    forall i, j :: 0 <= i < j < |pins| ==> pins[i] != pins[j]
  }

  /** The pins among the first `k` whose callback one poll fires: read HIGH
      while their recorded activation was false, in pin order. */
  function Rising(pins: seq<int>, act: map<int, bool>, high: seq<bool>, k: nat): seq<int>
    requires k <= |pins| == |high|
    requires forall p :: p in pins ==> p in act
  {
    if k == 0 then []
    else
      var r := Rising(pins, act, high, k - 1);
      if high[k - 1] && !act[pins[k - 1]] then r + [pins[k - 1]] else r
  }

  /** A pin fires exactly when it reads HIGH while inactive, at most once,
      and only the pins scanned so far fire. */
  lemma {:induction false} RisingMembers(pins: seq<int>, act: map<int, bool>, high: seq<bool>, k: nat)
    requires k <= |pins| == |high| && Distinct(pins)
    requires forall p :: p in pins ==> p in act
    ensures var r := Rising(pins, act, high, k);
      && (forall i :: 0 <= i < |pins| ==> (pins[i] in r <==> i < k && high[i] && !act[pins[i]]))
      && (forall i, j :: 0 <= i < j < |r| ==> r[i] != r[j])
      && (forall p :: p in r ==> p in pins[..k])
  {
    if k > 0 {
      RisingMembers(pins, act, high, k - 1);
      assert pins[..k] == pins[..k - 1] + [pins[k - 1]];
    }
  }

  class GpioButtonInputs {
    const pins: seq<int>
    /** `pin_activations` */
    var activations: map<int, bool>
    /** The pins whose callback has been called, in call order. */
    var fired: seq<int>

    predicate Valid()
      reads this
    {
      Distinct(pins) && activations.Keys == set p | p in pins
    }

    /** `__post_init__`: every pin starts inactive. */
    constructor (pins: seq<int>)
      requires Distinct(pins)
      ensures Valid() && this.pins == pins && fired == []
      ensures forall p :: p in pins ==> !activations[p]
    {
      this.pins := pins;
      activations := map p | p in pins :: false;
      fired := [];
    }

    /** One pass of `listen()`'s `for` loop over the pins, with `high[i]`
        the reading of `pins[i]`: a pin read HIGH fires when it was inactive
        and becomes active; a pin read LOW becomes inactive. */
    method Poll(high: seq<bool>)
      requires Valid() && |high| == |pins|
      modifies this
      ensures Valid()
      ensures fired == old(fired) + Rising(pins, old(activations), high, |pins|)
      ensures forall i :: 0 <= i < |pins| ==> activations[pins[i]] == high[i]
    {
      ghost var before := activations;
      assert forall p :: p in pins ==> p in before;
      var rising: seq<int> := [];
      for i := 0 to |pins|
        invariant fired == old(fired) && activations.Keys == before.Keys
        invariant rising == Rising(pins, before, high, i)
        invariant forall j :: 0 <= j < i ==> activations[pins[j]] == high[j]
        invariant forall j :: i <= j < |pins| ==> activations[pins[j]] == before[pins[j]]
      {
        var pin := pins[i];
        var wasActive := activations[pin];
        if high[i] {
          if !wasActive {
            rising := rising + [pin];
          }
          activations := activations[pin := true];
        } else {
          activations := activations[pin := false];
        }
      }
      fired := fired + rising;
      assert activations.Keys == before.Keys;
    }
  }

  /** From the initial state the first poll fires exactly the pins read
      HIGH. */
  lemma FirstPollFiresHighPins(pins: seq<int>, act: map<int, bool>, high: seq<bool>)
    requires |pins| == |high| && Distinct(pins)
    requires forall p :: p in pins ==> p in act && !act[p]
    ensures forall i :: 0 <= i < |pins| ==> (pins[i] in Rising(pins, act, high, |pins|) <==> high[i])
  {
    RisingMembers(pins, act, high, |pins|);
  }

  /** Across two consecutive polls a pin fires in the second exactly when it
      went from LOW to HIGH, so a pin held HIGH fires once, and fires again
      only after a LOW reading. */
  lemma SecondPollFiresRisingEdges(pins: seq<int>, act: map<int, bool>, first: seq<bool>, second: seq<bool>)
    requires |pins| == |first| == |second| && Distinct(pins)
    requires forall p :: p in pins ==> p in act
    requires forall i :: 0 <= i < |pins| ==> act[pins[i]] == first[i]
    ensures forall i :: 0 <= i < |pins| ==>
      (pins[i] in Rising(pins, act, second, |pins|) <==> second[i] && !first[i])
  {
    RisingMembers(pins, act, second, |pins|);
  }

  // ---------------------------------------------------------------------
  // trigger()

  const NUM_VOICES := 8
  const CLIP_INDEX := 15

  /** The `DecayingParameter`s of a voice that `trigger` boosts. */
  datatype Param = Amplitude | FreqBoost | PanPoint

  /** One `boost(...)` call: `None` for the parameter's default amount. */
  datatype Boost = Boost(param: Param, amount: Option<real>, rampTime: real)

  datatype Action =
    | PlayClip
    | BoostVoice(voice: nat, boosts: seq<Boost>)

  /** Python's `voices[i]` on a list of `n`: negative indices count from the
      end, anything outside `-n..n-1` raises `IndexError`. */
  function PyIndex(i: int, n: nat): (r: Result<nat>)
    ensures r.Ok? <==> -(n as int) <= i < n
    ensures r.Ok? ==> r.value < n && (r.value == i || r.value == i + n)
  {
    if 0 <= i < n then Ok(i) else if -(n as int) <= i < 0 then Ok(i + n) else Err(IndexError)
  }

  /** `trigger(button_index)`: index 15 plays a clip; any other index picks
      voice `index // 2` (floor division), an odd index boosting its
      amplitude, frequency and pan, an even one its amplitude only. */
  function Trigger(index: int): Result<Action> {
    if index == CLIP_INDEX then Ok(PlayClip)
    else
      match PyIndex(index / 2, NUM_VOICES)
      case Err(e) => Err(e)
      case Ok(voice) =>
        if index % 2 == 1 then
          Ok(BoostVoice(voice, [Boost(Amplitude, Some(0.2), 0.2), Boost(FreqBoost, None, 1.0), Boost(PanPoint, None, 0.25)]))
        else
          Ok(BoostVoice(voice, [Boost(Amplitude, Some(0.4), 0.1)]))
  }

  /** Which indices `trigger` accepts: 15, and the indices whose half is a
      valid Python index into the eight voices, which includes negative
      ones down to -16; 16 and above raise `IndexError`. */
  lemma TriggerDomain(index: int)
    ensures Trigger(index).Ok? <==> index == CLIP_INDEX || -16 <= index < 16
    ensures Trigger(index).Err? ==> Trigger(index).error == IndexError
  {
    assert -8 <= index / 2 < 8 <==> -16 <= index < 16;
  }

  /** For the indices 0..14 the voice and the odd/even choice spell the
      index back: two buttons per voice, the odd one boosting everything. */
  lemma TriggerVoiceOfIndex(index: int)
    requires 0 <= index < 16 && index != CLIP_INDEX
    ensures Trigger(index).Ok? && Trigger(index).value.BoostVoice?
    ensures var a := Trigger(index).value;
      2 * a.voice + (if |a.boosts| == 3 then 1 else 0) == index
      && a.boosts[0].param == Amplitude
      && (|a.boosts| == 3 <==> index % 2 == 1)
  {
  }

  /** Index -1 is Python's last voice, boosted in full. */
  lemma MinusOneIsLastVoice()
    ensures Trigger(-1) == Ok(BoostVoice(NUM_VOICES - 1,
      [Boost(Amplitude, Some(0.2), 0.2), Boost(FreqBoost, None, 1.0), Boost(PanPoint, None, 0.25)]))
  {
    assert -1 / 2 == -1 && -1 % 2 == 1;
  }

  /** The GPIO pin → index table the engine builds. */
  const GPIO_TRIGGERS: seq<(int, int)> :=
    [(7, 0), (8, 1), (10, 2), (11, 3), (12, 4), (13, 5), (16, 6), (18, 7)]

  /** The keyboard → index table (`b` plays a clip directly). */
  const KEY_TRIGGERS: seq<(char, int)> :=
    [('q', 0), ('e', 2), ('w', 1), ('r', 3), ('t', 4), ('y', 5), ('a', 6), ('s', 7),
     ('d', 8), ('f', 9), ('g', 10), ('h', 11), ('z', 12), ('x', 13), ('c', 14), ('v', 15)]

  /** No wired input ever raises: every index bound to a pin or a key is
      accepted, and only `v` plays a clip. */
  lemma WiredInputsAccepted()
    ensures Distinct(seq(|GPIO_TRIGGERS|, i requires 0 <= i < |GPIO_TRIGGERS| => GPIO_TRIGGERS[i].0))
    ensures forall i :: 0 <= i < |GPIO_TRIGGERS| ==> Trigger(GPIO_TRIGGERS[i].1).Ok?
    ensures forall i :: 0 <= i < |KEY_TRIGGERS| ==>
      Trigger(KEY_TRIGGERS[i].1).Ok? && (Trigger(KEY_TRIGGERS[i].1) == Ok(PlayClip) <==> KEY_TRIGGERS[i].0 == 'v')
  {
    forall i | 0 <= i < |GPIO_TRIGGERS|
      ensures Trigger(GPIO_TRIGGERS[i].1).Ok?
    {
      TriggerDomain(GPIO_TRIGGERS[i].1);
    }
    forall i | 0 <= i < |KEY_TRIGGERS|
      ensures Trigger(KEY_TRIGGERS[i].1).Ok?
      ensures Trigger(KEY_TRIGGERS[i].1) == Ok(PlayClip) <==> KEY_TRIGGERS[i].0 == 'v'
    {
      TriggerDomain(KEY_TRIGGERS[i].1);
      if KEY_TRIGGERS[i].1 != CLIP_INDEX {
        TriggerVoiceOfIndex(KEY_TRIGGERS[i].1);
      }
    }
  }
}
