/** The eye LEDs of board A (led_controller/src/teensy_a/eyes.cpp): a chain
    of eyes with per-eye LED counts, a pool of eight ripple slots, and the
    per-frame drawing.

    The eye count and the per-eye LED counts are a parameter `counts`: the
    source declares `NUM_EYES` as 4 but lists 16 initialisers. The float
    parts are abstracted: a brightness multiplier, which starts at 1.0 and is
    only ever multiplied by 1.5, is kept as its number of boosts; the
    ripple's travel distance `int(progress * 3)` and each eye's breathing
    colour are inputs. The LED buffer `eyeLeds` holds `EYE_NUM_LEDS` (24)
    LEDs per eye. */
module Eyes {
  import opened Py
  import opened Communication

  const MAX_ACTIVE_RIPPLES := 8
  const RIPPLE_MAX_TRAVEL_DISTANCE := 3
  const EYE_NUM_LEDS := 24
  const OFF := 0

  /** `struct EyeRipple { unsigned long startTime; int eye_index; bool active; }` */
  datatype EyeRipple = EyeRipple(startTime: Word32, eyeIndex: int, active: bool)

  // ---------------------------------------------------------------------
  // LED offsets

  /** The sum of the counts, first to last. */
  function Sum(s: seq<nat>): nat {
    if s == [] then 0 else s[0] + Sum(s[1..])
  }

  /** The first LED of eye `e`: the LEDs of the eyes before it, counted one
      eye at a time as `computeEyeOffset` does. */
  function Offset(counts: seq<nat>, e: nat): nat
    requires e <= |counts|
  {
    if e == 0 then 0 else Offset(counts, e - 1) + counts[e - 1]
  }

  /** Adding one more count at the end adds it to the sum. */
  lemma {:induction false} SumSnoc(s: seq<nat>, x: nat)
    ensures Sum(s + [x]) == Sum(s) + x
  {
    if s != [] {
      assert (s + [x])[1..] == s[1..] + [x];
      SumSnoc(s[1..], x);
    }
  }

  /** Eye `e` starts after the sum of the counts before it. */
  lemma {:induction false} OffsetIsPrefixSum(counts: seq<nat>, e: nat)
    requires e <= |counts|
    ensures Offset(counts, e) == Sum(counts[..e])
  {
    if e > 0 {
      OffsetIsPrefixSum(counts, e - 1);
      assert counts[..e] == counts[..e - 1] + [counts[e - 1]];
      SumSnoc(counts[..e - 1], counts[e - 1]);
    }
  }

  /** Offsets grow with the eye index. */
  lemma {:induction false} OffsetMonotone(counts: seq<nat>, a: nat, b: nat)
    requires a <= b <= |counts|
    ensures Offset(counts, a) <= Offset(counts, b)
    decreases b - a
  {
    if a < b {
      OffsetMonotone(counts, a, b - 1);
    }
  }

  /** With at most `EYE_NUM_LEDS` LEDs per eye, the eyes before `e` fit in
      `e` buffer slots of that size. */
  lemma {:induction false} OffsetBound(counts: seq<nat>, e: nat)
    requires e <= |counts|
    requires forall i :: 0 <= i < |counts| ==> counts[i] <= EYE_NUM_LEDS
    ensures Offset(counts, e) <= e * EYE_NUM_LEDS
  {
    if e > 0 {
      OffsetBound(counts, e - 1);
    }
  }

  // ---------------------------------------------------------------------
  // Ripples

  /** The lowest-index inactive ripple slot, if any. */
  function FirstIdle(slots: seq<EyeRipple>): (r: Option<nat>)
    ensures r.None? <==> forall i :: 0 <= i < |slots| ==> slots[i].active
    ensures r.Some? ==>
      r.value < |slots| && !slots[r.value].active && forall j :: 0 <= j < r.value ==> slots[j].active
  {
    if slots == [] then None
    else if !slots[0].active then Some(0)
    else match FirstIdle(slots[1..])
      case None => None
      case Some(i) => Some(i + 1)
  }

  /** The ripple pool after `triggerRipple(timestamp, eye)`. The loop
      variable shadows the `eye_index` parameter, so the eye does not
      appear: the slot stores its own index. */
  function RippleTriggered(slots: seq<EyeRipple>, timestamp: Word32): seq<EyeRipple> {
    match FirstIdle(slots)
    case None => slots
    case Some(i) => slots[i := EyeRipple(timestamp, i, true)]
  }

  /** An active slot records its own index as the ripple's eye. */
  predicate SelfIndexed(slots: seq<EyeRipple>) {
    forall i :: 0 <= i < |slots| && slots[i].active ==> slots[i].eyeIndex == i
  }

  /** A full pool is left as it is; otherwise exactly the lowest idle slot
      becomes active, whatever eye was asked for, and the pool stays
      self-indexed. */
  lemma RippleOutcome(slots: seq<EyeRipple>, timestamp: Word32)
    ensures (forall i :: 0 <= i < |slots| ==> slots[i].active) ==> RippleTriggered(slots, timestamp) == slots
    ensures (exists i :: 0 <= i < |slots| && !slots[i].active) ==>
      exists k :: 0 <= k < |slots| && !slots[k].active && (forall j :: 0 <= j < k ==> slots[j].active)
        && RippleTriggered(slots, timestamp) == slots[k := EyeRipple(timestamp, k, true)]
    ensures SelfIndexed(slots) ==> SelfIndexed(RippleTriggered(slots, timestamp))
  {
    var r := FirstIdle(slots);
    if r.Some? {
      var k := r.value;
      assert !slots[k].active && (forall j :: 0 <= j < k ==> slots[j].active);
    }
  }

  function Min(a: int, b: int): int {
    if a < b then a else b
  }

  /** The eye a ripple in slot `i` brightens after travelling `t` eyes:
      `min(NUM_EYES - 1, eye_index + t)`. */
  function WaveIndex(r: EyeRipple, t: int, numEyes: nat): int {
    Min(numEyes - 1, r.eyeIndex + t)
  }

  /** Whether a ripple brightens an eye this frame. */
  predicate Travelling(r: EyeRipple, t: int) {
    r.active && 0 <= t < RIPPLE_MAX_TRAVEL_DISTANCE
  }

  /** The boosts after the first `k` ripple slots were processed. */
  function Boosts(slots: seq<EyeRipple>, travel: seq<int>, numEyes: nat, k: nat): (b: seq<nat>)
    requires k <= |slots| <= |travel| && numEyes >= 1 && SelfIndexed(slots)
    ensures |b| == numEyes
  {
    if k == 0 then seq(numEyes, _ => 0)
    else
      var b := Boosts(slots, travel, numEyes, k - 1);
      var r := slots[k - 1];
      if Travelling(r, travel[k - 1]) then
        var w := WaveIndex(r, travel[k - 1], numEyes);
        b[w := b[w] + 1]
      else b
  }

  /** The number of slots among the first `k` whose ripple is travelling. */
  function TravellingCount(slots: seq<EyeRipple>, travel: seq<int>, k: nat): nat
    requires k <= |slots| <= |travel|
  {
    if k == 0 then 0
    else TravellingCount(slots, travel, k - 1) + (if Travelling(slots[k - 1], travel[k - 1]) then 1 else 0)
  }

  /** Each travelling ripple brightens exactly one eye once, and a wave
      index never passes the last eye. */
  lemma {:induction false} BoostsCountRipples(slots: seq<EyeRipple>, travel: seq<int>, numEyes: nat, k: nat)
    requires k <= |slots| <= |travel| && numEyes >= 1 && SelfIndexed(slots)
    ensures Sum(Boosts(slots, travel, numEyes, k)) == TravellingCount(slots, travel, k)
  {
    if k == 0 {
      ZeroSum(numEyes);
    } else {
      BoostsCountRipples(slots, travel, numEyes, k - 1);
      var b := Boosts(slots, travel, numEyes, k - 1);
      var r := slots[k - 1];
      if Travelling(r, travel[k - 1]) {
        var w := WaveIndex(r, travel[k - 1], numEyes);
        SumIncrement(b, w);
      }
    }
  }

  lemma {:induction false} ZeroSum(n: nat)
    ensures Sum(seq(n, _ => 0)) == 0
  {
    if n > 0 {
      assert seq(n, _ => 0)[1..] == seq(n - 1, _ => 0);
      ZeroSum(n - 1);
    }
  }

  lemma {:induction false} SumIncrement(b: seq<nat>, w: nat)
    requires w < |b|
    ensures Sum(b[w := b[w] + 1]) == Sum(b) + 1
  {
    if w > 0 {
      assert b[w := b[w] + 1][1..] == b[1..][w - 1 := b[w] + 1];
      SumIncrement(b[1..], w - 1);
    }
  }

  /** `n` copies of one colour. */
  function Repeat(c: int, n: nat): (s: seq<int>)
    ensures |s| == n && forall i :: 0 <= i < n ==> s[i] == c
  {
    seq(n, _ => c)
  }

  /** The LEDs of eye `e` show its colour. */
  predicate EyeShows(leds: seq<int>, counts: seq<nat>, colours: seq<int>, e: nat)
    requires e < |counts| == |colours|
  {
    Offset(counts, e + 1) <= |leds| && leds[Offset(counts, e)..Offset(counts, e + 1)] == Repeat(colours[e], counts[e])
  }

  /** The LEDs of each of the first `k` eyes show that eye's colour. */
  predicate ShowsUpTo(leds: seq<int>, counts: seq<nat>, colours: seq<int>, k: nat)
    requires k <= |counts| == |colours|
  {
    forall e :: 0 <= e < k ==> EyeShows(leds, counts, colours, e)
  }

  /** Every eye's LEDs show that eye's colour. */
  predicate Shows(leds: seq<int>, counts: seq<nat>, colours: seq<int>)
    requires |counts| == |colours|
  {
    ShowsUpTo(leds, counts, colours, |counts|)
  }

  /** Writing at or after eye `k`'s first LED keeps the eyes before it. */
  lemma ShowsUpToFrame(a: seq<int>, b: seq<int>, counts: seq<nat>, colours: seq<int>, k: nat)
    requires k <= |counts| == |colours| && |a| == |b|
    requires ShowsUpTo(a, counts, colours, k)
    requires forall x :: 0 <= x < Offset(counts, k) && x < |a| ==> a[x] == b[x]
    ensures ShowsUpTo(b, counts, colours, k)
  {
    forall e | 0 <= e < k
      ensures EyeShows(b, counts, colours, e)
    {
      assert EyeShows(a, counts, colours, e);
      OffsetMonotone(counts, e + 1, k);
      assert b[Offset(counts, e)..Offset(counts, e + 1)] == a[Offset(counts, e)..Offset(counts, e + 1)];
    }
  }

  class EyeLeds {
    /** `eye_led_counts`; `NUM_EYES` is its length. */
    const counts: seq<nat>
    /** `eyeLeds` */
    const leds: array<int>
    /** `active_ripples` */
    const ripples: array<EyeRipple>
    var totalEyeLeds: int
    /** `eye_states` */
    var eyeStates: seq<bool>
    /** `eye_brightness_multipliers`, each as its number of 1.5 boosts. */
    var boosts: seq<nat>
    var breathingStart: Word32

    predicate Valid()
      reads this, ripples
    {
      |counts| >= 1 && (forall i :: 0 <= i < |counts| ==> counts[i] <= EYE_NUM_LEDS)
      && leds.Length == |counts| * EYE_NUM_LEDS
      && ripples.Length == MAX_ACTIVE_RIPPLES && SelfIndexed(ripples[..])
    }

    /** `setupEyes()` has run: there is a state and a multiplier per eye. */
    predicate Ready()
      reads this
    {
      |eyeStates| >= |counts| && |boosts| >= |counts|
    }

    /** The static initial state: zeroed ripples, empty vectors. */
    constructor (counts: seq<nat>)
      requires |counts| >= 1 && forall i :: 0 <= i < |counts| ==> counts[i] <= EYE_NUM_LEDS
      ensures Valid() && this.counts == counts && fresh(leds) && fresh(ripples)
      ensures forall i :: 0 <= i < MAX_ACTIVE_RIPPLES ==> !ripples[i].active
      ensures totalEyeLeds == 0 && eyeStates == [] && boosts == [] && breathingStart == 0
    {
      this.counts := counts;
      leds := new int[|counts| * EYE_NUM_LEDS](_ => OFF);
      ripples := new EyeRipple[MAX_ACTIVE_RIPPLES](_ => EyeRipple(0, 0, false));
      totalEyeLeds := 0;
      eyeStates := [];
      boosts := [];
      breathingStart := 0;
    }

    /** `computeEyeOffset(e)`. */
    method ComputeEyeOffset(e: nat) returns (offset: nat)
      requires e <= |counts|
      ensures offset == Offset(counts, e)
    {
      offset := 0;
      for i := 0 to e
        invariant offset == Offset(counts, i)
      {
        offset := offset + counts[i];
      }
    }

    /** `setupEyes()`: the total LED count, the registered LEDs cleared, a
        false state and a 1.0 multiplier appended per eye, and the breathing
        clock started. */
    method Setup(now: Word32)
      requires Valid()
      modifies this, leds
      ensures Valid() && Ready()
      ensures totalEyeLeds == Sum(counts) == Offset(counts, |counts|) && totalEyeLeds <= leds.Length
      ensures eyeStates == old(eyeStates) + seq(|counts|, _ => false)
      ensures boosts == old(boosts) + seq(|counts|, _ => 0)
      ensures breathingStart == now
      ensures forall x :: 0 <= x < leds.Length ==> leds[x] == if x < totalEyeLeds then OFF else old(leds[x])
    {
      var total := 0;
      for e := 0 to |counts|
        invariant total == Offset(counts, e)
      {
        total := total + counts[e];
      }
      totalEyeLeds := total;
      OffsetIsPrefixSum(counts, |counts|);
      OffsetBound(counts, |counts|);
      assert counts[..|counts|] == counts;
      for x := 0 to totalEyeLeds
        invariant forall y :: 0 <= y < leds.Length ==> leds[y] == if y < x then OFF else old(leds[y])
        invariant totalEyeLeds == total && eyeStates == old(eyeStates) && boosts == old(boosts)
      {
        leds[x] := OFF;
      }
      var e := 0;
      ghost var states0, boosts0 := eyeStates, boosts;
      while e < |counts|
        invariant 0 <= e <= |counts|
        invariant eyeStates == states0 + seq(e, _ => false)
        invariant boosts == boosts0 + seq(e, _ => 0)
        invariant totalEyeLeds == total
        invariant forall y :: 0 <= y < leds.Length ==> leds[y] == if y < total then OFF else old(leds[y])
      {
        eyeStates := eyeStates + [false];
        boosts := boosts + [0];
        e := e + 1;
      }
      breathingStart := now;
    }

    /** `triggerRipple(timestamp, eye)`. */
    method TriggerRipple(timestamp: Word32, eye: int)
      requires Valid()
      modifies ripples
      ensures Valid()
      ensures ripples[..] == RippleTriggered(old(ripples[..]), timestamp)
    {
      RippleOutcome(ripples[..], timestamp);
      var i := 0;
      while i < MAX_ACTIVE_RIPPLES
        invariant 0 <= i <= MAX_ACTIVE_RIPPLES
        invariant forall j :: 0 <= j < i ==> ripples[j].active
        invariant ripples[..] == old(ripples[..])
      {
        if !ripples[i].active {
          assert FirstIdle(ripples[..]) == Some(i);
          ripples[i] := EyeRipple(timestamp, i, true);
          return;
        }
        i := i + 1;
      }
    }

    /** `setEyeStatus(eye, status)`: that eye's state only, then a ripple. */
    method SetEyeStatus(eye: int, status: bool, now: Word32)
      requires Valid() && 0 <= eye < |eyeStates|
      modifies this, ripples
      ensures Valid()
      ensures eyeStates == old(eyeStates)[eye := status]
      ensures boosts == old(boosts) && totalEyeLeds == old(totalEyeLeds) && breathingStart == old(breathingStart)
      ensures ripples[..] == RippleTriggered(old(ripples[..]), now)
    {
      eyeStates := eyeStates[eye := status];
      TriggerRipple(now, eye);
    }

    /** `loopEyes()`: the multipliers are reset and each travelling ripple
        boosts the eye its wave has reached. The ripple is a copy, so
        clearing its `active` flag is lost and no slot is ever retired.
        Then eye `e`'s LEDs, and no others, take its colour. */
    method LoopEyes(travel: seq<int>, colours: seq<int>)
      requires Valid() && Ready() && |travel| == MAX_ACTIVE_RIPPLES && |colours| == |counts|
      modifies this, leds
      ensures Valid() && Ready()
      ensures ripples[..] == old(ripples[..])
      ensures boosts[..|counts|] == Boosts(ripples[..], travel, |counts|, MAX_ACTIVE_RIPPLES)
      ensures boosts[|counts|..] == old(boosts)[|counts|..]
      ensures eyeStates == old(eyeStates) && totalEyeLeds == old(totalEyeLeds) && breathingStart == old(breathingStart)
      ensures Shows(leds[..], counts, colours)
      ensures forall x :: Offset(counts, |counts|) <= x < leds.Length ==> leds[x] == old(leds[x])
    {
      BoostEyes(travel);
      DrawEyes(colours);
    }

    /** The ripple half of `loopEyes()`. */
    method BoostEyes(travel: seq<int>)
      requires Valid() && Ready() && |travel| == MAX_ACTIVE_RIPPLES
      modifies this
      ensures Valid() && Ready()
      ensures boosts[..|counts|] == Boosts(ripples[..], travel, |counts|, MAX_ACTIVE_RIPPLES)
      ensures |boosts| == old(|boosts|) && boosts[|counts|..] == old(boosts)[|counts|..]
      ensures eyeStates == old(eyeStates) && totalEyeLeds == old(totalEyeLeds) && breathingStart == old(breathingStart)
    {
      var n := |counts|;
      ghost var rest := boosts[n..];
      for e := 0 to n
        invariant |boosts| == old(|boosts|) && boosts[n..] == rest
        invariant forall j :: 0 <= j < e ==> boosts[j] == 0
        invariant eyeStates == old(eyeStates) && totalEyeLeds == old(totalEyeLeds) && breathingStart == old(breathingStart)
      {
        boosts := boosts[e := 0];
      }
      assert boosts[..n] == Boosts(ripples[..], travel, n, 0);
      for i := 0 to MAX_ACTIVE_RIPPLES
        invariant |boosts| == old(|boosts|) && boosts[n..] == rest
        invariant boosts[..n] == Boosts(ripples[..], travel, n, i)
        invariant eyeStates == old(eyeStates) && totalEyeLeds == old(totalEyeLeds) && breathingStart == old(breathingStart)
      {
        var ripple := ripples[i];
        if ripple.active {
          var t := travel[i];
          if 0 <= t < RIPPLE_MAX_TRAVEL_DISTANCE {
            var w := Min(n - 1, ripple.eyeIndex + t);
            assert boosts[..n][w := boosts[w] + 1] == boosts[w := boosts[w] + 1][..n];
            boosts := boosts[w := boosts[w] + 1];
          } else {
            ripple := ripple.(active := false);
          }
        }
      }
    }

    /** The drawing half of `loopEyes()`. */
    method DrawEyes(colours: seq<int>)
      requires Valid() && |colours| == |counts|
      modifies leds
      ensures Shows(leds[..], counts, colours)
      ensures forall x :: Offset(counts, |counts|) <= x < leds.Length ==> leds[x] == old(leds[x])
    {
      var n := |counts|;
      for e := 0 to n
        invariant ShowsUpTo(leds[..], counts, colours, e)
        invariant forall x :: Offset(counts, e) <= x < leds.Length ==> leds[x] == old(leds[x])
      {
        ghost var before := leds[..];
        FillEye(e, colours[e]);
        ShowsUpToFrame(before, leds[..], counts, colours, e);
        assert EyeShows(leds[..], counts, colours, e) by {
          OffsetBound(counts, e + 1);
          assert leds[..][Offset(counts, e)..Offset(counts, e + 1)] == Repeat(colours[e], counts[e]);
        }
      }
    }

    /** The LED loop of one eye: its LEDs take `colour`; the offset is
        recomputed for every LED, as the source does. */
    method FillEye(e: nat, colour: int)
      requires Valid() && e < |counts|
      modifies leds
      ensures forall x :: 0 <= x < leds.Length ==>
        leds[x] == if Offset(counts, e) <= x < Offset(counts, e + 1) then colour else old(leds[x])
    {
      OffsetBound(counts, e + 1);
      for j := 0 to counts[e]
        invariant forall x :: 0 <= x < leds.Length ==>
          leds[x] == if Offset(counts, e) <= x < Offset(counts, e) + j then colour else old(leds[x])
      {
        var offset := ComputeEyeOffset(e);
        leds[offset + j] := colour;
      }
    }
  }
}
