/** The firefly animation engine (src/fireflies.c): the loops that evaluate
    a flash pattern, and the eight fireflies, each waiting out a random
    delay and then playing a randomly chosen, randomly smoothed flash. */
module Fireflies {

  import opened CArith
  import opened SystemDefs
  import opened FlashPatterns
  import opened Leds
  import opened Tasks
  import Scheduler

  const NUMBER_OF_FIREFLIES: nat := LED_COUNT
  /** Period of the firefly task in ticks, and the time added per step. */
  const FIREFLY_TIMESTEP: nat := LED_COUNT
  const FIREFLY_DELAY_MAX: int := 12000
  const FIREFLY_DELAY_MIN: int := 1000
  const FIREFLY_SMOOTHING_MAX: int := 500
  const FIREFLY_SMOOTHING_MIN: int := 50
  const FLASH_FIRST: nat := 0
  const FLASH_LAST: nat := FLASH_COUNT - 1
  /** The LED level for full brightness: `brightness * 150 / 1000`. */
  const LED_SCALE: int := 150

  // ---------------------------------------------------------------- the walks

  // Each walk takes the table row `flash_patterns[id]` itself, as the C
  // code does through its `flash_pattern` pointer; callers pass `Pattern(id)`.

  /** `calculate_flash_length`. */
  method CalculateFlashLength(p: seq<FlashPoint>) returns (length: int)
    requires WellFormed(p)
    ensures length == Length(p)
  {
    length := 0;
    var i: nat := 0;
    while i == 0 || p[i - 1].target != 0
      invariant i <= Terminator(p) + 1
      invariant length == SumTimes(p, i)
      decreases Terminator(p) + 1 - i
    {
      length := length + p[i].time;
      i := i + 1;
    }
  }

  /** `calculate_brightness_unsmoothed`. */
  method CalculateBrightnessUnsmoothed(p: seq<FlashPoint>, t: int) returns (b: int)
    requires WellFormed(p)
    ensures b == Unsmoothed(p, t)
  {
    if t < 0 {
      return 0;
    }
    var prv := FlashPoint(0, 0);
    var cur := FlashPoint(0, 0);
    var endTime := 0;
    var i: nat := 0;
    while i == 0 || p[i - 1].target != 0
      invariant i <= Terminator(p) + 1
      invariant endTime == SumTimes(p, i)
      invariant Locate(p, t, 0) == Locate(p, t, i)
      invariant cur == FlashPoint(0, 0) && prv == FlashPoint(0, 0)
      decreases Terminator(p) + 1 - i
    {
      endTime := endTime + p[i].time;
      if t < endTime {
        cur := p[i];
        if i != 0 {
          prv := p[i - 1];
        }
        break;
      }
      i := i + 1;
    }
    if cur.time != 0 {
      b := CDiv((cur.time - (endTime - t)) * (cur.target - prv.target), cur.time) + prv.target;
    } else {
      b := 0;
    }
  }

  /** `calculate_brightness_smoothed`; `smoothing` arrives narrowed to
      `int16_t`, as the parameter type does. */
  method CalculateBrightnessSmoothed(p: seq<FlashPoint>, t: int, smoothing: int) returns (b: int)
    requires WellFormed(p)
    ensures b == Smoothed(p, t, smoothing)
  {
    var half := ShiftRight1(Int16(smoothing));
    var width := Int16(2 * half + 1);
    assert half == HalfSmooth(smoothing) && width == WindowWidth(smoothing);
    var ss := t - half;
    var se := ss + width;
    var length := CalculateFlashLength(p);
    if se < 0 || ss > length {
      return 0;
    }
    ghost var total := SmoothSum(p, ss, se, 0, 0);
    var acc := 0;
    var start := 0;
    var i: nat := 0;
    while i == 0 || p[i - 1].target != 0
      invariant i <= Terminator(p) + 1
      invariant acc + SmoothSum(p, ss, se, i, start) == total
      decreases Terminator(p) + 1 - i
    {
      var endTime := start + p[i].time;
      var t1;
      if ss >= start && ss < endTime {
        t1 := ss;
      } else if ss < start {
        t1 := start;
      } else {
        SmoothSumSkip(p, ss, se, i, start);
        start := endTime;
        i := i + 1;
        continue;
      }
      var b1 := CalculateBrightnessUnsmoothed(p, t1);
      var t2 := MinVal(endTime, se);
      var b2 := CalculateBrightnessUnsmoothed(p, t2);
      var area := (b2 + b1) * (t2 - t1);
      TrapezoidOf(p, t1, t2, b1, b2);
      SmoothSumClipped(p, ss, se, i, start, t1, t2);
      acc := acc + area;
      if t2 == se {
        break;
      }
      start := t2;
      i := i + 1;
    }
    b := CDiv(acc, 2 * width);
  }

  /** A point wholly before the window adds nothing. */
  lemma SmoothSumSkip(p: seq<FlashPoint>, ss: int, se: int, i: nat, start: int)
    requires Terminated(p) && i <= Terminator(p)
    requires ss >= start + p[i].time && ss >= start
    ensures SmoothSum(p, ss, se, i, start) == SmoothSum(p, ss, se, i + 1, start + p[i].time)
  {
  }

  /** A point overlapping the window adds its clipped trapezoid, and the
      walk goes on unless the window ends inside the point. */
  lemma SmoothSumClipped(p: seq<FlashPoint>, ss: int, se: int, i: nat, start: int, t1: int, t2: int)
    requires Terminated(p) && i <= Terminator(p)
    requires (ss >= start && ss < start + p[i].time && t1 == ss) || (ss < start && t1 == start)
    requires t2 == MinVal(start + p[i].time, se)
    ensures t2 == se ==> SmoothSum(p, ss, se, i, start) == Trapezoid(p, t1, t2)
    ensures t2 != se ==> SmoothSum(p, ss, se, i, start) == Trapezoid(p, t1, t2) + SmoothSum(p, ss, se, i + 1, t2)
  {
  }

  /** The loop's area term is the trapezoid of the two sampled brightnesses. */
  lemma TrapezoidOf(p: seq<FlashPoint>, t1: int, t2: int, b1: int, b2: int)
    requires Terminated(p) && b1 == Unsmoothed(p, t1) && b2 == Unsmoothed(p, t2)
    ensures (b2 + b1) * (t2 - t1) == Trapezoid(p, t1, t2)
  {
  }

  // ---------------------------------------------------------------- fireflies

  /** `rand_range(min, max)` applied to one `rand()` output `r`. */
  function RandRange(r: nat, lo: int, hi: int): (v: int)
    requires lo <= hi
    ensures lo <= v <= hi
    ensures r <= hi - lo ==> v == lo + r
  {
    r % (hi - lo + 1) + lo
  }

  /** `firefly_type`. */
  datatype Firefly = Firefly(
    brightness: int,
    flashing: bool,
    flashId: nat,
    flashTime: int,
    smoothing: int,
    delayLen: int,
    delayTime: int)

  /** The `rand()` outputs one firefly may consume in one callback: for the
      flash id, the smoothing and the next delay, in that order. */
  datatype Draw = Draw(flashId: nat, smoothing: nat, delayLen: nat)

  /** A firefly as `firefly_init` leaves it, given its `rand()` output. */
  function Initial(r: nat): Firefly
  {
    Firefly(0, false, FLASH_FIRST, 0, FIREFLY_SMOOTHING_MIN, RandRange(r, FIREFLY_DELAY_MIN, FIREFLY_DELAY_MAX), 0)
  }

  /** `firefly_step(firefly, FIREFLY_TIMESTEP)`: advance the flash time, take
      the smoothed brightness there, and clear `flashing` when that is 0
      past the smoothing time. */
  function Stepped(f: Firefly): Firefly
    requires f.flashId < FLASH_COUNT
  {
    var t := f.flashTime + FIREFLY_TIMESTEP;
    var b := Smoothed(Pattern(f.flashId), t, f.smoothing);
    f.(flashTime := t, brightness := b, flashing := if b == 0 && f.smoothing < t then false else f.flashing)
  }

  /** One firefly's share of `firefly_periodic_callback`. */
  function Updated(f: Firefly, d: Draw): Firefly
    requires f.flashId < FLASH_COUNT
  {
    if f.flashing then Stepped(f)
    else if f.delayLen <= f.delayTime then
      var s := RandRange(d.smoothing, FIREFLY_SMOOTHING_MIN, FIREFLY_SMOOTHING_MAX);
      f.(flashId := RandRange(d.flashId, FLASH_FIRST, FLASH_LAST), smoothing := s, flashTime := -CDiv(s, 2),
         flashing := true, delayLen := RandRange(d.delayLen, FIREFLY_DELAY_MIN, FIREFLY_DELAY_MAX), delayTime := 0)
    else f.(delayTime := f.delayTime + FIREFLY_TIMESTEP)
  }

  /** The LED value written for a brightness: `brightness * 150 / 1000`. */
  function LedLevel(b: int): int
  {
    CDiv(b * LED_SCALE, TARGET_MAX)
  }

  /** The LED value is in `[0, 150]` for a brightness in `[0, 1000]`, and 0
      exactly for brightnesses below 7. */
  lemma LedLevelBounds(b: int)
    requires 0 <= b <= TARGET_MAX
    ensures 0 <= LedLevel(b) <= LED_SCALE
    ensures LedLevel(b) == 0 <==> b < 7
  {
    var q := LedLevel(b);
    assert 0 <= b * LED_SCALE - q * TARGET_MAX < TARGET_MAX;
    assert b * LED_SCALE <= TARGET_MAX * LED_SCALE;
    if q < 0 {
      assert false;
    } else if q > LED_SCALE {
      assert false;
    }
    if b < 7 {
      if q >= 1 { assert false; }
    } else {
      if q == 0 { assert false; }
    }
  }

  /** The latest flash time at which a flash can still be running: once
      past both `smoothing` and `length + half`, a step always ends it. */
  function Horizon(f: Firefly): int
    requires f.flashId < FLASH_COUNT
  {
    MaxVal(f.smoothing, Length(Pattern(f.flashId)) + HalfSmooth(f.smoothing))
  }

  /** What holds of every firefly between callbacks. */
  predicate FireflyOk(f: Firefly)
  {
    f.flashId < FLASH_COUNT &&
    FIREFLY_SMOOTHING_MIN <= f.smoothing <= FIREFLY_SMOOTHING_MAX &&
    FIREFLY_DELAY_MIN <= f.delayLen <= FIREFLY_DELAY_MAX &&
    0 <= f.delayTime < f.delayLen + FIREFLY_TIMESTEP &&
    0 <= f.brightness <= TARGET_MAX &&
    (!f.flashing ==> f.brightness == 0) &&
    (f.flashing ==> -CDiv(f.smoothing, 2) <= f.flashTime <= Horizon(f))
  }

  /** `firefly_init` leaves every firefly in that state. */
  lemma InitialOk(r: nat)
    ensures FireflyOk(Initial(r))
    ensures !Initial(r).flashing && Initial(r).brightness == 0
  {
  }

  /** A step past the horizon always ends the flash, with brightness 0. */
  lemma StepPastHorizonEnds(f: Firefly)
    requires f.flashId < FLASH_COUNT && f.smoothing >= 0
    requires f.flashTime + FIREFLY_TIMESTEP > Horizon(f)
    ensures !Stepped(f).flashing && Stepped(f).brightness == 0
  {
    SmoothedZeroPastEnd(Pattern(f.flashId), f.flashTime + FIREFLY_TIMESTEP, f.smoothing);
  }

  /** A step of a running flash keeps the firefly in shape: the brightness in
      `[0, 1000]`, the flash time under the horizon while it lasts, and the
      brightness 0 on the step that ends it. */
  lemma StepKeepsOk(f: Firefly)
    requires FireflyOk(f) && f.flashing
    ensures FireflyOk(Stepped(f))
    ensures Stepped(f).flashTime == f.flashTime + FIREFLY_TIMESTEP
    ensures Stepped(f).flashId == f.flashId && Stepped(f).smoothing == f.smoothing
    ensures Stepped(f).delayLen == f.delayLen && Stepped(f).delayTime == f.delayTime
  {
    var g := Stepped(f);
    SmoothedInRange(Pattern(f.flashId), f.flashTime + FIREFLY_TIMESTEP, f.smoothing);
    if g.flashTime > Horizon(f) {
      StepPastHorizonEnds(f);
    }
  }

  /** A waiting firefly whose delay has run out starts a flash with every
      drawn parameter in its range, half a window before the pattern. */
  lemma StartKeepsOk(f: Firefly, d: Draw)
    requires FireflyOk(f) && !f.flashing && f.delayLen <= f.delayTime
    ensures var g := Updated(f, d);
      FireflyOk(g) && g.flashing && g.brightness == 0 &&
      FLASH_FIRST <= g.flashId <= FLASH_LAST &&
      FIREFLY_SMOOTHING_MIN <= g.smoothing <= FIREFLY_SMOOTHING_MAX &&
      g.flashTime == -(g.smoothing / 2) &&
      FIREFLY_DELAY_MIN <= g.delayLen <= FIREFLY_DELAY_MAX && g.delayTime == 0
  {
    var g := Updated(f, d);
    CDivNonNegative(g.smoothing, 2);
    assert g.flashTime < 0 < Horizon(g);
  }

  /** Every callback keeps every firefly in shape. */
  lemma UpdatedKeepsOk(f: Firefly, d: Draw)
    requires FireflyOk(f)
    ensures FireflyOk(Updated(f, d))
  {
    if f.flashing {
      StepKeepsOk(f);
    } else if f.delayLen <= f.delayTime {
      StartKeepsOk(f, d);
    }
  }

  /** What a flashing firefly writes to its LED: at most 150, and 0 on the
      step that ends the flash, so no LED is left lit. */
  lemma FlashingLedLevel(f: Firefly)
    requires FireflyOk(f) && f.flashing
    ensures 0 <= LedLevel(Stepped(f).brightness) <= LED_SCALE
    ensures !Stepped(f).flashing ==> LedLevel(Stepped(f).brightness) == 0
  {
    StepKeepsOk(f);
    LedLevelBounds(Stepped(f).brightness);
  }

  /** The firefly after at most `n` more steps of its flash. */
  function FlashAfter(f: Firefly, n: nat): Firefly
    requires f.flashId < FLASH_COUNT
    decreases n
  {
    if n == 0 || !f.flashing then f else FlashAfter(Stepped(f), n - 1)
  }

  /** A flash is over once `n` steps of 8 ticks carry it past the horizon. */
  lemma {:induction false} FlashEndsBy(f: Firefly, n: nat)
    requires FireflyOk(f) && f.flashTime + 8 * n > Horizon(f)
    ensures !FlashAfter(f, n).flashing
    decreases n
  {
    if f.flashing {
      assert n > 0;
      StepKeepsOk(f);
      var g := Stepped(f);
      assert Horizon(g) == Horizon(f);
      FlashEndsBy(g, n - 1);
    }
  }

  /** Every flash ends within 200 callbacks of the firefly task (1.6 s): no
      pattern is longer than 1000 ticks and no smoothing wider than 500. */
  lemma EveryFlashEnds(f: Firefly)
    requires FireflyOk(f)
    ensures !FlashAfter(f, 200).flashing
  {
    if f.flashing {
      LengthAtMost(f.flashId);
      assert HalfSmooth(f.smoothing) <= 250;
      assert Horizon(f) <= 1250;
      CDivNonNegative(f.smoothing, 2);
      FlashEndsBy(f, 200);
    }
  }

  lemma LengthAtMost(id: nat)
    requires id < FLASH_COUNT
    ensures Length(Pattern(id)) <= TARGET_MAX
  {
    TableLengths();
    if id == 0 {
    } else if id == 1 {
    } else if id == 2 {
    } else if id == 3 {
    } else if id == 4 {
    } else {
    }
  }

  /** `s_fireflies` and the LED driver the callback feeds. */
  class FireflyEngine {
    const fireflies: array<Firefly>
    const leds: LedDriver

    ghost predicate Valid()
      reads this, fireflies, leds
    {
      fireflies.Length == NUMBER_OF_FIREFLIES && leds.Valid() &&
      forall i :: 0 <= i < fireflies.Length ==> FireflyOk(fireflies[i])
    }

    /** Static zero-initialisation of `s_fireflies`. */
    constructor (leds: LedDriver)
      ensures this.leds == leds && fresh(fireflies)
      ensures fireflies.Length == NUMBER_OF_FIREFLIES
      ensures forall i :: 0 <= i < NUMBER_OF_FIREFLIES ==> fireflies[i] == Firefly(0, false, 0, 0, 0, 0, 0)
    {
      this.leds := leds;
      fireflies := new Firefly[NUMBER_OF_FIREFLIES](_ => Firefly(0, false, 0, 0, 0, 0, 0));
    }

    /** `firefly_init`: reset every firefly with a random delay, then
        register the periodic callback every `FIREFLY_TIMESTEP` ticks. */
    method Init(sched: Scheduler.Scheduler<TaskId>, draws: seq<nat>)
      requires fireflies.Length == NUMBER_OF_FIREFLIES && leds.Valid() && sched.Valid()
      requires |draws| == NUMBER_OF_FIREFLIES
      modifies fireflies, sched.slots
      ensures Valid() && sched.Valid()
      ensures forall i :: 0 <= i < NUMBER_OF_FIREFLIES ==> fireflies[i] == Initial(draws[i])
      ensures sched.slots[..] == Scheduler.Added(old(sched.slots[..]), FireflyPeriodicCallback, FIREFLY_TIMESTEP)
    {
      for i := 0 to fireflies.Length
        invariant forall j :: 0 <= j < i ==> fireflies[j] == Initial(draws[j])
        invariant sched.slots[..] == old(sched.slots[..])
      {
        fireflies[i] := Firefly(0, false, FLASH_FIRST, 0, FIREFLY_SMOOTHING_MIN,
                                RandRange(draws[i], FIREFLY_DELAY_MIN, FIREFLY_DELAY_MAX), 0);
        InitialOk(draws[i]);
      }
      sched.AddTask(FireflyPeriodicCallback, FIREFLY_TIMESTEP);
    }

    /** `firefly_step` on firefly `i`. */
    method StepFirefly(i: nat)
      requires i < fireflies.Length && fireflies[i].flashId < FLASH_COUNT
      modifies fireflies
      ensures fireflies[..] == old(fireflies[..])[i := Stepped(old(fireflies[i]))]
    {
      var f := fireflies[i];
      var t := f.flashTime + FIREFLY_TIMESTEP;
      var b := CalculateBrightnessSmoothed(Pattern(f.flashId), t, f.smoothing);
      var flashing := f.flashing;
      if b == 0 && f.smoothing < t {
        flashing := false;
      }
      fireflies[i] := f.(flashTime := t, brightness := b, flashing := flashing);
    }

    /** `firefly_periodic_callback`: each firefly in turn steps its flash and
        sets its LED, starts a flash, or counts down its delay. */
    method PeriodicCallback(draws: seq<Draw>)
      requires Valid() && |draws| == NUMBER_OF_FIREFLIES
      modifies fireflies, leds.brightness
      ensures Valid()
      ensures forall i :: 0 <= i < NUMBER_OF_FIREFLIES ==> fireflies[i] == Updated(old(fireflies[i]), draws[i])
      ensures forall i :: 0 <= i < LED_COUNT ==>
        leds.brightness[i] == if old(fireflies[i]).flashing then ToUint32(LedLevel(fireflies[i].brightness)) else old(leds.brightness[i])
    {
      for i := 0 to fireflies.Length
        invariant leds.Valid()
        invariant forall j :: 0 <= j < i ==> fireflies[j] == Updated(old(fireflies[j]), draws[j])
        invariant forall j :: i <= j < fireflies.Length ==> fireflies[j] == old(fireflies[j])
        invariant forall j :: 0 <= j < fireflies.Length ==> FireflyOk(fireflies[j])
        invariant forall j :: 0 <= j < LED_COUNT ==>
          leds.brightness[j] == if j < i && old(fireflies[j]).flashing then ToUint32(LedLevel(fireflies[j].brightness)) else old(leds.brightness[j])
      {
        UpdateFirefly(i, draws[i]);
      }
    }

    /** The body of the callback's loop for firefly `i`. */
    method UpdateFirefly(i: nat, d: Draw)
      requires i < fireflies.Length && leds.Valid() && i < LED_COUNT && FireflyOk(fireflies[i])
      modifies fireflies, leds.brightness
      ensures leds.Valid()
      ensures fireflies[..] == old(fireflies[..])[i := Updated(old(fireflies[i]), d)]
      ensures FireflyOk(fireflies[i])
      ensures old(fireflies[i]).flashing ==> leds.brightness[..] == old(leds.brightness[..])[i := ToUint32(LedLevel(fireflies[i].brightness))]
      ensures !old(fireflies[i]).flashing ==> leds.brightness[..] == old(leds.brightness[..])
    {
      var f := fireflies[i];
      UpdatedKeepsOk(f, d);
      if f.flashing {
        StepFirefly(i);
        leds.SetBrightness(i, ToUint32(LedLevel(fireflies[i].brightness)));
      } else if f.delayLen <= f.delayTime {
        var s := RandRange(d.smoothing, FIREFLY_SMOOTHING_MIN, FIREFLY_SMOOTHING_MAX);
        fireflies[i] := f.(flashId := RandRange(d.flashId, FLASH_FIRST, FLASH_LAST), smoothing := s,
                           flashTime := -CDiv(s, 2), flashing := true,
                           delayLen := RandRange(d.delayLen, FIREFLY_DELAY_MIN, FIREFLY_DELAY_MAX),
                           delayTime := 0);
      } else {
        fireflies[i] := f.(delayTime := f.delayTime + FIREFLY_TIMESTEP);
      }
    }
  }
}
