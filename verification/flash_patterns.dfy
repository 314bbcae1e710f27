/** The flash-pattern table of src/fireflies.c and the functions that
    evaluate it: pattern length, the piecewise-linear (unsmoothed) brightness
    and its box-filtered (smoothed) average. Everything here reads only the
    constant table; the loops that compute these values are in module
    Fireflies and are proved equal to these definitions. */
module FlashPatterns {

  import opened CArith
  import opened SystemDefs
  import opened Wrappers

  /** `flash_point_type`: the next target brightness and the time allowed to
      reach it. */
  datatype FlashPoint = FlashPoint(target: int, time: int)

  const FLASH_COUNT: nat := 6
  const FIREFLY_FLASHPOINTS_MAX: nat := 15

  /** The largest target any pattern uses. */
  const TARGET_MAX: int := 1000

  /** A row of the two-dimensional C initializer: the points listed, then
      zero-initialised `{0, 0}` entries up to `FIREFLY_FLASHPOINTS_MAX`. */
  function Row(points: seq<FlashPoint>): (r: seq<FlashPoint>)
    requires |points| <= FIREFLY_FLASHPOINTS_MAX
    ensures |r| == FIREFLY_FLASHPOINTS_MAX && r[..|points|] == points
    ensures forall i :: |points| <= i < |r| ==> r[i] == FlashPoint(0, 0)
  {
    points + seq(FIREFLY_FLASHPOINTS_MAX - |points|, _ => FlashPoint(0, 0))
  }

  /** The points listed for each species, in table order. */
  const PALLENS_POINTS: seq<FlashPoint> :=
    [FlashPoint(800, 300), FlashPoint(1000, 100), FlashPoint(800, 200), FlashPoint(0, 400)]
  const LEWISI_POINTS: seq<FlashPoint> :=
    [FlashPoint(500, 100), FlashPoint(500, 800), FlashPoint(0, 100)]
  const AMPLUS_POINTS: seq<FlashPoint> :=
    [FlashPoint(1000, 100), FlashPoint(1, 100), FlashPoint(1, 100), FlashPoint(1000, 100), FlashPoint(0, 100)]
  const XANTHOPHOTIS_POINTS: seq<FlashPoint> :=
    [FlashPoint(1000, 200), FlashPoint(1, 100), FlashPoint(1, 200), FlashPoint(300, 100),
     FlashPoint(1, 100), FlashPoint(300, 100), FlashPoint(0, 100)]
  const JAMAICENSIS_POINTS: seq<FlashPoint> :=
    [FlashPoint(500, 50), FlashPoint(500, 200), FlashPoint(0, 50)]
  const LEUCOPYGE_POINTS: seq<FlashPoint> :=
    [FlashPoint(1000, 50), FlashPoint(1000, 200), FlashPoint(0, 50)]

  const PHOTINUS_PALLENS: seq<FlashPoint> := Row(PALLENS_POINTS)
  const PHOTINUS_LEWISI: seq<FlashPoint> := Row(LEWISI_POINTS)
  const PHOTINUS_AMPLUS: seq<FlashPoint> := Row(AMPLUS_POINTS)
  const PHOTINUS_XANTHOPHOTIS: seq<FlashPoint> := Row(XANTHOPHOTIS_POINTS)
  const PHOTURIS_JAMAICENSIS: seq<FlashPoint> := Row(JAMAICENSIS_POINTS)
  const PHOTINUS_LEUCOPYGE: seq<FlashPoint> := Row(LEUCOPYGE_POINTS)

  /** `flash_patterns`, indexed by flash id. */
  const FLASH_PATTERNS: seq<seq<FlashPoint>> :=
    [PHOTINUS_PALLENS, PHOTINUS_LEWISI, PHOTINUS_AMPLUS,
     PHOTINUS_XANTHOPHOTIS, PHOTURIS_JAMAICENSIS, PHOTINUS_LEUCOPYGE]

  // ---------------------------------------------------------------- shape

  /** Some point has target 0: the walks `for (i = 0; i == 0 || p[i-1].target != 0; i++)`
      stop after it. */
  predicate Terminated(p: seq<FlashPoint>)
  {
    exists i :: 0 <= i < |p| && p[i].target == 0
  }

  function FirstZeroFrom(p: seq<FlashPoint>, from: nat): (k: nat)
    requires from <= |p|
    requires exists i :: from <= i < |p| && p[i].target == 0
    ensures from <= k < |p| && p[k].target == 0
    ensures forall j :: from <= j < k ==> p[j].target != 0
    decreases |p| - from
  {
    if p[from].target == 0 then from else FirstZeroFrom(p, from + 1)
  }

  /** The index of the terminating point: the first with target 0. */
  function Terminator(p: seq<FlashPoint>): (k: nat)
    requires Terminated(p)
    ensures k < |p| && p[k].target == 0
    ensures forall j :: 0 <= j < k ==> p[j].target != 0
  {
    FirstZeroFrom(p, 0)
  }

  /** A pattern the brightness bounds hold for: terminated, and every point up
      to the terminator has a non-negative duration and a target in
      `[0, TARGET_MAX]`. */
  predicate WellFormed(p: seq<FlashPoint>)
  {
    Terminated(p) &&
    forall j :: 0 <= j <= Terminator(p) ==> p[j].time >= 0 && 0 <= p[j].target <= TARGET_MAX
  }

  /** Sum of the durations of the first `n` points: the end time of point
      `n - 1`, the start time of point `n`. */
  function SumTimes(p: seq<FlashPoint>, n: nat): int
    requires n <= |p|
  {
    if n == 0 then 0 else SumTimes(p, n - 1) + p[n - 1].time
  }

  /** The time at which point `i` ends. */
  function EndTime(p: seq<FlashPoint>, i: nat): int
    requires i < |p|
  {
    SumTimes(p, i + 1)
  }

  /** `calculate_flash_length`: the durations summed up to and including the
      terminating point. */
  function Length(p: seq<FlashPoint>): int
    requires Terminated(p)
  {
    SumTimes(p, Terminator(p) + 1)
  }

  lemma {:induction false} SumTimesMonotone(p: seq<FlashPoint>, a: nat, b: nat)
    requires WellFormed(p) && a <= b <= Terminator(p) + 1
    ensures SumTimes(p, a) <= SumTimes(p, b)
    decreases b - a
  {
    if a < b {
      SumTimesMonotone(p, a, b - 1);
    }
  }

  lemma SumTimesNonNegative(p: seq<FlashPoint>, n: nat)
    requires WellFormed(p) && n <= Terminator(p) + 1
    ensures 0 <= SumTimes(p, n) <= Length(p)
  {
    SumTimesMonotone(p, 0, n);
    SumTimesMonotone(p, n, Terminator(p) + 1);
  }

  // ---------------------------------------------------------------- the table

  /** A row whose listed points end with the only zero target, all with
      positive durations and targets in range, is well formed; its
      terminator is its last listed point and its length the sum of the
      listed durations. */
  lemma RowShape(points: seq<FlashPoint>)
    requires 1 <= |points| <= FIREFLY_FLASHPOINTS_MAX
    requires points[|points| - 1].target == 0
    requires forall j :: 0 <= j < |points| - 1 ==> points[j].target != 0
    requires forall j :: 0 <= j < |points| ==> points[j].time > 0 && 0 <= points[j].target <= TARGET_MAX
    ensures WellFormed(Row(points)) && Terminator(Row(points)) == |points| - 1
    ensures forall j :: 0 <= j <= Terminator(Row(points)) ==> Row(points)[j].time > 0
    ensures Length(Row(points)) == SumTimes(points, |points|)
  {
    var r := Row(points);
    assert forall j :: 0 <= j < |points| ==> r[j] == points[j] by {
      forall j | 0 <= j < |points| ensures r[j] == points[j] {
        assert r[..|points|][j] == points[j];
      }
    }
    assert r[|points| - 1].target == 0;
    RowSumTimes(points, |points|);
  }

  lemma {:induction false} RowSumTimes(points: seq<FlashPoint>, n: nat)
    requires n <= |points| <= FIREFLY_FLASHPOINTS_MAX
    ensures SumTimes(Row(points), n) == SumTimes(points, n)
  {
    if n > 0 {
      RowSumTimes(points, n - 1);
      assert Row(points)[..|points|][n - 1] == points[n - 1];
    }
  }

  /** Every row is terminated within its 15 entries and well formed, so all
      three walks over a row stay inside it. */
  lemma TableWellFormed(id: nat)
    requires id < FLASH_COUNT
    ensures |FLASH_PATTERNS[id]| == FIREFLY_FLASHPOINTS_MAX
    ensures WellFormed(FLASH_PATTERNS[id])
    ensures forall j :: 0 <= j <= Terminator(FLASH_PATTERNS[id]) ==> FLASH_PATTERNS[id][j].time > 0
  {
    if id == 0 {
      RowShape(PALLENS_POINTS);
    } else if id == 1 {
      RowShape(LEWISI_POINTS);
    } else if id == 2 {
      RowShape(AMPLUS_POINTS);
    } else if id == 3 {
      RowShape(XANTHOPHOTIS_POINTS);
    } else if id == 4 {
      RowShape(JAMAICENSIS_POINTS);
    } else {
      RowShape(LEUCOPYGE_POINTS);
    }
  }

  /** `flash_patterns[id]`, for a valid flash id. */
  function Pattern(id: nat): (p: seq<FlashPoint>)
    requires id < FLASH_COUNT
    ensures p == FLASH_PATTERNS[id]
    ensures |p| == FIREFLY_FLASHPOINTS_MAX && WellFormed(p)
  {
    TableWellFormed(id);
    FLASH_PATTERNS[id]
  }

  /** The six lengths: 1000, 1000, 500, 900, 300 and 300. */
  lemma TableLengths()
    ensures Length(Pattern(0)) == 1000
    ensures Length(Pattern(1)) == 1000
    ensures Length(Pattern(2)) == 500
    ensures Length(Pattern(3)) == 900
    ensures Length(Pattern(4)) == 300
    ensures Length(Pattern(5)) == 300
  {
    RowShape(PALLENS_POINTS);
    RowShape(LEWISI_POINTS);
    RowShape(AMPLUS_POINTS);
    RowShape(XANTHOPHOTIS_POINTS);
    RowShape(JAMAICENSIS_POINTS);
    RowShape(LEUCOPYGE_POINTS);
  }

  // ---------------------------------------------------------------- unsmoothed

  /** The point the walk of `calculate_brightness_unsmoothed` stops at when
      started at `from`: the first point up to the terminator whose end time
      exceeds `t`. None when the walk passes the terminator. */
  function Locate(p: seq<FlashPoint>, t: int, from: nat): (r: Option<nat>)
    requires Terminated(p) && from <= Terminator(p) + 1
    ensures r.Some? ==> from <= r.value <= Terminator(p) && t < EndTime(p, r.value)
    ensures r.Some? ==> forall j :: from <= j < r.value ==> EndTime(p, j) <= t
    ensures r.None? ==> forall j :: from <= j <= Terminator(p) ==> EndTime(p, j) <= t
    decreases Terminator(p) + 1 - from
  {
    if from > Terminator(p) then None
    else if t < EndTime(p, from) then Some(from)
    else Locate(p, t, from + 1)
  }

  /** `calculate_brightness_unsmoothed`: 0 before the pattern starts;
      otherwise linear interpolation, with C's truncating division, from the
      previous point's target (the implicit `{0, 0}` before the first point)
      to the current point's target. */
  function Unsmoothed(p: seq<FlashPoint>, t: int): int
    requires Terminated(p)
  {
    if t < 0 then 0
    else match Locate(p, t, 0)
      case None => 0
      case Some(i) =>
        var cur := p[i];
        var prv := if i == 0 then FlashPoint(0, 0) else p[i - 1];
        var endTime := EndTime(p, i);
        if cur.time != 0 then
          CDiv((cur.time - (endTime - t)) * (cur.target - prv.target), cur.time) + prv.target
        else 0
  }

  /** Zero outside the pattern: before time 0, and from its length on (no
      point's end time exceeds `t`, so the current point stays `{0, 0}`). */
  lemma UnsmoothedZeroOutside(p: seq<FlashPoint>, t: int)
    requires WellFormed(p)
    requires t < 0 || t >= Length(p)
    ensures Unsmoothed(p, t) == 0
  {
    if t >= 0 {
      forall j | 0 <= j <= Terminator(p)
        ensures EndTime(p, j) <= t
      {
        SumTimesMonotone(p, j + 1, Terminator(p) + 1);
      }
      LocateNoneWhenPast(p, t, 0);
    }
  }

  lemma {:induction false} LocateNoneWhenPast(p: seq<FlashPoint>, t: int, from: nat)
    requires Terminated(p) && from <= Terminator(p) + 1
    requires forall j :: from <= j <= Terminator(p) ==> EndTime(p, j) <= t
    ensures Locate(p, t, from) == None
    decreases Terminator(p) + 1 - from
  {
    if from <= Terminator(p) {
      LocateNoneWhenPast(p, t, from + 1);
    }
  }

  /** Inside the pattern the walk finds the point whose span holds `t`; its
      duration is positive and `t` lies `SumTimes(p, i) <= t < SumTimes(p, i + 1)`. */
  lemma LocateInside(p: seq<FlashPoint>, t: int) returns (i: nat)
    requires WellFormed(p) && 0 <= t < Length(p)
    ensures Locate(p, t, 0) == Some(i)
    ensures i <= Terminator(p)
    ensures SumTimes(p, i) <= t < SumTimes(p, i + 1)
    ensures p[i].time > 0
  {
    var r := Locate(p, t, 0);
    assert t < EndTime(p, Terminator(p));
    if r.None? {
      assert false;
    }
    i := r.value;
    if i > 0 {
      assert EndTime(p, i - 1) <= t;
    }
  }

  /** Interpolation with truncating division stays between its two ends. */
  lemma InterpolateBetween(off: int, time: int, a: int, b: int)
    requires 0 <= off <= time && time > 0
    ensures var v := CDiv(off * (b - a), time) + a;
      (a <= b ==> a <= v <= b) && (b <= a ==> b <= v <= a)
  {
    var d := b - a;
    var q := CDiv(off * d, time);
    if d >= 0 {
      MulLe(off, time, d);
      assert 0 <= off * d <= time * d;
      QuotientAtMost(off * d, time, d);
      QuotientNonNegative(off * d, time);
    } else {
      MulLe(off, time, -d);
      assert off * d == -(off * (-d));
      assert 0 <= off * (-d) <= time * (-d);
      QuotientAtMost(off * (-d), time, -d);
      QuotientNonNegative(off * (-d), time);
      assert q == -CDiv(off * (-d), time);
    }
  }

  lemma MulLe(a: int, b: int, c: int)
    requires 0 <= a <= b && c >= 0
    ensures 0 <= a * c <= b * c
  {
  }

  lemma QuotientAtMost(x: int, y: int, m: int)
    requires 0 <= x <= y * m && y > 0
    ensures CDiv(x, y) <= m
  {
    var q := CDiv(x, y);
    assert q * y <= x;
    if q > m {
      assert false;
    }
  }

  lemma QuotientNonNegative(x: int, y: int)
    requires x >= 0 && y > 0
    ensures CDiv(x, y) >= 0
  {
    var q := CDiv(x, y);
    assert 0 <= x - q * y < y;
    if q < 0 {
      MulLe(1, -q, y);
      assert false;
    }
  }

  /** Inside the pattern the brightness lies between the previous and the
      current point's targets. */
  lemma UnsmoothedBetweenTargets(p: seq<FlashPoint>, t: int) returns (i: nat)
    requires WellFormed(p) && 0 <= t < Length(p)
    ensures i <= Terminator(p) && Locate(p, t, 0) == Some(i)
    ensures var prv := if i == 0 then 0 else p[i - 1].target;
      MinVal(prv, p[i].target) <= Unsmoothed(p, t) <= MaxVal(prv, p[i].target)
  {
    i := LocateInside(p, t);
    var cur := p[i];
    var prv := if i == 0 then FlashPoint(0, 0) else p[i - 1];
    var off := cur.time - (EndTime(p, i) - t);
    assert off == t - SumTimes(p, i);
    InterpolateBetween(off, cur.time, prv.target, cur.target);
  }

  /** For a well-formed pattern the brightness is in `[0, TARGET_MAX]` at
      every time. */
  lemma UnsmoothedInRange(p: seq<FlashPoint>, t: int)
    requires WellFormed(p)
    ensures 0 <= Unsmoothed(p, t) <= TARGET_MAX
  {
    if t < 0 || t >= Length(p) {
      UnsmoothedZeroOutside(p, t);
    } else {
      var i := UnsmoothedBetweenTargets(p, t);
    }
  }

  /** At the start of a point with positive duration the brightness is the
      previous target exactly (0 for the first point): the curve is
      continuous at every breakpoint. */
  lemma UnsmoothedAtPointStart(p: seq<FlashPoint>, i: nat)
    requires WellFormed(p) && i <= Terminator(p) && p[i].time > 0
    ensures Unsmoothed(p, SumTimes(p, i)) == if i == 0 then 0 else p[i - 1].target
  {
    var t := SumTimes(p, i);
    SumTimesNonNegative(p, i);
    forall j | 0 <= j < i
      ensures EndTime(p, j) <= t
    {
      SumTimesMonotone(p, j + 1, i);
    }
    LocateFinds(p, t, 0, i);
    var prv := if i == 0 then FlashPoint(0, 0) else p[i - 1];
    var d := p[i].target - prv.target;
    assert p[i].time - (EndTime(p, i) - t) == 0;
    assert (p[i].time - (EndTime(p, i) - t)) * d == 0;
    assert CDiv(0, p[i].time) == 0;
  }

  /** The walk stops at the first point whose end time exceeds `t`. */
  lemma {:induction false} LocateFinds(p: seq<FlashPoint>, t: int, from: nat, i: nat)
    requires Terminated(p) && from <= i <= Terminator(p)
    requires forall j :: from <= j < i ==> EndTime(p, j) <= t
    requires t < EndTime(p, i)
    ensures Locate(p, t, from) == Some(i)
    decreases i - from
  {
    if from < i {
      LocateFinds(p, t, from + 1, i);
    }
  }

  /** Photinus lewisi: 495 one tick before the first breakpoint, 500 at it. */
  lemma LewisiBreakpoint()
    ensures Unsmoothed(Pattern(1), 99) == 495
    ensures Unsmoothed(Pattern(1), 100) == 500
  {
    var p := Pattern(1);
    assert Terminator(p) == 2;
    assert Locate(p, 99, 0) == Some(0);
    assert Locate(p, 100, 1) == Some(1);
    assert Locate(p, 100, 0) == Some(1);
  }

  // ---------------------------------------------------------------- smoothed

  /** The smoothing window of `calculate_brightness_smoothed`: half width
      `smoothing >> 1` (after narrowing to `int16_t`), width `2 * half + 1`. */
  function HalfSmooth(smoothing: int): int
  {
    ShiftRight1(Int16(smoothing))
  }

  function WindowWidth(smoothing: int): (w: int)
    ensures w % 2 == 1
    ensures 0 <= smoothing < 0x8000 ==> 1 <= w <= smoothing + 1
  {
    Int16(2 * HalfSmooth(smoothing) + 1)
  }

  /** Twice the area under the curve between `t1` and `t2`, by the
      trapezoid rule: `(b1 + b2) * (t2 - t1)`. */
  function Trapezoid(p: seq<FlashPoint>, t1: int, t2: int): int
    requires Terminated(p)
  {
    (Unsmoothed(p, t2) + Unsmoothed(p, t1)) * (t2 - t1)
  }

  /** The accumulation loop, from point `i` whose clipped start is `start`:
      each point's span clipped to the window `[ss, se)` contributes
      `(b1 + b2) * (t2 - t1)`, twice the area of a trapezoid; points wholly
      before the window are skipped; the walk stops at the point holding the
      window's end or after the terminator. */
  function SmoothSum(p: seq<FlashPoint>, ss: int, se: int, i: nat, start: int): int
    requires Terminated(p) && i <= Terminator(p) + 1
    decreases Terminator(p) + 1 - i
  {
    if i > Terminator(p) then 0
    else
      var endTime := start + p[i].time;
      if (ss >= start && ss < endTime) || ss < start then
        var t1 := if ss >= start && ss < endTime then ss else start;
        var t2 := MinVal(endTime, se);
        var area := Trapezoid(p, t1, t2);
        if t2 == se then area else area + SmoothSum(p, ss, se, i + 1, t2)
      else
        SmoothSum(p, ss, se, i + 1, endTime)
  }

  /** `calculate_brightness_smoothed`: 0 when the window misses the pattern,
      otherwise the accumulated double area divided by twice the width. */
  function Smoothed(p: seq<FlashPoint>, t: int, smoothing: int): int
    requires Terminated(p)
  {
    var half := HalfSmooth(smoothing);
    var width := WindowWidth(smoothing);
    var ss := t - half;
    var se := ss + width;
    if se < 0 || ss > Length(p) then 0
    else CDiv(SmoothSum(p, ss, se, 0, 0), 2 * width)
  }

  /** Every clipped interval is ordered, `t1 <= t2`, and lies in the window. */
  lemma ClippedIntervalOrdered(p: seq<FlashPoint>, ss: int, se: int, i: nat, start: int)
    requires WellFormed(p) && i <= Terminator(p)
    requires ss < se && start <= se
    ensures var endTime := start + p[i].time;
      var t1 := if ss >= start && ss < endTime then ss else start;
      var t2 := MinVal(endTime, se);
      (ss >= start && ss < endTime) || ss < start ==> ss <= t1 <= t2 <= se
  {
  }

  /** One clipped interval contributes between 0 and `2 * TARGET_MAX`
      times its length. */
  lemma AreaBounds(p: seq<FlashPoint>, t1: int, t2: int)
    requires WellFormed(p) && t1 <= t2
    ensures 0 <= Trapezoid(p, t1, t2) <= 2000 * (t2 - t1)
  {
    UnsmoothedInRange(p, t1);
    UnsmoothedInRange(p, t2);
    MulLe(Unsmoothed(p, t2) + Unsmoothed(p, t1), 2 * TARGET_MAX, t2 - t1);
  }

  /** The accumulated double area is non-negative and at most
      `2 * TARGET_MAX` times the part of the window still ahead. */
  lemma {:induction false} SmoothSumBounds(p: seq<FlashPoint>, ss: int, se: int, i: nat, start: int)
    requires WellFormed(p) && i <= Terminator(p) + 1
    requires ss < se && start <= se
    ensures 0 <= SmoothSum(p, ss, se, i, start) <= 2000 * (se - MaxVal(start, ss))
    decreases Terminator(p) + 1 - i
  {
    if i <= Terminator(p) {
      var acc := SmoothSum(p, ss, se, i, start);
      var endTime := start + p[i].time;
      if (ss >= start && ss < endTime) || ss < start {
        var t1 := if ss >= start && ss < endTime then ss else start;
        var t2 := MinVal(endTime, se);
        var area := Trapezoid(p, t1, t2);
        ClippedIntervalOrdered(p, ss, se, i, start);
        AreaBounds(p, t1, t2);
        assert t1 == MaxVal(start, ss);
        if t2 != se {
          SmoothSumBounds(p, ss, se, i + 1, t2);
          assert MaxVal(t2, ss) == t2;
          assert acc == area + SmoothSum(p, ss, se, i + 1, t2);
        } else {
          assert acc == area;
        }
      } else {
        SmoothSumBounds(p, ss, se, i + 1, endTime);
        assert MaxVal(endTime, ss) == MaxVal(start, ss);
        assert acc == SmoothSum(p, ss, se, i + 1, endTime);
      }
    }
  }

  /** A window wholly before the pattern or wholly after it yields 0. */
  lemma SmoothedRejectsOutsideWindow(p: seq<FlashPoint>, t: int, smoothing: int)
    requires Terminated(p)
    requires t - HalfSmooth(smoothing) + WindowWidth(smoothing) < 0 || t - HalfSmooth(smoothing) > Length(p)
    ensures Smoothed(p, t, smoothing) == 0
  {
  }

  /** For a well-formed pattern and a non-negative `int16_t` smoothing, the
      average lies in `[0, TARGET_MAX]`. */
  lemma SmoothedInRange(p: seq<FlashPoint>, t: int, smoothing: int)
    requires WellFormed(p) && 0 <= smoothing < 0x8000
    ensures 0 <= Smoothed(p, t, smoothing) <= TARGET_MAX
  {
    var half := HalfSmooth(smoothing);
    var width := WindowWidth(smoothing);
    var ss := t - half;
    var se := ss + width;
    if !(se < 0 || ss > Length(p)) {
      SmoothSumBounds(p, ss, se, 0, 0);
      var acc := SmoothSum(p, ss, se, 0, 0);
      assert se - MaxVal(0, ss) <= width;
      MulLe(se - MaxVal(0, ss), width, 2 * TARGET_MAX);
      assert acc <= TARGET_MAX * (2 * width);
      QuotientAtMost(acc, 2 * width, TARGET_MAX);
      QuotientNonNegative(acc, 2 * width);
    }
  }

  /** Once the window starts past the pattern's end the average is 0. */
  lemma SmoothedZeroPastEnd(p: seq<FlashPoint>, t: int, smoothing: int)
    requires Terminated(p)
    requires t > Length(p) + HalfSmooth(smoothing)
    ensures Smoothed(p, t, smoothing) == 0
  {
  }

  /** On the flat stretch of Photinus lewisi a 101-wide window averages to
      the plateau level. */
  lemma LewisiPlateau()
    ensures Smoothed(Pattern(1), 500, 100) == 500
  {
    var p := Pattern(1);
    RowShape(LEWISI_POINTS);
    assert Length(p) == 1000;
    assert HalfSmooth(100) == 50 && WindowWidth(100) == 101;
    assert p == Row(LEWISI_POINTS);
    assert p[..3] == LEWISI_POINTS;
    LewisiPlateauSum(p);
  }

  /** The window sum of a pattern that starts 500 / 100, 500 / 800. */
  lemma LewisiPlateauSum(p: seq<FlashPoint>)
    requires WellFormed(p) && Terminator(p) == 2
    requires p[0] == FlashPoint(500, 100) && p[1] == FlashPoint(500, 800)
    ensures SmoothSum(p, 450, 551, 0, 0) == 1000 * 101
  {
    assert SumTimes(p, 0) == 0;
    assert SumTimes(p, 1) == 100;
    assert EndTime(p, 0) == 100 && EndTime(p, 1) == 900;
    assert Locate(p, 450, 1) == Some(1);
    assert Locate(p, 551, 1) == Some(1);
    assert Unsmoothed(p, 450) == 500;
    assert Unsmoothed(p, 551) == 500;
    assert SmoothSum(p, 450, 551, 1, 100) == 1000 * 101;
  }

}
