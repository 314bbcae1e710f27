/** Constants and helper macros shared by the firmware (src/system.h). */
module SystemDefs {

  /** Capacity of the periodic task table. */
  const SYSTEM_TASKS_MAX: nat := 10

  /** SysTick events per second: one scheduler tick is one millisecond. */
  const SYSTICK_HZ: nat := 1000

  /** `min_val(a, b)`: `a` when `a < b`, otherwise `b`. */
  function MinVal(a: int, b: int): (r: int)
    ensures r <= a && r <= b
    ensures r == a || r == b
  {
    if a < b then a else b
  }

  /** `max_val(a, b)`: `a` when `a > b`, otherwise `b`. */
  function MaxVal(a: int, b: int): (r: int)
    ensures r >= a && r >= b
    ensures r == a || r == b
  {
    if a > b then a else b
  }

  /** `limit_val(v, lo, hi)` is `min_val(max_val(v, lo), hi)`. */
  function LimitVal(v: int, lo: int, hi: int): (r: int)
    ensures lo <= hi ==> lo <= r <= hi
    ensures lo <= v <= hi ==> r == v
    ensures v < lo && lo <= hi ==> r == lo
    ensures hi < v && lo <= hi ==> r == hi
  {
    MinVal(MaxVal(v, lo), hi)
  }

  /** The scheduler clamps periods with `max_val(prd, 1)`: never zero. */
  lemma ClampedPeriodPositive(prd: nat)
    ensures MaxVal(prd, 1) >= 1
    ensures prd >= 1 ==> MaxVal(prd, 1) == prd
    ensures prd == 0 ==> MaxVal(prd, 1) == 1
  {
  }
}
