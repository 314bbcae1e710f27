# Firefly jar, modelled in Dafny

This project models the firmware of a "firefly jar" (STM32, C). Eight LEDs
blink like fireflies. One DAC drives all of them through an analog switch
that is time-multiplexed across the eight channels. A small tick-driven
scheduler runs three periodic tasks:

- the LED refresh, which updates one channel per tick;
- the firefly engine, which every eight ticks advances each firefly's
  waiting / flashing state machine and computes a smoothed brightness from
  a table of piecewise-linear flash patterns;
- the idle timeout, which cuts power after fifteen minutes without a touch.

Modules, one per source file, plus two shared ones:

| module | models |
|---|---|
| `CArith` | the C integer semantics the code depends on: truncating `/`, `int16_t` narrowing, `>> 1`, `uint32_t` wrap and conversion |
| `SystemDefs` | `src/system.h`: `min_val`, `max_val`, `limit_val`, `SYSTEM_TASKS_MAX`, `SYSTICK_HZ` |
| `Board` | the outputs the core drives (GPIO level writes and DAC writes), as an ordered event trace |
| `Tasks` | identities of the three task callbacks (the function pointers) |
| `Scheduler` | `src/system.c`: the 10-slot task table, `system_add_task`, `system_remove_task` and `execute_tasks`, as a class over an array |
| `FlashPatterns` | `src/fireflies.c`: the constant pattern table, and pure specifications of the pattern length and of the unsmoothed and smoothed brightness |
| `Fireflies` | `src/fireflies.c`: the three `calculate_*` loops as methods proved equal to those specifications; the firefly record, `firefly_step`, `firefly_init` and `firefly_periodic_callback` as a class over the firefly array |
| `Leds` | `src/leds.c`: the brightness array, the round-robin channel pointer, the four-step output sequence, select-line encoding and the 12-bit DAC mask |
| `Jar` | `src/main.c`: the idle-timeout state machine, start-up order, and one SysTick dispatching the due callbacks |

The code is written in a step-by-step style, so the loops and in-place
updates are Dafny methods. Each method is proved against a function of its
inputs or its old state. The functions carry the lemmas that state what the
firmware promises.

Where the written description of the system and the code disagree, the
model follows the code:

- `system_add_task` returns nothing. Registering into a full table is
  silently ignored, with no rejection signal.
- Re-registering a task is a no-op only when every slot below it is
  occupied. An empty slot below it receives a second registration
  (`Scheduler.AddBelowHoleDuplicates`).
- A flash ends when the brightness is 0 and `smoothing < flash_time`. The
  code compares against the whole smoothing value, not the half-width.

## Model

| member | source | states |
|---|---|---|
| CArith.CDiv | src/fireflies.c:492 | C's truncating division: the remainder has the sign of the dividend and is smaller than the divisor |
| CArith.CDivNonNegative | src/fireflies.c:417 | on a non-negative dividend and positive divisor, C and Euclidean division agree |
| CArith.CDivTruncatesTowardZero | src/fireflies.c:492 | on negative dividends they differ (-1/2 is 0 in C) |
| CArith.Int16 | src/fireflies.c:321 | narrowing to `int16_t`: result in range, identity on values that fit, congruent modulo 2^16 |
| CArith.ShiftRight1 | src/fireflies.c:345 | `x >> 1` rounds toward minus infinity: `2r <= x < 2r + 2` |
| CArith.ToUint32 | src/fireflies.c:541 | passing an int to a `uint32_t` parameter: identity on non-negative values, `+2^32` on negative ones |
| CArith.AddU32 | src/system.c:253 | unsigned 32-bit addition: the sum, or the sum minus 2^32 when it overflows |
| SystemDefs.MinVal | src/system.h:36 | no larger than either argument, and equal to one of them |
| SystemDefs.MaxVal | src/system.h:37 | no smaller than either argument, and equal to one of them |
| SystemDefs.LimitVal | src/system.h:38 | in `[lo, hi]` when `lo <= hi`; `v` when `v` is already inside; the nearer bound otherwise |
| SystemDefs.ClampedPeriodPositive | src/system.c:88 | `max_val(prd, 1)` is at least 1, is `prd` for a non-zero period and 1 for period 0 |
| Board.LastLevel | src/leds.c:327 | the level last written to a pin: None exactly when no write to it occurred; otherwise one of the writes in the trace |
| Board.LastDac | src/leds.c:383 | the same for the DAC data register |
| Board.LastLevelAppend | src/leds.c:327 | one more event sets the pin's level if it writes that pin and leaves it otherwise |
| Board.LastDacAppend | src/leds.c:383 | one more event sets the DAC value if it is a DAC write and leaves it otherwise |
| Board.Board.Write | src/main.c:86 | `gpio_output_set` appends exactly one level write to the trace |
| Board.Board.WriteDac | src/leds.c:383 | a DAC write appends exactly one DAC event |
| Scheduler.FirstStop | src/system.c:80-98 | the slot where the add loop stops: every slot before it is occupied by another task; it is empty, holds the task, or is past the end |
| Scheduler.AddUsesLowestEmptySlot | src/system.c:80-91 | add puts the task in the lowest empty slot with period `max(prd, 1)` and leaves every other slot unchanged |
| Scheduler.AddRegisteredIsNoOp | src/system.c:95-98 | re-adding a task already in slot k with no hole below k changes nothing |
| Scheduler.AddBelowHoleDuplicates | src/system.c:85-98 | with an empty slot below the registered slot, add registers the task a second time |
| Scheduler.AddToFullTableIsNoOp | src/system.c:80-99 | when all slots hold other tasks, add changes nothing |
| Scheduler.AddKeepsTableOk | src/system.c:88 | add keeps the table invariant: a slot is empty exactly when its period is 0 |
| Scheduler.RemoveClearsEverySlot | src/system.c:188-198 | remove leaves no slot holding the task, resets those slots to NULL / 0, and leaves all other slots as they were |
| Scheduler.FiredInSlotOrder | src/system.c:258-270 | one tick runs slot i's task exactly when it is non-NULL and `(counter + i) % period == 0`, in increasing slot order |
| Scheduler.EmptySlotNeverRuns | src/system.c:265-266 | a NULL slot's task is never invoked |
| Scheduler.PhaseOffsetExample | src/system.c:265 | two period-5 tasks in slots 0 and 1 fire at counter values {5, 10} and {4, 9} |
| Scheduler.FiresOncePerPeriod | src/system.c:253-265 | away from the 32-bit wrap, an occupied slot with period P fires exactly once in any P consecutive ticks |
| Scheduler.Scheduler.constructor | src/system.c:45 | the static table starts with every slot NULL with period 0, and the counter at 0 |
| Scheduler.Scheduler.AddTask | src/system.c:80-99 | the new table is `Added` of the old one |
| Scheduler.Scheduler.RemoveTask | src/system.c:188-198 | the new table is `Removed` of the old one |
| Scheduler.Scheduler.ExecuteTasks | src/system.c:253-270 | the counter is incremented once, with wrap, before any test; the tasks run are exactly `FiredUpTo` at the new counter |
| Scheduler.CMod | src/system.c:265 | C's `%` on unsigned values: undefined (None) exactly for divisor 0 |
| Scheduler.AsWrittenDividesByZero | src/system.c:265 | as written, the firing test on an empty slot divides by zero |
| Scheduler.FiresAgreesWhereDefined | src/system.c:265-266 | wherever the written test is defined, and on every occupied slot, it agrees with the guarded `Fires` |
| FlashPatterns.Row | src/fireflies.c:109-171 | a table row: the listed points followed by zero points up to 15 entries |
| FlashPatterns.Terminator | src/fireflies.c:297 | the first zero-target point, where the walks stop |
| FlashPatterns.SumTimesMonotone | src/fireflies.c:297-300 | running end times never decrease up to the terminator |
| FlashPatterns.SumTimesNonNegative | src/fireflies.c:297-300 | every running end time lies between 0 and the pattern length |
| FlashPatterns.RowShape | src/fireflies.c:109-171 | a listed row is well formed, its terminator is its last listed point, and its length is the sum of its listed durations |
| FlashPatterns.TableWellFormed | src/fireflies.c:109-171 | every table row has 15 entries and a zero-target point, and has positive durations and targets in [0, 1000] up to it, so all walks stay in bounds |
| FlashPatterns.Pattern | src/fireflies.c:109-171 | `flash_patterns[id]` is a well-formed 15-entry row |
| FlashPatterns.TableLengths | src/fireflies.c:109-171 | the six pattern lengths are 1000, 1000, 500, 900, 300 and 300 |
| FlashPatterns.Locate | src/fireflies.c:472-485 | the unsmoothed walk stops at the first point whose end time exceeds `t`, or finds none |
| FlashPatterns.UnsmoothedZeroOutside | src/fireflies.c:453-497 | the unsmoothed brightness is 0 before time 0 and from the pattern length on |
| FlashPatterns.LocateInside | src/fireflies.c:472-485 | inside the pattern the walk finds a point of positive duration whose span contains `t` |
| FlashPatterns.InterpolateBetween | src/fireflies.c:492 | truncating linear interpolation stays between its two end values |
| FlashPatterns.UnsmoothedBetweenTargets | src/fireflies.c:472-492 | inside the pattern the brightness lies between the previous and current targets |
| FlashPatterns.UnsmoothedInRange | src/fireflies.c:434-501 | the unsmoothed brightness of a well-formed pattern is always in [0, 1000] |
| FlashPatterns.UnsmoothedAtPointStart | src/fireflies.c:472-492 | at the start of each point the brightness is exactly the previous target (0 for the first point) |
| FlashPatterns.LewisiBreakpoint | src/fireflies.c:124-128 | Photinus lewisi: brightness 495 at t = 99 and 500 at t = 100 |
| FlashPatterns.WindowWidth | src/fireflies.c:345-346 | the window width `2 * (smoothing >> 1) + 1` is odd and, for smoothing in range, between 1 and `smoothing + 1` |
| FlashPatterns.ClippedIntervalOrdered | src/fireflies.c:384-403 | every segment clipped to the window has `ss <= t1 <= t2 <= se` |
| FlashPatterns.AreaBounds | src/fireflies.c:402-405 | one clipped interval contributes between 0 and `2 * 1000 * (t2 - t1)` |
| FlashPatterns.SmoothSumBounds | src/fireflies.c:370-416 | the accumulated sum lies between 0 and `2 * 1000` times the rest of the window |
| FlashPatterns.SmoothedRejectsOutsideWindow | src/fireflies.c:358-365 | the smoothed brightness is 0 when the window ends before 0 or starts after the pattern length |
| FlashPatterns.SmoothedInRange | src/fireflies.c:317-421 | the smoothed brightness is always in [0, 1000] |
| FlashPatterns.SmoothedZeroPastEnd | src/fireflies.c:358-365 | past `length + half` the smoothed brightness is 0 |
| FlashPatterns.LewisiPlateau | src/fireflies.c:124-128 | Photinus lewisi with a 101-wide window at t = 500 averages to the plateau level 500 |
| Fireflies.CalculateFlashLength | src/fireflies.c:276-304 | the loop returns the sum of durations up to and including the terminator |
| Fireflies.CalculateBrightnessUnsmoothed | src/fireflies.c:434-501 | the loop returns the interpolated brightness `Unsmoothed` |
| Fireflies.CalculateBrightnessSmoothed | src/fireflies.c:317-421 | the loop returns the window average `Smoothed` |
| Fireflies.RandRange | src/fireflies.c:40 | `rand_range(min, max)` lies in `[min, max]`, and is `min + r` for small draws |
| Fireflies.LedLevelBounds | src/fireflies.c:541 | `brightness * 150 / 1000` is in [0, 150], and 0 exactly for brightness below 7 |
| Fireflies.InitialOk | src/fireflies.c:247-257 | `firefly_init` leaves each firefly waiting, dark, with its delay in [1000, 12000] and flash id and smoothing in range |
| Fireflies.StepPastHorizonEnds | src/fireflies.c:589-603 | once the flash time exceeds both `smoothing` and `length + half`, a step always ends the flash with brightness 0 |
| Fireflies.StepKeepsOk | src/fireflies.c:580-605 | a step adds the time step to the flash time, keeps the firefly's invariant, and changes no other field than brightness and flashing |
| Fireflies.StartKeepsOk | src/fireflies.c:543-557 | starting a flash gives flash id in [0, 5], smoothing in [50, 500], `flash_time = -(smoothing / 2)`, delay in [1000, 12000] and delay time 0 |
| Fireflies.UpdatedKeepsOk | src/fireflies.c:527-566 | every branch of the callback keeps each firefly's invariant |
| Fireflies.FlashingLedLevel | src/fireflies.c:536-541 | the LED value written while flashing is at most 150, and 0 on the step that ends the flash |
| Fireflies.FlashEndsBy | src/fireflies.c:580-605 | a flash ends within any number of steps that carries the flash time past the horizon |
| Fireflies.EveryFlashEnds | src/fireflies.c:531-536 | every flash ends within 200 callbacks |
| Fireflies.LengthAtMost | src/fireflies.c:109-171 | no pattern is longer than 1000 ticks |
| Fireflies.FireflyEngine.constructor | src/fireflies.c:182 | the static firefly array is zero-initialised |
| Fireflies.FireflyEngine.Init | src/fireflies.c:228-264 | each firefly is reset with its own delay draw, and the callback is registered with period `FIREFLY_TIMESTEP` |
| Fireflies.FireflyEngine.StepFirefly | src/fireflies.c:580-605 | only firefly i changes, to `Stepped` of its old value |
| Fireflies.FireflyEngine.UpdateFirefly | src/fireflies.c:529-565 | firefly i takes its callback update; its LED is written, with the scaled brightness, exactly when it was flashing |
| Fireflies.FireflyEngine.PeriodicCallback | src/fireflies.c:513-568 | every firefly takes its update; the LEDs of flashing fireflies get their scaled brightness; the others keep theirs |
| Leds.Pow2 | src/leds.c:359 | `1 << i` is positive |
| Leds.SelectEvents | src/leds.c:356-361 | `dac_set_led` writes the three select lines in order, line i with bit i of the channel |
| Leds.SelectDecodes | src/leds.c:356-361 | for a channel below 8 the three select levels decode back to the channel |
| Leds.SelectInjective | src/leds.c:356-361 | distinct channels drive distinct select patterns |
| Leds.DacValue | src/leds.c:383 | the masked DAC value is at most 4095, and equals the input when it is at most 4095 |
| Leds.DacValueLowBits | src/leds.c:383 | masking keeps the value modulo 4096 |
| Leds.UpdateLeavesChannelSelected | src/leds.c:225-240 | after an update the switch is enabled, the select lines encode the channel and the DAC holds the masked brightness |
| Leds.UpdateSwitchesWhileDisabled | src/leds.c:225-240 | the update starts by disabling the switch, and the DAC and select writes all happen while it is disabled |
| Leds.ChannelAfterIsOffset | src/leds.c:202 | n callbacks from channel `id` leave the pointer at `(id + n) % 8` |
| Leds.ModSucc | src/leds.c:202 | `(m % 8 + 1) % 8 == (m + 1) % 8` |
| Leds.OffsetsDistinct | src/leds.c:202 | fewer than 8 steps apart, two channel offsets differ |
| Leds.RoundRobinCoversAll | src/leds.c:197-202 | any 8 consecutive callbacks address every channel exactly once |
| Leds.LedDriver.constructor | src/leds.c:71 | brightness array zero-initialised and channel pointer 0 |
| Leds.LedDriver.Init | src/leds.c:120-141 | `led_init` clears the array and registers the refresh with period 1 |
| Leds.LedDriver.SetBrightness | src/leds.c:154-168 | stores the value iff the channel is below 8; no other entry changes |
| Leds.LedDriver.DacEnableOutput | src/leds.c:305-329 | one write of the active-low enable pin: low to enable, high to disable |
| Leds.LedDriver.DacSetOutput | src/leds.c:375-385 | one DAC write of the masked value |
| Leds.LedDriver.DacSetLed | src/leds.c:341-363 | exactly the three select writes for the channel |
| Leds.LedDriver.UpdateBrightness | src/leds.c:216-242 | exactly: enable pin high, DAC write, three select writes, enable pin low |
| Leds.LedDriver.PeriodicCallback | src/leds.c:184-204 | drives the current channel with its stored brightness and advances the pointer modulo 8 |
| Jar.TimeoutIsFifteenMinutes | src/main.c:30-32 | `TIMEOUT_MS` is 900000, fifteen minutes of 1 ms ticks |
| Jar.TouchNeverPowersOff | src/main.c:133-148 | a callback with touch active resets the counter and never drives hold-power low |
| Jar.UntouchedCounts | src/main.c:137-140 | from 0, n untouched callbacks leave the counter at n |
| Jar.FirstPowerOff | src/main.c:99-148 | from counter 0, hold-power is driven low on the n-th untouched callback exactly when n >= 900000 |
| Jar.PowerTimeout.constructor | src/main.c:54 | the timeout counter starts at 0 |
| Jar.PowerTimeout.Callback | src/main.c:124-150 | the counter is reset on touch and incremented otherwise; hold-power is written low iff the new counter is at least `TIMEOUT_MS` |
| Jar.EmptyTable | src/system.c:45 | the zero-initialised table satisfies the table invariant |
| Jar.BootTable | src/main.c:91-100 | the start-up table satisfies the table invariant |
| Jar.BootRegistration | src/main.c:91-100 | `led_init`, `firefly_init` and `main` register in that order and take slots 0, 1 and 2 |
| Jar.BootTableFires | src/system.c:258-270 | with the start-up table each tick runs the LED refresh, then the fireflies when the new counter plus their slot offset 1 is a multiple of 8, then the timeout |
| Jar.Jar.constructor | src/main.c:76-111 | hold-power is driven high before anything else, the table is the start-up table and the fireflies start from their draws |
| Jar.Jar.Tick | src/system.c:212-219 | one SysTick increments the scheduler counter once, runs the due callbacks and leaves the table unchanged |

## Left out

- `src/gpio.c` is not part of this model. Its register-level pin configuration is hardware I/O. `gpio_output_set` appears only as an event in the `Board` trace.
- `system_init` (clock and PLL bring-up with busy-wait loops) and `dac_init` (peripheral register setup) are hardware initialisation. They are not modelled, and neither are their output writes.
- `SysTick_Handler` is an interrupt entry. It is modelled as the explicit method `Jar.Jar.Tick`.
- Jar.Jar.Tick: runs the due callbacks after the scheduler has picked them, not from inside the slot loop. This is equivalent because no callback changes the table. Its contract states only the scheduler's new state and the invariants, not the whole new LED and firefly state.
- `touch_init` and `touch_read` (src/touch.h holds declarations only) and `main`'s idle loop are not modelled. The touch reading is the `touched` parameter.
- `rand()` is not modelled. Each call site takes an injected draw: one per firefly in `firefly_init`, and a `Draw` of three raw values per firefly per callback. This covers every output stream, but the model does not capture that the draws come from one shared sequence.
- `volatile` and interrupt context are not modelled. Everything runs serially inside one tick.
- Integer widths are not modelled on the firefly fields, the pattern arithmetic or the brightness sums (int32 and uint8). All those values stay far inside their ranges. The widths that do matter are written out: the scheduler counter wraps, smoothing is narrowed to int16, and the LED value is converted to uint32.
- Leds.LedDriver.SetBrightness: `s_led_brightness` is an `int32_t` array written from and read back as `uint32_t`. The model stores the uint32 value, which that round trip preserves.
- Fireflies.CalculateFlashLength, Fireflies.CalculateBrightnessUnsmoothed and Fireflies.CalculateBrightnessSmoothed take the pattern row (`Pattern(id)`), not the flash id.
- Fireflies.FireflyEngine.PeriodicCallback: the per-firefly body of the loop is the separate method `UpdateFirefly`, and `firefly_step` within it is `StepFirefly`.
- `system_add_task` with a NULL task pointer is not modelled. Task identities are never NULL.
- Scheduler.FiresOncePerPeriod: stated only away from the 32-bit counter wrap. The wrap comes after about 49 days, long after the 15-minute power-off.
- Scheduler.Fires: tests the task before the modulo. As written, the source evaluates `% 0` on empty slots first (see Findings).

## Findings

| source | as written | input that shows it | evidently intended | confidence | as-written member | corrected member |
|---|---|---|---|---|---|---|
| src/system.c:265 | `((counter + i) % cur_task->period) == 0 && cur_task->task != NULL` evaluates the modulo before the NULL test | any tick with an empty slot, for example slot 3 of the start-up table, whose period is 0 (zero-initialised at src/system.c:45, reset at src/system.c:196) | test `task != NULL` first, so an empty slot's period is never used as a divisor | not executed | Scheduler.AsWrittenDividesByZero | Scheduler.FiresAgreesWhereDefined |
