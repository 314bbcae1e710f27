/** The application (src/main.c): power hold, start-up order, and the idle
    timeout that cuts power after fifteen minutes without a touch. */
module Jar {

  import opened CArith
  import opened SystemDefs
  import opened Wrappers
  import opened Board
  import opened Tasks
  import Scheduler
  import opened Leds
  import opened Fireflies

  const TIMEOUT_MINUTES: nat := 15
  const TIMEOUT_SECONDS: nat := TIMEOUT_MINUTES * 60
  const TIMEOUT_MS: nat := TIMEOUT_SECONDS * 1000

  /** `s_timeout_counter` after one `main_timeout_callback`: reset by a
      touch, otherwise incremented with 32-bit wrap-around. */
  function NextCount(c: Uint32, touched: bool): Uint32
  {
    if touched then 0 else AddU32(c, 1)
  }

  /** Whether the callback that leaves the counter at `c` drives hold-power low. */
  predicate PowersOff(c: Uint32)
  {
    c >= TIMEOUT_MS
  }

  /** The counter after `n` callbacks without a touch. */
  function Untouched(c: Uint32, n: nat): Uint32
  {
    if n == 0 then c else NextCount(Untouched(c, n - 1), false)
  }

  /** At one callback per tick the timeout is fifteen minutes of ticks. */
  lemma TimeoutIsFifteenMinutes()
    ensures TIMEOUT_MS == 900000
    ensures TIMEOUT_MS == TIMEOUT_MINUTES * 60 * SYSTICK_HZ
  {
  }

  /** A callback that senses a touch never cuts power. */
  lemma TouchNeverPowersOff(c: Uint32)
    ensures NextCount(c, true) == 0
    ensures !PowersOff(NextCount(c, true))
  {
  }

  /** Untouched, the counter counts the callbacks (until it would wrap). */
  lemma {:induction false} UntouchedCounts(n: nat)
    requires n < U32
    ensures Untouched(0, n) == n
  {
    if n > 0 {
      UntouchedCounts(n - 1);
    }
  }

  /** From a reset counter the first power-off write comes on exactly the
      900000th untouched callback, and every later one repeats it. */
  lemma FirstPowerOff(n: nat)
    requires 1 <= n < U32
    ensures PowersOff(Untouched(0, n)) <==> n >= TIMEOUT_MS
  {
    UntouchedCounts(n);
  }

  /** `main_timeout_callback` and its counter. */
  class PowerTimeout {
    var counter: Uint32
    const board: Board

    constructor (board: Board)
      ensures this.board == board && counter == 0
    {
      this.board := board;
      counter := 0;
    }

    /** `touched` is the value `touch_read()` returns. */
    method Callback(touched: bool)
      modifies this, board
      ensures counter == NextCount(old(counter), touched)
      ensures board.events == old(board.events) + if PowersOff(counter) then [PinWrite(HoldPower, Low)] else []
    {
      if touched {
        counter := 0;
      } else {
        counter := AddU32(counter, 1);
      }
      if counter >= TIMEOUT_MS {
        board.Write(HoldPower, Low);
      }
    }
  }

  /** The task table of a freshly started system. */
  function EmptyTable(): (t: seq<Scheduler.Entry<TaskId>>)
    ensures Scheduler.TableOk(t)
  {
    seq(SYSTEM_TASKS_MAX, _ => Scheduler.EmptyEntry())
  }

  /** The table after start-up: the LED refresh every tick in slot 0, the
      fireflies every `FIREFLY_TIMESTEP` ticks in slot 1, the timeout every
      tick in slot 2. */
  function BootTable(): (t: seq<Scheduler.Entry<TaskId>>)
    ensures Scheduler.TableOk(t)
  {
    [Scheduler.Entry(Some(LedPeriodicCallback), 1),
     Scheduler.Entry(Some(FireflyPeriodicCallback), FIREFLY_TIMESTEP),
     Scheduler.Entry(Some(MainTimeoutCallback), 1)]
    + seq(SYSTEM_TASKS_MAX - 3, _ => Scheduler.EmptyEntry())
  }

  /** `led_init`, `firefly_init` and then `main` register their tasks in
      that order, so they take slots 0, 1 and 2. */
  lemma BootRegistration()
    ensures Scheduler.Added(Scheduler.Added(Scheduler.Added(EmptyTable(), LedPeriodicCallback, 1),
                                            FireflyPeriodicCallback, FIREFLY_TIMESTEP),
                            MainTimeoutCallback, 1) == BootTable()
  {
    var t0 := EmptyTable();
    assert Scheduler.FirstStop(t0, LedPeriodicCallback, 0) == 0;
    var t1 := Scheduler.Added(t0, LedPeriodicCallback, 1);
    assert Scheduler.FirstStop(t1, FireflyPeriodicCallback, 1) == 1;
    assert Scheduler.FirstStop(t1, FireflyPeriodicCallback, 0) == 1;
    var t2 := Scheduler.Added(t1, FireflyPeriodicCallback, FIREFLY_TIMESTEP);
    assert Scheduler.FirstStop(t2, MainTimeoutCallback, 2) == 2;
    assert Scheduler.FirstStop(t2, MainTimeoutCallback, 1) == 2;
    assert Scheduler.FirstStop(t2, MainTimeoutCallback, 0) == 2;
    assert Scheduler.Added(t2, MainTimeoutCallback, 1) == BootTable();
  }

  /** With the start-up table every tick refreshes one LED and runs the
      timeout; the fireflies run when the counter plus one is a multiple of
      `FIREFLY_TIMESTEP`. */
  lemma BootTableFires(counter: Uint32)
    ensures Scheduler.FiredUpTo(BootTable(), counter, SYSTEM_TASKS_MAX) ==
      [LedPeriodicCallback]
      + (if AddU32(counter, 1) % FIREFLY_TIMESTEP == 0 then [FireflyPeriodicCallback] else [])
      + [MainTimeoutCallback]
  {
    var t := BootTable();
    var r1 := Scheduler.FiredUpTo(t, counter, 1);
    var r2 := Scheduler.FiredUpTo(t, counter, 2);
    var r3 := Scheduler.FiredUpTo(t, counter, 3);
    assert t[0] == Scheduler.Entry(Some(LedPeriodicCallback), 1);
    assert t[1] == Scheduler.Entry(Some(FireflyPeriodicCallback), FIREFLY_TIMESTEP);
    assert t[2] == Scheduler.Entry(Some(MainTimeoutCallback), 1);
    assert Scheduler.Fires(t[0], counter, 0);
    assert Scheduler.Fires(t[1], counter, 1) <==> AddU32(counter, 1) % FIREFLY_TIMESTEP == 0;
    assert Scheduler.Fires(t[2], counter, 2);
    assert Scheduler.FiredUpTo(t, counter, 0) == [];
    assert r1 == [LedPeriodicCallback];
    assert r2 == r1 + if AddU32(counter, 1) % FIREFLY_TIMESTEP == 0 then [FireflyPeriodicCallback] else [];
    assert r3 == r2 + [MainTimeoutCallback];
    forall n | 3 <= n <= SYSTEM_TASKS_MAX
      ensures Scheduler.FiredUpTo(t, counter, n) == r3
    {
      FiredPastBoot(counter, n);
    }
  }

  lemma {:induction false} FiredPastBoot(counter: Uint32, n: nat)
    requires 3 <= n <= SYSTEM_TASKS_MAX
    ensures Scheduler.FiredUpTo(BootTable(), counter, n) == Scheduler.FiredUpTo(BootTable(), counter, 3)
  {
    if n > 3 {
      FiredPastBoot(counter, n - 1);
      assert BootTable()[n - 1] == Scheduler.EmptyEntry();
    }
  }

  /** The whole device: the board, the scheduler and the three subsystems. */
  class Jar {
    const board: Board
    const sched: Scheduler.Scheduler<TaskId>
    const leds: LedDriver
    const engine: FireflyEngine
    const timeout: PowerTimeout

    ghost predicate Valid()
      reads this, sched, sched.slots, leds, engine, engine.fireflies, timeout
    {
      sched.Valid() && engine.leds == leds && engine.Valid() && leds.board == board && timeout.board == board
    }

    /** `main` up to its idle loop: hold power, then `led_init`,
        `firefly_init` and the timeout registration. `delays` are the
        `rand()` outputs `firefly_init` draws. */
    constructor (delays: seq<nat>)
      requires |delays| == NUMBER_OF_FIREFLIES
      ensures Valid()
      ensures board.events == [PinWrite(HoldPower, High)]
      ensures sched.slots[..] == BootTable() && sched.counter == 0
      ensures timeout.counter == 0
      ensures forall i :: 0 <= i < NUMBER_OF_FIREFLIES ==> engine.fireflies[i] == Initial(delays[i])
    {
      var b := new Board();
      var s := new Scheduler.Scheduler<TaskId>();
      var l := new LedDriver(b);
      var e := new FireflyEngine(l);
      var t := new PowerTimeout(b);
      board, sched, leds, engine, timeout := b, s, l, e, t;
      new;
      assert sched.slots[..] == EmptyTable();
      board.Write(HoldPower, High);
      leds.Init(sched);
      engine.Init(sched, delays);
      timeout.counter := 0;
      sched.AddTask(MainTimeoutCallback, 1);
      BootRegistration();
    }

    /** `SysTick_Handler`: one scheduler tick, then the due callbacks in slot
        order. `touched` is what `touch_read()` returns in this tick and
        `draws` the `rand()` outputs of the firefly callback. */
    method Tick(touched: bool, draws: seq<Draw>)
      requires Valid() && |draws| == NUMBER_OF_FIREFLIES
      modifies sched, engine.fireflies, leds, leds.brightness, board, timeout
      ensures Valid()
      ensures sched.counter == AddU32(old(sched.counter), 1)
      ensures sched.slots[..] == old(sched.slots[..])
    {
      var fired := sched.ExecuteTasks();
      for k := 0 to |fired|
        invariant Valid()
        invariant sched.slots[..] == old(sched.slots[..])
        invariant sched.counter == AddU32(old(sched.counter), 1)
      {
        match fired[k]
        case LedPeriodicCallback => leds.PeriodicCallback();
        case FireflyPeriodicCallback => engine.PeriodicCallback(draws);
        case MainTimeoutCallback => timeout.Callback(touched);
      }
    }
  }
}
