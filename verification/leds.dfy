/** The multiplexed LED driver (src/leds.c): one DAC whose output an analog
    switch routes to one of `LED_COUNT` LED drivers at a time, refreshed
    round-robin, one channel per millisecond. */
module Leds {

  import opened CArith
  import opened Wrappers
  import opened Board
  import Scheduler
  import opened Tasks

  /** `LED_COUNT` (leds.h): the three select lines address eight channels. */
  const LED_COUNT: nat := 8

  /** Full scale of the 12-bit DAC data register. */
  const DAC_MAX: nat := 0xFFF

  /** The analog switch's select inputs, in bit order. */
  const SELECT_PINS: seq<Pin> := [SwitchSelect0, SwitchSelect1, SwitchSelect2]

  function Pow2(i: nat): (r: nat)
    ensures r >= 1
  {
    if i == 0 then 1 else 2 * Pow2(i - 1)
  }

  /** The level `dac_set_led` drives on select line `i`: high iff bit `i` of
      the channel number is set. */
  function SelectLevel(id: nat, i: nat): Level
  {
    if (id / Pow2(i)) % 2 == 1 then High else Low
  }

  function Bit(l: Level): (b: nat)
    ensures b <= 1
  {
    if l == High then 1 else 0
  }

  /** The three select levels read as a binary number give the channel back. */
  lemma SelectDecodes(id: nat)
    requires id < LED_COUNT
    ensures Bit(SelectLevel(id, 0)) + 2 * Bit(SelectLevel(id, 1)) + 4 * Bit(SelectLevel(id, 2)) == id
  {
    assert Pow2(1) == 2 && Pow2(2) == 4;
    assert id == 0 || id == 1 || id == 2 || id == 3 || id == 4 || id == 5 || id == 6 || id == 7;
  }

  /** So distinct channels select distinct outputs. */
  lemma SelectInjective(a: nat, b: nat)
    requires a < LED_COUNT && b < LED_COUNT
    requires forall i :: 0 <= i < 3 ==> SelectLevel(a, i) == SelectLevel(b, i)
    ensures a == b
  {
    SelectDecodes(a);
    SelectDecodes(b);
    assert SelectLevel(a, 0) == SelectLevel(b, 0);
    assert SelectLevel(a, 1) == SelectLevel(b, 1);
    assert SelectLevel(a, 2) == SelectLevel(b, 2);
  }

  /** `dac_val & 0x00000FFF`: the low twelve bits. */
  function DacValue(v: Uint32): (r: nat)
    ensures r <= DAC_MAX
    ensures v <= DAC_MAX ==> r == v
  {
    v % (DAC_MAX + 1)
  }

  /** The mask keeps the low twelve bits: what it drops is a multiple of 4096. */
  lemma DacValueLowBits(v: Uint32)
    ensures (v - DacValue(v)) % (DAC_MAX + 1) == 0
  {
    var q := v / (DAC_MAX + 1);
    assert v - DacValue(v) == q * (DAC_MAX + 1);
  }

  /** The trace of `led_update_brightness(id, v)`: switch off (nEnable high),
      DAC write, the three select lines in bit order, switch on. */
  function UpdateEvents(id: nat, v: Uint32): seq<Event>
  {
    [PinWrite(SwitchNEnable, High), DacWrite(DacValue(v))]
    + SelectEvents(id)
    + [PinWrite(SwitchNEnable, Low)]
  }

  /** The writes of `dac_set_led(id)`. */
  function SelectEvents(id: nat): (r: seq<Event>)
    ensures |r| == |SELECT_PINS|
    ensures forall i :: 0 <= i < |r| ==> r[i] == PinWrite(SELECT_PINS[i], SelectLevel(id, i))
  {
    [PinWrite(SwitchSelect0, SelectLevel(id, 0)),
     PinWrite(SwitchSelect1, SelectLevel(id, 1)),
     PinWrite(SwitchSelect2, SelectLevel(id, 2))]
  }

  /** After an update the switch is enabled, the select lines encode the
      channel and the DAC holds the masked brightness, whatever came before. */
  lemma UpdateLeavesChannelSelected(before: seq<Event>, id: nat, v: Uint32)
    ensures var after := before + UpdateEvents(id, v);
      LastLevel(after, SwitchNEnable) == Some(Low) &&
      LastLevel(after, SwitchSelect0) == Some(SelectLevel(id, 0)) &&
      LastLevel(after, SwitchSelect1) == Some(SelectLevel(id, 1)) &&
      LastLevel(after, SwitchSelect2) == Some(SelectLevel(id, 2)) &&
      LastDac(after) == Some(DacValue(v))
  {
    var s0 := before + [PinWrite(SwitchNEnable, High)];
    var s1 := s0 + [DacWrite(DacValue(v))];
    var s2 := s1 + [PinWrite(SwitchSelect0, SelectLevel(id, 0))];
    var s3 := s2 + [PinWrite(SwitchSelect1, SelectLevel(id, 1))];
    var s4 := s3 + [PinWrite(SwitchSelect2, SelectLevel(id, 2))];
    var s5 := s4 + [PinWrite(SwitchNEnable, Low)];
    assert s5 == before + UpdateEvents(id, v);
    LastLevelAppend(s4, PinWrite(SwitchNEnable, Low), SwitchNEnable);
    LastLevelAppend(s4, PinWrite(SwitchNEnable, Low), SwitchSelect2);
    LastLevelAppend(s3, PinWrite(SwitchSelect2, SelectLevel(id, 2)), SwitchSelect2);
    LastLevelAppend(s4, PinWrite(SwitchNEnable, Low), SwitchSelect1);
    LastLevelAppend(s3, PinWrite(SwitchSelect2, SelectLevel(id, 2)), SwitchSelect1);
    LastLevelAppend(s2, PinWrite(SwitchSelect1, SelectLevel(id, 1)), SwitchSelect1);
    LastLevelAppend(s4, PinWrite(SwitchNEnable, Low), SwitchSelect0);
    LastLevelAppend(s3, PinWrite(SwitchSelect2, SelectLevel(id, 2)), SwitchSelect0);
    LastLevelAppend(s2, PinWrite(SwitchSelect1, SelectLevel(id, 1)), SwitchSelect0);
    LastLevelAppend(s1, PinWrite(SwitchSelect0, SelectLevel(id, 0)), SwitchSelect0);
    LastDacAppend(s4, PinWrite(SwitchNEnable, Low));
    LastDacAppend(s3, PinWrite(SwitchSelect2, SelectLevel(id, 2)));
    LastDacAppend(s2, PinWrite(SwitchSelect1, SelectLevel(id, 1)));
    LastDacAppend(s1, PinWrite(SwitchSelect0, SelectLevel(id, 0)));
    LastDacAppend(s0, DacWrite(DacValue(v)));
  }

  /** No glitch reaches an LED: the DAC write and every select write happen
      while the switch is disabled (nEnable last written high). */
  lemma UpdateSwitchesWhileDisabled(before: seq<Event>, id: nat, v: Uint32)
    ensures var u := UpdateEvents(id, v);
      forall k :: 1 <= k < |u| - 1 ==> LastLevel(before + u[..k], SwitchNEnable) == Some(High)
    ensures var u := UpdateEvents(id, v);
      forall k :: 0 <= k < |u| ==> (u[k].DacWrite? || (u[k].PinWrite? && u[k].pin != SwitchNEnable)) ==> 1 <= k < |u| - 1
  {
    var u := UpdateEvents(id, v);
    forall k | 1 <= k < |u| - 1
      ensures LastLevel(before + u[..k], SwitchNEnable) == Some(High)
    {
      assert before + u[..k] == (before + u[..1]) + u[1..k];
      LastLevelSkips(before + u[..1], u[1..k], SwitchNEnable);
    }
  }

  /** The channel pointer after `n` callbacks starting from `id`. */
  function ChannelAfter(id: nat, n: nat): nat
  {
    if n == 0 then id else (ChannelAfter(id, n - 1) + 1) % LED_COUNT
  }

  lemma {:induction false} ChannelAfterIsOffset(id: nat, n: nat)
    requires id < LED_COUNT
    ensures ChannelAfter(id, n) == (id + n) % LED_COUNT
  {
    if n > 0 {
      ChannelAfterIsOffset(id, n - 1);
      ModSucc(id + n - 1);
    }
  }

  lemma ModSucc(m: nat)
    ensures (m % LED_COUNT + 1) % LED_COUNT == (m + 1) % LED_COUNT
  {
    var q, r := m / LED_COUNT, m % LED_COUNT;
    assert m == LED_COUNT * q + r;
    if r < LED_COUNT - 1 {
      assert m + 1 == LED_COUNT * q + (r + 1);
    } else {
      assert m + 1 == LED_COUNT * (q + 1);
    }
  }

  /** Fewer than `LED_COUNT` steps apart, two offsets name different channels. */
  lemma OffsetsDistinct(id: nat, k1: nat, k2: nat)
    requires k1 < k2 < k1 + LED_COUNT
    ensures (id + k1) % LED_COUNT != (id + k2) % LED_COUNT
  {
    var a, b := id + k1, id + k2;
    var qa, ra, qb, rb := a / LED_COUNT, a % LED_COUNT, b / LED_COUNT, b % LED_COUNT;
    assert a == LED_COUNT * qa + ra;
    assert b == LED_COUNT * qb + rb;
    assert b - a == LED_COUNT * (qb - qa) + (rb - ra);
    if ra == rb {
      if qb - qa >= 1 {
        assert false;
      } else {
        assert false;
      }
    }
  }

  /** Any `LED_COUNT` consecutive callbacks refresh every channel exactly once. */
  lemma RoundRobinCoversAll(id: nat, c: nat)
    requires id < LED_COUNT && c < LED_COUNT
    ensures exists k :: 0 <= k < LED_COUNT && ChannelAfter(id, k) == c
    ensures forall k1, k2 :: 0 <= k1 < k2 < LED_COUNT ==> ChannelAfter(id, k1) != ChannelAfter(id, k2)
  {
    var k := if c >= id then c - id else c + LED_COUNT - id;
    ChannelAfterIsOffset(id, k);
    assert (id + k) % LED_COUNT == c;
    forall k1, k2 | 0 <= k1 < k2 < LED_COUNT
      ensures ChannelAfter(id, k1) != ChannelAfter(id, k2)
    {
      ChannelAfterIsOffset(id, k1);
      ChannelAfterIsOffset(id, k2);
      OffsetsDistinct(id, k1, k2);
    }
  }

  /** The driver's state: `s_led_brightness`, the static `led_id` of the
      periodic callback, and the board it writes to. */
  class LedDriver {
    const brightness: array<Uint32>
    var ledId: nat
    const board: Board

    ghost predicate Valid()
      reads this
    {
      brightness.Length == LED_COUNT && ledId < LED_COUNT
    }

    /** Static zero-initialisation. */
    constructor (board: Board)
      ensures Valid() && fresh(brightness)
      ensures this.board == board && ledId == 0
      ensures forall i :: 0 <= i < LED_COUNT ==> brightness[i] == 0
    {
      this.board := board;
      brightness := new Uint32[LED_COUNT](_ => 0);
      ledId := 0;
    }

    /** `led_init` without `dac_init`: clear the brightness array and register
        the refresh task with period 1. */
    method Init(sched: Scheduler.Scheduler<TaskId>)
      requires Valid() && sched.Valid()
      modifies brightness, sched.slots
      ensures Valid() && sched.Valid()
      ensures forall i :: 0 <= i < LED_COUNT ==> brightness[i] == 0
      ensures sched.slots[..] == Scheduler.Added(old(sched.slots[..]), LedPeriodicCallback, 1)
    {
      for i := 0 to brightness.Length
        invariant forall j :: 0 <= j < i ==> brightness[j] == 0
        invariant sched.slots[..] == old(sched.slots[..])
      {
        brightness[i] := 0;
      }
      sched.AddTask(LedPeriodicCallback, 1);
    }

    /** `led_set_brightness`: store iff the channel exists. */
    method SetBrightness(id: nat, v: Uint32)
      requires Valid()
      modifies brightness
      ensures Valid()
      ensures id < LED_COUNT ==> brightness[..] == old(brightness[..])[id := v]
      ensures id >= LED_COUNT ==> brightness[..] == old(brightness[..])
    {
      if id < LED_COUNT {
        brightness[id] := v;
      }
    }

    /** `dac_enable_output`: the switch's nEnable input is active low. */
    method DacEnableOutput(enable: bool)
      modifies board
      ensures board.events == old(board.events) + [PinWrite(SwitchNEnable, if enable then Low else High)]
    {
      board.Write(SwitchNEnable, if enable then Low else High);
    }

    /** `dac_set_output`: the masked value goes to the data register. */
    method DacSetOutput(v: Uint32)
      modifies board
      ensures board.events == old(board.events) + [DacWrite(DacValue(v))]
    {
      board.WriteDac(DacValue(v));
    }

    /** `dac_set_led`: drive each select line with its bit of the channel. */
    method DacSetLed(id: nat)
      modifies board
      ensures board.events == old(board.events) + SelectEvents(id)
    {
      ghost var e0 := board.events;
      for i := 0 to 3
        invariant board.events == e0 + SelectEvents(id)[..i]
      {
        var state := if (id / Pow2(i)) % 2 == 1 then High else Low;
        board.Write(SELECT_PINS[i], state);
        assert SelectEvents(id)[..i + 1] == SelectEvents(id)[..i] + [PinWrite(SELECT_PINS[i], state)];
      }
      assert SelectEvents(id)[..3] == SelectEvents(id);
    }

    /** `led_update_brightness`: the four steps in their order. */
    method UpdateBrightness(id: nat, v: Uint32)
      modifies board
      ensures board.events == old(board.events) + UpdateEvents(id, v)
    {
      DacEnableOutput(false);
      DacSetOutput(v);
      DacSetLed(id);
      DacEnableOutput(true);
    }

    /** `led_periodic_callback`: refresh the current channel, then advance
        the pointer modulo `LED_COUNT`. */
    method PeriodicCallback()
      requires Valid()
      modifies this, board
      ensures Valid()
      ensures ledId == ChannelAfter(old(ledId), 1)
      ensures board.events == old(board.events) + UpdateEvents(old(ledId), brightness[old(ledId)])
    {
      UpdateBrightness(ledId, brightness[ledId]);
      ledId := (ledId + 1) % LED_COUNT;
    }
  }
}
