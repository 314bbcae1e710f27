/** The hardware the core writes to, observed as an ordered trace of
    output events: GPIO level writes (`gpio_output_set`) and writes of the
    DAC's 12-bit data register. */
module Board {

  import opened Wrappers

  datatype Level = Low | High

  /** The output pins the core drives: the three select inputs and the
      active-low enable input of the analog switch (PA9..PA12), and the
      hold-power pin (PA1). */
  datatype Pin = SwitchSelect0 | SwitchSelect1 | SwitchSelect2 | SwitchNEnable | HoldPower

  datatype Event = PinWrite(pin: Pin, level: Level) | DacWrite(value: nat)

  /** The level last written to `pin` in `events`, if any. */
  function LastLevel(events: seq<Event>, pin: Pin): (r: Option<Level>)
    ensures r == None <==> forall k :: 0 <= k < |events| ==> !(events[k].PinWrite? && events[k].pin == pin)
    ensures r.Some? ==> PinWrite(pin, r.value) in events
  {
    if events == [] then None
    else if events[|events| - 1].PinWrite? && events[|events| - 1].pin == pin then Some(events[|events| - 1].level)
    else LastLevel(events[..|events| - 1], pin)
  }

  /** The value last written to the DAC in `events`, if any. */
  function LastDac(events: seq<Event>): (r: Option<nat>)
    ensures r == None <==> forall k :: 0 <= k < |events| ==> !events[k].DacWrite?
    ensures r.Some? ==> DacWrite(r.value) in events
  {
    if events == [] then None
    else if events[|events| - 1].DacWrite? then Some(events[|events| - 1].value)
    else LastDac(events[..|events| - 1])
  }

  /** One more event: a write to `pin` sets its level, any other event
      leaves it. */
  lemma LastLevelAppend(events: seq<Event>, e: Event, pin: Pin)
    ensures LastLevel(events + [e], pin) == if e.PinWrite? && e.pin == pin then Some(e.level) else LastLevel(events, pin)
  {
    assert (events + [e])[..|events|] == events;
  }

  lemma LastDacAppend(events: seq<Event>, e: Event)
    ensures LastDac(events + [e]) == if e.DacWrite? then Some(e.value) else LastDac(events)
  {
    assert (events + [e])[..|events|] == events;
  }

  /** Appending events that never touch `pin` leaves its level alone. */
  lemma {:induction false} LastLevelSkips(events: seq<Event>, more: seq<Event>, pin: Pin)
    requires forall k :: 0 <= k < |more| ==> !(more[k].PinWrite? && more[k].pin == pin)
    ensures LastLevel(events + more, pin) == LastLevel(events, pin)
  {
    if more != [] {
      var front := more[..|more| - 1];
      assert (events + more)[..|events + more| - 1] == events + front;
      LastLevelSkips(events, front, pin);
    } else {
      assert events + more == events;
    }
  }

  /** Likewise for the DAC. */
  lemma {:induction false} LastDacSkips(events: seq<Event>, more: seq<Event>)
    requires forall k :: 0 <= k < |more| ==> !more[k].DacWrite?
    ensures LastDac(events + more) == LastDac(events)
  {
    if more != [] {
      var front := more[..|more| - 1];
      assert (events + more)[..|events + more| - 1] == events + front;
      LastDacSkips(events, front);
    } else {
      assert events + more == events;
    }
  }

  /** The output side of the board: everything the core writes, in order. */
  class Board {
    var events: seq<Event>

    constructor ()
      ensures events == []
    {
      events := [];
    }

    /** `gpio_output_set(pin, level)`. */
    method Write(pin: Pin, level: Level)
      modifies this
      ensures events == old(events) + [PinWrite(pin, level)]
    {
      events := events + [PinWrite(pin, level)];
    }

    /** `DAC->DHR12R1 = value`. */
    method WriteDac(value: nat)
      modifies this
      ensures events == old(events) + [DacWrite(value)]
    {
      events := events + [DacWrite(value)];
    }
  }
}
