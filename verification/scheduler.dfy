/** The tick-driven cooperative scheduler (src/system.c): a fixed table of
    `SYSTEM_TASKS_MAX` slots, each holding a task (or NULL) and a period,
    and a persistent 32-bit tick counter. */
module Scheduler {

  import opened CArith
  import opened SystemDefs
  import opened Wrappers

  /** One slot of `s_task_list`: the task pointer (None for NULL) and its period. */
  datatype Entry<T> = Entry(task: Option<T>, period: Uint32)

  /** A zero-initialised or cleared slot. */
  function EmptyEntry<T>(): Entry<T> { Entry(None, 0) }

  /** What every table the scheduler produces satisfies: an empty slot has
      period 0 and an occupied slot a period of at least 1. */
  predicate TableOk<T>(t: seq<Entry<T>>)
  {
    |t| == SYSTEM_TASKS_MAX &&
    forall i :: 0 <= i < |t| ==> (t[i].task.None? <==> t[i].period == 0)
  }

  // ---------------------------------------------------------------- add

  /** The slot at which the scan of `system_add_task` stops: the first slot
      from `from` on that is empty or already holds `tsk`, or `|t|` when the
      scan runs off the end. */
  function FirstStop<T(==)>(t: seq<Entry<T>>, tsk: T, from: nat): (k: nat)
    requires from <= |t|
    ensures from <= k <= |t|
    ensures forall j :: from <= j < k ==> t[j].task.Some? && t[j].task != Some(tsk)
    ensures k < |t| ==> t[k].task.None? || t[k].task == Some(tsk)
    decreases |t| - from
  {
    if from == |t| then from
    else if t[from].task.None? || t[from].task == Some(tsk) then from
    else FirstStop(t, tsk, from + 1)
  }

  /** The table after `system_add_task(tsk, prd)`. */
  function Added<T(==)>(t: seq<Entry<T>>, tsk: T, prd: Uint32): (r: seq<Entry<T>>)
    ensures |r| == |t|
  {
    var k := FirstStop(t, tsk, 0);
    if k < |t| && t[k].task.None? then t[k := Entry(Some(tsk), MaxVal(prd, 1))] else t
  }

  /** A new task goes to the lowest empty slot, with period `max_val(prd, 1)`;
      every other slot is unchanged. */
  lemma AddUsesLowestEmptySlot<T>(t: seq<Entry<T>>, tsk: T, prd: Uint32, e: nat)
    requires e < |t| && t[e].task.None?
    requires forall j :: 0 <= j < e ==> t[j].task.Some? && t[j].task != Some(tsk)
    ensures Added(t, tsk, prd)[e] == Entry(Some(tsk), MaxVal(prd, 1))
    ensures Added(t, tsk, prd)[e].period >= 1
    ensures forall j :: 0 <= j < |t| && j != e ==> Added(t, tsk, prd)[j] == t[j]
  {
    assert FirstStop(t, tsk, 0) == e;
  }

  /** Re-adding a task that sits in slot `k` with every slot below it occupied
      changes nothing. */
  lemma AddRegisteredIsNoOp<T>(t: seq<Entry<T>>, tsk: T, prd: Uint32, k: nat)
    requires k < |t| && t[k].task == Some(tsk)
    requires forall j :: 0 <= j < k ==> t[j].task.Some?
    ensures Added(t, tsk, prd) == t
  {
    var s := FirstStop(t, tsk, 0);
    assert s <= k;
  }

  /** The empty-slot test comes before the duplicate test, so a hole below
      the existing registration at `k` receives a second registration. */
  lemma AddBelowHoleDuplicates<T>(t: seq<Entry<T>>, tsk: T, prd: Uint32, e: nat, k: nat)
    requires e < k < |t| && t[e].task.None? && t[k].task == Some(tsk)
    requires forall j :: 0 <= j < e ==> t[j].task.Some? && t[j].task != Some(tsk)
    ensures Added(t, tsk, prd)[e].task == Some(tsk) && Added(t, tsk, prd)[k].task == Some(tsk)
  {
    assert FirstStop(t, tsk, 0) == e;
  }

  /** With every slot held by some other task, the call changes nothing (and
      reports nothing: the function returns void). */
  lemma AddToFullTableIsNoOp<T>(t: seq<Entry<T>>, tsk: T, prd: Uint32)
    requires forall j :: 0 <= j < |t| ==> t[j].task.Some? && t[j].task != Some(tsk)
    ensures Added(t, tsk, prd) == t
  {
    assert FirstStop(t, tsk, 0) == |t|;
  }

  /** Adding keeps the table well formed. */
  lemma AddKeepsTableOk<T>(t: seq<Entry<T>>, tsk: T, prd: Uint32)
    requires TableOk(t)
    ensures TableOk(Added(t, tsk, prd))
  {
  }

  // ---------------------------------------------------------------- remove

  /** The table after `system_remove_task(tsk)`: every slot holding `tsk`
      is cleared to NULL with period 0. */
  function Removed<T(==)>(t: seq<Entry<T>>, tsk: T): (r: seq<Entry<T>>)
    ensures |r| == |t|
  {
    seq(|t|, i requires 0 <= i < |t| => if t[i].task == Some(tsk) then EmptyEntry() else t[i])
  }

  /** After removal no slot holds the task, the other slots are untouched and
      the table stays well formed. */
  lemma RemoveClearsEverySlot<T>(t: seq<Entry<T>>, tsk: T)
    requires TableOk(t)
    ensures TableOk(Removed(t, tsk))
    ensures forall i :: 0 <= i < |t| ==> Removed(t, tsk)[i].task != Some(tsk)
    ensures forall i :: 0 <= i < |t| && t[i].task != Some(tsk) ==> Removed(t, tsk)[i] == t[i]
  {
  }

  // ---------------------------------------------------------------- tick

  /** Slot `i` holding `e` runs on the tick whose post-increment counter is
      `counter`: the task is non-NULL and `(counter + i) % period == 0`, the
      sum wrapping at 32 bits. The task is tested first, so the modulo is
      only taken for an occupied slot, whose period is at least 1. */
  predicate Fires<T>(e: Entry<T>, counter: Uint32, i: Uint32)
    requires e.task.Some? ==> e.period >= 1
  {
    e.task.Some? && AddU32(counter, i) % e.period == 0
  }

  /** The tasks run by one call of `execute_tasks` over slots `0 .. n-1`, in
      slot order. */
  function FiredUpTo<T>(t: seq<Entry<T>>, counter: Uint32, n: nat): seq<T>
    requires TableOk(t) && n <= |t|
  {
    if n == 0 then []
    else FiredUpTo(t, counter, n - 1) + (if Fires(t[n - 1], counter, n - 1) then [t[n - 1].task.value] else [])
  }

  /** The indices of the slots that run, in the same order. */
  function FiredSlots<T>(t: seq<Entry<T>>, counter: Uint32, n: nat): seq<nat>
    requires TableOk(t) && n <= |t|
  {
    if n == 0 then []
    else FiredSlots(t, counter, n - 1) + (if Fires(t[n - 1], counter, n - 1) then [n - 1] else [])
  }

  /** The run list is exactly the tasks of the slots that fire, each once,
      visited in increasing slot order. */
  lemma {:induction false} FiredInSlotOrder<T>(t: seq<Entry<T>>, counter: Uint32, n: nat)
    requires TableOk(t) && n <= |t|
    ensures |FiredUpTo(t, counter, n)| == |FiredSlots(t, counter, n)|
    ensures forall k :: 0 <= k < |FiredSlots(t, counter, n)| ==>
      FiredSlots(t, counter, n)[k] < n && t[FiredSlots(t, counter, n)[k]].task == Some(FiredUpTo(t, counter, n)[k])
    ensures forall k1, k2 :: 0 <= k1 < k2 < |FiredSlots(t, counter, n)| ==>
      FiredSlots(t, counter, n)[k1] < FiredSlots(t, counter, n)[k2]
    ensures forall i :: 0 <= i < n ==> (i in FiredSlots(t, counter, n) <==> Fires(t[i], counter, i))
  {
    if n > 0 {
      FiredInSlotOrder(t, counter, n - 1);
    }
  }

  /** An empty slot never runs, whatever the counter. */
  lemma EmptySlotNeverRuns<T>(t: seq<Entry<T>>, counter: Uint32, i: nat)
    requires TableOk(t) && i < |t| && t[i].task.None?
    ensures i !in FiredSlots(t, counter, |t|)
  {
    FiredInSlotOrder(t, counter, |t|);
  }

  /** The phase offset: two period-5 tasks in slots 0 and 1 run at
      post-increment counters 5 and 10, and 4 and 9, of the first ten ticks. */
  lemma PhaseOffsetExample<T>(a: T, b: T)
    ensures forall c :: 1 <= c <= 10 ==> (Fires(Entry(Some(a), 5), c, 0) <==> c == 5 || c == 10)
    ensures forall c :: 1 <= c <= 10 ==> (Fires(Entry(Some(b), 5), c, 1) <==> c == 4 || c == 9)
  {
  }

  /** Away from the 32-bit wrap, an occupied slot with period `P` runs on
      exactly one of any `P` consecutive ticks. */
  lemma FiresOncePerPeriod<T>(e: Entry<T>, i: Uint32, c: nat)
    requires e.task.Some? && e.period >= 1
    requires c + e.period + i < U32
    ensures exists k: Uint32 :: c < k <= c + e.period && Fires(e, k, i)
    ensures forall k1: Uint32, k2: Uint32 ::
      c < k1 <= c + e.period && c < k2 <= c + e.period && Fires(e, k1, i) && Fires(e, k2, i) ==> k1 == k2
  {
    var p := e.period;
    var r := (c + i) % p;
    var k: Uint32 := c + p - r;
    assert (c + i) == p * ((c + i) / p) + r;
    assert k + i == p * ((c + i) / p + 1);
    ModOfMultiple(p, (c + i) / p + 1);
    assert Fires(e, k, i);
    forall k1: Uint32, k2: Uint32 |
      c < k1 <= c + p && c < k2 <= c + p && Fires(e, k1, i) && Fires(e, k2, i)
      ensures k1 == k2
    {
      SameResidueClose(k1 + i, k2 + i, p);
    }
  }

  lemma ModOfMultiple(p: nat, q: nat)
    requires p >= 1
    ensures (p * q) % p == 0
  {
    var d, m := (p * q) / p, (p * q) % p;
    assert p * q == p * d + m;
    assert p * (q - d) == m;
    if q - d >= 1 { assert false; }
    else if q - d <= -1 { assert false; }
  }

  /** Two multiples of `p` less than `p` apart are equal. */
  lemma SameResidueClose(x: nat, y: nat, p: nat)
    requires p >= 1 && x % p == 0 && y % p == 0
    requires x < y + p && y < x + p
    ensures x == y
  {
    var qx, qy := x / p, y / p;
    assert x == p * qx;
    assert y == p * qy;
    assert x - y == p * (qx - qy);
    if qx - qy >= 1 { assert false; }
    else if qx - qy <= -1 { assert false; }
  }

  // ---------------------------------------------------------------- the table

  class Scheduler<T(==)> {
    /** `s_task_list`. */
    const slots: array<Entry<T>>
    /** The static `counter` of `execute_tasks`. */
    var counter: Uint32

    ghost predicate Valid()
      reads this, slots
    {
      TableOk(slots[..])
    }

    /** Static zero-initialisation: every slot NULL with period 0. */
    constructor ()
      ensures Valid() && fresh(slots)
      ensures counter == 0
      ensures forall i :: 0 <= i < slots.Length ==> slots[i] == EmptyEntry()
    {
      slots := new Entry<T>[SYSTEM_TASKS_MAX](_ => EmptyEntry());
      counter := 0;
    }

    /** `system_add_task`. */
    method AddTask(tsk: T, prd: Uint32)
      requires Valid()
      modifies slots
      ensures Valid()
      ensures slots[..] == Added(old(slots[..]), tsk, prd)
    {
      ghost var t := slots[..];
      var i := 0;
      while i < slots.Length
        invariant 0 <= i <= FirstStop(t, tsk, 0)
        invariant slots[..] == t
      {
        if slots[i].task.None? {
          slots[i] := Entry(Some(tsk), MaxVal(prd, 1));
          break;
        }
        if slots[i].task == Some(tsk) {
          break;
        }
        i := i + 1;
      }
      AddKeepsTableOk(t, tsk, prd);
    }

    /** `system_remove_task`. */
    method RemoveTask(tsk: T)
      requires Valid()
      modifies slots
      ensures Valid()
      ensures slots[..] == Removed(old(slots[..]), tsk)
    {
      ghost var t := slots[..];
      for i := 0 to slots.Length
        invariant forall j :: 0 <= j < i ==> slots[j] == Removed(t, tsk)[j]
        invariant forall j :: i <= j < slots.Length ==> slots[j] == t[j]
      {
        if slots[i].task == Some(tsk) {
          slots[i] := EmptyEntry();
        }
      }
      assert slots[..] == Removed(t, tsk);
      RemoveClearsEverySlot(t, tsk);
    }

    /** `execute_tasks`: increment the counter once, then visit the slots in
        increasing order. The callbacks are returned, in the order they are
        invoked, for the caller to run. */
    method ExecuteTasks() returns (fired: seq<T>)
      requires Valid()
      modifies this
      ensures Valid()
      ensures counter == AddU32(old(counter), 1)
      ensures fired == FiredUpTo(slots[..], counter, SYSTEM_TASKS_MAX)
    {
      counter := AddU32(counter, 1);
      fired := [];
      for i := 0 to slots.Length
        invariant fired == FiredUpTo(slots[..], counter, i)
      {
        var cur := slots[i];
        if cur.task.Some? && AddU32(counter, i) % cur.period == 0 {
          fired := fired + [cur.task.value];
        }
      }
    }
  }

  // ---------------------------------------------------------------- as written

  /** C's `a % b` on unsigned values, None where C leaves it undefined (b == 0). */
  function CMod(a: nat, b: nat): (r: Option<nat>)
    ensures r.None? <==> b == 0
    ensures r.Some? ==> r.value < b
  {
    if b == 0 then None else Some(a % b)
  }

  /** The firing test in the order the source writes it: the modulo is
      evaluated before the NULL test. None means undefined behaviour. */
  function AsWrittenFires<T>(e: Entry<T>, counter: Uint32, i: Uint32): Option<bool>
  {
    match CMod(AddU32(counter, i), e.period)
    case None => None
    case Some(m) => Some(m == 0 && e.task.Some?)
  }

  /** Every empty slot has period 0, so the test as written divides by zero
      on every tick for every empty slot. */
  lemma AsWrittenDividesByZero<T>(t: seq<Entry<T>>, counter: Uint32, i: nat)
    requires TableOk(t) && i < |t| && t[i].task.None?
    ensures AsWrittenFires(t[i], counter, i) == None
  {
  }

  /** Testing the task first gives the same answer wherever the written
      order is defined, and an answer everywhere. */
  lemma FiresAgreesWhereDefined<T>(t: seq<Entry<T>>, counter: Uint32, i: nat)
    requires TableOk(t) && i < |t|
    ensures AsWrittenFires(t[i], counter, i).Some? ==> AsWrittenFires(t[i], counter, i) == Some(Fires(t[i], counter, i))
    ensures t[i].task.Some? ==> AsWrittenFires(t[i], counter, i) == Some(Fires(t[i], counter, i))
  {
  }
}
