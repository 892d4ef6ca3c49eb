/**
 * The stand-alone valve card: a start/stop pair over a countdown. Starting
 * in momentary mode with a positive duration loads the countdown; a
 * one-second interval then decrements it while the valve runs.
 */
module Valve {
  import opened Decimal

  datatype Mode = Latching | Momentary

  /** The interval's update: `prev > 0 ? prev - 1 : 0`. */
  function Decrement(prev: int): (next: int)
    ensures next >= 0
    ensures prev > 0 ==> next == prev - 1
    ensures prev <= 0 ==> next == 0
  {
    if prev > 0 then prev - 1 else 0
  }

  /** The countdown after `k` decrements. */
  function Ticks(t: int, k: nat): int
    decreases k
  {
    if k == 0 then t else Ticks(Decrement(t), k - 1)
  }

  /** From a non-negative start, `k` decrements take `k` off, down to zero and no further. */
  lemma {:induction false} TicksValue(t: int, k: nat)
    requires t >= 0
    ensures Ticks(t, k) == if t > k then t - k else 0
    decreases k
  {
    if k > 0 {
      TicksValue(Decrement(t), k - 1);
    }
  }

  /** The countdown never increases and never goes negative. */
  lemma {:induction false} TicksBounded(t: int, k: nat)
    requires t >= 0
    ensures 0 <= Ticks(t, k) <= t
  {
    TicksValue(t, k);
  }

  class Valve {
    const index: int
    var name: string
    var mode: Mode
    var duration: int
    var timeRemaining: int
    var isRunning: bool

    /** The countdown is within the loaded duration. */
    ghost predicate Valid()
      reads this
    {
      0 <= timeRemaining <= duration
    }

    constructor(index: int)
      ensures this.index == index && name == "Valve " + IntToString(index + 1)
      ensures mode == Latching && duration == 0 && timeRemaining == 0 && !isRunning
      ensures Valid()
    {
      this.index := index;
      name := "Valve " + IntToString(index + 1);
      mode := Latching;
      duration := 0;
      timeRemaining := 0;
      isRunning := false;
    }

    /** Loads the countdown only in momentary mode with a positive duration; reports `index` to `onStart` either way. */
    method HandleStart() returns (started: int)
      modifies this`timeRemaining, this`isRunning
      ensures started == index
      ensures old(mode) == Momentary && old(duration) > 0 ==> timeRemaining == duration && isRunning
      ensures !(old(mode) == Momentary && old(duration) > 0) ==>
        timeRemaining == old(timeRemaining) && isRunning == old(isRunning)
      ensures old(Valid()) ==> Valid()
    {
      if mode == Momentary && duration > 0 {
        timeRemaining := duration;
        isRunning := true;
      }
      started := index;
    }

    /** Stops and clears the countdown; reports `index` to `onStop`. */
    method HandleStop() returns (stopped: int)
      modifies this`timeRemaining, this`isRunning
      ensures stopped == index && !isRunning && timeRemaining == 0
      ensures old(Valid()) ==> Valid()
    {
      isRunning := false;
      timeRemaining := 0;
      stopped := index;
    }

    /**
     * One interval callback. An interval exists only while the valve runs
     * with time left; reaching zero leaves `isRunning` set, since the branch
     * that would clear it tests an interval variable that is always null there.
     */
    method Tick()
      modifies this`timeRemaining
      ensures isRunning && old(timeRemaining) > 0 ==> timeRemaining == Decrement(old(timeRemaining))
      ensures !(isRunning && old(timeRemaining) > 0) ==> timeRemaining == old(timeRemaining)
      ensures old(Valid()) ==> Valid()
    {
      if isRunning && timeRemaining > 0 {
        timeRemaining := Decrement(timeRemaining);
      }
    }
  }

  /**
   * Nothing in the card sets the mode or the duration, so a start on a
   * freshly mounted card loads no countdown; it only reports the index.
   */
  method StartAfterMount(index: int) returns (isRunning: bool, timeRemaining: int, started: int)
    ensures !isRunning && timeRemaining == 0 && started == index
  {
    var v := new Valve(index);
    started := v.HandleStart();
    isRunning, timeRemaining := v.isRunning, v.timeRemaining;
  }

  /**
   * A countdown loaded with `d` and ticked `k` times holds `Ticks(d, k)`,
   * and stays running when it reaches zero.
   */
  method RunFor(v: Valve, k: nat)
    requires v.mode == Momentary && v.duration > 0
    modifies v
    ensures v.timeRemaining == Ticks(v.duration, k) && v.isRunning
    ensures v.Valid()
  {
    var _ := v.HandleStart();
    var i := 0;
    while i < k
      invariant 0 <= i <= k
      invariant v.timeRemaining == Ticks(v.duration, i) && v.isRunning
      invariant v.mode == old(v.mode) && v.duration == old(v.duration)
      invariant v.Valid()
    {
      TickStep(v.duration, i);
      v.Tick();
      i := i + 1;
    }
  }

  /** One more decrement extends the count by one. */
  lemma {:induction false} TickStep(t: int, k: nat)
    ensures Ticks(t, k + 1) == Decrement(Ticks(t, k))
    decreases k
  {
    if k > 0 {
      TickStep(Decrement(t), k - 1);
    }
  }
}
