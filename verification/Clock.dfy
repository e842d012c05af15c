/** Time as the server sees it. */
module Clock {

  /** A clock that never runs backwards.  `step` says how much time has gone by before each
      reading or sleep; it is arbitrary, so a run on every `step` is a run at any speed. */
  class Clock {
    const step: nat -> nat
    var now: int
    var calls: nat

    constructor (step: nat -> nat, now: int)
      ensures this.now == now
    {
      this.step, this.now, this.calls := step, now, 0;
    }

    /** high_resolution_clock::now and system_clock::now. */
    method Now() returns (t: int)
      modifies this
      ensures t == now >= old(now)
    {
      now := now + step(calls);
      calls := calls + 1;
      t := now;
    }

    /** this_thread::sleep_for: at least as long as asked, and not at all for a negative time. */
    method SleepFor(d: int)
      modifies this
      ensures now >= old(now) && now >= old(now) + d
    {
      now := now + step(calls) + if d > 0 then d else 0;
      calls := calls + 1;
    }
  }
}
