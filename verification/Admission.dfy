/** The counters that bound admission, and the four blocks that change them under one lock. */
module Admission {

  datatype Limits = Limits(runConcurrency: nat, maxQueued: nat) {
    /** What the service demands of its configuration before it starts. */
    predicate Valid() { runConcurrency > 0 }
    function Capacity(): nat { runConcurrency + maxQueued }
  }

  datatype Counters = Counters(active: int, queued: int)

  function Max0(x: int): int { if x < 0 then 0 else x }

  predicate HasRoom(l: Limits, c: Counters) { c.active + c.queued < l.Capacity() }

  function Reserved(c: Counters): Counters { c.(queued := c.queued + 1) }

  function Cancelled(c: Counters): Counters { c.(queued := Max0(c.queued - 1)) }

  function Begun(c: Counters): Counters { Counters(c.active + 1, Max0(c.queued - 1)) }

  function Finished(c: Counters): Counters { c.(active := Max0(c.active - 1)) }

  class JobCounters {
    const limits: Limits
    var active: int
    var queued: int

    function Value(): Counters reads this { Counters(active, queued) }

    constructor (limits: Limits)
      ensures this.limits == limits && Value() == Counters(0, 0)
    {
      this.limits := limits;
      active, queued := 0, 0;
    }

    method ReserveJob() returns (admitted: bool)
      modifies this
      ensures admitted == HasRoom(limits, old(Value()))
      ensures Value() == if admitted then Reserved(old(Value())) else old(Value())
      ensures admitted <==> old(active) + old(queued) < limits.runConcurrency + limits.maxQueued
      ensures active == old(active) && queued == old(queued) + (if admitted then 1 else 0)
    {
      if active + queued >= limits.runConcurrency + limits.maxQueued {
        return false;
      }
      queued := queued + 1;
      return true;
    }

    method CancelReservedJob()
      modifies this
      ensures Value() == Cancelled(old(Value()))
      ensures active == old(active) && queued == if old(queued) < 1 then 0 else old(queued) - 1
    {
      queued := Max0(queued - 1);
    }

    method BeginReservedJob()
      modifies this
      ensures Value() == Begun(old(Value()))
      ensures active == old(active) + 1 && queued == if old(queued) < 1 then 0 else old(queued) - 1
    {
      queued := Max0(queued - 1);
      active := active + 1;
    }

    method FinishJob()
      modifies this
      ensures Value() == Finished(old(Value()))
      ensures queued == old(queued) && active == if old(active) < 1 then 0 else old(active) - 1
    {
      active := Max0(active - 1);
    }
  }
}
