/**
  The host's interval timers as the plugin sees them through
  `window.setInterval` and `clearInterval`: every new timer gets an id never
  handed out before, and clearing an id stops that timer (clearing an id that
  is not live does nothing). Firing is not modelled; each live timer is kept
  with the period it was started with, in milliseconds.
*/
module Timers {

  type TimerId = nat

  /** The period, in milliseconds, requested for a schedule of `minutes`
      minutes (`minutes * 60 * 1000`). */
  function PeriodMs(minutes: int): int {
    minutes * 60 * 1000
  }

  class TimerHost {
    var nextId: TimerId
    ghost var live: map<TimerId, int>

    ghost predicate Valid()
      reads this
    {
      forall t :: t in live ==> t < nextId
    }

    constructor ()
      ensures Valid() && live == map[]
    {
      nextId := 0;
      live := map[];
    }

    /** `setInterval(callback, periodMs)`: a fresh live timer. */
    method SetInterval(periodMs: int) returns (id: TimerId)
      requires Valid()
      modifies this
      ensures Valid()
      ensures id !in old(live) && id == old(nextId) && nextId == id + 1
      ensures live == old(live)[id := periodMs]
    {
      id := nextId;
      live := live[id := periodMs];
      nextId := nextId + 1;
    }

    /** `clearInterval(id)`: that timer, if live, is stopped. */
    method ClearInterval(id: TimerId)
      requires Valid()
      modifies this
      ensures Valid()
      ensures live == old(live) - {id}
      ensures nextId == old(nextId)
    {
      live := live - {id};
    }
  }
}
