/**
 * The injected `TimeProvider`, as the manual clock the cache is driven by:
 * the current UTC time in milliseconds, which only `SetUtcNow` changes.
 */
module Clock {

  class ManualClock {
    var now: int

    constructor(start: int)
      ensures now == start
    {
      now := start;
    }

    /** `GetUtcNow()`. */
    function GetUtcNow(): int
      reads this
    {
      now
    }

    /** `SetUtcNow(t)`: moves the clock to `t`, forwards or back. */
    method SetUtcNow(t: int)
      modifies this
      ensures now == t
    {
      now := t;
    }
  }
}
