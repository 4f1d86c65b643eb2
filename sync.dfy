/**
 * The base time of an event, fixed when the sync button is pressed. The
 * current time is cut down to whole minutes (automatic sync) or whole seconds
 * (manual sync), the configured delay is added in that unit, and the sum is
 * turned back into milliseconds. The finishing task is scheduled after the
 * time left until the base time, or at once when that time has passed.
 *
 * The two clock readings are parameters. All values are Java `long`s, with
 * truncating division, the saturation of `TimeUnit` conversions and the
 * wrap-around of `long` subtraction written out.
 */
module Sync {
  import opened Strings
  import opened EventConfigurations

  const MILLIS_PER_SECOND: int := 1000
  const MILLIS_PER_MINUTE: int := 60000

  /** Java's `/` on `long`: the quotient truncated toward zero. */
  function TruncDiv(a: int, m: int): (q: int)
    requires m > 0
    ensures a >= 0 ==> q * m <= a < q * m + m
    ensures a < 0 ==> q * m - m < a <= q * m
  {
    if a >= 0 then a / m else -((-a) / m)
  }

  /**
   * `TimeUnit.X.toMillis(d)` for a unit of `m` milliseconds: the product,
   * saturated at the bounds of `long`.
   */
  function ToMillis(d: int, m: int): (r: Long)
    requires m > 0
    ensures -(LONG_MAX / m) <= d <= LONG_MAX / m ==> r == d * m
    ensures d > LONG_MAX / m ==> r == LONG_MAX
    ensures d < -(LONG_MAX / m) ==> r == LONG_MIN
  {
    if d > LONG_MAX / m then LONG_MAX
    else if d < -(LONG_MAX / m) then LONG_MIN
    else
      assert -LONG_MAX <= d * m <= LONG_MAX by { BoundedProduct(d, m); }
      d * m
  }

  lemma BoundedProduct(d: int, m: int)
    requires m > 0 && -(LONG_MAX / m) <= d <= LONG_MAX / m
    ensures -LONG_MAX <= d * m <= LONG_MAX
  {
    if d >= 0 {
      assert d * m <= (LONG_MAX / m) * m;
    } else {
      assert (-d) * m <= (LONG_MAX / m) * m;
    }
  }

  /** The two units a sync rounds to. */
  predicate IsUnit(m: int)
  {
    m == MILLIS_PER_SECOND || m == MILLIS_PER_MINUTE
  }

  /** The sync unit: a minute for automatic sync, a second for manual sync. */
  function Unit(autoSync: bool): (m: int)
    ensures IsUnit(m)
  {
    if autoSync then MILLIS_PER_MINUTE else MILLIS_PER_SECOND
  }

  /** The whole units in `now`, plus the delay, in that unit; fits a `long`. */
  function UnitsAt(now: Long, m: int, delay: Int32): (u: Long)
    requires IsUnit(m)
  {
    assert LONG_MIN <= TruncDiv(now, m) + delay <= LONG_MAX by { TruncDivBounds(now, m); }
    TruncDiv(now, m) + delay
  }

  lemma TruncDivBounds(now: Long, m: int)
    requires IsUnit(m)
    ensures -(LONG_MAX / MILLIS_PER_SECOND) - 1 <= TruncDiv(now, m) <= LONG_MAX / MILLIS_PER_SECOND
  {
  }

  /** The base time of the event for a sync at `now` with the given unit and delay. */
  function BaseTime(now: Long, m: int, delay: Int32): Long
    requires IsUnit(m)
  {
    ToMillis(UnitsAt(now, m, delay), m)
  }

  /** `long` arithmetic: an integer brought into range by wrapping modulo 2^64. */
  function WrapLong(x: int): (r: Long)
    ensures LONG_MIN <= x <= LONG_MAX ==> r == x
    ensures (r - x) % 0x1_0000_0000_0000_0000 == 0
  {
    (x - LONG_MIN) % 0x1_0000_0000_0000_0000 + LONG_MIN
  }

  /** The time left until `base` at `later`, never negative. */
  function ScheduleDelay(base: Long, later: Long): (r: Long)
    ensures r >= 0
    ensures LONG_MIN <= base - later <= LONG_MAX ==> r == if base >= later then base - later else 0
  {
    var delay := WrapLong(base - later);
    if delay < 0 then 0 else delay
  }

  /** The base time is a whole number of units, unless it saturated. */
  lemma BaseWholeUnits(now: Long, m: int, delay: Int32)
    requires IsUnit(m)
    ensures var b := BaseTime(now, m, delay);
      b == LONG_MAX || b == LONG_MIN || b % m == 0
  {
    var u := UnitsAt(now, m, delay);
    if -(LONG_MAX / m) <= u <= LONG_MAX / m {
      assert BaseTime(now, m, delay) == u * m;
    }
  }

  /** Without saturation the base time is the current time rounded down to the unit and moved by `delay` units. */
  lemma BaseWindow(now: Long, m: int, delay: Int32)
    requires IsUnit(m) && now >= 0
    requires UnitsAt(now, m, delay) <= LONG_MAX / m
    ensures (delay - 1) * m < BaseTime(now, m, delay) - now <= delay * m
  {
    var q := TruncDiv(now, m);
    assert BaseTime(now, m, delay) == (q + delay) * m;
    assert (q + delay) * m == q * m + delay * m;
  }

  /**
   * Before 1970 (`now` negative) the division truncates toward zero, so the
   * current time is rounded up, not down: the base time lies in the next unit.
   */
  lemma BaseWindowNegative(now: Long, m: int, delay: Int32)
    requires IsUnit(m) && now < 0
    requires -(LONG_MAX / m) <= UnitsAt(now, m, delay) <= LONG_MAX / m
    ensures delay * m <= BaseTime(now, m, delay) - now < (delay + 1) * m
  {
    var q := TruncDiv(now, m);
    assert BaseTime(now, m, delay) == (q + delay) * m;
    assert (q + delay) * m == q * m + delay * m;
  }

  /** Automatic sync at 12:34:56.789 with one minute of delay starts the event at 12:35:00.000 on day one. */
  lemma AutoSyncExample()
    ensures BaseTime(45296789, Unit(true), 1) == 45300000
  {
  }

  /** Manual sync at 12:34:56.789 with ten seconds of delay starts the event at 12:35:06.000 on day one. */
  lemma ManualSyncExample()
    ensures BaseTime(45296789, Unit(false), 10) == 45306000
  {
  }

  /** The sync screen: the base time it keeps for the event screen. */
  class SyncScreen {
    var eventBaseTime: Long

    constructor ()
      ensures eventBaseTime == 0
    {
      eventBaseTime := 0;
    }

    /**
     * The sync button: the base time from the clock reading `now`, the sync
     * mode and the configuration's delays, kept for the event; then the delay
     * until it, from the second clock reading `later`.
     */
    method OnSync(now: Long, autoSync: bool, config: EventConfiguration, later: Long) returns (delay: Long)
      modifies this`eventBaseTime
      ensures eventBaseTime == BaseTime(now, Unit(autoSync), if autoSync then config.autoSyncDelay else config.manualSyncDelay)
      ensures delay == ScheduleDelay(eventBaseTime, later)
    {
      var baseTime: Long := now;
      if autoSync {
        baseTime := UnitsAt(baseTime, MILLIS_PER_MINUTE, config.autoSyncDelay);
        baseTime := ToMillis(baseTime, MILLIS_PER_MINUTE);
      } else {
        baseTime := UnitsAt(baseTime, MILLIS_PER_SECOND, config.manualSyncDelay);
        baseTime := ToMillis(baseTime, MILLIS_PER_SECOND);
      }
      eventBaseTime := baseTime;
      delay := WrapLong(baseTime - later);
      if delay < 0 {
        delay := 0;
      }
    }

    /** The start button: the base time handed to the event screen. */
    method OnStartEvent() returns (baseTime: Long)
      ensures baseTime == eventBaseTime
    {
      baseTime := eventBaseTime;
    }
  }
}
