/** Small shared vocabulary: optional values and the integer identifiers
    the tables are keyed by. */
module Basics {

  /** A value that may be absent: a SQL NULL, a `None`, or a row that
      `fetchone()` did not find. */
  datatype Option<+T> = None | Some(value: T) {

    /** The wrapped value, or `default` when absent. */
    function GetOr(default: T): T {
      match this
      case Some(v) => v
      case None => default
    }
  }

  /** Platform user id of a server member. */
  type MemberId = int

  /** Primary key of a row of the Shop table. */
  type ItemId = int

  /** Seconds per day, the unit of Python's `timedelta.days`. */
  const SecondsPerDay: int := 86400

  /** Whole days elapsed in `seconds`, as Python's `timedelta.days` reports
      them: floor division. Dafny's `/` is Euclidean, which coincides with
      floor division for a positive divisor. */
  function WholeDays(seconds: int): (d: int)
    ensures d * SecondsPerDay <= seconds < (d + 1) * SecondsPerDay
  {
    seconds / SecondsPerDay
  }

  /** `WholeDays` reaches `n` exactly when `n` full days of seconds elapsed. */
  lemma WholeDaysAtLeast(seconds: int, n: int)
    ensures WholeDays(seconds) >= n <==> seconds >= n * SecondsPerDay
  {
    var d := WholeDays(seconds);
    if d >= n {
      assert d * SecondsPerDay >= n * SecondsPerDay;
    } else {
      assert (d + 1) * SecondsPerDay <= n * SecondsPerDay;
    }
  }
}
