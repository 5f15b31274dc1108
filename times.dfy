/**
 * Instants as integers. `time.Time` becomes seconds since the Unix epoch in
 * UTC, where `AddDate(0, 0, d)` moves an instant by exactly `d` days.
 */
module Times {

  type Time = int

  const SecondsPerDay: int := 86_400

  /** `t.AddDate(0, 0, days)`: the instant `days` calendar days after `t`. */
  function AddDays(t: Time, days: int): (r: Time)
    ensures days > 0 <==> Before(t, r)
    ensures days == 0 <==> r == t
  {
    t + days * SecondsPerDay
  }

  /** `a.Before(b)`: `a` is strictly earlier than `b`. */
  predicate Before(a: Time, b: Time)
    ensures Before(a, b) ==> a != b
  {
    a < b
  }

  /** 2024-01-20 plus 30 days is 2024-02-19 (UTC), across the month boundary. */
  lemma AddDaysAcrossMonth()
    ensures AddDays(1_705_708_800, 30) == 1_708_300_800
  {
  }
}
