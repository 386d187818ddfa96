/**
  Timestamps. A `DateTime` is a count of 100-nanosecond ticks since
  0001-01-01T00:00:00; its `Date` property is midnight at the start of the
  same calendar day.
*/
module Calendar {

  type Instant = nat

  const TicksPerDay: nat := 864_000_000_000

  /** `DateTime.Date`: the instant truncated to the start of its day. */
  function DateOf(t: Instant): (d: Instant)
    ensures d <= t < d + TicksPerDay
    ensures d % TicksPerDay == 0
  {
    t - t % TicksPerDay
  }

  /** Two day-aligned instants less than a day apart in the given order are ordered. */
  lemma AlignedOrder(m: Instant, n: Instant)
    requires m % TicksPerDay == 0 && n % TicksPerDay == 0
    requires m < n + TicksPerDay
    ensures m <= n
  {
    var a, b := m / TicksPerDay, n / TicksPerDay;
    assert m == a * TicksPerDay;
    assert n == b * TicksPerDay;
  }

  /**
    Comparing calendar days is the same as asking whether the instant lies
    between midnight of the first day and midnight after the last day.
  */
  lemma {:induction false} WithinDays(from: Instant, t: Instant, to: Instant)
    ensures (DateOf(from) <= DateOf(t) && DateOf(t) <= DateOf(to))
        <==> (DateOf(from) <= t < DateOf(to) + TicksPerDay)
  {
    if DateOf(from) <= t {
      AlignedOrder(DateOf(from), DateOf(t));
    }
    if t < DateOf(to) + TicksPerDay {
      AlignedOrder(DateOf(t), DateOf(to));
    }
  }

  /** Truncation to the day is monotone: ordered instants have ordered dates. */
  lemma {:induction false} DateOfMonotone(a: Instant, b: Instant)
    requires a <= b
    ensures DateOf(a) <= DateOf(b)
  {
    AlignedOrder(DateOf(a), DateOf(b));
  }
}
