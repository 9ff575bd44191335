/** When the next advertisement is due: the clock-aligned schedule of the advertisement reconciler. */
module ClockSync {
  import opened Base

  /** Whole minutes, rounded towards zero and at least one. */
  function IntervalMinutes(interval: Time): (k: int)
    ensures k >= 1
    ensures if interval < 60 * SECOND then k == 1 else k * 60 * SECOND <= interval < (k + 1) * 60 * SECOND
  {
    if interval < MINUTE then 1 else interval / MINUTE
  }

  function HourStart(t: Time): Time {
    t - t % HOUR
  }

  function MinuteOf(t: Time): (m: int)
    ensures 0 <= m < 60
  {
    t % HOUR / MINUTE
  }

  /** Minutes from the start of the hour to the update, from minute `m`: the next multiple of the
      interval, for intervals under two hours; beyond, its odd minutes into the next hour. */
  function Offset(m: int, k: int): int
    requires k >= 1
  {
    if k < 120 then (m / k + 1) * k else 60 + k % 60
  }

  /** The result in closed form. */
  function NextSync(now: Time, k: int): Time
    requires k >= 1
  {
    HourStart(now) + Offset(MinuteOf(now), k) * MINUTE
  }

  lemma NextMultiple(m: int, k: int)
    requires 0 <= m < 60 && k >= 1
    ensures m < (m / k + 1) * k <= m + k
    ensures k >= 60 ==> (m / k + 1) * k == k
  {
    var q := m / k;
    assert m == q * k + m % k;
    assert (q + 1) * k == q * k + k;
    if k >= 60 {
      DivisionIsUnique(m, k, 0, m);
    }
  }

  /** Minute-of-hour plus rollover, as the code puts it, is the offset. */
  lemma OffsetWraps(m: int, k: int)
    requires 0 <= m < 60 && k >= 1
    ensures var n := (m / k + 1) * k; Offset(m, k) == n % 60 + if n >= 60 then 60 else 0
  {
    NextMultiple(m, k);
  }

  method CalculateNextClockSync(now: Time, interval: Time) returns (nextSync: Time)
    ensures nextSync == NextSync(now, IntervalMinutes(interval))
    ensures interval > 0 && interval % MINUTE == 0 && HOUR % interval == 0 ==> IsNextMultiple(now, interval, nextSync)
  {
    var intervalMinutes := if interval >= 0 then interval / MINUTE else -(-interval / MINUTE);
    if intervalMinutes < 1 {
      intervalMinutes := 1;
    }
    var currentMinute := MinuteOf(now);
    OffsetWraps(currentMinute, intervalMinutes);
    var nextMinute := (currentMinute / intervalMinutes + 1) * intervalMinutes;
    nextSync := HourStart(now) + nextMinute % 60 * MINUTE;
    if nextMinute >= 60 {
      nextSync := nextSync + HOUR;
    }
    if interval > 0 && interval % MINUTE == 0 && HOUR % interval == 0 {
      SyncIsNextMultiple(now, interval);
    }
  }

  /** The least multiple of `interval` after `now`. */
  ghost predicate IsNextMultiple(now: Time, interval: Time, next: Time)
    requires interval > 0
  {
    && now < next && next % interval == 0
    && forall t :: now < t && t % interval == 0 ==> next <= t
  }

  /** An interval of whole minutes that divides the hour gets the least of its multiples after the clock. */
  lemma SyncIsNextMultiple(now: Time, interval: Time)
    requires interval > 0 && interval % MINUTE == 0 && HOUR % interval == 0
    ensures IsNextMultiple(now, interval, NextSync(now, IntervalMinutes(interval)))
  {
    var k := IntervalMinutes(interval);
    var q := HOUR / interval;
    assert interval == k * MINUTE;
    assert 60 * MINUTE == q * (k * MINUTE) == (q * k) * MINUTE;
    DivisionIsUnique(60, k, q, 0);
    SyncIsAhead(now, k);
    forall t | now < t && t % interval == 0 ensures NextSync(now, k) <= t {
      SyncIsLeastBoundary(now, k, t);
    }
    SyncIsLeastBoundary(now, k, now);
  }

  // ---------------------------------------------------------------------------------------------
  // Every interval
  // ---------------------------------------------------------------------------------------------

  lemma OffsetBounds(m: int, k: int)
    requires 0 <= m < 60 && k >= 1
    ensures m < Offset(m, k) < 120
    ensures k < 120 ==> Offset(m, k) <= m + k && k <= Offset(m, k)
  {
    NextMultiple(m, k);
    var q := m / k;
    assert q >= 0;
    assert (q + 1) * k == q * k + k && q * k >= 0;
  }

  lemma QuotientKeepsOrder(a: int, b: int, k: int)
    requires 0 <= a <= b && k >= 1
    ensures a / k <= b / k
  {
    var p, q := a / k, b / k;
    assert p * k <= a && b < q * k + k;
    MultiplesKeepOrder(q + 1, p, k);
  }

  lemma MultiplesKeepOrder(p: int, q: int, k: int)
    requires k >= 1
    ensures p <= q ==> p * k <= q * k
  {
    assert p <= q ==> (q - p) * k >= 0;
  }

  lemma OffsetKeepsOrder(a: int, b: int, k: int)
    requires 0 <= a <= b < 60 && k >= 1
    ensures Offset(a, k) <= Offset(b, k)
  {
    QuotientKeepsOrder(a, b, k);
    MultiplesKeepOrder(a / k + 1, b / k + 1, k);
  }

  /** The update is always ahead, never two hours away and, for intervals under two hours, at most one
      interval away. */
  lemma SyncIsAhead(now: Time, k: int)
    requires k >= 1
    ensures now < NextSync(now, k) < now + 2 * HOUR
    ensures k < 120 ==> NextSync(now, k) <= now + k * MINUTE
  {
  }

  /** Which instant the update is.  Under two hours: the first after the clock that is a whole number of
      intervals after the start of the clock's hour.  From two hours on: the one in the next hour that
      differs from the interval, counted from the start of the clock's hour, by whole hours. */
  lemma SyncIsCountedFromTheHour(now: Time, k: int)
    requires k >= 1
    ensures
      var start := now / HOUR * HOUR;
      var wait := NextSync(now, k) - start;
      if k < 120 then wait % (k * MINUTE) == 0 && NextSync(now, k) - k * MINUTE <= now < NextSync(now, k)
      else HOUR <= wait < 2 * HOUR && (wait - k * MINUTE) % HOUR == 0
  {
    assert HourStart(now) == now / HOUR * HOUR;
    SyncIsAhead(now, k);
    var n := MinuteOf(now) / k + 1;
    if k < 120 {
      assert n * k * MINUTE == n * (k * MINUTE);
      DivisionIsUnique(n * (k * MINUTE), k * MINUTE, n, 0);
    } else {
      var hours := 1 - k / 60;
      assert (60 + k % 60) * MINUTE - k * MINUTE == hours * HOUR;
      DivisionIsUnique(hours * HOUR, HOUR, hours, 0);
    }
  }

  /** A later clock never gets an earlier update, across hours as well as within one. */
  lemma SyncIsMonotone(now: Time, later: Time, k: int)
    requires k >= 1 && now <= later
    ensures NextSync(now, k) <= NextSync(later, k)
  {
    var a, b := MinuteOf(now), MinuteOf(later);
    OffsetBounds(a, k);
    OffsetBounds(b, k);
    if now / HOUR == later / HOUR {
      OffsetKeepsOrder(a, b, k);
    } else {
      assert HourStart(now) + HOUR <= HourStart(later);
    }
  }

  // ---------------------------------------------------------------------------------------------
  // Intervals that divide the hour
  // ---------------------------------------------------------------------------------------------

  predicate IsBoundary(t: Time, k: int)
    requires k >= 1
  {
    t % (k * MINUTE) == 0
  }

  lemma DivisionIsUnique(x: int, p: int, q: int, r: int)
    requires p >= 1 && x == q * p + r && 0 <= r < p
    ensures x / p == q && x % p == r
  {
    var d := q - x / p;
    assert x == x / p * p + x % p;
    assert d * p == x % p - r;
    assert d >= 1 ==> d * p >= p;
    assert d <= -1 ==> d * p <= -p;
  }

  lemma HoursAndMinutes(t: Time)
    ensures HourStart(t) == t / MINUTE / 60 * HOUR && MinuteOf(t) == t / MINUTE % 60
  {
  }

  /** In minutes since the epoch, the offset leads to the next multiple of the interval. */
  lemma OffsetFromEpoch(total: int, k: int)
    requires k >= 1 && 60 % k == 0
    ensures total / 60 * 60 + Offset(total % 60, k) == (total / k + 1) * k
  {
    var h, m, j := total / 60, total % 60, 60 / k;
    var q := m / k;
    assert 60 == j * k + 60 % k;
    assert j >= 1 ==> k <= j * k;
    assert m == q * k + m % k;
    assert (h * j + q) * k == h * (j * k) + q * k;
    DivisionIsUnique(total, k, h * j + q, m % k);
    assert (h * j + q + 1) * k == h * (j * k) + (q + 1) * k;
  }

  lemma SyncInMinutes(now: Time, k: int)
    requires k >= 1 && 60 % k == 0
    ensures NextSync(now, k) == (now / MINUTE / k + 1) * k * MINUTE
  {
    HoursAndMinutes(now);
    OffsetFromEpoch(now / MINUTE, k);
  }

  lemma DivideTwice(x: Time, k: int)
    requires k >= 1
    ensures x / MINUTE / k == x / (k * MINUTE)
  {
    var total := x / MINUTE;
    var q, r := total / k, total % k;
    assert total == q * k + r;
    assert q * (k * MINUTE) == q * k * MINUTE;
    DivisionIsUnique(x, k * MINUTE, q, r * MINUTE + x % MINUTE);
  }

  /** With the slot of `now` counted in intervals since the epoch, the update is the next slot's start. */
  lemma SyncIsNextSlot(now: Time, k: int)
    requires k >= 1 && 60 % k == 0
    ensures
      var p := k * MINUTE;
      NextSync(now, k) == (now / p + 1) * p && now / p * p <= now < (now / p + 1) * p
  {
    var p := k * MINUTE;
    SyncInMinutes(now, k);
    DivideTwice(now, k);
    var s := now / p;
    assert now == s * p + now % p;
    assert (s + 1) * p == s * p + p;
    assert (s + 1) * k * MINUTE == (s + 1) * p;
  }

  /** The start of the next slot of length `p` is the first multiple of `p` ahead. */
  lemma NextSlot(now: int, t: int, p: int)
    requires p >= 1
    ensures (now / p + 1) * p % p == 0
    ensures now < t && t % p == 0 ==> (now / p + 1) * p <= t
    ensures now <= t < (now / p + 1) * p ==> t / p == now / p
  {
    var s := now / p;
    DivisionIsUnique((s + 1) * p, p, s + 1, 0);
    assert now == s * p + now % p && t == t / p * p + t % p;
    if now < t && t % p == 0 {
      BetweenMultiples(s, t / p, p);
    }
    if now <= t < (s + 1) * p {
      DivisionIsUnique(t, p, s, t - s * p);
    }
  }

  /** The update is the least boundary after the clock, so all agents in one slot choose the same. */
  lemma SyncIsLeastBoundary(now: Time, k: int, t: Time)
    requires k >= 1 && 60 % k == 0
    ensures IsBoundary(NextSync(now, k), k)
    ensures now < t && IsBoundary(t, k) ==> NextSync(now, k) <= t
    ensures now <= t < NextSync(now, k) ==> NextSync(t, k) == NextSync(now, k)
  {
    SyncIsNextSlot(now, k);
    SyncIsNextSlot(t, k);
    NextSlot(now, t, k * MINUTE);
  }

  lemma BetweenMultiples(s: int, c: int, p: int)
    requires p >= 1 && s * p < c * p
    ensures s < c && (s + 1) * p <= c * p
  {
    MultiplesKeepOrder(c, s, p);
    MultiplesKeepOrder(s + 1, c, p);
  }

  function Iterate(now: Time, k: int, n: nat): Time
    requires k >= 1
  {
    if n == 0 then now else NextSync(Iterate(now, k, n - 1), k)
  }

  lemma {:induction false} IterateInSlots(now: Time, k: int, n: nat)
    requires k >= 1 && 60 % k == 0 && n >= 1
    ensures var p := k * MINUTE; Iterate(now, k, n) == (now / p + n) * p
  {
    var p := k * MINUTE;
    if n == 1 {
      SyncIsNextSlot(now, k);
      assert Iterate(now, k, 0) == now;
    } else {
      IterateInSlots(now, k, n - 1);
      var s := now / p + n - 1;
      DivisionIsUnique(s * p, p, s, 0);
      SyncIsNextSlot(s * p, k);
    }
  }

  /** Following its own schedule, an agent meets every later boundary, and each exactly once. */
  lemma EveryBoundaryOnce(now: Time, k: int, b: Time) returns (n: nat)
    requires k >= 1 && 60 % k == 0 && now < b && IsBoundary(b, k)
    ensures n >= 1 && Iterate(now, k, n) == b
    ensures forall m: nat :: m >= 1 && Iterate(now, k, m) == b ==> m == n
  {
    var p := k * MINUTE;
    var s, c := now / p, b / p;
    assert b == c * p;
    SyncIsNextSlot(now, k);
    BetweenMultiples(s, c, p);
    n := c - s;
    IterateInSlots(now, k, n);
    forall m: nat | m >= 1 && Iterate(now, k, m) == b ensures m == n {
      IterateInSlots(now, k, m);
      DivisionIsUnique((s + m) * p, p, s + m, 0);
    }
  }

  // ---------------------------------------------------------------------------------------------
  // Exactly the intervals that divide the hour are honoured
  // ---------------------------------------------------------------------------------------------

  /** "Aligned to the interval's boundaries" holds at all times exactly for intervals dividing the hour. */
  lemma AlignedIffDividesHour(k: int)
    requires k >= 1
    ensures (forall t :: IsBoundary(NextSync(t, k), k)) <==> 60 % k == 0
  {
    var p := k * MINUTE;
    if 60 % k == 0 {
      forall t ensures IsBoundary(NextSync(t, k), k) {
        SyncIsLeastBoundary(t, k, t);
      }
    } else if k < 120 {
      var next := NextSync(HOUR, k);
      assert MinuteOf(HOUR) == 0 && 0 / k == 0;
      assert next == (60 + k) * MINUTE;
      if IsBoundary(next, k) {
        var c := next / p;
        assert next == c * p;
        assert c * p == c * k * MINUTE;
        assert (c - 1) * k == 60;
        DivisionIsUnique(60, k, c - 1, 0);
      }
      assert !IsBoundary(NextSync(HOUR, k), k);
    } else {
      assert NextSync(0, k) == (60 + k % 60) * MINUTE;
      DivisionIsUnique(NextSync(0, k), p, 0, NextSync(0, k));
      assert !IsBoundary(NextSync(0, k), k);
    }
  }

  /** So does "one update per interval": otherwise some two updates are closer than the interval. */
  lemma PeriodicIffDividesHour(k: int)
    requires k >= 1
    ensures (forall t :: NextSync(NextSync(t, k), k) == NextSync(t, k) + k * MINUTE) <==> 60 % k == 0
  {
    if 60 % k == 0 {
      forall t ensures NextSync(NextSync(t, k), k) == NextSync(t, k) + k * MINUTE {
        IterateInSlots(t, k, 1);
        IterateInSlots(t, k, 2);
        assert Iterate(t, k, 1) == NextSync(Iterate(t, k, 0), k) == NextSync(t, k);
        assert Iterate(t, k, 2) == NextSync(NextSync(t, k), k);
        var p, s := k * MINUTE, t / (k * MINUTE);
        assert (s + 2) * p == (s + 1) * p + p;
      }
    } else {
      var t := if k < 60 then 59 * MINUTE else 0;
      TooSoon(k, t);
      assert NextSync(NextSync(t, k), k) != NextSync(t, k) + k * MINUTE;
    }
  }

  lemma TooSoon(k: int, t: Time)
    requires k >= 1 && 60 % k != 0 && t == if k < 60 then 59 * MINUTE else 0
    ensures NextSync(NextSync(t, k), k) < NextSync(t, k) + k * MINUTE
  {
    if k < 60 {
      TooSoonAfterRollover(k);
    } else if k < 120 {
      assert Offset(0, k) == k;
      SyncInSecondHour(k, k);
    }
  }

  /** From an instant early in the second hour, earlier than the interval is long. */
  lemma SyncInSecondHour(n: int, k: int)
    requires 60 <= n < 120 && n - 60 < k < 120
    ensures NextSync(n * MINUTE, k) == HOUR + k * MINUTE
  {
    assert HourStart(n * MINUTE) == HOUR && MinuteOf(n * MINUTE) == n - 60;
    DivisionIsUnique(n - 60, k, 0, n - 60);
  }

  lemma TooSoonAfterRollover(k: int)
    requires 1 <= k < 60 && 60 % k != 0
    ensures NextSync(NextSync(59 * MINUTE, k), k) < NextSync(59 * MINUTE, k) + k * MINUTE
  {
    var n := (59 / k + 1) * k;
    NextMultiple(59, k);
    if n == 60 {
      DivisionIsUnique(60, k, 59 / k + 1, 0);
    }
    assert MinuteOf(59 * MINUTE) == 59 && HourStart(59 * MINUTE) == 0;
    assert NextSync(59 * MINUTE, k) == n * MINUTE;
    SyncInSecondHour(n, k);
  }

  // ---------------------------------------------------------------------------------------------
  // What every interval gets: a schedule that repeats hourly
  // ---------------------------------------------------------------------------------------------

  /** The minute of the first update of an hour, if the agent was already following its schedule. */
  function Rollover(k: int): int
    requires k >= 1
  {
    Offset(59, k) - 60
  }

  /** Update `j` of hour `h`: the rollover minute, then the multiples of the interval. */
  function Slot(h: int, k: int, j: int): Time
    requires k >= 1
  {
    h * HOUR + (if j == 0 then Rollover(k) else j * k) * MINUTE
  }

  lemma RolloverBounds(k: int)
    requires k >= 1
    ensures 0 <= Rollover(k) < 60 && Rollover(k) / k == 0 && (k >= 60 <==> 59 / k == 0)
  {
    OffsetBounds(59, k);
    NextMultiple(59, k);
    DivisionIsUnique(Rollover(k), k, 0, Rollover(k));
    if k < 60 {
      QuotientKeepsOrder(k, 59, k);
      DivisionIsUnique(k, k, 1, 0);
    }
  }

  /** From any minute the next update is a multiple within the hour, or the rollover into the next. */
  lemma OffsetIsSlot(m: int, k: int)
    requires 0 <= m < 60 && k >= 1
    ensures m / k <= 59 / k
    ensures Offset(m, k) == if m / k < 59 / k then (m / k + 1) * k else 60 + Rollover(k)
  {
    var q, last := m / k, 59 / k;
    QuotientKeepsOrder(m, 59, k);
    if k < 120 {
      assert Offset(m, k) == (q + 1) * k && Offset(59, k) == (last + 1) * k;
    } else {
      DivisionIsUnique(m, k, 0, m);
      DivisionIsUnique(59, k, 0, 59);
    }
  }

  lemma SyncIsSlot(now: Time, k: int)
    requires k >= 1
    ensures
      var h, j := now / HOUR, MinuteOf(now) / k;
      j <= 59 / k && NextSync(now, k) == if j < 59 / k then Slot(h, k, j + 1) else Slot(h + 1, k, 0)
  {
    OffsetIsSlot(MinuteOf(now), k);
    QuotientKeepsOrder(0, MinuteOf(now), k);
    assert HourStart(now) == now / HOUR * HOUR;
  }

  lemma SlotIsInHour(h: int, k: int, j: int)
    requires k >= 1 && 0 <= j <= 59 / k
    ensures Slot(h, k, j) / HOUR == h && MinuteOf(Slot(h, k, j)) / k == j
  {
    RolloverBounds(k);
    var m := if j == 0 then Rollover(k) else j * k;
    MultiplesKeepOrder(j, 59 / k, k);
    assert 59 / k * k <= 59 && j * k >= 0;
    DivisionIsUnique(Slot(h, k, j), HOUR, h, m * MINUTE);
    DivisionIsUnique(m * MINUTE, MINUTE, m, 0);
    if j > 0 {
      DivisionIsUnique(m, k, j, 0);
    }
  }

  lemma {:induction false} IterateFromSlot(h: int, k: int, j: int, n: nat)
    requires k >= 1 && 0 <= j <= 59 / k && n <= 59 / k + 1
    ensures Iterate(Slot(h, k, j), k, n)
         == if j + n <= 59 / k then Slot(h, k, j + n) else Slot(h + 1, k, j + n - 59 / k - 1)
  {
    if n > 0 {
      IterateFromSlot(h, k, j, n - 1);
      if j + n - 1 <= 59 / k {
        SlotIsInHour(h, k, j + n - 1);
        SyncIsSlot(Slot(h, k, j + n - 1), k);
      } else {
        SlotIsInHour(h + 1, k, j + n - 59 / k - 2);
        SyncIsSlot(Slot(h + 1, k, j + n - 59 / k - 2), k);
      }
    }
  }

  /** Whatever the interval and the clock, the update is one of the slots of its hour, and from then on
      there are exactly 59 / k + 1 updates to the hour, at the same minutes of every hour: one an hour
      from an interval of one hour on. */
  lemma HourlySchedule(now: Time, k: int) returns (h: int, j: int)
    requires k >= 1
    ensures 0 <= j <= 59 / k && NextSync(now, k) == Slot(h, k, j)
    ensures Iterate(NextSync(now, k), k, 59 / k + 1) == NextSync(now, k) + HOUR
    ensures k >= 60 ==> NextSync(NextSync(now, k), k) == NextSync(now, k) + HOUR
  {
    SyncIsSlot(now, k);
    QuotientKeepsOrder(0, MinuteOf(now), k);
    h, j := now / HOUR, MinuteOf(now) / k + 1;
    if j > 59 / k {
      h, j := h + 1, 0;
    }
    IterateFromSlot(h, k, j, 59 / k + 1);
    if k >= 60 {
      RolloverBounds(k);
      IterateFromSlot(h, k, 0, 1);
      assert Iterate(Slot(h, k, 0), k, 1) == NextSync(Iterate(Slot(h, k, 0), k, 0), k);
    }
  }

  // ---------------------------------------------------------------------------------------------
  // The requeue request
  // ---------------------------------------------------------------------------------------------

  /** The delay asked for after a status update, from the clock readings before and after the
      schedule was worked out.  A request that is not positive asks for no requeue.  The default of one
      minute for a missing interval changes nothing, since any interval counts for at least one. */
  method RequeueDelay(interval: Time, before: Time, after: Time) returns (delay: Time)
    ensures delay == NextSync(before, IntervalMinutes(interval)) - after
  {
    var requeueInterval := interval;
    if requeueInterval == 0 {
      requeueInterval := 1 * MINUTE;
    }
    var nextUpdate := CalculateNextClockSync(before, requeueInterval);
    delay := nextUpdate - after;
  }

  /** For intervals dividing the hour, the next update is scheduled exactly when both readings fall into
      one slot: if a boundary passes in between, the request is not positive and the timer is lost. */
  lemma ScheduledIffSameSlot(before: Time, after: Time, k: int)
    requires k >= 1 && 60 % k == 0 && before <= after
    ensures NextSync(before, k) - after > 0 <==> NextSync(after, k) == NextSync(before, k)
    ensures NextSync(before, k) - after > 0 <==> before / (k * MINUTE) == after / (k * MINUTE)
  {
    SyncIsNextSlot(before, k);
    SyncIsNextSlot(after, k);
    SyncIsLeastBoundary(before, k, after);
    SyncIsAhead(after, k);
    if before / (k * MINUTE) == after / (k * MINUTE) {
      assert NextSync(before, k) == NextSync(after, k);
    }
    if NextSync(before, k) == NextSync(after, k) {
      var p := k * MINUTE;
      DivisionIsUnique((before / p + 1) * p, p, before / p + 1, 0);
      DivisionIsUnique((after / p + 1) * p, p, after / p + 1, 0);
    }
  }

  /** A delay is asked for exactly when the update worked out is also the one a fresh look would give:
      whether that holds at all times depends on the interval. */
  ghost predicate ScheduledIffSameUpdate(k: int)
    requires k >= 1
  {
    forall before, after :: before <= after ==>
      (NextSync(before, k) - after > 0 <==> NextSync(after, k) == NextSync(before, k))
  }

  /** It holds exactly for the intervals that divide the hour or are whole hours; for the others a timer
      is still set after the schedule has moved on. */
  lemma ScheduledIffSameUpdateIff(k: int)
    requires k >= 1
    ensures ScheduledIffSameUpdate(k) <==> 60 % k == 0 || k % 60 == 0
  {
    if 60 % k == 0 || k % 60 == 0 {
      forall before, after | before <= after
        ensures NextSync(before, k) - after > 0 <==> NextSync(after, k) == NextSync(before, k)
      {
        SyncIsAhead(after, k);
        if 60 % k == 0 {
          ScheduledIffSameSlot(before, after, k);
        } else {
          WholeHours(before, k);
          WholeHours(after, k);
        }
      }
    } else {
      var before := if k < 60 then 59 * MINUTE else 0;
      StaleTimer(k, before);
      assert !(NextSync(before, k) - HOUR > 0 <==> NextSync(HOUR, k) == NextSync(before, k));
    }
  }

  lemma WholeHours(t: Time, k: int)
    requires k >= 120 && k % 60 == 0
    ensures NextSync(t, k) == HourStart(t) + HOUR
  {
  }

  /** The update worked out before the full hour is after it, and not the one worked out at it. */
  lemma StaleTimer(k: int, before: Time)
    requires k >= 1 && 60 % k != 0 && k % 60 != 0 && before == if k < 60 then 59 * MINUTE else 0
    ensures HOUR < NextSync(before, k) && NextSync(before, k) != NextSync(HOUR, k)
  {
    assert HourStart(before) == 0 && HourStart(HOUR) == HOUR && MinuteOf(HOUR) == 0;
    var m := MinuteOf(before);
    NextMultiple(m, k);
    if k < 60 && (m / k + 1) * k == 60 {
      DivisionIsUnique(60, k, m / k + 1, 0);
    }
    OffsetBounds(m, k);
    OffsetBounds(0, k);
  }
}
