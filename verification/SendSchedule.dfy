/** The absolute-time send schedule shared by both pacers: advance by one period per send, redeem at most
    three missed slots after a stall. Times are integer nanoseconds. */
module SendSchedule {
  import opened RealArithmetic

  const MAX_CATCHUP_SLOTS: int := 3

  /** Duration of one period at `rate` sends per second, truncated to clock ticks. */
  function Period(rate: real): (p: int)
    requires rate > 0.0
    ensures p >= 0
  {
    (1000000000.0 / rate).Floor
  }

  /** It is the last whole nanosecond count that leaves room for `rate` periods in a second. */
  lemma PeriodFillsSecond(rate: real)
    requires rate > 0.0
    ensures Fills(Period(rate), rate, 1000000000.0)
  {
    var q := 1000000000.0 / rate;
    assert q * rate == 1000000000.0;
    FloorOfQuotient(q, rate, q.Floor, 1000000000.0);
  }

  /** n is the greatest count whose product with the rate does not exceed the total. */
  predicate Fills(n: int, rate: real, total: real) {
    n as real * rate <= total < (n as real + 1.0) * rate
  }

  lemma FloorOfQuotient(q: real, rate: real, n: int, total: real)
    requires rate > 0.0 && n as real <= q < n as real + 1.0 && q * rate == total
    ensures Fills(n, rate, total)
  {
    BetweenProducts(n as real, q, n as real + 1.0, rate, total);
  }

  lemma BetweenProducts(a: real, q: real, b: real, rate: real, total: real)
    requires rate > 0.0 && a <= q < b && q * rate == total
    ensures a * rate <= total < b * rate
  {
    ProductMonotone(a, q, rate);
    ProductStrict(q, b, rate);
  }

  lemma PeriodAntitone(r: real, s: real)
    requires 0.0 < r <= s
    ensures Period(s) <= Period(r)
  {
    var x, y := 1000000000.0 / r, 1000000000.0 / s;
    assert x * r == 1000000000.0 && y * s == 1000000000.0 && x >= 0.0;
    ProductMonotone(r, s, x);
    if y > x {
      ProductStrict(x, y, s);
    }
  }

  /** The schedule after a send at `now`. */
  function AdvanceSchedule(next: int, now: int, period: int): int {
    var n := next + period;
    if now - n > period * MAX_CATCHUP_SLOTS then now + period else n
  }

  /** The schedule update in the order the source performs it. For a slot that was due, the next one is
      at most a period away, moves at least a period on, and leaves at most three slots to catch up on;
      it is off the old grid only when more than three were missed. */
  method Advance(next: int, now: int, period: int) returns (next': int)
    ensures next' == AdvanceSchedule(next, now, period)
    ensures next <= now && period >= 0 ==> next + period <= next' <= now + period && now - next' <= 3 * period
    ensures next' != next + period ==> now - next > 4 * period
  {
    next' := next + period;
    if now - next' > period * MAX_CATCHUP_SLOTS {
      next' := now + period;
    }
  }

  /** One scheduled send: when, and where the schedule stood afterwards. */
  datatype Send = Send(time: int, period: int, next: int)

  ghost predicate Follows(a: Send, b: Send) {
    a.time <= b.time && a.next <= b.time && b.next == AdvanceSchedule(a.next, b.time, b.period)
  }

  /** A run of scheduled sends with periods in [lo, hi]. */
  ghost predicate Chain(sends: seq<Send>, lo: int, hi: int) {
    && 0 <= lo <= hi
    && (forall i :: 0 <= i < |sends| ==> lo <= sends[i].period <= hi && sends[i].next >= sends[i].time - 3 * hi)
    && (forall i :: 0 < i < |sends| ==> Follows(sends[i - 1], sends[i]))
  }

  lemma AdvanceBounds(next: int, now: int, period: int, hi: int)
    requires next <= now && 0 <= period <= hi
    ensures next + period <= AdvanceSchedule(next, now, period) <= now + period
    ensures AdvanceSchedule(next, now, period) >= now - 3 * hi
  {
  }

  lemma ChainAppend(sends: seq<Send>, lo: int, hi: int, next: int, now: int, period: int)
    requires Chain(sends, lo, hi) && next <= now && lo <= period <= hi
    requires sends != [] ==> sends[|sends| - 1].next == next && sends[|sends| - 1].time <= now
    ensures Chain(sends + [Send(now, period, AdvanceSchedule(next, now, period))], lo, hi)
  {
    AdvanceBounds(next, now, period, hi);
  }

  /** Between two sends the schedule moved at least one shortest period per send. */
  lemma {:induction false} ScheduleGrows(sends: seq<Send>, lo: int, hi: int, i: nat, j: nat)
    requires Chain(sends, lo, hi) && i <= j < |sends|
    ensures sends[j].next >= sends[i].next + (j - i) * lo
    ensures sends[i].time <= sends[j].time
    decreases j
  {
    if i < j {
      ScheduleGrows(sends, lo, hi, i, j - 1);
      assert Follows(sends[j - 1], sends[j]);
      AdvanceBounds(sends[j - 1].next, sends[j].time, sends[j].period, hi);
      assert (j - i) * lo == (j - 1 - i) * lo + lo;
    }
  }

  /** The rate bound over any window of a run: n sends within `window` satisfy
      n <= (window + 3 * hi) / lo + 2. */
  lemma SendsInWindow(sends: seq<Send>, lo: int, hi: int, i: nat, j: nat, window: int)
    requires Chain(sends, lo, hi) && i <= j < |sends| && sends[j].time - sends[i].time <= window
    ensures (j - i + 1 - 2) * lo <= window + 3 * hi
  {
    if i < j {
      ScheduleGrows(sends, lo, hi, i, j - 1);
      assert Follows(sends[j - 1], sends[j]);
    } else {
      assert (j - i + 1 - 2) * lo == -lo;
    }
  }
}
