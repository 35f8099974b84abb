/**
 * How long `Epoller::wait` asks the kernel to sleep: milliseconds to the
 * earliest deadline, truncated toward zero as a 64-bit count and then narrowed
 * to the 32-bit argument of `epoll_wait`, where any negative value means
 * "until an event arrives".
 */
module Sleep {
  import opened TimerSpec

  /** `Time::Timestamp()`, which doubles as "no timer". */
  const NO_TIMER: int := EPOCH

  const TWO_31: int := 0x8000_0000
  const TWO_32: int := 0x1_0000_0000

  /** Integer division as C++ does it. */
  function TruncDiv(a: int, b: int): int
    requires 0 < b
  {
    if 0 <= a then a / b else -(-a / b)
  }

  function MillisecondsFromNow(exp: int, now: int): int {
    TruncDiv(exp - now, TICKS_PER_MS)
  }

  /** int64_t to int */
  function Narrow(x: int): int {
    (x + TWO_31) % TWO_32 - TWO_31
  }

  /** `getNextExpiredTime`: the epoch stands for "no timer". */
  function NextExpired(ts: seq<Timer>): int {
    if ts == [] then EPOCH else ts[0].exp
  }

  function EpollTimeout(next: int, now: int): int {
    Narrow(if next != EPOCH then MillisecondsFromNow(next, now) else -1)
  }

  /** The evident intent: an overdue deadline means "do not sleep", a far one "as long as possible". */
  function EpollTimeoutClamped(next: int, now: int): int {
    if next == EPOCH then -1
    else
      var exp := MillisecondsFromNow(next, now);
      if exp < 0 then 0 else if exp < TWO_31 then exp else TWO_31 - 1
  }

  /** Ends by the deadline (at once if that has passed). */
  predicate EndsInTime(deadline: int, now: int, timeout: int) {
    0 <= timeout && timeout * TICKS_PER_MS <= if now <= deadline then deadline - now else 0
  }

  /** Ends by the deadline and less than a millisecond before it. */
  predicate Accurate(deadline: int, now: int, timeout: int) {
    EndsInTime(deadline, now, timeout) && deadline - now < (timeout + 1) * TICKS_PER_MS
  }

  lemma NextIsEarliest(ts: seq<Timer>)
    requires Sorted(ts) && ts != []
    ensures forall t :: t in ts ==> NextExpired(ts) <= t.exp
    ensures exists t :: t in ts && t.exp == NextExpired(ts)
  {
    assert ts[0] in ts;
    forall t | t in ts ensures ts[0].exp <= t.exp {
      var i :| 0 <= i < |ts| && ts[i] == t;
      assert i == 0 || Less(ts[0], ts[i]);
    }
  }

  lemma NarrowCases(x: int)
    ensures -TWO_31 <= Narrow(x) < TWO_31
    ensures -TWO_31 <= x < TWO_31 ==> Narrow(x) == x
    ensures Narrow(x) == 0 <==> x % TWO_32 == 0
    ensures TWO_31 <= x ==> Narrow(x) < x
  {
  }

  lemma TruncDivCases(a: int)
    ensures 0 <= a ==> TruncDiv(a, TICKS_PER_MS) * TICKS_PER_MS <= a < (TruncDiv(a, TICKS_PER_MS) + 1) * TICKS_PER_MS
    ensures a < 0 ==> TruncDiv(a, TICKS_PER_MS) == -(-a / TICKS_PER_MS) <= 0
  {
  }

  /** Which deadlines the requested sleep is accurate for. */
  predicate InRange(deadline: int, now: int) {
    if now <= deadline then (deadline - now) / TICKS_PER_MS < TWO_31
    else ((now - deadline) / TICKS_PER_MS) % TWO_32 == 0
  }

  /**
   * The sleep of the code as written is accurate exactly for a deadline other
   * than the epoch that is not 2^31 ms or more away and not overdue by a whole
   * millisecond (or by a multiple of 2^32 of them, where narrowing yields 0).
   */
  lemma TimeoutExact(deadline: int, now: int)
    ensures Accurate(deadline, now, EpollTimeout(deadline, now)) <==> deadline != EPOCH && InRange(deadline, now)
  {
    var exp := MillisecondsFromNow(deadline, now);
    TruncDivCases(deadline - now);
    NarrowCases(exp);
    NarrowCases(-1);
    if now <= deadline {
      assert exp == (deadline - now) / TICKS_PER_MS;
    } else {
      NegativeMultiple((now - deadline) / TICKS_PER_MS);
    }
  }

  lemma NegativeMultiple(k: int)
    ensures (-k) % TWO_32 == 0 <==> k % TWO_32 == 0
  {
  }

  /** In nanoseconds: half a second ahead, none pending, 1 ms overdue, and 2^31 ms ahead. */
  lemma TimeoutValues()
    ensures EpollTimeout(1_500_000_000, 1_000_000_000) == 500
    ensures EpollTimeout(0, 1_000_000_000) == -1
    ensures EpollTimeout(999_000_000, 1_000_000_000) == -1
    ensures EpollTimeout(2_147_483_648_000_000 + 1, 1) == -2_147_483_648
  {
  }

  /** Which deadlines survive narrowing as "end by then": wrapped far ones included. */
  predicate Expressible(deadline: int, now: int) {
    if now <= deadline then ((deadline - now) / TICKS_PER_MS) % TWO_32 < TWO_31
    else ((now - deadline) / TICKS_PER_MS) % TWO_32 == 0
  }

  /** The sleep of the code as written ends by the deadline exactly for these. */
  lemma EndsInTimeExact(deadline: int, now: int)
    ensures EndsInTime(deadline, now, EpollTimeout(deadline, now)) <==> deadline != EPOCH && Expressible(deadline, now)
    ensures InRange(deadline, now) ==> Expressible(deadline, now)
  {
    var exp := MillisecondsFromNow(deadline, now);
    TruncDivCases(deadline - now);
    NarrowCases(exp);
    NarrowCases(-1);
    if now <= deadline {
      assert exp == (deadline - now) / TICKS_PER_MS;
      NarrowSign(exp);
    } else {
      NegativeMultiple((now - deadline) / TICKS_PER_MS);
    }
  }

  lemma NarrowSign(x: nat)
    ensures 0 <= Narrow(x) <==> x % TWO_32 < TWO_31
    ensures Narrow(x) <= x
  {
    var k, r := x / TWO_32, x % TWO_32;
    assert x + TWO_31 == k * TWO_32 + (r + TWO_31);
  }

  /**
   * Exactly when the loop is made to wait for an event although a timer is
   * pending: for a deadline that cannot be expressed, unless it is overdue by so
   * much that narrowing gives a positive timeout. So it is for every deadline
   * missed by at least a millisecond and at most 2^31 of them.
   */
  lemma OverdueBlocks(deadline: int, now: int)
    requires deadline != EPOCH
    ensures EpollTimeout(deadline, now) < 0
            <==> !Expressible(deadline, now)
                 && (now <= deadline || ((now - deadline) / TICKS_PER_MS) % TWO_32 <= TWO_31)
    ensures TICKS_PER_MS <= now - deadline && (now - deadline) / TICKS_PER_MS <= TWO_31
            ==> EpollTimeout(deadline, now) < 0
  {
    TruncDivCases(deadline - now);
    if now <= deadline {
      var ms: nat := (deadline - now) / TICKS_PER_MS;
      assert MillisecondsFromNow(deadline, now) == ms;
      NarrowSign(ms);
    } else {
      assert MillisecondsFromNow(deadline, now) == -((now - deadline) / TICKS_PER_MS);
      NarrowNegative((now - deadline) / TICKS_PER_MS);
    }
  }

  lemma NarrowNegative(k: int)
    requires 0 <= k
    ensures Narrow(-k) < 0 <==> 0 < k % TWO_32 <= TWO_31
  {
    var m, r := k / TWO_32, k % TWO_32;
    assert -k + TWO_31 == -m * TWO_32 + (TWO_31 - r);
    if TWO_31 < r {
      assert -k + TWO_31 == (-m - 1) * TWO_32 + (TWO_32 + TWO_31 - r);
    }
  }

  /** The clamped timeout never sleeps past a deadline, and is accurate whenever the argument can express it. */
  lemma ClampedExact(deadline: int, now: int)
    requires deadline != EPOCH
    ensures EndsInTime(deadline, now, EpollTimeoutClamped(deadline, now))
    ensures Accurate(deadline, now, EpollTimeoutClamped(deadline, now)) <==> deadline - now < TWO_31 * TICKS_PER_MS
    ensures InRange(deadline, now) ==> EpollTimeoutClamped(deadline, now) == EpollTimeout(deadline, now)
  {
    TruncDivCases(deadline - now);
    NarrowCases(MillisecondsFromNow(deadline, now));
    if now > deadline {
      NegativeMultiple((now - deadline) / TICKS_PER_MS);
    }
  }

  /**
   * For the whole queue: the sleep ends before any pending timer is late, and it
   * is unlimited only when there is no timer.
   */
  lemma SleepCoversQueue(ts: seq<Timer>, now: int)
    requires Sorted(ts) && (ts != [] ==> NextExpired(ts) != EPOCH && Expressible(NextExpired(ts), now))
    ensures EpollTimeout(NextExpired(ts), now) < 0 <==> ts == []
    ensures forall t :: t in ts ==> EndsInTime(t.exp, now, EpollTimeout(NextExpired(ts), now))
  {
    EndsInTimeExact(NextExpired(ts), now);
    NarrowCases(-1);
    if ts != [] {
      NextIsEarliest(ts);
    }
  }
}
