/** The timed waits of osMutexAcquire by themselves: how often they poll, how long they ask to be delayed,
    and for which timeouts their 32-bit sums work. */
module Polling {
  import opened Numbers
  import opened MutexProtocol

  /** The largest timeout whose rounding up to whole periods stays below 2^32. */
  const LAST_GOOD: nat := 4294960000

  /** The largest multiple of 16 below 2^32. */
  const LAST_EVER: nat := 4294967280

  /** all_time after k polls, in 32 bits. */
  function AllTime(timeout: nat, k: nat): nat { (k * Period(timeout)) % UINT32 }

  /** timeout divided by the period, rounded up. */
  function Polls(timeout: nat): nat
    requires timeout > 0
  {
    (timeout + Period(timeout) - 1) / Period(timeout)
  }

  lemma AddPeriod(timeout: nat, k: nat)
    ensures AllTime(timeout, k + 1) == (AllTime(timeout, k) + Period(timeout)) % UINT32
  {
    assert (k + 1) * Period(timeout) == k * Period(timeout) + Period(timeout);
    AddPast(k * Period(timeout), Period(timeout));
  }

  lemma AddPast(a: nat, b: nat)
    ensures (a % UINT32 + b) % UINT32 == (a + b) % UINT32
  {
    assert a + b == a / UINT32 * UINT32 + (a % UINT32 + b);
  }

  /** For the timeouts up to the last good one the sum first reaches the timeout at the rounded-up
      number of polls, less than one period late. */
  lemma GoodTimeout(timeout: nat)
    requires 0 < timeout <= LAST_GOOD
    ensures forall k: nat :: k < Polls(timeout) ==> AllTime(timeout, k) < timeout
    ensures AllTime(timeout, Polls(timeout)) == Polls(timeout) * Period(timeout)
    ensures timeout <= Polls(timeout) * Period(timeout) < timeout + Period(timeout)
  {
    if timeout <= WAIT_PERIOD { ShortTimeout(timeout); } else { LongTimeout(timeout); }
  }

  /** Up to one period: a single poll. */
  lemma ShortTimeout(timeout: nat)
    requires 0 < timeout <= WAIT_PERIOD
    ensures Polls(timeout) == 1 && AllTime(timeout, 0) == 0 && AllTime(timeout, 1) == timeout
  {
    assert timeout + timeout - 1 == timeout * 1 + (timeout - 1);
    assert (timeout + timeout - 1) / timeout == 1;
  }

  lemma LongTimeout(timeout: nat)
    requires WAIT_PERIOD < timeout <= LAST_GOOD
    ensures forall k: nat :: k <= Polls(timeout) ==> AllTime(timeout, k) == k * WAIT_PERIOD
    ensures timeout <= Polls(timeout) * WAIT_PERIOD < timeout + WAIT_PERIOD
  {
  }

  /** From the next timeout on the sum wraps before it gets there. */
  lemma WrappingTimeout(timeout: nat)
    requires LAST_GOOD < timeout < WAIT_FOREVER
    ensures forall k: nat :: k <= Polls(timeout) ==> AllTime(timeout, k) < timeout
  {
  }

  /** A wait that never finds the CSR free gives up within the rounded-up number of polls exactly for
      timeouts up to 4294960000. */
  lemma GivesUpInTimeExactly(timeout: nat)
    requires 0 < timeout < WAIT_FOREVER
    ensures (exists k: nat :: 0 < k <= Polls(timeout) && AllTime(timeout, k) >= timeout) <==> timeout <= LAST_GOOD
  {
    if timeout <= LAST_GOOD { GoodTimeout(timeout); } else { WrappingTimeout(timeout); }
  }

  /** The sums are multiples of 16 once the period is full, so they never pass the last one below 2^32. */
  lemma MultipleOf16(timeout: nat, k: nat)
    requires timeout > WAIT_PERIOD
    ensures AllTime(timeout, k) <= LAST_EVER
  {
    var q := k * WAIT_PERIOD / UINT32;
    SixteenDivides(625 * k, q, AllTime(timeout, k));
  }

  lemma SixteenDivides(m: nat, q: nat, r: nat)
    requires 16 * m == UINT32 * q + r && r < UINT32
    ensures r <= LAST_EVER
  {
    assert r == 16 * (m - 0x1000_0000 * q);
  }

  /** A wait that never finds the CSR free gives up at all exactly for timeouts up to 4294967280; between
      the two bounds it may take 84181359 polls. */
  lemma GivesUpEverExactly(timeout: nat)
    requires 0 < timeout < WAIT_FOREVER
    ensures (exists k: nat :: 0 < k && AllTime(timeout, k) >= timeout) <==> timeout <= LAST_EVER
  {
    if timeout <= LAST_GOOD {
      GivesUpInTimeExactly(timeout);
    } else if timeout <= LAST_EVER {
      assert AllTime(timeout, 84181359) == LAST_EVER;
    } else {
      forall k: nat ensures AllTime(timeout, k) < timeout { MultipleOf16(timeout, k); }
    }
  }

  /** all_time += time_period. */
  method Sum(timeout: nat, ghost polls: nat, all: nat) returns (sum: nat)
    requires all == AllTime(timeout, polls)
    ensures sum == AddTime(all, timeout) == AllTime(timeout, polls + 1)
  {
    AddPeriod(timeout, polls);
    var timePeriod := if timeout > WAIT_PERIOD then WAIT_PERIOD else timeout;
    sum := (all + timePeriod) % UINT32;
  }

  /** What is known of the sum after the next poll. */
  lemma NextPoll(timeout: nat, k: nat)
    requires 0 < timeout < WAIT_FOREVER
    ensures (k + 1) * Period(timeout) == k * Period(timeout) + Period(timeout)
    ensures timeout <= LAST_GOOD && k + 1 < Polls(timeout) ==> AllTime(timeout, k + 1) < timeout
    ensures timeout <= LAST_GOOD && k + 1 == Polls(timeout) ==>
              AllTime(timeout, k + 1) >= timeout && timeout <= (k + 1) * Period(timeout) < timeout + Period(timeout)
    ensures timeout > LAST_GOOD && k + 1 <= Polls(timeout) ==> AllTime(timeout, k + 1) < timeout
    ensures timeout > LAST_EVER ==> AllTime(timeout, k + 1) < timeout
  {
    if timeout <= LAST_GOOD { GoodTimeout(timeout); } else { WrappingTimeout(timeout); }
    if timeout > LAST_EVER { MultipleOf16(timeout, k + 1); }
  }

  /** The polling loop; csr[k] says whether the k-th swap finds the CSR free, and the run ends with csr. */
  method PollAcquire(timeout: nat, csr: seq<bool>) returns (r: Result, polls: nat, delayed: nat)
    requires 0 < timeout < WAIT_FOREVER
    ensures r == None || r == OsOK || r == OsErrorTimeout
    ensures polls <= |csr| && delayed == polls * Period(timeout)
    ensures r == OsOK ==> polls > 0 && csr[polls - 1] && forall j :: 0 <= j < polls - 1 ==> !csr[j]
    ensures r != OsOK ==> forall j :: 0 <= j < polls ==> !csr[j]
    ensures r == None ==> polls == |csr| && (timeout <= LAST_GOOD ==> polls < Polls(timeout))
    ensures timeout <= LAST_GOOD ==> polls <= Polls(timeout)
    ensures timeout <= LAST_GOOD && r == OsErrorTimeout ==>
              polls == Polls(timeout) && timeout <= delayed < timeout + Period(timeout)
    ensures timeout > LAST_GOOD && r == OsErrorTimeout ==> polls > Polls(timeout)
    ensures timeout > LAST_EVER ==> r != OsErrorTimeout
  {
    var timePeriod := Period(timeout);
    var allTime := 0;
    polls, delayed := 0, 0;
    while polls < |csr|
      invariant polls <= |csr| && delayed == polls * timePeriod && allTime == AllTime(timeout, polls) < timeout
      invariant forall j :: 0 <= j < polls ==> !csr[j]
      invariant timeout <= LAST_GOOD ==> polls < Polls(timeout)
    {
      NextPoll(timeout, polls);
      delayed := delayed + timePeriod;
      if csr[polls] {
        return OsOK, polls + 1, delayed;
      }
      allTime := Sum(timeout, polls, allTime);
      polls := polls + 1;
      if allTime >= timeout {
        return OsErrorTimeout, polls, delayed;
      }
    }
    return None, polls, delayed;
  }

  // ---------- the spinning wait ----------

  /** The two times lie in one round of the 32-bit clock. */
  predicate SameRound(a: nat, b: nat) {
    a / UINT32 == b / UINT32
  }

  /** get_time() < timeout + ctime, the sum and the clock in 32 bits. */
  predicate GoesOn(timeout: nat, start: nat, now: nat) {
    now % UINT32 < (timeout + start % UINT32) % UINT32
  }

  /** For as long as the clock takes to go round once, the test means "before start + timeout" if and only
      if the look and that sum lie in one round of the clock. */
  lemma GoesOnExactly(timeout: nat, start: nat, now: nat)
    requires 0 < timeout < WAIT_FOREVER && start <= now < start + UINT32
    ensures (GoesOn(timeout, start, now) <==> now < start + timeout) <==> SameRound(now, start + timeout)
  {
    var end := start + timeout;
    assert timeout + start % UINT32 == end - UINT32 * (start / UINT32);
    assert (timeout + start % UINT32) % UINT32 == end % UINT32;
    assert now == UINT32 * (now / UINT32) + now % UINT32 && end == UINT32 * (end / UINT32) + end % UINT32;
  }

  /** Both ways to fail: the sum lies in the next round and the wait is over at once; the sum lies in this
      round, the first look after it in the next, and the wait goes on. */
  lemma GoesOnFails(timeout: nat, start: nat, now: nat)
    requires 0 < timeout < WAIT_FOREVER && start <= now < start + UINT32 && !SameRound(now, start + timeout)
    ensures GoesOn(timeout, start, now) <==> start + timeout <= now
    ensures GoesOn(timeout, start, now) <==> now / UINT32 > (start + timeout) / UINT32
  {
    GoesOnExactly(timeout, start, now);
  }

  /** A wait begun at 0 whose time is up at 4294967290: a look 10 ns before it, and one 90 ns after it, by
      which the clock has wrapped. Both go on. */
  lemma SpinsPastItsTime()
    ensures GoesOn(4294967290, 0, 4294967280) && GoesOn(4294967290, 0, 4294967380)
  {
  }

  /** The spinning loop, begun at time start: swap number k finds csr[k] and the clock is then read at
      looks[k]. The wait ends at the first look that does not go on; while the clock goes round once, the
      time is up then, and was not at any look before, as far as the look and the sum lie in one round. */
  method SpinAcquire(timeout: nat, start: nat, csr: seq<bool>, looks: seq<nat>) returns (r: Result, swaps: nat)
    requires 0 < timeout < WAIT_FOREVER && |csr| == |looks|
    requires forall k :: 0 <= k < |looks| ==> start <= looks[k]
    ensures r == None || r == OsOK || r == OsErrorTimeout
    ensures swaps <= |csr| && (if r == None then swaps == |csr| else swaps > 0)
    ensures r == OsOK ==> csr[swaps - 1] && forall k :: 0 <= k < swaps - 1 ==> !csr[k]
    ensures r != OsOK ==> forall k :: 0 <= k < swaps ==> !csr[k]
    ensures forall k :: 0 <= k < swaps && (k < swaps - 1 || r == None) ==> GoesOn(timeout, start, looks[k])
    ensures r == OsErrorTimeout ==> !GoesOn(timeout, start, looks[swaps - 1])
    ensures forall k :: 0 <= k < swaps && (k < swaps - 1 || r == None) && looks[k] < start + UINT32 ==>
              (looks[k] < start + timeout <==> SameRound(looks[k], start + timeout))
    ensures r == OsErrorTimeout && looks[swaps - 1] < start + UINT32 ==>
              (start + timeout <= looks[swaps - 1] <==> SameRound(looks[swaps - 1], start + timeout))
  {
    swaps := 0;
    while swaps < |csr|
      invariant swaps <= |csr|
      invariant forall k :: 0 <= k < swaps ==> !csr[k] && GoesOn(timeout, start, looks[k])
      invariant forall k :: 0 <= k < swaps && looks[k] < start + UINT32 ==>
                  (looks[k] < start + timeout <==> SameRound(looks[k], start + timeout))
    {
      var now := looks[swaps];
      if now < start + UINT32 { GoesOnExactly(timeout, start, now); }
      swaps := swaps + 1;
      if csr[swaps - 1] {
        return OsOK, swaps;
      }
      if !GoesOn(timeout, start, now) {
        return OsErrorTimeout, swaps;
      }
    }
    return None, swaps;
  }
}
