/**
  The retransmission timer of d1_lib.cc: a deadline kept as seconds and microseconds, a
  duration that doubles, and a count of expiries that gives up. The clock is a parameter.
 */
module DtlsTimer {
  import opened Bits
  import opened Options
  import opened DtlsSender

  const MTU_TIMEOUTS := 2       // DTLS1_MTU_TIMEOUTS
  const MAX_TIMEOUTS := 12      // DTLS1_MAX_TIMEOUTS
  const LONGEST := 60000        // milliseconds
  const SLACK := 15000          // microseconds
  const SECOND := 1000000       // microseconds
  const INT_MAX := 0x7FFF_FFFF
  const TWO_32 := 0x1_0000_0000

  datatype Timeval = Timeval(sec: nat, usec: nat) {
    predicate Normal() {
      usec < SECOND
    }

    function Micros(): nat {
      sec * SECOND + usec
    }
  }

  const ZERO := Timeval(0, 0)

  /** dtls1_double_timeout on a 32-bit duration. */
  function Doubled(duration: nat): nat {
    var d := duration * 2 % TWO_32;
    if d > LONGEST then LONGEST else d
  }

  /** The time left, in microseconds; little enough counts as none. */
  function Left(deadline: Timeval, now: Timeval): nat {
    if deadline.Micros() < now.Micros() + SLACK then 0 else deadline.Micros() - now.Micros()
  }

  class Timer {
    const initial: nat     // initial_timeout_duration_ms
    var next: Timeval      // next_timeout, zero if there is no timer
    var duration: nat      // timeout_duration_ms
    var count: nat         // num_timeouts

    predicate Valid()
      reads `next, `duration
    {
      initial < TWO_32 && duration < TWO_32 && next.Normal()
    }

    constructor (ms: nat)
      requires ms < TWO_32
      ensures Valid() && initial == ms && next == ZERO && count == 0 && duration == 0
    {
      initial, next, duration, count := ms, ZERO, 0, 0;
    }

    /** dtls1_start_timer: the deadline is the duration from now. */
    method Start(now: Timeval)
      requires Valid() && now.Normal()
      modifies `next, `duration
      ensures Valid() && duration == (if old(next) == ZERO then initial else old(duration))
      ensures next.Micros() == now.Micros() + duration * 1000
    {
      if next == ZERO { duration := initial; }
      var sec := now.sec + duration / 1000;
      var usec := now.usec + duration % 1000 * 1000;
      if usec >= SECOND {
        sec := sec + 1;
        usec := usec - SECOND;
      }
      next := Timeval(sec, usec);
    }

    /** dtls1_stop_timer. */
    method Stop()
      requires Valid()
      modifies `next, `duration, `count
      ensures Valid() && next == ZERO && count == 0 && duration == initial
    {
      count, next, duration := 0, ZERO, initial;
    }

    /** DTLSv1_get_timeout: none without a timer, else the time left, whose seconds fit an int. */
    method GetTimeout(now: Timeval) returns (left: Option<Timeval>)
      requires Valid() && now.Normal()
      ensures left.None? <==> next == ZERO
      ensures left.Some? ==> left.value.Normal()
      ensures left.Some? ==> if Left(next, now) / SECOND <= INT_MAX then left.value.Micros() == Left(next, now) else left.value.sec == INT_MAX
    {
      if next == ZERO { return None; }
      if next.sec < now.sec || (next.sec == now.sec && next.usec <= now.usec) { return Some(ZERO); }
      var sec := next.sec - now.sec;
      var usec;
      if next.usec >= now.usec {
        usec := next.usec - now.usec;
      } else {
        usec := SECOND + next.usec - now.usec;
        sec := sec - 1;
      }
      if sec == 0 && usec < SLACK { usec := 0; }
      if sec > INT_MAX { sec := INT_MAX; }
      return Some(Timeval(sec, usec));
    }

    /** dtls1_is_timer_expired: there is a timer and next to no time is left. */
    method IsExpired(now: Timeval) returns (expired: bool)
      requires Valid() && now.Normal()
      ensures expired <==> next != ZERO && next.Micros() < now.Micros() + SLACK
    {
      var left := GetTimeout(now);
      if left.None? { return false; }
      return left.value.sec == 0 && left.value.usec == 0;
    }

    /** dtls1_check_timeout_num, on the sender whose MTU it lowers. */
    method CheckTimeoutNum(sender: Sender, fallback: int) returns (ok: bool)
      requires Valid() && sender.Valid()
      modifies `count, sender`mtu
      ensures sender.Valid() && count == old(count) + 1 && (ok <==> count <= MAX_TIMEOUTS)
      ensures sender.mtu == if old(count) >= MTU_TIMEOUTS && sender.queryMtu && MIN_MTU <= fallback <= MAX_QUERIED_MTU
                            then fallback else old(sender.mtu)
    {
      count := count + 1;
      if count > MTU_TIMEOUTS { sender.ReduceMtu(fallback); }
      return count <= MAX_TIMEOUTS;
    }

    /** DTLSv1_handle_timeout. */
    method HandleTimeout(now: Timeval, sender: Sender, fallback: int, shutdown: bool, env: Env) returns (ret: int)
      requires Valid() && now.Normal() && sender.Valid()
      modifies this`next, this`duration, this`count
      modifies sender`written, sender`offset, sender`calls, sender`mtu, sender`network, sender`pass, sender`lost
      ensures Valid() && sender.Valid() && old(sender.network) <= sender.network
      ensures var expired := old(next) != ZERO && old(next).Micros() < now.Micros() + SLACK;
        if !expired then ret == 0 && next == old(next) && duration == old(duration) && count == old(count) && sender.network == old(sender.network)
        else if old(count) >= MAX_TIMEOUTS then ret == -1 && next == old(next) && count == old(count) + 1 && sender.network == old(sender.network)
        else count == old(count) + 1 && duration == Doubled(old(duration)) && next.Micros() == now.Micros() + duration * 1000
      ensures ret == 1 ==> sender.written == |sender.messages| && Carried(sender.messages, sender.pass, |sender.messages|, 0)
    {
      var expired := IsExpired(now);
      if !expired { return 0; }
      var ok := CheckTimeoutNum(sender, fallback);
      if !ok { return -1; }
      duration := Doubled(duration);
      Start(now);
      ret := sender.Retransmit(shutdown, env);
    }
  }

  // ------------------------------------------------------------------ consecutive expiries

  /** The duration after k expiries without progress. */
  function DurationAfter(initial: nat, k: nat): nat {
    if k == 0 then initial else Doubled(DurationAfter(initial, k - 1))
  }

  function Capped(duration: nat): nat {
    if duration > LONGEST then LONGEST else duration
  }

  /** It doubles each time up to a minute, as section 4.2.4.1 of RFC 6347 asks, exactly if the first
      duration is below 2^31 milliseconds or what it exceeds that by has doubled up to a minute. */
  lemma DoublesUpToAMinute(initial: nat, k: nat)
    requires initial < TWO_32 && k >= 1
    ensures DurationAfter(initial, k) <= LONGEST
    ensures DurationAfter(initial, k) == Capped(initial * Pow2(k)) <==>
      initial < TWO_32 / 2 || (initial - TWO_32 / 2) * Pow2(k) >= LONGEST
  {
    hide Doubled, Pow2, DurationAfter;
    if initial < TWO_32 / 2 {
      DoublesFromBelow(initial, k);
    } else {
      var rest := initial - TWO_32 / 2;
      WrapsOnce(initial);
      AfterFirst(initial, k);
      PowerStep(rest, k);
      PowerGrows(initial, k);
      PowerGrows(LONGEST, k - 1);
      if k == 1 {
        PowersOfTwo();
        NoneYet(Doubled(initial));
      } else {
        DoublesFromBelow(Doubled(initial), k - 1);
        if 2 * rest <= LONGEST { Associates(rest, Pow2(k - 1)); } else { Exceeds(rest, Pow2(k - 1)); }
      }
    }
  }

  lemma {:induction false} DoublesFromBelow(initial: nat, k: nat)
    requires initial < TWO_32 / 2 && k >= 1
    ensures DurationAfter(initial, k) == Capped(initial * Pow2(k))
  {
    hide Doubled, Pow2;
    if k == 1 {
      PowersOfTwo();
      assert DurationAfter(initial, 0) == initial;
      DoublingWraps(initial);
    } else {
      DoublesFromBelow(initial, k - 1);
      PowerStep(initial, k);
      DoublingWraps(DurationAfter(initial, k - 1));
    }
  }

  lemma {:induction false} AfterFirst(initial: nat, k: nat)
    requires k >= 1
    ensures DurationAfter(initial, k) == DurationAfter(Doubled(initial), k - 1)
  {
    hide Doubled;
    if k > 1 { AfterFirst(initial, k - 1); }
  }

  lemma NoneYet(duration: nat)
    ensures DurationAfter(duration, 0) == duration
  {
  }

  lemma WrapsOnce(duration: nat)
    requires TWO_32 / 2 <= duration < TWO_32
    ensures Doubled(duration) == Capped(2 * (duration - TWO_32 / 2)) < TWO_32 / 2
  {
    ModUnique(duration * 2, TWO_32, 1, duration * 2 - TWO_32);
  }

  lemma {:induction false} PowerGrows(n: nat, k: nat)
    ensures n * Pow2(k) >= n
  {
    if k > 0 {
      PowerGrows(n, k - 1);
      PowerStep(n, k);
    }
  }

  lemma Associates(n: nat, m: nat)
    ensures 2 * n * m == 2 * (n * m)
  {
  }

  lemma Exceeds(n: nat, m: nat)
    requires 2 * n > LONGEST && LONGEST * m >= LONGEST
    ensures 2 * (n * m) >= LONGEST
  {
    assert 2 * n * m >= LONGEST * m;
  }

  lemma PowersOfTwo()
    ensures Pow2(0) == 1 && Pow2(1) == 2
  {
  }

  lemma PowerStep(initial: nat, k: nat)
    requires k >= 1
    ensures initial * Pow2(k) == 2 * (initial * Pow2(k - 1))
  {
  }

  /** Doubling is the capped doubling of numbers exactly if no 32-bit wrap-around leaves less than
      the cap. */
  lemma DoublingWraps(duration: nat)
    requires duration < TWO_32
    ensures Doubled(duration) == (if duration * 2 > LONGEST then LONGEST else duration * 2) <==>
      duration < TWO_32 / 2 || duration >= TWO_32 / 2 + LONGEST / 2
  {
    if duration >= TWO_32 / 2 { ModUnique(duration * 2, TWO_32, 1, duration * 2 - TWO_32); }
  }
}
