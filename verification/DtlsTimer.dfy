/** The retransmission timer of DTLS (section 4.2.4.1 of RFC 6347): doubling, capped, and given up in the end. */
module DtlsTimer {
  import opened Prelude
  import opened Bits

  const SECOND := 1_000_000
  const MAX_DURATION := 60_000
  const MAX_TIMEOUTS := 12
  const MTU_TIMEOUTS := 2
  const MIN_MTU := 228
  const SLACK := 15_000

  datatype Time = Time(sec: nat, usec: nat)

  predicate Normal(t: Time) {
    t.usec < SECOND
  }

  /** A time in microseconds. */
  function Micros(t: Time): nat {
    t.sec * SECOND + t.usec
  }

  const UNSET := Time(0, 0)

  function Doubled(duration: nat): nat {
    if duration * 2 > MAX_DURATION then MAX_DURATION else duration * 2
  }

  /** The duration after `k` expiries in a row. */
  function After(initial: nat, k: nat): nat {
    if k == 0 then initial else Doubled(After(initial, k - 1))
  }

  /** The backoff is exponential up to the cap. */
  lemma {:induction false} Backoff(initial: nat, k: nat)
    requires 1 <= initial <= 60_000
    ensures After(initial, k) == if initial * Pow2(k) > 60_000 then 60_000 else initial * Pow2(k)
    ensures initial * Pow2(k) >= 1
    decreases k
  {
    hide Pow2;
    Doubling(if k == 0 then 0 else k - 1);
    if k > 0 {
      Backoff(initial, k - 1);
      Twice(initial, Pow2(k - 1));
    }
  }

  lemma Twice(a: nat, p: nat)
    ensures a * (2 * p) == 2 * (a * p)
  {
  }

  lemma Doubling(n: nat)
    ensures Pow2(n + 1) == 2 * Pow2(n) && Pow2(0) == 1
  {
  }

  /** One more expiry. */
  lemma Next(initial: nat, k: nat)
    requires 1 <= initial <= MAX_DURATION && k >= 1
    ensures 1 <= After(initial, k - 1) && After(initial, k) == Doubled(After(initial, k - 1))
    ensures TotalWait(initial, k) == TotalWait(initial, k - 1) + After(initial, k)
  {
    hide Pow2;
    Backoff(initial, k - 1);
  }

  /** The time armed in all, in milliseconds, by a start and `k` restarts. */
  function TotalWait(initial: nat, k: nat): nat {
    After(initial, k) + (if k == 0 then 0 else TotalWait(initial, k - 1))
  }

  /**
   Exactly: the first `c` durations double, and from there on each is the cap. The first `c` are those that
   are not above the cap uncut.
   */
  lemma {:induction false} WaitSum(initial: nat, k: nat, c: nat)
    requires 1 <= initial <= 60_000 && 1 <= c <= k + 1
    requires initial * Pow2(c - 1) <= 60_000 && (c <= k ==> initial * Pow2(c) > 60_000)
    ensures TotalWait(initial, k) == initial * (Pow2(c) - 1) + (k + 1 - c) * 60_000
    decreases k
  {
    hide Pow2, After, TotalWait, Doubled;
    Backoff(initial, k);
    Doubling(0);
    if k == 0 {
      OneWait(initial);
      Doubling(c - 1);
    } else {
      Next(initial, k);
      if c == k + 1 {
        Doubling(k);
        Doubling(k - 1);
        Twice(initial, Pow2(k - 1));
        WaitSum(initial, k - 1, k);
        LastTerm(initial, Pow2(k));
      } else {
        Pow2Monotone(c, k);
        MulLess(initial, Pow2(c), Pow2(k));
        WaitSum(initial, k - 1, c);
      }
    }
  }

  lemma OneWait(initial: nat)
    ensures TotalWait(initial, 0) == initial
  {
  }

  lemma LastTerm(a: nat, p: nat)
    requires p >= 1
    ensures a * (2 * p - 1) == a * (p - 1) + a * p
  {
  }

  lemma MulLess(a: nat, p: nat, q: nat)
    requires p <= q
    ensures a * p <= a * q
  {
  }

  /** However often it is restarted before it gives up, the timer is armed for at most thirteen minutes. */
  lemma {:induction false} WaitBound(initial: nat, k: nat)
    requires 1 <= initial <= MAX_DURATION
    ensures TotalWait(initial, k) <= (k + 1) * 60_000
    ensures k <= 12 ==> TotalWait(initial, k) <= 13 * 60_000
    decreases k
  {
    Backoff(initial, k);
    if k > 0 {
      WaitBound(initial, k - 1);
    }
  }

  /** What handling a timeout came to. */
  datatype Handled = NotExpired | GivenUp | Retransmit

  class Timer {
    const initialDuration: nat
    const noQuery: bool
    var next: Time
    var duration: nat
    var timeouts: nat
    var mtu: nat
    ghost var armedAt: nat
    ghost var waited: nat

    /**
     While set, the timer shows the time it was armed plus its duration, which follows from the expiries so far,
     and so does all that has been armed for by a start and those expiries.
     */
    ghost predicate Valid()
      reads this
    {
      && 1 <= initialDuration <= MAX_DURATION && Normal(next) && timeouts <= MAX_TIMEOUTS
      && (next == UNSET ==> timeouts == 0)
      && (next != UNSET ==>
            && duration == After(initialDuration, timeouts) && Micros(next) == armedAt + duration * 1000
            && waited == TotalWait(initialDuration, timeouts))
    }

    constructor (initialDuration: nat, noQuery: bool, mtu: nat)
      requires 1 <= initialDuration <= MAX_DURATION
      ensures Valid() && next == UNSET && this.initialDuration == initialDuration && this.noQuery == noQuery && this.mtu == mtu
    {
      this.initialDuration, this.noQuery, this.mtu := initialDuration, noQuery, mtu;
      next, duration, timeouts, armedAt, waited := UNSET, initialDuration, 0, 0, 0;
    }

    /** Sets the timer from now on, to the initial duration if it was not set. */
    method Start(now: Time)
      requires Normal(now) && initialDuration >= 1 && (next != UNSET ==> duration >= 1)
      modifies this`next, this`duration, this`armedAt, this`waited
      ensures old(Valid()) ==> Valid()
      ensures waited == if old(next) == UNSET then initialDuration else old(waited)
      ensures duration == if old(next) == UNSET then initialDuration else old(duration)
      ensures Normal(next) && next != UNSET
      ensures armedAt == Micros(now) && Micros(next) == Micros(now) + duration * 1000
    {
      if next == UNSET {
        duration := initialDuration;
        waited := initialDuration;
      }
      var sec := now.sec + duration / 1000;
      var usec := now.usec + duration % 1000 * 1000;
      if usec >= SECOND {
        sec := sec + 1;
        usec := usec - SECOND;
      }
      next := Time(sec, usec);
      armedAt := Micros(now);
    }

    method Stop()
      requires Valid()
      modifies this
      ensures Valid() && next == UNSET && timeouts == 0 && duration == initialDuration && mtu == old(mtu)
    {
      timeouts := 0;
      next := UNSET;
      duration := initialDuration;
    }

    /** The time left: none if no timer is set; zero if it has expired or would within fifteen milliseconds. */
    method GetTimeout(now: Time) returns (left: Option<Time>)
      requires Valid() && Normal(now)
      ensures left.None? <==> next == UNSET
      ensures left.Some? ==>
                var rest := Micros(next) - Micros(now);
                Normal(left.value) && Micros(left.value) == if rest < 15_000 then 0 else rest
    {
      if next == UNSET {
        return None;
      }
      if next.sec < now.sec || (next.sec == now.sec && next.usec <= now.usec) {
        return Some(Time(0, 0));
      }
      var sec := next.sec - now.sec;
      var usec: nat;
      if next.usec >= now.usec {
        usec := next.usec - now.usec;
      } else {
        usec := SECOND + next.usec - now.usec;
        sec := sec - 1;
      }
      if sec == 0 && usec < SLACK {
        usec := 0;
      }
      return Some(Time(sec, usec));
    }

    method IsExpired(now: Time) returns (expired: bool)
      requires Valid() && Normal(now)
      ensures expired <==> next != UNSET && Micros(next) < Micros(now) + 15_000
    {
      var left := GetTimeout(now);
      return left.Some? && left.value == Time(0, 0);
    }

    /**
     Counts an expiry: the thirteenth in a row gives up; any other doubles the duration up to the cap and
     arms the timer again. The MTU falls back after the second.
     */
    method HandleTimeout(now: Time, fallbackMtu: int) returns (r: Handled)
      requires Valid() && Normal(now)
      modifies this
      ensures r != GivenUp ==> Valid()
      ensures r == NotExpired <==> old(next) == UNSET || Micros(old(next)) >= Micros(now) + 15_000
      ensures r == NotExpired ==> next == old(next) && timeouts == old(timeouts) && duration == old(duration)
      ensures r == GivenUp ==> old(timeouts) == 12 && waited == TotalWait(initialDuration, 12)
      ensures r == Retransmit ==> waited == old(waited) + After(initialDuration, timeouts)
      ensures r == Retransmit ==> timeouts == old(timeouts) + 1 <= 12
      ensures r == Retransmit ==> armedAt == Micros(now) && Micros(next) == Micros(now) + After(initialDuration, timeouts) * 1000
      ensures mtu == if r != NotExpired && old(timeouts) >= 2 && !noQuery && 228 <= fallbackMtu <= 0x4000_0000
                     then fallbackMtu else old(mtu)
    {
      hide After, TotalWait;
      var expired := IsExpired(now);
      if !expired {
        return NotExpired;
      }
      timeouts := timeouts + 1;
      if timeouts > MTU_TIMEOUTS && !noQuery {
        if 0 <= fallbackMtu <= 0x4000_0000 && fallbackMtu >= MIN_MTU {
          mtu := fallbackMtu;
        }
      }
      if timeouts > MAX_TIMEOUTS {
        return GivenUp;
      }
      duration := duration * 2;
      if duration > MAX_DURATION {
        duration := MAX_DURATION;
      }
      Next(initialDuration, timeouts);
      waited := waited + duration;
      Start(now);
      return Retransmit;
    }
  }
}
