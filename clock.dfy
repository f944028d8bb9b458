/** The firmware's millisecond clock: `millis()` returns an `unsigned long`, 32 bits wide on
    the ESP32, so it wraps after 2^32 ms and every `millis() - x` is unsigned subtraction. */
module Clock {

  const MODULUS: int := 0x1_0000_0000

  /** A value of `millis()` or of an `unsigned long` timestamp derived from it. */
  type Millis = x: int | 0 <= x < 0x1_0000_0000

  /** `now - since` in 32-bit unsigned arithmetic: the time between two readings of the clock,
      exact whenever they are less than one wrap-around apart. */
  function Elapsed(now: Millis, since: Millis): (d: Millis)
    ensures (since + d) % MODULUS == now
    ensures since <= now ==> d == now - since
    ensures now < since ==> d == MODULUS - (since - now)
  {
    (now - since) % MODULUS
  }

  /** Elapsed times measured from a common origin subtract: if `mid` was reached no later than
      `now`, the time from `mid` to `now` is the difference of their distances from `base`. */
  lemma ElapsedSplit(now: Millis, mid: Millis, base: Millis)
    requires Elapsed(mid, base) <= Elapsed(now, base)
    ensures Elapsed(now, mid) == Elapsed(now, base) - Elapsed(mid, base)
  {
  }
}
