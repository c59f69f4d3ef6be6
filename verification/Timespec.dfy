/** Times of the event loop: pairs of seconds and nanoseconds, compared the way
    the event loop and the client's timeout code compare and add them. */
module Timespecs {

  const NSEC_PER_SEC := 1_000_000_000

  datatype Timespec = Timespec(sec: int, nsec: int)

  const ZERO := Timespec(0, 0)

  ghost predicate Normal(t: Timespec) {
    0 <= t.nsec < NSEC_PER_SEC
  }

  ghost function Nanoseconds(t: Timespec): int {
    t.sec * NSEC_PER_SEC + t.nsec
  }

  /** The event loop's comparison: seconds first, then nanoseconds. */
  predicate TimeLt(a: Timespec, b: Timespec) {
    if a.sec != b.sec then a.sec < b.sec else a.nsec < b.nsec
  }

  predicate AtMost(a: Timespec, b: Timespec) {
    !TimeLt(b, a)
  }

  /** On normalised times the field-wise comparison is the order of the instants. */
  lemma TimeLtIsInstantOrder(a: Timespec, b: Timespec)
    requires Normal(a) && Normal(b)
    ensures TimeLt(a, b) <==> Nanoseconds(a) < Nanoseconds(b)
  {
  }

  /** The deadline of a timer armed at `now` with a delay in milliseconds. */
  function Deadline(now: Timespec, msDelay: int): (d: Timespec)
    requires msDelay > 0
    ensures Nanoseconds(d) == Nanoseconds(now) + msDelay * 1_000_000
    ensures Normal(now) ==> Normal(d)
    ensures Normal(now) ==> TimeLt(now, d)
  {
    var nsec := now.nsec + (msDelay % 1000) * 1_000_000;
    var sec := now.sec + msDelay / 1000;
    if nsec >= NSEC_PER_SEC then Timespec(sec + 1, nsec - NSEC_PER_SEC) else Timespec(sec, nsec)
  }

  /** `timespec_add`, whose carry test is strict. */
  function TimespecAdd(a: Timespec, b: Timespec): Timespec {
    var sec := a.sec + b.sec;
    var nsec := a.nsec + b.nsec;
    if nsec > NSEC_PER_SEC then Timespec(sec + 1, nsec - NSEC_PER_SEC) else Timespec(sec, nsec)
  }

  /** The sum is always the right instant, and it is normalised exactly when the
      nanosecond parts do not add up to one full second. */
  lemma TimespecAddNormalIff(a: Timespec, b: Timespec)
    requires Normal(a) && Normal(b)
    ensures Nanoseconds(TimespecAdd(a, b)) == Nanoseconds(a) + Nanoseconds(b)
    ensures Normal(TimespecAdd(a, b)) <==> a.nsec + b.nsec != NSEC_PER_SEC
  {
  }

  /** Two normalised half seconds add up to a value that is not normalised. */
  lemma TimespecAddHalves()
    ensures var half := Timespec(0, 500_000_000);
            Normal(half) && TimespecAdd(half, half) == Timespec(0, NSEC_PER_SEC)
  {
  }
}
