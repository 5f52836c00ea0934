/** Absolute deadlines for the timed waits (ccsem.c, cccondvar.c).  Seconds are taken not to overflow. */
module Deadline {

  const NSEC_PER_SEC := 1_000_000_000
  const NSEC_PER_MSEC := 1_000_000
  const UINT32_LIMIT := 0x1_0000_0000
  const INT32_LIMIT := 0x8000_0000

  datatype Timespec = Timespec(sec: nat, nsec: nat)

  predicate Normalised(t: Timespec)
  {
    t.nsec < NSEC_PER_SEC
  }

  function Nanos(t: Timespec): nat
  {
    t.sec * NSEC_PER_SEC + t.nsec
  }

  /** The normalised reading of a clock that counts nanoseconds. */
  function Reading(nanos: nat): (t: Timespec)
    ensures Normalised(t) && Nanos(t) == nanos
  {
    Timespec(nanos / NSEC_PER_SEC, nanos % NSEC_PER_SEC)
  }

  /** A normalised timespec is determined by its total, so deadlines computed in different places agree. */
  lemma TotalDetermines(a: Timespec, b: Timespec)
    requires Normalised(a) && Normalised(b) && Nanos(a) == Nanos(b)
    ensures a == b
  {
  }

  /** The clock reading moved forward by the timeout; the in-place additions and the single carry.  `widest` is the
      largest value the nanosecond field held on the way. */
  method DeadlineAfter(now: Timespec, timeoutMs: nat) returns (deadline: Timespec, widest: nat)
    requires Normalised(now) && timeoutMs < UINT32_LIMIT
    ensures Normalised(deadline)
    ensures Nanos(deadline) == Nanos(now) + timeoutMs * NSEC_PER_MSEC
    ensures deadline == Reading(Nanos(now) + timeoutMs * NSEC_PER_MSEC)
    ensures widest == now.nsec + timeoutMs % 1000 * NSEC_PER_MSEC < INT32_LIMIT
  {
    var sec, nsec := now.sec, now.nsec;
    sec := sec + timeoutMs / 1000;
    nsec := nsec + timeoutMs % 1000 * NSEC_PER_MSEC;
    widest := nsec;
    if nsec >= NSEC_PER_SEC {
      sec := sec + 1;
      nsec := nsec - NSEC_PER_SEC;
    }
    deadline := Timespec(sec, nsec);
    assert timeoutMs == timeoutMs / 1000 * 1000 + timeoutMs % 1000;
    TotalDetermines(deadline, Reading(Nanos(now) + timeoutMs * NSEC_PER_MSEC));
  }

  /** Lexicographic comparison, as the timed waits compare an absolute time with the clock. */
  predicate AtOrBefore(a: Timespec, b: Timespec)
  {
    a.sec < b.sec || (a.sec == b.sec && a.nsec <= b.nsec)
  }

  /** On normalised values the fieldwise order is the order of totals. */
  lemma OrderIsTotalOrder(a: Timespec, b: Timespec)
    requires Normalised(a) && Normalised(b)
    ensures AtOrBefore(a, b) <==> Nanos(a) <= Nanos(b)
  {
  }

  /** A later clock or a longer timeout never gives an earlier deadline. */
  lemma DeadlineMonotone(now: Timespec, later: Timespec, ms: nat, moreMs: nat)
    requires Normalised(now) && Normalised(later) && AtOrBefore(now, later) && ms <= moreMs
    ensures AtOrBefore(Reading(Nanos(now) + ms * NSEC_PER_MSEC), Reading(Nanos(later) + moreMs * NSEC_PER_MSEC))
  {
    OrderIsTotalOrder(now, later);
    OrderIsTotalOrder(Reading(Nanos(now) + ms * NSEC_PER_MSEC), Reading(Nanos(later) + moreMs * NSEC_PER_MSEC));
  }
}
