/**
 * The pause `run_forever` takes after each cycle so that cycles start
 * about every 15 seconds.  Durations are whole nanoseconds, as Rust's
 * `Duration` counts them.
 */
module Schedule {
  import opened Wrappers

  /** The target period, 15 s. */
  const Period: nat := 15 * 1_000_000_000

  /**
   * The pause as written: `Duration::from_secs(15) - start.elapsed()`.
   * Subtracting a longer `Duration` from a shorter one panics, which is
   * `None` here.
   */
  function SleepAsWritten(elapsed: nat): Option<nat>
  {
    if elapsed <= Period then Some(Period - elapsed) else None
  }

  /** A cycle that took one nanosecond longer than the period makes the subtraction panic. */
  lemma SleepAsWrittenPanics()
    ensures SleepAsWritten(Period + 1) == None
    ensures forall elapsed: nat :: SleepAsWritten(elapsed).None? <==> elapsed > Period
  {
  }

  /**
   * The intended pause: the rest of the period, or no pause at all when
   * the cycle overran it (the next cycle starts at once).
   */
  function Sleep(elapsed: nat): (d: nat)
    ensures d <= Period
    ensures elapsed <= Period ==> elapsed + d == Period
    ensures elapsed >= Period ==> d == 0
  {
    if elapsed <= Period then Period - elapsed else 0
  }

  /** Wherever the written pause does not panic, it is the intended one. */
  lemma SleepAgrees(elapsed: nat)
    ensures SleepAsWritten(elapsed).Some? ==> SleepAsWritten(elapsed).value == Sleep(elapsed)
    ensures SleepAsWritten(elapsed).None? ==> Sleep(elapsed) == 0
  {
  }
}
