/** apis/events/src/common/retry.rs */
module Retry {
  import opened Wrappers

  /** Delays in seconds. */
  datatype BackoffOptions = BackoffOptions(
    initDelay: nat,
    cutoff: u32,
    step: nat,
    maxDelay: nat,
    maxRetries: u32)

  const DEFAULT_OPTIONS := BackoffOptions(5, 4, 2, 10, 10)
  const PUBLISH_OPTIONS := BackoffOptions(5, 4, 2, 10, 10)

  /** The sleep before the `tries`-th retry, counted from 1. */
  function Delay(o: BackoffOptions, tries: nat): nat
    requires tries > 0
  {
    if tries <= o.cutoff then o.initDelay
    else Min(Stepped(o.initDelay, o.step, tries - o.cutoff - 1), o.maxDelay)
  }

  /** `start`, raised by `step` so many times. */
  function Stepped(start: nat, step: nat, times: nat): (r: nat)
    ensures r >= start
  {
    if times == 0 then start else Stepped(start, step, times - 1) + step
  }

  lemma {:induction false} SteppedIsProduct(start: nat, step: nat, times: nat)
    ensures Stepped(start, step, times) == start + times * step
  {
    if times > 0 {
      SteppedIsProduct(start, step, times - 1);
      assert times * step == (times - 1) * step + step;
    }
  }

  function Min(a: nat, b: nat): nat {
    if a <= b then a else b
  }

  /** The sleeps before retries `done + 1` to `last`, added up. */
  function TotalDelay(o: BackoffOptions, done: nat, last: nat): nat
    requires done <= last
    decreases last - done
  {
    if done == last then 0 else Delay(o, done + 1) + TotalDelay(o, done + 1, last)
  }

  /**
   * "Gets gradually larger up to a max duration" is true of a schedule exactly when
   * its initial delay is not above the maximum, or is never used on its own.
   */
  lemma DelaysGrowUpToMax(o: BackoffOptions)
    ensures (forall i: nat, j: nat | 0 < i <= j :: Delay(o, i) <= Delay(o, j) <= o.maxDelay)
            <==> o.cutoff == 0 || o.initDelay <= o.maxDelay
  {
    if o.cutoff == 0 || o.initDelay <= o.maxDelay {
      forall i: nat, j: nat | 0 < i <= j ensures Delay(o, i) <= Delay(o, j) <= o.maxDelay {
        if i > o.cutoff {
          StepsGrow(o.initDelay, o.step, i - o.cutoff - 1, j - o.cutoff - 1);
        }
      }
    } else {
      assert Delay(o, 1) > o.maxDelay;
      assert !(Delay(o, 1) <= Delay(o, 1) <= o.maxDelay);
    }
  }

  /** The delay stays as it is up to the cutoff; then it starts again, capped, and rises by a step each time. */
  lemma DelayRises(o: BackoffOptions, tries: nat)
    requires tries > 0
    ensures Delay(o, 1) == if o.cutoff > 0 then o.initDelay else Min(o.initDelay, o.maxDelay)
    ensures tries < o.cutoff ==> Delay(o, tries + 1) == Delay(o, tries)
    ensures tries == o.cutoff ==> Delay(o, tries + 1) == Min(Delay(o, tries), o.maxDelay)
    ensures tries > o.cutoff ==> Delay(o, tries + 1) == Min(Delay(o, tries) + o.step, o.maxDelay)
  {
  }

  /** The shipped delays, for publishing and for everything else. */
  lemma ShippedDelays(o: BackoffOptions, tries: nat)
    requires o == DEFAULT_OPTIONS || o == PUBLISH_OPTIONS
    requires tries > 0
    ensures o.maxRetries == 10
    ensures Delay(o, tries) == if tries <= 5 then 5 else if tries == 6 then 7 else if tries == 7 then 9 else 10
  {
    if tries > o.cutoff {
      SteppedIsProduct(o.initDelay, o.step, tries - o.cutoff - 1);
    }
  }

  /** An initial delay above the maximum is used as it is. */
  lemma DelayAboveMax()
    ensures var o := BackoffOptions(20, 1, 2, 10, 3); Delay(o, 1) == 20 > o.maxDelay && Delay(o, 2) == 10
  {
  }

  lemma {:induction false} StepsGrow(start: nat, step: nat, i: nat, j: nat)
    requires i <= j
    ensures Stepped(start, step, i) <= Stepped(start, step, j)
  {
    if i < j {
      StepsGrow(start, step, i, j - 1);
    }
  }

  /** The full default schedule: four initial delays, then 5, 7, 9 and three times 10. */
  lemma DefaultSchedule()
    ensures TotalDelay(DEFAULT_OPTIONS, 0, 10) == 71
    ensures forall t: nat | 0 < t :: Delay(PUBLISH_OPTIONS, t) <= 10
  {
  }
}
