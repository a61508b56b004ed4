/** The hop timeline's grid: how wide a bucket is for a window, and why no window the
    timeline serves touches more buckets than the row cap is derived from. Durations and
    instants are nanoseconds, instants from the epoch on. */
module HopGrid {
  const SECOND: nat := 1_000_000_000
  const MINUTE: nat := 60 * SECOND
  const HOUR: nat := 60 * MINUTE
  const MAX_WINDOW: nat := 7 * 24 * HOUR
  const FINEST_SPAN: nat := 2 * HOUR
  const MAX_SLOTS: nat := MAX_WINDOW / (15 * MINUTE) + 1
  const MIN_STEP: nat := ((FINEST_SPAN / SECOND + MAX_SLOTS - 2) / (MAX_SLOTS - 1)) * SECOND

  function TierStep(span: int): nat {
    if span <= FINEST_SPAN then MIN_STEP
    else if span <= 24 * HOUR then 5 * MINUTE
    else 15 * MINUTE
  }

  function PickHopStep(span: int, interval: int): int {
    var step := TierStep(span);
    if interval > step then
      var whole := interval - interval % SECOND;
      if whole < interval then whole + SECOND else whole
    else step
  }

  /** The buckets of the grid that [from, to) touches. */
  function Buckets(from: nat, to: nat, step: nat): nat
    requires step > 0
  {
    if from >= to then 0 else Slot(to - 1, step) - Slot(from, step) + 1
  }

  function Slot(t: nat, step: nat): nat
    requires step > 0
  {
    t / step
  }

  lemma SlotBounds(t: nat, step: nat)
    requires step > 0
    ensures Slot(t, step) * step <= t < Slot(t, step) * step + step
  {
    assert t == (t / step) * step + t % step;
  }

  lemma TimesGrows(a: int, b: int, c: nat)
    requires a <= b
    ensures a * c <= b * c
  {
    assert b * c - a * c == (b - a) * c;
  }

  /** A window of at most k steps touches at most k + 1 buckets, wherever the grid falls. */
  lemma FewBuckets(from: nat, to: nat, step: nat, k: nat)
    requires step > 0 && from < to && to - from <= k * step
    ensures Buckets(from, to, step) <= k + 1
  {
    var a, b := Slot(from, step), Slot(to - 1, step);
    SlotBounds(from, step);
    SlotBounds(to - 1, step);
    assert (a + k + 1) * step == a * step + k * step + step;
    if b > a + k {
      TimesGrows(a + k + 1, b, step);
    }
  }

  /** The step is a positive whole number of seconds, no finer than the cadence filling it
      or the window's tier, and within a second of the wider of the two. */
  lemma StepIsWhole(span: int, interval: int)
    ensures var step := PickHopStep(span, interval);
            && step > 0 && step % SECOND == 0
            && step >= interval && step >= TierStep(span)
            && (step == TierStep(span) || step < interval + SECOND)
  {
  }

  /** Two hours show every cadence from 11 s up, a day from 5 min, anything more from 15 min:
      the step is the least whole number of seconds no finer than the tier or the cadence. */
  lemma StepIsLeast(span: int, interval: int, other: nat)
    ensures var tier := if span <= 2 * HOUR then 11 * SECOND else if span <= 24 * HOUR then 5 * MINUTE else 15 * MINUTE;
            && PickHopStep(span, interval) >= tier && PickHopStep(span, interval) >= interval
            && (other >= tier && other >= interval && other % SECOND == 0 ==> PickHopStep(span, interval) <= other)
  {
    if interval > TierStep(span) && other >= interval && other % SECOND == 0 && PickHopStep(span, interval) > other {
      NoSecondBetween(interval, other);
    }
  }

  lemma NoSecondBetween(interval: int, other: nat)
    requires interval >= 0 && other >= interval && other % SECOND == 0
    ensures var whole := interval - interval % SECOND;
            if whole < interval then other >= whole + SECOND else other >= whole
  {
    var whole, q, r := interval - interval % SECOND, interval / SECOND, other / SECOND;
    assert whole == SECOND * q && other == SECOND * r;
    assert other > whole ==> r >= q + 1;
  }

  /** The widest window a tier serves is no more steps of it than the cap less one. */
  lemma TierFits(span: int)
    requires span <= MAX_WINDOW
    ensures span <= (MAX_SLOTS - 1) * TierStep(span)
  {
  }

  /** The step never needs more slots than the cap, for any window the timeline serves, at
      any offset, whatever the cadence. */
  lemma GridIsBounded(from: nat, to: nat, interval: int)
    requires to - from <= MAX_WINDOW
    ensures PickHopStep(to - from, interval) > 0
    ensures Buckets(from, to, PickHopStep(to - from, interval)) <= MAX_SLOTS
  {
    var step, k := PickHopStep(to - from, interval), MAX_SLOTS - 1;
    StepIsWhole(to - from, interval);
    TierFits(to - from);
    TimesGrows(TierStep(to - from), step, k);
    if from < to {
      FewBuckets(from, to, step, k);
    }
  }

  /** A window of the finest tier's whole span, from here, fits the cap. */
  predicate Fits(from: nat, step: nat)
    requires step > 0
  {
    Buckets(from, from + FINEST_SPAN, step) <= MAX_SLOTS
  }

  /** The finest step is the least whole second whose grid over its tier's widest window
      fits the cap wherever the window starts. */
  lemma FinestStepIsLeast(seconds: nat)
    requires seconds > 0
    ensures (forall from: nat :: Fits(from, seconds * SECOND)) <==> seconds * SECOND >= MIN_STEP
  {
    var step := seconds * SECOND;
    if step >= MIN_STEP {
      forall from: nat ensures Fits(from, step) {
        TimesGrows(MIN_STEP, step, MAX_SLOTS - 1);
        FewBuckets(from, from + FINEST_SPAN, step, MAX_SLOTS - 1);
      }
    } else {
      assert MIN_STEP == 11 * SECOND;
      TooFine(step);
      assert !Fits(step - 1, step);
    }
  }

  /** A finer step, off the grid by an instant, touches a bucket too many. */
  lemma TooFine(step: nat)
    requires 0 < step <= 10 * SECOND
    ensures !Fits(step - 1, step)
  {
    var t := step - 1 + FINEST_SPAN - 1;
    SlotBounds(step - 1, step);
    SlotBounds(t, step);
    var s := Slot(t, step);
    assert s * step + step == (s + 1) * step;
    assert t >= 673 * step;
    assert MAX_SLOTS == 673;
    if s < MAX_SLOTS {
      TimesGrows(s + 1, MAX_SLOTS, step);
    }
  }
}
