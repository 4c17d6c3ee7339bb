/** The time counter of the one-time passwords, with C's division that truncates towards zero. */
module TotpCounter {

  /** Division as C and C++ define it. */
  function TruncDiv(a: int, b: int): int
    requires b > 0
  {
    if a >= 0 then a / b else -((-a) / b)
  }

  function GetValueAtTime(step: int, start: int, t: int): int
    requires step > 0
  {
    var since := t - start;
    if since >= 0 then TruncDiv(since, step) else TruncDiv(since - step - 1, step)
  }

  function GetValueStartTime(step: int, start: int, value: int): int {
    start + value * step
  }

  lemma QuotientBounds(a: int, b: int)
    requires b > 0
    ensures a / b * b <= a < (a / b + 1) * b
  {
  }

  /** The quotient is the only multiple that fits. */
  lemma QuotientIsUnique(a: int, b: int, q: int)
    requires b > 0 && q * b <= a < (q + 1) * b
    ensures q == a / b
  {
    QuotientBounds(a, b);
    var p := a / b;
    if q < p {
      Scale(q + 1, p, b);
    } else if p < q {
      Scale(p + 1, q, b);
    }
  }

  lemma Scale(p: int, q: int, b: int)
    requires p <= q && b > 0
    ensures p * b <= q * b
  {
  }

  lemma QuotientIsMonotone(a: int, c: int, b: int)
    requires b > 0 && a <= c
    ensures a / b <= c / b
  {
    QuotientBounds(a, b);
    QuotientBounds(c, b);
    if a / b > c / b {
      Scale(c / b + 1, a / b, b);
    }
  }

  /** The counter never runs backwards, before the start time either. */
  lemma {:induction false} CounterIsMonotone(step: int, start: int, t: int, u: int)
    requires step > 0 && t <= u
    ensures GetValueAtTime(step, start, t) <= GetValueAtTime(step, start, u)
  {
    if t >= start {
      QuotientIsMonotone(t - start, u - start, step);
    } else if u < start {
      QuotientIsMonotone(start - u + step + 1, start - t + step + 1, step);
    } else {
      QuotientIsMonotone(0, start - t + step + 1, step);
      QuotientIsMonotone(0, u - start, step);
      QuotientIsUnique(0, step, 0);
    }
  }

  /** The value's time step contains `t`. */
  predicate Covers(step: int, start: int, value: int, t: int) {
    GetValueStartTime(step, start, value) <= t < GetValueStartTime(step, start, value + 1)
  }

  /** From the start time on, the value at a time is the step that contains it (section 4.2 of RFC 6238). */
  lemma {:induction false} CounterInvertsFromStart(step: int, start: int, t: int)
    requires step > 0 && t >= start
    ensures Covers(step, start, GetValueAtTime(step, start, t), t)
  {
  }

  /** Only one step contains a time, so the two functions are inverse to each other. */
  lemma {:induction false} StartTimeRoundTrip(step: int, start: int, value: int)
    requires step > 0 && value >= 0
    ensures GetValueAtTime(step, start, GetValueStartTime(step, start, value)) == value
  {
    Scale(0, value, step);
    assert (value + 1) * step == value * step + step;
    QuotientIsUnique(value * step, step, value);
  }

  /**
   Before the start time the counter is one step too low at the edges of a step: it inverts exactly
   when neither the distance to the start nor that distance plus one is a multiple of the step.
   */
  lemma {:induction false} CounterBeforeStart(step: int, start: int, t: int)
    requires step > 0 && t < start
    ensures Covers(step, start, GetValueAtTime(step, start, t), t) <==>
      (start - t) % step != 0 && (start - t + 1) % step != 0
  {
    var e := start - t;
    var q, r := e / step, e % step;
    assert e == q * step + r;
    var v := GetValueAtTime(step, start, t);
    if r + 1 < step {
      assert (q + 1) * step == q * step + step && (q + 2) * step == q * step + 2 * step;
      QuotientIsUnique(e + step + 1, step, q + 1);
      assert v == -(q + 1);
      NegativeSteps(step, q);
      RemainderOf(e + 1, step, q, r + 1);
    } else {
      assert (q + 2) * step == q * step + 2 * step && (q + 3) * step == q * step + 3 * step;
      QuotientIsUnique(e + step + 1, step, q + 2);
      assert v == -(q + 2);
      NegativeSteps(step, q);
      assert e + 1 == (q + 1) * step by { assert (q + 1) * step == q * step + step; }
      RemainderOf(e + 1, step, q + 1, 0);
    }
  }

  /** Where the counter does not invert it is one too low, or two if the step is one second. */
  lemma {:induction false} CounterIsLow(step: int, start: int, t: int)
    requires step > 0 && t < start
    requires (start - t) % step == 0 || (start - t + 1) % step == 0
    ensures Covers(step, start, GetValueAtTime(step, start, t) + if step == 1 then 2 else 1, t)
  {
    var e := start - t;
    if step == 1 {
      assert (e + 2) / 1 == e + 2;
    } else if e % step == 0 {
      var q := e / step;
      assert (q + 1) * step == q * step + step && (q + 2) * step == q * step + 2 * step;
      QuotientIsUnique(e + step + 1, step, q + 1);
      NegativeSteps(step, q);
    } else {
      var q := (e + 1) / step;
      assert (q + 1) * step == q * step + step && (q + 2) * step == q * step + 2 * step;
      QuotientIsUnique(e + step + 1, step, q + 1);
      NegativeSteps(step, q);
    }
  }

  lemma NegativeSteps(step: int, q: int)
    ensures -(q + 1) * step == -(q * step) - step && -q * step == -(q * step) && -(q + 2) * step == -(q * step) - 2 * step
    ensures (-(q + 1) + 1) * step == -(q * step) && (-(q + 2) + 1) * step == -(q * step) - step
  {
  }

  lemma RemainderOf(a: int, b: int, q: int, r: int)
    requires b > 0 && a == q * b + r && 0 <= r < b
    ensures a % b == r
  {
    assert (q + 1) * b == q * b + b;
    QuotientIsUnique(a, b, q);
  }
}
