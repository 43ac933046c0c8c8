/** gateway/flow_control/leaky_bucket.go: a bucket that leaks at limit / window and
    admits a request while its unit of water still fits. Floats are reals, with the
    infinities and NaN that division by a zero window produces. */
module LeakyBucket {
  import opened History

  /** A duration in seconds. */
  function Seconds(d: int): real {
    d as real / 1000000000.0
  }

  datatype Float = Finite(r: real) | PosInf | NegInf | NaN {
    predicate Positive() {
      PosInf? || (Finite? && r > 0.0)
    }
  }

  function Divide(x: real, y: real): Float {
    if y != 0.0 then Finite(x / y) else if x > 0.0 then PosInf else if x < 0.0 then NegInf else NaN
  }

  function Times(x: real, f: Float): Float {
    match f
    case Finite(r) => Finite(x * r)
    case NaN => NaN
    case PosInf => if x > 0.0 then PosInf else if x < 0.0 then NegInf else NaN
    case NegInf => if x > 0.0 then NegInf else if x < 0.0 then PosInf else NaN
  }

  /** water - leaked, clamped at zero. */
  function Drain(water: real, leaked: Float): real
    requires leaked.Positive()
  {
    if leaked.PosInf? || water - leaked.r < 0.0 then 0.0 else water - leaked.r
  }

  datatype State = State(capacity: real, rate: Float, water: real, lastLeak: int, lastAccess: int)

  function Fresh(limit: int, window: int, now: int): State {
    State(limit as real, Divide(limit as real, Seconds(window)), 0.0, now, now)
  }

  function Step(s: State, now: int): (State, bool) {
    var leaked := Times(Seconds(now - s.lastLeak), s.rate);
    var water := if leaked.Positive() then Drain(s.water, leaked) else s.water;
    var lastLeak := if leaked.Positive() then now else s.lastLeak;
    var ok := water + 1.0 <= s.capacity;
    (State(s.capacity, s.rate, if ok then water + 1.0 else water, lastLeak, now), ok)
  }

  class LeakyBucketLimiter {
    const capacity: real
    const rate: Float
    var water: real
    var lastLeak: int
    var lastAccess: int

    ghost function Value(): State
      reads this
    {
      State(capacity, rate, water, lastLeak, lastAccess)
    }

    constructor (limit: int, window: int, now: int)
      ensures Value() == Fresh(limit, window, now)
    {
      capacity := limit as real;
      rate := Divide(limit as real, Seconds(window));
      water := 0.0;
      lastLeak := now;
      lastAccess := now;
    }

    method Allow(now: int) returns (ok: bool)
      modifies this
      ensures (Value(), ok) == Step(old(Value()), now)
    {
      lastAccess := now;
      var elapsed := Seconds(now - lastLeak);
      var leaked := Times(elapsed, rate);
      if leaked.Positive() {
        if leaked.PosInf? {
          water := 0.0;
        } else {
          water := water - leaked.r;
          if water < 0.0 {
            water := 0.0;
          }
        }
        lastLeak := now;
      }
      if water + 1.0 <= capacity {
        water := water + 1.0;
        return true;
      }
      return false;
    }
  }

  // ----- the closed form -----

  /** What leaks in a given number of nanoseconds; `Leak` below is the bucket's own. */
  type Drainage = int -> real

  ghost predicate AdditiveAt(leak: Drainage, x: int, y: int) {
    leak(x + y) == leak(x) + leak(y)
  }

  /** Leaks nothing in no time, never gains water, and leaks steadily. */
  ghost predicate Steady(leak: Drainage) {
    leak(0) == 0.0 && (forall d :: d >= 0 ==> leak(d) >= 0.0) && forall x, y :: AdditiveAt(leak, x, y)
  }

  lemma {:induction false} LeakSplits(leak: Drainage, s: int, t: int, u: int)
    requires Steady(leak)
    ensures leak(u - s) == leak(t - s) + leak(u - t)
  {
    assert AdditiveAt(leak, t - s, u - t);
    assert (t - s) + (u - t) == u - s;
  }

  /** Admissions from the i-th on, minus what leaked since the i-th, at time t. */
  function Excess(h: seq<int>, i: nat, leak: Drainage, t: int): real
    requires i < |h|
  {
    (|h| - i) as real - leak(t - h[i])
  }

  function Max(x: real, y: real): real {
    if x < y then y else x
  }

  /** The maximum of 0 and of the excess over all suffixes of the admitted requests. */
  function Peak(h: seq<int>, leak: Drainage, t: int): real {
    if h == [] then 0.0 else Max(Peak(h[1..], leak, t), Excess(h, 0, leak, t))
  }

  /** `Peak` is that maximum: an upper bound of zero and every suffix, and one of them. */
  lemma {:induction false} PeakIsMaximum(h: seq<int>, leak: Drainage, t: int)
    ensures 0.0 <= Peak(h, leak, t)
    ensures forall i :: 0 <= i < |h| ==> Excess(h, i, leak, t) <= Peak(h, leak, t)
    ensures Peak(h, leak, t) == 0.0 || exists i :: 0 <= i < |h| && Excess(h, i, leak, t) == Peak(h, leak, t)
  {
    if h != [] {
      PeakIsMaximum(h[1..], leak, t);
      forall i | 0 < i < |h| ensures Excess(h, i, leak, t) == Excess(h[1..], i - 1, leak, t) {
      }
      if Peak(h, leak, t) != 0.0 && Peak(h, leak, t) != Excess(h, 0, leak, t) {
        var i :| 0 <= i < |h| - 1 && Excess(h[1..], i, leak, t) == Peak(h, leak, t);
        assert Excess(h, i + 1, leak, t) == Peak(h, leak, t);
      }
    }
  }

  /** As time passes the maximum drains and is clamped at zero. */
  lemma {:induction false} PeakDrains(h: seq<int>, leak: Drainage, t: int, t': int)
    requires Steady(leak) && t <= t'
    ensures Peak(h, leak, t') == Max(0.0, Peak(h, leak, t) - leak(t' - t))
  {
    if h != [] {
      PeakDrains(h[1..], leak, t, t');
      LeakSplits(leak, h[0], t, t');
    }
  }

  /** An admission now raises the maximum by exactly one. */
  lemma {:induction false} PeakAdmits(h: seq<int>, leak: Drainage, t: int)
    requires Steady(leak)
    ensures Peak(h + [t], leak, t) == Peak(h, leak, t) + 1.0
  {
    if h == [] {
      assert ([t])[1..] == [];
    } else {
      assert (h + [t])[1..] == h[1..] + [t];
      PeakAdmits(h[1..], leak, t);
    }
  }

  function Rate(limit: int, window: int): real
    requires window > 0
  {
    limit as real / Seconds(window)
  }

  /** A bucket's own drainage: rate times the elapsed seconds. */
  function Leak(limit: int, window: int): Drainage
    requires window > 0
  {
    d => Rate(limit, window) * Seconds(d)
  }

  lemma {:induction false} LeakIsSteady(limit: nat, window: int)
    requires window > 0
    ensures Steady(Leak(limit, window))
  {
    assert Rate(limit, window) >= 0.0;
    forall x, y ensures AdditiveAt(Leak(limit, window), x, y) {
      assert Seconds(x + y) == Seconds(x) + Seconds(y);
    }
  }

  /** A finite bucket's step in terms of its drainage. */
  lemma {:induction false} StepDrains(limit: nat, window: int, s: State, now: int)
    requires window > 0 && s.capacity == limit as real && s.rate == Finite(Rate(limit, window))
    requires s.lastLeak <= now && s.water >= 0.0
    ensures var (s', ok) := Step(s, now); var leaked := Leak(limit, window)(now - s.lastLeak);
            var water := Max(0.0, s.water - leaked);
            && ok == (water + 1.0 <= limit as real)
            && s'.capacity == s.capacity && s'.rate == s.rate && s'.lastAccess == now
            && s'.water == (if ok then water + 1.0 else water)
            && (limit > 0 ==> s'.lastLeak == now) && s'.lastLeak <= now
  {
    var leaked := Leak(limit, window)(now - s.lastLeak);
    assert Times(Seconds(now - s.lastLeak), s.rate) == Finite(leaked) by {
      assert Seconds(now - s.lastLeak) * Rate(limit, window) == Rate(limit, window) * Seconds(now - s.lastLeak);
    }
    LeakIsSteady(limit, window);
    if limit > 0 && s.lastLeak < now {
      assert Rate(limit, window) > 0.0 && Seconds(now - s.lastLeak) > 0.0;
      assert leaked > 0.0;
    }
  }

  /** When the previous call, or creation, was. */
  function Previous(created: int, a: seq<int>): int {
    if a == [] then created else Last(a)
  }

  /** The closed form's claim about a state reached with admissions `h` at time `now`. */
  ghost predicate Closed(limit: int, window: int, s: State, h: seq<int>, now: int)
    requires window > 0
  {
    && s.capacity == limit as real && s.rate == Finite(Rate(limit, window)) && s.lastAccess == now
    && s.water == Peak(h, Leak(limit, window), now)
    && (limit > 0 ==> s.lastLeak == now) && s.lastLeak <= now
  }

  lemma {:induction false} NoRateNoLeak(window: int, d: int)
    requires window > 0
    ensures Leak(0, window)(d) == 0.0
  {
    assert Rate(0, window) == 0.0;
  }

  /** One call keeps the closed form, and is admitted exactly when the drained maximum leaves room. */
  lemma {:induction false} WaterStep(limit: nat, window: int, s: State, h: seq<int>, prev: int, now: int)
    requires window > 0 && prev <= now && Closed(limit, window, s, h, prev)
    ensures var (s', ok) := Step(s, now);
            && ok == (Peak(h, Leak(limit, window), now) + 1.0 <= limit as real)
            && Closed(limit, window, s', if ok then h + [now] else h, now)
  {
    var leak := Leak(limit, window);
    LeakIsSteady(limit, window);
    PeakIsMaximum(h, leak, prev);
    StepDrains(limit, window, s, now);
    PeakDrains(h, leak, prev, now);
    PeakAdmits(h, leak, now);
    if limit == 0 {
      NoRateNoLeak(window, now - prev);
      NoRateNoLeak(window, now - s.lastLeak);
    }
  }

  /** Closed form: after any run, `water` is the maximum of zero and, over all suffixes of the
      admitted requests, the suffix's length minus what leaked since its first request. */
  lemma {:induction false} WaterIsPeak(limit: nat, window: int, created: int, a: seq<int>)
    requires window > 0 && Sorted(a) && (a != [] ==> created <= a[0])
    ensures var st := Fresh(limit, window, created);
            Closed(limit, window, After(Step, st, a), Admitted(Step, st, a), Previous(created, a))
  {
    if a != [] {
      var st := Fresh(limit, window, created);
      WaterIsPeak(limit, window, created, Init(a));
      WaterStep(limit, window, After(Step, st, Init(a)), Admitted(Step, st, Init(a)),
                Previous(created, Init(a)), Last(a));
    }
  }

  // ----- what is refused, and the bound on every interval -----

  ghost predicate Overfull(h: seq<int>, s: int, t: int, limit: int, leak: Drainage) {
    (|Between(h, s, t)| + 1) as real > limit as real + leak(t - s)
  }

  ghost predicate OverfullSomewhere(h: seq<int>, t: int, limit: int, leak: Drainage) {
    exists s :: s <= t && Overfull(h, s, t, limit, leak)
  }

  lemma {:induction false} OverfullRaisesPeak(h: seq<int>, s: int, t: int, limit: nat, leak: Drainage)
    requires Sorted(h) && UpTo(h, t) && Steady(leak) && s <= t && Overfull(h, s, t, limit, leak)
    ensures Peak(h, leak, t) + 1.0 > limit as real
  {
    PeakIsMaximum(h, leak, t);
    var i, j := BetweenIsSlice(h, s, t);
    assert leak(t - s) >= 0.0;
    if i < |h| {
      LeakSplits(leak, s, h[i], t);
      assert leak(h[i] - s) >= 0.0;
      assert Excess(h, i, leak, t) <= Peak(h, leak, t);
    }
  }

  lemma {:induction false} OverfullIffPeak(h: seq<int>, t: int, limit: nat, leak: Drainage)
    requires Sorted(h) && UpTo(h, t) && Steady(leak)
    ensures OverfullSomewhere(h, t, limit, leak) <==> Peak(h, leak, t) + 1.0 > limit as real
  {
    PeakIsMaximum(h, leak, t);
    if s :| s <= t && Overfull(h, s, t, limit, leak) {
      OverfullRaisesPeak(h, s, t, limit, leak);
    }
    if Peak(h, leak, t) + 1.0 > limit as real {
      if Peak(h, leak, t) == 0.0 {
        assert Overfull(h, t, t, limit, leak);
      } else {
        var i :| 0 <= i < |h| && Excess(h, i, leak, t) == Peak(h, leak, t);
        var i', j' := BetweenIsSlice(h, h[i], t);
        assert Overfull(h, h[i], t, limit, leak);
      }
    }
  }

  /** A request at t is refused exactly when, for some s <= t, admitting it would put more than
      capacity + rate * (t - s) admissions into the interval [s, t]. */
  lemma {:induction false} RefusedIffIntervalOverfull(limit: nat, window: int, created: int, a: seq<int>)
    requires window > 0 && Sorted(a) && a != [] && created <= a[0]
    ensures var st := Fresh(limit, window, created); var t := Last(a);
            !Step(After(Step, st, Init(a)), t).1
            <==> OverfullSomewhere(Admitted(Step, st, Init(a)), t, limit, Leak(limit, window))
  {
    var st, t := Fresh(limit, window, created), Last(a);
    var h, prev := Admitted(Step, st, Init(a)), Previous(created, Init(a));
    LeakIsSteady(limit, window);
    WaterIsPeak(limit, window, created, Init(a));
    WaterStep(limit, window, After(Step, st, Init(a)), h, prev, t);
    AdmittedSorted(Step, st, Init(a));
    assert UpTo(h, t) by { if Init(a) != [] { assert Last(Init(a)) <= t; } }
    OverfullIffPeak(h, t, limit, Leak(limit, window));
  }

  /** Consecutive admissions i..j satisfy the bucket's budget. */
  /** Admissions i to j fit into what the bucket allows between them. */
  ghost predicate BudgetAt(h: seq<int>, i: nat, j: nat, limit: int, leak: Drainage)
    requires i <= j < |h|
  {
    (j + 1 - i) as real <= limit as real + leak(h[j] - h[i])
  }

  ghost predicate WithinBudget(h: seq<int>, limit: int, leak: Drainage) {
    forall i, j :: 0 <= i <= j < |h| ==> BudgetAt(h, i, j, limit, leak)
  }

  lemma {:induction false} BudgetOfSuffix(h: seq<int>, t: int, i: nat, limit: nat, leak: Drainage)
    requires Steady(leak) && i <= |h| && Peak(h, leak, t) + 1.0 <= limit as real
    ensures BudgetAt(h + [t], i, |h|, limit, leak)
  {
    PeakAdmits(h, leak, t);
    PeakIsMaximum(h + [t], leak, t);
    assert Excess(h + [t], i, leak, t) <= limit as real;
  }

  lemma {:induction false} BudgetAppend(h: seq<int>, t: int, limit: nat, leak: Drainage)
    requires Steady(leak) && WithinBudget(h, limit, leak) && Peak(h, leak, t) + 1.0 <= limit as real
    ensures WithinBudget(h + [t], limit, leak)
  {
    forall i, j | 0 <= i <= j <= |h| ensures BudgetAt(h + [t], i, j, limit, leak) {
      if j == |h| {
        BudgetOfSuffix(h, t, i, limit, leak);
      } else {
        assert BudgetAt(h, i, j, limit, leak);
      }
    }
  }

  lemma {:induction false} RunsStayWithinBudget(limit: nat, window: int, created: int, a: seq<int>)
    requires window > 0 && Sorted(a) && (a != [] ==> created <= a[0])
    ensures WithinBudget(Admitted(Step, Fresh(limit, window, created), a), limit, Leak(limit, window))
  {
    if a != [] {
      var st, t := Fresh(limit, window, created), Last(a);
      var h := Admitted(Step, st, Init(a));
      RunsStayWithinBudget(limit, window, created, Init(a));
      WaterIsPeak(limit, window, created, Init(a));
      WaterStep(limit, window, After(Step, st, Init(a)), h, Previous(created, Init(a)), t);
      if Step(After(Step, st, Init(a)), t).1 {
        LeakIsSteady(limit, window);
        BudgetAppend(h, t, limit, Leak(limit, window));
      }
    }
  }

  lemma {:induction false} BudgetBoundsIntervals(h: seq<int>, limit: nat, leak: Drainage, s: int, t: int)
    requires Steady(leak) && WithinBudget(h, limit, leak) && Sorted(h) && s <= t
    ensures |Between(h, s, t)| as real <= limit as real + leak(t - s)
  {
    var i, j := BetweenIsSlice(h, s, t);
    assert leak(t - s) >= 0.0;
    if i < j {
      var first, last := h[i], h[j - 1];
      assert BudgetAt(h, i, j - 1, limit, leak);
      LeakSplits(leak, first, last, t);
      LeakSplits(leak, s, first, t);
      assert leak(t - last) >= 0.0 && leak(first - s) >= 0.0;
    }
  }

  /** Every closed interval [s, t] holds at most capacity + rate * (t - s) admissions. */
  lemma {:induction false} IntervalBound(limit: nat, window: int, created: int, a: seq<int>, s: int, t: int)
    requires window > 0 && Sorted(a) && (a != [] ==> created <= a[0]) && s <= t
    ensures var h := Admitted(Step, Fresh(limit, window, created), a);
            |Between(h, s, t)| as real <= limit as real + Leak(limit, window)(t - s)
  {
    LeakIsSteady(limit, window);
    RunsStayWithinBudget(limit, window, created, a);
    AdmittedSorted(Step, Fresh(limit, window, created), a);
    BudgetBoundsIntervals(Admitted(Step, Fresh(limit, window, created), a), limit, Leak(limit, window), s, t);
  }

  lemma {:induction false} Reassociate(r: real, d: real, w: real, k: real)
    ensures (r * d) * (w * k) == (r * w) * (d * k)
  {
    assert (r * d) * (w * k) == r * (d * (w * k)) && (r * w) * (d * k) == r * (w * (d * k));
    assert d * (w * k) == w * (d * k);
  }

  /** The drainage used above, without units: limit / window for each nanosecond. */
  lemma {:induction false} LeakIsRate(limit: int, window: int, d: int)
    requires window > 0
    ensures Leak(limit, window)(d) * window as real == limit as real * d as real
  {
    var w := Seconds(window);
    assert Rate(limit, window) * w == limit as real;
    assert window as real == w * 1000000000.0 && d as real == Seconds(d) * 1000000000.0;
    Reassociate(Rate(limit, window), Seconds(d), w, 1000000000.0);
  }

  // ----- windows that are not positive, and limits that are not -----

  lemma {:induction false} NegativeRate(c: real, w: real, d: real)
    requires c > 0.0 && w < 0.0 && d >= 0.0
    ensures d * (c / w) <= 0.0
  {
    var r := c / w;
    assert r * w == c;
    assert r < 0.0;
  }

  /** With a window of zero the bucket empties whenever time passes, with a negative one never. */
  ghost predicate Unsteady(limit: int, window: int, s: State, h: seq<int>, now: int) {
    && s.capacity == limit as real && s.rate == Divide(limit as real, Seconds(window))
    && s.lastAccess == now && s.lastLeak <= now && (window == 0 ==> s.lastLeak == now) && UpTo(h, now)
    && s.water == (if window < 0 then |h| else |Between(h, now, now)|) as real
  }

  lemma {:induction false} UnsteadyLeak(limit: int, window: int, s: State, now: int)
    requires limit > 0 && window <= 0 && s.lastLeak <= now && s.rate == Divide(limit as real, Seconds(window))
    ensures var leaked := Times(Seconds(now - s.lastLeak), s.rate);
            if window == 0 && s.lastLeak < now then leaked.PosInf? else !leaked.Positive()
  {
    if window < 0 {
      NegativeRate(limit as real, Seconds(window), Seconds(now - s.lastLeak));
    }
  }

  lemma {:induction false} UnsteadyCount(h: seq<int>, prev: int, now: int)
    requires UpTo(h, prev) && prev <= now
    ensures prev < now ==> Between(h, now, now) == []
    ensures |Between(h + [now], now, now)| == |Between(h, now, now)| + 1
  {
    if prev < now { BetweenNone(h, now, now); }
    BetweenAppend(h, now, now, now);
  }

  lemma {:induction false} UnsteadyStep(limit: int, window: int, s: State, h: seq<int>, prev: int, now: int)
    requires limit > 0 && window <= 0 && prev <= now && Unsteady(limit, window, s, h, prev)
    ensures var (s', ok) := Step(s, now);
            && Unsteady(limit, window, s', if ok then h + [now] else h, now)
            && (!ok <==> limit <= if window < 0 then |h| else |Between(h, now, now)|)
  {
    var n := if window < 0 then |h| else |Between(h, now, now)|;
    UnsteadyLeak(limit, window, s, now);
    UnsteadyCount(h, prev, now);
    var (s', ok) := Step(s, now);
    assert s'.water == (if ok then n as real + 1.0 else n as real);
    assert ok <==> n as real + 1.0 <= limit as real;
  }

  lemma {:induction false} UnsteadyRun(limit: int, window: int, created: int, a: seq<int>)
    requires limit > 0 && window <= 0 && Sorted(a) && (a != [] ==> created <= a[0])
    ensures var st := Fresh(limit, window, created);
            Unsteady(limit, window, After(Step, st, a), Admitted(Step, st, a), Previous(created, a))
  {
    if a != [] {
      var st := Fresh(limit, window, created);
      UnsteadyRun(limit, window, created, Init(a));
      UnsteadyStep(limit, window, After(Step, st, Init(a)), Admitted(Step, st, Init(a)),
                   Previous(created, Init(a)), Last(a));
    }
  }

  lemma {:induction false} NeverBelowZero(st: State, a: seq<int>)
    requires st.water >= 0.0
    ensures After(Step, st, a).water >= 0.0 && After(Step, st, a).capacity == st.capacity
  {
    if a != [] { NeverBelowZero(st, Init(a)); }
  }

  /** What is refused in the remaining cases. Without a positive limit everything; else, with a
      window of zero, what comes after `limit` admissions at the same instant, and, with a negative
      window, what comes after `limit` admissions ever. */
  lemma {:induction false} RefusedOtherwise(limit: int, window: int, created: int, a: seq<int>)
    requires (limit <= 0 || window <= 0) && Sorted(a) && a != [] && created <= a[0]
    ensures var st := Fresh(limit, window, created); var h, t := Admitted(Step, st, Init(a)), Last(a);
            !Step(After(Step, st, Init(a)), t).1
            <==> limit <= 0 || limit <= if window < 0 then |h| else |Between(h, t, t)|
  {
    var st := Fresh(limit, window, created);
    if limit <= 0 {
      NeverBelowZero(st, a);
      NeverBelowZero(st, Init(a));
    } else {
      UnsteadyRun(limit, window, created, Init(a));
      UnsteadyStep(limit, window, After(Step, st, Init(a)), Admitted(Step, st, Init(a)),
                   Previous(created, Init(a)), Last(a));
    }
  }
}
