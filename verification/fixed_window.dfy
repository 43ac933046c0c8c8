/** gateway/flow_control/fixed_window.go: a counter that starts over when a call comes
    after the current window's end. One clock reading per call. */
module FixedWindow {
  import opened History

  datatype State = State(limit: int, window: int, count: int, resetTime: int, lastAccess: int)

  function Fresh(limit: int, window: int, now: int): State {
    State(limit, window, 0, now + window, now)
  }

  function Step(s: State, now: int): (State, bool) {
    var count := if now > s.resetTime then 0 else s.count;
    var resetTime := if now > s.resetTime then now + s.window else s.resetTime;
    var ok := count < s.limit;
    (State(s.limit, s.window, if ok then count + 1 else count, resetTime, now), ok)
  }

  class FixedWindowLimiter {
    const limit: int
    const window: int
    var count: int
    var resetTime: int
    var lastAccess: int

    ghost function Value(): State
      reads this
    {
      State(limit, window, count, resetTime, lastAccess)
    }

    constructor (limit: int, window: int, now: int)
      ensures Value() == Fresh(limit, window, now)
    {
      this.limit := limit;
      this.window := window;
      count := 0;
      resetTime := now + window;
      lastAccess := now;
    }

    method Allow(now: int) returns (ok: bool)
      modifies this
      ensures (Value(), ok) == Step(old(Value()), now)
    {
      lastAccess := now;
      if now > resetTime {
        count := 0;
        resetTime := now + window;
      }
      if count < limit {
        count := count + 1;
        return true;
      }
      return false;
    }
  }

  // ----- whole runs -----

  /** When the current window opened, from the arrivals alone: at creation, and then at each first
      call later than the last opening + window. Refusals open and move nothing. */
  function Opening(window: int, created: int, a: seq<int>): int {
    if a == [] then created
    else
      var before := Opening(window, created, Init(a));
      if Last(a) > before + window then Last(a) else before
  }

  /** The state after the calls `a`, of which `h` were admitted: the counter is the number of
      admissions since the current window's opening. */
  ghost predicate Counts(limit: int, window: int, st: State, h: seq<int>, since: int, now: int) {
    && st.limit == limit && st.window == window && st.resetTime == since + window && st.lastAccess == now
    && UpTo(h, now) && since <= now && 0 <= st.count
    && (window >= 0 ==> now <= since + window && st.count == |Between(h, since, now)|)
  }

  /** Among entries up to `prev` a later end changes nothing. */
  lemma {:induction false} LaterEnd(h: seq<int>, lo: int, prev: int, now: int)
    requires UpTo(h, prev) && prev <= now
    ensures Between(h, lo, now) == Between(h, lo, prev)
  {
    if h != [] { LaterEnd(Init(h), lo, prev, now); }
  }

  lemma {:induction false} CallCounts(limit: int, window: int, st: State, h: seq<int>, since: int, prev: int, now: int)
    requires Counts(limit, window, st, h, since, prev) && prev <= now
    ensures var (st', ok) := Step(st, now); var since' := if now > since + window then now else since;
            && Counts(limit, window, st', if ok then h + [now] else h, since', now)
            && (!ok <==> limit <= if window < 0 then 0 else |Between(h, since', now)|)
  {
    var since' := if now > since + window then now else since;
    if window >= 0 {
      if now > since + window {
        BetweenNone(h, now, now);
      } else {
        LaterEnd(h, since, prev, now);
      }
    }
    BetweenAppend(h, now, since', now);
  }

  lemma {:induction false} RunCounts(limit: int, window: int, created: int, a: seq<int>)
    requires Sorted(a) && (a != [] ==> created <= a[0])
    ensures var st := Fresh(limit, window, created);
            Counts(limit, window, After(Step, st, a), Admitted(Step, st, a), Opening(window, created, a),
                   if a == [] then created else Last(a))
  {
    if a != [] {
      var st, b := Fresh(limit, window, created), Init(a);
      RunCounts(limit, window, created, b);
      CallCounts(limit, window, After(Step, st, b), Admitted(Step, st, b), Opening(window, created, b),
                 if b == [] then created else Last(b), Last(a));
    }
  }

  /** A call is refused if and only if its window already holds `limit` admissions, the window being
      the one that the arrivals up to this call have opened. With a negative window every call opens
      a new one. */
  lemma {:induction false} RefusedIffWindowFull(limit: int, window: int, created: int, a: seq<int>)
    requires Sorted(a) && a != [] && created <= a[0]
    ensures var st := Fresh(limit, window, created); var b, now := Init(a), Last(a);
            !Step(After(Step, st, b), now).1
            <==> limit <= if window < 0 then 0
                          else |Between(Admitted(Step, st, b), Opening(window, created, a), now)|
  {
    var st, b := Fresh(limit, window, created), Init(a);
    RunCounts(limit, window, created, b);
    CallCounts(limit, window, After(Step, st, b), Admitted(Step, st, b), Opening(window, created, b),
               if b == [] then created else Last(b), Last(a));
  }

  // ----- how much an interval can hold -----

  /** The number of window lengths needed to cover `d`: its quotient rounded up, 0 for d <= 0. */
  function Windows(d: int, window: int): nat
    requires window > 0
    decreases if d > 0 then d else 0
  {
    if d <= 0 then 0 else 1 + Windows(d - window, window)
  }

  lemma {:induction false} WindowsIsCeiling(d: int, window: int)
    requires window > 0
    ensures d <= Windows(d, window) * window
    ensures d > 0 ==> (Windows(d, window) - 1) * window < d
    decreases if d > 0 then d else 0
  {
    if d > 0 { WindowsIsCeiling(d - window, window); }
  }

  /** `limit` admissions for each of the windows needed to cover `d`. */
  function Quota(limit: nat, d: int, window: int): nat
    requires window > 0
    decreases if d > 0 then d else 0
  {
    if d <= 0 then 0 else limit + Quota(limit, d - window, window)
  }

  lemma {:induction false} QuotaMonotone(limit: nat, d: int, e: int, window: int)
    requires window > 0 && d <= e
    ensures Quota(limit, d, window) <= Quota(limit, e, window)
    decreases if e > 0 then e else 0
  {
    if d > 0 { QuotaMonotone(limit, d - window, e - window, window); }
  }

  lemma {:induction false} QuotaIsProduct(limit: nat, d: int, window: int)
    requires window > 0
    ensures Quota(limit, d, window) == limit * Windows(d, window)
    decreases if d > 0 then d else 0
  {
    if d > 0 {
      QuotaIsProduct(limit, d - window, window);
      assert limit * (1 + Windows(d - window, window)) == limit + limit * Windows(d - window, window);
    }
  }

  /** The entries of `h` at or after `s`. */
  function Since(h: seq<int>, s: int): nat {
    if h == [] then 0 else Since(Init(h), s) + if s <= Last(h) then 1 else 0
  }

  lemma {:induction false} SinceNothing(h: seq<int>, s: int)
    requires forall k :: 0 <= k < |h| ==> h[k] < s
    ensures Since(h, s) == 0
  {
    if h != [] { SinceNothing(Init(h), s); }
  }

  /** What holds after every call. The current window began at resetTime - window: admissions
      since any instant s are those of the current window plus at most `limit` for each window
      between s and that beginning; a window ends only after its last instant, so successive ones
      begin at least window + 1 apart. */
  ghost predicate Kept(limit: nat, window: int, st: State, h: seq<int>, now: int)
    requires window > 0
  {
    && st.limit == limit && st.window == window
    && 0 <= st.count <= limit
    && st.lastAccess == now && now <= st.resetTime && st.resetTime - window <= now
    && UpTo(h, now)
    && forall s :: Since(h, s) <= st.count + Quota(limit, st.resetTime - window - s, window + 1)
  }

  lemma {:induction false} CallKeeps(limit: nat, window: int, st: State, h: seq<int>, prev: int, now: int)
    requires window > 0 && prev <= now && Kept(limit, window, st, h, prev)
    ensures var (st', ok) := Step(st, now); Kept(limit, window, st', if ok then h + [now] else h, now)
  {
    var (st', ok) := Step(st, now);
    var h' := if ok then h + [now] else h;
    forall s ensures Since(h', s) <= st'.count + Quota(limit, st'.resetTime - window - s, window + 1) {
      assert ok ==> Init(h') == h;
      var e, e' := st.resetTime - window, st'.resetTime - window;
      assert Since(h, s) <= st.count + Quota(limit, e - s, window + 1);
      if now > st.resetTime {
        if s < now {
          if e > s {
            QuotaMonotone(limit, e + window + 1 - s, e' - s, window + 1);
          }
        } else {
          SinceNothing(h, s);
        }
      } else if ok && s > now {
        SinceNothing(h', s);
      }
    }
  }

  lemma {:induction false} EveryRunKeeps(limit: nat, window: int, created: int, a: seq<int>)
    requires window > 0 && Sorted(a) && (a != [] ==> created <= a[0])
    ensures var st := Fresh(limit, window, created);
            Kept(limit, window, After(Step, st, a), Admitted(Step, st, a), if a == [] then created else Last(a))
  {
    var st := Fresh(limit, window, created);
    if a != [] {
      EveryRunKeeps(limit, window, created, Init(a));
      CallKeeps(limit, window, After(Step, st, Init(a)), Admitted(Step, st, Init(a)),
                if Init(a) == [] then created else Last(Init(a)), Last(a));
    }
  }

  lemma {:induction false} BetweenAtMostSince(h: seq<int>, s: int, hi: int)
    ensures |Between(h, s, hi)| <= Since(h, s)
  {
    if h != [] { BetweenAtMostSince(Init(h), s, hi); }
  }

  lemma {:induction false} IntervalQuota(limit: nat, window: int, created: int, a: seq<int>, s: int, d: nat)
    requires window > 0 && Sorted(a) && (a != [] ==> created <= a[0])
    ensures |Between(Admitted(Step, Fresh(limit, window, created), a), s, s + d)| <= limit + Quota(limit, d, window + 1)
  {
    var st := Fresh(limit, window, created);
    if a != [] {
      if Last(a) > s + d {
        IntervalQuota(limit, window, created, Init(a), s, d);
        BetweenAppend(Admitted(Step, st, Init(a)), Last(a), s, s + d);
      } else {
        EveryRunKeeps(limit, window, created, a);
        var h, e := Admitted(Step, st, a), After(Step, st, a).resetTime - window;
        BetweenAtMostSince(h, s, s + d);
        assert Since(h, s) <= After(Step, st, a).count + Quota(limit, e - s, window + 1);
        QuotaMonotone(limit, e - s, d, window + 1);
      }
    }
  }

  /** Any closed interval of length `d` holds at most limit * (ceil(d / (window + 1)) + 1) admissions. */
  lemma {:induction false} ExactBound(limit: nat, window: int, created: int, a: seq<int>, s: int, d: nat)
    requires window > 0 && Sorted(a) && (a != [] ==> created <= a[0])
    ensures |Between(Admitted(Step, Fresh(limit, window, created), a), s, s + d)|
            <= limit * (Windows(d, window + 1) + 1)
  {
    IntervalQuota(limit, window, created, a, s, d);
    QuotaIsProduct(limit, d, window + 1);
  }

  lemma {:induction false} LongerWindowsAreFewer(limit: nat, d: int, e: int, window: int, longer: int)
    requires 0 < window <= longer && d <= e
    ensures Quota(limit, d, longer) <= Quota(limit, e, window)
    decreases if d > 0 then d else 0
  {
    if d > 0 { LongerWindowsAreFewer(limit, d - longer, e - window, window, longer); }
  }

  /** So it holds at most limit * (ceil(d / window) + 1). */
  lemma {:induction false} IntervalBound(limit: nat, window: int, created: int, a: seq<int>, s: int, d: nat)
    requires window > 0 && Sorted(a) && (a != [] ==> created <= a[0])
    ensures |Between(Admitted(Step, Fresh(limit, window, created), a), s, s + d)| <= limit * (Windows(d, window) + 1)
  {
    IntervalQuota(limit, window, created, a, s, d);
    LongerWindowsAreFewer(limit, d, d, window, window + 1);
    QuotaIsProduct(limit, d, window);
  }

  /** In particular, twice the limit in any one window length. */
  lemma {:induction false} TwiceTheLimit(limit: nat, window: int, created: int, a: seq<int>, s: int)
    requires window > 0 && Sorted(a) && (a != [] ==> created <= a[0])
    ensures |Between(Admitted(Step, Fresh(limit, window, created), a), s, s + window)| <= 2 * limit
  {
    IntervalQuota(limit, window, created, a, s, window);
    assert Quota(limit, window, window + 1) == limit + Quota(limit, -1, window + 1);
  }

  // ----- the bound is attained -----

  /** `n` calls at the time `t`. */
  function Burst(t: int, n: nat): seq<int> {
    if n == 0 then [] else Burst(t, n - 1) + [t]
  }

  /** The last instant of the first window, and then the first of each later one. */
  function BurstTime(window: int, k: nat): int {
    if k == 0 then window else if k == 1 then window + 1 else BurstTime(window, k - 1) + window + 1
  }

  /** `limit` calls at each of those instants up to the k-th. */
  function Bursts(limit: nat, window: int, k: nat): seq<int> {
    (if k == 0 then [] else Bursts(limit, window, k - 1)) + Burst(BurstTime(window, k), limit)
  }

  /** The state after the n-th call of a burst that starts in state `s`. */
  function Bursting(s: State, t: int, n: int): State {
    State(s.limit, s.window, n, if t > s.resetTime then t + s.window else s.resetTime, t)
  }

  /** All the calls `a` are admitted, and lead from `st` to `s`. */
  ghost predicate AllAdmitted(st: State, a: seq<int>, s: State) {
    Admitted(Step, st, a) == a && After(Step, st, a) == s
  }

  lemma {:induction false} OneMoreAdmitted(st: State, a: seq<int>, s: State, t: int)
    requires AllAdmitted(st, a, s) && Step(s, t).1
    ensures AllAdmitted(st, a + [t], Step(s, t).0)
  {
    OneMoreCall(Step, st, a, t);
  }

  /** A burst of at most `limit` calls on a window that is new, or over, is admitted in full. */
  lemma {:induction false} BurstAdmits(st: State, a: seq<int>, s: State, t: int, n: nat)
    requires AllAdmitted(st, a, s) && s.window > 0 && n <= s.limit && (t > s.resetTime || s.count == 0)
    ensures AllAdmitted(st, a + Burst(t, n), if n == 0 then s else Bursting(s, t, n))
  {
    var b := a + Burst(t, n);
    if n == 0 {
      assert b == a;
    } else {
      BurstAdmits(st, a, s, t, n - 1);
      var front := a + Burst(t, n - 1);
      var mid := if n == 1 then s else Bursting(s, t, n - 1);
      assert Step(mid, t) == (Bursting(s, t, n), true);
      OneMoreAdmitted(st, front, mid, t);
      assert b == front + [t];
    }
  }

  lemma {:induction false} BurstsAdmit(limit: nat, window: int, k: nat)
    requires window > 0 && limit > 0
    ensures var t := BurstTime(window, k);
            AllAdmitted(Fresh(limit, window, 0), Bursts(limit, window, k),
                        State(limit, window, limit, if k == 0 then window else t + window, t))
  {
    var st, t := Fresh(limit, window, 0), BurstTime(window, k);
    if k == 0 {
      BurstAdmits(st, [], st, t, limit);
    } else {
      var t' := BurstTime(window, k - 1);
      BurstsAdmit(limit, window, k - 1);
      BurstAdmits(st, Bursts(limit, window, k - 1),
                  State(limit, window, limit, if k == 1 then window else t' + window, t'), t, limit);
    }
  }

  lemma {:induction false} BurstShape(t: int, n: nat)
    ensures |Burst(t, n)| == n && forall i :: 0 <= i < n ==> Burst(t, n)[i] == t
  {
    if n > 0 { BurstShape(t, n - 1); }
  }

  lemma {:induction false} BurstAppends(a: seq<int>, lo: int, t: int, n: nat)
    requires Sorted(a) && UpTo(a, t) && lo <= t && forall i :: 0 <= i < |a| ==> lo <= a[i]
    ensures var b := a + Burst(t, n);
            |b| == |a| + n && Sorted(b) && UpTo(b, t) && forall i :: 0 <= i < |b| ==> lo <= b[i]
  {
    BurstShape(t, n);
  }

  lemma {:induction false} BurstsShape(limit: nat, window: int, k: nat)
    requires window > 0
    ensures var a, t := Bursts(limit, window, k), BurstTime(window, k);
            && |a| == limit + (if k == 0 then 0 else |Bursts(limit, window, k - 1)|)
            && Sorted(a) && window <= t && UpTo(a, t) && forall i :: 0 <= i < |a| ==> window <= a[i]
  {
    var t := BurstTime(window, k);
    if k == 0 {
      BurstAppends([], window, t, limit);
    } else {
      BurstsShape(limit, window, k - 1);
      BurstAppends(Bursts(limit, window, k - 1), window, t, limit);
    }
  }

  /** The bursts that fit into an interval of length `d` fill its quota. */
  lemma {:induction false} BurstsFit(limit: nat, window: int, d: nat)
    requires window > 0
    ensures var k := Windows(d, window + 1);
            BurstTime(window, k) <= window + d && |Bursts(limit, window, k)| == limit + Quota(limit, d, window + 1)
  {
    BurstsShape(limit, window, Windows(d, window + 1));
    if d > window + 1 {
      BurstsFit(limit, window, d - window - 1);
    } else if d > 0 {
      assert Windows(d - window - 1, window + 1) == 0 == Quota(limit, d - window - 1, window + 1);
      BurstsShape(limit, window, 0);
    }
  }

  /** How many of the calls `a` are admitted in [s, s + d]. */
  function Count(limit: nat, window: int, created: int, a: seq<int>, s: int, d: nat): nat {
    |Between(Admitted(Step, Fresh(limit, window, created), a), s, s + d)|
  }

  /** Some run is admitted exactly `n` times in a closed interval of length `d`. */
  ghost predicate Attains(limit: nat, window: int, d: nat, n: int) {
    exists a, s :: Sorted(a) && (a != [] ==> 0 <= a[0]) && Count(limit, window, 0, a, s, d) == n
  }

  lemma {:induction false} AllCounted(limit: nat, window: int, a: seq<int>, s: State, lo: int, d: nat)
    requires AllAdmitted(Fresh(limit, window, 0), a, s) && Sorted(a) && (a != [] ==> lo <= a[0] && Last(a) <= lo + d)
    ensures Count(limit, window, 0, a, lo, d) == |a|
  {
    BetweenAll(a, lo, lo + d);
  }

  lemma {:induction false} BurstsCounted(limit: nat, window: int, k: nat, d: nat)
    requires window > 0 && limit > 0 && BurstTime(window, k) <= window + d
    ensures var a := Bursts(limit, window, k);
            Sorted(a) && (a != [] ==> window <= a[0]) && Count(limit, window, 0, a, window, d) == |a|
  {
    var t := BurstTime(window, k);
    BurstsShape(limit, window, k);
    BurstsAdmit(limit, window, k);
    AllCounted(limit, window, Bursts(limit, window, k),
               State(limit, window, limit, if k == 0 then window else t + window, t), window, d);
  }

  lemma {:induction false} QuotaAttained(limit: nat, window: int, d: nat)
    requires window > 0
    ensures Attains(limit, window, d, limit + Quota(limit, d, window + 1))
  {
    if limit == 0 {
      QuotaIsProduct(0, d, window + 1);
      assert Count(limit, window, 0, [], window, d) == 0;
    } else {
      var k := Windows(d, window + 1);
      BurstsFit(limit, window, d);
      BurstsCounted(limit, window, k, d);
    }
  }

  /** For every length of interval the exact bound is attained. */
  lemma {:induction false} BoundAttained(limit: nat, window: int, d: nat)
    requires window > 0
    ensures Attains(limit, window, d, limit * (Windows(d, window + 1) + 1))
  {
    var n := limit * (Windows(d, window + 1) + 1);
    assert n == limit + Quota(limit, d, window + 1) by { QuotaIsProduct(limit, d, window + 1); }
    QuotaAttained(limit, window, d);
  }

  lemma {:induction false} FewerLongerWindows(d: int, window: int)
    requires window > 0
    ensures Windows(d, window + 1) <= Windows(d, window)
  {
    LongerWindowsAreFewer(1, d, d, window, window + 1);
    QuotaIsProduct(1, d, window);
    QuotaIsProduct(1, d, window + 1);
  }

  lemma {:induction false} SmallerFactor(limit: nat, m: nat, n: nat)
    requires limit * (m + 1) <= limit * (n + 1) && n <= m
    ensures limit == 0 || m == n
  {
    if n < m {
      assert limit * (m + 1) == limit * (n + 1) + limit * (m - n);
      assert limit * (m - n) <= 0;
    }
  }

  /** Counting windows without the instant at which each ends gives too large a bound just where
      it counts more of them. */
  lemma {:induction false} IntervalBoundAttainedIff(limit: nat, window: int, d: nat)
    requires window > 0
    ensures Attains(limit, window, d, limit * (Windows(d, window) + 1))
            <==> limit == 0 || Windows(d, window) == Windows(d, window + 1)
  {
    BoundAttained(limit, window, d);
    var n := limit * (Windows(d, window) + 1);
    if Attains(limit, window, d, n) {
      var a, s :| Sorted(a) && (a != [] ==> 0 <= a[0]) && Count(limit, window, 0, a, s, d) == n;
      ExactBound(limit, window, 0, a, s, d);
      FewerLongerWindows(d, window);
      SmallerFactor(limit, Windows(d, window), Windows(d, window + 1));
    }
  }

  /** Twice the limit within one nanosecond. */
  lemma {:induction false} TwiceTheLimitAttained(limit: nat, window: int)
    requires window > 0
    ensures Attains(limit, window, 1, 2 * limit)
  {
    QuotaAttained(limit, window, 1);
    assert Quota(limit, 1, window + 1) == limit + Quota(limit, -window, window + 1);
  }

  /** No run is ever admitted more than `limit` times in an interval of length `d`. */
  ghost predicate KeepsLimit(limit: nat, window: int, d: nat) {
    forall created, a, s ::
      Sorted(a) && (a != [] ==> created <= a[0]) ==> Count(limit, window, created, a, s, d) <= limit
  }

  /** Exactly when the limit itself is kept, in intervals of a given length: at a single instant
      always, and in a longer interval only by admitting nothing. */
  lemma {:induction false} LimitKeptIff(limit: nat, window: int, d: nat)
    requires window > 0
    ensures KeepsLimit(limit, window, d) <==> d == 0 || limit == 0
  {
    if d == 0 || limit == 0 {
      forall created, a, s | Sorted(a) && (a != [] ==> created <= a[0])
        ensures Count(limit, window, created, a, s, d) <= limit
      {
        IntervalQuota(limit, window, created, a, s, d);
        QuotaIsProduct(limit, d, window + 1);
      }
    } else {
      QuotaAttained(limit, window, d);
      var n := limit + Quota(limit, d, window + 1);
      assert n > limit;
      var a, s :| Sorted(a) && (a != [] ==> 0 <= a[0]) && Count(limit, window, 0, a, s, d) == n;
    }
  }
}
