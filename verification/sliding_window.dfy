/** gateway/flow_control/sliding_window.go: admit while fewer than `limit` of the
    remembered admissions are younger than `window`. */
module SlidingWindow {
  import opened History

  datatype State = State(limit: int, window: int, records: seq<int>, lastAccess: int)

  function Fresh(limit: int, window: int, now: int): State {
    State(limit, window, [], now)
  }

  /** Drops the leading records that are not after the cutoff. */
  function Expire(records: seq<int>, cutoff: int): seq<int> {
    if records == [] || records[0] > cutoff then records else Expire(records[1..], cutoff)
  }

  function Step(s: State, now: int): (State, bool) {
    var live := Expire(s.records, now - s.window);
    var ok := |live| < s.limit;
    (State(s.limit, s.window, if ok then live + [now] else live, now), ok)
  }

  class SlidingWindowLimiter {
    const limit: int
    const window: int
    var records: seq<int>
    var lastAccess: int

    ghost function Value(): State
      reads this
    {
      State(limit, window, records, lastAccess)
    }

    constructor (limit: int, window: int, now: int)
      ensures Value() == Fresh(limit, window, now)
    {
      this.limit := limit;
      this.window := window;
      records := [];
      lastAccess := now;
    }

    method Allow(now: int) returns (ok: bool)
      modifies this
      ensures (Value(), ok) == Step(old(Value()), now)
    {
      lastAccess := now;
      var cutoff := now - window;
      var validIdx := 0;
      for i := 0 to |records|
        invariant validIdx == i
        invariant records == old(records) && lastAccess == now
        invariant Expire(records, cutoff) == Expire(records[i..], cutoff)
      {
        if records[i] > cutoff {
          validIdx := i;
          break;
        }
        assert records[i..][1..] == records[i + 1..];
        validIdx := i + 1;
      }
      assert records[validIdx..] == Expire(records, cutoff);
      if validIdx > 0 {
        records := records[validIdx..];
      }
      if |records| < limit {
        records := records + [now];
        return true;
      }
      return false;
    }
  }

  // ----- whole runs -----

  lemma {:induction false} AfterKeepsConfig(s: State, a: seq<int>)
    ensures After(Step, s, a).limit == s.limit && After(Step, s, a).window == s.window
  {
    if a != [] { AfterKeepsConfig(s, Init(a)); }
  }

  lemma {:induction false} ExpireDrops(h: seq<int>, cutoff: int, n: nat)
    requires n <= |h|
    requires forall k :: 0 <= k < n ==> h[k] <= cutoff
    requires n < |h| ==> h[n] > cutoff
    ensures Expire(h, cutoff) == h[n..]
  {
    if n == 0 {
      assert h[0..] == h;
    } else {
      ExpireDrops(h[1..], cutoff, n - 1);
      assert h[1..][n - 1..] == h[n..];
    }
  }

  /** Dropping a prefix of a sorted list keeps exactly its late entries. */
  lemma {:induction false} ExpireIsFilter(h: seq<int>, cutoff: int, hi: int)
    requires Sorted(h) && UpTo(h, hi)
    ensures Expire(h, cutoff) == Between(h, cutoff + 1, hi)
  {
    var i, j := BetweenIsSlice(h, cutoff + 1, hi);
    assert j == |h|;
    ExpireDrops(h, cutoff, i);
    assert h[i..j] == h[i..];
  }

  /** Filtering twice, the second time at a later cutoff, is filtering once. */
  lemma {:induction false} BetweenTwice(h: seq<int>, lo: int, lo': int, hi: int, hi': int)
    requires lo <= lo' && hi <= hi' && UpTo(h, hi)
    ensures Between(Between(h, lo, hi), lo', hi') == Between(h, lo', hi')
  {
    if h != [] {
      BetweenTwice(Init(h), lo, lo', hi, hi');
      if lo <= Last(h) {
        BetweenAppend(Between(Init(h), lo, hi), Last(h), lo', hi');
      }
    }
  }

  lemma {:induction false} KeptIsSorted(h: seq<int>, lo: int, hi: int)
    requires Sorted(h)
    ensures Sorted(Between(h, lo, hi)) && UpTo(Between(h, lo, hi), hi)
  {
    var i, j := BetweenIsSlice(h, lo, hi);
  }

  lemma {:induction false} SortedAppend(h: seq<int>, t: int, hi: int)
    requires Sorted(h) && UpTo(h, t) && t <= hi
    ensures Sorted(h + [t]) && UpTo(h + [t], hi)
  {
  }

  lemma {:induction false} AppendBoth(h: seq<int>, h': seq<int>, t: int, lo: int, hi: int)
    requires Between(h, lo, hi) == Between(h', lo, hi)
    ensures Between(h + [t], lo, hi) == Between(h' + [t], lo, hi)
  {
    BetweenAppend(h, t, lo, hi);
    BetweenAppend(h', t, lo, hi);
  }

  /** Expiring what an earlier call kept is the same as expiring the whole history. */
  lemma {:induction false} ExpireKept(h: seq<int>, lo: int, prev: int, cutoff: int, now: int)
    requires Sorted(h) && UpTo(h, prev) && prev <= now && lo <= cutoff + 1
    ensures Expire(Between(h, lo, prev), cutoff) == Between(h, cutoff + 1, now)
  {
    KeptIsSorted(h, lo, prev);
    BetweenTwice(h, lo, cutoff + 1, prev, now);
    ExpireIsFilter(Between(h, lo, prev), cutoff, now);
  }

  lemma {:induction false} ExpireKeptAndNew(h: seq<int>, lo: int, prev: int, cutoff: int, now: int)
    requires Sorted(h) && UpTo(h, prev) && prev <= now && lo <= cutoff + 1
    ensures Expire(Between(h, lo, prev) + [prev], cutoff) == Between(h + [prev], cutoff + 1, now)
  {
    var kept := Between(h, lo, prev);
    KeptIsSorted(h, lo, prev);
    BetweenTwice(h, lo, cutoff + 1, prev, now);
    AppendBoth(kept, h, prev, cutoff + 1, now);
    SortedAppend(kept, prev, now);
    ExpireIsFilter(kept + [prev], cutoff, now);
  }

  lemma {:induction false} StillLive(h: seq<int>, ok: bool, lo: int, prev: int, cutoff: int, now: int)
    requires Sorted(h) && UpTo(h, prev) && prev <= now && lo <= cutoff + 1
    ensures var kept := Between(h, lo, prev);
            Expire(if ok then kept + [prev] else kept, cutoff) == Between(if ok then h + [prev] else h, cutoff + 1, now)
  {
    if ok {
      ExpireKeptAndNew(h, lo, prev, cutoff, now);
    } else {
      ExpireKept(h, lo, prev, cutoff, now);
    }
  }

  ghost predicate LiveAt(records: seq<int>, h: seq<int>, cutoff: int, now: int) {
    Expire(records, cutoff) == Between(h, cutoff + 1, now)
  }

  /** Whatever a later call expires, it is left with the admissions `h` of its own window. */
  ghost predicate LiveAfter(records: seq<int>, h: seq<int>, window: int, prev: int) {
    forall cutoff, now :: prev <= now && prev - window <= cutoff ==> LiveAt(records, h, cutoff, now)
  }

  lemma {:induction false} CallKeepsLive(s: State, h: seq<int>, prev: int, now: int)
    requires LiveAfter(s.records, h, s.window, prev) && Sorted(h) && UpTo(h, prev) && prev <= now
    ensures var (s', ok) := Step(s, now); LiveAfter(s'.records, if ok then h + [now] else h, s.window, now)
  {
    var (s', ok) := Step(s, now);
    var h' := if ok then h + [now] else h;
    assert LiveAt(s.records, h, now - s.window, now);
    forall cutoff, now' | now <= now' && now - s.window <= cutoff
      ensures LiveAt(s'.records, h', cutoff, now')
    {
      StillLive(h, ok, now - s.window + 1, now, cutoff, now');
    }
  }

  lemma {:induction false} RunKeepsLive(limit: int, window: int, created: int, a: seq<int>, prev: int)
    requires Sorted(a) && (a != [] ==> prev == Last(a))
    ensures var s := Fresh(limit, window, created); var h := Admitted(Step, s, a);
            LiveAfter(After(Step, s, a).records, h, window, prev) && Sorted(h) && UpTo(h, prev)
  {
    var s := Fresh(limit, window, created);
    AdmittedSorted(Step, s, a);
    if a == [] {
      assert forall cutoff, now :: LiveAt([], [], cutoff, now);
    } else {
      var before := if Init(a) == [] then prev else Last(Init(a));
      RunKeepsLive(limit, window, created, Init(a), before);
      AfterKeepsConfig(s, Init(a));
      CallKeepsLive(After(Step, s, Init(a)), Admitted(Step, s, Init(a)), before, prev);
    }
  }

  /** What a call looks at, whatever was dropped along the way: exactly those of all
      earlier admissions that lie in its own window (now - window, now]. */
  lemma {:induction false} LiveRecords(limit: int, window: int, created: int, a: seq<int>)
    requires Sorted(a) && a != []
    ensures var s := Fresh(limit, window, created);
            Expire(After(Step, s, Init(a)).records, Last(a) - window)
            == Between(Admitted(Step, s, Init(a)), Last(a) - window + 1, Last(a))
  {
    var s, b, now := Fresh(limit, window, created), Init(a), Last(a);
    RunKeepsLive(limit, window, created, b, if b == [] then now else Last(b));
    assert LiveAt(After(Step, s, b).records, Admitted(Step, s, b), now - window, now);
  }

  /** What a call leaves: the earlier admissions of its window, and itself if admitted. */
  lemma {:induction false} RecordsKept(limit: int, window: int, created: int, a: seq<int>)
    requires Sorted(a) && a != []
    ensures var s := Fresh(limit, window, created); var now := Last(a);
            var kept := Between(Admitted(Step, s, Init(a)), now - window + 1, now);
            After(Step, s, a).records == if Step(After(Step, s, Init(a)), now).1 then kept + [now] else kept
  {
    LiveRecords(limit, window, created, a);
    AfterKeepsConfig(Fresh(limit, window, created), Init(a));
  }

  /** Refinement: after every call the retained records are the admissions of the whole
      history that are later than that call's cutoff, in order. */
  lemma {:induction false} RecordsAreRecentAdmissions(limit: int, window: int, created: int, a: seq<int>)
    requires Sorted(a) && a != [] && window > 0
    ensures var s := Fresh(limit, window, created);
            After(Step, s, a).records == Between(Admitted(Step, s, a), Last(a) - window + 1, Last(a))
  {
    var s := Fresh(limit, window, created);
    RecordsKept(limit, window, created, a);
    BetweenAppend(Admitted(Step, s, Init(a)), Last(a), Last(a) - window + 1, Last(a));
  }

  /** A call is refused if and only if its window already holds `limit` admissions. */
  lemma {:induction false} RefusedIffWindowFull(limit: int, window: int, created: int, a: seq<int>)
    requires Sorted(a) && a != []
    ensures var s := Fresh(limit, window, created);
            !Step(After(Step, s, Init(a)), Last(a)).1
            <==> |Between(Admitted(Step, s, Init(a)), Last(a) - window + 1, Last(a))| >= limit
  {
    LiveRecords(limit, window, created, a);
    AfterKeepsConfig(Fresh(limit, window, created), Init(a));
  }

  /** Among entries no later than `now`, a window ending later holds no more than one
      of the same length ending at `now`. */
  lemma {:induction false} EarlierHiSame(h: seq<int>, lo: int, lo': int, now: int, hi: int)
    requires UpTo(h, now)
    requires lo' <= lo && now <= hi
    ensures |Between(h, lo, hi)| <= |Between(h, lo', now)|
  {
    if h != [] {
      EarlierHiSame(Init(h), lo, lo', now, hi);
    }
  }

  /** Admitting `now` when its own window has room overfills no other window. */
  lemma {:induction false} RoomForOne(h: seq<int>, limit: int, window: int, now: int, t: int)
    requires UpTo(h, now) && |Between(h, now - window + 1, now)| < limit
    requires |Between(h, t - window + 1, t)| <= limit
    ensures |Between(h + [now], t - window + 1, t)| <= limit
  {
    BetweenAppend(h, now, t - window + 1, t);
    if t - window + 1 <= now <= t {
      EarlierHiSame(h, t - window + 1, now - window + 1, now, t);
    }
  }

  /** No window (t - window, t], wherever it lies, holds more than `limit` admissions. */
  lemma {:induction false} WindowBound(limit: int, window: int, created: int, a: seq<int>, t: int)
    requires Sorted(a)
    ensures |Between(Admitted(Step, Fresh(limit, window, created), a), t - window + 1, t)|
            <= if limit > 0 then limit else 0
  {
    if a != [] {
      var s, now := Fresh(limit, window, created), Last(a);
      var h := Admitted(Step, s, Init(a));
      WindowBound(limit, window, created, Init(a), t);
      if Step(After(Step, s, Init(a)), now).1 {
        RefusedIffWindowFull(limit, window, created, a);
        AdmittedSorted(Step, s, Init(a));
        assert UpTo(h, now) by { if Init(a) != [] { assert Last(Init(a)) <= now; } }
        RoomForOne(h, limit, window, now, t);
      }
    }
  }

  // ----- optimality -----

  /** The arrivals picked by some other policy. */
  function Chosen(a: seq<int>, pick: seq<bool>): seq<int>
    requires |a| == |pick|
  {
    if a == [] then []
    else if Last(pick) then Chosen(Init(a), Init(pick)) + [Last(a)]
    else Chosen(Init(a), Init(pick))
  }

  function WindowCount(h: seq<int>, window: int, t: int): nat {
    |Between(h, t - window + 1, t)|
  }

  /** A policy is lawful when each window (t - window, t] holds at most `limit` picks. */
  ghost predicate Lawful(h: seq<int>, limit: int, window: int) {
    forall t :: WindowCount(h, window, t) <= limit
  }

  lemma {:induction false} ChosenThins(a: seq<int>, pick: seq<bool>)
    requires |a| == |pick|
    ensures Thinned(Chosen(a, pick), a)
  {
    if a != [] {
      ChosenThins(Init(a), Init(pick));
      var h := Chosen(Init(a), Init(pick));
      if Last(pick) {
        assert Init(h + [Last(a)]) == h;
      }
    }
  }

  /** Sorted entries up to `hi`: at least n of them are >= lo iff the n-th from the end is. */
  lemma {:induction false} CountFromEnd(h: seq<int>, lo: int, hi: int, n: nat)
    requires Sorted(h) && UpTo(h, hi)
    requires 0 < n
    ensures |Between(h, lo, hi)| >= n <==> n <= |h| && h[|h| - n] >= lo
  {
    var i, j := BetweenIsSlice(h, lo, hi);
    assert j == |h|;
  }

  lemma {:induction false} LawfulPrefix(o: seq<int>, h: seq<int>, limit: int, window: int)
    requires o <= h && Lawful(h, limit, window)
    ensures Lawful(o, limit, window)
  {
    forall t ensures WindowCount(o, window, t) <= limit {
      assert WindowCount(h, window, t) <= limit;
      assert o == h[..|o|];
      BetweenPrefix(h, |o|, t - window + 1, t);
    }
  }

  lemma {:induction false} RoomLeft(g: seq<int>, o: seq<int>, limit: nat, window: int, t: int)
    requires Sorted(g) && UpTo(g, t) && Sorted(o) && UpTo(o, t) && (window > 0 || limit > 0)
    requires |o| == |g| && forall k :: 0 <= k < |o| ==> g[k] <= o[k]
    requires WindowCount(o + [t], window, t) <= limit
    ensures |Between(g, t - window + 1, t)| < limit
  {
    var lo := t - window + 1;
    if window > 0 {
      BetweenAppend(o, t, lo, t);
      if limit > 0 {
        CountFromEnd(g, lo, t, limit);
        CountFromEnd(o, lo, t, limit);
      }
    } else {
      CountFromEnd(g, lo, t, limit);
    }
  }

  /** The step: level with the policy, the limiter cannot refuse what the policy may pick. */
  lemma {:induction false} GreedyNotBehind(limit: nat, window: int, created: int, a: seq<int>, o: seq<int>)
    requires Sorted(a) && a != [] && (window > 0 || limit > 0)
    requires Sorted(o) && UpTo(o, Last(a))
    requires var g := Admitted(Step, Fresh(limit, window, created), Init(a));
             |o| == |g| && forall k :: 0 <= k < |o| ==> g[k] <= o[k]
    requires Lawful(o + [Last(a)], limit, window)
    ensures Step(After(Step, Fresh(limit, window, created), Init(a)), Last(a)).1
  {
    RefusedIffWindowFull(limit, window, created, a);
    AdmittedSorted(Step, Fresh(limit, window, created), Init(a));
    RoomLeft(Admitted(Step, Fresh(limit, window, created), Init(a)), o, limit, window, Last(a));
  }

  /** Greedy stays ahead: whatever lawful policy picks, the limiter has admitted at least
      as many of the arrivals, and its k-th admission comes no later than the k-th pick. */
  lemma {:induction false} GreedyStaysAhead(limit: nat, window: int, created: int, a: seq<int>, pick: seq<bool>)
    requires Sorted(a) && |a| == |pick| && (window > 0 || limit > 0)
    requires Lawful(Chosen(a, pick), limit, window)
    ensures var g := Admitted(Step, Fresh(limit, window, created), a); var o := Chosen(a, pick);
            |o| <= |g| && forall k :: 0 <= k < |o| ==> g[k] <= o[k]
  {
    if a != [] {
      var s, t := Fresh(limit, window, created), Last(a);
      var g, o := Admitted(Step, s, Init(a)), Chosen(Init(a), Init(pick));
      assert Lawful(o, limit, window) by { LawfulPrefix(o, Chosen(a, pick), limit, window); }
      GreedyStaysAhead(limit, window, created, Init(a), Init(pick));
      AdmittedSorted(Step, s, Init(a));
      ChosenThins(Init(a), Init(pick));
      ThinnedSorted(o, Init(a));
      if Init(a) != [] { ThinnedUpTo(o, Init(a)); }
      if Last(pick) && |o| == |g| && !Step(After(Step, s, Init(a)), t).1 {
        GreedyNotBehind(limit, window, created, a, o);
      }
    }
  }
}
