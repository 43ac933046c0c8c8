/** Several rules on one key at once: the limiter is the composition of its strategies, so
    what it admits respects every rule's bound, whatever evictions happen in between.
    gateway/flow_control/flow_control.go, `RateLimiter.Allow`. */
module Composition {
  import opened History
  import SlidingWindow
  import FixedWindow
  import LeakyBucket
  import opened Strategies
  import opened Eviction

  lemma {:induction false} NoStrategyAdmitsAll(a: seq<int>)
    ensures After(StepAll, [], a) == [] && Admitted(StepAll, [], a) == a
  {
    if a != [] {
      NoStrategyAdmitsAll(Init(a));
      assert Init(a) + [Last(a)] == a;
    }
  }

  /** Composition: the first strategy sees every call, the others exactly what it admits. */
  lemma {:induction false} RunsCompose(sts: seq<State>, a: seq<int>)
    requires sts != []
    ensures var b := Admitted(Step, sts[0], a);
            After(StepAll, sts, a) == [After(Step, sts[0], a)] + After(StepAll, sts[1..], b)
            && Admitted(StepAll, sts, a) == Admitted(StepAll, sts[1..], b)
  {
    if a != [] {
      RunsCompose(sts, Init(a));
      var b := Admitted(Step, sts[0], Init(a));
      var all := After(StepAll, sts, Init(a));
      assert all[0] == After(Step, sts[0], Init(a)) && all[1..] == After(StepAll, sts[1..], b);
      if Step(all[0], Last(a)).1 {
        assert Init(b + [Last(a)]) == b;
      }
    } else {
      assert sts == [sts[0]] + sts[1..];
    }
  }

  lemma {:induction false} RestThins(sts: seq<State>, a: seq<int>)
    ensures Thinned(Admitted(StepAll, sts, a), a)
  {
    if sts == [] {
      NoStrategyAdmitsAll(a);
      ThinnedSelf(a);
    } else {
      RunsCompose(sts, a);
      AdmittedThins(Step, sts[0], a);
      RestThins(sts[1..], Admitted(Step, sts[0], a));
      ThinnedTrans(Admitted(StepAll, sts, a), Admitted(Step, sts[0], a), a);
    }
  }

  /** The calls that reach the i-th strategy: those that all the ones before it admit. */
  function Reaching(sts: seq<State>, a: seq<int>, i: nat): seq<int>
    requires i < |sts|
  {
    Admitted(StepAll, sts[..i], a)
  }

  lemma {:induction false} KeepsLength(sts: seq<State>, a: seq<int>)
    ensures |After(StepAll, sts, a)| == |sts|
  {
    if a != [] {
      KeepsLength(sts, Init(a));
      StepAllAt(After(StepAll, sts, Init(a)), Last(a));
    }
  }

  lemma {:induction false} ReachingRest(sts: seq<State>, a: seq<int>, i: nat)
    requires 0 < i < |sts|
    ensures Reaching(sts, a, i) == Reaching(sts[1..], Admitted(Step, sts[0], a), i - 1)
  {
    var before := sts[..i];
    RunsCompose(before, a);
    assert before[0] == sts[0] && before[1..] == sts[1..][..i - 1];
  }

  /** Each strategy runs on the calls that reach it, and what the list admits is thinned out of
      what the strategy admits of them. */
  lemma {:induction false} EachStrategyAdmitted(sts: seq<State>, a: seq<int>, i: nat)
    requires i < |sts|
    ensures var b := Reaching(sts, a, i);
            && Thinned(b, a) && Thinned(Admitted(StepAll, sts, a), Admitted(Step, sts[i], b))
            && |After(StepAll, sts, a)| == |sts| && After(StepAll, sts, a)[i] == After(Step, sts[i], b)
  {
    var first, rest := Admitted(Step, sts[0], a), sts[1..];
    RunsCompose(sts, a);
    KeepsLength(rest, first);
    RestThins(sts[..i], a);
    if i == 0 {
      NoStrategyAdmitsAll(a);
      assert sts[..0] == [];
      RestThins(rest, first);
    } else {
      ReachingRest(sts, a, i);
      EachStrategyAdmitted(rest, first, i - 1);
      assert rest[i - 1] == sts[i];
    }
  }

  // ----- a strategy's run is its limiter's run -----

  lemma {:induction false} SlidingRuns(s: SlidingWindow.State, a: seq<int>)
    ensures After(Step, Sliding(s), a) == Sliding(After(SlidingWindow.Step, s, a))
    ensures Admitted(Step, Sliding(s), a) == Admitted(SlidingWindow.Step, s, a)
  {
    if a != [] { SlidingRuns(s, Init(a)); }
  }

  lemma {:induction false} FixedRuns(s: FixedWindow.State, a: seq<int>)
    ensures After(Step, Fixed(s), a) == Fixed(After(FixedWindow.Step, s, a))
    ensures Admitted(Step, Fixed(s), a) == Admitted(FixedWindow.Step, s, a)
  {
    if a != [] { FixedRuns(s, Init(a)); }
  }

  lemma {:induction false} LeakyRuns(s: LeakyBucket.State, a: seq<int>)
    ensures After(Step, Leaky(s), a) == Leaky(After(LeakyBucket.Step, s, a))
    ensures Admitted(Step, Leaky(s), a) == Admitted(LeakyBucket.Step, s, a)
  {
    if a != [] { LeakyRuns(s, Init(a)); }
  }

  // ----- one key of a table -----

  function Calls(key: string, evs: seq<Event>): seq<int> {
    if evs == [] then []
    else match Last(evs)
      case Request(k, now) => if k == key then Calls(key, Init(evs)) + [now] else Calls(key, Init(evs))
      case Cleanup(_) => Calls(key, Init(evs))
  }

  /** The times at which the clients of `key` were told yes, given a run's requests and answers. */
  function Granted(key: string, requests: seq<Event>, answers: seq<bool>): seq<int>
    requires |requests| == |answers|
  {
    if requests == [] then []
    else if Last(requests).Request? && Last(requests).key == key && Last(answers)
      then Granted(key, Init(requests), Init(answers)) + [Last(requests).now]
    else Granted(key, Init(requests), Init(answers))
  }

  /** The events that concern one key: its own requests, and every cleanup. */
  function Own(key: string, evs: seq<Event>): seq<Event> {
    if evs == [] then []
    else if Last(evs).Request? && Last(evs).key != key then Own(key, Init(evs))
    else Own(key, Init(evs)) + [Last(evs)]
  }

  lemma {:induction false} OneAnswerEach(rules: seq<Rule>, evs: seq<Event>)
    ensures |Answers(rules, evs)| == |Plain(evs)|
  {
    if evs != [] { OneAnswerEach(rules, Init(evs)); }
  }

  ghost predicate NoCleanups(evs: seq<Event>) {
    forall i :: 0 <= i < |evs| ==> evs[i].Request?
  }

  ghost predicate KeyRuns(rules: seq<Rule>, key: string, a: seq<int>, m: Table, granted: seq<int>) {
    if a == [] then key !in m && granted == []
    else
      var start := FreshAll(rules, a[0]);
      key in m && m[key] == After(StepAll, start, a) && granted == Admitted(StepAll, start, a)
  }

  lemma {:induction false} LastRequest(rules: seq<Rule>, evs: seq<Event>, key: string)
    requires evs != [] && Last(evs).Request? && |Answers(rules, evs)| == |Plain(evs)|
    ensures |Answers(rules, Init(evs))| == |Plain(Init(evs))|
    ensures var Request(k, now) := Last(evs);
            var granted := Granted(key, Plain(Init(evs)), Answers(rules, Init(evs)));
            Granted(key, Plain(evs), Answers(rules, evs))
            == if k == key && Charge(rules, TableAfter(rules, Init(evs)), k, now).1 then granted + [now] else granted
  {
    assert Init(Plain(evs)) == Plain(Init(evs)) && Init(Answers(rules, evs)) == Answers(rules, Init(evs));
  }

  /** Isolation: in every run a key's strategies, and what its clients are granted, depend on that
      key's own calls and on the cleanups alone, however other keys' calls are interleaved. */
  lemma {:induction false} KeysAreIndependent(rules: seq<Rule>, key: string, evs: seq<Event>)
    ensures |Answers(rules, evs)| == |Plain(evs)|
    ensures var own := Own(key, evs); var m, m' := TableAfter(rules, evs), TableAfter(rules, own);
            && |Answers(rules, own)| == |Plain(own)|
            && (key in m <==> key in m') && (key in m ==> m[key] == m'[key])
            && Granted(key, Plain(evs), Answers(rules, evs)) == Granted(key, Plain(own), Answers(rules, own))
  {
    var own := Own(key, evs);
    OneAnswerEach(rules, evs);
    OneAnswerEach(rules, own);
    if evs != [] {
      KeysAreIndependent(rules, key, Init(evs));
      if Last(evs).Request? {
        LastRequest(rules, evs, key);
        if Last(evs).key == key {
          assert Init(own) == Own(key, Init(evs));
          LastRequest(rules, own, key);
        }
      } else {
        assert Init(own) == Own(key, Init(evs));
      }
    }
  }

  /** Without cleanups, a key's strategies and grants are those of its own calls on fresh strategies. */
  lemma {:induction false} OwnCallsRun(rules: seq<Rule>, key: string, evs: seq<Event>)
    requires NoCleanups(evs)
    ensures |Answers(rules, evs)| == |evs|
    ensures KeyRuns(rules, key, Calls(key, evs), TableAfter(rules, evs), Granted(key, evs, Answers(rules, evs)))
  {
    if evs != [] {
      var b := Init(evs);
      var Request(k, now) := Last(evs);
      OwnCallsRun(rules, key, b);
      assert Init(Answers(rules, evs)) == Answers(rules, b);
      if k == key {
        var a := Calls(key, b);
        assert Init(a + [now]) == a && (a + [now])[0] == if a == [] then now else a[0];
      }
    }
  }

  lemma {:induction false} PlainCalls(key: string, evs: seq<Event>)
    ensures NoCleanups(Plain(evs)) && Calls(key, Plain(evs)) == Calls(key, evs)
  {
    if evs != [] {
      PlainCalls(key, Init(evs));
      assert Last(evs).Request? ==> Init(Plain(evs)) == Plain(Init(evs));
    }
  }

  /** Where eviction is invisible, a key's own calls alone decide what it is granted, in runs with
      any cleanups too. */
  lemma {:induction false} OwnCallsDecide(rules: seq<Rule>, key: string, evs: seq<Event>)
    requires Ordered(evs) && (Blocks(rules) || forall i :: 0 <= i < |rules| ==> !NeverLeaks(rules[i]))
    ensures |Answers(rules, evs)| == |Plain(evs)|
    ensures var a := Calls(key, evs);
            Granted(key, Plain(evs), Answers(rules, evs))
            == if a == [] then [] else Admitted(StepAll, FreshAll(rules, a[0]), a)
  {
    EvictionInvisibleIff(rules);
    assert Answers(rules, evs) == Answers(rules, Plain(evs));
    PlainCalls(key, evs);
    OwnCallsRun(rules, key, Plain(evs));
  }

  // ----- every rule's bound on what the key was granted -----

  predicate FixedAt(h: seq<int>, limit: int, window: int, s: int, d: nat)
    requires window > 0
  {
    |Between(h, s, s + d)| <= limit * (FixedWindow.Windows(d, window) + 1)
  }

  ghost predicate LeakyAt(h: seq<int>, limit: int, window: int, s: int, t: int)
    requires window > 0
  {
    |Between(h, s, t)| as real <= limit as real + LeakyBucket.Leak(limit, window)(t - s)
  }

  predicate SlidingAt(h: seq<int>, limit: int, window: int, t: int) {
    SlidingWindow.WindowCount(h, window, t) <= if limit > 0 then limit else 0
  }

  /** The promise of one rule about the admissions `h` of a key. */
  ghost predicate Respects(rule: Rule, h: seq<int>) {
    if rule.mode == "fixed" then
      rule.requests >= 0 && rule.window > 0 ==>
        forall s, d: nat :: FixedAt(h, rule.requests, rule.window, s, d)
    else if rule.mode == "leaky" then
      rule.requests >= 0 && rule.window > 0 ==>
        forall s, t :: s <= t ==> LeakyAt(h, rule.requests, rule.window, s, t)
    else
      forall t :: SlidingAt(h, rule.requests, rule.window, t)
  }

  lemma {:induction false} FixedRespects(limit: nat, window: int, created: int, b: seq<int>, h: seq<int>)
    requires window > 0 && Sorted(b) && (b != [] ==> created <= b[0])
    requires Thinned(h, Admitted(Step, Fixed(FixedWindow.Fresh(limit, window, created)), b))
    ensures forall s, d: nat :: FixedAt(h, limit, window, s, d)
  {
    FixedRuns(FixedWindow.Fresh(limit, window, created), b);
    forall s, d: nat ensures FixedAt(h, limit, window, s, d) {
      FixedWindow.IntervalBound(limit, window, created, b, s, d);
      ThinnedCount(h, Admitted(FixedWindow.Step, FixedWindow.Fresh(limit, window, created), b), s, s + d);
    }
  }

  lemma {:induction false} LeakyRespects(limit: nat, window: int, created: int, b: seq<int>, h: seq<int>)
    requires window > 0 && Sorted(b) && (b != [] ==> created <= b[0])
    requires Thinned(h, Admitted(Step, Leaky(LeakyBucket.Fresh(limit, window, created)), b))
    ensures forall s, t :: s <= t ==> LeakyAt(h, limit, window, s, t)
  {
    LeakyRuns(LeakyBucket.Fresh(limit, window, created), b);
    forall s, t | s <= t ensures LeakyAt(h, limit, window, s, t) {
      LeakyBucket.IntervalBound(limit, window, created, b, s, t);
      ThinnedCount(h, Admitted(LeakyBucket.Step, LeakyBucket.Fresh(limit, window, created), b), s, t);
    }
  }

  lemma {:induction false} SlidingRespects(limit: int, window: int, created: int, b: seq<int>, h: seq<int>)
    requires Sorted(b)
    requires Thinned(h, Admitted(Step, Sliding(SlidingWindow.Fresh(limit, window, created)), b))
    ensures forall t :: SlidingAt(h, limit, window, t)
  {
    SlidingRuns(SlidingWindow.Fresh(limit, window, created), b);
    forall t ensures SlidingAt(h, limit, window, t) {
      SlidingWindow.WindowBound(limit, window, created, b, t);
      ThinnedCount(h, Admitted(SlidingWindow.Step, SlidingWindow.Fresh(limit, window, created), b), t - window + 1, t);
    }
  }

  lemma {:induction false} StrategyRespects(rule: Rule, created: int, b: seq<int>, h: seq<int>)
    requires Sorted(b) && (b != [] ==> created <= b[0])
    requires Thinned(h, Admitted(Step, Fresh(rule, created), b))
    ensures Respects(rule, h)
  {
    if rule.mode == "fixed" {
      if rule.requests >= 0 && rule.window > 0 {
        FixedRespects(rule.requests, rule.window, created, b, h);
      }
    } else if rule.mode == "leaky" {
      if rule.requests >= 0 && rule.window > 0 {
        LeakyRespects(rule.requests, rule.window, created, b, h);
      }
    } else {
      SlidingRespects(rule.requests, rule.window, created, b, h);
    }
  }

  lemma {:induction false} NoAdmissionsRespect(rule: Rule)
    ensures Respects(rule, [])
  {
    StrategyRespects(rule, 0, [], []);
  }

  // ----- with evictions -----

  /** What a key's clients have been granted so far is thinned out of what the i-th rule's strategy
      would have admitted, uninterrupted, of the calls `b`; and its state is that run's, unless
      the key is forgotten and that state idle. */
  ghost predicate Traced(
      rules: seq<Rule>, i: nat, m: Table, key: string, granted: seq<int>, created: int, b: seq<int>, now: int)
    requires i < |rules|
  {
    var rule := rules[i];
    var start := Fresh(rule, created);
    var st := After(Step, start, b);
    && Sorted(b) && UpTo(b, now) && (b != [] ==> created <= b[0]) && (b == [] ==> key !in m)
    && Thinned(granted, Admitted(Step, start, b))
    && Reached(rule, st) && (b != [] ==> LastAccess(st) == Last(b))
    && if key in m then |m[key]| == |rules| && m[key][i] == st
       else b == [] || (now - LastAccess(st) > rule.window && now > LastAccess(st))
  }

  lemma {:induction false} TraceWaits(
      rules: seq<Rule>, i: nat, m: Table, key: string, granted: seq<int>, created: int, b: seq<int>, prev: int,
      now: int)
    requires i < |rules| && prev <= now && Traced(rules, i, m, key, granted, created, b, prev)
    ensures Traced(rules, i, m, key, granted, created, b, now)
  {
  }

  /** One more call that reaches the strategy. */
  lemma {:induction false} TraceSteps(
      rules: seq<Rule>, i: nat, granted: seq<int>, created: int, b: seq<int>, now: int, ok: bool, m: Table,
      key: string)
    requires i < |rules| && Sound(rules[i]) && Sorted(b) && UpTo(b, now)
    requires if b == [] then created == now else created <= b[0]
    requires var start := Fresh(rules[i], created); var st := After(Step, start, b);
             && Thinned(granted, Admitted(Step, start, b)) && Reached(rules[i], st) && LastAccess(st) <= now
             && (ok ==> Step(st, now).1)
             && key in m && |m[key]| == |rules| && m[key][i] == Step(st, now).0
    ensures Traced(rules, i, m, key, if ok then granted + [now] else granted, created, b + [now], now)
  {
    var start := Fresh(rules[i], created);
    var st, h := After(Step, start, b), Admitted(Step, start, b);
    assert Init(b + [now]) == b;
    StepReached(rules[i], st, now);
    assert Init(h + [now]) == h && (ok ==> Init(granted + [now]) == granted);
    if !ok && Step(st, now).1 && granted != [] {
      assert Thinned(granted, Init(h + [now]));
    }
  }

  /** A charge of the key extends its trace. */
  lemma {:induction false} TraceCharged(
      rules: seq<Rule>, i: nat, m: Table, key: string, granted: seq<int>, created: int, b: seq<int>,
      now: int) returns (created': int, b': seq<int>)
    requires i < |rules| && Positive(rules) && Sound(rules[i]) && Traced(rules, i, m, key, granted, created, b, now)
    ensures var (m', ok) := Charge(rules, m, key, now);
            Traced(rules, i, m', key, if ok then granted + [now] else granted, created', b', now)
  {
    var (m', ok) := Charge(rules, m, key, now);
    var st := After(Step, Fresh(rules[i], created), b);
    created', b' := created, b;
    if key in m {
      StepAllAt(m[key], now);
      if m'[key][i] == Step(st, now).0 {
        b' := b + [now];
        TraceSteps(rules, i, granted, created, b, now, ok, m', key);
      }
    } else {
      FreshAllAt(rules, now);
      FreshAlwaysAdmits(rules, now);
      StepAllAt(FreshAll(rules, now), now);
      FreshReached(rules[i], now);
      if b == [] {
        created' := now;
        b' := [now];
        assert [] + [now] == b';
        TraceSteps(rules, i, granted, now, [], now, ok, m', key);
      } else {
        IdleIsFresh(rules[i], st, now);
        b' := b + [now];
        TraceSteps(rules, i, granted, created, b, now, ok, m', key);
      }
    }
  }

  /** A sweep keeps the trace: a forgotten key was idle. */
  lemma {:induction false} TraceSwept(
      rules: seq<Rule>, i: nat, m: Table, key: string, granted: seq<int>, created: int, b: seq<int>, now: int)
    requires i < |rules| && Traced(rules, i, m, key, granted, created, b, now)
    ensures Traced(rules, i, Sweep(rules, m, now), key, granted, created, b, now)
  {
    MaxWindowIsMax(rules);
    if key in m {
      LatestAccessIsMax(m[key]);
    }
  }

  lemma {:induction false} RunTraced(
      rules: seq<Rule>, i: nat, key: string, evs: seq<Event>) returns (created: int, b: seq<int>)
    requires i < |rules| && Positive(rules) && Sound(rules[i]) && Ordered(evs)
    ensures |Answers(rules, evs)| == |Plain(evs)|
    ensures var granted := Granted(key, Plain(evs), Answers(rules, evs));
            if evs == [] then b == [] && granted == []
            else Traced(rules, i, TableAfter(rules, evs), key, granted, created, b, Last(evs).now)
  {
    OneAnswerEach(rules, evs);
    if evs == [] {
      created, b := 0, [];
    } else {
      var front, e := Init(evs), Last(evs);
      var m, granted := TableAfter(rules, front), Granted(key, Plain(front), Answers(rules, front));
      OneAnswerEach(rules, front);
      created, b := RunTraced(rules, i, key, front);
      if front == [] {
        FreshReached(rules[i], created);
      } else {
        TraceWaits(rules, i, m, key, granted, created, b, Last(front).now, e.now);
      }
      assert Traced(rules, i, m, key, granted, created, b, e.now);
      match e
      case Request(k, now) =>
        assert Init(Plain(evs)) == Plain(front) && Init(Answers(rules, evs)) == Answers(rules, front);
        if k == key {
          created, b := TraceCharged(rules, i, m, key, granted, created, b, now);
        }
      case Cleanup(now) =>
        TraceSwept(rules, i, m, key, granted, created, b, now);
    }
  }

  lemma {:induction false} NothingGranted(key: string, requests: seq<Event>, answers: seq<bool>)
    requires |requests| == |answers| && forall i :: 0 <= i < |answers| ==> !answers[i]
    ensures Granted(key, requests, answers) == []
  {
    if requests != [] { NothingGranted(key, Init(requests), Init(answers)); }
  }

  /** In every run, with any cleanups in it, what a key is granted keeps the promises of all the
      rules at once. */
  lemma {:induction false} EveryRuleHoldsAtOnce(rules: seq<Rule>, key: string, evs: seq<Event>, i: nat)
    requires Ordered(evs) && i < |rules|
    ensures |Answers(rules, evs)| == |Plain(evs)|
    ensures Respects(rules[i], Granted(key, Plain(evs), Answers(rules, evs)))
  {
    OneAnswerEach(rules, evs);
    if Blocks(rules) {
      BlockedRunsRefuse(rules, evs);
      NothingGranted(key, Plain(evs), Answers(rules, evs));
      NoAdmissionsRespect(rules[i]);
    } else if !NeverLeaks(rules[i]) {
      assert Positive(rules);
      var created, b := RunTraced(rules, i, key, evs);
      if evs == [] {
        NoAdmissionsRespect(rules[i]);
      } else {
        StrategyRespects(rules[i], created, b, Granted(key, Plain(evs), Answers(rules, evs)));
      }
    }
  }
}
