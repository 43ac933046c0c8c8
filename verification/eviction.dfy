/** Eviction of idle keys: when no client can observe `cleanup`, and when one can.
    gateway/flow_control/flow_control.go, `RateLimiter.Allow` and `cleanup`. */
module Eviction {
  import opened History
  import SlidingWindow
  import LeakyBucket
  import opened Strategies

  /** Some rule can never admit anything. */
  predicate Blocks(rules: seq<Rule>) {
    exists i :: 0 <= i < |rules| && rules[i].requests <= 0
  }

  /** A leaky rule with a negative window has a negative rate: its bucket never drains. */
  predicate NeverLeaks(rule: Rule) {
    rule.mode == "leaky" && rule.window < 0
  }

  // ----- one strategy -----

  predicate Sound(rule: Rule) {
    rule.requests >= 1 && !NeverLeaks(rule)
  }

  /** What every reachable strategy of a sound rule satisfies. */
  ghost predicate Reached(rule: Rule, st: State) {
    match st
    case Sliding(s) =>
      && rule.mode != "fixed" && rule.mode != "leaky"
      && s.limit == rule.requests && s.window == rule.window && UpTo(s.records, s.lastAccess)
    case Fixed(s) =>
      && rule.mode == "fixed"
      && s.limit == rule.requests && s.window == rule.window && s.resetTime <= s.lastAccess + s.window
    case Leaky(s) =>
      && rule.mode == "leaky"
      && s.capacity == rule.requests as real
      && s.rate == LeakyBucket.Divide(rule.requests as real, LeakyBucket.Seconds(rule.window))
      && 0.0 <= s.water <= s.capacity && s.lastLeak == s.lastAccess
  }

  lemma {:induction false} FreshReached(rule: Rule, now: int)
    requires Sound(rule)
    ensures Reached(rule, Fresh(rule, now)) && LastAccess(Fresh(rule, now)) == now
    ensures Step(Fresh(rule, now), now).1
  {
  }

  lemma {:induction false} ExpiredStaysUpTo(h: seq<int>, cutoff: int, now: int)
    requires UpTo(h, now)
    ensures UpTo(SlidingWindow.Expire(h, cutoff), now)
  {
    if h != [] && h[0] <= cutoff { ExpiredStaysUpTo(h[1..], cutoff, now); }
  }

  lemma {:induction false} DivideThenMultiply(c: real, w: real, d: real)
    requires c > 0.0 && w > 0.0 && d >= 0.0
    ensures d * (c / w) > 0.0 <==> d > 0.0
    ensures d > w ==> d * (c / w) >= c
  {
    var r := c / w;
    assert r > 0.0 && r * w == c;
    if d > w { assert (d - w) * r >= 0.0; }
  }

  /** A sound bucket leaks exactly when time has passed, and all of it after a whole window. */
  lemma {:induction false} LeakySignal(rule: Rule, s: LeakyBucket.State, now: int)
    requires Sound(rule) && Reached(rule, Leaky(s)) && s.lastLeak <= now
    ensures var leaked := LeakyBucket.Times(LeakyBucket.Seconds(now - s.lastLeak), s.rate);
            && (leaked.Positive() <==> now > s.lastLeak)
            && (now - s.lastLeak > rule.window && now > s.lastLeak ==> leaked.PosInf? || leaked.r >= s.capacity)
  {
    var d := now - s.lastLeak;
    if rule.window > 0 {
      DivideThenMultiply(rule.requests as real, LeakyBucket.Seconds(rule.window), LeakyBucket.Seconds(d));
    }
  }

  lemma {:induction false} StepReached(rule: Rule, st: State, now: int)
    requires Sound(rule) && Reached(rule, st) && LastAccess(st) <= now
    ensures Reached(rule, Step(st, now).0) && LastAccess(Step(st, now).0) == now
  {
    match st
    case Sliding(s) => ExpiredStaysUpTo(s.records, now - s.window, now);
    case Fixed(s) =>
    case Leaky(s) => LeakySignal(rule, s, now);
  }

  lemma {:induction false} ExpireAll(h: seq<int>, cutoff: int)
    requires UpTo(h, cutoff)
    ensures SlidingWindow.Expire(h, cutoff) == []
  {
    if h != [] { ExpireAll(h[1..], cutoff); }
  }

  /** The heart of the matter: idle for longer than its window, a strategy admits and then
      is indistinguishable from one created at that moment. */
  lemma {:induction false} IdleIsFresh(rule: Rule, st: State, now: int)
    requires Sound(rule) && Reached(rule, st)
    requires now - LastAccess(st) > rule.window && now > LastAccess(st)
    ensures Step(st, now) == Step(Fresh(rule, now), now) && Step(st, now).1
  {
    match st
    case Sliding(s) => ExpireAll(s.records, now - s.window);
    case Fixed(s) =>
    case Leaky(s) => LeakySignal(rule, s, now);
  }

  // ----- a key's list of strategies -----

  ghost predicate AllReached(rules: seq<Rule>, sts: seq<State>, now: int) {
    |sts| == |rules| && forall i :: 0 <= i < |rules| ==> Reached(rules[i], sts[i]) && LastAccess(sts[i]) <= now
  }

  ghost predicate AllSound(rules: seq<Rule>) {
    forall i :: 0 <= i < |rules| ==> Sound(rules[i])
  }

  lemma {:induction false} FreshAllAdmits(rules: seq<Rule>, now: int)
    requires AllSound(rules)
    ensures AllReached(rules, FreshAll(rules, now), now)
    ensures StepAll(FreshAll(rules, now), now).1
  {
    FreshAllAt(rules, now);
    StepAllAt(FreshAll(rules, now), now);
    forall i | 0 <= i < |rules|
      ensures var st := Fresh(rules[i], now); Reached(rules[i], st) && LastAccess(st) == now && Step(st, now).1
    {
      FreshReached(rules[i], now);
    }
  }

  lemma {:induction false} StepAllReached(rules: seq<Rule>, sts: seq<State>, prev: int, now: int)
    requires AllSound(rules) && AllReached(rules, sts, prev) && prev <= now
    ensures AllReached(rules, StepAll(sts, now).0, now)
  {
    StepAllAt(sts, now);
    forall i | 0 <= i < |rules|
      ensures Reached(rules[i], StepAll(sts, now).0[i]) && LastAccess(StepAll(sts, now).0[i]) <= now
    {
      StepReached(rules[i], sts[i], now);
    }
  }

  /** An idle key answers, and then looks, as if it had been forgotten. */
  lemma {:induction false} IdleKeyIsFresh(rules: seq<Rule>, sts: seq<State>, now: int)
    requires AllSound(rules) && AllReached(rules, sts, now) && Idle(rules, sts, now)
    ensures StepAll(sts, now) == StepAll(FreshAll(rules, now), now)
  {
    MaxWindowIsMax(rules);
    LatestAccessIsMax(sts);
    FreshAllAt(rules, now);
    var anew := FreshAll(rules, now);
    forall i | 0 <= i < |rules| ensures Step(sts[i], now) == Step(anew[i], now) && Step(sts[i], now).1 {
      IdleIsFresh(rules[i], sts[i], now);
    }
    StepAllAt(sts, now);
    StepAllAt(anew, now);
    assert StepAll(sts, now).0 == StepAll(anew, now).0;
  }

  // ----- the bisimulation -----

  /** `m` is `full` without some keys, all of which are idle. */
  ghost predicate Forgets(rules: seq<Rule>, m: Table, full: Table, now: int) {
    && (forall key :: key in m ==> key in full && m[key] == full[key])
    && (forall key :: key in full ==> AllReached(rules, full[key], now))
    && (forall key :: key in full && key !in m ==> Idle(rules, full[key], now))
  }

  lemma {:induction false} TimePasses(rules: seq<Rule>, m: Table, full: Table, prev: int, now: int)
    requires Forgets(rules, m, full, prev) && prev <= now
    ensures Forgets(rules, m, full, now)
  {
  }

  lemma {:induction false} ChargeAgrees(rules: seq<Rule>, m: Table, full: Table, key: string, now: int)
    requires AllSound(rules) && Forgets(rules, m, full, now)
    ensures Charge(rules, m, key, now).1 == Charge(rules, full, key, now).1
    ensures Forgets(rules, Charge(rules, m, key, now).0, Charge(rules, full, key, now).0, now)
  {
    FreshAllAdmits(rules, now);
    var sts := if key in full then full[key] else FreshAll(rules, now);
    StepAllReached(rules, sts, now, now);
    if key in full && key !in m {
      IdleKeyIsFresh(rules, full[key], now);
    }
  }

  /** With sound rules the swept table and the unswept one stay in step. */
  lemma {:induction false} SweptAndUnswept(rules: seq<Rule>, evs: seq<Event>)
    requires AllSound(rules) && Ordered(evs)
    ensures Answers(rules, evs) == Answers(rules, Plain(evs))
    ensures evs != [] ==> Forgets(rules, TableAfter(rules, evs), TableAfter(rules, Plain(evs)), Last(evs).now)
  {
    if evs != [] {
      var front, e := Init(evs), Last(evs);
      var m, full := TableAfter(rules, front), TableAfter(rules, Plain(front));
      SweptAndUnswept(rules, front);
      if front != [] {
        TimePasses(rules, m, full, Last(front).now, e.now);
      }
      match e
      case Request(key, now) =>
        ChargeAgrees(rules, m, full, key, now);
        assert Init(Plain(evs)) == Plain(front);
      case Cleanup(now) =>
    }
  }

  // ----- a rule that never admits -----

  ghost predicate Shut(st: State) {
    match st
    case Sliding(s) => s.limit <= 0
    case Fixed(s) => s.limit <= 0 && s.count >= 0
    case Leaky(s) => s.capacity <= 0.0 && s.water >= 0.0
  }

  ghost predicate SomeShut(sts: seq<State>) {
    exists i :: 0 <= i < |sts| && Shut(sts[i])
  }

  lemma {:induction false} ShutStaysShut(st: State, now: int)
    requires Shut(st)
    ensures !Step(st, now).1 && Shut(Step(st, now).0)
  {
  }

  lemma {:induction false} SomeShutRefuses(sts: seq<State>, now: int)
    requires SomeShut(sts)
    ensures !StepAll(sts, now).1 && SomeShut(StepAll(sts, now).0)
  {
    var i :| 0 <= i < |sts| && Shut(sts[i]);
    ShutStaysShut(sts[i], now);
    StepAllAt(sts, now);
    assert Shut(StepAll(sts, now).0[i]);
  }

  lemma {:induction false} BlockedRunsRefuse(rules: seq<Rule>, evs: seq<Event>)
    requires Blocks(rules)
    ensures forall key :: key in TableAfter(rules, evs) ==> SomeShut(TableAfter(rules, evs)[key])
    ensures |Answers(rules, evs)| == |Plain(evs)|
    ensures forall i :: 0 <= i < |Answers(rules, evs)| ==> !Answers(rules, evs)[i]
  {
    if evs != [] {
      BlockedRunsRefuse(rules, Init(evs));
      if Last(evs).Request? {
        var Request(key, now) := Last(evs);
        var m := TableAfter(rules, Init(evs));
        FreshAllAt(rules, now);
        var i :| 0 <= i < |rules| && rules[i].requests <= 0;
        assert Shut(FreshAll(rules, now)[i]);
        SomeShutRefuses(if key in m then m[key] else FreshAll(rules, now), now);
      }
    }
  }

  lemma {:induction false} PlainTwice(evs: seq<Event>)
    ensures Plain(Plain(evs)) == Plain(evs)
  {
    if evs != [] {
      PlainTwice(Init(evs));
      assert Last(evs).Request? ==> Init(Plain(evs)) == Plain(Init(evs));
    }
  }

  // ----- a bucket that never drains -----

  /** The n-th tick of a clock of period `w`. */
  function Tick(w: int, n: nat): int {
    if n == 0 then 0 else Tick(w, n - 1) + w
  }

  /** One request to one key, then a sweep once the key is idle; n times over. */
  function Storm(w: int, n: nat): seq<Event> {
    if n == 0 then [] else Storm(w, n - 1) + [Request("", Tick(w, n)), Cleanup(Tick(w, n) + w)]
  }

  lemma {:induction false} StormOrdered(w: nat, n: nat)
    ensures Ordered(Storm(w, n)) && 0 <= Tick(w, n)
    ensures forall i :: 0 <= i < |Storm(w, n)| ==> Storm(w, n)[i].now <= Tick(w, n) + w
  {
    if n > 0 {
      StormOrdered(w, n - 1);
    }
  }

  ghost predicate AllTrue(s: seq<bool>) {
    forall i :: 0 <= i < |s| ==> s[i]
  }

  lemma {:induction false} AllTrueAppend(s: seq<bool>, b: bool)
    ensures AllTrue(s + [b]) <==> AllTrue(s) && b
  {
    if AllTrue(s + [b]) {
      assert (s + [b])[|s|];
      forall i | 0 <= i < |s| ensures s[i] {
        assert (s + [b])[i];
      }
    }
  }

  lemma {:induction false} RequestUnfolds(rules: seq<Rule>, evs: seq<Event>, t: int)
    ensures var evs' := evs + [Request("", t)]; var (m, ok) := Charge(rules, TableAfter(rules, evs), "", t);
            TableAfter(rules, evs') == m && (AllTrue(Answers(rules, evs')) <==> AllTrue(Answers(rules, evs)) && ok)
            && Plain(evs') == Plain(evs) + [Request("", t)]
  {
    var evs' := evs + [Request("", t)];
    assert Init(evs') == evs;
    AllTrueAppend(Answers(rules, evs), Charge(rules, TableAfter(rules, evs), "", t).1);
  }

  lemma {:induction false} CleanupUnfolds(rules: seq<Rule>, evs: seq<Event>, t: int)
    ensures var evs' := evs + [Cleanup(t)];
            TableAfter(rules, evs') == Sweep(rules, TableAfter(rules, evs), t)
            && Answers(rules, evs') == Answers(rules, evs) && Plain(evs') == Plain(evs)
  {
    assert Init(evs + [Cleanup(t)]) == evs;
  }

  ghost predicate Positive(rules: seq<Rule>) {
    forall i :: 0 <= i < |rules| ==> rules[i].requests >= 1
  }

  lemma {:induction false} FreshAlwaysAdmits(rules: seq<Rule>, now: int)
    requires Positive(rules)
    ensures StepAll(FreshAll(rules, now), now).1
    ensures var sts := StepAll(FreshAll(rules, now), now).0;
            forall i :: 0 <= i < |sts| ==> LastAccess(sts[i]) == now
  {
    FreshAllAt(rules, now);
    StepAllAt(FreshAll(rules, now), now);
    forall i | 0 <= i < |rules| ensures Step(Fresh(rules[i], now), now).1 {
      assert rules[i].requests >= 1;
    }
  }

  /** A key seen for the first time is admitted, and forgotten by a sweep one idle period later. */
  lemma {:induction false} ForgottenAtOnce(rules: seq<Rule>, m: Table, t: nat, w: int)
    requires Positive(rules) && w == MaxWindow(rules) + 1 && m == map[]
    ensures var (m', ok) := Charge(rules, m, "", t); ok && Sweep(rules, m', t + w) == map[]
  {
    var sts := StepAll(FreshAll(rules, t), t).0;
    FreshAlwaysAdmits(rules, t);
    LatestAccessIsMax(sts);
    assert LatestAccess(sts) <= t;
    assert Idle(rules, sts, t + w);
  }

  /** Every request so far was admitted and then forgotten. */
  ghost predicate Forgotten(rules: seq<Rule>, evs: seq<Event>) {
    TableAfter(rules, evs) == map[] && AllTrue(Answers(rules, evs))
  }

  lemma {:induction false} SweptTable(rules: seq<Rule>, before: seq<Event>, t: nat, w: int)
    requires Positive(rules) && w == MaxWindow(rules) + 1 && TableAfter(rules, before) == map[]
    ensures TableAfter(rules, before + [Request("", t)] + [Cleanup(t + w)]) == map[]
  {
    RequestUnfolds(rules, before, t);
    CleanupUnfolds(rules, before + [Request("", t)], t + w);
    ForgottenAtOnce(rules, TableAfter(rules, before), t, w);
  }

  lemma {:induction false} SweptAnswers(rules: seq<Rule>, before: seq<Event>, t: nat, w: int)
    requires Positive(rules) && w == MaxWindow(rules) + 1
    requires TableAfter(rules, before) == map[] && AllTrue(Answers(rules, before))
    ensures AllTrue(Answers(rules, before + [Request("", t)] + [Cleanup(t + w)]))
  {
    RequestUnfolds(rules, before, t);
    CleanupUnfolds(rules, before + [Request("", t)], t + w);
    ForgottenAtOnce(rules, TableAfter(rules, before), t, w);
  }

  lemma {:induction false} SweptStep(rules: seq<Rule>, before: seq<Event>, t: nat, w: int)
    requires Positive(rules) && w == MaxWindow(rules) + 1 && Forgotten(rules, before)
    ensures Forgotten(rules, before + [Request("", t), Cleanup(t + w)])
  {
    SweptTable(rules, before, t, w);
    SweptAnswers(rules, before, t, w);
    assert before + [Request("", t), Cleanup(t + w)] == before + [Request("", t)] + [Cleanup(t + w)];
  }

  /** Rounds of one request to one key and a sweep `w` later. */
  ghost predicate Rounds(evs: seq<Event>, w: int) {
    evs == [] ||
    (|evs| >= 2 &&
     var before, t := evs[..|evs| - 2], evs[|evs| - 2].now;
     t >= 0 && evs[|evs| - 2] == Request("", t) && evs[|evs| - 1] == Cleanup(t + w) && Rounds(before, w))
  }

  lemma {:induction false} OneMoreRound(before: seq<Event>, t: nat, w: int)
    requires Rounds(before, w)
    ensures Rounds(before + [Request("", t), Cleanup(t + w)], w)
  {
    var evs := before + [Request("", t), Cleanup(t + w)];
    assert evs[..|evs| - 2] == before;
  }

  lemma {:induction false} TickNotNegative(w: nat, n: nat)
    ensures Tick(w, n) >= 0
  {
    if n > 0 { TickNotNegative(w, n - 1); }
  }

  lemma {:induction false} StormRounds(w: nat, n: nat)
    ensures Rounds(Storm(w, n), w)
  {
    if n > 0 {
      StormRounds(w, n - 1);
      TickNotNegative(w, n);
      OneMoreRound(Storm(w, n - 1), Tick(w, n), w);
    }
  }

  lemma {:induction false} SweptRuns(rules: seq<Rule>, w: int, evs: seq<Event>)
    requires Positive(rules) && w == MaxWindow(rules) + 1 && Rounds(evs, w)
    ensures Forgotten(rules, evs)
  {
    if evs != [] {
      var before, t := evs[..|evs| - 2], evs[|evs| - 2].now;
      SweptRuns(rules, w, before);
      SweptStep(rules, before, t, w);
      assert evs == before + [Request("", t), Cleanup(t + w)];
    }
  }

  /** Swept after every request, the key always looks new and is always admitted. */
  lemma {:induction false} SweptStormAdmits(rules: seq<Rule>, n: nat)
    requires Positive(rules)
    ensures var evs := Storm(MaxWindow(rules) + 1, n);
            TableAfter(rules, evs) == map[] && AllTrue(Answers(rules, evs))
  {
    MaxWindowIsMax(rules);
    StormRounds(MaxWindow(rules) + 1, n);
    SweptRuns(rules, MaxWindow(rules) + 1, Storm(MaxWindow(rules) + 1, n));
  }

  ghost predicate Filled(rules: seq<Rule>, sts: seq<State>, j: nat, n: int, now: int)
    requires j < |rules|
  {
    && |sts| == |rules| && sts[j].Leaky?
    && var s := sts[j].leaky;
       && s.capacity == rules[j].requests as real
       && s.rate == LeakyBucket.Divide(rules[j].requests as real, LeakyBucket.Seconds(rules[j].window))
       && s.water == n as real && s.lastLeak <= now
  }

  lemma {:induction false} NeverDrains(rule: Rule, s: LeakyBucket.State, now: int)
    requires NeverLeaks(rule) && rule.requests >= 1 && s.lastLeak <= now
    requires s.rate == LeakyBucket.Divide(rule.requests as real, LeakyBucket.Seconds(rule.window))
    ensures var (s', ok) := LeakyBucket.Step(s, now);
            s' == s.(lastAccess := now, water := if ok then s.water + 1.0 else s.water)
            && (ok <==> s.water + 1.0 <= s.capacity)
  {
    var c, w := rule.requests as real, LeakyBucket.Seconds(rule.window);
    LeakyBucket.NegativeRate(c, w, LeakyBucket.Seconds(now - s.lastLeak));
  }

  lemma {:induction false} FillsByOne(rules: seq<Rule>, sts: seq<State>, j: nat, n: int, now: int)
    requires j < |rules| && NeverLeaks(rules[j]) && rules[j].requests >= 1
    requires Filled(rules, sts, j, n - 1, now) && StepAll(sts, now).1
    ensures Filled(rules, StepAll(sts, now).0, j, n, now) && n <= rules[j].requests
  {
    StepAllAt(sts, now);
    assert Step(sts[j], now).1 && StepAll(sts, now).0[j] == Step(sts[j], now).0;
    NeverDrains(rules[j], sts[j].leaky, now);
  }

  /** The table after n requests that were all admitted, the last at t. */
  ghost predicate FilledTable(rules: seq<Rule>, m: Table, j: nat, n: nat, t: int)
    requires j < |rules|
  {
    if n == 0 then m == map[] else "" in m && Filled(rules, m[""], j, n, t)
  }

  lemma {:induction false} UnsweptStep(rules: seq<Rule>, evs: seq<Event>, j: nat, n: nat, prev: int, t: int)
    requires j < |rules| && NeverLeaks(rules[j]) && rules[j].requests >= 1 && prev <= t
    requires FilledTable(rules, TableAfter(rules, evs), j, n, prev)
    requires AllTrue(Answers(rules, evs + [Request("", t)]))
    ensures n + 1 <= rules[j].requests && FilledTable(rules, TableAfter(rules, evs + [Request("", t)]), j, n + 1, t)
  {
    var m := TableAfter(rules, evs);
    RequestUnfolds(rules, evs, t);
    FreshAllAt(rules, t);
    FillsByOne(rules, if "" in m then m[""] else FreshAll(rules, t), j, n + 1, t);
  }

  lemma {:induction false} FewerTrue(rules: seq<Rule>, evs: seq<Event>, t: int)
    requires AllTrue(Answers(rules, evs + [Request("", t)]))
    ensures AllTrue(Answers(rules, evs))
  {
    RequestUnfolds(rules, evs, t);
  }

  ghost predicate OneKey(evs: seq<Event>) {
    forall i :: 0 <= i < |evs| ==> evs[i].Request? && evs[i].key == ""
  }

  /** Unswept, the bucket that never drains has counted every request so far, as long as all were
      admitted: at most as many as the rule's Requests. */
  lemma {:induction false} UnsweptFills(rules: seq<Rule>, j: nat, evs: seq<Event>)
    requires j < |rules| && NeverLeaks(rules[j]) && rules[j].requests >= 1
    requires OneKey(evs) && Ordered(evs) && AllTrue(Answers(rules, evs))
    ensures |evs| <= rules[j].requests
    ensures FilledTable(rules, TableAfter(rules, evs), j, |evs|, if evs == [] then 0 else Last(evs).now)
  {
    if evs != [] {
      var front, t := Init(evs), Last(evs).now;
      assert evs == front + [Request("", t)];
      FewerTrue(rules, front, t);
      UnsweptFills(rules, j, front);
      UnsweptStep(rules, front, j, |front|, if front == [] then t else Last(front).now, t);
    }
  }

  lemma {:induction false} PlainRound(before: seq<Event>, t: int, w: int)
    ensures Plain(before + [Request("", t), Cleanup(t + w)]) == Plain(before) + [Request("", t)]
  {
    var mid := before + [Request("", t)];
    assert before + [Request("", t), Cleanup(t + w)] == mid + [Cleanup(t + w)];
    assert Init(mid + [Cleanup(t + w)]) == mid && Init(mid) == before;
  }

  /** Requests on one key up to a time. */
  ghost predicate OneKeyUpTo(evs: seq<Event>, t: int) {
    OneKey(evs) && Ordered(evs) && forall i :: 0 <= i < |evs| ==> evs[i].now <= t
  }

  lemma {:induction false} OneKeyAppend(evs: seq<Event>, t: int, t': int)
    requires OneKeyUpTo(evs, t) && t <= t'
    ensures OneKeyUpTo(evs + [Request("", t')], t')
  {
  }

  lemma {:induction false} PlainStorm(w: nat, n: nat)
    ensures |Plain(Storm(w, n))| == n && OneKeyUpTo(Plain(Storm(w, n)), Tick(w, n))
  {
    if n > 0 {
      PlainStorm(w, n - 1);
      PlainRound(Storm(w, n - 1), Tick(w, n), w);
      OneKeyAppend(Plain(Storm(w, n - 1)), Tick(w, n - 1), Tick(w, n));
    }
  }

  lemma {:induction false} UnsweptStormStops(rules: seq<Rule>, j: nat, w: nat, n: nat)
    requires j < |rules| && NeverLeaks(rules[j]) && rules[j].requests >= 1 && n > rules[j].requests
    ensures !AllTrue(Answers(rules, Plain(Storm(w, n))))
  {
    PlainStorm(w, n);
    if AllTrue(Answers(rules, Plain(Storm(w, n)))) {
      UnsweptFills(rules, j, Plain(Storm(w, n)));
      assert false;
    }
  }

  lemma {:induction false} SweptStormDiffers(rules: seq<Rule>, j: nat, w: nat, n: nat)
    requires Positive(rules) && j < |rules| && NeverLeaks(rules[j]) && n > rules[j].requests
    requires w == MaxWindow(rules) + 1
    ensures Answers(rules, Storm(w, n)) != Answers(rules, Plain(Storm(w, n)))
  {
    StormRounds(w, n);
    SweptRuns(rules, w, Storm(w, n));
    UnsweptStormStops(rules, j, w, n);
  }

  /** There is a run whose answers the sweeps change. */
  lemma {:induction false} SweepsShow(rules: seq<Rule>, j: nat)
    requires Positive(rules) && j < |rules| && NeverLeaks(rules[j])
    ensures exists evs :: Ordered(evs) && Answers(rules, evs) != Answers(rules, Plain(evs))
  {
    var n, w := rules[j].requests + 1, MaxWindow(rules) + 1;
    MaxWindowIsMax(rules);
    StormOrdered(w, n);
    SweptStormDiffers(rules, j, w, n);
  }

  // ----- the theorem -----

  ghost predicate Invisible(rules: seq<Rule>) {
    forall evs :: Ordered(evs) ==> Answers(rules, evs) == Answers(rules, Plain(evs))
  }

  /** Exactly when eviction is invisible: for every run, whatever its sweeps, the clients get
      the answers of the run without sweeps, if and only if no bucket has a negative window
      or some rule admits nothing anyway. */
  lemma {:induction false} EvictionInvisibleIff(rules: seq<Rule>)
    ensures Invisible(rules) <==> Blocks(rules) || forall i :: 0 <= i < |rules| ==> !NeverLeaks(rules[i])
  {
    if Blocks(rules) {
      forall evs | Ordered(evs) ensures Answers(rules, evs) == Answers(rules, Plain(evs)) {
        BlockedRunsRefuse(rules, evs);
        BlockedRunsRefuse(rules, Plain(evs));
        PlainTwice(evs);
      }
    } else if j :| 0 <= j < |rules| && NeverLeaks(rules[j]) {
      SweepsShow(rules, j);
    } else {
      forall evs | Ordered(evs) ensures Answers(rules, evs) == Answers(rules, Plain(evs)) {
        SweptAndUnswept(rules, evs);
      }
    }
  }

  // ----- which keys are remembered -----

  lemma {:induction false} StepAccess(st: State, now: int)
    ensures LastAccess(Step(st, now).0) == now
  {
  }

  /** A charge is an access of the first strategy, and of others perhaps. */
  lemma {:induction false} StepAllAccess(sts: seq<State>, now: int)
    requires forall i :: 0 <= i < |sts| ==> LastAccess(sts[i]) <= now
    ensures var sts' := StepAll(sts, now).0;
            LatestAccess(sts') == if sts == [] || now < 0 then 0 else now
    ensures var sts' := StepAll(sts, now).0;
            |sts'| == |sts| && forall i :: 0 <= i < |sts'| ==> LastAccess(sts'[i]) <= now
  {
    var sts' := StepAll(sts, now).0;
    StepAllAt(sts, now);
    forall i | 0 <= i < |sts'| ensures LastAccess(sts'[i]) <= now {
      StepAccess(sts[i], now);
    }
    LatestAccessIsMax(sts');
    if sts != [] {
      StepAccess(sts[0], now);
      assert LastAccess(sts'[0]) == now;
    }
  }

  /** A time that some rule's window, or no time at all, covers. */
  predicate Recent(rules: seq<Rule>, d: int) {
    d <= 0 || exists k :: 0 <= k < |rules| && d <= rules[k].window
  }

  lemma {:induction false} RecentIff(rules: seq<Rule>, d: int)
    ensures Recent(rules, d) <==> d <= MaxWindow(rules)
  {
    MaxWindowIsMax(rules);
  }

  /** `i` is the last request of the key. */
  ghost predicate LastRequestAt(evs: seq<Event>, key: string, i: int) {
    && 0 <= i < |evs| && evs[i].Request? && evs[i].key == key
    && forall j :: i < j < |evs| && evs[j].Request? ==> evs[j].key != key
  }

  /** When a key last requested at `t` counts as last used: without rules never. */
  function LastUsed(rules: seq<Rule>, t: int): int {
    if rules == [] || t < 0 then 0 else t
  }

  /** No cleanup since the key's last request, the i-th event, came later than the longest window. */
  ghost predicate RememberedSince(rules: seq<Rule>, evs: seq<Event>, key: string, i: int) {
    && LastRequestAt(evs, key, i)
    && forall j :: i < j < |evs| && evs[j].Cleanup? ==> Recent(rules, evs[j].now - LastUsed(rules, evs[i].now))
  }

  ghost predicate Used(rules: seq<Rule>, sts: seq<State>, t: int) {
    && LatestAccess(sts) == LastUsed(rules, t) && |sts| == |rules|
    && forall i :: 0 <= i < |sts| ==> LastAccess(sts[i]) <= t
  }

  lemma {:induction false} RememberedNext(rules: seq<Rule>, evs: seq<Event>, e: Event, key: string, i: int)
    requires i < |evs|
    ensures RememberedSince(rules, evs + [e], key, i) <==>
              && RememberedSince(rules, evs, key, i) && e != Request(key, e.now)
              && (e.Cleanup? ==> Recent(rules, e.now - LastUsed(rules, evs[i].now)))
  {
    var evs' := evs + [e];
    assert evs'[|evs|] == e;
    assert forall j :: 0 <= j < |evs| ==> evs'[j] == evs[j];
  }

  lemma {:induction false} RequestRemembers(rules: seq<Rule>, evs: seq<Event>, m: Table, key: string, now: int)
    requires forall i :: 0 <= i < |evs| ==> evs[i].now <= now
    requires key in m ==> exists i :: RememberedSince(rules, evs, key, i) && Used(rules, m[key], evs[i].now)
    ensures key in Charge(rules, m, key, now).0 && Used(rules, Charge(rules, m, key, now).0[key], now)
  {
    FreshAllAt(rules, now);
    StepAllAccess(if key in m then m[key] else FreshAll(rules, now), now);
  }

  /** A key is in the table exactly when it was requested and no cleanup since its last request came
      later than the longest window; its latest access is that request. */
  lemma {:induction false} RememberedIff(rules: seq<Rule>, evs: seq<Event>, key: string)
    requires Ordered(evs)
    ensures key in TableAfter(rules, evs) <==> exists i :: RememberedSince(rules, evs, key, i)
    ensures forall i :: RememberedSince(rules, evs, key, i) ==>
              key in TableAfter(rules, evs) && Used(rules, TableAfter(rules, evs)[key], evs[i].now)
  {
    if evs != [] {
      var front, e, m := Init(evs), Last(evs), TableAfter(rules, Init(evs));
      assert evs == front + [e];
      RememberedIff(rules, front, key);
      forall i | 0 <= i < |front| ensures RememberedSince(rules, evs, key, i) <==>
              && RememberedSince(rules, front, key, i) && e != Request(key, e.now)
              && (e.Cleanup? ==> Recent(rules, e.now - LastUsed(rules, front[i].now)))
      {
        RememberedNext(rules, front, e, key, i);
      }
      match e
      case Request(k, now) =>
        if k == key {
          RequestRemembers(rules, front, m, key, now);
          assert RememberedSince(rules, evs, key, |front|);
        }
      case Cleanup(now) =>
        if key in m { RecentIff(rules, now - LatestAccess(m[key])); }
    }
  }
}
