/** gateway/flow_control/flow_control.go, the per-key part as values: a list of strategies
    charged in order, a table of such lists by key, and the sweep that evicts idle keys. */
module Strategies {
  import opened History
  import SlidingWindow
  import FixedWindow
  import LeakyBucket

  datatype ParsedRule = ParsedRule(requests: int, window: int, mode: string)

  /** Every mode but "token", whose limiter lives in a library. */
  type Rule = r: ParsedRule | r.mode != "token" witness ParsedRule(1, 1, "sliding")

  datatype State =
    | Sliding(sliding: SlidingWindow.State)
    | Fixed(fixed: FixedWindow.State)
    | Leaky(leaky: LeakyBucket.State)

  function Fresh(rule: Rule, now: int): State {
    if rule.mode == "fixed" then Fixed(FixedWindow.Fresh(rule.requests, rule.window, now))
    else if rule.mode == "leaky" then Leaky(LeakyBucket.Fresh(rule.requests, rule.window, now))
    else Sliding(SlidingWindow.Fresh(rule.requests, rule.window, now))
  }

  function Step(st: State, now: int): (State, bool) {
    match st
    case Sliding(s) => var (s', ok) := SlidingWindow.Step(s, now); (Sliding(s'), ok)
    case Fixed(s) => var (s', ok) := FixedWindow.Step(s, now); (Fixed(s'), ok)
    case Leaky(s) => var (s', ok) := LeakyBucket.Step(s, now); (Leaky(s'), ok)
  }

  function LastAccess(st: State): int {
    match st
    case Sliding(s) => s.lastAccess
    case Fixed(s) => s.lastAccess
    case Leaky(s) => s.lastAccess
  }

  function FreshAll(rules: seq<Rule>, now: int): seq<State> {
    if rules == [] then [] else [Fresh(rules[0], now)] + FreshAll(rules[1..], now)
  }

  /** Charges the strategies in order and stops at the first refusal. */
  function StepAll(sts: seq<State>, now: int): (seq<State>, bool) {
    if sts == [] then ([], true)
    else
      var (first, ok) := Step(sts[0], now);
      if !ok then ([first] + sts[1..], false)
      else
        var (rest, ok') := StepAll(sts[1..], now);
        ([first] + rest, ok')
  }

  type Table = map<string, seq<State>>

  /** `RateLimiter.Allow`: an unknown key gets fresh strategies first. */
  function Charge(rules: seq<Rule>, m: Table, key: string, now: int): (Table, bool) {
    var (sts, ok) := StepAll(if key in m then m[key] else FreshAll(rules, now), now);
    (m[key := sts], ok)
  }

  function MaxWindow(rules: seq<Rule>): int {
    if rules == [] then 0
    else var m := MaxWindow(Init(rules)); if Last(rules).window > m then Last(rules).window else m
  }

  /** The latest access, from the zero time up. */
  function LatestAccess(sts: seq<State>): int {
    if sts == [] then 0
    else var m := LatestAccess(Init(sts)); if LastAccess(Last(sts)) > m then LastAccess(Last(sts)) else m
  }

  predicate Idle(rules: seq<Rule>, sts: seq<State>, now: int) {
    now - LatestAccess(sts) > MaxWindow(rules)
  }

  /** `RateLimiter.cleanup`: forgets every key idle for longer than the longest window. */
  function Sweep(rules: seq<Rule>, m: Table, now: int): Table {
    map key | key in m && !Idle(rules, m[key], now) :: m[key]
  }

  lemma {:induction false} FreshAllAt(rules: seq<Rule>, now: int)
    ensures |FreshAll(rules, now)| == |rules|
    ensures forall i :: 0 <= i < |rules| ==> FreshAll(rules, now)[i] == Fresh(rules[i], now)
  {
    if rules != [] { FreshAllAt(rules[1..], now); }
  }

  lemma {:induction false} StepAllAt(sts: seq<State>, now: int)
    ensures var (sts', ok) := StepAll(sts, now);
            |sts'| == |sts|
            && (forall i :: 0 <= i < |sts| ==> sts'[i] == sts[i] || sts'[i] == Step(sts[i], now).0)
            && (ok <==> forall i :: 0 <= i < |sts| ==> Step(sts[i], now).1)
            && (ok ==> forall i :: 0 <= i < |sts| ==> sts'[i] == Step(sts[i], now).0)
  {
    if sts != [] {
      StepAllAt(sts[1..], now);
      var (rest, ok') := StepAll(sts[1..], now);
      if ok' && Step(sts[0], now).1 {
        forall i | 0 <= i < |sts| ensures Step(sts[i], now).1 {
          if i > 0 { assert sts[i] == sts[1..][i - 1]; }
        }
      }
      if forall i :: 0 <= i < |sts| ==> Step(sts[i], now).1 {
        forall i | 0 <= i < |sts[1..]| ensures Step(sts[1..][i], now).1 {
          assert sts[1..][i] == sts[i + 1];
        }
      }
    }
  }

  lemma {:induction false} MaxWindowIsMax(rules: seq<Rule>)
    ensures 0 <= MaxWindow(rules) && forall i :: 0 <= i < |rules| ==> rules[i].window <= MaxWindow(rules)
    ensures MaxWindow(rules) == 0 || exists i :: 0 <= i < |rules| && rules[i].window == MaxWindow(rules)
  {
    if rules != [] {
      MaxWindowIsMax(Init(rules));
      if MaxWindow(Init(rules)) != 0 {
        var i :| 0 <= i < |rules| - 1 && Init(rules)[i].window == MaxWindow(Init(rules));
        assert rules[i] == Init(rules)[i];
      }
    }
  }

  lemma {:induction false} LatestAccessIsMax(sts: seq<State>)
    ensures 0 <= LatestAccess(sts) && forall i :: 0 <= i < |sts| ==> LastAccess(sts[i]) <= LatestAccess(sts)
    ensures LatestAccess(sts) == 0 || exists i :: 0 <= i < |sts| && LastAccess(sts[i]) == LatestAccess(sts)
  {
    if sts != [] {
      LatestAccessIsMax(Init(sts));
      if LatestAccess(Init(sts)) != 0 {
        var i :| 0 <= i < |sts| - 1 && LastAccess(Init(sts)[i]) == LatestAccess(Init(sts));
        assert sts[i] == Init(sts)[i];
      }
    }
  }

  // ----- whole runs -----

  datatype Event = Request(key: string, now: int) | Cleanup(now: int)

  ghost predicate Ordered(evs: seq<Event>) {
    forall i, j :: 0 <= i < j < |evs| ==> evs[i].now <= evs[j].now
  }

  function TableAfter(rules: seq<Rule>, evs: seq<Event>): Table {
    if evs == [] then map[]
    else
      match Last(evs)
      case Request(key, now) => Charge(rules, TableAfter(rules, Init(evs)), key, now).0
      case Cleanup(now) => Sweep(rules, TableAfter(rules, Init(evs)), now)
  }

  /** What the clients of the run are told, in order. */
  function Answers(rules: seq<Rule>, evs: seq<Event>): seq<bool> {
    if evs == [] then []
    else
      match Last(evs)
      case Request(key, now) =>
        Answers(rules, Init(evs)) + [Charge(rules, TableAfter(rules, Init(evs)), key, now).1]
      case Cleanup(now) => Answers(rules, Init(evs))
  }

  /** The same requests with every cleanup left out. */
  function Plain(evs: seq<Event>): seq<Event> {
    if evs == [] then [] else if Last(evs).Request? then Plain(Init(evs)) + [Last(evs)] else Plain(Init(evs))
  }
}
