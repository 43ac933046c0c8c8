/** gateway/flow_control/flow_control.go: the `RateLimiter` object, whose table holds
    references to limiters that are updated in place. */
module RateLimiters {
  import opened History
  import SlidingWindow
  import FixedWindow
  import LeakyBucket
  import opened Strategies

  datatype Strategy =
    | SlidingRef(s: SlidingWindow.SlidingWindowLimiter)
    | FixedRef(f: FixedWindow.FixedWindowLimiter)
    | LeakyRef(l: LeakyBucket.LeakyBucketLimiter)
  {
    ghost function Obj(): object {
      match this
      case SlidingRef(s) => s
      case FixedRef(f) => f
      case LeakyRef(l) => l
    }

    ghost function Value(): State
      reads Obj()
    {
      match this
      case SlidingRef(s) => Sliding(s.Value())
      case FixedRef(f) => Fixed(f.Value())
      case LeakyRef(l) => Leaky(l.Value())
    }

    method Allow(now: int) returns (ok: bool)
      modifies Obj()
      ensures (Value(), ok) == Step(old(Value()), now)
    {
      match this
      case SlidingRef(s) => ok := s.Allow(now);
      case FixedRef(f) => ok := f.Allow(now);
      case LeakyRef(l) => ok := l.Allow(now);
    }

    method LastUse() returns (t: int)
      ensures t == LastAccess(Value())
    {
      match this
      case SlidingRef(s) => t := s.lastAccess;
      case FixedRef(f) => t := f.lastAccess;
      case LeakyRef(l) => t := l.lastAccess;
    }
  }

  ghost function Objs(ss: seq<Strategy>): set<object> {
    set i | 0 <= i < |ss| :: ss[i].Obj()
  }

  ghost predicate Distinct(ss: seq<Strategy>) {
    forall i, j :: 0 <= i < j < |ss| ==> ss[i].Obj() != ss[j].Obj()
  }

  ghost function Values(ss: seq<Strategy>): seq<State>
    reads Objs(ss)
  {
    seq(|ss|, i requires 0 <= i < |ss| reads Objs(ss) => ss[i].Value())
  }

  lemma ObjsAppend(ss: seq<Strategy>, s: Strategy)
    ensures Objs(ss + [s]) == Objs(ss) + {s.Obj()}
  {
    forall o | o in Objs(ss) + {s.Obj()} ensures o in Objs(ss + [s]) {
      if o == s.Obj() {
        assert (ss + [s])[|ss|].Obj() == o;
      } else {
        var i :| 0 <= i < |ss| && ss[i].Obj() == o;
        assert (ss + [s])[i].Obj() == o;
      }
    }
  }

  method NewStrategy(rule: Rule, now: int) returns (s: Strategy)
    ensures fresh(s.Obj()) && s.Value() == Fresh(rule, now)
  {
    if rule.mode == "fixed" {
      var f := new FixedWindow.FixedWindowLimiter(rule.requests, rule.window, now);
      return FixedRef(f);
    } else if rule.mode == "leaky" {
      var l := new LeakyBucket.LeakyBucketLimiter(rule.requests, rule.window, now);
      return LeakyRef(l);
    }
    var w := new SlidingWindow.SlidingWindowLimiter(rule.requests, rule.window, now);
    return SlidingRef(w);
  }

  method AddStrategy(ss: seq<Strategy>, rule: Rule, now: int) returns (ss': seq<Strategy>)
    requires Distinct(ss)
    ensures Distinct(ss') && fresh(Objs(ss') - Objs(ss))
    ensures Values(ss') == Values(ss) + [Fresh(rule, now)]
  {
    ghost var was := Values(ss);
    var s := NewStrategy(rule, now);
    ObjsAppend(ss, s);
    ss' := ss + [s];
    forall k | 0 <= k < |ss| ensures ss'[k].Value() == was[k] && ss'[k].Obj() != s.Obj() {
      assert ss[k].Obj() in Objs(ss);
    }
  }

  method NewStrategies(rules: seq<Rule>, now: int) returns (ss: seq<Strategy>)
    ensures fresh(Objs(ss)) && Distinct(ss) && Values(ss) == FreshAll(rules, now)
  {
    ss := [];
    ghost var vals := [];
    for i := 0 to |rules|
      invariant fresh(Objs(ss)) && Distinct(ss) && Values(ss) == vals
      invariant |vals| == i && forall k :: 0 <= k < i ==> vals[k] == Fresh(rules[k], now)
    {
      ss := AddStrategy(ss, rules[i], now);
      vals := vals + [Fresh(rules[i], now)];
    }
    FreshAllAt(rules, now);
    assert vals == FreshAll(rules, now);
  }

  /** Charges the i-th strategy; the others, being other objects, stay as they are. */
  method AllowAt(ss: seq<Strategy>, i: nat, now: int) returns (ok: bool)
    requires Distinct(ss) && i < |ss|
    modifies ss[i].Obj()
    ensures var (st, ok') := Step(old(Values(ss))[i], now);
            Values(ss) == old(Values(ss))[i := st] && ok == ok'
  {
    ghost var was := Values(ss);
    ok := ss[i].Allow(now);
    forall k | 0 <= k < |ss| && k != i ensures ss[k].Value() == was[k] {
      assert ss[k].Obj() != ss[i].Obj();
    }
    assert Values(ss) == was[i := ss[i].Value()];
  }

  lemma {:induction false} StepAllFrom(was: seq<State>, i: nat, now: int)
    requires i < |was|
    ensures var (st, ok) := Step(was[i], now); var later := StepAll(was[i + 1..], now);
            StepAll(was[i..], now) == if ok then ([st] + later.0, later.1) else ([st] + was[i + 1..], false)
  {
    assert was[i..][0] == was[i] && was[i..][1..] == was[i + 1..];
  }

  lemma {:induction false} ReplaceNext(done: seq<State>, was: seq<State>, st: State, later: seq<State>)
    requires |done| < |was|
    ensures (done + was[|done|..])[|done| := st] == done + [st] + was[|done| + 1..]
    ensures done + ([st] + later) == done + [st] + later
  {
  }

  lemma {:induction false} Advance(was: seq<State>, done: seq<State>, st: State, now: int)
    requires |done| < |was| && st == Step(was[|done|], now).0
    ensures var i := |done|; var rest, later := StepAll(was[i..], now), StepAll(was[i + 1..], now);
            && (done + was[i..])[i := st] == done + [st] + was[i + 1..]
            && if Step(was[i], now).1 then rest.1 == later.1 && done + rest.0 == done + [st] + later.0
               else !rest.1 && done + rest.0 == (done + was[i..])[i := st]
  {
    var i := |done|;
    StepAllFrom(was, i, now);
    ReplaceNext(done, was, st, if Step(was[i], now).1 then StepAll(was[i + 1..], now).0 else was[i + 1..]);
  }

  method AllowAll(ss: seq<Strategy>, now: int) returns (ok: bool)
    requires Distinct(ss)
    modifies Objs(ss)
    ensures (Values(ss), ok) == StepAll(old(Values(ss)), now)
  {
    ghost var was, done := Values(ss), [];
    assert was[0..] == was && [] + was == was && [] + StepAll(was, now).0 == StepAll(was, now).0;
    for i := 0 to |ss|
      invariant |done| == i && Values(ss) == done + was[i..]
      invariant StepAll(was, now) == (done + StepAll(was[i..], now).0, StepAll(was[i..], now).1)
    {
      ok := AllowAt(ss, i, now);
      ghost var st := Step(was[i], now).0;
      Advance(was, done, st, now);
      if !ok {
        return;
      }
      done := done + [st];
    }
    assert Values(ss) == done == done + StepAll(was[|ss|..], now).0;
    ok := true;
  }

  ghost function Position(ss: seq<Strategy>, o: object): int
    requires o in Objs(ss)
  {
    var i :| 0 <= i < |ss| && ss[i].Obj() == o; i
  }

  lemma PositionsFound(ss: seq<Strategy>)
    requires Distinct(ss)
    ensures forall i :: 0 <= i < |ss| ==> Position(ss, ss[i].Obj()) == i
  {
  }

  method LatestUse(ss: seq<Strategy>) returns (lastAccess: int)
    ensures lastAccess == LatestAccess(Values(ss))
  {
    ghost var vals := Values(ss);
    lastAccess := 0;
    for i := 0 to |ss|
      invariant Values(ss) == vals && lastAccess == LatestAccess(vals[..i])
    {
      var la := ss[i].LastUse();
      assert Init(vals[..i + 1]) == vals[..i] && Last(vals[..i + 1]) == Values(ss)[i];
      if la > lastAccess {
        lastAccess := la;
      }
    }
    assert vals[..|ss|] == vals;
  }

  class RateLimiter {
    const rules: seq<Rule>
    var limiters: map<string, seq<Strategy>>
    ghost var Repr: set<object>
    ghost var Owner: map<object, (string, int)>  // which key and position a limiter serves

    ghost predicate Valid()
      reads this, Repr
    {
      && this in Repr
      && forall key, i :: key in limiters && 0 <= i < |limiters[key]| ==>
           var o := limiters[key][i].Obj();
           o in Repr && o != this && o in Owner && Owner[o] == (key, i)
    }

    /** The table by value: what each key's strategies hold. */
    ghost function Contents(): Table
      requires Valid()
      reads this, Repr
    {
      map key | key in limiters :: Values(limiters[key])
    }

    constructor (rules: seq<Rule>)
      ensures Valid() && fresh(Repr) && this.rules == rules && Contents() == map[]
    {
      this.rules := rules;
      limiters := map[];
      Repr := {this};
      Owner := map[];
    }

    lemma KeysOwnTheirs(key: string)
      requires Valid() && key in limiters
      ensures Distinct(limiters[key]) && Objs(limiters[key]) <= Repr - {this}
      ensures forall k :: k in limiters && k != key ==> Objs(limiters[k]) !! Objs(limiters[key])
    {
    }

    method Enter(key: string, ss: seq<Strategy>)
      requires Valid() && key !in limiters && Distinct(ss) && Objs(ss) !! Repr
      modifies this
      ensures Valid() && Repr == old(Repr) + Objs(ss) && key in limiters
      ensures Contents() == old(Contents())[key := Values(ss)]
    {
      ghost var was := Contents();
      limiters := limiters[key := ss];
      Repr := Repr + Objs(ss);
      Owner := map o: object | o in Owner.Keys + Objs(ss) ::
        if o in Objs(ss) then (key, Position(ss, o)) else Owner[o];
      PositionsFound(ss);
      assert Valid();
      ghost var after := Contents();
      forall k | k in was ensures after[k] == was[k] {
        assert Objs(limiters[k]) !! Objs(ss);
      }
      assert after == was[key := Values(ss)];
    }

    /** Creates the strategies of a key seen for the first time. */
    method Register(key: string, now: int)
      requires Valid() && key !in limiters
      modifies this
      ensures Valid() && fresh(Repr - old(Repr)) && key in limiters
      ensures Contents() == old(Contents())[key := FreshAll(rules, now)]
    {
      var ss := NewStrategies(rules, now);
      Enter(key, ss);
    }

    /** Charges the strategies of a known key. */
    method ChargeKnown(key: string, now: int) returns (ok: bool)
      requires Valid() && key in limiters
      modifies Repr
      ensures Valid() && Repr == old(Repr)
      ensures var (sts, ok') := StepAll(old(Contents())[key], now);
              Contents() == old(Contents())[key := sts] && ok == ok'
    {
      var strategies := limiters[key];
      ghost var was := Contents();
      KeysOwnTheirs(key);
      ok := AllowAll(strategies, now);
      forall k | k in limiters && k != key ensures Values(limiters[k]) == was[k] {
        assert Objs(limiters[k]) !! Objs(strategies);
      }
      assert Contents() == was[key := Values(strategies)];
    }

    method Allow(key: string, now: int) returns (ok: bool)
      requires Valid()
      modifies Repr
      ensures Valid() && fresh(Repr - old(Repr))
      ensures (Contents(), ok) == Charge(rules, old(Contents()), key, now)
    {
      ghost var was := Contents();
      if key !in limiters {
        Register(key, now);
      }
      ghost var mid := Contents();
      ok := ChargeKnown(key, now);
      assert mid[key := StepAll(mid[key], now).0] == was[key := StepAll(mid[key], now).0];
    }

    method DropIfIdle(key: string, now: int, maxWindow: int)
      requires Valid() && key in limiters && maxWindow == MaxWindow(rules)
      modifies this`limiters
      ensures Valid()
      ensures limiters == if Idle(rules, old(Contents())[key], now) then old(limiters) - {key} else old(limiters)
      ensures forall k :: k in limiters ==> Contents()[k] == old(Contents())[k]
    {
      ghost var sts := Contents()[key];
      var lastAccess := LatestUse(limiters[key]);
      assert Values(limiters[key]) == sts;
      if now - lastAccess > maxWindow {
        limiters := limiters - {key};
      }
    }

    method Cleanup(now: int)
      requires Valid()
      modifies this
      ensures Valid() && Repr == old(Repr)
      ensures Contents() == Sweep(rules, old(Contents()), now)
    {
      var maxWindow := 0;
      for i := 0 to |rules|
        invariant maxWindow == MaxWindow(rules[..i])
      {
        assert Init(rules[..i + 1]) == rules[..i];
        if rules[i].window > maxWindow {
          maxWindow := rules[i].window;
        }
      }
      assert rules[..|rules|] == rules;
      ghost var was := Contents();
      var todo := limiters.Keys;
      while todo != {}
        invariant Valid() && Repr == old(Repr) && todo <= limiters.Keys <= was.Keys
        invariant forall key :: key in limiters ==> Contents()[key] == was[key]
        invariant forall key :: key in was && key !in todo ==>
          (key in limiters <==> !Idle(rules, was[key], now))
      {
        var key :| key in todo;
        todo := todo - {key};
        DropIfIdle(key, now, maxWindow);
      }
    }
  }
}
