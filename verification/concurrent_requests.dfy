/** gateway/flow_control/flow_control.go: requests in flight together, and the janitor's ticks.
    `CheckRequest` holds one limiter's lock at a time, so that another request, or a cleanup, may come
    between any two of its charges. */
module ConcurrentRequests {
  import opened History
  import opened Options
  import opened Strategies
  import opened Requests
  import opened RuleCharging
  import Composition

  /** The limiters, every request that has arrived, and what happened to the limiters so far. */
  datatype System = System(limiters: Limiters, flights: seq<Flight>, log: seq<Entry>)

  datatype Move =
    | Arrive(req: HttpRequest, order: seq<FlowRule>)
    | Advance(id: nat, now: int)
    | Tick(which: Which, now: int)

  function Start(c: Limiters): System {
    System(c, [], [])
  }

  /** A request goes through a sorted permutation of the rules, until it has a verdict. */
  ghost predicate Enabled(rules: seq<FlowRule>, s: System, m: Move) {
    match m
    case Arrive(_, order) => IsOrdering(rules, order)
    case Advance(id, _) => id < |s.flights| && s.flights[id].verdict.None?
    case Tick(which, _) => At(s.limiters, which).Some?
  }

  /** What a step of a request added to its log. */
  function News(f: Flight, f': Flight): seq<Entry> {
    if |f.log| <= |f'.log| then f'.log[|f.log|..] else []
  }

  ghost function Next(rules: seq<FlowRule>, s: System, m: Move): System
    requires Enabled(rules, s, m)
  {
    match m
    case Arrive(req, order) => s.(flights := s.flights + [Begin(|s.flights|, req, order)])
    case Advance(id, now) =>
      var f := s.flights[id];
      var (c, f') := Proceed(s.limiters, f, now);
      System(c, s.flights[id := f'], s.log + News(f, f'))
    case Tick(which, now) =>
      var e := Swept(which, now);
      System(Put(s.limiters, which, Effect(At(s.limiters, which).value, e)), s.flights, s.log + [e])
  }

  /** The moves can be made one after the other, and end in `s'`. */
  ghost predicate Runs(rules: seq<FlowRule>, s: System, moves: seq<Move>, s': System)
    decreases |moves|
  {
    if moves == [] then s == s'
    else Enabled(rules, s, moves[0]) && Runs(rules, Next(rules, s, moves[0]), moves[1..], s')
  }

  // ----- what every interleaving keeps -----

  /** The charges of one request. */
  function Of(log: seq<Entry>, id: nat): seq<Entry> {
    if log == [] then []
    else if Last(log).Charged? && Last(log).id == id then Of(Init(log), id) + [Last(log)]
    else Of(Init(log), id)
  }

  ghost predicate FlightKept(rules: seq<FlowRule>, c: Limiters, s: System, id: nat)
    requires id < |s.flights|
  {
    var f := s.flights[id];
    f.id == id && IsOrdering(rules, f.order) && FollowsIn(c, f) && Of(s.log, id) == f.log
  }

  /** `c` is how the limiters were at the start. */
  ghost predicate Kept(rules: seq<FlowRule>, c: Limiters, s: System) {
    && Explains(c, s.log, s.limiters)
    && c.byName.Keys == s.limiters.byName.Keys && (c.global.Some? <==> s.limiters.global.Some?)
    && (forall id :: 0 <= id < |s.flights| ==> FlightKept(rules, c, s, id))
    && (forall id: nat :: id >= |s.flights| ==> Of(s.log, id) == [])
  }

  lemma {:induction false} OfAppend(log: seq<Entry>, e: Entry, id: nat)
    ensures Of(log + [e], id) == if e.Charged? && e.id == id then Of(log, id) + [e] else Of(log, id)
  {
    assert Init(log + [e]) == log;
  }

  lemma {:induction false} ArriveKeeps(
      rules: seq<FlowRule>, c: Limiters, s: System, req: HttpRequest, order: seq<FlowRule>)
    requires Kept(rules, c, s) && IsOrdering(rules, order)
    ensures Kept(rules, c, Next(rules, s, Arrive(req, order)))
  {
    var s' := Next(rules, s, Arrive(req, order));
    forall id | 0 <= id < |s'.flights| ensures FlightKept(rules, c, s', id) {
      if id < |s.flights| { assert FlightKept(rules, c, s, id); }
    }
  }

  lemma {:induction false} TickKeeps(rules: seq<FlowRule>, c: Limiters, s: System, which: Which, now: int)
    requires Kept(rules, c, s) && At(s.limiters, which).Some?
    ensures Kept(rules, c, Next(rules, s, Tick(which, now)))
  {
    var s', e := Next(rules, s, Tick(which, now)), Swept(which, now);
    ExplainsNext(c, s.log, s.limiters, e);
    assert s'.limiters.byName.Keys == s.limiters.byName.Keys;
    forall id: nat ensures Of(s'.log, id) == Of(s.log, id) {
      OfAppend(s.log, e, id);
    }
    forall id | 0 <= id < |s'.flights| ensures FlightKept(rules, c, s', id) {
      assert FlightKept(rules, c, s, id);
    }
  }

  lemma {:induction false} AdvanceKeeps(rules: seq<FlowRule>, c: Limiters, s: System, id: nat, now: int)
    requires Kept(rules, c, s) && id < |s.flights| && s.flights[id].verdict.None?
    ensures Kept(rules, c, Next(rules, s, Advance(id, now)))
  {
    var s', f := Next(rules, s, Advance(id, now)), s.flights[id];
    assert FlightKept(rules, c, s, id);
    ProceedFollows(s.limiters, f, now);
    SameLimiters(s.limiters, f, now);
    var news := ProceedExplains(c, s.log, s.limiters, f, now);
    assert news == News(f, s'.flights[id]);
    forall k: nat ensures Of(s'.log, k) == if k == id then Of(s.log, k) + news else Of(s.log, k) {
      if news == [] {
        assert s'.log == s.log && Of(s.log, k) + news == Of(s.log, k);
      } else {
        OfAppend(s.log, news[0], k);
        assert s.log + news == s.log + [news[0]];
      }
    }
    forall k | 0 <= k < |s'.flights| ensures FlightKept(rules, c, s', k) {
      assert FlightKept(rules, c, s, k);
    }
  }

  lemma {:induction false} StepKeeps(rules: seq<FlowRule>, c: Limiters, s: System, m: Move)
    requires Kept(rules, c, s) && Enabled(rules, s, m)
    ensures Kept(rules, c, Next(rules, s, m))
  {
    match m
    case Arrive(req, order) => ArriveKeeps(rules, c, s, req, order);
    case Advance(id, now) => AdvanceKeeps(rules, c, s, id, now);
    case Tick(which, now) => TickKeeps(rules, c, s, which, now);
  }

  lemma {:induction false} RunKeeps(rules: seq<FlowRule>, c: Limiters, s: System, moves: seq<Move>, s': System)
    requires Kept(rules, c, s) && Runs(rules, s, moves, s')
    ensures Kept(rules, c, s')
    decreases |moves|
  {
    if moves != [] {
      StepKeeps(rules, c, s, moves[0]);
      RunKeeps(rules, c, Next(rules, s, moves[0]), moves[1..], s');
    }
  }

  lemma {:induction false} StartKept(rules: seq<FlowRule>, c: Limiters)
    ensures Kept(rules, c, Start(c))
  {
    forall w ensures ExplainsAt(c, [], c, w) {
    }
  }

  /** In every interleaving of requests and cleanups the charging order holds of each request's own
      charges, picked from all that happened, in order. */
  lemma {:induction false} OrderInEveryInterleaving(
      rules: seq<FlowRule>, c: Limiters, moves: seq<Move>, s: System, id: nat, q: FlowRule)
    requires Runs(rules, Start(c), moves, s) && id < |s.flights| && s.flights[id].verdict.Some?
    ensures var f := s.flights[id]; var names, global := c.byName.Keys, c.global.Some?;
            && Of(s.log, id) == f.log
            && match f.verdict.value
               case DeniedBy(rule) => DeniedInOrder(names, rules, f, rule, q)
               case _ => PassedInOrder(names, global, rules, f, q)
  {
    StartKept(rules, c);
    RunKeeps(rules, c, Start(c), moves, s);
    assert FlightKept(rules, c, s, id);
    ChargingOrder(c.byName.Keys, c.global.Some?, rules, s.flights[id], q);
  }

  // ----- the rules' bounds on all requests together -----

  /** What happened to one limiter, as a run of its own. */
  function EventsOf(log: seq<Entry>, w: Which): seq<Event> {
    if log == [] then []
    else if Target(Last(log)) != w then EventsOf(Init(log), w)
    else match Last(log)
      case Charged(_, _, key, now, _) => EventsOf(Init(log), w) + [Request(key, now)]
      case Swept(_, now) => EventsOf(Init(log), w) + [Cleanup(now)]
  }

  /** When the limiter `w` was charged under `key` and admitted, over all requests. */
  function GrantedIn(log: seq<Entry>, w: Which, key: string): seq<int> {
    if log == [] then []
    else
      var e := Last(log);
      if e.Charged? && Target(e) == w && e.key == key && e.ok then GrantedIn(Init(log), w, key) + [e.now]
      else GrantedIn(Init(log), w, key)
  }

  /** A new limiter replayed through the log is a run of its own events. */
  lemma {:induction false} ReplayIsRun(rules: seq<Rule>, log: seq<Entry>, w: Which, key: string)
    requires Truthful(Limiter(rules, map[]), log, w)
    ensures var evs := EventsOf(log, w);
            && Replay(Limiter(rules, map[]), log, w) == Limiter(rules, TableAfter(rules, evs))
            && |Answers(rules, evs)| == |Plain(evs)|
            && Composition.Granted(key, Plain(evs), Answers(rules, evs)) == GrantedIn(log, w, key)
  {
    var evs := EventsOf(log, w);
    Composition.OneAnswerEach(rules, evs);
    if log != [] {
      ReplayIsRun(rules, Init(log), w, key);
      if Target(Last(log)) == w {
        assert Init(evs) == EventsOf(Init(log), w);
        if Last(log).Charged? {
          Composition.LastRequest(rules, evs, key);
        }
      }
    }
  }

  /** In every interleaving of requests and cleanups each rule's bound holds on the charges that its
      limiter, new at the start, admitted under any key, all requests taken together. */
  lemma {:induction false} BoundsInEveryInterleaving(
      rules: seq<FlowRule>, c: Limiters, moves: seq<Move>, s: System, w: Which, i: nat, key: string)
    requires Runs(rules, Start(c), moves, s)
    requires At(c, w).Some? && At(c, w).value.table == map[] && i < |At(c, w).value.rules|
    requires Ordered(EventsOf(s.log, w))
    ensures Composition.Respects(At(c, w).value.rules[i], GrantedIn(s.log, w, key))
  {
    var l := At(c, w).value;
    StartKept(rules, c);
    RunKeeps(rules, c, Start(c), moves, s);
    assert ExplainsAt(c, s.log, s.limiters, w);
    assert l == Limiter(l.rules, map[]);
    ReplayIsRun(l.rules, s.log, w, key);
    Composition.EveryRuleHoldsAtOnce(l.rules, key, EventsOf(s.log, w), i);
  }

  // ----- a request with nothing in between -----

  /** Such a request's charges account for all the changes, and keep the charging order. */
  lemma {:induction false} UndisturbedCheck(
      rules: seq<FlowRule>, order: seq<FlowRule>, c: Limiters, req: HttpRequest, clock: nat -> int, q: FlowRule)
    requires IsOrdering(rules, order)
    ensures var (c', f) := Check(c, Begin(0, req, order), clock); var names, global := c.byName.Keys, c.global.Some?;
            && Explains(c, f.log, c') && f.verdict.Some?
            && (forall k :: 0 <= k < |f.log| ==> ReadAtTurn(f.log[k], order, clock))
            && match f.verdict.value
               case DeniedBy(rule) => DeniedInOrder(names, rules, f, rule, q)
               case _ => PassedInOrder(names, global, rules, f, q)
  {
    var (c', f) := Check(c, Begin(0, req, order), clock);
    StartKept(rules, c);
    CheckFollows(c, Begin(0, req, order), clock);
    CheckExplains(c, c, Begin(0, req, order), clock);
    CheckReadings(c, Begin(0, req, order), clock);
    ChargingOrder(c.byName.Keys, c.global.Some?, rules, f, q);
  }
}
