/** gateway/flow_control/flow_control.go, the controller as values: the order in which the
    rules are charged. A request goes through them in steps, one limiter at a time, and leaves a log
    of what it charged. */
module RuleCharging {
  import opened History
  import opened Options
  import opened Strategies
  import opened Requests

  // ----- charging -----

  /** A rate limiter by value. */
  datatype Limiter = Limiter(rules: seq<Rule>, table: Table)

  function Allow(l: Limiter, key: string, now: int): (Limiter, bool) {
    var (m, ok) := Charge(l.rules, l.table, key, now);
    (l.(table := m), ok)
  }

  datatype Limiters = Limiters(byName: map<string, Limiter>, global: Option<Limiter>)

  datatype Verdict = Allowed | DeniedBy(rule: FlowRule) | DeniedGlobally

  /** A limiter: a rule's, which goes by its name, or the global one. */
  datatype Which = OfName(name: string) | OfAll

  function At(c: Limiters, w: Which): Option<Limiter> {
    match w
    case OfName(name) => if name in c.byName then Some(c.byName[name]) else None
    case OfAll => c.global
  }

  function Put(c: Limiters, w: Which, l: Limiter): Limiters {
    match w
    case OfName(name) => c.(byName := c.byName[name := l])
    case OfAll => c.(global := Some(l))
  }

  /** What happened to a limiter: request `id` charged it, for a rule or as the global one, or a
      tick of the janitor swept it. */
  datatype Entry =
    | Charged(id: nat, rule: Option<FlowRule>, key: string, now: int, ok: bool)
    | Swept(which: Which, now: int)

  function Target(e: Entry): Which {
    match e
    case Charged(_, rule, _, _, _) => if rule.Some? then OfName(rule.value.name) else OfAll
    case Swept(which, _) => which
  }

  /** A request on its way through the rules: `at` is the next one. */
  datatype Flight = Flight(
    id: nat, req: HttpRequest, order: seq<FlowRule>, at: nat, log: seq<Entry>, verdict: Option<Verdict>)

  function Begin(id: nat, req: HttpRequest, order: seq<FlowRule>): Flight {
    Flight(id, req, order, 0, [], None)
  }

  /** The rules that are charged, given the names that have limiters. */
  predicate Applies(names: set<string>, rule: FlowRule, req: HttpRequest) {
    rule.enabled && MatchRule(req, rule) && rule.name in names
  }

  /** One turn of the loop in `CheckRequest`, or the global charge after it. */
  function Proceed(c: Limiters, f: Flight, now: int): (Limiters, Flight) {
    if f.at >= |f.order| then
      if c.global.None? then (c, f.(verdict := Some(Allowed)))
      else
        var key := GenerateGlobalKey(f.req);
        var (l, ok) := Allow(c.global.value, key, now);
        (Put(c, OfAll, l),
         f.(log := f.log + [Charged(f.id, None, key, now, ok)],
            verdict := Some(if ok then Allowed else DeniedGlobally)))
    else
      var rule := f.order[f.at];
      if !Applies(c.byName.Keys, rule, f.req) then (c, f.(at := f.at + 1))
      else
        var key := GenerateKey(f.req, rule);
        var (l, ok) := Allow(c.byName[rule.name], key, now);
        var f' := f.(log := f.log + [Charged(f.id, Some(rule), key, now, ok)]);
        (Put(c, OfName(rule.name), l), if ok then f'.(at := f.at + 1) else f'.(verdict := Some(DeniedBy(rule))))
  }

  /** The whole of `CheckRequest` with nothing in between; `clock` gives the reading at each turn. */
  function Check(c: Limiters, f: Flight, clock: nat -> int): (Limiters, Flight)
    decreases |f.order| - f.at, if f.verdict.None? then 1 else 0
  {
    if f.verdict.Some? then (c, f)
    else
      var (c', f') := Proceed(c, f, clock(f.at));
      Check(c', f', clock)
  }

  // ----- the order -----

  ghost predicate ByPriority(order: seq<FlowRule>) {
    forall i, j :: 0 <= i < j < |order| ==> order[i].priority <= order[j].priority
  }

  ghost predicate DistinctNames(rules: seq<FlowRule>) {
    forall i, j :: 0 <= i < j < |rules| ==> rules[i].name != rules[j].name
  }

  /** A priority-sorted permutation of the configured rules. */
  ghost predicate IsOrdering(rules: seq<FlowRule>, order: seq<FlowRule>) {
    multiset(order) == multiset(rules) && ByPriority(order)
  }

  // ----- what a request's log holds -----

  predicate IsCharge(e: Entry, id: nat, rule: Option<FlowRule>, key: string, ok: bool) {
    e.Charged? && e == Charged(id, rule, key, e.now, ok)
  }

  /** `log` holds, for each applicable rule of `front` in order, one charge that was admitted. */
  ghost predicate Passed(names: set<string>, id: nat, front: seq<FlowRule>, req: HttpRequest, log: seq<Entry>) {
    if front == [] then log == []
    else
      var rule := Last(front);
      if Applies(names, rule, req) then
        && log != [] && Passed(names, id, Init(front), req, Init(log))
        && IsCharge(Last(log), id, Some(rule), GenerateKey(req, rule), true)
      else Passed(names, id, Init(front), req, log)
  }

  /** `log` ends in this charge, and before it holds what going through `front` charges. */
  ghost predicate PassedThen(
      names: set<string>, f: Flight, front: seq<FlowRule>, rule: Option<FlowRule>, key: string, ok: bool) {
    f.log != [] && Passed(names, f.id, front, f.req, Init(f.log)) && IsCharge(Last(f.log), f.id, rule, key, ok)
  }

  /** What the log of a request holds at each stage, given which limiters there are. */
  ghost predicate Follows(names: set<string>, global: bool, f: Flight) {
    && f.at <= |f.order|
    && match f.verdict
       case None => Passed(names, f.id, f.order[..f.at], f.req, f.log)
       case Some(DeniedBy(rule)) =>
         && f.at < |f.order| && rule == f.order[f.at] && Applies(names, rule, f.req)
         && PassedThen(names, f, f.order[..f.at], Some(rule), GenerateKey(f.req, rule), false)
       case Some(DeniedGlobally) =>
         f.at == |f.order| && global && PassedThen(names, f, f.order, None, GenerateGlobalKey(f.req), false)
       case Some(Allowed) =>
         && f.at == |f.order|
         && if global then PassedThen(names, f, f.order, None, GenerateGlobalKey(f.req), true)
            else Passed(names, f.id, f.order, f.req, f.log)
  }

  ghost predicate FollowsIn(c: Limiters, f: Flight) {
    Follows(c.byName.Keys, c.global.Some?, f)
  }

  lemma {:induction false} PassedNext(
      names: set<string>, id: nat, order: seq<FlowRule>, i: nat, req: HttpRequest, log: seq<Entry>, e: Entry)
    requires i < |order| && Passed(names, id, order[..i], req, log)
    ensures if !Applies(names, order[i], req) then Passed(names, id, order[..i + 1], req, log)
            else IsCharge(e, id, Some(order[i]), GenerateKey(req, order[i]), true) ==>
              Passed(names, id, order[..i + 1], req, log + [e])
  {
    assert Init(order[..i + 1]) == order[..i] && Last(order[..i + 1]) == order[i];
    assert Init(log + [e]) == log && Last(log + [e]) == e;
  }

  lemma {:induction false} SkipFollows(names: set<string>, global: bool, f: Flight)
    requires Follows(names, global, f) && f.verdict.None? && f.at < |f.order|
    requires !Applies(names, f.order[f.at], f.req)
    ensures Follows(names, global, f.(at := f.at + 1))
  {
    PassedNext(names, f.id, f.order, f.at, f.req, f.log, Swept(OfAll, 0));
  }

  lemma {:induction false} ChargeFollows(names: set<string>, global: bool, f: Flight, e: Entry)
    requires Follows(names, global, f) && f.verdict.None? && f.at < |f.order|
    requires var rule := f.order[f.at];
             Applies(names, rule, f.req) && e.Charged? && IsCharge(e, f.id, Some(rule), GenerateKey(f.req, rule), e.ok)
    ensures var f' := f.(log := f.log + [e]);
            Follows(names, global, if e.ok then f'.(at := f.at + 1) else f'.(verdict := Some(DeniedBy(f.order[f.at]))))
  {
    PassedNext(names, f.id, f.order, f.at, f.req, f.log, e);
    assert Init(f.log + [e]) == f.log;
  }

  lemma {:induction false} LastFollows(names: set<string>, f: Flight, e: Entry)
    requires Follows(names, true, f) && f.verdict.None? && f.at == |f.order|
    requires e.Charged? && IsCharge(e, f.id, None, GenerateGlobalKey(f.req), e.ok)
    ensures Follows(names, true, f.(log := f.log + [e], verdict := Some(if e.ok then Allowed else DeniedGlobally)))
  {
    assert Init(f.log + [e]) == f.log && f.order[..f.at] == f.order;
  }

  /** No step adds or removes a limiter. */
  lemma {:induction false} SameLimiters(c: Limiters, f: Flight, now: int)
    ensures var c' := Proceed(c, f, now).0;
            c'.byName.Keys == c.byName.Keys && (c'.global.Some? <==> c.global.Some?)
  {
  }

  /** A step adds at most one charge and keeps the log in order. */
  lemma {:induction false} ProceedFollows(c: Limiters, f: Flight, now: int)
    requires FollowsIn(c, f) && f.verdict.None?
    ensures var f' := Proceed(c, f, now).1;
            FollowsIn(c, f') && f'.id == f.id && f'.req == f.req && f'.order == f.order
  {
    var f' := Proceed(c, f, now).1;
    var names, global := c.byName.Keys, c.global.Some?;
    if f.at == |f.order| {
      if global {
        LastFollows(names, f, Last(f'.log));
      } else {
        assert f.order[..f.at] == f.order;
      }
    } else if Applies(names, f.order[f.at], f.req) {
      ChargeFollows(names, global, f, Last(f'.log));
    } else {
      SkipFollows(names, global, f);
    }
  }

  lemma {:induction false} CheckFollows(c: Limiters, f: Flight, clock: nat -> int)
    requires FollowsIn(c, f)
    ensures var (c', f') := Check(c, f, clock);
            && FollowsIn(c', f') && c'.byName.Keys == c.byName.Keys && (c'.global.Some? <==> c.global.Some?)
            && f'.verdict.Some? && f'.id == f.id && f'.req == f.req && f'.order == f.order
    decreases |f.order| - f.at, if f.verdict.None? then 1 else 0
  {
    if f.verdict.None? {
      var (c', f') := Proceed(c, f, clock(f.at));
      ProceedFollows(c, f, clock(f.at));
      SameLimiters(c, f, clock(f.at));
      CheckFollows(c', f', clock);
    }
  }

  ghost predicate TurnOf(e: Entry, order: seq<FlowRule>, clock: nat -> int, i: nat) {
    e.Charged? && i <= |order| && e.now == clock(i) && e.rule == if i < |order| then Some(order[i]) else None
  }

  /** Each charge was made at its rule's turn, or after the loop, with the reading of that turn. */
  ghost predicate ReadAtTurn(e: Entry, order: seq<FlowRule>, clock: nat -> int) {
    exists i: nat :: TurnOf(e, order, clock, i)
  }

  lemma {:induction false} CheckReadings(c: Limiters, f: Flight, clock: nat -> int)
    requires f.at <= |f.order| && forall k :: 0 <= k < |f.log| ==> ReadAtTurn(f.log[k], f.order, clock)
    ensures var (_, f') := Check(c, f, clock);
            f'.order == f.order && forall k :: 0 <= k < |f'.log| ==> ReadAtTurn(f'.log[k], f.order, clock)
    decreases |f.order| - f.at, if f.verdict.None? then 1 else 0
  {
    if f.verdict.None? {
      var (c', f') := Proceed(c, f, clock(f.at));
      assert f'.log != f.log ==> f'.log == f.log + [Last(f'.log)] && TurnOf(Last(f'.log), f.order, clock, f.at);
      CheckReadings(c', f', clock);
    }
  }

  // ----- what the log says about the limiters -----

  /** What an entry does to the limiter it is about. */
  function Effect(l: Limiter, e: Entry): Limiter {
    match e
    case Charged(_, _, key, now, _) => Allow(l, key, now).0
    case Swept(_, now) => l.(table := Sweep(l.rules, l.table, now))
  }

  /** The limiter `w`, once `l`, after the entries of the log that are about it. */
  function Replay(l: Limiter, log: seq<Entry>, w: Which): Limiter {
    if log == [] then l
    else if Target(Last(log)) == w then Effect(Replay(l, Init(log), w), Last(log))
    else Replay(l, Init(log), w)
  }

  /** Every charge of `w` in the log was answered as the limiter then answers. */
  ghost predicate Truthful(l: Limiter, log: seq<Entry>, w: Which) {
    log == [] ||
    (&& Truthful(l, Init(log), w)
     && (Last(log).Charged? && Target(Last(log)) == w ==>
           Last(log).ok == Allow(Replay(l, Init(log), w), Last(log).key, Last(log).now).1))
  }

  ghost predicate ExplainsAt(c: Limiters, log: seq<Entry>, c': Limiters, w: Which) {
    if At(c, w).None? then At(c', w).None?
    else At(c', w) == Some(Replay(At(c, w).value, log, w)) && Truthful(At(c, w).value, log, w)
  }

  /** The log accounts for all that happened to the limiters between `c` and `c'`. */
  ghost predicate Explains(c: Limiters, log: seq<Entry>, c': Limiters) {
    forall w :: ExplainsAt(c, log, c', w)
  }

  lemma {:induction false} ExplainsNext(c: Limiters, log: seq<Entry>, c': Limiters, e: Entry)
    requires Explains(c, log, c') && At(c', Target(e)).Some?
    requires e.Charged? ==> e.ok == Allow(At(c', Target(e)).value, e.key, e.now).1
    ensures Explains(c, log + [e], Put(c', Target(e), Effect(At(c', Target(e)).value, e)))
  {
    assert Init(log + [e]) == log && Last(log + [e]) == e;
    var c'' := Put(c', Target(e), Effect(At(c', Target(e)).value, e));
    forall w ensures ExplainsAt(c, log + [e], c'', w) {
      assert ExplainsAt(c, log, c', w);
    }
  }

  /** A step's new charges account for what it did, whatever the log so far. */
  lemma {:induction false} ProceedExplains(
      c: Limiters, log: seq<Entry>, c': Limiters, f: Flight, now: int) returns (news: seq<Entry>)
    requires Explains(c, log, c') && f.verdict.None?
    ensures var (c'', f') := Proceed(c', f, now);
            f'.log == f.log + news && Explains(c, log + news, c'')
    ensures forall k :: 0 <= k < |news| ==> news[k].Charged? && news[k].id == f.id && news[k].now == now
  {
    var (c'', f') := Proceed(c', f, now);
    news := f'.log[|f.log|..];
    if f'.log == f.log {
      assert log + news == log && f.log + news == f.log;
    } else {
      var e := Last(f'.log);
      assert news == [e];
      ExplainsNext(c, log, c', e);
    }
  }

  lemma {:induction false} CheckExplains(c: Limiters, c': Limiters, f: Flight, clock: nat -> int)
    requires Explains(c, f.log, c')
    ensures var (c'', f') := Check(c', f, clock); Explains(c, f'.log, c'')
    decreases |f.order| - f.at, if f.verdict.None? then 1 else 0
  {
    if f.verdict.None? {
      var (mid, f') := Proceed(c', f, clock(f.at));
      var news := ProceedExplains(c, f.log, c', f, clock(f.at));
      CheckExplains(c, mid, f', clock);
    }
  }

  // ----- how often each rule is charged -----

  /** How many charges for the rule the log holds that were answered this way. */
  function Times(log: seq<Entry>, rule: FlowRule, ok: bool): nat {
    if log == [] then 0
    else
      var e := Last(log);
      Times(Init(log), rule, ok) + if e.Charged? && e.rule == Some(rule) && e.ok == ok then 1 else 0
  }

  function Copies(rules: seq<FlowRule>, rule: FlowRule): nat {
    if rules == [] then 0 else Copies(Init(rules), rule) + if Last(rules) == rule then 1 else 0
  }

  lemma {:induction false} CopiesCount(rules: seq<FlowRule>, rule: FlowRule)
    ensures Copies(rules, rule) == multiset(rules)[rule]
  {
    if rules != [] {
      CopiesCount(Init(rules), rule);
      assert rules == Init(rules) + [Last(rules)];
    }
  }

  lemma {:induction false} PassedTimes(
      names: set<string>, id: nat, front: seq<FlowRule>, req: HttpRequest, log: seq<Entry>, rule: FlowRule)
    requires Passed(names, id, front, req, log)
    ensures Times(log, rule, false) == 0
    ensures Times(log, rule, true) == if Applies(names, rule, req) then Copies(front, rule) else 0
  {
    if front != [] {
      PassedTimes(names, id, Init(front), req, if Applies(names, Last(front), req) then Init(log) else log, rule);
    }
  }

  /** Each entry is a charge for one of the rules, under its own key, and was admitted. */
  lemma {:induction false} PassedEntries(
      names: set<string>, id: nat, front: seq<FlowRule>, req: HttpRequest, log: seq<Entry>, k: nat)
    requires Passed(names, id, front, req, log) && k < |log|
    ensures var e := log[k];
            && e.Charged? && e.ok && e.rule.Some? && e.rule.value in front
            && Applies(names, e.rule.value, req) && e.key == GenerateKey(req, e.rule.value)
  {
    if Applies(names, Last(front), req) {
      if k < |log| - 1 { PassedEntries(names, id, Init(front), req, Init(log), k); }
    } else {
      PassedEntries(names, id, Init(front), req, log, k);
    }
  }

  lemma {:induction false} CopiesUpTo(order: seq<FlowRule>, p: nat, rule: FlowRule)
    requires ByPriority(order) && p < |order|
    ensures rule.priority < order[p].priority ==> Copies(order[..p], rule) == Copies(order, rule)
    ensures rule.priority > order[p].priority ==> Copies(order[..p], rule) == 0
  {
    var rest := order[p..];
    assert order == order[..p] + rest;
    CopiesCount(order, rule);
    CopiesCount(order[..p], rule);
    assert multiset(order) == multiset(order[..p]) + multiset(rest);
    if rule.priority < order[p].priority {
      assert rule !in rest;
    } else if rule.priority > order[p].priority {
      assert rule !in order[..p];
    }
  }

  /** How often the configured rule is charged when every applicable rule is, once for each time it
      is listed: applicable are the enabled rules that match and have a limiter. */
  function Due(names: set<string>, rules: seq<FlowRule>, req: HttpRequest, rule: FlowRule): nat {
    if rule.enabled && MatchRule(req, rule) && rule.name in names then multiset(rules)[rule] else 0
  }

  lemma {:induction false} DueInOrder(
      names: set<string>, rules: seq<FlowRule>, order: seq<FlowRule>, req: HttpRequest, rule: FlowRule)
    requires multiset(order) == multiset(rules)
    ensures Due(names, rules, req, rule) == if Applies(names, rule, req) then Copies(order, rule) else 0
  {
    CopiesCount(order, rule);
  }

  /** A denial by a rule, in what it says about the charges for rule q: each applicable rule of
      strictly smaller priority number was charged and admitted, once for each time it is listed;
      none of strictly larger number was charged, nor was the global limiter. */
  ghost predicate DeniedInOrder(names: set<string>, rules: seq<FlowRule>, f: Flight, rule: FlowRule, q: FlowRule) {
    && rule in rules && rule.enabled && MatchRule(f.req, rule) && rule.name in names
    && f.log != [] && IsCharge(Last(f.log), f.id, Some(rule), GenerateKey(f.req, rule), false)
    && (forall k :: 0 <= k < |f.log| ==> f.log[k].Charged? && f.log[k].rule.Some?)
    && Times(Init(f.log), q, false) == 0
    && (q.priority < rule.priority ==> Times(f.log, q, true) == Due(names, rules, f.req, q))
    && (q.priority > rule.priority ==> Times(f.log, q, true) == Times(f.log, q, false) == 0)
  }

  /** Any other verdict: every applicable rule was charged and admitted, once for each time it is
      listed, and the verdict is the global limiter's, if there is one. */
  ghost predicate PassedInOrder(names: set<string>, global: bool, rules: seq<FlowRule>, f: Flight, q: FlowRule)
    requires f.verdict.Some?
  {
    && Times(f.log, q, true) == Due(names, rules, f.req, q) && Times(f.log, q, false) == 0
    && if global then
         f.log != [] && IsCharge(Last(f.log), f.id, None, GenerateGlobalKey(f.req), f.verdict.value == Allowed)
       else f.verdict.value == Allowed
  }

  lemma {:induction false} DenialOrder(names: set<string>, global: bool, rules: seq<FlowRule>, f: Flight, q: FlowRule)
    requires IsOrdering(rules, f.order) && Follows(names, global, f) && f.verdict.Some? && f.verdict.value.DeniedBy?
    ensures DeniedInOrder(names, rules, f, f.verdict.value.rule, q)
  {
    var rule := f.verdict.value.rule;
    assert rule in multiset(f.order);
    PassedTimes(names, f.id, f.order[..f.at], f.req, Init(f.log), q);
    DueInOrder(names, rules, f.order, f.req, q);
    CopiesUpTo(f.order, f.at, q);
    forall k | 0 <= k < |f.log| ensures f.log[k].Charged? && f.log[k].rule.Some? {
      if k < |f.log| - 1 {
        PassedEntries(names, f.id, f.order[..f.at], f.req, Init(f.log), k);
        assert Init(f.log)[k] == f.log[k];
      }
    }
  }

  /** Charging order, for any list of rules, repeated names and all. */
  lemma {:induction false} ChargingOrder(names: set<string>, global: bool, rules: seq<FlowRule>, f: Flight, q: FlowRule)
    requires IsOrdering(rules, f.order) && Follows(names, global, f) && f.verdict.Some?
    ensures match f.verdict.value
            case DeniedBy(rule) => DeniedInOrder(names, rules, f, rule, q)
            case _ => PassedInOrder(names, global, rules, f, q)
  {
    if f.verdict.value.DeniedBy? {
      DenialOrder(names, global, rules, f, q);
    } else {
      PassedTimes(names, f.id, f.order, f.req, if global then Init(f.log) else f.log, q);
      DueInOrder(names, rules, f.order, f.req, q);
    }
  }

  // ----- with distinct names -----

  lemma {:induction false} CountOne<T>(s: seq<T>, x: T)
    requires forall i, j :: 0 <= i < j < |s| ==> !(s[i] == x && s[j] == x)
    ensures multiset(s)[x] <= 1
  {
    if s != [] {
      var t := s[..|s| - 1];
      assert s == t + [s[|s| - 1]];
      CountOne(t, x);
      if s[|s| - 1] == x {
        forall i | 0 <= i < |t| ensures t[i] != x {
          assert s[i] == t[i];
        }
        assert x !in multiset(t);
      }
    }
  }

  lemma {:induction false} CountTwo<T>(s: seq<T>, i: nat, j: nat)
    requires i < j < |s| && s[i] == s[j]
    ensures multiset(s)[s[i]] >= 2
  {
    assert s == s[..j] + [s[j]] + s[j + 1..];
    assert s[..j][i] == s[i];
  }

  lemma {:induction false} OrderingKeepsNames(rules: seq<FlowRule>, order: seq<FlowRule>)
    requires multiset(order) == multiset(rules) && DistinctNames(rules)
    ensures DistinctNames(order)
    ensures forall q :: q in rules <==> q in order
  {
    forall q ensures q in rules <==> q in order {
      assert (q in rules <==> q in multiset(rules)) && (q in order <==> q in multiset(order));
    }
    forall i, j | 0 <= i < j < |order| ensures order[i].name != order[j].name {
      CountOne(rules, order[i]);
      if order[i] == order[j] {
        CountTwo(order, i, j);
      }
      assert order[i] in rules && order[j] in rules;
    }
  }

  /** No two entries of the log are about the same limiter. */
  ghost predicate OnceEach(log: seq<Entry>) {
    forall i, j :: 0 <= i < j < |log| ==> Target(log[i]) != Target(log[j])
  }

  lemma {:induction false} PassedOnceEach(
      names: set<string>, id: nat, front: seq<FlowRule>, req: HttpRequest, log: seq<Entry>)
    requires Passed(names, id, front, req, log) && DistinctNames(front)
    ensures OnceEach(log)
  {
    if front != [] {
      var rule := Last(front);
      if Applies(names, rule, req) {
        PassedOnceEach(names, id, Init(front), req, Init(log));
        forall i | 0 <= i < |log| - 1 ensures Target(log[i]) != OfName(rule.name) {
          PassedEntries(names, id, Init(front), req, Init(log), i);
          assert Init(log)[i] == log[i];
        }
      } else {
        PassedOnceEach(names, id, Init(front), req, log);
      }
    }
  }

  /** With distinct names no limiter is charged twice. */
  lemma {:induction false} DistinctNamesOnceEach(names: set<string>, global: bool, rules: seq<FlowRule>, f: Flight)
    requires IsOrdering(rules, f.order) && DistinctNames(rules) && Follows(names, global, f)
    ensures OnceEach(f.log)
  {
    OrderingKeepsNames(rules, f.order);
    if f.verdict.None? {
      PassedOnceEach(names, f.id, f.order[..f.at], f.req, f.log);
    } else if f.verdict.value == Allowed && !global {
      PassedOnceEach(names, f.id, f.order, f.req, f.log);
    } else {
      var front := if f.verdict.value.DeniedBy? then f.order[..f.at] else f.order;
      PassedOnceEach(names, f.id, front, f.req, Init(f.log));
      forall i | 0 <= i < |f.log| - 1 ensures Target(f.log[i]) != Target(Last(f.log)) {
        PassedEntries(names, f.id, front, f.req, Init(f.log), i);
        assert Init(f.log)[i] == f.log[i];
      }
    }
  }

  lemma {:induction false} NotCharged(l: Limiter, log: seq<Entry>, w: Which)
    requires forall k :: 0 <= k < |log| ==> Target(log[k]) != w
    ensures Replay(l, log, w) == l
  {
    if log != [] { NotCharged(l, Init(log), w); }
  }

  /** The only charge of a limiter is what changed it. */
  lemma {:induction false} ChargedOnce(l: Limiter, log: seq<Entry>, k: nat)
    requires k < |log| && log[k].Charged? && OnceEach(log) && Truthful(l, log, Target(log[k]))
    ensures Allow(l, log[k].key, log[k].now) == (Replay(l, log, Target(log[k])), log[k].ok)
  {
    if k == |log| - 1 {
      NotCharged(l, Init(log), Target(log[k]));
    } else {
      assert Init(log)[k] == log[k];
      ChargedOnce(l, Init(log), k);
    }
  }

  lemma {:induction false} FindCharge(log: seq<Entry>, rule: FlowRule, ok: bool) returns (k: nat)
    requires Times(log, rule, ok) > 0
    ensures k < |log| && log[k].Charged? && log[k].rule == Some(rule) && log[k].ok == ok
  {
    var e := Last(log);
    if e.Charged? && e.rule == Some(rule) && e.ok == ok {
      k := |log| - 1;
    } else {
      k := FindCharge(Init(log), rule, ok);
    }
  }

  /** `c'` holds the rule's limiter as charged once from its state in `c`, with this answer. */
  ghost predicate ChargedAt(c: Limiters, c': Limiters, rule: FlowRule, key: string, now: int, ok: bool) {
    && rule.name in c.byName && rule.name in c'.byName
    && Allow(c.byName[rule.name], key, now) == (c'.byName[rule.name], ok)
  }

  ghost predicate ChargedAlone(c: Limiters, c': Limiters, rule: FlowRule, req: HttpRequest, ok: bool) {
    exists now :: ChargedAt(c, c', rule, GenerateKey(req, rule), now, ok)
  }

  lemma {:induction false} LogKeys(names: set<string>, global: bool, f: Flight, k: nat)
    requires Follows(names, global, f) && k < |f.log| && f.log[k].Charged? && f.log[k].rule.Some?
    ensures f.log[k].key == GenerateKey(f.req, f.log[k].rule.value)
    ensures f.log[k].rule.value in f.order && Applies(names, f.log[k].rule.value, f.req)
  {
    var front := f.order[..f.at];
    assert f.at == |f.order| ==> front == f.order;
    if f.verdict.None? || (f.verdict.value == Allowed && !global) {
      PassedEntries(names, f.id, front, f.req, f.log, k);
    } else if k < |f.log| - 1 {
      PassedEntries(names, f.id, front, f.req, Init(f.log), k);
      assert Init(f.log)[k] == f.log[k];
    }
  }

  lemma {:induction false} EntryCounts(log: seq<Entry>, k: nat)
    requires k < |log| && log[k].Charged? && log[k].rule.Some?
    ensures Times(log, log[k].rule.value, log[k].ok) > 0
  {
    if k < |log| - 1 {
      assert Init(log)[k] == log[k];
      EntryCounts(Init(log), k);
    }
  }

  lemma {:induction false} OnlyCharges(names: set<string>, global: bool, f: Flight, k: nat)
    requires Follows(names, global, f) && k < |f.log|
    ensures f.log[k].Charged? && (f.log[k].rule.None? ==> global)
  {
    var front := f.order[..f.at];
    assert f.at == |f.order| ==> front == f.order;
    if f.verdict.None? || (f.verdict.value == Allowed && !global) {
      PassedEntries(names, f.id, front, f.req, f.log, k);
    } else if k < |f.log| - 1 {
      PassedEntries(names, f.id, front, f.req, Init(f.log), k);
      assert Init(f.log)[k] == f.log[k];
    }
  }

  lemma {:induction false} SameNameSameRule(rules: seq<FlowRule>, p: FlowRule, q: FlowRule)
    requires DistinctNames(rules) && p in rules && q in rules && p.name == q.name
    ensures p == q
  {
    var i :| 0 <= i < |rules| && rules[i] == p;
    var j :| 0 <= j < |rules| && rules[j] == q;
  }

  /** The one charge of a rule's limiter is that rule's. */
  lemma {:induction false} OwnCharge(rules: seq<FlowRule>, c: Limiters, c': Limiters, f: Flight, q: FlowRule, k: nat)
    requires IsOrdering(rules, f.order) && DistinctNames(rules) && q in rules
    requires FollowsIn(c, f) && Explains(c, f.log, c') && k < |f.log| && Target(f.log[k]) == OfName(q.name)
    ensures f.log[k].Charged? && f.log[k].rule == Some(q) && Applies(c.byName.Keys, q, f.req)
    ensures ChargedAlone(c, c', q, f.req, f.log[k].ok) && Times(f.log, q, f.log[k].ok) > 0
  {
    var names, global := c.byName.Keys, c.global.Some?;
    OnlyCharges(names, global, f, k);
    LogKeys(names, global, f, k);
    OrderingKeepsNames(rules, f.order);
    assert f.log[k].rule.value == q by { SameNameSameRule(rules, f.log[k].rule.value, q); }
    DistinctNamesOnceEach(names, global, rules, f);
    assert ExplainsAt(c, f.log, c', OfName(q.name));
    ChargedOnce(c.byName[q.name], f.log, k);
    assert ChargedAt(c, c', q, GenerateKey(f.req, q), f.log[k].now, f.log[k].ok);
    EntryCounts(f.log, k);
  }

  /** A rule whose limiter the log does not mention was not charged, and its limiter is as it was. */
  lemma {:induction false} NoCharge(c: Limiters, c': Limiters, log: seq<Entry>, q: FlowRule)
    requires Explains(c, log, c') && forall k :: 0 <= k < |log| ==> Target(log[k]) != OfName(q.name)
    ensures At(c', OfName(q.name)) == At(c, OfName(q.name)) && forall ok :: Times(log, q, ok) == 0
  {
    assert ExplainsAt(c, log, c', OfName(q.name));
    if q.name in c.byName { NotCharged(c.byName[q.name], log, OfName(q.name)); }
    forall ok ensures Times(log, q, ok) == 0 {
      if Times(log, q, ok) > 0 { var k := FindCharge(log, q, ok); }
    }
  }

  /** With distinct names the log can be read off the limiters: between `c` and `c'`, those of all
      applicable rules before the denial were charged once and admitted, the denying one once, and
      those after it, the ones of rules that do not apply, and the global one not at all. */
  lemma {:induction false} LimitersTell(rules: seq<FlowRule>, c: Limiters, c': Limiters, f: Flight, q: FlowRule)
    requires IsOrdering(rules, f.order) && DistinctNames(rules) && q in rules
    requires FollowsIn(c, f) && Explains(c, f.log, c') && f.verdict.Some?
    ensures var w := OfName(q.name); var applies := Applies(c.byName.Keys, q, f.req); var v := f.verdict.value;
      && (!applies ==> At(c', w) == At(c, w))
      && (v.DeniedBy? ==>
           && c'.global == c.global
           && (q == v.rule ==> ChargedAlone(c, c', q, f.req, false))
           && (applies && q.priority < v.rule.priority ==> ChargedAlone(c, c', q, f.req, true))
           && (q.priority > v.rule.priority ==> At(c', w) == At(c, w)))
      && (!v.DeniedBy? && applies ==> ChargedAlone(c, c', q, f.req, true))
  {
    var names, global, v := c.byName.Keys, c.global.Some?, f.verdict.value;
    ChargingOrder(names, global, rules, f, q);
    assert q in multiset(rules);
    if k :| 0 <= k < |f.log| && Target(f.log[k]) == OfName(q.name) {
      OwnCharge(rules, c, c', f, q, k);
      DistinctNamesOnceEach(names, global, rules, f);
    } else {
      NoCharge(c, c', f.log, q);
    }
    assert ExplainsAt(c, f.log, c', OfAll);
    if v.DeniedBy? && global { NotCharged(c.global.value, f.log, OfAll); }
  }
}
