/** gateway/flow_control/flow_control.go: the `FlowController` object over its rate limiters. */
module FlowControl {
  import opened Durations
  import opened Options
  import opened Strategies
  import opened RateLimiters
  import opened Requests
  import opened RuleCharging

  // ----- getSortedRules -----

  /** The first i places hold smallest priority numbers, in order. */
  ghost predicate SettledUpTo(s: seq<FlowRule>, i: int) {
    forall p, q :: 0 <= p < i && p < q < |s| ==> s[p].priority <= s[q].priority
  }

  /** Place i holds the smallest number of the places from i up to j. */
  ghost predicate SmallestUpTo(s: seq<FlowRule>, i: nat, j: int) {
    forall q :: i < q < j && q < |s| ==> s[i].priority <= s[q].priority
  }

  /** `k` is the first of the places from i up to j with the smallest number there. */
  predicate FirstSmallest(s: seq<FlowRule>, i: nat, j: int, k: int) {
    && i <= k < j && k < |s|
    && (forall q :: i <= q < j && q < |s| ==> s[k].priority <= s[q].priority)
    && (forall q :: i <= q < k ==> s[k].priority < s[q].priority)
  }

  /** Two places exchanged if they are strictly out of order. */
  function Exchanged(s: seq<FlowRule>, i: nat, j: nat): seq<FlowRule>
    requires i < j < |s|
  {
    if s[i].priority > s[j].priority then s[i := s[j]][j := s[i]] else s
  }

  method Exchange(a: array<FlowRule>, i: nat, j: nat)
    requires i < j < a.Length
    modifies a
    ensures a[..] == Exchanged(old(a[..]), i, j) && multiset(a[..]) == multiset(old(a[..]))
  {
    if a[i].priority > a[j].priority {
      a[i], a[j] := a[j], a[i];
    }
  }

  /** Swapping within the rest leaves the settled places settled, and place i the smallest so far. */
  lemma SwapSettles(s: seq<FlowRule>, i: nat, j: nat)
    requires i < j < |s| && SettledUpTo(s, i) && SmallestUpTo(s, i, j) && s[i].priority > s[j].priority
    ensures var t := s[i := s[j]][j := s[i]]; SettledUpTo(t, i) && SmallestUpTo(t, i, j + 1)
  {
  }

  lemma SmallestSettles(s: seq<FlowRule>, i: nat)
    requires i < |s| && SettledUpTo(s, i) && SmallestUpTo(s, i, |s|)
    ensures SettledUpTo(s, i + 1)
  {
  }

  /** Place i exchanged with each place after it up to j, in turn. */
  function Pass(s: seq<FlowRule>, i: nat, j: nat): (t: seq<FlowRule>)
    requires i < j <= |s|
    ensures |t| == |s|
  {
    if j == i + 1 then s else Exchanged(Pass(s, i, j - 1), i, j - 1)
  }

  /** A pass touches nothing before place i, nor what it has not come to, nor what is in order. */
  lemma {:induction false} PassLeaves(s: seq<FlowRule>, i: nat, j: nat, q: nat)
    requires i < j <= |s| && q < |s| && (q < i || j <= q)
    ensures Pass(s, i, j)[q] == s[q]
  {
    if j > i + 1 { PassLeaves(s, i, j - 1, q); }
  }

  lemma {:induction false} PassLeavesSorted(s: seq<FlowRule>, i: nat, j: nat)
    requires i < j <= |s| && SmallestUpTo(s, i, j)
    ensures Pass(s, i, j) == s
  {
    if j > i + 1 { PassLeavesSorted(s, i, j - 1); }
  }

  lemma {:induction false} PassSettles(s: seq<FlowRule>, i: nat, j: nat)
    requires i < j <= |s| && SettledUpTo(s, i)
    ensures SettledUpTo(Pass(s, i, j), i) && SmallestUpTo(Pass(s, i, j), i, j)
  {
    if j > i + 1 {
      PassSettles(s, i, j - 1);
      var t := Pass(s, i, j - 1);
      if t[i].priority > t[j - 1].priority { SwapSettles(t, i, j - 1); }
    }
  }

  /** It brings the first of the smallest to place i. */
  lemma {:induction false} PassBrings(s: seq<FlowRule>, i: nat, j: nat) returns (k: nat)
    requires i < j <= |s|
    ensures FirstSmallest(s, i, j, k) && Pass(s, i, j)[i] == s[k]
  {
    if j == i + 1 {
      k := i;
    } else {
      k := PassBrings(s, i, j - 1);
      PassLeaves(s, i, j - 1, j - 1);
      if s[k].priority > s[j - 1].priority { k := j - 1; }
    }
  }

  /** One pass of the inner loop: the first of the smallest of the rest comes to place i. */
  method SelectInto(a: array<FlowRule>, i: nat)
    requires i < a.Length && SettledUpTo(a[..], i)
    modifies a
    ensures SettledUpTo(a[..], i + 1) && multiset(a[..]) == multiset(old(a[..])) && a[..i] == old(a[..i])
    ensures exists k :: FirstSmallest(old(a[..]), i, a.Length, k) && a[i] == old(a[k])
    ensures SmallestUpTo(old(a[..]), i, a.Length) ==> a[..] == old(a[..])
  {
    ghost var start := a[..];
    for j := i + 1 to a.Length
      invariant a[..] == Pass(start, i, j) && multiset(a[..]) == multiset(start)
    {
      Exchange(a, i, j);
    }
    PassSettles(start, i, a.Length);
    ghost var k := PassBrings(start, i, a.Length);
    forall q | 0 <= q < i ensures a[q] == start[q] {
      PassLeaves(start, i, a.Length, q);
    }
    if SmallestUpTo(start, i, a.Length) { PassLeavesSorted(start, i, a.Length); }
    SmallestSettles(a[..], i);
  }

  /** Sorted by priority; a list already sorted stays as it is, and of the rules with the smallest number
      the one listed first goes first. */
  method GetSortedRules(rules: seq<FlowRule>) returns (sorted: seq<FlowRule>)
    ensures IsOrdering(rules, sorted) && (ByPriority(rules) ==> sorted == rules)
    ensures |rules| > 0 ==> exists k :: FirstSmallest(rules, 0, |rules|, k) && sorted != [] && sorted[0] == rules[k]
  {
    var a := new FlowRule[|rules|](i requires 0 <= i < |rules| => rules[i]);
    assert a[..] == rules;
    if |rules| == 1 { assert FirstSmallest(rules, 0, 1, 0); }
    var i := 0;
    while i < a.Length - 1
      invariant 0 <= i <= a.Length && (a.Length > 0 ==> i < a.Length)
      invariant SettledUpTo(a[..], i) && multiset(a[..]) == multiset(rules)
      invariant ByPriority(rules) ==> a[..] == rules
      invariant i == 0 ==> a[..] == rules
      invariant i > 0 ==> exists k :: FirstSmallest(rules, 0, |rules|, k) && a[0] == rules[k]
    {
      ghost var was := a[..];
      SelectInto(a, i);
      if i > 0 { assert a[..i][0] == was[..i][0]; }
      i := i + 1;
    }
    sorted := a[..];
  }

  // ----- createRateLimiter -----

  predicate Supported(limits: seq<RateLimit>) {
    forall i :: 0 <= i < |limits| ==> limits[i].mode != "token"
  }

  /** The limits whose window parses, in order. */
  function ParseRules(limits: seq<RateLimit>): seq<Rule>
    requires Supported(limits)
  {
    if limits == [] then []
    else
      var l := limits[|limits| - 1];
      match ParseDuration(l.window, l.unit)
      case Nanos(n) => ParseRules(limits[..|limits| - 1]) + [ParsedRule(l.requests, n, l.mode)]
      case _ => ParseRules(limits[..|limits| - 1])
  }

  predicate Parses(l: RateLimit) {
    ParseDuration(l.window, l.unit).Nanos?
  }

  function Parsing(limits: seq<RateLimit>): nat {
    if limits == [] then 0 else Parsing(limits[..|limits| - 1]) + if Parses(limits[|limits| - 1]) then 1 else 0
  }

  predicate RuleAt(rules: seq<Rule>, k: nat, l: RateLimit)
    requires Parses(l)
  {
    && k < |rules| && rules[k].requests == l.requests && rules[k].mode == l.mode
    && rules[k].window == ParseDuration(l.window, l.unit).n
  }

  /** The rules are those of exactly the limits that parse, in order: each such limit's requests, mode
      and duration stand after those of the earlier ones. */
  ghost predicate Carries(rules: seq<Rule>, limits: seq<RateLimit>) {
    && |rules| == Parsing(limits)
    && forall i :: 0 <= i < |limits| && Parses(limits[i]) ==> RuleAt(rules, Parsing(limits[..i]), limits[i])
  }

  lemma {:induction false} CarriesNext(rules: seq<Rule>, more: seq<Rule>, front: seq<RateLimit>, last: RateLimit)
    requires Carries(rules, front)
    requires if Parses(last) then |more| == 1 && RuleAt(more, 0, last) else more == []
    ensures Carries(rules + more, front + [last])
  {
    var limits := front + [last];
    assert limits[..|front|] == front;
    forall i | 0 <= i < |limits| && Parses(limits[i]) ensures RuleAt(rules + more, Parsing(limits[..i]), limits[i]) {
      if i < |front| {
        assert limits[..i] == front[..i] && RuleAt(rules, Parsing(front[..i]), front[i]);
      }
    }
  }

  lemma {:induction false} ParsedCarries(limits: seq<RateLimit>)
    requires Supported(limits)
    ensures Carries(ParseRules(limits), limits)
  {
    if limits != [] {
      var front, last := limits[..|limits| - 1], limits[|limits| - 1];
      ParsedCarries(front);
      var more: seq<Rule> :=
        if Parses(last) then [ParsedRule(last.requests, ParseDuration(last.window, last.unit).n, last.mode)] else [];
      CarriesNext(ParseRules(front), more, front, last);
      assert limits == front + [last] && ParseRules(limits) == ParseRules(front) + more;
    }
  }

  /** Nothing is lost or reordered where two lists of limits are joined. */
  lemma {:induction false} ParseAppend(a: seq<RateLimit>, b: seq<RateLimit>)
    requires Supported(a) && Supported(b)
    ensures Supported(a + b) && ParseRules(a + b) == ParseRules(a) + ParseRules(b)
  {
    if b == [] {
      assert a + b == a;
    } else {
      assert (a + b)[..|a + b| - 1] == a + b[..|b| - 1];
      ParseAppend(a, b[..|b| - 1]);
    }
  }

  /** A limit alone gives one rule if its window parses, and none otherwise. */
  lemma {:induction false} ParseOne(l: RateLimit)
    requires l.mode != "token"
    ensures ParseRules([l]) == match ParseDuration(l.window, l.unit)
                               case Nanos(n) => [ParsedRule(l.requests, n, l.mode)]
                               case _ => []
  {
    assert [l][..0] == [];
  }

  method CreateRateLimiter(limits: seq<RateLimit>) returns (rl: RateLimiter)
    requires Supported(limits)
    ensures fresh(rl) && rl.Valid() && fresh(rl.Repr) && rl.rules == ParseRules(limits) && rl.Contents() == map[]
    ensures Carries(rl.rules, limits)
  {
    var rules: seq<Rule> := [];
    for i := 0 to |limits|
      invariant rules == ParseRules(limits[..i])
    {
      assert limits[..i + 1][..i] == limits[..i];
      var d := ParseDuration(limits[i].window, limits[i].unit);
      if d.Nanos? {
        rules := rules + [ParsedRule(limits[i].requests, d.n, limits[i].mode)];
      }
    }
    assert limits[..|limits|] == limits;
    ParsedCarries(limits);
    rl := new RateLimiter(rules);
  }

  ghost function ValueOf(rl: RateLimiter): Limiter
    requires rl.Valid()
    reads rl, rl.Repr
  {
    Limiter(rl.rules, rl.Contents())
  }

  /** The limiters configured for the names of enabled rules; a later rule of the same name wins. */
  function Named(rules: seq<FlowRule>): map<string, Limiter>
    requires forall i :: 0 <= i < |rules| ==> Supported(rules[i].limits)
  {
    if rules == [] then map[]
    else
      var r := rules[|rules| - 1];
      var m := Named(rules[..|rules| - 1]);
      if r.enabled then m[r.name := Limiter(ParseRules(r.limits), map[])] else m
  }

  lemma {:induction false} NamedNext(rules: seq<FlowRule>, i: nat)
    requires i < |rules| && forall k :: 0 <= k < |rules| ==> Supported(rules[k].limits)
    ensures var m := Named(rules[..i]);
            Named(rules[..i + 1])
            == if rules[i].enabled then m[rules[i].name := Limiter(ParseRules(rules[i].limits), map[])] else m
  {
    assert rules[..i + 1][..i] == rules[..i];
  }

  /** `i` is the last enabled rule of its name. */
  predicate LastOfName(rules: seq<FlowRule>, i: nat)
    requires i < |rules|
  {
    rules[i].enabled && forall j :: i < j < |rules| && rules[j].enabled ==> rules[j].name != rules[i].name
  }

  /** The rule's limiter is new and carries the rule's own limits. */
  ghost predicate Serves(m: map<string, Limiter>, rule: FlowRule) {
    rule.name in m && m[rule.name].table == map[] && Carries(m[rule.name].rules, rule.limits)
  }

  ghost predicate HasEnabled(rules: seq<FlowRule>, name: string) {
    exists i :: 0 <= i < |rules| && rules[i].enabled && rules[i].name == name
  }

  /** There is a limiter for each name of an enabled rule and for no other, and it is that of the last
      enabled rule of that name. */
  ghost predicate ConfiguredBy(m: map<string, Limiter>, rules: seq<FlowRule>) {
    && (forall i :: 0 <= i < |rules| && LastOfName(rules, i) ==> Serves(m, rules[i]))
    && (forall name :: name in m <==> HasEnabled(rules, name))
  }

  lemma {:induction false} ConfiguredNext(
      m: map<string, Limiter>, m': map<string, Limiter>, front: seq<FlowRule>, last: FlowRule)
    requires ConfiguredBy(m, front)
    requires if last.enabled then Serves(m', last) && m' == m[last.name := m'[last.name]] else m' == m
    ensures ConfiguredBy(m', front + [last])
  {
    var rules := front + [last];
    forall i | 0 <= i < |rules| && LastOfName(rules, i) ensures Serves(m', rules[i]) {
      if i < |front| {
        assert rules[i] == front[i] && rules[|front|] == last;
        assert forall j :: i < j < |front| && front[j].enabled ==> rules[j].name != front[i].name;
        assert LastOfName(front, i);
      }
    }
    forall name ensures name in m' <==> HasEnabled(rules, name) {
      if HasEnabled(front, name) {
        var i :| 0 <= i < |front| && front[i].enabled && front[i].name == name;
        assert rules[i] == front[i];
      }
      assert rules[|front|] == last;
    }
  }

  lemma {:induction false} NamedIs(rules: seq<FlowRule>)
    requires forall i :: 0 <= i < |rules| ==> Supported(rules[i].limits)
    ensures ConfiguredBy(Named(rules), rules)
  {
    if rules != [] {
      var front, last := rules[..|rules| - 1], rules[|rules| - 1];
      NamedIs(front);
      ParsedCarries(last.limits);
      ConfiguredNext(Named(front), Named(rules), front, last);
      assert rules == front + [last];
    }
  }

  /** Limiters that differ in one rule's alone. */
  lemma {:induction false} OneDiffers(c: Limiters, c': Limiters, name: string, l: Limiter)
    requires c'.global == c.global && c'.byName.Keys == c.byName.Keys + {name}
    requires name in c'.byName && c'.byName[name] == l
    requires forall n :: n in c.byName && n != name ==> c'.byName[n] == c.byName[n]
    ensures c' == c.(byName := c.byName[name := l])
  {
    assert c'.byName == c.byName[name := l];
  }

  class FlowController {
    const enabled: bool
    const rules: seq<FlowRule>
    var ruleLimiters: map<string, RateLimiter>
    var globalLimiter: RateLimiter?
    ghost var Owner: map<object, RateLimiter>  // whose object each is: limiters share none

    ghost function Repr(): set<object>
      reads this
    {
      {this} + Owner.Keys
    }

    ghost function Team(): set<RateLimiter>
      reads this
    {
      ruleLimiters.Values + if globalLimiter == null then {} else {globalLimiter}
    }

    ghost predicate NoneTwice()
      reads this
    {
      && (forall m, n :: m in ruleLimiters && n in ruleLimiters && m != n ==> ruleLimiters[m] != ruleLimiters[n])
      && (forall n :: n in ruleLimiters ==> ruleLimiters[n] != globalLimiter)
    }

    ghost predicate Owns(rl: RateLimiter)
      reads this, Owner.Keys
    {
      rl in Owner && rl in rl.Repr && rl.Repr <= Owner.Keys && forall o :: o in rl.Repr ==> Owner[o] == rl
    }

    ghost predicate TeamValid()
      reads this, Owner.Keys
    {
      forall rl :: rl in Team() ==> Owns(rl) && rl.Valid()
    }

    ghost predicate Valid()
      reads this, Owner.Keys
    {
      this !in Owner && TeamValid() && NoneTwice()
    }

    ghost function Value(): Limiters
      requires Valid()
      reads this, Owner.Keys
    {
      Limiters(map n | n in ruleLimiters :: ValueOf(ruleLimiters[n]),
               if globalLimiter == null then None else Some(ValueOf(globalLimiter)))
    }

    /** The limiters other than `rl` are valid and share nothing with it. */
    ghost predicate OthersValid(rl: RateLimiter)
      reads this, rl, Owner.Keys
    {
      forall other :: other in Team() && other != rl ==> Owns(other) && other.Valid() && other.Repr !! rl.Repr
    }

    /** Takes all the objects of a limiter for its own. */
    ghost method Claim(rl: RateLimiter)
      requires this !in Owner && this !in rl.Repr && rl.Valid() && OthersValid(rl)
      modifies this`Owner
      ensures this !in Owner && Owns(rl) && rl.Valid() && OthersValid(rl)
      ensures Owner.Keys == old(Owner.Keys) + rl.Repr
      ensures ValueOf(rl) == old(ValueOf(rl))
      ensures forall other :: other in Team() && other != rl ==> ValueOf(other) == old(ValueOf(other))
    {
      Owner := map o: object | o in Owner.Keys + rl.Repr :: if o in rl.Repr then rl else Owner[o];
    }

    /** Takes a new limiter's objects for its own. */
    ghost method Adopt(rl: RateLimiter)
      requires Valid() && rl.Valid() && rl.Repr !! Repr()
      modifies this`Owner
      ensures Valid() && rl !in Team() && OthersValid(rl) && Owns(rl) && rl.Valid()
      ensures Value() == old(Value()) && ValueOf(rl) == old(ValueOf(rl)) && Repr() == old(Repr()) + rl.Repr
    {
      ghost var was := Value();
      assert rl !in Team();
      Claim(rl);
      ghost var after := Value();
      forall n | n in was.byName ensures after.byName[n] == was.byName[n] {
        assert ruleLimiters[n] in Team() && ruleLimiters[n] != rl;
      }
      assert after.byName == was.byName && after.global == was.global;
    }

    method Assign(name: string, rl: RateLimiter)
      requires Valid() && rl !in Team() && OthersValid(rl) && Owns(rl) && rl.Valid()
      modifies this`ruleLimiters
      ensures Valid() && ruleLimiters == old(ruleLimiters)[name := rl]
      ensures Value() == old(Value()).(byName := old(Value()).byName[name := ValueOf(rl)])
    {
      ghost var was, team := Value(), Team();
      ruleLimiters := ruleLimiters[name := rl];
      assert Team() <= team + {rl};
      forall other | other in Team() ensures Owns(other) && other.Valid() {
        assert other == rl || other in team;
      }
      ghost var after := Value();
      forall n | n in was.byName && n != name ensures after.byName[n] == was.byName[n] {
        assert ruleLimiters[n] in team && ruleLimiters[n] != rl;
      }
      assert after.global == was.global && after.byName[name] == ValueOf(rl);
      OneDiffers(was, after, name, ValueOf(rl));
    }

    /** Gives a name a limiter of its own, in place of the one it had. */
    method Install(name: string, rl: RateLimiter)
      requires Valid() && rl.Valid() && rl.Repr !! Repr()
      modifies this`Owner, this`ruleLimiters
      ensures Valid() && Repr() == old(Repr()) + rl.Repr
      ensures Value() == old(Value()).(byName := old(Value()).byName[name := ValueOf(rl)])
    {
      Adopt(rl);
      Assign(name, rl);
    }

    /** One limiter for each enabled rule. */
    method InstallRules()
      requires Valid() && Value().byName == map[] && forall i :: 0 <= i < |rules| ==> Supported(rules[i].limits)
      modifies this`Owner, this`ruleLimiters
      ensures Valid() && fresh(Repr() - old(Repr()))
      ensures Value().byName == Named(rules) && Value().global == old(Value()).global
    {
      for i := 0 to |rules|
        invariant Valid() && fresh(Repr() - old(Repr()))
        invariant Value().byName == Named(rules[..i]) && Value().global == old(Value()).global
      {
        NamedNext(rules, i);
        if rules[i].enabled {
          ghost var was := Value();
          var rl := CreateRateLimiter(rules[i].limits);
          assert Value() == was && ValueOf(rl) == Limiter(ParseRules(rules[i].limits), map[]);
          Install(rules[i].name, rl);
        }
      }
      assert rules[..|rules|] == rules;
    }

    /** `NewFlowController`: a global limiter, and one limiter for each enabled rule's name. */
    constructor (enabled: bool, rules: seq<FlowRule>, globalLimit: RateLimit)
      requires Supported([globalLimit]) && forall i :: 0 <= i < |rules| ==> Supported(rules[i].limits)
      ensures Valid() && fresh(Repr()) && this.enabled == enabled && this.rules == rules
      ensures Value() == if enabled then Limiters(Named(rules), Some(Limiter(ParseRules([globalLimit]), map[])))
                         else Limiters(map[], None)
      ensures enabled ==>
        && ConfiguredBy(Value().byName, rules)
        && Value().global.Some? && Carries(Value().global.value.rules, [globalLimit])
    {
      this.enabled := enabled;
      this.rules := rules;
      ruleLimiters := map[];
      globalLimiter := null;
      Owner := map[];
      new;
      if enabled {
        var rl := CreateRateLimiter([globalLimit]);
        Claim(rl);
        globalLimiter := rl;
        InstallRules();
        NamedIs(rules);
        ParsedCarries([globalLimit]);
      }
    }

    /** Charges one limiter; no other one moves. */
    method ChargeOne(rl: RateLimiter, key: string, now: int) returns (ok: bool)
      requires Valid() && rl in Team()
      modifies Repr()
      ensures Valid() && fresh(Repr() - old(Repr()))
      ensures ruleLimiters == old(ruleLimiters) && globalLimiter == old(globalLimiter)
      ensures (ValueOf(rl), ok) == RuleCharging.Allow(old(ValueOf(rl)), key, now)
      ensures forall other :: other in Team() && other != rl ==> ValueOf(other) == old(ValueOf(other))
    {
      ghost var team := Team();
      ok := rl.Allow(key, now);
      assert Team() == team && this !in rl.Repr;
      forall other | other in team && other != rl
        ensures other.Repr == old(other.Repr) && other.Repr !! rl.Repr && other.Valid()
        ensures ValueOf(other) == old(ValueOf(other))
      {
        assert other.Repr !! old(rl.Repr);
      }
      assert OthersValid(rl);
      Claim(rl);
      assert Team() == team;
    }

    method ChargeRule(name: string, key: string, now: int) returns (ok: bool)
      requires Valid() && name in ruleLimiters
      modifies Repr()
      ensures Valid() && fresh(Repr() - old(Repr()))
      ensures var (l, ok') := RuleCharging.Allow(old(Value()).byName[name], key, now);
              ok == ok' && Value() == old(Value()).(byName := old(Value()).byName[name := l])
    {
      ghost var was := Value();
      ok := ChargeOne(ruleLimiters[name], key, now);
      ghost var after := Value();
      forall n | n in was.byName && n != name ensures after.byName[n] == was.byName[n] {
        assert ruleLimiters[n] in Team() && ruleLimiters[n] != ruleLimiters[name];
      }
      assert after.global == was.global;
      OneDiffers(was, after, name, ValueOf(ruleLimiters[name]));
    }

    method ChargeGlobal(key: string, now: int) returns (ok: bool)
      requires Valid() && globalLimiter != null
      modifies Repr()
      ensures Valid() && fresh(Repr() - old(Repr()))
      ensures var (g, ok') := RuleCharging.Allow(old(Value()).global.value, key, now);
              ok == ok' && Value() == old(Value()).(global := Some(g))
    {
      ghost var was := Value();
      ok := ChargeOne(globalLimiter, key, now);
      forall n | n in ruleLimiters ensures Value().byName[n] == was.byName[n] {
        assert ruleLimiters[n] in Team() && ruleLimiters[n] != globalLimiter;
      }
      assert Value().byName == was.byName;
    }

    /** One turn of the loop over the rules. */
    method Turn(rule: FlowRule, req: HttpRequest, now: int, ghost f: Flight) returns (ok: bool, ghost f': Flight)
      requires Valid() && f.verdict.None? && f.req == req && f.at < |f.order| && f.order[f.at] == rule
      modifies Repr()
      ensures Valid() && fresh(Repr() - old(Repr()))
      ensures (Value(), f') == Proceed(old(Value()), f, now)
      ensures f' == if ok then f.(at := f.at + 1, log := f'.log)
                    else f.(log := f'.log, verdict := Some(DeniedBy(rule)))
    {
      ghost var c := Value();
      assert c.byName.Keys == ruleLimiters.Keys;
      f' := Proceed(c, f, now).1;
      ok := true;
      if rule.enabled && MatchRule(req, rule) && rule.name in ruleLimiters {
        ok := ChargeRule(rule.name, GenerateKey(req, rule), now);
      }
    }

    /** The global charge after the loop. */
    method LastTurn(req: HttpRequest, now: int, ghost f: Flight) returns (v: Verdict, ghost f': Flight)
      requires Valid() && f.verdict.None? && f.req == req && f.at == |f.order|
      modifies Repr()
      ensures Valid() && fresh(Repr() - old(Repr()))
      ensures (Value(), f') == Proceed(old(Value()), f, now)
      ensures f' == f.(log := f'.log, verdict := Some(v))
    {
      f' := Proceed(Value(), f, now).1;
      if globalLimiter == null {
        return Allowed, f';
      }
      var ok := ChargeGlobal(GenerateGlobalKey(req), now);
      return if ok then Allowed else DeniedGlobally, f';
    }

    /** The loop over the rules: its verdict, if one of them denied. */
    method Turns(
        order: seq<FlowRule>, req: HttpRequest, clock: nat -> int) returns (v: Option<Verdict>, ghost f: Flight)
      requires Valid()
      modifies Repr()
      ensures Valid() && fresh(Repr() - old(Repr()))
      ensures f == Begin(0, req, order).(at := f.at, log := f.log, verdict := v) && (v.None? ==> f.at == |order|)
      ensures Check(old(Value()), Begin(0, req, order), clock) == Check(Value(), f, clock)
    {
      ghost var c0, f0 := Value(), Begin(0, req, order);
      f := f0;
      for i := 0 to |order|
        invariant Valid() && fresh(Repr() - old(Repr()))
        invariant f == f0.(at := i, log := f.log) && Check(c0, f0, clock) == Check(Value(), f, clock)
      {
        var ok;
        ok, f := Turn(order[i], req, clock(i), f);
        if !ok {
          return Some(DeniedBy(order[i])), f;
        }
      }
      return None, f;
    }

    /** The verdict, every limiter afterwards and the log of charges are those of `Check` over a
        priority-sorted permutation of the rules; the ghost result is the finished request. */
    method CheckRequest(req: HttpRequest, clock: nat -> int) returns (v: Verdict, ghost f: Flight)
      requires Valid()
      modifies Repr()
      ensures Valid() && fresh(Repr() - old(Repr()))
      ensures !enabled ==> v == Allowed && Value() == old(Value())
      ensures enabled ==>
        && IsOrdering(rules, f.order) && f.verdict == Some(v)
        && (Value(), f) == Check(old(Value()), Begin(0, req, f.order), clock)
    {
      if !enabled {
        return Allowed, Begin(0, req, []);
      }
      var sorted := GetSortedRules(rules);
      var denied;
      denied, f := Turns(sorted, req, clock);
      if denied.Some? {
        return denied.value, f;
      }
      v, f := LastTurn(req, clock(|sorted|), f);
    }
  }
}
