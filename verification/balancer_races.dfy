/** gateway/balancer/balance.go, `GetBalancer` with concurrent callers: it looks a list up in the
    cache and, on a miss, stores a new balancer in a separate step. */
module BalancerRaces {
  import opened Balancer

  type Ports = seq<int>

  /** Where a caller is: outside, or past a miss and about to store a balancer. */
  datatype Caller = Outside | Missed(ports: Ports)

  /** Balancers are numbered as they are made; `served` says which each finished call returned. */
  datatype State = State(
    cache: map<string, nat>,
    made: seq<Ports>,
    callers: seq<Caller>,
    served: seq<(Ports, nat)>)

  datatype Step = Look(t: nat, ports: Ports) | Store(t: nat)

  function Start(n: nat): State {
    State(map[], [], seq(n, _ => Outside), [])
  }

  /** An empty list is answered without a look at the cache. */
  predicate Enabled(s: State, a: Step) {
    a.t < |s.callers| && if a.Look? then s.callers[a.t].Outside? && a.ports != [] else s.callers[a.t].Missed?
  }

  function Next(s: State, a: Step): State
    requires Enabled(s, a)
  {
    match a
    case Look(t, ports) =>
      if Key(ports) in s.cache then s.(served := s.served + [(ports, s.cache[Key(ports)])])
      else s.(callers := s.callers[t := Missed(ports)])
    case Store(t) =>
      var ports := s.callers[t].ports;
      State(s.cache[Key(ports) := |s.made|], s.made + [ports], s.callers[t := Outside], s.served + [(ports, |s.made|)])
  }

  /** The steps can be taken one after the other, and end in `s'`. */
  ghost predicate Runs(s: State, steps: seq<Step>, s': State)
    decreases |steps|
  {
    if steps == [] then s == s' else Enabled(s, steps[0]) && Runs(Next(s, steps[0]), steps[1..], s')
  }

  ghost predicate Reachable(n: nat, s: State) {
    exists steps :: Runs(Start(n), steps, s)
  }

  // ----- every balancer serves its own list -----

  ghost predicate Sound(s: State) {
    && (forall k :: 0 <= k < |s.served| ==> s.served[k].1 < |s.made| && s.made[s.served[k].1] == s.served[k].0)
    && (forall key :: key in s.cache ==> s.cache[key] < |s.made| && Key(s.made[s.cache[key]]) == key)
    && (forall b :: 0 <= b < |s.made| ==> Key(s.made[b]) in s.cache)
  }

  lemma {:induction false} StepSound(s: State, a: Step)
    requires Sound(s) && Enabled(s, a)
    ensures Sound(Next(s, a))
  {
    if a.Look? && Key(a.ports) in s.cache {
      KeyInjective(s.made[s.cache[Key(a.ports)]], a.ports);
    }
  }

  lemma {:induction false} RunSound(s: State, steps: seq<Step>, s': State)
    requires Sound(s) && Runs(s, steps, s')
    ensures Sound(s')
    decreases |steps|
  {
    if steps != [] {
      StepSound(s, steps[0]);
      RunSound(Next(s, steps[0]), steps[1..], s');
    }
  }

  /** In every interleaving each call returns a balancer made for exactly its own ports. */
  lemma {:induction false} ServesOwnPorts(n: nat, s: State, k: nat)
    requires Reachable(n, s) && k < |s.served|
    ensures s.served[k].1 < |s.made| && s.made[s.served[k].1] == s.served[k].0
  {
    var steps :| Runs(Start(n), steps, s);
    RunSound(Start(n), steps, s);
  }

  // ----- how many balancers one list can get -----

  function Made(made: seq<Ports>, p: Ports): nat {
    if made == [] then 0 else Made(made[..|made| - 1], p) + if made[|made| - 1] == p then 1 else 0
  }

  function Pending(callers: seq<Caller>, p: Ports): nat {
    if callers == [] then 0
    else Pending(callers[..|callers| - 1], p) + if callers[|callers| - 1] == Missed(p) then 1 else 0
  }

  lemma {:induction false} PendingAtMost(callers: seq<Caller>, p: Ports)
    ensures Pending(callers, p) <= |callers|
  {
    if callers != [] { PendingAtMost(callers[..|callers| - 1], p); }
  }

  lemma {:induction false} PendingMoves(callers: seq<Caller>, t: nat, c: Caller, p: Ports)
    requires t < |callers|
    ensures Pending(callers[t := c], p)
            == Pending(callers, p) + (if c == Missed(p) then 1 else 0) - if callers[t] == Missed(p) then 1 else 0
  {
    var front := callers[..|callers| - 1];
    if t == |callers| - 1 {
      assert callers[t := c][..|callers| - 1] == front;
    } else {
      PendingMoves(front, t, c, p);
      assert callers[t := c][..|callers| - 1] == front[t := c];
    }
  }

  /** Balancers made or about to be made for the list; none is made before it is cached. */
  ghost predicate Few(s: State, p: Ports) {
    Made(s.made, p) + Pending(s.callers, p) <= |s.callers| && (Key(p) !in s.cache ==> Made(s.made, p) == 0)
  }

  lemma {:induction false} LookFew(s: State, t: nat, ports: Ports, p: Ports)
    requires Few(s, p) && Enabled(s, Look(t, ports))
    ensures Few(Next(s, Look(t, ports)), p)
  {
    PendingAtMost(Next(s, Look(t, ports)).callers, p);
    PendingMoves(s.callers, t, Missed(ports), p);
  }

  lemma {:induction false} StoreFew(s: State, t: nat, p: Ports)
    requires Few(s, p) && Enabled(s, Store(t))
    ensures Few(Next(s, Store(t)), p)
  {
    PendingMoves(s.callers, t, Outside, p);
    assert Next(s, Store(t)).made[..|s.made|] == s.made;
  }

  lemma {:induction false} RunFew(s: State, steps: seq<Step>, s': State, p: Ports)
    requires Few(s, p) && Runs(s, steps, s')
    ensures Few(s', p) && |s'.callers| == |s.callers|
    decreases |steps|
  {
    if steps != [] {
      match steps[0] {
        case Look(t, ports) => LookFew(s, t, ports, p);
        case Store(t) => StoreFew(s, t, p);
      }
      RunFew(Next(s, steps[0]), steps[1..], s', p);
    }
  }

  /** With n callers at a time, no list ever gets more than n balancers. */
  lemma {:induction false} AtMostOneEach(n: nat, s: State, p: Ports)
    requires Reachable(n, s)
    ensures Made(s.made, p) <= n
  {
    var steps :| Runs(Start(n), steps, s);
    PendingAtMost(Start(n).callers, p);
    RunFew(Start(n), steps, s, p);
  }

  // ----- the run in which every caller makes one -----

  lemma {:induction false} RunsThen(s: State, steps: seq<Step>, s': State, a: Step)
    requires Runs(s, steps, s') && Enabled(s', a)
    ensures Runs(s, steps + [a], Next(s', a))
    decreases |steps|
  {
    if steps == [] {
      assert steps + [a] == [a] && [a][1..] == [];
    } else {
      RunsThen(Next(s, steps[0]), steps[1..], s', a);
      assert (steps + [a])[0] == steps[0] && (steps + [a])[1..] == steps[1..] + [a];
    }
  }

  lemma {:induction false} ReachableThen(n: nat, s: State, a: Step)
    requires Reachable(n, s) && Enabled(s, a)
    ensures Reachable(n, Next(s, a))
  {
    var steps :| Runs(Start(n), steps, s);
    RunsThen(Start(n), steps, s, a);
  }

  lemma {:induction false} AllMiss(n: nat, p: Ports, k: nat) returns (s: State)
    requires p != [] && k <= n
    ensures Reachable(n, s) && s.cache == map[] && s.made == [] && |s.callers| == n
    ensures forall t :: 0 <= t < n ==> s.callers[t] == if t < k then Missed(p) else Outside
  {
    if k == 0 {
      s := Start(n);
      assert Runs(s, [], s);
    } else {
      var s0 := AllMiss(n, p, k - 1);
      ReachableThen(n, s0, Look(k - 1, p));
      s := Next(s0, Look(k - 1, p));
    }
  }

  lemma {:induction false} AllStore(n: nat, p: Ports, k: nat) returns (s: State)
    requires p != [] && k <= n
    ensures Reachable(n, s) && Made(s.made, p) == k && |s.callers| == n
    ensures forall t :: k <= t < n ==> s.callers[t] == Missed(p)
  {
    if k == 0 {
      s := AllMiss(n, p, n);
    } else {
      var s0 := AllStore(n, p, k - 1);
      ReachableThen(n, s0, Store(k - 1));
      s := Next(s0, Store(k - 1));
      assert s.made[..|s0.made|] == s0.made;
    }
  }

  /** No list ever gets two balancers. */
  ghost predicate AlwaysOne(n: nat) {
    forall s, p :: Reachable(n, s) ==> Made(s.made, p) <= 1
  }

  /** Callers of one list share a balancer in all interleavings exactly when there is one at a time. */
  lemma {:induction false} SharedIff(n: nat)
    ensures AlwaysOne(n) <==> n <= 1
  {
    if n <= 1 {
      forall s, p | Reachable(n, s) ensures Made(s.made, p) <= 1 {
        AtMostOneEach(n, s, p);
      }
    } else {
      var s := AllStore(n, [0], n);
    }
  }

  // ----- once the race is over -----

  /** The list is cached and nobody is about to replace its balancer. */
  ghost predicate Settled(s: State, p: Ports) {
    Key(p) in s.cache && forall t :: 0 <= t < |s.callers| ==> s.callers[t] != Missed(p)
  }

  lemma {:induction false} StepSettled(s: State, a: Step, p: Ports)
    requires Settled(s, p) && Enabled(s, a)
    ensures var s' := Next(s, a);
            && Settled(s', p) && s'.cache[Key(p)] == s.cache[Key(p)]
            && |s.served| <= |s'.served| <= |s.served| + 1 && s.served == s'.served[..|s.served|]
            && (|s'.served| > |s.served| && s'.served[|s.served|].0 == p ==> s'.served[|s.served|].1 == s.cache[Key(p)])
  {
    if a.Store? && Key(s.callers[a.t].ports) == Key(p) {
      KeyInjective(s.callers[a.t].ports, p);
      assert false;
    }
  }

  lemma {:induction false} ServedStays(s: State, steps: seq<Step>, s': State, k: nat)
    requires Runs(s, steps, s') && k < |s.served|
    ensures k < |s'.served| && s'.served[k] == s.served[k]
    decreases |steps|
  {
    if steps != [] { ServedStays(Next(s, steps[0]), steps[1..], s', k); }
  }

  /** From then on every call for the list returns that one balancer, in any continuation. */
  lemma {:induction false} SettledForGood(s: State, steps: seq<Step>, s': State, p: Ports, k: nat)
    requires Settled(s, p) && Runs(s, steps, s') && |s.served| <= k < |s'.served| && s'.served[k].0 == p
    ensures s'.served[k].1 == s.cache[Key(p)]
    decreases |steps|
  {
    if steps != [] {
      var mid := Next(s, steps[0]);
      StepSettled(s, steps[0], p);
      if k < |mid.served| {
        ServedStays(mid, steps[1..], s', k);
      } else {
        SettledForGood(mid, steps[1..], s', p, k);
      }
    }
  }
}
