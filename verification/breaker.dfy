/** gateway/breaker/breaker.go, one domain: concurrent callers check the bucket's length and
    push later, while a ticker replaces the bucket's channel. Each step of a caller is one
    access to shared state. Nothing ever receives from a channel. */
module Breaker {

  /** A buffered channel: how many entries it holds of how many it can. */
  datatype Channel = Channel(len: nat, cap: nat)

  /** errorConn, and the capacities given to channels by `add` and by `Reset`. */
  datatype Config = Config(errorConn: nat, initCap: nat, resetCap: nat)

  /** Where a caller is. A bucket object is a number, and so is a channel. */
  datatype Pc =
    | Idle
    | Missed                      // Get found no bucket and is about to add one
    | Looking(b: nat)             // Get holds the bucket object
    | Measuring(ch: nat)          // Get has read the object's channel and is about to answer by its length
    | Found(b: nat)               // Set holds the bucket object
    | Read(b: nat, ch: nat)       // Set has read the object's channel, to take its length
    | Passed(b: nat)              // the length was below errorConn
    | Sending(ch: nat)            // Set has read the channel again and is sending to it

  datatype State = State(
    channels: seq<Channel>,
    buckets: seq<nat>,            // each bucket object's current channel
    domain: int,                  // the object in the service map, or -1
    pcs: seq<Pc>)

  datatype Step =
    | StartGet(t: nat) | AddBucket(t: nat) | GetChannel(t: nat) | Answer(t: nat)
    | StartSet(t: nat) | ReadChannel(t: nat) | CheckLength(t: nat) | Resolve(t: nat) | Send(t: nat)
    | ResetTick

  function Start(n: nat): State {
    State([], [], -1, seq(n, _ => Idle))
  }

  predicate PcWellFormed(s: State, pc: Pc) {
    match pc
    case Idle => true
    case Missed => true
    case Looking(b) => b < |s.buckets|
    case Measuring(ch) => ch < |s.channels|
    case Found(b) => b < |s.buckets|
    case Read(b, ch) => b < |s.buckets| && ch < |s.channels|
    case Passed(b) => b < |s.buckets|
    case Sending(ch) => ch < |s.channels|
  }

  predicate WellFormed(s: State) {
    && (forall b :: 0 <= b < |s.buckets| ==> s.buckets[b] < |s.channels|)
    && -1 <= s.domain < |s.buckets|
    && forall t :: 0 <= t < |s.pcs| ==> PcWellFormed(s, s.pcs[t])
  }

  predicate HasRoom(s: State, t: nat)
    requires t < |s.pcs| && s.pcs[t].Sending?
  {
    s.pcs[t].ch < |s.channels| && s.channels[s.pcs[t].ch].len < s.channels[s.pcs[t].ch].cap
  }

  /** A send proceeds only while the channel has room. */
  predicate Enabled(s: State, a: Step)
    requires WellFormed(s)
  {
    if a.ResetTick? then true
    else
      a.t < |s.pcs| &&
      match a
      case StartGet(t) => s.pcs[t].Idle?
      case AddBucket(t) => s.pcs[t].Missed?
      case GetChannel(t) => s.pcs[t].Looking?
      case Answer(t) => s.pcs[t].Measuring?
      case StartSet(t) => s.pcs[t].Idle?
      case ReadChannel(t) => s.pcs[t].Found?
      case CheckLength(t) => s.pcs[t].Read?
      case Resolve(t) => s.pcs[t].Passed?
      case Send(t) => s.pcs[t].Sending? && HasRoom(s, t)
  }

  function Move(s: State, t: nat, pc: Pc): State
    requires t < |s.pcs|
  {
    s.(pcs := s.pcs[t := pc])
  }

  function Next(c: Config, s: State, a: Step): State
    requires WellFormed(s) && Enabled(s, a)
  {
    match a
    case StartGet(t) => Move(s, t, if s.domain < 0 then Missed else Looking(s.domain))
    case AddBucket(t) =>
      State(s.channels + [Channel(0, c.initCap)], s.buckets + [|s.channels|], |s.buckets|, s.pcs[t := Idle])
    case GetChannel(t) => Move(s, t, Measuring(s.buckets[s.pcs[t].b]))
    case Answer(t) => Move(s, t, Idle)
    case StartSet(t) => if s.domain < 0 then s else Move(s, t, Found(s.domain))
    case ReadChannel(t) => Move(s, t, Read(s.pcs[t].b, s.buckets[s.pcs[t].b]))
    case CheckLength(t) =>
      Move(s, t, if s.channels[s.pcs[t].ch].len < c.errorConn then Passed(s.pcs[t].b) else Idle)
    case Resolve(t) => Move(s, t, Sending(s.buckets[s.pcs[t].b]))
    case Send(t) =>
      var ch := s.pcs[t].ch;
      Move(s.(channels := s.channels[ch := Channel(s.channels[ch].len + 1, s.channels[ch].cap)]), t, Idle)
    case ResetTick =>
      if s.domain < 0 then s
      else s.(channels := s.channels + [Channel(0, c.resetCap)], buckets := s.buckets[s.domain := |s.channels|])
  }

  lemma {:induction false} NextWellFormed(c: Config, s: State, a: Step)
    requires WellFormed(s) && Enabled(s, a)
    ensures WellFormed(Next(c, s, a)) && |Next(c, s, a).pcs| == |s.pcs|
  {
  }

  /** The steps can be taken one after the other, and end in `s'`. */
  ghost predicate Runs(c: Config, s: State, steps: seq<Step>, s': State)
    decreases |steps|
  {
    WellFormed(s) &&
    if steps == [] then s == s'
    else Enabled(s, steps[0]) && Runs(c, Next(c, s, steps[0]), steps[1..], s')
  }

  ghost predicate Reachable(c: Config, n: nat, s: State) {
    exists steps :: Runs(c, Start(n), steps, s)
  }

  // ----- the bound -----

  /** Whether a caller may yet push into channel `ch` without another look at its length: it is
      sending there, it has passed the check and its bucket leads there, or it is about to check
      a channel that its bucket has since left for this one. */
  function Claim(s: State, pc: Pc, ch: nat): nat {
    match pc
    case Sending(k) => if k == ch then 1 else 0
    case Passed(b) => if b < |s.buckets| && s.buckets[b] == ch then 1 else 0
    case Read(b, k) => if b < |s.buckets| && s.buckets[b] == ch && k != ch then 1 else 0
    case _ => 0
  }

  function Claims(s: State, pcs: seq<Pc>, ch: nat): nat {
    if pcs == [] then 0 else Claims(s, pcs[..|pcs| - 1], ch) + Claim(s, pcs[|pcs| - 1], ch)
  }

  lemma {:induction false} ClaimsAtMost(s: State, pcs: seq<Pc>, ch: nat)
    ensures Claims(s, pcs, ch) <= |pcs|
  {
    if pcs != [] { ClaimsAtMost(s, pcs[..|pcs| - 1], ch); }
  }

  lemma {:induction false} ClaimsMove(s: State, pcs: seq<Pc>, ch: nat, t: nat, pc: Pc)
    requires t < |pcs|
    ensures Claims(s, pcs[t := pc], ch) == Claims(s, pcs, ch) - Claim(s, pcs[t], ch) + Claim(s, pc, ch)
  {
    var front := pcs[..|pcs| - 1];
    if t == |pcs| - 1 {
      assert pcs[t := pc][..|pcs| - 1] == front;
    } else {
      ClaimsMove(s, front, ch, t, pc);
      assert pcs[t := pc][..|pcs| - 1] == front[t := pc];
    }
  }

  /** Claims do not grow when no caller's claim does. */
  lemma {:induction false} ClaimsCompare(s: State, s': State, pcs: seq<Pc>, ch: nat)
    requires forall t :: 0 <= t < |pcs| ==> Claim(s', pcs[t], ch) <= Claim(s, pcs[t], ch)
    ensures Claims(s', pcs, ch) <= Claims(s, pcs, ch)
  {
    if pcs != [] {
      var front := pcs[..|pcs| - 1];
      assert forall t :: 0 <= t < |front| ==> front[t] == pcs[t];
      ClaimsCompare(s, s', front, ch);
    }
  }

  /** Every channel's entries and claims together stay within errorConn + N - 1. */
  ghost predicate Bounded(c: Config, s: State) {
    && WellFormed(s)
    && forall ch :: 0 <= ch < |s.channels| ==>
         s.channels[ch].len + Claims(s, s.pcs, ch) <= c.errorConn + |s.pcs| - 1
  }

  lemma {:induction false} SameBucketsSameClaims(s: State, s': State, pcs: seq<Pc>, ch: nat)
    requires s'.buckets == s.buckets
    ensures Claims(s', pcs, ch) == Claims(s, pcs, ch)
  {
    if pcs != [] { SameBucketsSameClaims(s, s', pcs[..|pcs| - 1], ch); }
  }

  lemma {:induction false} CallerBounded(c: Config, s: State, a: Step, ch: nat)
    requires c.errorConn >= 1 && Bounded(c, s) && Enabled(s, a) && ch < |s.channels|
    requires !a.ResetTick? && !a.AddBucket?
    ensures var s' := Next(c, s, a);
            s'.channels[ch].len + Claims(s', s'.pcs, ch) <= c.errorConn + |s.pcs| - 1
  {
    var s' := Next(c, s, a);
    ClaimsAtMost(s', s'.pcs, ch);
    SameBucketsSameClaims(s, s', s'.pcs, ch);
    ClaimsMove(s, s.pcs, ch, a.t, s'.pcs[a.t]);
  }

  lemma {:induction false} BucketBounded(c: Config, s: State, a: Step, ch: nat)
    requires Bounded(c, s) && Enabled(s, a) && ch < |s.channels| && (a.ResetTick? || a.AddBucket?)
    ensures var s' := Next(c, s, a);
            s'.channels[ch].len + Claims(s', s'.pcs, ch) <= c.errorConn + |s.pcs| - 1
  {
    var s' := Next(c, s, a);
    if a.AddBucket? { ClaimsMove(s, s.pcs, ch, a.t, Idle); }
    ClaimsCompare(s, s', s'.pcs, ch);
  }

  lemma {:induction false} StepBounded(c: Config, s: State, a: Step)
    requires c.errorConn >= 1 && Bounded(c, s) && Enabled(s, a)
    ensures Bounded(c, Next(c, s, a)) && |Next(c, s, a).pcs| == |s.pcs|
  {
    var s' := Next(c, s, a);
    NextWellFormed(c, s, a);
    forall ch | 0 <= ch < |s'.channels|
      ensures s'.channels[ch].len + Claims(s', s'.pcs, ch) <= c.errorConn + |s.pcs| - 1
    {
      if ch < |s.channels| {
        if a.ResetTick? || a.AddBucket? {
          BucketBounded(c, s, a, ch);
        } else {
          CallerBounded(c, s, a, ch);
        }
      } else {
        ClaimsAtMost(s', s'.pcs, ch);
      }
    }
  }

  lemma {:induction false} RunBounded(c: Config, s: State, steps: seq<Step>, s': State)
    requires c.errorConn >= 1 && Bounded(c, s) && Runs(c, s, steps, s')
    ensures Bounded(c, s') && |s'.pcs| == |s.pcs|
    decreases |steps|
  {
    if steps != [] {
      StepBounded(c, s, steps[0]);
      RunBounded(c, Next(c, s, steps[0]), steps[1..], s');
    }
  }

  /** With n concurrent callers no channel ever holds more than errorConn + n - 1 entries, in any
      interleaving with Get and Reset. */
  lemma {:induction false} OvershootBound(c: Config, n: nat, s: State)
    requires c.errorConn >= 1 && Reachable(c, n, s)
    ensures forall ch :: 0 <= ch < |s.channels| ==> s.channels[ch].len <= c.errorConn + n - 1
  {
    var steps :| Runs(c, Start(n), steps, s);
    RunBounded(c, Start(n), steps, s);
  }

  /** A channel never holds more than it has room for. */
  ghost predicate WithinCapacity(c: Config, s: State) {
    forall ch :: 0 <= ch < |s.channels| ==>
      s.channels[ch].len <= s.channels[ch].cap && (s.channels[ch].cap == c.initCap || s.channels[ch].cap == c.resetCap)
  }

  lemma {:induction false} StepWithinCapacity(c: Config, s: State, a: Step)
    requires WithinCapacity(c, s) && WellFormed(s) && Enabled(s, a)
    ensures WithinCapacity(c, Next(c, s, a))
  {
  }

  lemma {:induction false} RunWithinCapacity(c: Config, s: State, steps: seq<Step>, s': State)
    requires WithinCapacity(c, s) && Runs(c, s, steps, s')
    ensures WithinCapacity(c, s')
    decreases |steps|
  {
    if steps != [] {
      StepWithinCapacity(c, s, steps[0]);
      RunWithinCapacity(c, Next(c, s, steps[0]), steps[1..], s');
    }
  }

  // ----- blocking -----

  /** Some caller is stuck in a send. */
  ghost predicate Blocked(s: State) {
    exists t :: 0 <= t < |s.pcs| && s.pcs[t].Sending? && !HasRoom(s, t)
  }

  ghost predicate NeverBlocks(c: Config, n: nat) {
    forall s :: Reachable(c, n, s) ==> !Blocked(s)
  }

  lemma {:induction false} ClaimCounts(s: State, pcs: seq<Pc>, t: nat, ch: nat)
    requires t < |pcs| && Claim(s, pcs[t], ch) == 1
    ensures Claims(s, pcs, ch) >= 1
  {
    if t < |pcs| - 1 { ClaimCounts(s, pcs[..|pcs| - 1], t, ch); }
  }

  lemma {:induction false} RoomEnough(c: Config, n: nat, s: State)
    requires c.errorConn >= 1 && c.initCap >= c.errorConn + n - 1 && c.resetCap >= c.errorConn + n - 1
    requires Reachable(c, n, s)
    ensures !Blocked(s)
  {
    var steps :| Runs(c, Start(n), steps, s);
    RunBounded(c, Start(n), steps, s);
    RunWithinCapacity(c, Start(n), steps, s);
    forall t | 0 <= t < |s.pcs| && s.pcs[t].Sending? ensures HasRoom(s, t) {
      ClaimCounts(s, s.pcs, t, s.pcs[t].ch);
    }
  }

  // ----- the runs that attain the bound -----

  lemma {:induction false} RunsJoin(c: Config, s: State, a: seq<Step>, s': State, b: seq<Step>, s'': State)
    requires Runs(c, s, a, s') && Runs(c, s', b, s'')
    ensures Runs(c, s, a + b, s'')
    decreases |a|
  {
    if a == [] {
      assert a + b == b;
    } else {
      RunsJoin(c, Next(c, s, a[0]), a[1..], s', b, s'');
      assert (a + b)[0] == a[0] && (a + b)[1..] == a[1..] + b;
    }
  }

  /** The bucket's channel is the newest one; the callers from `lo` up to `hi` are sending to it
      and the others are idle. */
  ghost predicate Poised(s: State, len: nat, cap: nat, n: nat, lo: nat, hi: nat) {
    && WellFormed(s) && |s.pcs| == n && |s.channels| > 0
    && s.domain >= 0 && s.buckets[s.domain] == |s.channels| - 1
    && s.channels[|s.channels| - 1] == Channel(len, cap)
    && forall t :: 0 <= t < n ==> s.pcs[t] == if lo <= t < hi then Sending(|s.channels| - 1) else Idle
  }

  lemma {:induction false} RunsOne(c: Config, s: State, a: Step, s': State)
    requires WellFormed(s) && Enabled(s, a) && s' == Next(c, s, a)
    ensures Runs(c, s, [a], s')
  {
    NextWellFormed(c, s, a);
    assert [a][1..] == [];
  }

  lemma {:induction false} RunsThen(c: Config, s: State, steps: seq<Step>, s': State, a: Step, s'': State)
    requires Runs(c, s, steps, s') && WellFormed(s') && Enabled(s', a) && s'' == Next(c, s', a)
    ensures Runs(c, s, steps + [a], s'')
  {
    RunsOne(c, s', a, s'');
    RunsJoin(c, s, steps, s', [a], s'');
  }

  lemma {:induction false} PoisedMore(s: State, len: nat, cap: nat, n: nat, lo: nat, hi: nat)
    requires Poised(s, len, cap, n, lo, hi) && lo <= hi < n
    ensures Poised(Move(s, hi, Sending(|s.channels| - 1)), len, cap, n, lo, hi + 1)
  {
  }

  /** One more caller gets as far as sending. */
  lemma {:induction false} OneMoreSends(c: Config, s: State, len: nat, cap: nat, n: nat, lo: nat, hi: nat)
      returns (steps: seq<Step>, s': State)
    requires Poised(s, len, cap, n, lo, hi) && lo <= hi < n && len < c.errorConn
    ensures Poised(s', len, cap, n, lo, hi + 1) && Runs(c, s, steps, s')
  {
    var s1 := Next(c, s, StartSet(hi));
    var s2 := Next(c, s1, ReadChannel(hi));
    var s3 := Next(c, s2, CheckLength(hi));
    s' := Next(c, s3, Resolve(hi));
    assert s' == Move(s, hi, Sending(|s.channels| - 1));
    PoisedMore(s, len, cap, n, lo, hi);
    RunsOne(c, s, StartSet(hi), s1);
    RunsThen(c, s, [StartSet(hi)], s1, ReadChannel(hi), s2);
    RunsThen(c, s, [StartSet(hi)] + [ReadChannel(hi)], s2, CheckLength(hi), s3);
    RunsThen(c, s, [StartSet(hi)] + [ReadChannel(hi)] + [CheckLength(hi)], s3, Resolve(hi), s');
    steps := [StartSet(hi)] + [ReadChannel(hi)] + [CheckLength(hi)] + [Resolve(hi)];
  }

  /** Callers up to the m-th get as far as sending. */
  lemma {:induction false} ManySend(
      c: Config, s: State, len: nat, cap: nat, n: nat, m: nat) returns (steps: seq<Step>, s': State)
    requires Poised(s, len, cap, n, 0, 0) && m <= n && len < c.errorConn
    ensures Poised(s', len, cap, n, 0, m) && Runs(c, s, steps, s')
  {
    if m == 0 {
      steps, s' := [], s;
    } else {
      var a, mid := ManySend(c, s, len, cap, n, m - 1);
      var b, last := OneMoreSends(c, mid, len, cap, n, 0, m - 1);
      RunsJoin(c, s, a, mid, b, last);
      steps, s' := a + b, last;
    }
  }

  /** The first of the senders completes. */
  lemma {:induction false} OneSend(
      c: Config, s: State, len: nat, cap: nat, n: nat, lo: nat, hi: nat) returns (s': State)
    requires Poised(s, len, cap, n, lo, hi) && lo < hi <= n && len < cap
    ensures Poised(s', len + 1, cap, n, lo + 1, hi) && Runs(c, s, [Send(lo)], s')
  {
    s' := Next(c, s, Send(lo));
    RunsOne(c, s, Send(lo), s');
  }

  /** The first j of m senders complete. */
  lemma {:induction false} SomeComplete(
      c: Config, s: State, len: nat, cap: nat, n: nat, m: nat, j: nat) returns (steps: seq<Step>, s': State)
    requires Poised(s, len, cap, n, 0, m) && j <= m <= n && len + j <= cap
    ensures Poised(s', len + j, cap, n, j, m) && Runs(c, s, steps, s')
  {
    if j == 0 {
      steps, s' := [], s;
    } else {
      var a, mid := SomeComplete(c, s, len, cap, n, m, j - 1);
      var last := OneSend(c, mid, len + j - 1, cap, n, j - 1, m);
      RunsJoin(c, s, a, mid, [Send(j - 1)], last);
      steps, s' := a + [Send(j - 1)], last;
    }
  }

  /** One caller alone pushes f entries. */
  lemma {:induction false} FillUp(c: Config, s: State, cap: nat, n: nat, f: nat) returns (steps: seq<Step>, s': State)
    requires Poised(s, 0, cap, n, 0, 0) && n > 0 && f <= cap && f <= c.errorConn
    ensures Poised(s', f, cap, n, 0, 0) && Runs(c, s, steps, s')
  {
    if f == 0 {
      steps, s' := [], s;
    } else {
      var a, mid := FillUp(c, s, cap, n, f - 1);
      var b, sending := OneMoreSends(c, mid, f - 1, cap, n, 0, 0);
      var last := OneSend(c, sending, f - 1, cap, n, 0, 1);
      RunsJoin(c, s, a, mid, b, sending);
      RunsJoin(c, s, a + b, sending, [Send(0)], last);
      steps, s' := a + b + [Send(0)], last;
    }
  }

  /** Fill to f, let m callers pass the check, complete j of their sends. */
  lemma {:induction false} Pile(
      c: Config, s: State, cap: nat, n: nat, f: nat, m: nat, j: nat) returns (steps: seq<Step>, s': State)
    requires Poised(s, 0, cap, n, 0, 0) && n > 0 && f < c.errorConn && j <= m <= n && f + j <= cap
    ensures Poised(s', f + j, cap, n, j, m) && Runs(c, s, steps, s')
  {
    var a, s1 := FillUp(c, s, cap, n, f);
    var b, s2 := ManySend(c, s1, f, cap, n, m);
    var d, s3 := SomeComplete(c, s2, f, cap, n, m, j);
    RunsJoin(c, s, a, s1, b, s2);
    RunsJoin(c, s, a + b, s2, d, s3);
    steps, s' := a + b + d, s3;
  }

  /** A first Get adds the bucket; a tick may then replace its channel. */
  lemma {:induction false} FirstBucket(c: Config, n: nat, reset: bool) returns (steps: seq<Step>, s': State)
    requires n > 0
    ensures Poised(s', 0, if reset then c.resetCap else c.initCap, n, 0, 0) && Runs(c, Start(n), steps, s')
  {
    var s := Start(n);
    var s1 := Next(c, s, StartGet(0));
    s' := Next(c, s1, AddBucket(0));
    RunsOne(c, s, StartGet(0), s1);
    RunsThen(c, s, [StartGet(0)], s1, AddBucket(0), s');
    steps := [StartGet(0)] + [AddBucket(0)];
    if reset {
      var s2 := Next(c, s', ResetTick);
      RunsThen(c, s, steps, s', ResetTick, s2);
      steps, s' := steps + [ResetTick], s2;
    }
  }

  lemma {:induction false} PileFromStart(c: Config, n: nat, reset: bool, f: nat, m: nat, j: nat) returns (s: State)
    requires n > 0 && f < c.errorConn && j <= m <= n && f + j <= if reset then c.resetCap else c.initCap
    ensures Poised(s, f + j, if reset then c.resetCap else c.initCap, n, j, m) && Reachable(c, n, s)
  {
    var a, s1 := FirstBucket(c, n, reset);
    var b, s2 := Pile(c, s1, if reset then c.resetCap else c.initCap, n, f, m, j);
    RunsJoin(c, Start(n), a, s1, b, s2);
    s := s2;
  }

  // ----- exactly how far the limit is overshot -----

  /** The most entries any channel ever holds. */
  function Most(c: Config, n: nat): int {
    var cap := if c.initCap < c.resetCap then c.resetCap else c.initCap;
    if cap < c.errorConn + n - 1 then cap else c.errorConn + n - 1
  }

  ghost predicate NeverOver(c: Config, n: nat, limit: int) {
    forall s, ch :: Reachable(c, n, s) && 0 <= ch < |s.channels| ==> s.channels[ch].len <= limit
  }

  /** The bound is attained: some run leaves that many entries. */
  lemma {:induction false} OvershootAttained(c: Config, n: nat)
    requires c.errorConn >= 1 && n > 0
    ensures exists s :: Reachable(c, n, s) && |s.channels| > 0 && s.channels[|s.channels| - 1].len == Most(c, n)
  {
    var reset := c.initCap < c.resetCap;
    var cap := if reset then c.resetCap else c.initCap;
    var f := if cap < c.errorConn then cap else c.errorConn - 1;
    var j := if cap - f < n then cap - f else n;
    var s := PileFromStart(c, n, reset, f, j, j);
  }

  /** `Most` is the least bound on the entries of any channel, in all interleavings. */
  lemma {:induction false} NeverOverIff(c: Config, n: nat, limit: int)
    requires c.errorConn >= 1 && n > 0
    ensures NeverOver(c, n, limit) <==> limit >= Most(c, n)
  {
    OvershootAttained(c, n);
    var s :| Reachable(c, n, s) && |s.channels| > 0 && s.channels[|s.channels| - 1].len == Most(c, n);
    assert NeverOver(c, n, limit) ==> s.channels[|s.channels| - 1].len <= limit;
    if limit >= Most(c, n) {
      forall s, ch | Reachable(c, n, s) && 0 <= ch < |s.channels| ensures s.channels[ch].len <= limit {
        OvershootBound(c, n, s);
        var steps :| Runs(c, Start(n), steps, s);
        RunWithinCapacity(c, Start(n), steps, s);
      }
    }
  }

  /** The error limit is kept in all interleavings exactly when there is one caller at a time, or
      no channel has room for more than the limit. */
  lemma {:induction false} LimitKeptIff(c: Config, n: nat)
    requires c.errorConn >= 1 && n > 0
    ensures NeverOver(c, n, c.errorConn) <==> n == 1 || (c.initCap <= c.errorConn && c.resetCap <= c.errorConn)
  {
    NeverOverIff(c, n, c.errorConn);
  }

  // ----- exactly when a Set blocks -----

  lemma {:induction false} TooLittleRoom(c: Config, n: nat, reset: bool)
    requires c.errorConn >= 1 && n > 0
    requires (if reset then c.resetCap else c.initCap) < c.errorConn + n - 1
    ensures !NeverBlocks(c, n)
  {
    var cap := if reset then c.resetCap else c.initCap;
    var f := if cap < c.errorConn then cap else c.errorConn - 1;
    var s := PileFromStart(c, n, reset, f, cap - f + 1, cap - f);
    assert s.pcs[cap - f].Sending? && !HasRoom(s, cap - f);
    assert Blocked(s);
  }

  /** No Set ever blocks, whatever the interleaving, exactly when both the initial and the reset
      capacity are at least errorConn + n - 1. */
  lemma {:induction false} NeverBlocksIff(c: Config, n: nat)
    requires c.errorConn >= 1 && n > 0
    ensures NeverBlocks(c, n) <==> c.initCap >= c.errorConn + n - 1 && c.resetCap >= c.errorConn + n - 1
  {
    if c.initCap < c.errorConn + n - 1 {
      TooLittleRoom(c, n, false);
    } else if c.resetCap < c.errorConn + n - 1 {
      TooLittleRoom(c, n, true);
    } else {
      forall s | Reachable(c, n, s) ensures !Blocked(s) {
        RoomEnough(c, n, s);
      }
    }
  }

  // ----- what Get answers -----

  /** Whether Get lets the request through. */
  predicate Answers(c: Config, s: State, t: nat)
    requires WellFormed(s) && t < |s.pcs| && s.pcs[t].Measuring?
  {
    s.channels[s.pcs[t].ch].len < c.errorConn
  }

  /** The domain's current channel has reached the error limit. */
  predicate Broken(c: Config, s: State)
    requires WellFormed(s)
  {
    s.domain >= 0 && s.channels[s.buckets[s.domain]].len >= c.errorConn
  }

  /** The domain's bucket and its channel are `b` and `ch`, full to the limit, and a caller that was
      idle when they became so is in no call or has got no further than looking at them. */
  ghost predicate StillBroken(c: Config, s: State, b: nat, ch: nat, t: nat) {
    && WellFormed(s) && t < |s.pcs| && s.domain == b && s.buckets[b] == ch && s.channels[ch].len >= c.errorConn
    && s.pcs[t] in {Idle, Looking(b), Measuring(ch), Found(b), Read(b, ch)}
  }

  lemma {:induction false} StepStillBroken(c: Config, s: State, a: Step, b: nat, ch: nat, t: nat)
    requires StillBroken(c, s, b, ch, t) && Enabled(s, a) && !a.ResetTick? && !a.AddBucket?
    ensures StillBroken(c, Next(c, s, a), b, ch, t)
  {
    NextWellFormed(c, s, a);
  }

  lemma {:induction false} RunStillBroken(c: Config, s: State, steps: seq<Step>, s': State, b: nat, ch: nat, t: nat)
    requires StillBroken(c, s, b, ch, t) && Runs(c, s, steps, s')
    requires forall i :: 0 <= i < |steps| ==> !steps[i].ResetTick? && !steps[i].AddBucket?
    ensures StillBroken(c, s', b, ch, t)
    decreases |steps|
  {
    if steps != [] {
      StepStillBroken(c, s, steps[0], b, ch, t);
      RunStillBroken(c, Next(c, s, steps[0]), steps[1..], s', b, ch, t);
    }
  }

  /** Once the limit is reached, and until the bucket or its channel is replaced, every Get that starts
      refuses its request and every Set that starts pushes nothing, in all interleavings. */
  lemma {:induction false} BrokenUntilReplaced(c: Config, s: State, steps: seq<Step>, s': State, t: nat)
    requires WellFormed(s) && Broken(c, s) && Runs(c, s, steps, s') && t < |s.pcs| && s.pcs[t].Idle?
    requires forall i :: 0 <= i < |steps| ==> !steps[i].ResetTick? && !steps[i].AddBucket?
    ensures WellFormed(s') && Broken(c, s') && t < |s'.pcs|
    ensures s'.pcs[t].Measuring? ==> !Answers(c, s', t)
    ensures !s'.pcs[t].Missed? && !s'.pcs[t].Passed? && !s'.pcs[t].Sending?
  {
    RunStillBroken(c, s, steps, s', s.domain, s.buckets[s.domain], t);
  }

  /** A tick mends the breaker: the domain's channel is then empty. */
  lemma {:induction false} TickMends(c: Config, s: State)
    requires c.errorConn >= 1 && WellFormed(s) && Enabled(s, ResetTick)
    ensures WellFormed(Next(c, s, ResetTick)) && !Broken(c, Next(c, s, ResetTick))
    ensures s.domain >= 0 ==>
              var s' := Next(c, s, ResetTick);
              s'.domain == s.domain && s'.channels[s'.buckets[s'.domain]] == Channel(0, c.resetCap)
  {
    NextWellFormed(c, s, ResetTick);
  }

  // ----- as configured -----

  function DefaultInt(v: nat, default: nat): nat {
    if v == 0 then default else v
  }

  /** `add` replaces unset values by defaults; `Reset` uses the configured size as it is. */
  function Configured(maxError: nat, bucket: nat): Config {
    Config(DefaultInt(maxError, 5), DefaultInt(bucket, 10), bucket)
  }

  /** Set values are used as they are; unset, the limit is 5 and the first channel's size 10. */
  lemma {:induction false} ConfiguredIs(maxError: nat, bucket: nat)
    ensures Configured(0, 0) == Config(5, 10, 0)
    ensures maxError > 0 && bucket > 0 ==> Configured(maxError, bucket) == Config(maxError, bucket, bucket)
    ensures Configured(maxError, 0) == Config(Configured(maxError, bucket).errorConn, 10, 0)
    ensures Configured(0, bucket) == Config(5, Configured(maxError, bucket).initCap, bucket)
  {
  }

  /** With the bucket size left unset, a tick installs a channel without a buffer, into which no
      Set can ever push: some run blocks, even with a single caller. */
  lemma {:induction false} UnsetBucketBlocks(maxError: nat, n: nat)
    requires n > 0
    ensures !NeverBlocks(Configured(maxError, 0), n)
  {
    NeverBlocksIff(Configured(maxError, 0), n);
  }
}
