/** gateway/balancer/balance.go: a cache of round-robin balancers under a printed port list. */
module Balancer {
  import opened Arithmetic
  import opened Decimal
  import opened Texts

  // ----- the cache key -----

  /** Each port in decimal, each followed by a bar. */
  function Key(ports: seq<int>): string {
    if ports == [] then "" else Itoa(ports[0]) + "|" + Key(ports[1..])
  }

  lemma {:induction false} Regroup(x: string, y: string, z: string, w: string)
    ensures x + (y + z + w) == x + y + z + w
  {
  }

  lemma {:induction false} KeyAppend(ports: seq<int>, port: int)
    ensures Key(ports + [port]) == Key(ports) + Itoa(port) + "|"
  {
    if ports == [] {
      assert ports + [port] == [port] && [port][1..] == [];
      assert Key([port]) == Itoa(port) + "|" + Key([]);
    } else {
      assert (ports + [port])[1..] == ports[1..] + [port];
      KeyAppend(ports[1..], port);
      Regroup(Itoa(ports[0]) + "|", Key(ports[1..]), Itoa(port), "|");
    }
  }

  lemma {:induction false} NoBarInItoa(n: int)
    ensures '|' !in Itoa(n)
  {
    var digits := Digits(if n < 0 then -n else n);
    forall i | 0 <= i < |digits| ensures digits[i] != '|' {
      assert IsDigit(digits[i]);
    }
  }

  /** No two port lists share a key. */
  lemma {:induction false} KeyInjective(p: seq<int>, q: seq<int>)
    requires Key(p) == Key(q)
    ensures p == q
  {
    assert (p != [] ==> |Key(p)| > 0) && (q != [] ==> |Key(q)| > 0);
    if p != [] {
      NoBarInItoa(p[0]);
      NoBarInItoa(q[0]);
      SplitAt('|', Itoa(p[0]), Key(p[1..]), Itoa(q[0]), Key(q[1..]));
      ItoaInjective(p[0], q[0]);
      KeyInjective(p[1..], q[1..]);
      assert p == [p[0]] + p[1..] && q == [q[0]] + q[1..];
    }
  }

  // ----- the objects -----

  const UINT64 := 0x1_0000_0000_0000_0000

  /** The counter after a pick; a single port is served without counting. */
  function Advance(counter: int, n: int): int {
    if n == 1 then counter else (counter + 1) % UINT64
  }

  /** The index picked. */
  function Choice(counter: int, n: int): (index: int)
    requires n > 0
    ensures 0 <= index < n
  {
    if n == 1 then 0 else Advance(counter, n) % n
  }

  class LoadBalancer {
    var counter: int
    const ports: seq<int>
    const length: int

    ghost predicate Valid()
      reads this
    {
      0 <= counter < UINT64 && length == |ports| > 0
    }

    constructor (ports: seq<int>)
      requires ports != []
      ensures Valid() && this.ports == ports && counter == 0
    {
      this.ports := ports;
      length := |ports|;
      counter := 0;
    }

    method PickOne() returns (port: int)
      requires Valid()
      modifies this
      ensures Valid() && counter == Advance(old(counter), length)
      ensures port == ports[Choice(old(counter), length)]
      ensures if length == 1 then counter == old(counter) && port == ports[0]
              else counter == (old(counter) + 1) % UINT64 && port == ports[counter % length]
    {
      if length == 1 {
        return ports[0];
      }
      counter := (counter + 1) % UINT64;
      var index := counter % length;
      return ports[index];
    }
  }

  method PrintKey(ports: seq<int>) returns (key: string)
    ensures key == Key(ports)
  {
    key := "";
    for i := 0 to |ports|
      invariant key == Key(ports[..i])
    {
      assert ports[..i + 1] == ports[..i] + [ports[i]];
      KeyAppend(ports[..i], ports[i]);
      key := key + Itoa(ports[i]) + "|";
    }
    assert ports[..|ports|] == ports;
  }

  class BalancerCache {
    var cache: map<string, LoadBalancer>
    ghost var ByPorts: map<seq<int>, LoadBalancer>  // the balancer of each port list

    /** The cache holds each list's balancer under its key, and nothing else. */
    ghost predicate Indexed()
      reads this
    {
      && (forall p :: p in ByPorts ==> ByPorts[p].ports == p && Key(p) in cache && cache[Key(p)] == ByPorts[p])
      && (forall key :: key in cache ==>
            var b := cache[key]; Key(b.ports) == key && b.ports in ByPorts && ByPorts[b.ports] == b)
    }

    ghost predicate Valid()
      reads this, ByPorts.Values
    {
      Indexed() && forall p :: p in ByPorts ==> ByPorts[p].Valid()
    }

    constructor ()
      ensures Valid() && ByPorts == map[]
    {
      cache := map[];
      ByPorts := map[];
    }

    method Create(ports: seq<int>, key: string) returns (balancer: LoadBalancer)
      requires Valid() && ports != [] && key == Key(ports) && key !in cache
      modifies this
      ensures Valid() && fresh(balancer) && balancer.counter == 0 && balancer.ports == ports
      ensures ByPorts == old(ByPorts)[ports := balancer]
    {
      balancer := new LoadBalancer(ports);
      forall p | p in ByPorts ensures p != ports {
        assert Key(p) in cache;
      }
      cache := cache[key := balancer];
      ByPorts := ByPorts[ports := balancer];
      forall p | p in ByPorts && p != ports ensures Key(p) != key {
        assert p in old(ByPorts);
      }
      assert ports in ByPorts;
    }

    /** A balancer over exactly these ports: the one served before, or a new one at zero. */
    method GetBalancer(ports: seq<int>) returns (balancer: LoadBalancer?)
      requires Valid()
      modifies this
      ensures Valid() && (balancer == null <==> ports == [])
      ensures ports == [] ==> ByPorts == old(ByPorts)
      ensures ports != [] ==> balancer.ports == ports && ByPorts == old(ByPorts)[ports := balancer]
      ensures ports in old(ByPorts) ==> balancer == old(ByPorts)[ports]
      ensures ports != [] && ports !in old(ByPorts) ==> fresh(balancer) && balancer.counter == 0
    {
      if |ports| == 0 {
        return null;
      }
      var key := PrintKey(ports);
      if key in cache {
        KeyInjective(cache[key].ports, ports);
        return cache[key];
      }
      balancer := Create(ports, key);
    }

    /** Round robin over the list's own balancer; no other list's counter moves. */
    method PickOneRoundRobin(ports: seq<int>) returns (port: int)
      requires Valid()
      modifies this, ByPorts.Values
      ensures Valid() && forall p :: p in old(ByPorts) ==> p in ByPorts && ByPorts[p] == old(ByPorts)[p]
      ensures forall p :: p in old(ByPorts) && p != ports ==> ByPorts[p].counter == old(ByPorts[p].counter)
      ensures ports == [] ==> port == 0
      ensures ports != [] ==>
        var c := if ports in old(ByPorts) then old(ByPorts[ports].counter) else 0;
        ports in ByPorts && port == ports[Choice(c, |ports|)] && ByPorts[ports].counter == Advance(c, |ports|)
    {
      var balancer := GetBalancer(ports);
      if balancer == null {
        return 0;
      }
      assert ports in ByPorts && ByPorts[ports] == balancer;
      port := balancer.PickOne();
    }
  }

  // ----- fairness -----

  /** The counter after m picks, and the indices those picks chose. */
  function CounterAfter(c: int, m: nat, n: int): int {
    if m == 0 then c else Advance(CounterAfter(c, m - 1, n), n)
  }

  function Picks(c: int, m: nat, n: int): seq<int>
    requires n > 0
  {
    if m == 0 then [] else Picks(c, m - 1, n) + [Choice(CounterAfter(c, m - 1, n), n)]
  }

  /** The number of k in 1..m with (c + k) % n == j. */
  function Hits(c: int, m: nat, n: nat, j: nat): nat
    requires n > 0
  {
    if m == 0 then 0 else Hits(c, m - 1, n, j) + if (c + m) % n == j then 1 else 0
  }

  lemma {:induction false} ShiftedResidue(x: int, j: int, n: int)
    requires 0 <= j < n
    ensures (x + n - j) % n == 0 <==> x % n == j
  {
    var q, r := x / n, x % n;
    assert x == q * n + r;
    if r >= j {
      assert x + n - j == (q + 1) * n + (r - j);
      DivisionIsUnique(x + n - j, q + 1, r - j, n);
    } else {
      DivisionIsUnique(x + n - j, q, n + r - j, n);
    }
  }

  /** The hits are a difference of two quotients. */
  lemma {:induction false} HitsAreQuotients(c: int, m: nat, n: nat, j: nat)
    requires j < n
    ensures Hits(c, m, n, j) == (c + m + n - j) / n - (c + n - j) / n
  {
    if m > 0 {
      HitsAreQuotients(c, m - 1, n, j);
      NextQuotient(c + m - 1 + n - j, n);
      ShiftedResidue(c + m, j, n);
    }
  }

  lemma {:induction false} QuotientGrowth(a: int, m: nat, n: nat)
    requires n > 0
    ensures var grown := (a + m) / n - a / n;
            grown == m / n || (m % n != 0 && grown == m / n + 1)
  {
    var q, r, q', r' := a / n, a % n, m / n, m % n;
    assert a == q * n + r && m == q' * n + r';
    if r + r' < n {
      assert a + m == (q + q') * n + (r + r');
      DivisionIsUnique(a + m, q + q', r + r', n);
    } else {
      assert a + m == (q + q' + 1) * n + (r + r' - n);
      DivisionIsUnique(a + m, q + q' + 1, r + r' - n, n);
    }
  }

  /** Any m consecutive numbers meet each residue floor(m / n) or ceil(m / n) times. */
  lemma {:induction false} HitsAreEven(c: int, m: nat, n: nat, j: nat)
    requires j < n
    ensures Hits(c, m, n, j) == m / n || (m % n != 0 && Hits(c, m, n, j) == m / n + 1)
  {
    HitsAreQuotients(c, m, n, j);
    QuotientGrowth(c + n - j, m, n);
    assert (c + n - j) + m == c + m + n - j;
  }

  /** Before the wrap the counter just counts; from its last value on it is as if at -1. */
  lemma {:induction false} CounterCounts(c: int, m: nat, n: nat)
    requires n > 1 && -1 <= c && c + m < UINT64
    ensures CounterAfter(c, m, n) == c + m
  {
    if m > 0 { CounterCounts(c, m - 1, n); }
  }

  lemma {:induction false} NextPick(c: int, m: nat, n: nat, j: nat, x: int)
    requires n > 0 && m > 0 && x == Choice(CounterAfter(c, m - 1, n), n)
    ensures multiset(Picks(c, m, n))[j] == multiset(Picks(c, m - 1, n))[j] + if x == j then 1 else 0
  {
    assert Picks(c, m, n) == Picks(c, m - 1, n) + [x];
  }

  lemma {:induction false} NextHit(c: int, m: nat, n: nat, j: nat, x: int)
    requires n > 0 && m > 0 && x == (c + m) % n
    ensures Hits(c, m, n, j) == Hits(c, m - 1, n, j) + if x == j then 1 else 0
  {
  }

  lemma {:induction false} ChoiceAt(c: int, n: nat)
    requires n > 1 && -1 <= c && c + 1 < UINT64
    ensures Choice(c, n) == (c + 1) % n
  {
    assert (c + 1) % UINT64 == c + 1;
  }

  lemma {:induction false} ChoiceCounts(c: int, m: nat, n: nat) returns (x: int)
    requires n > 1 && m > 0 && -1 <= c && c + m < UINT64
    ensures x == Choice(CounterAfter(c, m - 1, n), n) == (c + m) % n
  {
    CounterCounts(c, m - 1, n);
    var last := c + m - 1;
    ChoiceAt(last, n);
    x := Choice(last, n);
  }

  lemma {:induction false} PicksBeforeWrap(c: int, m: nat, n: nat, j: nat)
    requires n > 1 && -1 <= c && c + m < UINT64
    ensures multiset(Picks(c, m, n))[j] == Hits(c, m, n, j)
  {
    if m > 0 {
      PicksBeforeWrap(c, m - 1, n, j);
      var x := ChoiceCounts(c, m, n);
      NextPick(c, m, n, j, x);
      NextHit(c, m, n, j, x);
    }
  }

  lemma {:induction false} PicksSplit(c: int, p: nat, q: nat, n: nat)
    requires n > 0
    ensures CounterAfter(c, p + q, n) == CounterAfter(CounterAfter(c, p, n), q, n)
    ensures Picks(c, p + q, n) == Picks(c, p, n) + Picks(CounterAfter(c, p, n), q, n)
  {
    if q > 0 { PicksSplit(c, p, q - 1, n); }
  }

  lemma {:induction false} WrapIsMinusOne(q: nat, n: nat)
    requires n > 1
    ensures Picks(UINT64 - 1, q, n) == Picks(-1, q, n)
    ensures q > 0 ==> CounterAfter(UINT64 - 1, q, n) == CounterAfter(-1, q, n)
  {
    if q > 0 { WrapIsMinusOne(q - 1, n); }
  }

  /** The wrap comes after `a` picks; then follow q more. */
  lemma {:induction false} PicksAfterWrap(c: nat, a: nat, q: nat, n: nat, j: nat)
    requires n > 1 && c + a + 1 == UINT64 && q <= UINT64
    ensures multiset(Picks(c, a + q, n))[j] == Hits(c, a, n, j) + Hits(-1, q, n, j)
  {
    PicksSplit(c, a, q, n);
    CounterCounts(c, a, n);
    WrapIsMinusOne(q, n);
    PicksBeforeWrap(c, a, n, j);
    PicksBeforeWrap(-1, q, n, j);
  }

  lemma {:induction false} SinglePortPicks(c: int, m: nat)
    ensures multiset(Picks(c, m, 1))[0] == m
  {
    if m > 0 { SinglePortPicks(c, m - 1); }
  }

  lemma {:induction false} PicksLength(c: int, m: nat, n: nat)
    requires n > 0
    ensures |Picks(c, m, n)| == m
  {
    if m > 0 { PicksLength(c, m - 1, n); }
  }

  /** The picks go round: the k-th is one further than the one before it. */
  lemma {:induction false} PicksGoRound(c: nat, m: nat, n: nat, k: nat)
    requires n > 0 && k < m && c + m < UINT64
    ensures |Picks(c, m, n)| == m && Picks(c, m, n)[k] == (c + 1 + k) % n
  {
    if k < m - 1 {
      PicksGoRound(c, m - 1, n, k);
    } else {
      PicksLength(c, m - 1, n);
      if n > 1 {
        CounterCounts(c, k, n);
        ChoiceAt(c + k, n);
      } else {
        DivisionIsUnique(c + 1 + k, c + 1 + k, 0, 1);
      }
    }
  }

  /** Fairness: in m consecutive picks that do not cross the counter's wrap, each of the n
      indices is chosen floor(m / n) or ceil(m / n) times. */
  lemma {:induction false} RoundRobinIsFair(c: nat, m: nat, n: nat, j: nat)
    requires j < n && c + m < UINT64
    ensures var k := multiset(Picks(c, m, n))[j];
            k == m / n || (m % n != 0 && k == m / n + 1)
  {
    if n == 1 {
      SinglePortPicks(c, m);
    } else {
      PicksBeforeWrap(c, m, n, j);
      HitsAreEven(c, m, n, j);
    }
  }

  /** Across one wrap, how often any two indices are chosen differs by at most 2. */
  lemma {:induction false} FairAcrossTheWrap(c: nat, m: nat, n: nat, i: nat, j: nat)
    requires i < n && j < n && c < UINT64 <= c + m < 2 * UINT64
    ensures multiset(Picks(c, m, n))[i] <= multiset(Picks(c, m, n))[j] + 2
  {
    if n > 1 {
      var a, q := UINT64 - 1 - c, c + m + 1 - UINT64;
      PicksAfterWrap(c, a, q, n, i);
      PicksAfterWrap(c, a, q, n, j);
      HitsAreEven(c, a, n, i);
      HitsAreEven(c, a, n, j);
      HitsAreEven(-1, q, n, i);
      HitsAreEven(-1, q, n, j);
    }
  }
}
