/** gateway/modifier/gzip_optimized.go, `updateStats`: a running average in whole nanoseconds,
    truncated at every step. */
module RunningAverage {

  /** The average after one more duration, the n-th. */
  function Next(avg: int, n: int, d: int): int
    requires n > 0
  {
    if n == 1 then d else (avg * (n - 1) + d) / n
  }

  /** The average after all the durations, oldest first. */
  function Average(ds: seq<nat>): int {
    if ds == [] then 0 else Next(Average(ds[..|ds| - 1]), |ds|, ds[|ds| - 1])
  }

  /** One truncation loses less than the divisor. */
  lemma {:induction false} NextLoses(avg: int, n: int, d: int)
    requires n > 0
    ensures 0 <= avg * (n - 1) + d - n * Next(avg, n, d) <= n - 1
  {
    if n > 1 {
      var x := avg * (n - 1) + d;
      assert x == (x / n) * n + x % n;
    }
  }

  class Stats {
    var totalRequests: int
    var avgCompressionTime: int
    ghost var durations: seq<nat>

    ghost predicate Valid()
      reads this
    {
      totalRequests == |durations| && avgCompressionTime == Average(durations)
    }

    constructor ()
      ensures Valid() && durations == []
    {
      totalRequests := 0;
      avgCompressionTime := 0;
      durations := [];
    }

    method UpdateStats(duration: nat)
      requires Valid()
      modifies this
      ensures Valid() && durations == old(durations) + [duration]
      ensures var n, sum := totalRequests, old(avgCompressionTime) * old(totalRequests) + duration;
              n == old(totalRequests) + 1 && 0 <= sum - n * avgCompressionTime < n
    {
      totalRequests := totalRequests + 1;
      if totalRequests == 1 {
        avgCompressionTime := duration;
      } else {
        avgCompressionTime := (avgCompressionTime * (totalRequests - 1) + duration) / totalRequests;
      }
      durations := durations + [duration];
      assert durations[..|durations| - 1] == old(durations);
      NextLoses(old(avgCompressionTime), totalRequests, duration);
    }
  }

  function Total(ds: seq<nat>): nat {
    if ds == [] then 0 else Total(ds[..|ds| - 1]) + ds[|ds| - 1]
  }

  /** 0 + 1 + ... + (n - 1). */
  function Triangle(n: nat): nat {
    if n == 0 then 0 else Triangle(n - 1) + (n - 1)
  }

  lemma {:induction false} TriangleClosed(n: nat)
    ensures 2 * Triangle(n) == n * (n - 1)
  {
    if n > 0 {
      TriangleClosed(n - 1);
      assert n * (n - 1) == (n - 1) * (n - 2) + 2 * (n - 1);
    }
  }

  lemma {:induction false} DriftTriangle(ds: seq<nat>)
    ensures 0 <= Total(ds) - |ds| * Average(ds) <= Triangle(|ds|)
  {
    if ds != [] {
      var front, n, d := ds[..|ds| - 1], |ds|, ds[|ds| - 1];
      DriftTriangle(front);
      NextLoses(Average(front), n, d);
      assert (n - 1) * Average(front) == Average(front) * (n - 1);
    }
  }

  /** After n durations with sum S: 0 <= S - n * avg <= n * (n - 1) / 2. */
  lemma {:induction false} Drift(ds: seq<nat>)
    ensures var n := |ds|; var lost := Total(ds) - n * Average(ds);
            0 <= lost && 2 * lost <= n * (n - 1)
  {
    DriftTriangle(ds);
    TriangleClosed(|ds|);
  }

  lemma {:induction false} Scales(a: int, b: int, k: nat)
    requires a <= b
    ensures a * k <= b * k && a * (k + 1) == a * k + a && b * (k + 1) == b * k + b
  {
  }

  lemma {:induction false} SlopeSign(a: int, b: int, n: nat)
    ensures a < b ==> a * n + n <= b * n
  {
    if a < b {
      assert b * n - a * n == (b - a) * n;
      Scales(1, b - a, n);
    }
  }

  lemma {:induction false} QuotientWithin(x: int, n: int, lo: int, hi: int)
    requires n > 0 && lo * n <= x <= hi * n
    ensures lo <= x / n <= hi
  {
    var q := x / n;
    assert x == q * n + x % n;
    SlopeSign(q, lo, n);
    SlopeSign(hi, q, n);
  }

  lemma {:induction false} NextWithin(avg: int, n: int, d: int, lo: int, hi: int)
    requires n > 1 && lo <= avg <= hi && lo <= d <= hi
    ensures lo <= Next(avg, n, d) <= hi
  {
    Scales(lo, avg, n - 1);
    Scales(avg, hi, n - 1);
    QuotientWithin(avg * (n - 1) + d, n, lo, hi);
  }

  /** The average stays between any bounds on the durations. */
  lemma {:induction false} AverageWithin(ds: seq<nat>, lo: nat, hi: nat)
    requires ds != [] && forall i :: 0 <= i < |ds| ==> lo <= ds[i] <= hi
    ensures lo <= Average(ds) <= hi
  {
    var front, n, d := ds[..|ds| - 1], |ds|, ds[|ds| - 1];
    if n > 1 {
      AverageWithin(front, lo, hi);
      NextWithin(Average(front), n, d, lo, hi);
    }
  }

  lemma {:induction false} CountingUp(n: nat)
    ensures var ds: seq<nat> := seq(n, i => i); Average(ds) == 0 && Total(ds) == Triangle(n)
  {
    if n > 0 {
      var ds: seq<nat> := seq(n, i => i);
      CountingUp(n - 1);
      assert ds[..n - 1] == seq(n - 1, i => i);
      assert (n - 1) / n == 0;
    }
  }

  /** The bound is attained: on 0, 1, 2, ... the truncated average stays 0 for ever. */
  lemma {:induction false} DriftAttained(n: nat)
    ensures var ds: seq<nat> := seq(n, i => i); Average(ds) == 0 && 2 * (Total(ds) - n * Average(ds)) == n * (n - 1)
  {
    CountingUp(n);
    TriangleClosed(n);
  }
}
