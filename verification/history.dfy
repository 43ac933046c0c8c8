/** Histories of clock readings: which of them fall into an interval, and what
    thinning a history out does to those counts. Times are whole nanoseconds. */
module History {

  ghost predicate Sorted(h: seq<int>) {
    forall i, j :: 0 <= i < j < |h| ==> h[i] <= h[j]
  }

  function Init<T>(s: seq<T>): seq<T>
    requires s != []
  {
    s[..|s| - 1]
  }

  function Last<T>(s: seq<T>): T
    requires s != []
  {
    s[|s| - 1]
  }

  /** The entries of `h` that lie in the closed interval [lo, hi], in order. */
  function Between(h: seq<int>, lo: int, hi: int): seq<int> {
    if h == [] then []
    else if lo <= Last(h) <= hi then Between(Init(h), lo, hi) + [Last(h)]
    else Between(Init(h), lo, hi)
  }

  ghost predicate UpTo(h: seq<int>, hi: int) {
    forall k :: 0 <= k < |h| ==> h[k] <= hi
  }

  lemma {:induction false} BetweenAppend(h: seq<int>, t: int, lo: int, hi: int)
    ensures Between(h + [t], lo, hi) == if lo <= t <= hi then Between(h, lo, hi) + [t] else Between(h, lo, hi)
  {
    assert Init(h + [t]) == h;
  }

  lemma {:induction false} BetweenConcat(g: seq<int>, h: seq<int>, lo: int, hi: int)
    ensures Between(g + h, lo, hi) == Between(g, lo, hi) + Between(h, lo, hi)
  {
    if h == [] {
      assert g + h == g;
    } else {
      var front, t := Init(h), Last(h);
      BetweenConcat(g, front, lo, hi);
      BetweenAppend(g + front, t, lo, hi);
      BetweenAppend(front, t, lo, hi);
      assert g + h == (g + front) + [t] && h == front + [t];
    }
  }

  lemma {:induction false} BetweenNone(h: seq<int>, lo: int, hi: int)
    requires forall k :: 0 <= k < |h| ==> h[k] < lo || h[k] > hi
    ensures Between(h, lo, hi) == []
  {
    if h != [] { BetweenNone(Init(h), lo, hi); }
  }

  lemma {:induction false} BetweenAll(h: seq<int>, lo: int, hi: int)
    requires forall k :: 0 <= k < |h| ==> lo <= h[k] <= hi
    ensures Between(h, lo, hi) == h
  {
    if h != [] {
      var front, t := Init(h), Last(h);
      assert h == front + [t];
      BetweenAll(front, lo, hi);
      BetweenAppend(front, t, lo, hi);
    }
  }

  /** Where the entries of at least `x` begin. */
  lemma {:induction false} FirstFrom(h: seq<int>, x: int) returns (i: nat)
    requires Sorted(h)
    ensures i <= |h| && (forall k :: 0 <= k < i ==> h[k] < x) && forall k :: i <= k < |h| ==> h[k] >= x
  {
    if h == [] || Last(h) < x {
      i := |h|;
    } else {
      i := FirstFrom(Init(h), x);
    }
  }

  lemma {:induction false} ThreeParts(h: seq<int>, i: nat, j: nat, lo: int, hi: int)
    requires i <= j <= |h|
    requires forall k :: 0 <= k < i ==> h[k] < lo
    requires forall k :: i <= k < j ==> lo <= h[k] <= hi
    requires forall k :: j <= k < |h| ==> h[k] > hi
    ensures Between(h, lo, hi) == h[i..j]
  {
    assert h == h[..j] + h[j..] && h[..j] == h[..i] + h[i..j];
    BetweenConcat(h[..j], h[j..], lo, hi);
    BetweenConcat(h[..i], h[i..j], lo, hi);
    BetweenNone(h[..i], lo, hi);
    BetweenAll(h[i..j], lo, hi);
    BetweenNone(h[j..], lo, hi);
  }

  /** On a sorted history the entries of an interval are one contiguous slice. */
  lemma {:induction false} BetweenIsSlice(h: seq<int>, lo: int, hi: int) returns (i: nat, j: nat)
    requires Sorted(h)
    ensures i <= j <= |h| && Between(h, lo, hi) == h[i..j]
    ensures forall k :: 0 <= k < i ==> h[k] < lo
    ensures forall k :: i <= k < j ==> lo <= h[k] <= hi
    ensures forall k :: j <= k < |h| ==> h[k] > hi
    ensures i < j ==> lo <= h[i] && h[j - 1] <= hi
  {
    i := FirstFrom(h, lo);
    j := i;
    if lo <= hi {
      var n := FirstFrom(h[i..], hi + 1);
      j := i + n;
      assert forall k :: j <= k < |h| ==> h[k] == h[i..][k - i];
      assert forall k :: i <= k < j ==> h[k] == h[i..][k - i];
    }
    ThreeParts(h, i, j, lo, hi);
  }

  /** Growing the history never removes an entry from an interval. */
  lemma {:induction false} BetweenPrefix(h: seq<int>, n: nat, lo: int, hi: int)
    requires n <= |h|
    ensures |Between(h[..n], lo, hi)| <= |Between(h, lo, hi)|
  {
    if n < |h| {
      assert Init(h)[..n] == h[..n];
      BetweenPrefix(Init(h), n, lo, hi);
    } else {
      assert h[..n] == h;
    }
  }

  /** `s` is what is left of `h` after dropping some of its entries. */
  ghost predicate Thinned(s: seq<int>, h: seq<int>) {
    if s == [] then true
    else h != [] && ((Last(s) == Last(h) && Thinned(Init(s), Init(h))) || Thinned(s, Init(h)))
  }

  lemma {:induction false} ThinnedSelf(h: seq<int>)
    ensures Thinned(h, h)
  {
    if h != [] { ThinnedSelf(Init(h)); }
  }

  lemma {:induction false} ThinnedTrans(r: seq<int>, s: seq<int>, h: seq<int>)
    requires Thinned(r, s) && Thinned(s, h)
    ensures Thinned(r, h)
    decreases |s| + |h|
  {
    if r != [] {
      if Last(s) == Last(h) && Thinned(Init(s), Init(h)) {
        if Last(r) == Last(s) && Thinned(Init(r), Init(s)) {
          ThinnedTrans(Init(r), Init(s), Init(h));
        } else {
          ThinnedTrans(r, Init(s), Init(h));
        }
      } else {
        ThinnedTrans(r, s, Init(h));
      }
    }
  }

  lemma {:induction false} ThinnedIn(s: seq<int>, h: seq<int>)
    requires Thinned(s, h)
    ensures forall x :: x in s ==> x in h
  {
    if s != [] {
      assert s == Init(s) + [Last(s)] && h == Init(h) + [Last(h)];
      if Last(s) == Last(h) && Thinned(Init(s), Init(h)) {
        ThinnedIn(Init(s), Init(h));
      } else {
        ThinnedIn(s, Init(h));
      }
    }
  }

  lemma {:induction false} ThinnedSorted(s: seq<int>, h: seq<int>)
    requires Thinned(s, h) && Sorted(h)
    ensures Sorted(s)
  {
    if s != [] {
      if Last(s) == Last(h) && Thinned(Init(s), Init(h)) {
        ThinnedSorted(Init(s), Init(h));
        ThinnedIn(Init(s), Init(h));
        forall i | 0 <= i < |s| - 1 ensures s[i] <= Last(s) {
          assert Init(s)[i] in Init(h);
        }
      } else {
        ThinnedSorted(s, Init(h));
      }
    }
  }

  lemma {:induction false} ThinnedUpTo(s: seq<int>, h: seq<int>)
    requires Thinned(s, h) && Sorted(h) && h != []
    ensures UpTo(s, Last(h))
  {
    ThinnedIn(s, h);
    forall k | 0 <= k < |s| ensures s[k] <= Last(h) {
      assert s[k] in s;
    }
  }

  /** Dropping entries never adds one to an interval. */
  lemma {:induction false} ThinnedCount(s: seq<int>, h: seq<int>, lo: int, hi: int)
    requires Thinned(s, h)
    ensures |Between(s, lo, hi)| <= |Between(h, lo, hi)|
  {
    if s != [] {
      if Last(s) == Last(h) && Thinned(Init(s), Init(h)) {
        ThinnedCount(Init(s), Init(h), lo, hi);
      } else {
        ThinnedCount(s, Init(h), lo, hi);
      }
    }
  }

  // ----- runs of anything that is charged -----

  /** What a charge at a given time does to a state, and whether it is admitted. */
  type Charging<!S> = (S, int) -> (S, bool)

  /** The state after the calls at the times `a`, oldest first. */
  function After<S>(step: Charging<S>, s: S, a: seq<int>): S {
    if a == [] then s else step(After(step, s, Init(a)), Last(a)).0
  }

  /** The times of the calls in `a` that were admitted. */
  function Admitted<S>(step: Charging<S>, s: S, a: seq<int>): seq<int> {
    if a == [] then []
    else if step(After(step, s, Init(a)), Last(a)).1 then Admitted(step, s, Init(a)) + [Last(a)]
    else Admitted(step, s, Init(a))
  }

  lemma {:induction false} OneMoreCall<S>(step: Charging<S>, s: S, a: seq<int>, t: int)
    ensures After(step, s, a + [t]) == step(After(step, s, a), t).0
    ensures Admitted(step, s, a + [t])
            == if step(After(step, s, a), t).1 then Admitted(step, s, a) + [t] else Admitted(step, s, a)
  {
    assert Init(a + [t]) == a;
  }

  lemma {:induction false} AdmittedThins<S>(step: Charging<S>, s: S, a: seq<int>)
    ensures Thinned(Admitted(step, s, a), a)
  {
    if a != [] {
      AdmittedThins(step, s, Init(a));
      var h := Admitted(step, s, Init(a));
      if step(After(step, s, Init(a)), Last(a)).1 {
        assert Init(h + [Last(a)]) == h;
      }
    }
  }

  lemma {:induction false} AdmittedSorted<S>(step: Charging<S>, s: S, a: seq<int>)
    requires Sorted(a)
    ensures Sorted(Admitted(step, s, a)) && (a != [] ==> UpTo(Admitted(step, s, a), Last(a)))
  {
    AdmittedThins(step, s, a);
    ThinnedSorted(Admitted(step, s, a), a);
    if a != [] { ThinnedUpTo(Admitted(step, s, a), a); }
  }
}
