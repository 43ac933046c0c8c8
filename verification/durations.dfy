/** gateway/flow_control/flow_control.go, `parseDuration`: "<n>s", "<n>min", or a bare number
    whose unit is given separately. Durations are 64-bit nanoseconds that wrap. */
module Durations {
  import opened Decimal

  /** n seconds, and n minutes, in nanoseconds. */
  function Seconds(n: int): int {
    n * 1_000_000_000
  }

  function Minutes(n: int): int {
    n * 60_000_000_000
  }

  /** The 64-bit two's complement value of n: off by a multiple of 2^64. */
  function Wrap64(n: int): (w: int)
    ensures FitsInt64(w) && (w == n <==> FitsInt64(n)) && (n - w) % 0x1_0000_0000_0000_0000 == 0
    decreases if n < 0 then -n - 1 else n
  {
    if n > INT64_MAX then Wrap64(n - 0x1_0000_0000_0000_0000)
    else if n < INT64_MIN then Wrap64(n + 0x1_0000_0000_0000_0000)
    else n
  }

  predicate HasSuffix(s: string, suffix: string) {
    |suffix| <= |s| && s[|s| - |suffix|..] == suffix
  }

  function TrimSuffix(s: string, suffix: string): string {
    if HasSuffix(s, suffix) then s[..|s| - |suffix|] else s
  }

  datatype Duration = Nanos(n: int) | InvalidFormat(window: string) | UnsupportedUnit(unit: string)

  function ParseDuration(window: string, unit: string): Duration {
    match Atoi(window)
    case Number(n) =>
      if unit == "s" then Nanos(Wrap64(Seconds(n)))
      else if unit == "min" then Nanos(Wrap64(Minutes(n)))
      else UnsupportedUnit(unit)
    case Invalid =>
      if HasSuffix(window, "s") then
        match Atoi(TrimSuffix(window, "s"))
        case Number(n) => Nanos(Wrap64(Seconds(n)))
        case Invalid => InvalidFormat(window)
      else if HasSuffix(window, "min") then
        match Atoi(TrimSuffix(window, "min"))
        case Number(n) => Nanos(Wrap64(Minutes(n)))
        case Invalid => InvalidFormat(window)
      else InvalidFormat(window)
  }

  lemma {:induction false} NotANumber(s: string, suffix: string)
    requires suffix != [] && !IsDigit(suffix[|suffix| - 1]) && (s != [] || |suffix| > 1)
    ensures Atoi(s + suffix) == Invalid
  {
    var t := s + suffix;
    var body := if t[0] == '-' || t[0] == '+' then t[1..] else t;
    assert body[|body| - 1] == suffix[|suffix| - 1];
  }

  lemma {:induction false} TrimAppended(s: string, suffix: string)
    ensures HasSuffix(s + suffix, suffix) && TrimSuffix(s + suffix, suffix) == s
  {
    assert (s + suffix)[|s|..] == suffix && (s + suffix)[..|s|] == s;
  }

  lemma {:induction false} SuffixEnds(s: string, suffix: string)
    requires s != [] && suffix != []
    ensures HasSuffix(s, suffix) ==> s[|s| - 1] == suffix[|suffix| - 1]
  {
    if HasSuffix(s, suffix) {
      assert s[|s| - |suffix|..][|suffix| - 1] == s[|s| - 1];
    }
  }

  lemma {:induction false} ItoaEndsInDigit(n: int)
    ensures Itoa(n) != [] && IsDigit(Itoa(n)[|Itoa(n)| - 1])
  {
    var digits := Digits(if n < 0 then -n else n);
    assert Itoa(n)[|Itoa(n)| - 1] == digits[|digits| - 1];
  }

  /** `w` is the 64-bit value of the product n * unit. */
  predicate IsProduct(w: int, n: int, unit: int) {
    FitsInt64(w) && (w - n * unit) % 0x1_0000_0000_0000_0000 == 0
  }

  /** Every text that ends in "s": it is seconds exactly when what stands before is a number. */
  lemma {:induction false} ParseSeconds(x: string, unit: string)
    ensures match Atoi(x)
            case Number(n) => ParseDuration(x + "s", unit) == Nanos(Wrap64(Seconds(n)))
            case Invalid => ParseDuration(x + "s", unit) == InvalidFormat(x + "s")
  {
    if x == [] {
      assert x + "s" == "s";
    } else {
      NotANumber(x, "s");
    }
    TrimAppended(x, "s");
  }

  /** Every text that ends in "min": likewise minutes. */
  lemma {:induction false} ParseMinutes(x: string, unit: string)
    ensures match Atoi(x)
            case Number(n) => ParseDuration(x + "min", unit) == Nanos(Wrap64(Minutes(n)))
            case Invalid => ParseDuration(x + "min", unit) == InvalidFormat(x + "min")
  {
    NotANumber(x, "min");
    TrimAppended(x, "min");
    SuffixEnds(x + "min", "s");
  }

  lemma {:induction false} SuffixSplits(s: string, suffix: string)
    ensures HasSuffix(s, suffix) ==> exists x :: s == x + suffix
  {
    if HasSuffix(s, suffix) {
      assert s == s[..|s| - |suffix|] + suffix;
    }
  }

  /** Every other text: a number follows the unit, and anything else is an error. */
  lemma {:induction false} ParseBare(w: string, unit: string)
    requires forall x :: w != x + "s" && w != x + "min"
    ensures match Atoi(w)
            case Number(n) =>
              ParseDuration(w, unit) == (
                if unit == "s" then Nanos(Wrap64(Seconds(n)))
                else if unit == "min" then Nanos(Wrap64(Minutes(n)))
                else UnsupportedUnit(unit))
            case Invalid => ParseDuration(w, unit) == InvalidFormat(w)
  {
    SuffixSplits(w, "s");
    SuffixSplits(w, "min");
  }

  lemma {:induction false} Negated(x: int)
    requires x % 0x1_0000_0000_0000_0000 == 0
    ensures -x % 0x1_0000_0000_0000_0000 == 0
  {
  }

  /** A second is 10^9 nanoseconds and a minute sixty seconds, as 64-bit products. */
  lemma {:induction false} UnitsAre(n: int)
    ensures Seconds(n) == n * 1_000_000_000 && Minutes(n) == 60 * Seconds(n)
    ensures IsProduct(Wrap64(Seconds(n)), n, 1_000_000_000) && IsProduct(Wrap64(Minutes(n)), n, 60_000_000_000)
  {
    var s, m := Wrap64(Seconds(n)), Wrap64(Minutes(n));
    Negated(Seconds(n) - s);
    Negated(Minutes(n) - m);
    assert s - Seconds(n) == -(Seconds(n) - s) && m - Minutes(n) == -(Minutes(n) - m);
  }

  lemma {:induction false} BareNumber(n: int, x: string)
    ensures Itoa(n) != x + "s" && Itoa(n) != x + "min"
  {
    ItoaEndsInDigit(n);
    assert (x + "s")[|x + "s"| - 1] == 's' && (x + "min")[|x + "min"| - 1] == 'n';
  }

  /** Parsing undoes printing exactly when the duration fits in 64 bits; beyond, the product wraps
      or the number is refused. With a suffix this is so whatever the unit says. */
  lemma {:induction false} ParseUndoesPrintS(n: int, unit: string)
    ensures ParseDuration(Itoa(n) + "s", unit) == Nanos(n * 1_000_000_000) <==> FitsInt64(n * 1_000_000_000)
  {
    ParseSeconds(Itoa(n), unit);
    AtoiOfItoa(n);
  }

  lemma {:induction false} ParseUndoesPrintMin(n: int, unit: string)
    ensures ParseDuration(Itoa(n) + "min", unit) == Nanos(n * 60_000_000_000) <==> FitsInt64(n * 60_000_000_000)
  {
    ParseMinutes(Itoa(n), unit);
    AtoiOfItoa(n);
  }

  /** A bare number follows the unit, and parses with no unit but the two. */
  lemma {:induction false} ParseUndoesPrintBare(n: int, unit: string)
    ensures unit == "s" ==>
              (ParseDuration(Itoa(n), unit) == Nanos(n * 1_000_000_000) <==> FitsInt64(n * 1_000_000_000))
    ensures unit == "min" ==>
              (ParseDuration(Itoa(n), unit) == Nanos(n * 60_000_000_000) <==> FitsInt64(n * 60_000_000_000))
    ensures unit != "s" && unit != "min" ==> !ParseDuration(Itoa(n), unit).Nanos?
  {
    forall x ensures Itoa(n) != x + "s" && Itoa(n) != x + "min" {
      BareNumber(n, x);
    }
    ParseBare(Itoa(n), unit);
    AtoiOfItoa(n);
  }

  /** The number behind a suffix or, for a bare one, beside a unit. */
  datatype Form = WithS | WithMin | Bare

  function Print(n: int, form: Form): string {
    match form
    case WithS => Itoa(n) + "s"
    case WithMin => Itoa(n) + "min"
    case Bare => Itoa(n)
  }

  /** Nanoseconds meant by n in this form. */
  function Meant(n: int, form: Form, unit: string): int {
    n * if form.WithS? || (form.Bare? && unit == "s") then 1_000_000_000 else 60_000_000_000
  }

  lemma {:induction false} ParsePrinted(n: int, form: Form, unit: string)
    requires form.Bare? ==> unit == "s" || unit == "min"
    ensures ParseDuration(Print(n, form), unit) == Nanos(Meant(n, form, unit)) <==> FitsInt64(Meant(n, form, unit))
  {
    match form
    case WithS => ParseUndoesPrintS(n, unit);
    case WithMin => ParseUndoesPrintMin(n, unit);
    case Bare => ParseUndoesPrintBare(n, unit);
  }

  /** Within range, distinct numbers give distinct durations in a fixed form. */
  lemma {:induction false} DistinctDurations(m: int, n: int, form: Form, unit: string)
    requires m != n && (form.Bare? ==> unit == "s" || unit == "min")
    requires FitsInt64(Meant(m, form, unit)) && FitsInt64(Meant(n, form, unit))
    ensures ParseDuration(Print(m, form), unit) != ParseDuration(Print(n, form), unit)
  {
    ParsePrinted(m, form, unit);
    ParsePrinted(n, form, unit);
  }
}
