/** calculateBackoff: exponential in the attempt, capped - as far as 64 bits carry. The source
    raises two to a power, converts that to a signed 64-bit word and multiplies; outside the range
    of the word neither has a defined result.
 */
module Backoff {
  import opened Options

  const INT_RANGE := 0x8000_0000
  const INT64_RANGE := 0x8000_0000_0000_0000

  // A delay setting: a 32-bit int that is not negative.
  type Millis = x: int | 0 <= x < INT_RANGE

  function Pow2(n: nat): (p: nat)
    ensures p > 0
  {
    if n == 0 then 1 else 2 * Pow2(n - 1)
  }

  function Min(a: int, b: int): int { if a <= b then a else b }

  function ToInt64(x: int): Option<int> { if -INT64_RANGE <= x < INT64_RANGE then Some(x) else None }

  // The delay the code computes; None where the arithmetic leaves its range.
  function ComputedDelay(initialDelay: Millis, maxDelay: Millis, attempt: nat): Option<int>
    requires attempt >= 1
  {
    match ToInt64(Pow2(attempt - 1))
    case None => None
    case Some(power) =>
      match ToInt64(initialDelay * power)
      case None => None
      case Some(delay) => Some(Min(delay, maxDelay))
  }

  // The delay the documentation promises.
  function Delay(initialDelay: nat, maxDelay: nat, attempt: nat): nat
    requires attempt >= 1
  {
    Min(initialDelay * Pow2(attempt - 1), maxDelay)
  }

  // ---- Where 64 bits suffice -----------------------------------------------------------------

  predicate Fits(initialDelay: nat, attempt: nat)
    requires attempt >= 1
  {
    attempt <= 63 && initialDelay * Pow2(attempt - 1) < INT64_RANGE
  }

  lemma {:induction false} Pow2Monotone(a: nat, b: nat)
    requires a <= b
    ensures Pow2(a) <= Pow2(b)
    decreases b - a
  {
    if a < b {
      Pow2Monotone(a + 1, b);
      assert Pow2(a + 1) == 2 * Pow2(a);
    }
  }

  lemma Pow2Values()
    ensures Pow2(30) == 0x4000_0000 && Pow2(32) == 0x1_0000_0000 && Pow2(33) == 0x2_0000_0000
    ensures Pow2(53) == 0x20_0000_0000_0000 && Pow2(54) == 0x40_0000_0000_0000
    ensures Pow2(62) == 0x4000_0000_0000_0000 && Pow2(63) == INT64_RANGE
  {
    assert Pow2(8) == 256;
    assert Pow2(16) == 65536;
    assert Pow2(24) == 0x100_0000;
    assert Pow2(30) == 0x4000_0000;
    assert Pow2(38) == 0x40_0000_0000;
    assert Pow2(46) == 0x4000_0000_0000;
    assert Pow2(54) == 0x40_0000_0000_0000;
    assert Pow2(58) == 0x400_0000_0000_0000;
  }

  lemma PowerFits(attempt: nat)
    requires attempt >= 1
    ensures ToInt64(Pow2(attempt - 1)) == if attempt <= 63 then Some(Pow2(attempt - 1)) else None
  {
    Pow2Values();
    if attempt <= 63 {
      Pow2Monotone(attempt - 1, 62);
    } else {
      Pow2Monotone(63, attempt - 1);
    }
  }

  // The code yields the documented delay exactly where the power and the product fit.
  lemma ComputedIff(initialDelay: Millis, maxDelay: Millis, attempt: nat)
    requires attempt >= 1
    ensures ComputedDelay(initialDelay, maxDelay, attempt) == Some(Delay(initialDelay, maxDelay, attempt)) <==> Fits(initialDelay, attempt)
    ensures ComputedDelay(initialDelay, maxDelay, attempt) == None <==> !Fits(initialDelay, attempt)
  {
    PowerFits(attempt);
    Scale(initialDelay, 0, Pow2(attempt - 1));
  }

  // Whatever the settings, it does so up to attempt 33 and no further.
  lemma NoOverflowIff(attempt: nat)
    requires attempt >= 1
    ensures (forall i: Millis, m: Millis :: ComputedDelay(i, m, attempt) == Some(Delay(i, m, attempt))) <==> attempt <= 33
  {
    Pow2Values();
    if attempt <= 33 {
      Pow2Monotone(attempt - 1, 32);
      forall i: Millis, m: Millis ensures ComputedDelay(i, m, attempt) == Some(Delay(i, m, attempt)) {
        Scale(i, Pow2(attempt - 1), Pow2(32));
        ComputedIff(i, m, attempt);
      }
    } else {
      Pow2Monotone(33, attempt - 1);
      var i: Millis, m: Millis := INT_RANGE - 1, 0;
      Scale(i, Pow2(33), Pow2(attempt - 1));
      ComputedIff(i, m, attempt);
      assert ComputedDelay(i, m, attempt) != Some(Delay(i, m, attempt));
    }
  }

  // The settings a client starts with fail at attempt 55.
  lemma DefaultsOverflow()
    ensures ComputedDelay(1000, 30000, 54) == Some(30000) && ComputedDelay(1000, 30000, 55) == None
  {
    Pow2Values();
  }

  lemma Scale(d: nat, p: int, q: int)
    requires p <= q
    ensures d * p <= d * q
  {}

  // What fits once fits for every earlier attempt.
  lemma FitsEarlier(initialDelay: nat, a: nat, b: nat)
    requires 1 <= a <= b && Fits(initialDelay, b)
    ensures Fits(initialDelay, a)
  {
    Pow2Monotone(a - 1, b - 1);
    Scale(initialDelay, Pow2(a - 1), Pow2(b - 1));
  }

  lemma FitsUpTo33(initialDelay: Millis, attempt: nat)
    requires 1 <= attempt <= 33
    ensures Fits(initialDelay, attempt)
  {
    NoOverflowIff(attempt);
    ComputedIff(initialDelay, 0, attempt);
  }

  // ---- The shape of the delays ---------------------------------------------------------------

  lemma DelayGrows(initialDelay: nat, maxDelay: nat, attempt: nat)
    requires attempt >= 1
    ensures Delay(initialDelay, maxDelay, attempt + 1) == Min(2 * Delay(initialDelay, maxDelay, attempt), maxDelay)
    ensures Delay(initialDelay, maxDelay, attempt) <= Delay(initialDelay, maxDelay, attempt + 1)
  {
    var p := Pow2(attempt - 1);
    assert Pow2(attempt) == 2 * p;
    assert initialDelay * (2 * p) == 2 * (initialDelay * p);
    assert initialDelay * p >= 0;
  }

  // While the later attempt fits, the delay starts at the initial delay, doubles and stays at the
  // cap; from the first attempt that does not fit on, no delay is defined.
  lemma DelayDoubles(initialDelay: Millis, maxDelay: Millis, attempt: nat)
    requires attempt >= 1
    ensures ComputedDelay(initialDelay, maxDelay, 1) == Some(Min(initialDelay, maxDelay))
    ensures match ComputedDelay(initialDelay, maxDelay, attempt + 1)
            case Some(next) => Fits(initialDelay, attempt + 1)
                               && ComputedDelay(initialDelay, maxDelay, attempt).Some?
                               && next == Min(2 * ComputedDelay(initialDelay, maxDelay, attempt).value, maxDelay)
            case None => !Fits(initialDelay, attempt + 1)
  {
    FitsUpTo33(initialDelay, 1);
    ComputedIff(initialDelay, maxDelay, 1);
    ComputedIff(initialDelay, maxDelay, attempt);
    ComputedIff(initialDelay, maxDelay, attempt + 1);
    if Fits(initialDelay, attempt + 1) {
      FitsEarlier(initialDelay, attempt, attempt + 1);
      DelayGrows(initialDelay, maxDelay, attempt);
    }
  }

  lemma {:induction false} DelayClimbs(initialDelay: nat, maxDelay: nat, a: nat, b: nat)
    requires 1 <= a <= b
    ensures Delay(initialDelay, maxDelay, a) <= Delay(initialDelay, maxDelay, b) <= maxDelay
    decreases b - a
  {
    if a < b {
      DelayGrows(initialDelay, maxDelay, a);
      DelayClimbs(initialDelay, maxDelay, a + 1, b);
    }
  }

  // The code's delays never shrink exactly up to the last attempt that fits.
  lemma DelayIsMonotone(initialDelay: Millis, maxDelay: Millis, a: nat, b: nat)
    requires 1 <= a <= b
    ensures match ComputedDelay(initialDelay, maxDelay, b)
            case Some(later) => ComputedDelay(initialDelay, maxDelay, a).Some?
                                && 0 <= ComputedDelay(initialDelay, maxDelay, a).value <= later <= maxDelay
            case None => !Fits(initialDelay, b)
  {
    ComputedIff(initialDelay, maxDelay, a);
    ComputedIff(initialDelay, maxDelay, b);
    if Fits(initialDelay, b) {
      FitsEarlier(initialDelay, a, b);
      DelayClimbs(initialDelay, maxDelay, a, b);
    }
  }

  // ---- Waiting n times -----------------------------------------------------------------------

  // The documented delays before the first n reconnects, and those the code computes.
  function Documented(initialDelay: nat, maxDelay: nat, n: nat): (ds: seq<Option<int>>)
    ensures |ds| == n
  {
    if n == 0 then [] else Documented(initialDelay, maxDelay, n - 1) + [Some(Delay(initialDelay, maxDelay, n))]
  }

  function Delays(initialDelay: Millis, maxDelay: Millis, n: nat): (ds: seq<Option<int>>)
    ensures |ds| == n
  {
    if n == 0 then [] else Delays(initialDelay, maxDelay, n - 1) + [ComputedDelay(initialDelay, maxDelay, n)]
  }

  predicate AllFit(initialDelay: nat, n: nat) { n == 0 || Fits(initialDelay, n) }

  lemma {:induction false} DocumentedIff(initialDelay: Millis, maxDelay: Millis, n: nat)
    ensures Delays(initialDelay, maxDelay, n) == Documented(initialDelay, maxDelay, n) <==> AllFit(initialDelay, n)
  {
    if n > 0 {
      var ds, docs := Delays(initialDelay, maxDelay, n), Documented(initialDelay, maxDelay, n);
      DocumentedIff(initialDelay, maxDelay, n - 1);
      ComputedIff(initialDelay, maxDelay, n);
      assert ds[n - 1] == ComputedDelay(initialDelay, maxDelay, n) && docs[n - 1] == Some(Delay(initialDelay, maxDelay, n));
      if n > 1 && Fits(initialDelay, n) {
        FitsEarlier(initialDelay, n - 1, n);
      }
    }
  }

  // n times the first delay.
  function Constant(initialDelay: nat, maxDelay: nat, n: nat): (ds: seq<Option<int>>)
    ensures |ds| == n && forall d | d in ds :: d == Some(Min(initialDelay, maxDelay))
  {
    if n == 0 then [] else Constant(initialDelay, maxDelay, n - 1) + [Some(Min(initialDelay, maxDelay))]
  }

  lemma DelayIsFirst(initialDelay: nat, maxDelay: nat, attempt: nat)
    requires attempt >= 1 && (attempt == 1 || initialDelay == 0 || initialDelay >= maxDelay)
    ensures Delay(initialDelay, maxDelay, attempt) == Min(initialDelay, maxDelay)
  {
    Scale(initialDelay, 1, Pow2(attempt - 1));
  }

  lemma {:induction false} DocumentedAt(initialDelay: nat, maxDelay: nat, n: nat, k: nat)
    requires k < n
    ensures Documented(initialDelay, maxDelay, n)[k] == Some(Delay(initialDelay, maxDelay, k + 1))
  {
    if k < n - 1 {
      DocumentedAt(initialDelay, maxDelay, n - 1, k);
    }
  }

  // Constant delays are the documented ones exactly where doubling makes no difference.
  lemma {:induction false} ConstantIff(initialDelay: nat, maxDelay: nat, n: nat)
    ensures Constant(initialDelay, maxDelay, n) == Documented(initialDelay, maxDelay, n)
       <==> n <= 1 || initialDelay == 0 || initialDelay >= maxDelay
  {
    if n <= 1 || initialDelay == 0 || initialDelay >= maxDelay {
      if n > 0 {
        ConstantIff(initialDelay, maxDelay, n - 1);
        DelayIsFirst(initialDelay, maxDelay, n);
      }
    } else {
      DocumentedAt(initialDelay, maxDelay, n, 1);
      DelayIsFirst(initialDelay, maxDelay, 1);
      DelayGrows(initialDelay, maxDelay, 1);
      assert Constant(initialDelay, maxDelay, n)[1] in Constant(initialDelay, maxDelay, n);
    }
  }

  // None if one of the delays is not defined.
  function Total(ds: seq<Option<int>>): Option<int> {
    if ds == [] then Some(0)
    else
      match (Total(ds[..|ds| - 1]), ds[|ds| - 1])
      case (Some(sum), Some(d)) => Some(sum + d)
      case _ => None
  }

  // Waiting n times is defined exactly if the last attempt fits; it then takes no longer than n
  // capped delays, nor than the uncapped geometric sum.
  lemma {:induction false} TotalWait(initialDelay: Millis, maxDelay: Millis, n: nat)
    ensures Total(Delays(initialDelay, maxDelay, n)).Some? <==> AllFit(initialDelay, n)
    ensures AllFit(initialDelay, n) ==>
              0 <= Total(Delays(initialDelay, maxDelay, n)).value <= Min(n * maxDelay, initialDelay * (Pow2(n) - 1))
  {
    if n > 0 {
      TotalWait(initialDelay, maxDelay, n - 1);
      ComputedIff(initialDelay, maxDelay, n);
      var ds := Delays(initialDelay, maxDelay, n);
      assert ds[..|ds| - 1] == Delays(initialDelay, maxDelay, n - 1);
      if Fits(initialDelay, n) {
        if n > 1 {
          FitsEarlier(initialDelay, n - 1, n);
        }
        OneMore(initialDelay, maxDelay, n);
      }
    }
  }

  lemma OneMore(initialDelay: nat, maxDelay: nat, n: nat)
    requires n > 0
    ensures Min((n - 1) * maxDelay, initialDelay * (Pow2(n - 1) - 1)) + Delay(initialDelay, maxDelay, n)
         <= Min(n * maxDelay, initialDelay * (Pow2(n) - 1))
  {
    Sums(initialDelay, maxDelay, n - 1, Pow2(n - 1));
  }

  lemma Sums(i: nat, m: nat, n: nat, p: nat)
    ensures n * m + m == (n + 1) * m
    ensures i * (p - 1) + i * p == i * (2 * p - 1)
  {}
}
