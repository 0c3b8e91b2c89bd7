/**
 The 128-bit arithmetic of Libc/gen/nanosleep.c: x * y / divisor, dividing by repeated estimates in
 double arithmetic.  Each operation on doubles rounds its result; how is left open, but for the bound
 on the error of one rounding.
 */
module MulDiv {

  const TWO32: nat := 0x1_0000_0000
  const TWO64: nat := 0x1_0000_0000_0000_0000
  const TWO128: nat := 0x1_0000_0000_0000_0000_0000_0000_0000_0000

  type U32 = v: nat | v < 0x1_0000_0000
  type U64 = v: nat | v < 0x1_0000_0000_0000_0000

  datatype U128 = U128(high: U64, low: U64)

  function Value(u: U128): (n: nat)
    ensures n < TWO128
  {
    u.high * TWO64 + u.low
  }

  /** acc += add, modulo 2^128. */
  method Add128(acc: U128, add: U128) returns (r: U128)
    ensures Value(r) == Value(acc) + Value(add) - if Value(acc) + Value(add) < TWO128 then 0 else TWO128
  {
    var high: U64 := Wrap(acc.high + add.high);
    var low: U64 := Wrap(acc.low + add.low);
    if low < add.low {
      high := Wrap(high + 1);  // carry
    }
    r := U128(high, low);
  }

  /** acc -= sub, modulo 2^128. */
  method Sub128(acc: U128, sub: U128) returns (r: U128)
    ensures Value(r) == Value(acc) - Value(sub) + if Value(acc) >= Value(sub) then 0 else TWO128
  {
    var high: U64 := Wrap(acc.high - sub.high);
    if acc.low < sub.low {
      high := Wrap(high - 1);  // borrow
    }
    var low: U64 := Wrap(acc.low - sub.low);
    r := U128(high, low);
  }

  /** A sum or difference of two 64-bit numbers, in 64-bit arithmetic. */
  function Wrap(v: int): (r: U64)
    requires 0 <= v + TWO64 && v < 2 * TWO64
    ensures r == v || r == v - TWO64 || r == v + TWO64
  {
    if v < 0 then v + TWO64 else if v >= TWO64 then v - TWO64 else v
  }

  lemma {:induction false} ProductBound(x: nat, y: nat, m: nat, n: nat)
    requires x <= m && y <= n
    ensures 0 <= x * y <= m * n
  {
    assert x * y <= x * n;
    assert x * n <= m * n;
  }

  lemma {:induction false} Expand(x1: nat, x2: nat, y1: nat, y2: nat)
    ensures (TWO32 * x1 + x2) * (TWO32 * y1 + y2) == TWO64 * (x1 * y1) + TWO32 * (x1 * y2) + TWO32 * (x2 * y1) + x2 * y2
  {
    var (x, y) := (TWO32 * x1, TWO32 * y1);
    assert (x + x2) * (y + y2) == x * y + x * y2 + x2 * y + x2 * y2;
    assert x * y == TWO32 * (x1 * y) == TWO32 * (TWO32 * (x1 * y1)) by {
      assert x1 * y == TWO32 * (x1 * y1);
    }
    assert x * y2 == TWO32 * (x1 * y2);
    assert x2 * y == TWO32 * (x2 * y1);
  }

  /** A 64-bit number shifted left by 32 bits, as 128 bits. */
  function Shifted(v: U64): (r: U128)
    ensures Value(r) == TWO32 * v
  {
    U128(v / TWO32, v % TWO32 * TWO32)
  }

  /** The exact 128-bit product. */
  method Mul64x64(x: U64, y: U64) returns (prod: U128)
    ensures Value(prod) == x * y
  {
    var x1: U32, x2: U32 := x / TWO32, x % TWO32;
    var y1: U32, y2: U32 := y / TWO32, y % TWO32;
    ProductBound(x1, y1, TWO32 - 1, TWO32 - 1);
    ProductBound(x1, y2, TWO32 - 1, TWO32 - 1);
    ProductBound(x2, y1, TWO32 - 1, TWO32 - 1);
    ProductBound(x2, y2, TWO32 - 1, TWO32 - 1);
    Expand(x1, x2, y1, y2);
    ProductBound(x, y, TWO64 - 1, TWO64 - 1);
    prod := U128(x1 * y1, x2 * y2);
    prod := Add128(prod, Shifted(x1 * y2));
    prod := Add128(prod, Shifted(x2 * y1));
  }

  // ----- division -----

  /** x * y / d, rounded down. */
  function Quotient(x: nat, y: nat, d: nat): nat
    requires d > 0
  {
    Times(x, y) / d
  }

  /** The low 64 bits: the number itself exactly if it fits. */
  function Low64(v: nat): (r: U64)
    ensures r == v <==> v < TWO64
  {
    v % TWO64
  }

  lemma {:induction false} LowOfZero()
    ensures Low64(0) == 0
  {
  }

  function Times(u: nat, d: nat): nat {
    u * d
  }

  lemma {:induction false} TimesNext(u: nat, d: nat)
    ensures Times(u + 1, d) == Times(u, d) + d && Times(0, d) == 0
  {
  }

  lemma {:induction false} TimesMonotone(a: nat, b: nat, d: nat)
    requires a <= b
    ensures Times(a, d) + Times(b - a, d) == Times(b, d)
  {
  }

  lemma {:induction false} QuotientIs(n: nat, d: nat, q: nat, r: nat)
    requires n == Times(q, d) + r && r < d
    ensures n / d == q
  {
    if n / d < q {
      TimesMonotone(n / d + 1, q, d);
      TimesNext(n / d, d);
    } else if q < n / d {
      TimesMonotone(q + 1, n / d, d);
      TimesNext(q, d);
    }
  }

  /** The largest quotient that is neither more than the estimate nor too large for what is left. */
  function Corrected(temp: nat, divisor: nat, u: nat): nat {
    if Times(u, divisor) <= temp || divisor == 0 then u else temp / divisor
  }

  /** The inner loop: an estimate that is too large is lowered until its product fits. */
  method Correct(temp: U128, divisor: U64, estimate: U64) returns (u: U64, backmul: U128)
    ensures u == Corrected(Value(temp), divisor, estimate)
    ensures Value(backmul) == Times(u, divisor) <= Value(temp)
  {
    hide Times;
    u := estimate;
    backmul := Mul64x64(u, divisor);
    TimesIs(u, divisor);
    while backmul.high > temp.high || (backmul.high == temp.high && backmul.low > temp.low)
      invariant Value(backmul) == Times(u, divisor) && u <= estimate
      invariant u < estimate ==> Times(u + 1, divisor) > Value(temp)
      decreases u
    {
      TimesNext(0, divisor);
      TimesNext(if u > 0 then u - 1 else 0, divisor);
      backmul := Sub128(backmul, U128(0, divisor));
      u := u - 1;
    }
    if u < estimate {
      TimesNext(u, divisor);
      TimesMonotone(u + 1, estimate, divisor);
      if divisor > 0 {
        QuotientIs(Value(temp), divisor, u, Value(temp) - Value(backmul));
      }
    }
  }

  lemma {:induction false} TimesIs(u: nat, d: nat)
    ensures Times(u, d) == u * d
  {
  }

  // ----- the estimate -----

  const SIGNED_LIMIT: nat := 0x8000_0000_0000_0000  // LLONG_MAX as a double

  /** Rounding to a double: an error of at most one part in 2^53. */
  ghost predicate Rounding(rn: real -> real) {
    forall v: real | v >= 0.0 :: Rounded(v, rn(v))
  }

  predicate Rounded(v: real, r: real) {
    (v - r) * 9007199254740992.0 <= v && (r - v) * 9007199254740992.0 <= v
  }

  function High(n: nat): nat {
    n / TWO64
  }

  function Low(n: nat): nat {
    n % TWO64
  }

  /** uint128_double: the value of a 128-bit number as a double. */
  function AsDouble(rn: real -> real, n: nat): real {
    rn(rn(18446744073709551616.0 * rn(High(n) as real)) + rn(Low(n) as real))
  }

  function Reciprocal(rn: real -> real, d: nat): real {
    var divisor := rn(d as real);
    if divisor == 0.0 then 0.0 else rn(1.0 / divisor)
  }

  function Approx(rn: real -> real, n: nat, d: nat): real {
    rn(Mul(AsDouble(rn, n), Reciprocal(rn, d)))
  }

  function Mul(a: real, b: real): real {
    a * b
  }

  function Scaled(a: real, d: nat): real {
    Mul(a, d as real)
  }

  lemma {:induction false} MulMonotone(a: real, b: real, c: real)
    requires c >= 0.0
    ensures a <= b ==> Mul(a, c) <= Mul(b, c)
    ensures a < b && c > 0.0 ==> Mul(a, c) < Mul(b, c)
  {
  }

  lemma {:induction false} MulLinear(a: real, b: real, c: real)
    ensures Mul((a - b) * 9007199254740992.0, c) == (Mul(a, c) - Mul(b, c)) * 9007199254740992.0
  {
  }

  lemma {:induction false} MulLaws(a: real, b: real, c: real)
    ensures Mul(a, b) == Mul(b, a) && Mul(1.0, a) == a && Mul(2.1, a) == 2.1 * a && Mul(0.0, a) == 0.0
    ensures Mul(Mul(a, b), c) == Mul(Mul(b, c), a)
    ensures b > 0.0 ==> Mul(1.0 / b, b) == 1.0
  {
  }

  /** A bound on a difference, multiplied through. */
  lemma {:induction false} Scale(a: real, b: real, k: real, c: real)
    requires c >= 0.0 && (a - b) * 9007199254740992.0 <= k
    ensures (Mul(a, c) - Mul(b, c)) * 9007199254740992.0 <= Mul(k, c)
  {
    hide Mul;
    MulMonotone((a - b) * 9007199254740992.0, k, c);
    MulLinear(a, b, c);
  }

  lemma {:induction false} RoundedAt(rn: real -> real, v: real)
    requires Rounding(rn) && v >= 0.0
    ensures Rounded(v, rn(v)) && rn(v) >= 0.0
  {
  }

  /** Three roundings in the value of a 128-bit number. */
  lemma {:induction false} AsDoubleClose(rn: real -> real, n: nat)
    requires Rounding(rn)
    ensures var t := AsDouble(rn, n);
            && t >= 0.0 && (t - n as real) * 9007199254740992.0 <= 3.2 * n as real
            && (n as real - t) * 9007199254740992.0 <= 3.2 * n as real
  {
    hide Rounding, High, Low;
    Halves(n);
    var h, l := High(n) as real, Low(n) as real;
    RoundedAt(rn, h);
    RoundedAt(rn, l);
    var p := 18446744073709551616.0 * rn(h);
    RoundedAt(rn, p);
    RoundedAt(rn, rn(p) + rn(l));
  }

  lemma {:induction false} Halves(n: nat)
    ensures n as real == 18446744073709551616.0 * (High(n) as real) + Low(n) as real
  {
    assert n == TWO64 * High(n) + Low(n);
  }

  /** Two roundings in the reciprocal of the divisor. */
  lemma {:induction false} ReciprocalClose(rn: real -> real, d: nat)
    requires Rounding(rn) && d > 0
    ensures var p := Scaled(Reciprocal(rn, d), d);
            Reciprocal(rn, d) >= 0.0 && (p - 1.0) * 9007199254740992.0 <= 2.1 && (1.0 - p) * 9007199254740992.0 <= 2.1
  {
    hide Rounding, Mul;
    var e := rn(d as real);
    RoundedAt(rn, d as real);
    var r := rn(1.0 / e);
    RoundedAt(rn, 1.0 / e);
    Scale(1.0 / e, r, 1.0 / e, e);
    Scale(r, 1.0 / e, 1.0 / e, e);
    MulLaws(r, e, 0.0);
    Scale(d as real, e, d as real, r);
    Scale(e, d as real, d as real, r);
    MulLaws(d as real, r, 0.0);
    TwoRoundings(Mul(d as real, r), Mul(e, r));
  }

  lemma {:induction false} TwoRoundings(x: real, y: real)
    requires Rounded(x, y) && Rounded(1.0, y)
    ensures (x - 1.0) * 9007199254740992.0 <= 2.1 && (1.0 - x) * 9007199254740992.0 <= 2.1
  {
  }

  /** The estimate, times the divisor, is within one part in 2^50 of what is divided. */
  lemma {:induction false} ApproxClose(rn: real -> real, n: nat, d: nat)
    requires Rounding(rn) && d > 0
    ensures var a := Scaled(Approx(rn, n, d), d);
            && Approx(rn, n, d) >= 0.0
            && (a - n as real) * 1125899906842624.0 <= n as real && (n as real - a) * 1125899906842624.0 <= n as real
  {
    hide Rounding, AsDouble, Reciprocal, Mul;
    var t, r := AsDouble(rn, n), Reciprocal(rn, d);
    var (p, e) := (Mul(t, r), d as real);
    AsDoubleClose(rn, n);
    ReciprocalClose(rn, d);
    MulLaws(t, r, e);
    MulMonotone(0.0, t, r);
    MulLaws(r, 0.0, 0.0);
    RoundedAt(rn, p);
    Scale(Mul(r, e), 1.0, 2.1, t);
    Scale(1.0, Mul(r, e), 2.1, t);
    Scale(p, rn(p), p, e);
    Scale(rn(p), p, p, e);
    SixRoundings(n as real, t, Scaled(p, d), Scaled(rn(p), d));
  }

  lemma {:induction false} SixRoundings(n: real, t: real, p: real, a: real)
    requires n >= 0.0 && t >= 0.0 && Rounded(p, a)
    requires (t - n) * 9007199254740992.0 <= 3.2 * n && (n - t) * 9007199254740992.0 <= 3.2 * n
    requires (p - t) * 9007199254740992.0 <= 2.1 * t && (t - p) * 9007199254740992.0 <= 2.1 * t
    ensures (a - n) * 1125899906842624.0 <= n && (n - a) * 1125899906842624.0 <= n
  {
  }

  // ----- what the estimate decides -----

  const TWO50: nat := 0x4_0000_0000_0000
  const LIMIT: nat := 0x2_0000_0000_0000_0000_0000_0000_0000  // SIGNED_LIMIT * TWO50

  /** However the estimate is rounded, it is not above the limit. */
  predicate SurelyFits(n: nat, d: nat) {
    n * (TWO50 + 1) <= LIMIT * d
  }

  /** However the estimate is rounded, it is above the limit. */
  predicate SurelyTooLarge(n: nat, d: nat) {
    n * (TWO50 - 1) > LIMIT * d
  }

  lemma {:induction false} EstimateAgainstLimit(rn: real -> real, n: nat, d: nat)
    requires Rounding(rn) && d > 0
    ensures SurelyFits(n, d) ==> Approx(rn, n, d) <= SIGNED_LIMIT as real
    ensures SurelyTooLarge(n, d) ==> Approx(rn, n, d) > SIGNED_LIMIT as real
  {
    hide Rounding, Approx;
    ApproxClose(rn, n, d);
    var a := Approx(rn, n, d);
    MulMonotone(a, SIGNED_LIMIT as real, d as real);
    MulMonotone(SIGNED_LIMIT as real, a, d as real);
    assert Scaled(SIGNED_LIMIT as real, d) == 9223372036854775808.0 * d as real;
    if SurelyFits(n, d) {
      assert n as real * 1125899906842625.0 <= 10384593717069655257060992658440192.0 * d as real;
    }
    if SurelyTooLarge(n, d) {
      assert n as real * 1125899906842623.0 > 10384593717069655257060992658440192.0 * d as real;
    }
  }

  /** The outer loop is at a number that it should still lower, but the estimate is zero. */
  predicate Stuck(rn: real -> real, n: nat, d: nat) {
    n >= d && Approx(rn, n, d) < 1.0
  }

  /** How far above the divisor that can happen: nowhere above it for a divisor below 2^50 - 1. */
  function Slack(d: nat): nat {
    d / (TWO50 - 1)
  }

  lemma {:induction false} StuckNearDivisor(rn: real -> real, n: nat, d: nat)
    requires Rounding(rn) && d > 0 && Stuck(rn, n, d)
    ensures d <= n <= d + Slack(d)
  {
    hide Rounding, Approx;
    ApproxClose(rn, n, d);
    MulMonotone(Approx(rn, n, d), 1.0, d as real);
    assert Scaled(1.0, d) == d as real;
    assert n as real * 1125899906842623.0 < d as real * 1125899906842624.0;
    assert n * 1125899906842623 < d * 1125899906842624;
    assert (n - d) * 1125899906842623 < d;
  }

  // ----- the outer loop -----

  datatype Outcome = Done(result: nat) | Overflow | Unfinished

  function Floor(a: real): nat {
    if a < 0.0 then 0 else a.Floor
  }

  /** What one pass takes off the number, in units of the divisor. */
  function Taken(rn: real -> real, n: nat, d: nat): (u: nat)
    requires d > 0
    ensures Times(u, d) <= n
  {
    hide Approx, Times;
    CorrectedFits(n, d, Floor(Approx(rn, n, d)));
    Corrected(n, d, Floor(Approx(rn, n, d)))
  }

  lemma {:induction false} CorrectedFits(n: nat, d: nat, u: nat)
    requires d > 0
    ensures Times(Corrected(n, d, u), d) <= n
    ensures n >= d ==> (Corrected(n, d, u) >= 1 <==> u >= 1)
  {
  }

  function Plus(k: nat, o: Outcome): Outcome {
    if o.Done? then Done(o.result + k) else o
  }

  /** At most `passes` passes of the outer loop, from a number n that is still to be divided. */
  function Run(rn: real -> real, n: nat, d: nat, passes: nat): Outcome
    requires d > 0
    decreases passes
  {
    if n < d then Done(0)
    else if passes == 0 then Unfinished
    else if Approx(rn, n, d) > SIGNED_LIMIT as real then Overflow
    else
      var u := Taken(rn, n, d);
      Plus(u, Run(rn, n - Times(u, d), d, passes - 1))
  }

  /** A normal exit returns the floor of the quotient. */
  lemma {:induction false} RunDivides(rn: real -> real, n: nat, d: nat, passes: nat)
    requires d > 0
    ensures var o := Run(rn, n, d, passes);
            o.Done? ==> o.result == n / d
    decreases passes
  {
    hide Approx, Times, Taken;
    TimesNext(0, d);
    if n < d {
      QuotientIs(n, d, 0, n);
    } else if passes > 0 && Run(rn, n, d, passes).Done? {
      var u := Taken(rn, n, d);
      var m := n - Times(u, d);
      RunDivides(rn, m, d, passes - 1);
      var q := m / d;
      TimesIs(q, d);
      TimesMonotone(u, u + q, d);
      QuotientIs(n, d, u + q, m - Times(q, d));
    }
  }

  lemma {:induction false} NeverTooLarge(rn: real -> real, n: nat, d: nat, passes: nat)
    requires Rounding(rn) && d > 0 && SurelyFits(n, d)
    ensures !Run(rn, n, d, passes).Overflow?
    decreases passes
  {
    hide Rounding, Approx, Times, Taken;
    EstimateAgainstLimit(rn, n, d);
    if n >= d && passes > 0 {
      NeverTooLarge(rn, n - Times(Taken(rn, n, d), d), d, passes - 1);
    }
  }

  /** A pass whose estimate is not above the limit leaves at most 2^14 + 1 times the divisor. */
  lemma {:induction false} LittleLeft(rn: real -> real, n: nat, d: nat)
    requires Rounding(rn) && d > 0 && Approx(rn, n, d) <= SIGNED_LIMIT as real
    ensures n - Times(Taken(rn, n, d), d) <= 0x4001 * d
  {
    hide Rounding, Approx, Mul;
    var a := Approx(rn, n, d);
    var u := Floor(a);
    ApproxClose(rn, n, d);
    MulMonotone(a, SIGNED_LIMIT as real, d as real);
    MulMonotone(a, u as real + 1.0, d as real);
    MulInts(SIGNED_LIMIT, d);
    MulInts(u + 1, d);
    TimesNext(u, d);
    if Times(u, d) > n {
      RemainderLeft(n, d);
    } else {
      assert n as real - Times(u, d) as real <= 16385.0 * d as real;
    }
  }

  lemma {:induction false} MulInts(a: nat, d: nat)
    ensures Mul(a as real, d as real) == Times(a, d) as real
  {
  }

  lemma {:induction false} RemainderLeft(n: nat, d: nat)
    requires d > 0
    ensures n - Times(n / d, d) < d
  {
  }

  /**
   Exactly the quotients whose first estimate is above the limit are reported as too large.  The limit is
   that of signed numbers, not the 2^64 that the result would have room for.
   */
  lemma {:induction false} OverflowExactly(rn: real -> real, n: nat, d: nat, passes: nat)
    requires Rounding(rn) && d > 0 && passes > 0
    ensures Run(rn, n, d, passes).Overflow? <==> n >= d && Approx(rn, n, d) > SIGNED_LIMIT as real
  {
    hide Rounding, Approx, Times, Taken;
    if n >= d && Approx(rn, n, d) <= SIGNED_LIMIT as real {
      LittleLeft(rn, n, d);
      NeverTooLarge(rn, n - Times(Taken(rn, n, d), d), d, passes - 1);
    }
  }

  /**
   However estimates are rounded: a quotient of 2^64 or more is reported, and so is one above 2^63 by
   more than one part in 2^50; one below 2^63 by as much is not.
   */
  lemma {:induction false} OverflowReported(rn: real -> real, n: nat, d: nat, passes: nat)
    requires Rounding(rn) && d > 0
    ensures passes > 0 && (n / d >= TWO64 || SurelyTooLarge(n, d)) ==> Run(rn, n, d, passes).Overflow?
    ensures SurelyFits(n, d) ==> !Run(rn, n, d, passes).Overflow?
  {
    hide Rounding, Approx;
    LargeQuotient(n, d);
    EstimateAgainstLimit(rn, n, d);
    if passes > 0 {
      OverflowExactly(rn, n, d, passes);
    }
  }

  lemma {:induction false} LargeQuotient(n: nat, d: nat)
    requires d > 0
    ensures n / d >= TWO64 ==> SurelyTooLarge(n, d)
    ensures SurelyTooLarge(n, d) ==> n >= d
  {
    if n / d >= TWO64 {
      QuotientAtLeast(n, d);
    }
  }

  lemma {:induction false} QuotientAtLeast(n: nat, d: nat)
    requires d > 0 && n / d >= TWO64
    ensures n >= TWO64 * d
  {
    TimesIs(n / d, d);
    TimesMonotone(TWO64, n / d, d);
  }

  /** A number at which the loop is stuck is never left. */
  lemma {:induction false} StuckForever(rn: real -> real, n: nat, d: nat, passes: nat)
    requires d > 0 && Stuck(rn, n, d)
    ensures Run(rn, n, d, passes) == Unfinished
    decreases passes
  {
    hide Approx, Times;
    TimesNext(0, d);
    if passes > 0 {
      CorrectedFits(n, d, Floor(Approx(rn, n, d)));
      StuckForever(rn, n, d, passes - 1);
    }
  }

  /** Every other pass lowers the number by at least the divisor. */
  lemma {:induction false} PassMoves(rn: real -> real, n: nat, d: nat)
    requires d > 0 && n >= d
    ensures Taken(rn, n, d) >= 1 <==> !Stuck(rn, n, d)
  {
    hide Approx, Times;
    CorrectedFits(n, d, Floor(Approx(rn, n, d)));
  }

  /** Without a stuck number among those that are congruent, the loop ends within n / d + 1 passes. */
  lemma {:induction false} RunEnds(rn: real -> real, n: nat, d: nat, passes: nat)
    requires d > 0 && passes > n / d
    requires forall m: nat | m <= n && Congruent(m, n, d) :: !Stuck(rn, m, d)
    ensures !Run(rn, n, d, passes).Unfinished?
    decreases passes
  {
    hide Approx, Times, Taken, Stuck;
    CongruentSelf(n, d);
    if n >= d {
      var u := Taken(rn, n, d);
      var m := n - Times(u, d);
      PassMoves(rn, n, d);
      PassesLeft(n, d, u);
      forall k: nat | k <= m && Congruent(k, m, d) ensures !Stuck(rn, k, d) {
        CongruentThrough(k, m, n, d, u);
      }
      RunEnds(rn, m, d, passes - 1);
    }
  }

  ghost predicate Congruent(m: nat, n: nat, d: nat) {
    exists k: nat :: n == m + Times(k, d)
  }

  lemma {:induction false} CongruentSelf(n: nat, d: nat)
    ensures Congruent(n, n, d)
  {
    assert n == n + Times(0, d);
  }

  lemma {:induction false} CongruentThrough(k: nat, m: nat, n: nat, d: nat, u: nat)
    requires Congruent(k, m, d) && n == m + Times(u, d)
    ensures Congruent(k, n, d)
  {
    var j: nat :| m == k + Times(j, d);
    TimesMonotone(j, j + u, d);
    assert n == k + Times(j + u, d);
  }

  lemma {:induction false} PassesLeft(n: nat, d: nat, u: nat)
    requires d > 0 && u >= 1 && Times(u, d) <= n
    ensures (n - Times(u, d)) / d < n / d
  {
    var m := n - Times(u, d);
    var q := m / d;
    TimesIs(q, d);
    TimesMonotone(u, u + q, d);
    QuotientIs(n, d, u + q, m - Times(q, d));
  }

  /** The division carried as far as it can go: more passes than the quotient has units change nothing. */
  function Division(rn: real -> real, n: nat, d: nat): Outcome
    requires d > 0
  {
    Run(rn, n, d, n / d + 1)
  }

  /** A division that has not ended by then never ends. */
  lemma {:induction false} EndsOrNever(rn: real -> real, n: nat, d: nat, passes: nat, k: nat)
    requires d > 0 && passes > n / d && Run(rn, n, d, passes).Unfinished?
    ensures Run(rn, n, d, k).Unfinished?
    decreases passes
  {
    hide Approx, Times, Taken, Stuck;
    if n >= d {
      if Stuck(rn, n, d) {
        StuckForever(rn, n, d, k);
      } else if k > 0 {
        PassMoves(rn, n, d);
        PassesLeft(n, d, Taken(rn, n, d));
        EndsOrNever(rn, n - Times(Taken(rn, n, d), d), d, passes - 1, k - 1);
      }
    }
  }

  /**
   Every division by d ends exactly if no estimate from d to just above it is below one; for a divisor
   below 2^50 - 1, exactly if the divisor times its reciprocal, in double arithmetic, is not.
   */
  lemma {:induction false} EndsExactly(rn: real -> real, d: nat)
    requires Rounding(rn) && d > 0
    ensures (forall n: nat :: !Division(rn, n, d).Unfinished?)
       <==> forall m: nat | d <= m <= d + Slack(d) :: Approx(rn, m, d) >= 1.0
    ensures d < TWO50 - 1 ==> ((forall n: nat :: !Division(rn, n, d).Unfinished?) <==> Approx(rn, d, d) >= 1.0)
  {
    hide Rounding, Approx, Run, Slack;
    if forall m: nat | d <= m <= d + Slack(d) :: Approx(rn, m, d) >= 1.0 {
      forall n: nat ensures !Division(rn, n, d).Unfinished? {
        forall m: nat | m <= n ensures !Stuck(rn, m, d) {
          if Stuck(rn, m, d) {
            StuckNearDivisor(rn, m, d);
          }
        }
        RunEnds(rn, n, d, n / d + 1);
      }
    } else {
      var m: nat :| d <= m <= d + Slack(d) && Approx(rn, m, d) < 1.0;
      StuckForever(rn, m, d, m / d + 1);
      assert Division(rn, m, d).Unfinished?;
    }
    NoSlack(d);
  }

  lemma {:induction false} NoSlack(d: nat)
    ensures d < TWO50 - 1 ==> Slack(d) == 0
  {
  }

  /** A division by d that leaves more than the slack ends; for a divisor below 2^50 - 1, any that leaves something. */
  lemma {:induction false} EndsUnlessMultiple(rn: real -> real, n: nat, d: nat)
    requires Rounding(rn) && d > 0 && n % d > Slack(d)
    ensures !Division(rn, n, d).Unfinished?
  {
    hide Rounding, Approx, Run, Times, Slack;
    SlackIsLess(d);
    forall m: nat | m <= n && Congruent(m, n, d) ensures !Stuck(rn, m, d) {
      if Stuck(rn, m, d) {
        StuckNearDivisor(rn, m, d);
        var k: nat :| n == m + Times(k, d);
        TimesNext(k, d);
        RemainderIs(n, d, k + 1, m - d);
      }
    }
    RunEnds(rn, n, d, n / d + 1);
  }

  lemma {:induction false} SlackIsLess(d: nat)
    requires d > 0
    ensures Slack(d) < d
  {
  }

  lemma {:induction false} RemainderIs(n: nat, d: nat, q: nat, r: nat)
    requires r < d && n == Times(q, d) + r
    ensures n % d == r
  {
    QuotientIs(n, d, q, r);
  }

  // ----- inputs that do not come out as they should -----

  /** 2^63 + 2^14 fits 64 bits, and divided by one it is reported as too large, however the estimate is rounded. */
  lemma {:induction false} SignedLimitReported(rn: real -> real, passes: nat)
    requires Rounding(rn) && passes > 0
    ensures Run(rn, 0x8000_0000_0000_4000, 1, passes) == Overflow && 0x8000_0000_0000_4000 < TWO64
  {
    hide Rounding, Approx, Run;
    OverflowReported(rn, 0x8000_0000_0000_4000, 1, passes);
  }

  /** 2^63 + 4096 is a double itself; where doubles are not rounded it is reported as well. */
  lemma {:induction false} SignedLimitExact(rn: real -> real, passes: nat)
    requires Rounding(rn) && passes > 0
    requires rn(1.0) == 1.0 && rn(9223372036854779904.0) == 9223372036854779904.0
    ensures Run(rn, 0x8000_0000_0000_1000, 1, passes) == Overflow
  {
    RoundedAt(rn, 0.0);
    assert rn(0.0) == 0.0;
    assert AsDouble(rn, 0x8000_0000_0000_1000) == 9223372036854779904.0;
    assert Reciprocal(rn, 1) == 1.0;
  }

  /** The double nearest to 1/49, and the double nearest to 49 times that. */
  const RECIPROCAL_49 := 5882252574524729.0 / 288230376151711744.0
  const BELOW_ONE := 9007199254740991.0 / 9007199254740992.0

  /** In units of 2^-58 and 2^-53, the spacing of the doubles there, no other multiple is nearer. */
  lemma {:induction false} NearestDoubles(m: int)
    ensures var (a, b) := (m as real / 288230376151711744.0, m as real / 9007199254740992.0);
            && Distance(RECIPROCAL_49, 1.0 / 49.0) <= Distance(a, 1.0 / 49.0)
            && Distance(BELOW_ONE, 49.0 * RECIPROCAL_49) <= Distance(b, 49.0 * RECIPROCAL_49)
  {
    assert m <= 5882252574524728 || m == 5882252574524729 || m >= 5882252574524730;
    assert m <= 9007199254740990 || m == 9007199254740991 || m >= 9007199254740992;
  }

  function Distance(a: real, b: real): real {
    if a <= b then b - a else a - b
  }

  /** 49 times 1, divided by 49: the estimate is below one, and the loop never ends. */
  lemma {:induction false} FortyNineNeverEnds(rn: real -> real, passes: nat)
    requires Rounding(rn) && rn(49.0) == 49.0
    requires rn(1.0 / 49.0) == RECIPROCAL_49 && rn(49.0 * RECIPROCAL_49) == BELOW_ONE
    ensures Run(rn, 49, 49, passes) == Unfinished
  {
    RoundedAt(rn, 0.0);
    assert rn(0.0) == 0.0;
    assert AsDouble(rn, 49) == 49.0;
    assert Reciprocal(rn, 49) == RECIPROCAL_49;
    StuckForever(rn, 49, 49, passes);
  }

  // ----- muldiv128 -----

  lemma {:induction false} ResultFits(rn: real -> real, n: nat, d: nat, passes: nat)
    requires Rounding(rn) && d > 0
    ensures var o := Run(rn, n, d, passes);
            o.Done? ==> o.result == n / d < TWO64
  {
    hide Rounding, Approx, Taken;
    RunDivides(rn, n, d, passes);
    OverflowReported(rn, n, d, passes);
    if n < d {
      TimesNext(0, d);
      QuotientIs(n, d, 0, n);
    }
  }

  lemma {:induction false} EstimateIs64(rn: real -> real, n: nat, d: nat)
    requires Rounding(rn) && d > 0 && Approx(rn, n, d) <= SIGNED_LIMIT as real
    ensures Floor(Approx(rn, n, d)) < TWO64
  {
    hide Rounding, Approx;
  }

  lemma {:induction false} PlusTwice(j: nat, k: nat, o: Outcome)
    ensures Plus(j, Plus(k, o)) == Plus(j + k, o) && Plus(0, o) == o
  {
  }

  /**
   muldiv128 with at most `passes` passes of its outer loop, for every way of rounding.  A normal exit
   returns the floor of x * y / divisor.  Dividing by zero, the estimate is infinite unless x * y is
   zero; then the loop goes on for ever.
   */
  method MulDiv128(x: U64, y: U64, divisor: U64, rn: real -> real, passes: nat) returns (o: Outcome)
    requires Rounding(rn)
    ensures divisor > 0 ==> o == Run(rn, Times(x, y), divisor, passes)
    ensures o.Done? ==> divisor > 0 && o.result == Quotient(x, y, divisor) < TWO64
    ensures divisor > 0 && passes > 0 ==>
              (o.Overflow? <==> Times(x, y) >= divisor && Approx(rn, Times(x, y), divisor) > SIGNED_LIMIT as real)
    ensures divisor == 0 ==> !o.Done? && (o.Overflow? <==> Times(x, y) > 0 && passes > 0)
  {
    hide Times, Corrected, Low64, Rounding, Approx, Floor;
    LowOfZero();
    var temp := Mul64x64(x, y);
    TimesIs(x, y);
    ghost var n := Times(x, y);
    var result: U64 := 0;
    ghost var total: nat := 0;
    TimesNext(0, divisor);
    if divisor > 0 {
      PlusTwice(0, 0, Run(rn, n, divisor, passes));
      ResultFits(rn, n, divisor, passes);
      if passes > 0 {
        OverflowExactly(rn, n, divisor, passes);
      }
    }
    var i := 0;
    while temp.high != 0 || temp.low >= divisor
      invariant 0 <= i <= passes && result == Low64(total)
      invariant divisor > 0 ==> Run(rn, n, divisor, passes) == Plus(total, Run(rn, Value(temp), divisor, passes - i))
      invariant divisor == 0 ==> Value(temp) == n && i == 0
      decreases passes - i
    {
      if i == passes {
        return Unfinished;
      }
      if divisor == 0 {
        return if temp.high != 0 || temp.low != 0 then Overflow else Unfinished;
      }
      var approx := Approx(rn, Value(temp), divisor);
      if approx > SIGNED_LIMIT as real {
        return Overflow;
      }
      EstimateIs64(rn, Value(temp), divisor);
      var u, backmul := Correct(temp, divisor, Floor(approx));
      PlusTwice(total, u, Run(rn, Value(temp) - Times(u, divisor), divisor, passes - i - 1));
      temp := Sub128(temp, backmul);
      WrapSum(total, u, result);
      total := total + u;
      result := Wrap(result + u);
      i := i + 1;
    }
    SmallIsItself(total);
    return Done(result);
  }

  lemma {:induction false} SmallIsItself(v: nat)
    ensures v < TWO64 ==> Low64(v) == v
  {
  }

  lemma {:induction false} WrapSum(total: nat, u: U64, result: U64)
    requires result == Low64(total)
    ensures Wrap(result + u) == Low64(total + u)
  {
  }
}
