/**
  Ticks, nanoseconds and microseconds (kernel/time/utlis.c, kernel/time/time.c): long division
  and multiplication one decimal digit at a time.  `base` is time_base, ticks per second.
 */
module TimeConv {
  import opened Arith

  const NANO: nat := 9
  const MICRO: nat := 6
  const WORD64: nat := 0x1_0000_0000_0000_0000
  const WORD32: nat := 0x1_0000_0000

  function Pow10(k: nat): (p: nat)
    ensures p > 0
  {
    if k == 0 then 1 else 10 * Pow10(k - 1)
  }

  lemma Powers()
    ensures Pow10(MICRO) == 1_000_000 && Pow10(NANO) == 1_000_000_000
  {
    assert Pow10(3) == 1000;
    assert Pow10(6) == 1_000_000;
  }

  /** frac and rem are quotient and remainder of left * p by base. */
  ghost predicate Divided(left: nat, base: nat, p: nat, frac: nat, rem: nat) {
    rem < base && left * p == frac * base + rem
  }

  function NextDigit(base: nat, frac: nat, rem: nat): nat
    requires base > 0
  {
    10 * frac + rem * 10 / base
  }

  lemma DigitStep(left: nat, base: nat, p: nat, frac: nat, rem: nat)
    requires Divided(left, base, p, frac, rem)
    ensures Divided(left, base, 10 * p, NextDigit(base, frac, rem), rem * 10 % base)
  {
    assert rem * 10 == rem * 10 / base * base + rem * 10 % base;
    assert left * (10 * p) == 10 * (left * p);
    assert (10 * frac + rem * 10 / base) * base == 10 * (frac * base) + rem * 10 / base * base;
  }

  lemma DigitsDone(left: nat, base: nat, p: nat, frac: nat, rem: nat)
    requires left < base && Divided(left, base, p, frac, rem)
    ensures frac == left * p / base && (p > 0 ==> frac < p)
  {
    DivUnique(left * p, base, frac, rem);
    MulMono(left + 1, base, p);
    MulAdd(left, 1, p);
    if frac >= p { MulMono(p, frac, base); }
  }

  /** The loop of ticks_to_timespec and tick_to_timeval: k decimal digits of left / base. */
  method Fraction(left: nat, base: nat, k: nat) returns (frac: nat)
    requires 0 < base < WORD32 && left < base
    ensures frac == left * Pow10(k) / base < Pow10(k)
  {
    frac := 0;
    var rem: nat := left;
    assert Divided(left, base, Pow10(0), frac, rem);
    hide Divided, NextDigit;
    for i := 0 to k
      invariant Divided(left, base, Pow10(i), frac, rem)
    {
      DigitStep(left, base, Pow10(i), frac, rem);
      frac := NextDigit(base, frac, rem);
      rem := rem * 10 % base;
    }
    DigitsDone(left, base, Pow10(k), frac, rem);
  }

  /** A floor inside a floor can be dropped. */
  lemma NestedFloor(x: nat, m: nat, n: nat)
    requires m > 0
    ensures (x / m + n) / 10 == (x + n * m) / (10 * m)
  {
    var q, r := x / m, x % m;
    var a, b := (q + n) / 10, (q + n) % 10;
    assert x == q * m + r;
    Split(x + n * m, q, n, m, r, a, b);
  }

  lemma Split(y: nat, q: nat, n: nat, m: nat, r: nat, a: nat, b: nat)
    requires r < m && b < 10 && q + n == 10 * a + b && y == q * m + r + n * m
    ensures y / (10 * m) == a
  {
    MulAdd(q, n, m);
    MulTen(a, b, m);
    MulMono(b, 9, m);
    DivUnique(y, 10 * m, a, b * m + r);
  }

  lemma LowDigits(n: nat, p: nat)
    requires p > 0
    ensures n % (10 * p) == n / p % 10 * p + n % p
  {
    var q, r := n / p, n % p;
    var a, b := q / 10, q % 10;
    assert n == q * p + r && q == 10 * a + b;
    assert (10 * a + b) * p == a * (10 * p) + b * p;
    MulMono(b, 9, p);
    DivUnique(n, 10 * p, a, b * p + r);
  }

  lemma DivTen(n: nat, p: nat)
    requires p > 0
    ensures n / p / 10 == n / (10 * p)
  {
    NestedFloor(n, p, 0);
  }

  /** The loop of timespec_to_ticks and timeval_to_tick, over the last k digits of frac. */
  method Ticks(frac: nat, base: nat, k: nat) returns (t: nat)
    requires base < WORD32
    ensures t == base * (frac % Pow10(k)) / Pow10(k)
  {
    t := 0;
    var rest := frac;
    for i := 0 to k
      invariant rest == frac / Pow10(i) && t == base * (frac % Pow10(i)) / Pow10(i)
    {
      var p := Pow10(i);
      DivTen(frac, p);
      LowDigits(frac, p);
      NestedFloor(base * (frac % p), p, base * (rest % 10));
      Distribute(base, frac % p, rest % 10, p);
      t := t + base * (rest % 10);
      t := t / 10;
      rest := rest / 10;
    }
  }

  lemma Distribute(base: nat, x: nat, d: nat, p: nat)
    ensures base * x + base * d * p == base * (d * p + x)
  {
  }

  // ----- The conversions

  /** ticks_to_timespec and tick_to_timeval, with k == NANO and k == MICRO. */
  method FromTicks(time: nat, base: nat, k: nat) returns (sec: nat, frac: nat)
    requires 0 < base < WORD32
    ensures sec == time / base && frac == Frac(time % base, base, Pow10(k)) < Pow10(k)
  {
    sec := time / base;
    frac := Fraction(time % base, base, k);
  }

  /** timespec_to_ticks and timeval_to_tick; only the last k digits of the fraction count, in 64 bits. */
  method ToTicks(sec: nat, frac: nat, base: nat, k: nat) returns (t: nat)
    requires base < WORD32
    ensures t == (Unfrac(frac % Pow10(k), base, Pow10(k)) + sec * base) % WORD64
  {
    t := Ticks(frac, base, k);
    t := (t + sec * base) % WORD64;
  }

  /** left / base in units of 1 / p, rounded down. */
  function Frac(left: nat, base: nat, p: nat): nat
    requires base > 0
  {
    left * p / base
  }

  /** base * frac / p, rounded down. */
  function Unfrac(frac: nat, base: nat, p: nat): nat
    requires p > 0
  {
    base * frac / p
  }

  /** What comes back of `left` ticks after rounding down twice. */
  function Back(left: nat, base: nat, p: nat): nat
    requires base > 0 && p > 0
  {
    Unfrac(Frac(left, base, p), base, p)
  }

  /** Rounding down never gains, and loses less than base / p + 1 ticks. */
  lemma BackBounds(left: nat, base: nat, p: nat)
    requires base > 0 && p > 0
    ensures Back(left, base, p) <= left && (left - Back(left, base, p)) * p < base + p
  {
    var n, r := left * p / base, left * p % base;
    var b, s := base * n / p, base * n % p;
    assert left * p == n * base + r;
    assert base * n == b * p + s;
    assert (left - b) * p == r + s;
    if b > left { MulMono(1, b - left, p); }
  }

  /** Nothing is lost when the ticks divide the unit. */
  lemma BackExact(left: nat, base: nat, p: nat)
    requires base > 0 && p > 0 && p % base == 0
    ensures Back(left, base, p) == left
  {
    var m := p / base;
    assert p == m * base;
    MulSwap(left, m, base);
    DivUnique(left * p, base, left * m, 0);
    MulSwap2(base, left, m);
    DivUnique(base * (left * m), p, left, 0);
  }

  lemma MulSwap(a: nat, b: nat, c: nat)
    ensures a * (b * c) == a * b * c
  {
  }

  lemma MulSwap2(a: nat, b: nat, c: nat)
    ensures a * (b * c) == b * (c * a)
  {
  }

  /** The two conversions one after the other. */
  function RoundTrip(time: nat, base: nat, p: nat): nat
    requires base > 0 && p > 0
  {
    (Unfrac(Frac(time % base, base, p) % p, base, p) + time / base * base) % WORD64
  }

  lemma RoundTripIs(time: nat, base: nat, p: nat)
    requires base > 0 && p > 0 && time < WORD64 && Frac(time % base, base, p) < p
    ensures RoundTrip(time, base, p) == time - (time % base - Back(time % base, base, p))
  {
    BackBounds(time % base, base, p);
    hide Frac, Unfrac;
    ModSmall(Frac(time % base, base, p), p);
    Whole(time, base, Back(time % base, base, p));
  }

  lemma Whole(time: nat, base: nat, back: nat)
    requires base > 0 && time < WORD64 && back <= time % base
    ensures (back + time / base * base) % WORD64 == time - (time % base - back)
  {
    var whole := time / base * base;
    assert time == whole + time % base;
    ModSmall(back + whole, WORD64);
  }

  lemma ModSmall(x: nat, n: nat)
    requires x < n
    ensures x % n == x
  {
    DivUnique(x, n, 0, x);
  }

  /**
    Ticks to timespec and back: never later, at most one tick earlier for a base up to 10^9, and
    exact for a base that divides 10^9.
   */
  method NanoRoundTrip(time: nat, base: nat) returns (t: nat)
    requires 0 < base < WORD32 && time < WORD64
    ensures t <= time && (time - t) * 1_000_000_000 < base + 1_000_000_000
    ensures base <= 1_000_000_000 ==> time - t <= 1
    ensures 1_000_000_000 % base == 0 ==> t == time
  {
    var sec, nsec := FromTicks(time, base, NANO);
    t := ToTicks(sec, nsec, base, NANO);
    Powers();
    ghost var p := Pow10(NANO);
    RoundTripIs(time, base, p);
    BackBounds(time % base, base, p);
    if p % base == 0 { BackExact(time % base, base, p); }
    hide Pow10, Back, Frac, Unfrac;
    assert t == RoundTrip(time, base, p);
  }

  /** Ticks to timeval and back: never later, and earlier by less than base / 10^6 + 1 ticks. */
  method MicroRoundTrip(time: nat, base: nat) returns (t: nat)
    requires 0 < base < WORD32 && time < WORD64
    ensures t <= time && (time - t) * 1_000_000 < base + 1_000_000
  {
    var sec, usec := FromTicks(time, base, MICRO);
    t := ToTicks(sec, usec, base, MICRO);
    Powers();
    ghost var p := Pow10(MICRO);
    RoundTripIs(time, base, p);
    BackBounds(time % base, base, p);
    hide Pow10, Back, Frac, Unfrac;
    assert t == RoundTrip(time, base, p);
  }
}
