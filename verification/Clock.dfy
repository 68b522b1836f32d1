/**
 Rational frame rates and the playout cursor (mixer/src/clock.rs).

 Media time is counted in ticks of 100 ns. Instants are integers: nanoseconds after the epoch of
 the shared media clock, negative for an instant before it.
 */
module Clock {
  import opened Arithmetic

  const TICKS_PER_SEC: int := 10_000_000
  const I64_MIN: int := -0x8000_0000_0000_0000
  const U64_MAX: int := 0xFFFF_FFFF_FFFF_FFFF
  const I64_MAX: int := 0x7FFF_FFFF_FFFF_FFFF

  /** An `as i64` cast. */
  function WrapI64(x: int): (wrapped: int)
    ensures -0x8000_0000_0000_0000 <= wrapped <= 0x7FFF_FFFF_FFFF_FFFF
    ensures (x - wrapped) % 0x1_0000_0000_0000_0000 == 0
    ensures I64_MIN <= x <= I64_MAX ==> wrapped == x
  {
    WrapIsCongruent(x);
    (x - I64_MIN) % (U64_MAX + 1) + I64_MIN
  }

  lemma WrapIsCongruent(x: int)
    ensures (x - ((x - I64_MIN) % (U64_MAX + 1) + I64_MIN)) % (U64_MAX + 1) == 0
  {
    var (m, y) := (U64_MAX + 1, x - I64_MIN);
    assert y - y % m == y / m * m;
    DivShift(0, m, y / m);
  }

  /** Ticks of an instant; `saturating_duration_since` reads 0 before the epoch. */
  function Ticks(now: int): nat {
    Max(now, 0) / 100
  }

  /** `duration_from_ticks`, in nanoseconds. */
  function DurationFromTicks(ticks: int): int {
    Min(Max(ticks, 0) * 100, U64_MAX)
  }

  datatype Rate = Rate(num: nat, den: nat) {
    /** The range that `Rate::new` lets through. */
    predicate Valid() {
      1 <= num <= 240_000 && 1 <= den <= 100_000
    }

    /** Ticks spanned by `num` frames. */
    function Span(): int {
      den * TICKS_PER_SEC
    }

    function IntervalTicks(): int {
      Span() / Max(num, 1)
    }

    /** Start of slot `idx` before the cast to `i64`. */
    function Start(idx: nat): int {
      (idx * TICKS_PER_SEC * den) / Max(num, 1)
    }

    function Pts(idx: nat): int {
      WrapI64(Start(idx))
    }

    /** `deadline`, in nanoseconds after the epoch. */
    function Deadline(idx: nat): int {
      DurationFromTicks(Pts(idx))
    }

    /** The last slot that has started by tick `t`; slot 0 before the epoch. */
    function SlotAt(t: int): (slot: nat)
      requires Valid()
    {
      if t <= 0 then 0
      else
        MulMono(1, t + 1, num);
        ((t + 1) * num - 1) / Span()
    }
  }

  // ----- slots and their start times -----

  lemma StartForm(r: Rate, k: nat)
    requires r.Valid()
    ensures r.Start(k) == k * r.Span() / r.num
  {
    assert k * TICKS_PER_SEC * r.den == k * (r.den * TICKS_PER_SEC);
  }

  /** `frames_elapsed` is the exact adjoint of `pts`. */
  lemma Adjoint(r: Rate, k: nat, t: int)
    requires r.Valid() && 0 <= t
    ensures r.Start(k) <= t <==> k <= r.SlotAt(t)
  {
    StartForm(r, k);
    DivAtMost(k * r.Span(), r.num, t);
    DivAtLeast((t + 1) * r.num - 1, r.Span(), k);
    if t == 0 {
      DivAtLeast(r.num - 1, r.Span(), 1);
    }
  }

  /** Neighbouring slots are `interval_ticks` or one tick more apart. */
  lemma SlotSpacing(r: Rate, k: nat)
    requires r.Valid()
    ensures r.IntervalTicks() <= r.Start(k + 1) - r.Start(k) <= r.IntervalTicks() + 1
    ensures 41 <= r.IntervalTicks()
  {
    StartForm(r, k);
    StartForm(r, k + 1);
    var (d, n) := (r.Span(), r.num);
    var (q, i) := (k * d / n, d / n);
    assert (k + 1) * d == k * d + d;
    assert k * d == q * n + k * d % n && d == i * n + d % n;
    assert (q + i) * n == q * n + i * n;
    assert (q + i + 2) * n == q * n + i * n + 2 * n;
    DivAtLeast(k * d + d, n, q + i);
    DivAtMost(k * d + d, n, q + i + 1);
    DivAtLeast(d, n, 41);
  }

  lemma {:induction false} StartMonotone(r: Rate, j: nat, k: nat)
    requires r.Valid() && j <= k
    ensures r.Start(k) - r.Start(j) >= 41 * (k - j)
    decreases k
  {
    if j < k {
      StartMonotone(r, j, k - 1);
      SlotSpacing(r, k - 1);
    }
  }

  lemma StartAtZero(r: Rate)
    requires r.Valid()
    ensures r.Start(0) == 0
  {
    StartForm(r, 0);
    DivAtMost(0, r.num, 0);
    DivAtLeast(0, r.num, 0);
  }

  lemma StartFromZero(r: Rate, k: nat)
    requires r.Valid()
    ensures r.Start(0) == 0 && 41 * k <= r.Start(k)
  {
    StartAtZero(r);
    StartMonotone(r, 0, k);
  }

  /** Slot `k` never drifts a whole tick from the exact rational time `k * den / num` seconds. */
  lemma NoDrift(r: Rate, k: nat)
    requires r.Valid()
    ensures 0 <= k * r.den * 10_000_000 - r.Start(k) * r.num < r.num
  {
    StartForm(r, k);
    assert k * r.den * 10_000_000 == k * (r.den * TICKS_PER_SEC);
    assert k * r.Span() == r.Start(k) * r.num + k * r.Span() % r.num;
  }

  /** The running slot has started and the next one has not. */
  lemma RunsAt(r: Rate, t: int)
    requires r.Valid()
    ensures 0 <= t ==> r.Start(r.SlotAt(t)) <= t < r.Start(r.SlotAt(t) + 1)
    ensures t <= 0 ==> r.SlotAt(t) == 0
  {
    if 0 <= t {
      Adjoint(r, r.SlotAt(t), t);
      Adjoint(r, r.SlotAt(t) + 1, t);
    }
  }

  /** It is the only such slot. */
  lemma OnlyRunningSlot(r: Rate, t: int, k: nat)
    requires r.Valid() && 0 <= t && r.Start(k) <= t < r.Start(k + 1)
    ensures r.SlotAt(t) == k
  {
    Adjoint(r, k, t);
    Adjoint(r, k + 1, t);
  }

  lemma SlotMonotone(r: Rate, s: int, t: int)
    requires r.Valid() && s <= t
    ensures r.SlotAt(s) <= r.SlotAt(t)
  {
    if 0 < s {
      Adjoint(r, r.SlotAt(s), s);
      Adjoint(r, r.SlotAt(s), t);
    }
  }

  /** The first guess of `frames_elapsed` is the answer or one below it. */
  lemma FirstGuess(r: Rate, t: int)
    requires r.Valid() && 0 < t
    ensures 0 <= t * r.num / r.Span() <= r.SlotAt(t) <= t * r.num / r.Span() + 1
  {
    var d := r.Span();
    var g := t * r.num / d;
    MulMono(0, t, r.num);
    assert (t + 1) * r.num == t * r.num + r.num;
    assert t * r.num == g * d + t * r.num % d;
    assert (g + 2) * d == g * d + 2 * d;
    DivAtLeast(t * r.num + r.num - 1, d, g);
    DivAtMost(t * r.num + r.num - 1, d, g + 1);
  }

  /** A start time that fits an `i64` survives the cast; in nanoseconds it saturates after 584 years. */
  lemma Fits(r: Rate, k: nat)
    requires r.Valid() && r.Start(k) <= I64_MAX
    ensures r.Pts(k) == r.Start(k) && r.Deadline(k) == Min(r.Start(k) * 100, U64_MAX)
    ensures k < U64_MAX
  {
    StartFromZero(r, k);
  }

  lemma IntervalAtMostSpan(r: Rate)
    requires r.Valid()
    ensures r.IntervalTicks() <= r.Span()
  {
    MulMono(1, r.num, r.Span() + 1);
    DivAtMost(r.Span(), r.num, r.Span());
  }

  /** The slot after the running one starts at a time that an `i64` can hold. */
  predicate InRange(r: Rate, t: int)
    requires r.Valid()
  {
    r.Start(r.SlotAt(t) + 1) <= I64_MAX
  }

  /** The limit lies within one period of the largest `i64`, about 29,000 years. */
  lemma InRangeUpTo(r: Rate, t: int)
    requires r.Valid() && 0 <= t <= I64_MAX - r.Span() - 1
    ensures InRange(r, t)
  {
    Adjoint(r, r.SlotAt(t), t);
    SlotSpacing(r, r.SlotAt(t));
    IntervalAtMostSpan(r);
  }

  /** At the right slot the correction loop stops if and only if the next start time fits an `i64`. */
  lemma LoopStopsIff(r: Rate, t: int)
    requires r.Valid() && 0 < t <= I64_MAX
    ensures t < r.Pts(r.SlotAt(t) + 1) <==> InRange(r, t)
  {
    var k := r.SlotAt(t);
    Adjoint(r, k, t);
    Adjoint(r, k + 1, t);
    StartFromZero(r, k + 1);
    SlotSpacing(r, k);
    IntervalAtMostSpan(r);
  }

  method FramesElapsed(r: Rate, elapsed: nat) returns (idx: nat)
    requires r.Valid() && InRange(r, WrapI64(elapsed / 100))
    ensures idx == r.SlotAt(WrapI64(elapsed / 100))
    ensures WrapI64(elapsed / 100) <= 0 ==> idx == 0
    ensures 0 <= WrapI64(elapsed / 100) ==> r.Start(idx) <= WrapI64(elapsed / 100) < r.Start(idx + 1)
  {
    RunsAt(r, WrapI64(elapsed / 100));
    var ticks := WrapI64(elapsed / 100);
    if ticks <= 0 {
      return 0;
    }
    FirstGuess(r, ticks);
    idx := (ticks * r.num) / (Max(r.den, 1) * TICKS_PER_SEC);
    ghost var guess := idx;
    PtsUpToNext(r, idx + 1, ticks);
    while r.Pts(idx + 1) <= ticks
      invariant guess <= idx <= guess + 1 && idx <= r.SlotAt(ticks)
      invariant r.Pts(idx + 1) == r.Start(idx + 1)
      decreases r.SlotAt(ticks) - idx
    {
      Adjoint(r, idx + 1, ticks);
      idx := idx + 1;
      PtsUpToNext(r, idx + 1, ticks);
    }
    Adjoint(r, idx + 1, ticks);
  }

  lemma PtsUpToNext(r: Rate, k: nat, t: int)
    requires r.Valid() && InRange(r, t) && k <= r.SlotAt(t) + 1
    ensures r.Pts(k) == r.Start(k)
  {
    StartMonotone(r, k, r.SlotAt(t) + 1);
    Fits(r, k);
  }

  // ----- building a rate -----

  datatype Result<T> = Ok(value: T) | Err(error: string)

  predicate Divides(d: nat, n: nat)
    requires 0 < d
  {
    n % d == 0
  }

  ghost predicate IsGcd(g: nat, a: nat, b: nat) {
    0 < g && Divides(g, a) && Divides(g, b) &&
    forall d: nat :: 0 < d && Divides(d, a) && Divides(d, b) ==> Divides(d, g)
  }

  lemma DividesSum(d: nat, a: int, k: int, b: int)
    requires 0 < d && a % d == 0 && b % d == 0
    ensures (a + k * b) % d == 0
  {
    var (p, q) := (a / d, b / d);
    assert a == p * d && b == q * d;
    assert k * (q * d) == (k * q) * d;
    DivShift(a, d, k * q);
  }

  /** One Euclidean step keeps the common divisors. */
  lemma EuclidStep(a: nat, b: nat, d: nat)
    requires 0 < b && 0 < d
    ensures Divides(d, a) && Divides(d, b) <==> Divides(d, b) && Divides(d, a % b)
  {
    assert a == a / b * b + a % b;
    if Divides(d, a) && Divides(d, b) {
      DividesSum(d, a, -(a / b), b);
      assert a % b == a + -(a / b) * b;
    }
    if Divides(d, b) && Divides(d, a % b) {
      DividesSum(d, a % b, a / b, b);
    }
  }

  method Gcd(x: nat, y: nat) returns (g: nat)
    ensures if x == 0 && y == 0 then g == 1 else IsGcd(g, x, y)
  {
    var a: nat, b: nat := x, y;
    while b != 0
      invariant a == 0 && b == 0 <==> x == 0 && y == 0
      invariant forall d: nat :: 0 < d ==>
        (Divides(d, x) && Divides(d, y) <==> Divides(d, a) && Divides(d, b))
      decreases b
    {
      forall d: nat | 0 < d
        ensures Divides(d, a) && Divides(d, b) <==> Divides(d, b) && Divides(d, a % b)
      {
        EuclidStep(a, b, d);
      }
      var r := a % b;
      a := b;
      b := r;
    }
    assert a != 0 ==> Divides(a, a) && Divides(a, 0);
    g := Max(a, 1);
  }

  /** `Rate::new`: rejects what is out of range and keeps the frame times of what it accepts. */
  method NewRate(num: nat, den: nat) returns (res: Result<Rate>)
    ensures res.Ok? <==> 1 <= num <= 240_000 && 1 <= den <= 100_000
    ensures res.Ok? ==> res.value.Valid() && IsGcd(1, res.value.num, res.value.den)
    ensures res.Ok? ==> forall k: nat :: res.value.Start(k) == Rate(num, den).Start(k)
  {
    if num == 0 || den == 0 {
      return Err("frame rate numerator and denominator must be non-zero");
    }
    if num > 240_000 || den > 100_000 {
      return Err("frame rate is outside the supported range");
    }
    var g := Gcd(num, den);
    var rate := Rate(num / g, den / g);
    ReducedIsCoprime(num, den, g);
    SlotSpacing(rate, 0);
    if rate.IntervalTicks() <= 0 {
      return Err("frame period is zero");
    }
    forall k: nat
      ensures rate.Start(k) == Rate(num, den).Start(k)
    {
      ReducedKeepsStart(num, den, g, k);
    }
    res := Ok(rate);
  }

  /** A common divisor of the reduced pair, times the factor taken out, divides the pair. */
  lemma ProductDivides(p: nat, d: nat, g: nat)
    requires 0 < d && 0 < g && Divides(d, p)
    ensures 0 < d * g && Divides(d * g, p * g)
  {
    MulMono(1, d, g);
    var q := p / d;
    assert p == q * d;
    assert p * g == q * (d * g) by {
      assert (q * d) * g == q * (d * g);
    }
    DivShift(0, d * g, q);
  }

  /** Nothing larger than one multiplies a number into a divisor of itself. */
  lemma OnlyOneFits(d: nat, g: nat)
    requires 0 < d && 0 < g && 0 < d * g && Divides(d * g, g)
    ensures d == 1
  {
    if 2 <= d {
      MulMono(2, d, g);
      DivAtMost(g, d * g, 0);
      assert false;
    }
  }

  lemma ReducedIsCoprime(num: nat, den: nat, g: nat)
    requires 0 < num && 0 < den && IsGcd(g, num, den)
    ensures 1 <= num / g <= num && 1 <= den / g <= den
    ensures IsGcd(1, num / g, den / g)
  {
    ReducedBounds(num, g);
    ReducedBounds(den, g);
    var (p, q) := (num / g, den / g);
    forall d: nat | 0 < d && Divides(d, p) && Divides(d, q)
      ensures Divides(d, 1)
    {
      ProductDivides(p, d, g);
      ProductDivides(q, d, g);
      OnlyOneFits(d, g);
    }
  }

  lemma ReducedBounds(n: nat, g: nat)
    requires 0 < n && 0 < g && Divides(g, n)
    ensures n == n / g * g && 1 <= n / g <= n
  {
    MulMono(1, g, n / g);
  }

  /** A common factor cancels from a floor quotient. */
  lemma QuotientCancels(a: nat, p: nat, g: nat)
    requires 0 < p && 0 < g
    ensures 0 < p * g && (a * g) / (p * g) == a / p
  {
    var (s, rem) := (a / p, a % p);
    MulMono(1, p, g);
    assert a * g == (s * p + rem) * g == s * (p * g) + rem * g;
    MulMono(0, rem, g);
    MulMono(rem + 1, p, g);
    assert (rem + 1) * g == rem * g + g;
    assert (s + 1) * (p * g) == s * (p * g) + p * g;
    DivAtLeast(a * g, p * g, s);
    DivAtMost(a * g, p * g, s);
  }

  lemma ReducedKeepsStart(num: nat, den: nat, g: nat, k: nat)
    requires 0 < num && IsGcd(g, num, den) && 0 < num / g
    ensures Rate(num / g, den / g).Start(k) == Rate(num, den).Start(k)
  {
    var (p, q) := (num / g, den / g);
    assert num == p * g && den == q * g;
    assert k * TICKS_PER_SEC * den == k * TICKS_PER_SEC * q * g;
    QuotientCancels(k * TICKS_PER_SEC * q, p, g);
  }
}
