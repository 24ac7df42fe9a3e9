/**
 `Math.ceil(Math.log2(n))` over doubles. The logarithm is taken as the double nearest to the exact one; ECMA-262
 leaves the approximation to the engine. What that rounding does is told apart by powers of rational numbers, so that
 no logarithm is needed to say it.
 */
module Log2 {
  import opened Wire

  function Pow2(k: nat): (r: nat)
    ensures r > 0
  {
    if k == 0 then 1 else 2 * Pow2(k - 1)
  }

  ghost predicate IsPowerOf2(n: nat) { exists k: nat :: Pow2(k) == n }

  function Power(x: real, m: nat): real { if m == 0 then 1.0 else x * Power(x, m - 1) }

  function FloorLog2(n: nat): nat
    requires n > 0
  {
    if n == 1 then 0 else 1 + FloorLog2(n / 2)
  }

  /**
   From `2^e` up to `2^(e+1)` the doubles are `2^(e-52)` apart. So a logarithm between `k` and the next integer, with
   `e` the floor of the logarithm of `k`, is rounded down to `k` itself if it is less than `2^(e-53)` above it: if
   `n / 2^k` to the power of `2^(53-e)` is less than two.
   */
  function Scale(k: nat): nat
    requires k > 0
  {
    Pow2(if FloorLog2(k) <= 53 then 53 - FloorLog2(k) else 0)
  }

  predicate RoundsDown(n: nat, k: nat) {
    k > 0 && Power(n as real / Pow2(k) as real, Scale(k)) < 2.0
  }

  function CeilLog2(n: nat): nat
    requires n > 0
  {
    var k := FloorLog2(n);
    if n == Pow2(k) || RoundsDown(n, k) then k else k + 1
  }

  /** `Math.pow(2, -Infinity)` is zero. */
  function CeilToPowerOf2(n: nat): nat { if n == 0 then 0 else Pow2(CeilLog2(n)) }

  // ---- Powers of two ----

  lemma {:induction false} Pow2Monotone(j: nat, k: nat)
    requires j <= k
    ensures Pow2(j) <= Pow2(k)
    decreases k
  {
    if j < k {
      Pow2Monotone(j, k - 1);
    }
  }

  lemma {:induction false} Pow2Add(j: nat, k: nat)
    ensures Pow2(j + k) == Pow2(j) * Pow2(k)
    decreases k
  {
    if k > 0 {
      Pow2Add(j, k - 1);
      assert Pow2(j + k) == 2 * Pow2(j + (k - 1));
    }
  }

  lemma {:induction false} FloorLog2Bounds(n: nat)
    requires n > 0
    ensures Pow2(FloorLog2(n)) <= n < 2 * Pow2(FloorLog2(n))
  {
    if n > 1 {
      FloorLog2Bounds(n / 2);
    }
  }

  lemma FloorLog2Is(n: nat, k: nat)
    requires Pow2(k) <= n < 2 * Pow2(k)
    ensures FloorLog2(n) == k
  {
    hide FloorLog2;
    var f := FloorLog2(n);
    if f < k {
      Pow2Monotone(f + 1, k);
    } else if k < f {
      Pow2Monotone(k + 1, f);
    }
    FloorLog2Bounds(n);
  }

  // ---- Powers near one ----

  lemma Scaled(a: real, b: real, c: real)
    requires a >= 0.0 && b <= c
    ensures a * b <= a * c
  {}

  /** Bernoulli's inequality with its second term. */
  lemma {:induction false} PowerFromBelow(x: real, m: nat)
    requires x >= 0.0
    ensures Power(1.0 + x, m) >= 1.0 + m as real * x + (m as real * (m as real - 1.0)) / 2.0 * x * x
  {
    if m > 0 {
      var r := m as real - 1.0;
      PowerFromBelow(x, m - 1);
      StepFromBelow(x, r, Power(1.0 + x, m - 1));
    }
  }

  lemma StepFromBelow(x: real, r: real, p: real)
    requires x >= 0.0 && r >= 0.0 && p >= 1.0 + r * x + (r * (r - 1.0)) / 2.0 * x * x
    requires r >= 1.0 || r == 0.0
    ensures (1.0 + x) * p >= 1.0 + (r + 1.0) * x + ((r + 1.0) * r) / 2.0 * x * x
  {
    var q := 1.0 + r * x + (r * (r - 1.0)) / 2.0 * x * x;
    Scaled(1.0 + x, q, p);
    assert (1.0 + x) * q == 1.0 + (r + 1.0) * x + ((r + 1.0) * r) / 2.0 * x * x + (r * (r - 1.0)) / 2.0 * x * x * x;
    assert (r * (r - 1.0)) / 2.0 * x * x * x >= 0.0;
  }

  /** `p` is at most the inverse of `1 - r * x`. */
  ghost predicate BoundedBy(p: real, r: real, x: real) { p > 0.0 && p * (1.0 - r * x) <= 1.0 }

  lemma {:induction false} PowerFromAbove(x: real, m: nat)
    requires x >= 0.0
    ensures BoundedBy(Power(1.0 + x, m), m as real, x)
  {
    if m > 0 {
      hide BoundedBy;
      PowerFromAbove(x, m - 1);
      StepFromAbove(x, (m - 1) as real, Power(1.0 + x, m - 1));
    }
  }

  lemma StepFromAbove(x: real, r: real, p: real)
    requires x >= 0.0 && r >= 0.0 && BoundedBy(p, r, x)
    ensures BoundedBy((1.0 + x) * p, r + 1.0, x)
  {
    assert (1.0 + x) * (1.0 - (r + 1.0) * x) == 1.0 - r * x - (r + 1.0) * x * x;
    assert (r + 1.0) * x * x >= 0.0;
    assert ((1.0 + x) * p) * (1.0 - (r + 1.0) * x) == p * (1.0 - r * x) - p * ((r + 1.0) * x * x);
    assert p * ((r + 1.0) * x * x) >= 0.0;
  }

  lemma {:induction false} PowerAdd(x: real, j: nat, k: nat)
    ensures Power(x, j + k) == Power(x, j) * Power(x, k)
    decreases j
  {
    if j > 0 {
      PowerAdd(x, j - 1, k);
      assert Power(x, j + k) == x * Power(x, (j - 1) + k);
    }
  }

  /** Doubling the exponent squares the power. */
  lemma Squared(x: real, e: nat, c: real, d: real)
    requires 0.0 <= Power(x, Pow2(e)) <= c && c * c <= d
    ensures 0.0 <= Power(x, Pow2(e + 1)) <= d
  {
    var p := Power(x, Pow2(e));
    PowerAdd(x, Pow2(e), Pow2(e));
    assert 0.0 <= p * p <= c * c;
  }

  // ---- When a logarithm is rounded down ----

  lemma SecondTerm(t: real, x: real)
    requires 0.75 <= t && 0.0 <= x <= 0.01
    ensures (t * t - t * x) / 2.0 >= 0.25
  {
    Scaled(t, 0.75, t);
    Scaled(t, x, 0.01);
  }

  lemma SecondTermIs(r: real, x: real)
    requires (r == 0.0 || r >= 1.0) && x >= 0.0
    ensures var t := r * x; 0.0 <= (r * (r - 1.0)) / 2.0 * x * x == (t * t - t * x) / 2.0
  {}

  /** Above `1 + x` with `m * x` at three quarters, powers are at two. */
  lemma PowerReachesTwo(x: real, m: nat)
    requires x >= 0.0 && (m as real * x >= 1.0 || (m as real * x >= 0.75 && m >= 100))
    ensures Power(1.0 + x, m) >= 2.0
  {
    hide Power;
    PowerFromBelow(x, m);
    SecondTermIs(m as real, x);
    if m as real * x < 1.0 {
      Tiny(x, m);
      SecondTerm(m as real * x, x);
    }
  }

  lemma Pow2Of64(e: nat)
    ensures Pow2(e + 6) == 64 * Pow2(e)
  {
    assert Pow2(6) == 64;
    Pow2Add(e, 6);
  }

  /** With `m * x` at eleven sixteenths they are below, for a large power of two `m`. */
  lemma PowerStaysBelowTwo(x: real, e: nat)
    requires x >= 0.0 && Pow2(e + 6) as real * x <= 0.6875
    ensures Power(1.0 + x, Pow2(e + 6)) < 2.0
  {
    hide Power, Pow2;
    var p := Power(1.0 + x, Pow2(e));
    Pow2Of64(e);
    PowerFromAbove(x, Pow2(e));
    SixtyFourth(p, Pow2(e) as real * x);
    Squared(1.0 + x, e, 1.01086, 1.021838);
    Squared(1.0 + x, e + 1, 1.021838, 1.044153);
    Squared(1.0 + x, e + 2, 1.044153, 1.090256);
    Squared(1.0 + x, e + 3, 1.090256, 1.188659);
    Squared(1.0 + x, e + 4, 1.188659, 1.412911);
    Squared(1.0 + x, e + 5, 1.412911, 1.996318);
  }

  lemma SixtyFourth(p: real, t: real)
    requires p > 0.0 && p * (1.0 - t) <= 1.0 && 64.0 * t <= 0.6875
    ensures p <= 1.01086
  {
    Scaled(p, 1.0 - 0.6875 / 64.0, 1.0 - t);
  }

  lemma ScaleOf(k: nat)
    requires 0 < k <= 52
    ensures Scale(k) >= Pow2(48) && (k >= 32 ==> Scale(k) == Pow2(48))
  {
    assert Pow2(5) == 32;
    if k >= 32 {
      FloorLog2Is(k, 5);
    } else {
      FloorLog2Bounds(k);
      if FloorLog2(k) >= 5 {
        Pow2Monotone(5, FloorLog2(k));
      }
      Pow2Monotone(48, 53 - FloorLog2(k));
    }
  }

  lemma Pow2Of53()
    ensures Pow2(53) == MAX_SAFE + 1
  {
    assert Pow2(13) == 8192;
    Pow2Add(13, 13);
    Pow2Add(26, 26);
    assert Pow2(53) == 2 * Pow2(52);
  }

  lemma SmallExponent(n: nat, k: nat)
    requires Pow2(k) < n <= MAX_SAFE && n < 2 * Pow2(k)
    ensures 0 < k <= 52
  {
    assert Pow2(0) == 1;
    hide Pow2;
    Pow2Of53();
    if k >= 53 {
      Pow2Monotone(53, k);
    }
  }

  lemma Quotient(a: real, b: real)
    requires b > 0.0
    ensures (a / b) * b == a
  {}

  lemma OnePlus(n: nat, p: nat)
    requires p > 0
    ensures n as real / p as real == 1.0 + (n - p) as real / p as real
  {
    Quotient((n - p) as real, p as real);
    Quotient(n as real, p as real);
    SameProduct(n as real / p as real, 1.0 + (n - p) as real / p as real, p as real);
  }

  lemma SameProduct(a: real, b: real, c: real)
    requires c > 0.0 && a * c == b * c
    ensures a == b
  {
    assert (a - b) * c == 0.0;
  }

  lemma FirstOrder(j: nat, p: nat, m: nat)
    requires j > 0 && 0 < p <= m
    ensures j as real / p as real >= 0.0 && m as real * (j as real / p as real) >= 1.0
  {
    var x := j as real / p as real;
    Quotient(j as real, p as real);
    Scaled(x, p as real, m as real);
  }

  lemma SecondOrder(j: nat, m: nat, q: nat)
    requires m > 0 && q > 0
    ensures m * q > 0 && j as real / (m * q) as real >= 0.0
    ensures m as real * (j as real / (m * q) as real) == j as real / q as real
  {
    assert (m * q) as real == m as real * q as real;
  }

  lemma ThirdOrder(j: nat, q: nat)
    requires q > 0 && 4 * j >= 3 * q
    ensures j as real / q as real >= 0.75
  {
    Quotient(j as real, q as real);
  }

  lemma Tiny(x: real, m: nat)
    requires m >= 100 && 0.0 <= x && m as real * x < 1.0
    ensures x <= 0.01
  {
    Scaled(x, 100.0, m as real);
  }

  /** What is less than three quarters of 2, 4, 8 or 16. */
  lemma AtMostElevenSixteenths(j: nat, e: nat)
    requires 0 < e <= 4 && 4 * j < 3 * Pow2(e)
    ensures j as real / Pow2(e) as real <= 0.6875
  {
    assert Pow2(e) == if e == 1 then 2 else if e == 2 then 4 else if e == 3 then 8 else 16;
  }

  lemma LowExponent(n: nat, k: nat)
    requires Pow2(k) < n < 2 * Pow2(k) && 0 < k <= 48
    ensures !RoundsDown(n, k)
  {
    hide Power, Pow2, Scale;
    OnePlus(n, Pow2(k));
    ScaleOf(k);
    Pow2Monotone(k, 48);
    FirstOrder(n - Pow2(k), Pow2(k), Scale(k));
    PowerReachesTwo((n - Pow2(k)) as real / Pow2(k) as real, Scale(k));
  }

  lemma HighExponent(n: nat, k: nat)
    requires Pow2(k) < n < 2 * Pow2(k) && 49 <= k <= 52
    ensures RoundsDown(n, k) <==> 4 * (n - Pow2(k)) < 3 * Pow2(k - 48)
  {
    hide Power, Pow2, Scale;
    var j := n - Pow2(k);
    OnePlus(n, Pow2(k));
    ScaleOf(k);
    Pow2Add(48, k - 48);
    SecondOrder(j, Pow2(48), Pow2(k - 48));
    if 4 * j < 3 * Pow2(k - 48) {
      AtMostElevenSixteenths(j, k - 48);
      PowerStaysBelowTwo(j as real / Pow2(k) as real, 42);
    } else {
      ThirdOrder(j, Pow2(k - 48));
      LargeScale();
      PowerReachesTwo(j as real / Pow2(k) as real, Pow2(48));
    }
  }

  lemma LargeScale()
    ensures Pow2(48) >= 100
  {
    assert Pow2(7) == 128;
    Pow2Monotone(7, 48);
  }

  /** The logarithm of `n` is rounded down to an integer that is less than it. */
  lemma RoundsDownIff(n: nat, k: nat)
    requires Pow2(k) < n < 2 * Pow2(k) && n <= MAX_SAFE
    ensures RoundsDown(n, k) <==> k >= 49 && 4 * (n - Pow2(k)) < 3 * Pow2(k - 48)
  {
    hide RoundsDown, Pow2;
    SmallExponent(n, k);
    if k <= 48 {
      LowExponent(n, k);
    } else {
      HighExponent(n, k);
    }
  }

  // ---- The result ----

  /** Above a power of two of at least `2^49`, by less than three quarters of its `2^48`th part. */
  predicate JustAbovePower(n: nat) {
    n > 0 && var k := FloorLog2(n); n > Pow2(k) && k >= 49 && 4 * (n - Pow2(k)) < 3 * Pow2(k - 48)
  }

  /**
   The result is always a power of two, and `n` itself if `n` is one. It is not below `n`, and then the least that is
   not, if and only if `n` is not just above a power of two; if it is, the result is that power.
   */
  lemma CeilToPowerOf2Iff(n: nat, k: nat)
    requires 0 < n <= MAX_SAFE
    ensures var c := CeilToPowerOf2(n);
      && IsPowerOf2(c) && c < 2 * n && n < 2 * c
      && (c == n <==> IsPowerOf2(n))
      && (n <= c <==> !JustAbovePower(n))
      && (n <= c && n <= Pow2(k) ==> c <= Pow2(k))
  {
    hide Pow2, FloorLog2, RoundsDown;
    var f := FloorLog2(n);
    FloorLog2Bounds(n);
    Next(f);
    if n > Pow2(f) {
      RoundsDownIff(n, f);
      Between(n, f);
    }
    if k <= f {
      Pow2Monotone(k, f);
    } else {
      Pow2Monotone(f + 1, k);
    }
  }

  lemma Next(k: nat)
    ensures Pow2(k + 1) == 2 * Pow2(k)
  {}

  lemma Between(n: nat, f: nat)
    requires Pow2(f) < n < Pow2(f + 1)
    ensures !IsPowerOf2(n)
  {
    if IsPowerOf2(n) {
      var e: nat :| Pow2(e) == n;
      if e <= f {
        Pow2Monotone(e, f);
      } else {
        Pow2Monotone(f + 1, e);
      }
    }
  }

  lemma Pow2Of49()
    ensures Pow2(0) == 1 && Pow2(49) == 0x2_0000_0000_0000
  {
    assert Pow2(12) == 4096;
    Pow2Add(12, 12);
    Pow2Add(24, 24);
    assert Pow2(49) == 2 * Pow2(48);
  }

  /** The first number that is rounded down, to `2^49`. */
  lemma FirstRoundedDown(n: nat)
    ensures n <= 0x2_0000_0000_0000 ==> !JustAbovePower(n)
    ensures JustAbovePower(0x2_0000_0000_0001) && CeilToPowerOf2(0x2_0000_0000_0001) == 0x2_0000_0000_0000
  {
    var p := 0x2_0000_0000_0000;
    Pow2Of49();
    hide Pow2, FloorLog2, RoundsDown;
    FloorLog2Is(p + 1, 49);
    Next(0);
    RoundsDownIff(p + 1, 49);
    if 0 < n <= p && FloorLog2(n) >= 49 {
      FloorLog2Bounds(n);
      Pow2Monotone(49, FloorLog2(n));
    }
  }
}
