/**
 Jain's fairness index as PrintFairness of examples/tcp/dctcp-example.cc computes it, with its sums
 in unsigned 64-bit arithmetic.
 */
module Fairness {

  const WRAP: nat := 0x1_0000_0000_0000_0000

  function U64(x: nat): nat {
    x % WRAP
  }

  ghost function Sum(xs: seq<nat>): nat {
    if xs == [] then 0 else Sum(xs[..|xs| - 1]) + xs[|xs| - 1]
  }

  ghost function Squares(xs: seq<nat>): nat {
    if xs == [] then 0 else Squares(xs[..|xs| - 1]) + xs[|xs| - 1] * xs[|xs| - 1]
  }

  // ----- the sums and their squares

  /** The sum of the squared distances from a. */
  ghost function Spread(xs: seq<nat>, a: nat): nat {
    if xs == [] then 0
    else Spread(xs[..|xs| - 1], a) + (xs[|xs| - 1] - a) * (xs[|xs| - 1] - a)
  }

  /** What Cauchy's inequality is about: n times the squares, less the square of the sum. */
  ghost function Gap(xs: seq<nat>): int {
    |xs| * Squares(xs) - Sum(xs) * Sum(xs)
  }

  lemma SpreadArithmetic(m: nat, q: int, s: int, x: int, a: int)
    ensures (q - 2 * (a * s) + m * (a * a)) + (x - a) * (x - a)
         == (q + x * x) - 2 * (a * (s + x)) + (m + 1) * (a * a)
  {
    Distribute(x, -a, x - a);
    Distribute(s, x, a);
    Distribute(m, 1, a * a);
  }

  lemma Distribute(x: int, y: int, z: int)
    ensures (x + y) * z == x * z + y * z
  {}

  lemma {:induction false} SpreadIs(xs: seq<nat>, a: nat)
    ensures Spread(xs, a) == Squares(xs) - 2 * (a * Sum(xs)) + |xs| * (a * a)
  {
    if xs == [] {
    } else {
      var m := |xs| - 1;
      SpreadIs(xs[..m], a);
      SpreadArithmetic(m, Squares(xs[..m]), Sum(xs[..m]), xs[m], a);
    }
  }

  lemma GapArithmetic(n: nat, q: nat, s: nat, x: nat)
    ensures (n + 1) * (q + x * x) - (s + x) * (s + x) == (n * q - s * s) + (q - 2 * (x * s) + n * (x * x))
  {
    Distribute(n, 1, q + x * x);
    Distribute(q, x * x, n);
    Distribute(s, x, s + x);
  }

  lemma GapGrows(xs: seq<nat>)
    requires xs != []
    ensures var m := |xs| - 1; Gap(xs) == Gap(xs[..m]) + Spread(xs[..m], xs[m])
  {
    var m := |xs| - 1;
    SpreadIs(xs[..m], xs[m]);
    GapArithmetic(m, Squares(xs[..m]), Sum(xs[..m]), xs[m]);
  }

  ghost predicate AllEqual(xs: seq<nat>) {
    forall i, j :: 0 <= i < j < |xs| ==> xs[i] == xs[j]
  }

  lemma {:induction false} SpreadZero(xs: seq<nat>, a: nat)
    ensures Spread(xs, a) == 0 <==> forall i :: 0 <= i < |xs| ==> xs[i] == a
  {
    if xs == [] {
    } else {
      var m := |xs| - 1;
      SpreadZero(xs[..m], a);
      SquareZero(xs[m] - a);
    }
  }

  lemma SquareZero(d: int)
    ensures d * d >= 0 && (d * d == 0 <==> d == 0)
  {}

  /** The square of the sum is at most n times the sum of the squares, and equal just for equal entries. */
  lemma {:induction false} Cauchy(xs: seq<nat>)
    ensures Gap(xs) >= 0 && (Gap(xs) == 0 <==> AllEqual(xs))
  {
    if xs == [] {
    } else {
      var m := |xs| - 1;
      Cauchy(xs[..m]);
      GapGrows(xs);
      SpreadZero(xs[..m], xs[m]);
    }
  }

  lemma {:induction false} SquareOfSumAtLeast(xs: seq<nat>)
    ensures Squares(xs) <= Sum(xs) * Sum(xs)
    ensures Squares(xs) == 0 <==> forall i :: 0 <= i < |xs| ==> xs[i] == 0
  {
    if xs == [] {
    } else {
      var m := |xs| - 1;
      SquareOfSumAtLeast(xs[..m]);
      SquareOfSum(Sum(xs[..m]), xs[m]);
      SquareZero(xs[m]);
    }
  }

  lemma SquareOfSum(s: nat, x: nat)
    ensures (s + x) * (s + x) >= s * s + x * x
  {
    Distribute(s, x, s + x);
    assert s * x >= 0;
  }

  // ----- the index

  /** For byte counts that are not all zero the index is between 1/n and 1, and 1 just for equal counts. */
  lemma IndexBounds(xs: seq<nat>)
    requires SomeNonZero(xs)
    ensures |xs| * Squares(xs) > 0
    ensures IsFairnessIndex(xs, (Sum(xs) * Sum(xs)) as real / (|xs| * Squares(xs)) as real)
  {
    Cauchy(xs);
    SquareOfSumAtLeast(xs);
    assert Squares(xs) > 0;
    Quotients(|xs|, Squares(xs), Sum(xs) * Sum(xs));
  }

  lemma Quotients(n: nat, q: nat, s: nat)
    requires n > 0 && q > 0 && q <= s <= n * q
    ensures n * q > 0
    ensures 1.0 / n as real <= s as real / (n * q) as real <= 1.0
    ensures s as real / (n * q) as real == 1.0 <==> s == n * q
  {
    ProductPositive(n, q);
    var d := (n * q) as real;
    assert d == n as real * q as real;
    SameQuotient(n as real, q as real);
    DivideOrder(q as real, s as real, d);
    DivideOrder(s as real, d, d);
    QuotientOne(s as real, d);
  }

  lemma ProductPositive(n: nat, q: nat)
    requires n > 0 && q > 0
    ensures n * q > 0
  {}

  lemma SameQuotient(n: real, q: real)
    requires n > 0.0 && q > 0.0
    ensures n * q > 0.0 && 1.0 / n == q / (n * q)
  {
    assert q / (n * q) * (n * q) == q;
    assert 1.0 / n * n == 1.0;
    assert (1.0 / n) * (n * q) == ((1.0 / n) * n) * q;
    SameFactor(q / (n * q), 1.0 / n, n * q);
  }

  lemma SameFactor(a: real, b: real, d: real)
    requires d > 0.0 && a * d == b * d
    ensures a == b
  {
    assert (a - b) * d == 0.0;
  }

  lemma QuotientOne(s: real, d: real)
    requires d > 0.0
    ensures s / d == 1.0 <==> s == d
    ensures d / d == 1.0
  {
    assert s / d * d == s;
  }

  lemma DivideOrder(a: real, b: real, d: real)
    requires d > 0.0 && a <= b
    ensures a / d <= b / d
  {}

  // ----- 64-bit arithmetic

  lemma {:induction false} AddMultiple(a: int, k: int, m: int)
    requires m > 0
    ensures (a + k * m) % m == a % m
    decreases if k >= 0 then k else -k
  {
    if k > 0 {
      AddMultiple(a, k - 1, m);
      assert a + k * m == (a + (k - 1) * m) + m;
      OneTurn(a + (k - 1) * m, m);
    } else if k < 0 {
      AddMultiple(a, k + 1, m);
      assert a + (k + 1) * m == (a + k * m) + m;
      OneTurn(a + k * m, m);
    }
  }

  lemma OneTurn(b: int, m: int)
    requires m > 0
    ensures (b + m) % m == b % m
  {
    var q, r := b / m, b % m;
    assert b + m == (q + 1) * m + r;
    ModUnique(b + m, q + 1, r, m);
  }

  lemma ModUnique(x: int, q: int, r: int, m: int)
    requires m > 0 && x == q * m + r && 0 <= r < m
    ensures x % m == r
  {
    var d := x / m - q;
    assert x == (x / m) * m + x % m;
    assert d * m == r - x % m;
    AwayFromZero(d, m);
  }

  lemma AwayFromZero(d: int, m: int)
    requires m > 0
    ensures (d >= 1 ==> d * m >= m) && (d <= -1 ==> d * m <= -m)
  {
    assert d * m == (d - 1) * m + m == (d + 1) * m - m;
    if d >= 1 {
      assert (d - 1) * m >= 0;
    } else if d <= -1 {
      assert (d + 1) * m <= 0;
    }
  }

  /** Wrapping early or late gives the same sum. */
  lemma WrapSum(a: nat, b: nat)
    ensures U64(U64(a) + b) == U64(a + b) == U64(a + U64(b))
  {
    AddMultiple(U64(a) + b, a / WRAP, WRAP);
    AddMultiple(a + U64(b), b / WRAP, WRAP);
    assert a == U64(a) + (a / WRAP) * WRAP && b == U64(b) + (b / WRAP) * WRAP;
  }

  lemma WrapProduct(a: nat, b: nat)
    ensures U64(a * U64(b)) == U64(a * b)
  {
    var q := b / WRAP;
    assert b == U64(b) + q * WRAP;
    assert a * b == a * U64(b) + (a * q) * WRAP;
    AddMultiple(a * U64(b), a * q, WRAP);
  }

  ghost predicate SomeNonZero(xs: seq<nat>) {
    exists i :: 0 <= i < |xs| && xs[i] != 0
  }

  /** What an index of fairness should be: between 1/n and 1, and 1 just for equal counts. */
  ghost predicate IsFairnessIndex(xs: seq<nat>, index: real)
    requires xs != []
  {
    1.0 / |xs| as real <= index <= 1.0 && (index == 1.0 <==> AllEqual(xs))
  }

  /** The loop of PrintFairness and the two sides of its quotient, for one group of flows. */
  method JainIndex(bytes: seq<nat>) returns (numerator: nat, denominator: nat)
    requires forall i :: 0 <= i < |bytes| ==> bytes[i] < WRAP
    ensures numerator == U64(Sum(bytes) * Sum(bytes)) && denominator == U64(|bytes| * Squares(bytes))
    ensures SomeNonZero(bytes) && |bytes| * Squares(bytes) < WRAP ==>
      denominator > 0 && IsFairnessIndex(bytes, numerator as real / denominator as real)
  {
    if SomeNonZero(bytes) {
      IndexBounds(bytes);
      ExactIffFits(bytes);
    }
    var sum, sumSquares := 0, 0;
    for i := 0 to |bytes|
      invariant sum == U64(Sum(bytes[..i])) && sumSquares == U64(Squares(bytes[..i]))
    {
      NextSums(bytes, i);
      sum := U64(sum + bytes[i]);
      sumSquares := U64(sumSquares + U64(bytes[i] * bytes[i]));
    }
    assert bytes[..|bytes|] == bytes;
    numerator, denominator := Quotient(|bytes|, sum, sumSquares, Sum(bytes), Squares(bytes));
  }

  /** The two sides of the quotient, from the sums as they came out of the loop. */
  method Quotient(n: nat, sum: nat, sumSquares: nat, ghost s: nat, ghost q: nat) returns (numerator: nat, denominator: nat)
    requires sum == U64(s) && sumSquares == U64(q)
    ensures numerator == U64(s * s) && denominator == U64(n * q)
  {
    WrapSquare(s);
    WrapProduct(n, q);
    numerator := U64(sum * sum);
    denominator := U64(n * sumSquares);
  }

  lemma NextSums(xs: seq<nat>, i: nat)
    requires i < |xs|
    ensures U64(Sum(xs[..i + 1])) == U64(U64(Sum(xs[..i])) + xs[i])
    ensures U64(Squares(xs[..i + 1])) == U64(U64(Squares(xs[..i])) + U64(xs[i] * xs[i]))
  {
    assert xs[..i + 1][..i] == xs[..i];
    WrapSum(Sum(xs[..i]), xs[i]);
    WrapSum(Squares(xs[..i]), xs[i] * xs[i]);
    WrapSum(U64(Squares(xs[..i])), xs[i] * xs[i]);
  }

  lemma WrapSquare(s: nat)
    ensures U64(U64(s) * U64(s)) == U64(s * s)
  {
    WrapProduct(U64(s), s);
    WrapProduct(s, s);
    assert U64(s) * s == s * U64(s);
  }

  /** No square and neither sum of the loop wraps. */
  ghost predicate LoopExact(xs: seq<nat>) {
    && (forall i :: 0 <= i < |xs| ==> U64(xs[i] * xs[i]) == xs[i] * xs[i])
    && (forall i :: 0 <= i <= |xs| ==> U64(Sum(xs[..i])) == Sum(xs[..i]) && U64(Squares(xs[..i])) == Squares(xs[..i]))
  }

  /** Neither side of the quotient wraps. */
  ghost predicate QuotientExact(xs: seq<nat>) {
    && U64(Sum(xs) * Sum(xs)) == Sum(xs) * Sum(xs)
    && U64(|xs| * Squares(xs)) == |xs| * Squares(xs)
  }

  /** Nothing wraps, neither in the loop nor in the quotient, exactly when n times the squares fits. */
  lemma ExactIffFits(xs: seq<nat>)
    ensures |xs| * Squares(xs) < WRAP <==> LoopExact(xs) && QuotientExact(xs)
  {
    if xs != [] {
      Cauchy(xs);
      AllBelow(|xs|, Squares(xs), Sum(xs));
      if |xs| * Squares(xs) < WRAP {
        LoopIsExact(xs);
      }
    }
  }

  lemma LoopIsExact(xs: seq<nat>)
    requires U64(Sum(xs)) == Sum(xs) && U64(Squares(xs)) == Squares(xs)
    ensures LoopExact(xs)
  {
    Fits(Sum(xs));
    Fits(Squares(xs));
    forall i | 0 <= i <= |xs|
      ensures i < |xs| ==> U64(xs[i] * xs[i]) == xs[i] * xs[i]
      ensures U64(Sum(xs[..i])) == Sum(xs[..i]) && U64(Squares(xs[..i])) == Squares(xs[..i])
    {
      PartAtMostWhole(xs, i);
      Fits(Sum(xs[..i]));
      Fits(Squares(xs[..i]));
      if i < |xs| {
        Fits(xs[i] * xs[i]);
      }
    }
  }

  /** A part of a sum is at most the sum. */
  lemma {:induction false} PartAtMostWhole(xs: seq<nat>, i: nat)
    requires i <= |xs|
    ensures Sum(xs[..i]) <= Sum(xs) && Squares(xs[..i]) <= Squares(xs)
    ensures i < |xs| ==> xs[i] * xs[i] <= Squares(xs)
  {
    if i == |xs| {
      assert xs[..i] == xs;
    } else {
      var m := |xs| - 1;
      SquareZero(xs[m]);
      if i < m {
        PartAtMostWhole(xs[..m], i);
        assert xs[..m][..i] == xs[..i];
      }
    }
  }

  lemma AllBelow(n: nat, q: nat, s: nat)
    requires n >= 1 && s * s <= n * q
    ensures q <= n * q && s <= s * s
    ensures n * q < WRAP <==>
      U64(s) == s && U64(q) == q && U64(s * s) == s * s && U64(n * q) == n * q
  {
    AtLeastOnce(n, q);
    if s > 0 {
      AtLeastOnce(s, s);
    }
    Fits(s);
    Fits(q);
    Fits(s * s);
    Fits(n * q);
  }

  lemma AtLeastOnce(n: nat, q: nat)
    requires n >= 1
    ensures q <= n * q
  {
    Distribute(n - 1, 1, q);
  }

  lemma Fits(x: nat)
    ensures U64(x) == x <==> x < WRAP
  {}

  lemma {:induction false} SquaresBound(xs: seq<nat>, b: nat)
    requires forall i :: 0 <= i < |xs| ==> xs[i] <= b
    ensures Squares(xs) <= |xs| * (b * b)
  {
    if xs == [] {
    } else {
      var m := |xs| - 1;
      SquaresBound(xs[..m], b);
      SquareAtMost(xs[m], b);
      Distribute(m, 1, b * b);
    }
  }

  lemma SquareAtMost(x: nat, b: nat)
    requires x <= b
    ensures x * x <= b * b
  {
    SquareOfSum(x, b - x);
    SquareZero(b - x);
  }

  lemma Widen(n: nat, q: nat, b: nat)
    requires q <= n * (b * b)
    ensures n * q <= (n * b) * (n * b)
  {
    assert n * q <= n * (n * (b * b));
    assert n * (n * (b * b)) == (n * b) * (n * b);
  }

  /** It fits whenever n times the largest count is below 2^32. */
  lemma SmallCountsFit(xs: seq<nat>, b: nat)
    requires (forall i :: 0 <= i < |xs| ==> xs[i] <= b) && |xs| * b < 0x1_0000_0000
    ensures |xs| * Squares(xs) < WRAP
  {
    var n := |xs|;
    SquaresBound(xs, b);
    Widen(n, Squares(xs), b);
    SquareBelow(n * b, 0x1_0000_0000);
  }

  lemma SquareBelow(x: nat, b: nat)
    requires x < b
    ensures x * x < b * b
  {
    var y := b - x;
    assert b * b == x * x + 2 * (x * y) + y * y;
    assert x * y >= 0 && y * y > 0;
  }

  /** Ten flows of 4 GiB each are perfectly fair, but both sides of the quotient wrap to zero. */
  lemma EqualCountsCanWrap(xs: seq<nat>)
    requires |xs| == 10 && forall i :: 0 <= i < 10 ==> xs[i] == 0x1_0000_0000
    ensures AllEqual(xs) && U64(Sum(xs) * Sum(xs)) == 0 && U64(|xs| * Squares(xs)) == 0
  {
    EqualSums(xs, 0x1_0000_0000);
  }

  lemma {:induction false} EqualSums(xs: seq<nat>, b: nat)
    requires forall i :: 0 <= i < |xs| ==> xs[i] == b
    ensures Sum(xs) == |xs| * b && Squares(xs) == |xs| * (b * b)
  {
    if xs == [] {
    } else {
      var m := |xs| - 1;
      EqualSums(xs[..m], b);
      assert (m + 1) * b == m * b + b && (m + 1) * (b * b) == m * (b * b) + b * b;
    }
  }
}
