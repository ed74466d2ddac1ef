/** Cosine similarity over exact reals: the loop's accumulators meet the Cauchy-Schwarz bound. */
module Cosine {

  type Vector = seq<real>

  /** The sum of products of corresponding elements. */
  function Dot(a: Vector, b: Vector): real
    requires |a| == |b|
  {
    if a == [] then 0.0
    else
      var n := |a| - 1;
      Dot(a[..n], b[..n]) + a[n] * b[n]
  }

  /** A square root on the non-negative reals. */
  ghost predicate IsSqrt(sqrt: real -> real) {
    forall x :: x >= 0.0 ==> sqrt(x) >= 0.0 && sqrt(x) * sqrt(x) == x
  }

  ghost predicate HasCosine(a: Vector, b: Vector) {
    a != [] && |a| == |b| && Dot(a, a) != 0.0 && Dot(b, b) != 0.0
  }

  predicate Ratio(dot: real, u: real, v: real, r: real) { r * (u * v) == dot }

  /** 0 without a cosine, and otherwise the number whose product with both norms is the dot product. */
  ghost predicate IsCosine(a: Vector, b: Vector, sqrt: real -> real, r: real) {
    if HasCosine(a, b) then Ratio(Dot(a, b), sqrt(Dot(a, a)), sqrt(Dot(b, b)), r) else r == 0.0
  }

  /** The accumulator loop. */
  method CosineSimilarity(a: Vector, b: Vector, sqrt: real -> real) returns (r: real)
    requires IsSqrt(sqrt)
    ensures IsCosine(a, b, sqrt, r)
    ensures -1.0 <= r <= 1.0
  {
    if |a| == 0 || |a| != |b| {
      return 0.0;
    }
    var dot, normA, normB := 0.0, 0.0, 0.0;
    for i := 0 to |a|
      invariant dot == Dot(a[..i], b[..i])
      invariant normA == Dot(a[..i], a[..i])
      invariant normB == Dot(b[..i], b[..i])
    {
      assert a[..i + 1][..i] == a[..i] && b[..i + 1][..i] == b[..i];
      var x, y := a[i], b[i];
      dot := dot + x * y;
      normA := normA + x * x;
      normB := normB + y * y;
    }
    assert a[..|a|] == a && b[..|b|] == b;
    if normA == 0.0 || normB == 0.0 {
      return 0.0;
    }
    hide Dot, Ratio;
    NormsPositive(a, b, sqrt);
    CauchySchwarz(a, b);
    SelfNonNegative(a);
    SelfNonNegative(b);
    var rootA, rootB := sqrt(normA), sqrt(normB);
    BoundedRatio(dot, normA, normB, rootA, rootB);
    r := dot / (rootA * rootB);
  }

  lemma {:induction false} SelfNonNegative(a: Vector)
    ensures Dot(a, a) >= 0.0
  {
    if a != [] {
      SelfNonNegative(a[..|a| - 1]);
      Square(a[|a| - 1]);
    }
  }

  // ----- Products of reals -------------------------------------------------------------------

  lemma Positive(x: real, y: real)
    requires x > 0.0 && y > 0.0
    ensures x * y > 0.0
  {
  }

  lemma SameSign(x: real, y: real, q: real)
    requires q == x * y
    ensures (x > 0.0 && y > 0.0) || (x < 0.0 && y < 0.0) ==> q > 0.0
    ensures x == 0.0 ==> q == 0.0
  {
  }

  lemma Square(x: real)
    ensures x == 0.0 ==> x * x == 0.0
    ensures x != 0.0 ==> x * x > 0.0
  {
    SameSign(x, x, x * x);
  }

  lemma SquareZero(d: real, q: real)
    requires q == d * d && q <= 0.0
    ensures d == 0.0
  {
    SameSign(d, d, q);
  }

  lemma FactorNonNegative(n: real, c: real, q: real)
    requires q == n * c && n > 0.0 && q >= 0.0
    ensures c >= 0.0
  {
    if c < 0.0 { Positive(n, -c); }
  }

  lemma NonNegative(x: real, y: real)
    requires x >= 0.0 && y >= 0.0
    ensures x * y >= 0.0
  {
    if x > 0.0 && y > 0.0 { Positive(x, y); }
    SameSign(x, y, x * y);
    SameSign(y, x, x * y);
  }

  lemma Cancel(r: real, s: real, n: real)
    requires n > 0.0 && r * n == s * n
    ensures r == s
  {
    Distribute(r, s, n);
    SameSign(r - s, n, (r - s) * n);
    if r < s { Positive(s - r, n); Distribute(s, r, n); }
    if r > s { Positive(r - s, n); }
  }

  lemma Distribute(x: real, y: real, n: real)
    ensures (x - y) * n == x * n - y * n
  {
  }

  lemma Monotone(x: real, y: real, n: real)
    requires x <= y && n >= 0.0
    ensures x * n <= y * n
  {
    Distribute(y, x, n);
    if x < y && n > 0.0 { Positive(y - x, n); }
  }

  lemma SquareStrict(p: real, q: real)
    requires 0.0 <= q < p
    ensures q * q < p * p
  {
    assert p * p - q * q == (p - q) * (p + q);
    Positive(p - q, p + q);
  }

  // The square roots of ordered squares are ordered.
  lemma RootMonotone(d: real, n: real)
    requires n >= 0.0 && d * d <= n * n
    ensures -n <= d <= n
  {
    if d > n { SquareStrict(d, n); }
    if -d > n {
      var e := -d;
      assert e * e == d * d;
      SquareStrict(e, n);
    }
  }

  lemma RootsSquared(s: real, t: real)
    ensures (s * t) * (s * t) == (s * s) * (t * t)
  {
  }

  lemma BoundedRatio(dot: real, normA: real, normB: real, u: real, v: real)
    requires u > 0.0 && v > 0.0 && u * u == normA && v * v == normB && dot * dot <= normA * normB
    ensures u * v > 0.0 && Ratio(dot, u, v, dot / (u * v)) && -1.0 <= dot / (u * v) <= 1.0
  {
    var n := u * v;
    Positive(u, v);
    RootsSquared(u, v);
    QuotientBound(dot, n);
  }

  // d is between -n and n when its square is at most n's.
  lemma QuotientBound(d: real, n: real)
    requires n > 0.0 && d * d <= n * n
    ensures -1.0 <= d / n <= 1.0 && (d / n) * n == d
  {
    RootMonotone(d, n);
    var q := d / n;
    assert q * n == d;
    Distribute(q, 1.0, n);
    Distribute(-1.0, q, n);
    if q > 1.0 { Positive(q - 1.0, n); }
    if q < -1.0 { Positive(-1.0 - q, n); }
  }

  // ----- Cauchy-Schwarz ----------------------------------------------------------------------

  lemma CrossNonNegative(dot: real, normA: real, normB: real, x: real, y: real)
    requires normA >= 0.0 && normB >= 0.0 && dot * dot <= normA * normB
    ensures normA * (y * y) + normB * (x * x) - 2.0 * (dot * (x * y)) >= 0.0
  {
    var cross := normA * (y * y) + normB * (x * x) - 2.0 * (dot * (x * y));
    if normA == 0.0 {
      SameSign(normA, normB, normA * normB);
      SquareZero(dot, dot * dot);
      CrossOfZero(normB, x, x * x);
      SameSign(normA, y * y, normA * (y * y));
      SameSign(dot, x * y, dot * (x * y));
    } else {
      CrossScaled(dot, normA, normB, x, y);
      FactorNonNegative(normA, cross, normA * cross);
    }
  }

  lemma CrossOfZero(n: real, x: real, q: real)
    requires n >= 0.0 && q == x * x
    ensures n * q >= 0.0
  {
    Square(x);
    NonNegative(n, q);
  }

  // normA times the cross term is the square of normA * y - dot * x, and what dot * dot leaves of normA * normB.
  lemma CrossScaled(dot: real, normA: real, normB: real, x: real, y: real)
    requires normA >= 0.0 && dot * dot <= normA * normB
    ensures normA * (normA * (y * y) + normB * (x * x) - 2.0 * (dot * (x * y))) >= 0.0
  {
    var u, v := normA * y, dot * x;
    Square(u - v);
    assert (u - v) * (u - v) == u * u - 2.0 * (u * v) + v * v;
    assert u * u == normA * (normA * (y * y));
    assert u * v == normA * (dot * (x * y));
    assert v * v == (dot * dot) * (x * x);
    Square(x);
    Monotone(dot * dot, normA * normB, x * x);
    assert (normA * normB) * (x * x) == normA * (normB * (x * x));
  }

  /** The inductive step: adding x and y keeps dot * dot <= normA * normB. */
  lemma AccumulatorStep(
      dot: real, normA: real, normB: real, x: real, y: real, dot': real, normA': real, normB': real)
    requires normA >= 0.0 && normB >= 0.0 && dot * dot <= normA * normB
    requires dot' == dot + x * y && normA' == normA + x * x && normB' == normB + y * y
    ensures dot' * dot' <= normA' * normB'
  {
    CrossNonNegative(dot, normA, normB, x, y);
    assert dot' * dot' == dot * dot + 2.0 * (dot * (x * y)) + (x * x) * (y * y);
    assert normA' * normB' == normA * normB + normA * (y * y) + normB * (x * x) + (x * x) * (y * y);
  }

  /** Cauchy-Schwarz, for vectors of any equal length. */
  lemma {:induction false} CauchySchwarz(a: Vector, b: Vector)
    requires |a| == |b|
    ensures Dot(a, b) * Dot(a, b) <= Dot(a, a) * Dot(b, b)
  {
    if a != [] {
      var n := |a| - 1;
      var c, d := a[..n], b[..n];
      CauchySchwarz(c, d);
      SelfNonNegative(c);
      SelfNonNegative(d);
      AccumulatorStep(Dot(c, d), Dot(c, c), Dot(d, d), a[n], b[n], Dot(a, b), Dot(a, a), Dot(b, b));
    }
  }

  lemma {:induction false} DotSymmetric(a: Vector, b: Vector)
    requires |a| == |b|
    ensures Dot(a, b) == Dot(b, a)
  {
    if a != [] { DotSymmetric(a[..|a| - 1], b[..|a| - 1]); }
  }

  lemma NormsPositive(a: Vector, b: Vector, sqrt: real -> real)
    requires IsSqrt(sqrt) && HasCosine(a, b)
    ensures sqrt(Dot(a, a)) > 0.0 && sqrt(Dot(b, b)) > 0.0 && sqrt(Dot(a, a)) * sqrt(Dot(b, b)) > 0.0
  {
    SelfNonNegative(a);
    SelfNonNegative(b);
    Positive(sqrt(Dot(a, a)), sqrt(Dot(b, b)));
  }

  /** The similarity is symmetric. */
  lemma CosineSymmetric(a: Vector, b: Vector, sqrt: real -> real, r: real, s: real)
    requires IsSqrt(sqrt) && IsCosine(a, b, sqrt, r) && IsCosine(b, a, sqrt, s)
    ensures r == s
  {
    if HasCosine(a, b) {
      DotSymmetric(a, b);
      NormsPositive(a, b, sqrt);
      var u, v := sqrt(Dot(a, a)), sqrt(Dot(b, b));
      assert v * u == u * v;
      Cancel(r, s, u * v);
    }
  }

  /** The similarity is 0 for a zero vector, an empty input or a length mismatch. */
  lemma ZeroCases(a: Vector, b: Vector)
    ensures HasCosine(a, b) <==>
      |a| == |b| && (exists i :: 0 <= i < |a| && a[i] != 0.0) && (exists i :: 0 <= i < |b| && b[i] != 0.0)
  {
    SelfZeroIff(a);
    SelfZeroIff(b);
  }

  lemma {:induction false} SelfZeroIff(a: Vector)
    ensures Dot(a, a) == 0.0 <==> forall i :: 0 <= i < |a| ==> a[i] == 0.0
  {
    if a != [] {
      hide Dot;
      var n := |a| - 1;
      var before := a[..n];
      SelfZeroIff(before);
      SelfNonNegative(before);
      SelfSnoc(a);
      assert forall i :: 0 <= i < n ==> before[i] == a[i];
      assert (forall i :: 0 <= i <= n ==> a[i] == 0.0) <==> a[n] == 0.0 && forall i :: 0 <= i < n ==> before[i] == 0.0;
    }
  }

  lemma SelfSnoc(a: Vector)
    requires a != []
    ensures var n := |a| - 1;
      Dot(a, a) >= Dot(a[..n], a[..n]) && (Dot(a, a) == Dot(a[..n], a[..n]) <==> a[n] == 0.0)
  {
    var n := |a| - 1;
    AddSquare(Dot(a[..n], a[..n]), a[n], a[n] * a[n]);
  }

  lemma AddSquare(d: real, x: real, q: real)
    requires q == x * x
    ensures d + q >= d && (d + q == d <==> x == 0.0)
  {
    SameSign(x, x, q);
  }
}
