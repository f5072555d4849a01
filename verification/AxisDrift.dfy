/**
  pkg/axis/integrity.go over exact reals. `math.Sqrt` is a parameter of which only the law of a
  square root is used.
  */
module AxisDrift {
  import opened ByteStrings
  import opened Outcomes
  import opened Evaluate
  import opened Quarantine

  type Vector = seq<real>

  datatype DriftType = NoDrift | Temporality | Epistemic | Scope | Trust | Mandate | InvalidAxisInput

  datatype AxisError = InvalidVectorSize | InvalidVectorBounds

  /** A reason code is the one of the failing axis, or the text of an error. */
  datatype ReasonText = Drifted(axis: DriftType) | Failed(error: AxisError)

  datatype AxisCheckResult = AxisCheckResult(
    axisPreserved: bool, driftScore: real, driftType: DriftType, reasonCodes: seq<ReasonText>
  )

  /** One partition of the dimensions, both ends included. */
  datatype Axis = Axis(start: int, end: int, drift: DriftType)

  const DefaultAxes: seq<Axis> := [
    Axis(0, 23, Temporality), Axis(24, 47, Epistemic), Axis(48, 71, Scope), Axis(72, 95, Trust), Axis(96, 127, Mandate)
  ]

  ghost predicate IsSqrt(sqrt: real -> real) {
    forall x :: x >= 0.0 ==> sqrt(x) >= 0.0 && sqrt(x) * sqrt(x) == x
  }

  // ------------------------------------------------------------ cosine similarity

  function Dot(v: Vector, w: Vector, lo: nat, hi: nat): real
    requires hi <= |v| && hi <= |w|
  {
    if hi <= lo then 0.0 else Dot(v, w, lo, hi - 1) + v[hi - 1] * w[hi - 1]
  }

  lemma RootPositive(sqrt: real -> real, x: real)
    requires IsSqrt(sqrt) && x > 0.0
    ensures sqrt(x) > 0.0
  {
    assert sqrt(x) * sqrt(x) == x;
  }

  lemma {:induction false} NormNotNegative(v: Vector, lo: nat, hi: nat)
    requires hi <= |v|
    ensures Dot(v, v, lo, hi) >= 0.0
  {
    if lo < hi {
      NormNotNegative(v, lo, hi - 1);
      SquareNotNegative(v[hi - 1]);
    }
  }

  lemma SquareNotNegative(x: real)
    ensures x * x >= 0.0
  {
  }

  lemma ProductPositive(x: real, y: real)
    requires x > 0.0 && y > 0.0
    ensures x * y > 0.0
  {
  }

  function Cosine(sqrt: real -> real, dot: real, n1: real, n2: real): real
    requires IsSqrt(sqrt) && n1 >= 0.0 && n2 >= 0.0
  {
    if n1 == 0.0 || n2 == 0.0 then 0.0
    else
      RootPositive(sqrt, n1);
      RootPositive(sqrt, n2);
      ProductPositive(sqrt(n1), sqrt(n2));
      dot / (sqrt(n1) * sqrt(n2))
  }

  predicate ValidBounds(a: Axis) {
    0 <= a.start <= a.end < 128
  }

  function Similarity(sqrt: real -> real, v: Vector, w: Vector, a: Axis): Result<real, AxisError>
    requires IsSqrt(sqrt)
  {
    if |v| != 128 || |w| != 128 then Err(InvalidVectorSize)
    else if !ValidBounds(a) then Err(InvalidVectorBounds)
    else
      NormNotNegative(v, a.start, a.end + 1);
      NormNotNegative(w, a.start, a.end + 1);
      Ok(Cosine(sqrt, Dot(v, w, a.start, a.end + 1), Dot(v, v, a.start, a.end + 1), Dot(w, w, a.start, a.end + 1)))
  }

  method CosineSimilarity(sqrt: real -> real, v1: Vector, v2: Vector, a: Axis) returns (r: Result<real, AxisError>)
    requires IsSqrt(sqrt)
    ensures r == Similarity(sqrt, v1, v2, a)
  {
    if |v1| != 128 || |v2| != 128 {
      return Err(InvalidVectorSize);
    }
    if a.start < 0 || a.end >= |v1| || a.start > a.end {
      return Err(InvalidVectorBounds);
    }
    var dotProduct, normV1, normV2 := 0.0, 0.0, 0.0;
    for i := a.start to a.end + 1
      invariant dotProduct == Dot(v1, v2, a.start, i)
      invariant normV1 == Dot(v1, v1, a.start, i) && normV2 == Dot(v2, v2, a.start, i)
    {
      dotProduct := dotProduct + v1[i] * v2[i];
      normV1 := normV1 + v1[i] * v1[i];
      normV2 := normV2 + v2[i] * v2[i];
    }
    NormNotNegative(v1, a.start, a.end + 1);
    NormNotNegative(v2, a.start, a.end + 1);
    return Ok(Cosine(sqrt, dotProduct, normV1, normV2));
  }

  // ------------------------------------------------------------ what the sums are

  /** One dimension adds the product of its two entries, and an empty range nothing. */
  lemma DotOfOne(v: Vector, w: Vector, i: nat)
    requires i < |v| && i < |w|
    ensures Dot(v, w, i, i) == 0.0 && Dot(v, w, i, i + 1) == v[i] * w[i]
  {
    assert Dot(v, w, i, i) == 0.0;
  }

  /** A range adds up its parts, so with `DotOfOne` it adds up the products of all its dimensions. */
  lemma {:induction false} DotSplits(v: Vector, w: Vector, lo: nat, mid: nat, hi: nat)
    requires lo <= mid <= hi && hi <= |v| && hi <= |w|
    ensures Dot(v, w, lo, hi) == Dot(v, w, lo, mid) + Dot(v, w, mid, hi)
  {
    if mid < hi {
      DotSplits(v, w, lo, mid, hi - 1);
    }
  }

  lemma {:induction false} DotVanishes(v: Vector, w: Vector, lo: nat, hi: nat)
    requires hi <= |v| && hi <= |w|
    requires forall i :: lo <= i < hi ==> v[i] == 0.0 || w[i] == 0.0
    ensures Dot(v, w, lo, hi) == 0.0
  {
    if lo < hi {
      DotVanishes(v, w, lo, hi - 1);
    }
  }

  /** A sum of products that vanish everywhere but at dimension `i`. */
  lemma DotOfSparse(v: Vector, w: Vector, lo: nat, i: nat, hi: nat)
    requires lo <= i < hi && hi <= |v| && hi <= |w|
    requires forall j :: lo <= j < hi && j != i ==> v[j] == 0.0 || w[j] == 0.0
    ensures Dot(v, w, lo, hi) == v[i] * w[i]
  {
    DotSplits(v, w, lo, i, hi);
    DotSplits(v, w, i, i + 1, hi);
    DotVanishes(v, w, lo, i);
    DotVanishes(v, w, i + 1, hi);
    DotOfOne(v, w, i);
  }

  lemma PositiveProduct(x: real, y: real, p: real)
    requires x > 0.0 && y > 0.0 && p == x * y
    ensures p > 0.0
  {
    ProductPositive(x, y);
  }

  lemma NegatedSquare(x: real)
    ensures (-x) * (-x) == x * x
  {
  }

  lemma SquareSign(x: real, square: real)
    requires square == x * x
    ensures square >= 0.0 && (square == 0.0 <==> x == 0.0)
  {
    if x > 0.0 {
      PositiveProduct(x, x, square);
    } else if x < 0.0 {
      NegatedSquare(x);
      PositiveProduct(-x, -x, square);
    }
  }

  /** A norm is zero exactly when every entry is. */
  lemma {:induction false} NormZeroExactly(v: Vector, lo: nat, hi: nat)
    requires hi <= |v|
    ensures Dot(v, v, lo, hi) != 0.0 <==> exists i :: lo <= i < hi && v[i] != 0.0
  {
    if lo < hi {
      NormZeroExactly(v, lo, hi - 1);
      NormNotNegative(v, lo, hi - 1);
      SquareSign(v[hi - 1], v[hi - 1] * v[hi - 1]);
    }
  }

  /** Both errors, and when there is none; an axis on which one vector is zero has similarity 0. */
  lemma SimilarityErrors(sqrt: real -> real, v: Vector, w: Vector, a: Axis)
    requires IsSqrt(sqrt)
    ensures Similarity(sqrt, v, w, a) == Err(InvalidVectorSize) <==> |v| != 128 || |w| != 128
    ensures Similarity(sqrt, v, w, a) == Err(InvalidVectorBounds) <==>
            |v| == 128 && |w| == 128 && (a.start < 0 || a.end >= 128 || a.start > a.end)
    ensures Similarity(sqrt, v, w, a).Ok? && (forall i :: a.start <= i <= a.end ==> v[i] == 0.0 || w[i] == 0.0) ==>
              Similarity(sqrt, v, w, a) == Ok(0.0)
  {
    if |v| == |w| == 128 && 0 <= a.start <= a.end < 128
       && forall i :: a.start <= i <= a.end ==> v[i] == 0.0 || w[i] == 0.0 {
      DotVanishes(v, w, a.start, a.end + 1);
      NormNotNegative(v, a.start, a.end + 1);
      NormNotNegative(w, a.start, a.end + 1);
      ZeroCosine(sqrt, Dot(v, v, a.start, a.end + 1), Dot(w, w, a.start, a.end + 1));
    }
  }

  lemma ZeroCosine(sqrt: real -> real, m: real, n: real)
    requires IsSqrt(sqrt) && m >= 0.0 && n >= 0.0
    ensures Cosine(sqrt, 0.0, m, n) == 0.0
  {
    if m != 0.0 && n != 0.0 {
      CosineOf(sqrt, 0.0, m, n, sqrt(m), sqrt(n));
    }
  }

  function Magnitude(x: real): (m: real)
    ensures m >= 0.0 && (m == x || m == -x)
  {
    if x < 0.0 then -x else x
  }

  lemma RootOfSquare(sqrt: real -> real, x: real, square: real)
    requires IsSqrt(sqrt) && square == x * x
    ensures square >= 0.0 && sqrt(square) == Magnitude(x)
  {
    SquareSign(x, square);
    assert Magnitude(x) * Magnitude(x) == square;
    RootUnique(sqrt(square), Magnitude(x));
  }

  lemma SignOfProduct(x: real, y: real)
    ensures x * y == Magnitude(x) * Magnitude(y) || x * y == -(Magnitude(x) * Magnitude(y))
  {
  }

  lemma SignQuotient(p: real, m: real)
    requires m > 0.0 && (p == m || p == -m)
    ensures p / m == if p > 0.0 then 1.0 else -1.0
  {
    if p == m {
      assert p / m == 1.0;
    } else {
      assert (-1.0) * m == p;
    }
  }

  lemma CosineOfRoots(sqrt: real -> real, d: real, a: real, b: real, s: real, t: real)
    requires IsSqrt(sqrt) && a > 0.0 && b > 0.0 && sqrt(a) == s && sqrt(b) == t && (d == s * t || d == -(s * t))
    ensures Cosine(sqrt, d, a, b) == if d > 0.0 then 1.0 else -1.0
  {
    CosineOf(sqrt, d, a, b, s, t);
    SignQuotient(d, s * t);
  }

  lemma CosineOfSingles(sqrt: real -> real, x: real, y: real, d: real, a: real, b: real)
    requires IsSqrt(sqrt) && x != 0.0 && y != 0.0 && d == x * y && a == x * x && b == y * y
    ensures a >= 0.0 && b >= 0.0
    ensures Cosine(sqrt, d, a, b) == if d > 0.0 then 1.0 else -1.0
  {
    SquareSign(x, a);
    SquareSign(y, b);
    RootOfSquare(sqrt, x, a);
    RootOfSquare(sqrt, y, b);
    SignOfProduct(x, y);
    CosineOfRoots(sqrt, d, a, b, Magnitude(x), Magnitude(y));
  }

  /** The sums of two vectors with one and the same non-zero dimension on an axis. */
  lemma SumsOfSingles(v: Vector, w: Vector, lo: nat, i: nat, hi: nat)
    requires lo <= i < hi && hi <= |v| && hi <= |w|
    requires forall j :: lo <= j < hi && j != i ==> v[j] == 0.0 && w[j] == 0.0
    ensures SumsOf(v, w, lo, hi) == Sums(v[i] * w[i], v[i] * v[i], w[i] * w[i])
  {
    DotOfSparse(v, w, lo, i, hi);
    DotOfSparse(v, v, lo, i, hi);
    DotOfSparse(w, w, lo, i, hi);
  }

  /** Two vectors with one and the same non-zero dimension on an axis point the same way there, or opposite ways. */
  lemma OneSharedDimension(sqrt: real -> real, v: Vector, w: Vector, a: Axis, i: int)
    requires IsSqrt(sqrt) && |v| == |w| == 128 && 0 <= a.start <= i <= a.end < 128
    requires v[i] != 0.0 && w[i] != 0.0
    requires forall j :: a.start <= j <= a.end && j != i ==> v[j] == 0.0 && w[j] == 0.0
    ensures Similarity(sqrt, v, w, a) == Ok(if v[i] * w[i] > 0.0 then 1.0 else -1.0)
  {
    SumsOfSingles(v, w, a.start, i, a.end + 1);
    var x := SumsOf(v, w, a.start, a.end + 1);
    CosineOfSingles(sqrt, v[i], w[i], x.dot, x.norm1, x.norm2);
  }

  /** Where neither vector is zero, the similarity times both lengths is the sum of the products. */
  lemma SimilarityOf(sqrt: real -> real, v: Vector, w: Vector, a: Axis, i: int, j: int)
    requires IsSqrt(sqrt) && |v| == |w| == 128 && 0 <= a.start <= a.end < 128
    requires a.start <= i <= a.end && a.start <= j <= a.end && v[i] != 0.0 && w[j] != 0.0
    ensures var lo, hi, s := a.start, a.end + 1, Similarity(sqrt, v, w, a);
            s.Ok? && s.value * (sqrt(Dot(v, v, lo, hi)) * sqrt(Dot(w, w, lo, hi))) == Dot(v, w, lo, hi)
  {
    var lo, hi := a.start, a.end + 1;
    NormZeroExactly(v, lo, hi);
    NormZeroExactly(w, lo, hi);
    NormNotNegative(v, lo, hi);
    NormNotNegative(w, lo, hi);
    var m, n, d := Dot(v, v, lo, hi), Dot(w, w, lo, hi), Dot(v, w, lo, hi);
    CosineOf(sqrt, d, m, n, sqrt(m), sqrt(n));
    QuotientTimes(d, sqrt(m) * sqrt(n));
  }

  lemma QuotientTimes(d: real, r: real)
    requires r != 0.0
    ensures d / r * r == d
  {
  }

  // ------------------------------------------------------------ Cauchy-Schwarz

  lemma LargerSquare(p: real, q: real)
    requires 0.0 <= p < q
    ensures p * p < q * q
  {
    ProductPositive(q - p, q + p);
    assert (q - p) * (q + p) == q * q - p * p;
  }

  lemma SquareOrder(p: real, q: real)
    requires p >= 0.0 && q * q <= p * p
    ensures -p <= q <= p
  {
    if q > p {
      LargerSquare(p, q);
    } else if q < -p {
      LargerSquare(p, -q);
    }
  }

  /** 2 d x y <= a y^2 + b x^2 whenever d^2 <= a b. */
  lemma CrossTerm(a: real, b: real, d: real, x: real, y: real)
    requires a >= 0.0 && b >= 0.0 && d * d <= a * b
    ensures 2.0 * (d * (x * y)) <= a * (y * y) + b * (x * x)
  {
    var p, q, s, t := a * (y * y) + b * (x * x), 2.0 * (d * (x * y)), a * (y * y), b * (x * x);
    var m := (x * y) * (x * y);
    SquareNotNegative(x * y);
    assert d * d * m <= a * b * m;
    assert q * q == 4.0 * (d * d * m);
    assert s * t == a * b * m;
    SquareNotNegative(s - t);
    assert p * p == (s - t) * (s - t) + 4.0 * (s * t);
    SquareNotNegative(x);
    SquareNotNegative(y);
    assert s >= 0.0 && t >= 0.0;
    SquareOrder(p, q);
  }

  lemma AddSquares(a: real, b: real, d: real, x: real, y: real)
    requires a >= 0.0 && b >= 0.0 && d * d <= a * b
    ensures (d + x * y) * (d + x * y) <= (a + x * x) * (b + y * y)
  {
    CrossTerm(a, b, d, x, y);
    var z := x * y;
    assert (d + z) * (d + z) == d * d + 2.0 * (d * z) + z * z;
    assert z * z == (x * x) * (y * y);
    assert (a + x * x) * (b + y * y) == a * b + a * (y * y) + b * (x * x) + (x * x) * (y * y);
  }

  predicate Bounds(a: real, b: real, d: real) {
    d * d <= a * b
  }

  lemma BoundsStep(a: real, b: real, d: real, x: real, y: real)
    requires a >= 0.0 && b >= 0.0 && Bounds(a, b, d)
    ensures Bounds(a + x * x, b + y * y, d + x * y)
  {
    AddSquares(a, b, d, x, y);
  }

  lemma {:induction false} SumsBounded(v: Vector, w: Vector, lo: nat, hi: nat)
    requires hi <= |v| && hi <= |w|
    ensures Bounds(Dot(v, v, lo, hi), Dot(w, w, lo, hi), Dot(v, w, lo, hi))
  {
    if lo < hi {
      SumsBounded(v, w, lo, hi - 1);
      NormNotNegative(v, lo, hi - 1);
      NormNotNegative(w, lo, hi - 1);
      BoundsStep(Dot(v, v, lo, hi - 1), Dot(w, w, lo, hi - 1), Dot(v, w, lo, hi - 1), v[hi - 1], w[hi - 1]);
    }
  }

  /** The three accumulated sums satisfy dot^2 <= norm1 * norm2. */
  lemma CauchySchwarz(v: Vector, w: Vector, lo: nat, hi: nat)
    requires hi <= |v| && hi <= |w|
    ensures Dot(v, w, lo, hi) * Dot(v, w, lo, hi) <= Dot(v, v, lo, hi) * Dot(w, w, lo, hi)
  {
    SumsBounded(v, w, lo, hi);
  }

  lemma FactorNotNegative(x: real, r: real)
    requires r > 0.0 && x * r >= 0.0
    ensures x >= 0.0
  {
    if x < 0.0 {
      ProductPositive(-x, r);
    }
  }

  lemma QuotientBounded(d: real, r: real)
    requires r > 0.0 && -r <= d <= r
    ensures -1.0 <= d / r <= 1.0
  {
    var q := d / r;
    assert q * r == d;
    assert (1.0 - q) * r == r - d && (1.0 + q) * r == r + d;
    FactorNotNegative(1.0 - q, r);
    FactorNotNegative(1.0 + q, r);
  }

  /** The quotient, for norms that are not zero. */
  lemma CosineOf(sqrt: real -> real, d: real, a: real, b: real, s: real, t: real)
    requires IsSqrt(sqrt) && a > 0.0 && b > 0.0 && s == sqrt(a) && t == sqrt(b)
    ensures s > 0.0 && t > 0.0 && s * t > 0.0 && Cosine(sqrt, d, a, b) == d / (s * t)
  {
    RootPositive(sqrt, a);
    RootPositive(sqrt, b);
    ProductPositive(s, t);
  }

  lemma SquareOfProduct(s: real, t: real)
    ensures (s * t) * (s * t) == (s * s) * (t * t)
  {
  }

  lemma CosineBounded(sqrt: real -> real, d: real, a: real, b: real)
    requires IsSqrt(sqrt) && a >= 0.0 && b >= 0.0 && d * d <= a * b
    ensures -1.0 <= Cosine(sqrt, d, a, b) <= 1.0
  {
    if a != 0.0 && b != 0.0 {
      var s, t := sqrt(a), sqrt(b);
      CosineOf(sqrt, d, a, b, s, t);
      SquareOfProduct(s, t);
      SquareOrder(s * t, d);
      QuotientBounded(d, s * t);
    }
  }

  /** The drift of one axis; only meaningful where Similarity is Ok. */
  function Drift(sqrt: real -> real, v: Vector, w: Vector, a: Axis): real
    requires IsSqrt(sqrt)
  {
    var s := Similarity(sqrt, v, w, a);
    if s.Ok? then 1.0 - s.value else 1.0
  }

  /** For all vectors every axis drift lies between 0 and 2. */
  lemma DriftBounded(sqrt: real -> real, v: Vector, w: Vector, a: Axis)
    requires IsSqrt(sqrt)
    ensures 0.0 <= Drift(sqrt, v, w, a) <= 2.0
  {
    if Similarity(sqrt, v, w, a).Ok? {
      NormNotNegative(v, a.start, a.end + 1);
      NormNotNegative(w, a.start, a.end + 1);
      CauchySchwarz(v, w, a.start, a.end + 1);
      CosineBounded(sqrt, Dot(v, w, a.start, a.end + 1), Dot(v, v, a.start, a.end + 1), Dot(w, w, a.start, a.end + 1));
    }
  }

  // ------------------------------------------------------------ scaling

  function Scaled(v: Vector, c: real): (w: Vector)
    ensures |w| == |v|
  {
    seq(|v|, i requires 0 <= i < |v| => c * v[i])
  }

  lemma Distribute(b: real, c: real, x: real, y: real)
    ensures b * (c * (x + y)) == b * (c * x) + b * (c * y)
  {
    assert c * (x + y) == c * x + c * y;
  }

  lemma {:induction false} DotScales(v: Vector, w: Vector, b: real, c: real, lo: nat, hi: nat)
    requires hi <= |v| && hi <= |w|
    ensures Dot(Scaled(v, b), Scaled(w, c), lo, hi) == b * (c * Dot(v, w, lo, hi))
  {
    if lo < hi {
      DotScales(v, w, b, c, lo, hi - 1);
      var x, y := v[hi - 1], w[hi - 1];
      assert (b * x) * (c * y) == b * (c * (x * y));
      Distribute(b, c, Dot(v, w, lo, hi - 1), x * y);
    }
  }

  lemma RootUnique(p: real, q: real)
    requires p >= 0.0 && q >= 0.0 && p * p == q * q
    ensures p == q
  {
    SquareOrder(p, q);
    SquareOrder(q, p);
  }

  lemma ScaledSquare(b: real, m: real)
    requires b > 0.0 && m >= 0.0
    ensures b * (b * m) >= 0.0 && (b * (b * m) == 0.0 <==> m == 0.0)
  {
    if m > 0.0 {
      ProductPositive(b, m);
      ProductPositive(b, b * m);
    }
  }

  lemma RootScales(sqrt: real -> real, n: real, c: real)
    requires IsSqrt(sqrt) && n >= 0.0 && c > 0.0
    ensures c * (c * n) >= 0.0 && sqrt(c * (c * n)) == c * sqrt(n)
  {
    ScaledSquare(c, n);
    var s, big := sqrt(n), c * (c * n);
    assert (c * s) * (c * s) == c * (c * (s * s)) == big;
    assert c * s >= 0.0;
    RootUnique(sqrt(big), c * s);
  }

  lemma CommonFactor(k: real, d: real, r: real)
    requires k > 0.0 && r > 0.0
    ensures k * r > 0.0 && (k * d) / (k * r) == d / r
  {
    ProductPositive(k, r);
    var q := d / r;
    assert q * r == d;
    assert q * (k * r) == k * d;
  }

  lemma ScaledRatio(s: real, t: real, d: real, b: real, c: real)
    requires s > 0.0 && t > 0.0 && b > 0.0 && c > 0.0
    ensures s * t > 0.0 && (b * s) * (c * t) > 0.0
    ensures (b * (c * d)) / ((b * s) * (c * t)) == d / (s * t)
  {
    ProductPositive(s, t);
    ProductPositive(b, c);
    CommonFactor(b * c, d, s * t);
    assert (b * s) * (c * t) == (b * c) * (s * t);
    assert b * (c * d) == (b * c) * d;
  }

  lemma CosineScales(sqrt: real -> real, d: real, m: real, n: real, b: real, c: real)
    requires IsSqrt(sqrt) && m >= 0.0 && n >= 0.0 && b > 0.0 && c > 0.0
    ensures b * (b * m) >= 0.0 && c * (c * n) >= 0.0
    ensures Cosine(sqrt, b * (c * d), b * (b * m), c * (c * n)) == Cosine(sqrt, d, m, n)
  {
    ScaledSquare(b, m);
    ScaledSquare(c, n);
    var m', n' := b * (b * m), c * (c * n);
    if m != 0.0 && n != 0.0 {
      var s, t := sqrt(m), sqrt(n);
      RootScales(sqrt, m, b);
      RootScales(sqrt, n, c);
      CosineOf(sqrt, d, m, n, s, t);
      CosineOf(sqrt, b * (c * d), m', n', b * s, c * t);
      ScaledRatio(s, t, d, b, c);
    }
  }

  /** The three sums of one axis. */
  datatype Sums = Sums(dot: real, norm1: real, norm2: real)

  predicate ScalesTo(b: real, c: real, x: real, y: real) {
    y == b * (c * x)
  }

  ghost predicate SumsScale(x: Sums, y: Sums, b: real, c: real) {
    ScalesTo(b, c, x.dot, y.dot) && ScalesTo(b, b, x.norm1, y.norm1) && ScalesTo(c, c, x.norm2, y.norm2)
  }

  lemma ScaledCosine(sqrt: real -> real, x: Sums, y: Sums, b: real, c: real)
    requires IsSqrt(sqrt) && x.norm1 >= 0.0 && x.norm2 >= 0.0 && b > 0.0 && c > 0.0 && SumsScale(x, y, b, c)
    ensures y.norm1 >= 0.0 && y.norm2 >= 0.0
    ensures Cosine(sqrt, y.dot, y.norm1, y.norm2) == Cosine(sqrt, x.dot, x.norm1, x.norm2)
  {
    CosineScales(sqrt, x.dot, x.norm1, x.norm2, b, c);
    var z := Sums(b * (c * x.dot), b * (b * x.norm1), c * (c * x.norm2));
    assert y == z;
  }

  function SumsOf(v: Vector, w: Vector, lo: nat, hi: nat): Sums
    requires hi <= |v| && hi <= |w|
  {
    Sums(Dot(v, w, lo, hi), Dot(v, v, lo, hi), Dot(w, w, lo, hi))
  }

  lemma DotScalesTo(v: Vector, w: Vector, b: real, c: real, lo: nat, hi: nat)
    requires hi <= |v| && hi <= |w|
    ensures ScalesTo(b, c, Dot(v, w, lo, hi), Dot(Scaled(v, b), Scaled(w, c), lo, hi))
  {
    DotScales(v, w, b, c, lo, hi);
  }

  lemma SumsOfScale(v: Vector, w: Vector, lo: nat, hi: nat, b: real, c: real)
    requires hi <= |v| && hi <= |w|
    ensures SumsScale(SumsOf(v, w, lo, hi), SumsOf(Scaled(v, b), Scaled(w, c), lo, hi), b, c)
  {
    DotScalesTo(v, w, b, c, lo, hi);
    DotScalesTo(v, v, b, b, lo, hi);
    DotScalesTo(w, w, c, c, lo, hi);
  }

  lemma RangeScales(sqrt: real -> real, v: Vector, w: Vector, lo: nat, hi: nat, b: real, c: real, x: Sums, y: Sums)
    requires IsSqrt(sqrt) && b > 0.0 && c > 0.0 && hi <= |v| && hi <= |w|
    requires x == SumsOf(v, w, lo, hi) && y == SumsOf(Scaled(v, b), Scaled(w, c), lo, hi)
    ensures x.norm1 >= 0.0 && x.norm2 >= 0.0 && y.norm1 >= 0.0 && y.norm2 >= 0.0
    ensures Cosine(sqrt, y.dot, y.norm1, y.norm2) == Cosine(sqrt, x.dot, x.norm1, x.norm2)
  {
    NormNotNegative(v, lo, hi);
    NormNotNegative(w, lo, hi);
    SumsOfScale(v, w, lo, hi, b, c);
    ScaledCosine(sqrt, x, y, b, c);
  }

  /** Positive scaling of either vector changes no similarity, and no error. */
  lemma SimilarityScales(sqrt: real -> real, v: Vector, w: Vector, a: Axis, b: real, c: real)
    requires IsSqrt(sqrt) && b > 0.0 && c > 0.0
    ensures Similarity(sqrt, Scaled(v, b), Scaled(w, c), a) == Similarity(sqrt, v, w, a)
  {
    if |v| == 128 && |w| == 128 && ValidBounds(a) {
      var lo, hi := a.start, a.end + 1;
      RangeScales(sqrt, v, w, lo, hi, b, c, SumsOf(v, w, lo, hi), SumsOf(Scaled(v, b), Scaled(w, c), lo, hi));
    }
  }

  // ------------------------------------------------------------ EvaluateDrift

  const NoFinding := AxisCheckResult(true, 0.0, NoDrift, [])

  function Check(
    sqrt: real -> real, res: AxisCheckResult, v: Vector, w: Vector, a: Axis, threshold: real
  ): AxisCheckResult
    requires IsSqrt(sqrt)
  {
    match Similarity(sqrt, v, w, a)
    case Err(e) => AxisCheckResult(false, 1.0, InvalidAxisInput, res.reasonCodes + [Failed(e)])
    case Ok(sim) =>
      var drift := 1.0 - sim;
      if drift > threshold then
        var reasons := res.reasonCodes + [Drifted(a.drift)];
        if drift > res.driftScore then AxisCheckResult(false, drift, a.drift, reasons)
        else AxisCheckResult(false, res.driftScore, res.driftType, reasons)
      else res
  }

  function Checked(sqrt: real -> real, v: Vector, w: Vector, axes: seq<Axis>, threshold: real): AxisCheckResult
    requires IsSqrt(sqrt)
  {
    if axes == [] then NoFinding
    else Check(sqrt, Checked(sqrt, v, w, axes[..|axes| - 1], threshold), v, w, axes[|axes| - 1], threshold)
  }

  method EvaluateDrift(sqrt: real -> real, anchor: Vector, mutated: Vector, axes: seq<Axis>, threshold: real)
    returns (res: AxisCheckResult)
    requires IsSqrt(sqrt)
    ensures res == Checked(sqrt, anchor, mutated, axes, threshold)
  {
    res := NoFinding;
    for k := 0 to |axes|
      invariant res == Checked(sqrt, anchor, mutated, axes[..k], threshold)
    {
      assert axes[..k + 1][..k] == axes[..k];
      var a := axes[k];
      var sim := CosineSimilarity(sqrt, anchor, mutated, a);
      if sim.Err? {
        res := AxisCheckResult(false, 1.0, InvalidAxisInput, res.reasonCodes + [Failed(sim.error)]);
      } else {
        var drift := 1.0 - sim.value;
        if drift > threshold {
          res := res.(axisPreserved := false, reasonCodes := res.reasonCodes + [Drifted(a.drift)]);
          if drift > res.driftScore {
            res := res.(driftScore := drift, driftType := a.drift);
          }
        }
      }
    }
    assert axes[..|axes|] == axes;
  }

  ghost predicate Comparable(v: Vector, w: Vector, axes: seq<Axis>) {
    |v| == 128 && |w| == 128 && forall k :: 0 <= k < |axes| ==> ValidBounds(axes[k])
  }

  function Drifts(sqrt: real -> real, v: Vector, w: Vector, axes: seq<Axis>): (ds: seq<real>)
    requires IsSqrt(sqrt)
    ensures |ds| == |axes|
    ensures forall k :: 0 <= k < |axes| ==> ds[k] == Drift(sqrt, v, w, axes[k])
  {
    seq(|axes|, k requires 0 <= k < |axes| => Drift(sqrt, v, w, axes[k]))
  }

  /** Axis `k` fails, no failing axis drifts further, and no earlier one as far. */
  ghost predicate Leads(ds: seq<real>, threshold: real, k: nat) {
    && k < |ds| && ds[k] > threshold
    && (forall j :: 0 <= j < |ds| ==> ds[j] <= ds[k])
    && (forall j :: 0 <= j < k ==> ds[j] < ds[k])
  }

  ghost predicate NoneExceeds(ds: seq<real>, threshold: real) {
    forall j :: 0 <= j < |ds| ==> ds[j] <= threshold
  }

  lemma CheckByDrift(sqrt: real -> real, res: AxisCheckResult, v: Vector, w: Vector, a: Axis, threshold: real)
    requires IsSqrt(sqrt) && |v| == 128 && |w| == 128 && ValidBounds(a)
    ensures var d, r := Drift(sqrt, v, w, a), Check(sqrt, res, v, w, a, threshold);
            && (d <= threshold ==> r == res)
            && (d > threshold ==>
                  && !r.axisPreserved
                  && r.driftScore == (if d > res.driftScore then d else res.driftScore)
                  && r.driftType == (if d > res.driftScore then a.drift else res.driftType))
  {
  }

  lemma DriftsNotNegative(sqrt: real -> real, v: Vector, w: Vector, axes: seq<Axis>)
    requires IsSqrt(sqrt)
    ensures forall k :: 0 <= k < |axes| ==> Drifts(sqrt, v, w, axes)[k] >= 0.0
  {
    forall k | 0 <= k < |axes|
      ensures Drift(sqrt, v, w, axes[k]) >= 0.0
    {
      DriftBounded(sqrt, v, w, axes[k]);
    }
  }

  /**
    The axes are preserved exactly when no drift exceeds the threshold; otherwise score and type are
    those of the first axis of maximal drift, which goes without a type when that drift is zero.
    */
  lemma {:induction false} DriftVerdict(sqrt: real -> real, v: Vector, w: Vector, axes: seq<Axis>, threshold: real)
    returns (k: nat)
    requires IsSqrt(sqrt) && Comparable(v, w, axes)
    ensures var r, ds := Checked(sqrt, v, w, axes, threshold), Drifts(sqrt, v, w, axes);
            && (r.axisPreserved <==> NoneExceeds(ds, threshold))
            && (r.axisPreserved ==> r == NoFinding)
            && (!r.axisPreserved ==>
                  && Leads(ds, threshold, k) && r.driftScore == ds[k]
                  && r.driftType == if ds[k] > 0.0 then axes[k].drift else NoDrift)
  {
    if axes == [] {
      k := 0;
    } else {
      var n := |axes| - 1;
      k := DriftVerdict(sqrt, v, w, axes[..n], threshold);
      var before := Checked(sqrt, v, w, axes[..n], threshold);
      CheckByDrift(sqrt, before, v, w, axes[n], threshold);
      DriftsNotNegative(sqrt, v, w, axes);
      var ds, d := Drifts(sqrt, v, w, axes), Drift(sqrt, v, w, axes[n]);
      assert Drifts(sqrt, v, w, axes[..n]) == ds[..n];
      assert ds == ds[..n] + [d];
      assert ds[n] == d >= 0.0;
      assert n > 0 ==> ds[..n][0] == ds[0] >= 0.0;
      k := VerdictStep(ds[..n], d, threshold, before.axisPreserved, k);
    }
  }

  /** For vectors and partitions of any kind: preserved exactly when every similarity is defined and near enough. */
  lemma {:induction false} PreservedExactly(sqrt: real -> real, v: Vector, w: Vector, axes: seq<Axis>, threshold: real)
    requires IsSqrt(sqrt)
    ensures Checked(sqrt, v, w, axes, threshold).axisPreserved <==>
            forall k :: 0 <= k < |axes| ==>
              Similarity(sqrt, v, w, axes[k]).Ok? && 1.0 - Similarity(sqrt, v, w, axes[k]).value <= threshold
  {
    if axes != [] {
      var n := |axes| - 1;
      PreservedExactly(sqrt, v, w, axes[..n], threshold);
      assert forall k :: 0 <= k < n ==> axes[..n][k] == axes[k];
    }
  }

  /** An axis that cannot be compared resets score and type, however far an earlier one drifted. */
  lemma UndefinedAxisResets(sqrt: real -> real, v: Vector, w: Vector, axes: seq<Axis>, bad: Axis, threshold: real)
    requires IsSqrt(sqrt) && Similarity(sqrt, v, w, bad).Err?
    ensures var r := Checked(sqrt, v, w, axes + [bad], threshold);
            !r.axisPreserved && r.driftScore == 1.0 && r.driftType == InvalidAxisInput
  {
    assert (axes + [bad])[..|axes|] == axes;
  }

  /** The higher of the threshold and the score so far. */
  function Floor(threshold: real, score: real): real {
    if threshold > score then threshold else score
  }

  /** What checks with the drifts `ds` make of the result `b`. */
  ghost predicate Told(b: AxisCheckResult, r: AxisCheckResult, ds: seq<real>, axes: seq<Axis>, threshold: real, k: nat)
    requires |ds| == |axes|
  {
    var floor := Floor(threshold, b.driftScore);
    && (r.axisPreserved <==> b.axisPreserved && NoneExceeds(ds, threshold))
    && (NoneExceeds(ds, floor) ==> r.driftScore == b.driftScore && r.driftType == b.driftType)
    && (!NoneExceeds(ds, floor) ==> Leads(ds, floor, k) && r.driftScore == ds[k] && r.driftType == axes[k].drift)
  }

  /** One more check, by its drift alone. */
  ghost predicate Checks(r: AxisCheckResult, next: AxisCheckResult, a: Axis, d: real, threshold: real) {
    && (d <= threshold ==> next == r)
    && (d > threshold ==>
          && !next.axisPreserved
          && next.driftScore == (if d > r.driftScore then d else r.driftScore)
          && next.driftType == (if d > r.driftScore then a.drift else r.driftType))
  }

  lemma ToldMore(
    b: AxisCheckResult, r: AxisCheckResult, next: AxisCheckResult, ds: seq<real>, axes: seq<Axis>, d: real, a: Axis,
    threshold: real, before: nat
  ) returns (k: nat)
    requires |ds| == |axes| && Told(b, r, ds, axes, threshold, before) && Checks(r, next, a, d, threshold)
    ensures Told(b, next, ds + [d], axes + [a], threshold, k)
  {
    var floor := Floor(threshold, b.driftScore);
    LastExceeds(ds, d, threshold);
    k := VerdictStep(ds, d, floor, NoneExceeds(ds, floor), before);
    assert forall i :: 0 <= i < |ds| ==> (ds + [d])[i] == ds[i] && (axes + [a])[i] == axes[i];
  }

  /**
    Comparable axes checked after anything else: they change score and type exactly when one of them
    drifts beyond both the threshold and the score so far, and then to the first of maximal drift.
    */
  lemma {:induction false} VerdictAfter(
    sqrt: real -> real, v: Vector, w: Vector, before: seq<Axis>, axes: seq<Axis>, threshold: real
  ) returns (k: nat)
    requires IsSqrt(sqrt) && Comparable(v, w, axes)
    ensures Told(Checked(sqrt, v, w, before, threshold), Checked(sqrt, v, w, before + axes, threshold),
                 Drifts(sqrt, v, w, axes), axes, threshold, k)
  {
    if axes == [] {
      assert before + axes == before;
      k := 0;
    } else {
      var init, last := axes[..|axes| - 1], axes[|axes| - 1];
      k := VerdictAfter(sqrt, v, w, before, init, threshold);
      assert before + axes == (before + init) + [last] && axes == init + [last];
      var r, ds := Checked(sqrt, v, w, before + init, threshold), Drifts(sqrt, v, w, init);
      CheckedMore(sqrt, v, w, before + init, last, threshold);
      assert Drifts(sqrt, v, w, axes) == ds + [Drift(sqrt, v, w, last)];
      k := ToldMore(Checked(sqrt, v, w, before, threshold), r, Checked(sqrt, v, w, before + axes, threshold),
                    ds, init, Drift(sqrt, v, w, last), last, threshold, k);
    }
  }

  lemma CheckedMore(sqrt: real -> real, v: Vector, w: Vector, axes: seq<Axis>, a: Axis, threshold: real)
    requires IsSqrt(sqrt) && |v| == 128 && |w| == 128 && ValidBounds(a)
    ensures Checks(Checked(sqrt, v, w, axes, threshold), Checked(sqrt, v, w, axes + [a], threshold), a,
                   Drift(sqrt, v, w, a), threshold)
  {
    assert (axes + [a])[..|axes|] == axes;
    CheckByDrift(sqrt, Checked(sqrt, v, w, axes, threshold), v, w, a, threshold);
  }

  lemma LastExceeds(ds: seq<real>, d: real, threshold: real)
    ensures NoneExceeds(ds + [d], threshold) <==> NoneExceeds(ds, threshold) && d <= threshold
  {
    var all := ds + [d];
    assert all[|ds|] == d && forall j :: 0 <= j < |ds| ==> all[j] == ds[j];
  }

  lemma VerdictStep(ds: seq<real>, d: real, threshold: real, preserved: bool, before: nat) returns (k: nat)
    requires preserved <==> NoneExceeds(ds, threshold)
    requires !preserved ==> Leads(ds, threshold, before)
    ensures NoneExceeds(ds + [d], threshold) <==> preserved && d <= threshold
    ensures !NoneExceeds(ds + [d], threshold) ==> Leads(ds + [d], threshold, k)
    ensures k == if preserved || (d > threshold && d > ds[before]) then |ds| else before
  {
    k := if preserved || (d > threshold && d > ds[before]) then |ds| else before;
    var all := ds + [d];
    assert all[|ds|] == d && forall j :: 0 <= j < |ds| ==> all[j] == ds[j];
    assert preserved && d <= threshold ==> NoneExceeds(all, threshold);
    if !preserved {
      assert all[before] > threshold;
    }
  }

  /** The axes whose drift exceeds the threshold, in order. */
  function Exceeding(ds: seq<real>, axes: seq<Axis>, threshold: real): seq<ReasonText>
    requires |ds| == |axes|
  {
    if axes == [] then []
    else
      var n := |axes| - 1;
      Exceeding(ds[..n], axes[..n], threshold) + if ds[n] > threshold then [Drifted(axes[n].drift)] else []
  }

  /** The reason codes are exactly those axes. */
  lemma {:induction false} ReasonsAreExceeding(
    sqrt: real -> real, v: Vector, w: Vector, axes: seq<Axis>, threshold: real
  )
    requires IsSqrt(sqrt) && Comparable(v, w, axes)
    ensures Checked(sqrt, v, w, axes, threshold).reasonCodes == Exceeding(Drifts(sqrt, v, w, axes), axes, threshold)
  {
    if axes != [] {
      var n := |axes| - 1;
      ReasonsAreExceeding(sqrt, v, w, axes[..n], threshold);
      assert Drifts(sqrt, v, w, axes[..n]) == Drifts(sqrt, v, w, axes)[..n];
    }
  }

  lemma {:induction false} ChecksScale(
    sqrt: real -> real, v: Vector, w: Vector, axes: seq<Axis>, threshold: real, b: real, c: real
  )
    requires IsSqrt(sqrt) && b > 0.0 && c > 0.0
    ensures Checked(sqrt, Scaled(v, b), Scaled(w, c), axes, threshold) == Checked(sqrt, v, w, axes, threshold)
  {
    if axes != [] {
      ChecksScale(sqrt, v, w, axes[..|axes| - 1], threshold, b, c);
      SimilarityScales(sqrt, v, w, axes[|axes| - 1], b, c);
    }
  }

  /** The default dimensions part 0 to 127, each with the drift of its own axis. */
  lemma DefaultPartition(i: int)
    ensures DefaultAxes == [DefaultAxes[0], DefaultAxes[1], DefaultAxes[2], DefaultAxes[3], DefaultAxes[4]]
    ensures DefaultAxes[0].start <= i <= DefaultAxes[0].end <==> 0 <= i < 24
    ensures DefaultAxes[1].start <= i <= DefaultAxes[1].end <==> 24 <= i < 48
    ensures DefaultAxes[2].start <= i <= DefaultAxes[2].end <==> 48 <= i < 72
    ensures DefaultAxes[3].start <= i <= DefaultAxes[3].end <==> 72 <= i < 96
    ensures DefaultAxes[4].start <= i <= DefaultAxes[4].end <==> 96 <= i < 128
    ensures DefaultAxes[0].drift == Temporality && DefaultAxes[1].drift == Epistemic && DefaultAxes[2].drift == Scope
    ensures DefaultAxes[3].drift == Trust && DefaultAxes[4].drift == Mandate
  {
  }

  /** A vector preserves itself exactly when none of the five ranges is all zero, or the threshold is 1 or more. */
  lemma SelfPreserved(sqrt: real -> real, v: Vector, threshold: real)
    requires IsSqrt(sqrt) && |v| == 128
    ensures Checked(sqrt, v, v, DefaultAxes, threshold).axisPreserved <==>
            || threshold >= 1.0
            || (&& threshold >= 0.0
                && (exists i :: 0 <= i < 24 && v[i] != 0.0) && (exists i :: 24 <= i < 48 && v[i] != 0.0)
                && (exists i :: 48 <= i < 72 && v[i] != 0.0) && (exists i :: 72 <= i < 96 && v[i] != 0.0)
                && (exists i :: 96 <= i < 128 && v[i] != 0.0))
  {
    SelfSimilarity(sqrt, v, DefaultAxes[0], 0, 24);
    SelfSimilarity(sqrt, v, DefaultAxes[1], 24, 48);
    SelfSimilarity(sqrt, v, DefaultAxes[2], 48, 72);
    SelfSimilarity(sqrt, v, DefaultAxes[3], 72, 96);
    SelfSimilarity(sqrt, v, DefaultAxes[4], 96, 128);
    PreservedOnFive(sqrt, v, v, DefaultAxes, threshold);
  }

  predicate Near(sqrt: real -> real, v: Vector, w: Vector, a: Axis, threshold: real)
    requires IsSqrt(sqrt)
  {
    Similarity(sqrt, v, w, a).Ok? && 1.0 - Similarity(sqrt, v, w, a).value <= threshold
  }

  lemma PreservedOnFive(sqrt: real -> real, v: Vector, w: Vector, axes: seq<Axis>, threshold: real)
    requires IsSqrt(sqrt) && |axes| == 5
    ensures Checked(sqrt, v, w, axes, threshold).axisPreserved <==>
            && Near(sqrt, v, w, axes[0], threshold) && Near(sqrt, v, w, axes[1], threshold)
            && Near(sqrt, v, w, axes[2], threshold) && Near(sqrt, v, w, axes[3], threshold)
            && Near(sqrt, v, w, axes[4], threshold)
  {
    PreservedExactly(sqrt, v, w, axes, threshold);
    forall k | 0 <= k < 5
      ensures axes[k] in {axes[0], axes[1], axes[2], axes[3], axes[4]}
    {
    }
  }

  lemma SelfSimilarity(sqrt: real -> real, v: Vector, a: Axis, lo: nat, hi: nat)
    requires IsSqrt(sqrt) && |v| == 128 && a.start == lo && a.end + 1 == hi && lo < hi <= 128
    ensures Similarity(sqrt, v, v, a) == Ok(if exists i :: lo <= i < hi && v[i] != 0.0 then 1.0 else 0.0)
  {
    NormZeroExactly(v, lo, hi);
    NormNotNegative(v, lo, hi);
    var n := Dot(v, v, lo, hi);
    if n != 0.0 {
      CosineOfRoots(sqrt, n, n, n, sqrt(n), sqrt(n));
    }
  }

  /** Vectors of the wrong size fail every axis, whatever the threshold. */
  lemma {:induction false} WrongSizeFailsAll(sqrt: real -> real, v: Vector, w: Vector, axes: seq<Axis>, threshold: real)
    requires IsSqrt(sqrt) && (|v| != 128 || |w| != 128)
    ensures Checked(sqrt, v, w, axes, threshold)
            == if axes == [] then NoFinding
               else AxisCheckResult(false, 1.0, InvalidAxisInput, seq(|axes|, _ => Failed(InvalidVectorSize)))
  {
    if axes != [] {
      WrongSizeFailsAll(sqrt, v, w, axes[..|axes| - 1], threshold);
    }
  }

  // ------------------------------------------------------------ from drift to quarantine

  /** MapDriftToQuarantine: reason and event type. */
  function MapDriftToQuarantine(d: DriftType): (byte, byte) {
    match d
    case Temporality => (ReasonPoisoningSuspected, EventPoisoningSuspected)
    case Epistemic => (ReasonPoisoningSuspected, EventPoisoningSuspected)
    case Scope => (ReasonCrossSessionLeak, EventCrossSessionLeak)
    case Trust => (ReasonRetroactiveRevocation, EventQuarantineMemory)
    case Mandate => (ReasonPromptInjectionDetected, EventPromptInjectionDetected)
    case _ => (ReasonPoisoningSuspected, EventQuarantineMemory)
  }

  /** Reason and event type of each drift, as the bytes that are logged. */
  lemma DriftNumbers()
    ensures MapDriftToQuarantine(Temporality) == (0, 4) && MapDriftToQuarantine(Epistemic) == (0, 4)
    ensures MapDriftToQuarantine(Scope) == (2, 6) && MapDriftToQuarantine(Trust) == (3, 0)
    ensures MapDriftToQuarantine(Mandate) == (1, 5)
    ensures MapDriftToQuarantine(InvalidAxisInput) == MapDriftToQuarantine(NoDrift) == (0, 0)
  {
  }

  lemma DriftQuarantines(e: RevocationEvent, d: DriftType)
    requires (e.reason, e.eventType) == MapDriftToQuarantine(d)
    ensures ClassOf(e) == Quarantining
  {
  }

  /** Any drift, once in the ledger, takes its memory out of use: quarantined, or still deleted. */
  lemma DriftEventBlocks(es: Ledger, e: RevocationEvent, d: DriftType)
    requires (e.reason, e.eventType) == MapDriftToQuarantine(d)
    ensures ClassOf(e) == Quarantining
    ensures Lookup(Fold(NoMaps, es + [e]), e.memoryId).decision
            == if LastOf(es, e.memoryId, Deletes) >= 0 then DeleteRequested else Decision.Quarantine
  {
    DriftQuarantines(e, d);
    QuarantineBlocks(es, e);
  }

  lemma QuarantineBlocks(es: Ledger, e: RevocationEvent)
    requires ClassOf(e) == Quarantining
    ensures Lookup(Fold(NoMaps, es + [e]), e.memoryId).decision
            == if LastOf(es, e.memoryId, Deletes) >= 0 then DeleteRequested else Decision.Quarantine
  {
    FoldTouches(es, e, e.memoryId);
    LookupAt(Fold(NoMaps, es + [e]), e.memoryId);
    EntryReadsHistory(es, e.memoryId);
  }
}
