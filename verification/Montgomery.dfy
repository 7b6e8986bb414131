/**
 What a step of the ladder computes, in the formulas for the curve v^2 = u^3 + 486662 u^2 + u: the first point is
 doubled, and the second becomes the sum of the two, whose difference has the coordinate u.
 */
module Montgomery {
  import opened ModArith
  import opened Field25519
  import opened Ladder
  import opened Projective

  const A := 486662

  // ----- congruence modulo the prime -----

  /** The multiples of the prime, by repeated addition. */
  function Times(k: int): int
    decreases if k < 0 then -k else k
  {
    if k == 0 then 0 else if k > 0 then Times(k - 1) + P else Times(k + 1) - P
  }

  lemma {:induction false} TimesIs(k: int)
    ensures Times(k) == k * P
    decreases if k < 0 then -k else k
  {
    if k > 0 {
      TimesIs(k - 1);
    } else if k < 0 {
      TimesIs(k + 1);
    }
  }

  ghost predicate Cong(i: int, j: int) {
    exists k: int :: i == j + Times(k)
  }

  lemma CongBy(i: int, j: int, k: int)
    requires i == j + k * P
    ensures Cong(i, j)
  {
    TimesIs(k);
    assert i == j + Times(k);
  }

  lemma Same(i: int)
    ensures Cong(i, i)
  {
    CongBy(i, i, 0);
  }

  lemma CongSum(i: int, j: int, k: int, l: int)
    requires Cong(i, j) && Cong(k, l)
    ensures Cong(i + k, j + l) && Cong(i - k, j - l)
  {
    var m :| i == j + Times(m);
    var n :| k == l + Times(n);
    TimesIs(m);
    TimesIs(n);
    CongBy(i + k, j + l, m + n);
    CongBy(i - k, j - l, m - n);
  }

  lemma CongProduct(i: int, j: int, k: int, l: int)
    requires Cong(i, j) && Cong(k, l)
    ensures Cong(i * k, j * l)
  {
    var m :| i == j + Times(m);
    var n :| k == l + Times(n);
    TimesIs(m);
    TimesIs(n);
    ProductBy(i, j, k, l, m, n, P);
    CongBy(i * k, j * l, m * k + j * n);
  }

  lemma ProductBy(i: int, j: int, k: int, l: int, m: int, n: int, p: int)
    requires i == j + m * p && k == l + n * p
    ensures i * k == j * l + (m * k + j * n) * p
  {
    Distribute(j, m * p, k);
    Distribute(l, n * p, j);
    Rotate(m, p, k);
    Rotate(m, k, p);
    Rotate(j, n, p);
    Distribute(m * k, j * n, p);
  }

  lemma Chain(i: int, j: int, k: int)
    requires Cong(i, j) && Cong(j, k)
    ensures Cong(i, k) && Cong(k, i)
  {
    var m :| i == j + Times(m);
    var n :| j == k + Times(n);
    TimesIs(m);
    TimesIs(n);
    CongBy(i, k, m + n);
    CongBy(k, i, -m - n);
  }

  lemma Reduced(i: int)
    ensures Cong(i % P, i)
  {
    CongBy(i % P, i, -(i / P));
  }

  lemma AddOf(a: elem, b: elem, i: int, j: int)
    requires Cong(a, i) && Cong(b, j)
    ensures Cong(FAdd(a, b), i + j)
  {
    Reduced(a + b);
    CongSum(a, i, b, j);
    Chain(FAdd(a, b), a + b, i + j);
  }

  lemma SubOf(a: elem, b: elem, i: int, j: int)
    requires Cong(a, i) && Cong(b, j)
    ensures Cong(FSub(a, b), i - j)
  {
    Reduced(a - b);
    CongSum(a, i, b, j);
    Chain(FSub(a, b), a - b, i - j);
  }

  lemma MulOf(a: elem, b: elem, i: int, j: int)
    requires Cong(a, i) && Cong(b, j)
    ensures Cong(FMul(a, b), i * j)
  {
    Reduced(a * b);
    CongProduct(a, i, b, j);
    Chain(FMul(a, b), a * b, i * j);
  }

  // ----- integer identities -----

  lemma Binomial(x: int, z: int)
    ensures (x + z) * (x + z) == x * x + 2 * (x * z) + z * z
    ensures (x - z) * (x - z) == x * x - 2 * (x * z) + z * z
    ensures (x + z) * (x - z) == x * x - z * z
  { }

  lemma DoubleX(x: int, z: int)
    ensures ((x + z) * (x + z)) * ((x - z) * (x - z)) == (x * x - z * z) * (x * x - z * z)
  {
    MulExchange(x + z, x - z, x + z, x - z);
    Binomial(x, z);
  }

  lemma DoubleZ(x: int, z: int)
    ensures var aa, bb := (x + z) * (x + z), (x - z) * (x - z);
            (aa - bb) * (aa + 121665 * (aa - bb)) == (4 * (x * z)) * (x * x + A * (x * z) + z * z)
  {
    Binomial(x, z);
  }

  lemma Cross(x: int, z: int, v: int, w: int)
    ensures (v - w) * (x + z) + (v + w) * (x - z) == 2 * (x * v - z * w)
    ensures (v - w) * (x + z) - (v + w) * (x - z) == 2 * (z * v - x * w)
  { }

  lemma SquareOfTwice(t: int)
    ensures (2 * t) * (2 * t) == 4 * (t * t)
  { }

  // ----- the curve -----

  /** The right-hand side of the equation of a Montgomery curve. */
  function Cubic(a: int, x: int): int {
    x * (x * x + a * x + 1)
  }

  ghost predicate OnCurve(x: int, y: int) {
    Cong(y * y, Cubic(A, x))
  }

  /** The tangent at (x, y) meets the curve again at the coordinate Tangent(x, y) / (2 y)^2. */
  function Tangent(x: int, y: int): int {
    var slope := 3 * (x * x) + 2 * (A * x) + 1;
    slope * slope - 4 * ((A + 2 * x) * (y * y))
  }

  /** The line through (x, y) and (v, w) meets it again at the coordinate Chord(x, y, v, w) / (x - v)^2. */
  function Chord(x: int, y: int, v: int, w: int): int {
    (y - w) * (y - w) - (A + (x + v)) * ((x - v) * (x - v))
  }

  lemma Quadratics(q: int, k: int)
    ensures (3 * q + 2 * k + 1) * (3 * q + 2 * k + 1) - 4 * ((k + 2 * q) * (q + k + 1)) == (q - 1) * (q - 1)
  { }

  lemma TangentIdentity(a: int, x: int)
    ensures var q := x * x;
            (3 * q + 2 * (a * x) + 1) * (3 * q + 2 * (a * x) + 1) - 4 * ((a + 2 * x) * Cubic(a, x)) ==
            (q - 1) * (q - 1)
  {
    var q, k := x * x, a * x;
    assert (a + 2 * x) * x == k + 2 * q;
    assert (a + 2 * x) * (x * (q + k + 1)) == ((a + 2 * x) * x) * (q + k + 1);
    Quadratics(q, k);
  }

  lemma CubicDifference(a: int, x: int, v: int)
    ensures Cubic(a, x) - Cubic(a, v) == (x - v) * ((x + v) * (a + (x + v)) - x * v + 1)
  {
    CubicTerms(a, x);
    CubicTerms(a, v);
    hide Cubic;
    Binomial(x, v);
    Cubes(x, v);
    Factored(x - v, x + v, x * v, a, x * x - v * v, x * (x * x) - v * (v * v));
    Distribute(x * x - v * v, v * v, a);
  }

  lemma Factored(d: int, s: int, m: int, a: int, squares: int, cubes: int)
    requires s * d == squares && squares * s == cubes + d * m
    ensures d * (s * (a + s) - m + 1) == a * squares + cubes + d
  {
    Rotate(d, s, a + s);
    Distribute(a, s, squares);
    Distribute(s * (a + s) - m, 1, d);
    Distribute(s * (a + s) - m, m, d);
  }

  lemma CubicTerms(a: int, x: int)
    ensures Cubic(a, x) == x * (x * x) + a * (x * x) + x
  {
    Distribute(x * x + a * x, 1, x);
    Distribute(x * x, a * x, x);
    Rotate(x, a, x);
  }

  lemma Cubes(x: int, v: int)
    ensures (x * x - v * v) * (x + v) == x * (x * x) - v * (v * v) + (x - v) * (x * v)
  {
    Distribute(x, v, x * x - v * v);
    Distribute(x * x - v * v, v * v, x);
    Distribute(x * x - v * v, v * v, v);
    Distribute(x - v, v, x * v);
    Rotate(x, x, v);
    Rotate(v, x, v);
  }

  lemma CubicSum(a: int, x: int, v: int)
    ensures var s, m := x + v, x * v;
            Cubic(a, x) + Cubic(a, v) == s * (s * (a + s)) - 3 * (m * s) - 2 * (a * m) + s
  { }

  /** With e = a + s and t = s e. */
  lemma SumScaled(a: int, s: int, m: int)
    ensures var e := a + s;
            var t := s * e;
            e * (s * t - 3 * (m * s) - 2 * (a * m) + s) == t * t - m * t - 2 * (m * (e * e)) + t
  {
    var e := a + s;
    var t := s * e;
    assert a == e - s;
    assert e * (s * t) == t * t by { Rotate(e, s, t); }
    assert e * (m * s) == m * t by { Rotate(e, m, s); }
    assert e * (a * m) == m * (e * e) - m * t by {
      assert a * m == e * m - s * m;
      Rotate(e, e, m);
      Rotate(e, s, m);
      assert m * (e * e) == (e * e) * m && m * t == t * m;
    }
    assert e * (s * t - 3 * (m * s) - 2 * (a * m) + s) ==
           e * (s * t) - 3 * (e * (m * s)) - 2 * (e * (a * m)) + e * s by { Four(e, s * t, m * s, a * m, s); }
  }

  lemma Four(e: int, a: int, b: int, c: int, d: int)
    ensures e * (a - 3 * b - 2 * c + d) == e * a - 3 * (e * b) - 2 * (e * c) + e * d
  { }

  lemma Completed(t: int, m: int, n: int)
    ensures (t - m + 1) * (t - m + 1) - 2 * (t * t - m * t - 2 * n + t) + (t * t - 4 * n) == (m - 1) * (m - 1)
  { }

  /** What makes the two lines through a pair of points and its mirror image go together. */
  lemma ChordIdentity(a: int, x: int, v: int)
    ensures var f, g, d, m := Cubic(a, x), Cubic(a, v), (x - v) * (x - v), x * v - 1;
            var line := (a + (x + v)) * d;
            (f - g) * (f - g) - 2 * (line * (f + g)) + line * line == (m * m) * d
  {
    hide Cubic;
    var s, m := x + v, x * v;
    CubicDifference(a, x, v);
    CubicSum(a, x, v);
    SumScaled(a, s, m);
    Binomial(x, v);
    ChordTerms(a + s, s, m, x - v, Cubic(a, x), Cubic(a, v));
  }

  lemma ChordTerms(e: int, s: int, m: int, r: int, f: int, g: int)
    requires r * r == s * s - 4 * m && f - g == r * (s * e - m + 1)
    requires e * (f + g) == (s * e) * (s * e) - m * (s * e) - 2 * (m * (e * e)) + s * e
    ensures var line := e * (r * r);
            (f - g) * (f - g) - 2 * (line * (f + g)) + line * line == ((m - 1) * (m - 1)) * (r * r)
  {
    var d, t := r * r, s * e;
    var k := t - m + 1;
    assert (f - g) * (f - g) == d * (k * k) by { MulExchange(r, k, r, k); }
    Lines(d, e, f + g);
    SquareScaled(e, s, m);
    Completed(t, m, m * (e * e));
    Three(d, k * k, e * (f + g), (e * e) * d);
  }

  lemma Lines(d: int, e: int, sum: int)
    ensures (e * d) * sum == d * (e * sum) && (e * d) * (e * d) == d * ((e * e) * d)
  {
    Rotate(e, d, sum);
    MulExchange(e, d, e, d);
    Rotate(d, e * e, d);
  }

  lemma SquareScaled(e: int, s: int, m: int)
    ensures (e * e) * (s * s - 4 * m) == (s * e) * (s * e) - 4 * (m * (e * e))
  {
    MulExchange(s, e, s, e);
    assert (s * s) * (e * e) == (e * e) * (s * s);
  }

  lemma Three(d: int, a: int, b: int, c: int)
    ensures d * a - 2 * (d * b) + d * c == (a - 2 * b + c) * d
  { }

  lemma TangentOnCurve(x: int, y: int)
    requires OnCurve(x, y)
    ensures Cong(Tangent(x, y), (x * x - 1) * (x * x - 1))
  {
    var slope := 3 * (x * x) + 2 * (A * x) + 1;
    TangentIdentity(A, x);
    Same(A + 2 * x);
    Same(4);
    Same(slope * slope);
    hide Cubic, Cong;
    CongProduct(A + 2 * x, A + 2 * x, y * y, Cubic(A, x));
    CongProduct(4, 4, (A + 2 * x) * (y * y), (A + 2 * x) * Cubic(A, x));
    CongSum(slope * slope, slope * slope, 4 * ((A + 2 * x) * (y * y)), 4 * ((A + 2 * x) * Cubic(A, x)));
  }

  /** (p - q)^2 - 2 l (p + q) + l^2 for p = y^2 and q = w^2. */
  lemma TwoLines(y: int, w: int, l: int)
    ensures var p, q := y * y, w * w;
            ((y - w) * (y - w) - l) * ((y + w) * (y + w) - l) == (p - q) * (p - q) - 2 * (l * (p + q)) + l * l
  {
    var p, q, r := y * y, w * w, y * w;
    assert (y - w) * (y - w) == p + q - 2 * r && (y + w) * (y + w) == p + q + 2 * r;
    assert r * r == p * q by { MulExchange(y, w, y, w); }
    TwoFactors(p, q, r, l);
  }

  lemma TwoFactors(p: int, q: int, r: int, l: int)
    requires r * r == p * q
    ensures (p + q - 2 * r - l) * (p + q + 2 * r - l) == (p - q) * (p - q) - 2 * (l * (p + q)) + l * l
  {
    var n := p + q - l;
    assert (n - 2 * r) * (n + 2 * r) == n * n - 4 * (r * r);
  }

  lemma TwoLinesCong(p: int, q: int, f: int, g: int, l: int)
    requires Cong(p, f) && Cong(q, g)
    ensures Cong((p - q) * (p - q) - 2 * (l * (p + q)) + l * l, (f - g) * (f - g) - 2 * (l * (f + g)) + l * l)
  {
    Same(l);
    Same(2);
    Same(l * l);
    hide Cong;
    CongSum(p, f, q, g);
    CongProduct(p - q, f - g, p - q, f - g);
    CongProduct(l, l, p + q, f + g);
    CongProduct(2, 2, l * (p + q), l * (f + g));
    CongSum((p - q) * (p - q), (f - g) * (f - g), 2 * (l * (p + q)), 2 * (l * (f + g)));
    CongSum((p - q) * (p - q) - 2 * (l * (p + q)), (f - g) * (f - g) - 2 * (l * (f + g)), l * l, l * l);
  }

  /** The lines to (v, w) and to its mirror image. */
  lemma ChordOnCurve(x: int, y: int, v: int, w: int)
    requires OnCurve(x, y) && OnCurve(v, w)
    ensures Cong(Chord(x, y, v, w) * Chord(x, y, v, -w), ((x * v - 1) * (x * v - 1)) * ((x - v) * (x - v)))
  {
    hide Cubic, Cong;
    var l := (A + (x + v)) * ((x - v) * (x - v));
    ChordIdentity(A, x, v);
    TwoLines(y, w, l);
    ChordPair(x, y, v, w, l);
    TwoLinesCong(y * y, w * w, Cubic(A, x), Cubic(A, v), l);
    hide Chord;
  }

  lemma ChordPair(x: int, y: int, v: int, w: int, l: int)
    requires l == (A + (x + v)) * ((x - v) * (x - v))
    ensures Chord(x, y, v, w) == (y - w) * (y - w) - l && Chord(x, y, v, -w) == (y + w) * (y + w) - l
  {
    assert y - (-w) == y + w;
  }

  // ----- a step of the ladder is a doubling and an addition -----

  lemma DoubledCong(ii: int, cc: int, iz: int, cz: int, zz: int)
    requires Cong(ii, cc) && Cong(iz, cz)
    ensures Cong((ii - zz) * (ii - zz), (cc - zz) * (cc - zz))
    ensures Cong((4 * iz) * (ii + A * iz + zz), (4 * cz) * (cc + A * cz + zz))
  {
    hide Cong;
    Same(zz);
    Same(4);
    Same(A);
    CongSum(ii, cc, zz, zz);
    CongProduct(ii - zz, cc - zz, ii - zz, cc - zz);
    CongProduct(4, 4, iz, cz);
    CongProduct(A, A, iz, cz);
    CongSum(ii, cc, A * iz, A * cz);
    CongSum(ii + A * iz, cc + A * cz, zz, zz);
    CongProduct(4 * iz, 4 * cz, ii + A * iz + zz, cc + A * cz + zz);
  }

  lemma DoubledAffine(x: int, z: int)
    ensures var c, zz := x * z, z * z;
            && (c * c - zz) * (c * c - zz) == (zz * zz) * ((x * x - 1) * (x * x - 1))
            && (4 * (c * z)) * (c * c + A * (c * z) + zz) == (zz * zz) * (4 * Cubic(A, x))
  {
    var c, zz, k := x * z, z * z, x * x + A * x + 1;
    assert c * c == zz * (x * x) by { MulExchange(x, z, x, z); }
    assert c * z == zz * x by { Rotate(x, z, z); }
    MulExchange(zz, x * x - 1, zz, x * x - 1);
    assert c * c - zz == zz * (x * x - 1);
    assert A * (c * z) == zz * (A * x) by { Rotate(A, zz, x); }
    assert c * c + A * (c * z) + zz == zz * k by { SumOfThree(zz, x * x, A * x); }
    assert (4 * (zz * x)) * (zz * k) == (zz * zz) * (4 * (x * k)) by { Regrouped(zz, x, k); }
  }

  lemma SumOfThree(z: int, i: int, j: int)
    ensures z * i + z * j + z == z * (i + j + 1)
  { }

  lemma Regrouped(z: int, x: int, k: int)
    ensures (4 * (z * x)) * (z * k) == (z * z) * (4 * (x * k))
  {
    MulExchange(z, x, z, k);
    assert (4 * (z * x)) * (z * k) == 4 * ((z * x) * (z * k));
    assert (z * z) * (4 * (x * k)) == 4 * ((z * z) * (x * k));
  }

  /** i : j is n : 4 f, scaled by m. */
  lemma CrossDoubled(i: int, j: int, m: int, n: int, f: int, p: int, tangent: int)
    requires Cong(i, m * n) && Cong(j, m * (4 * f)) && Cong(tangent, n) && Cong(p, f)
    ensures Cong(i * (4 * p), tangent * j)
  {
    Same(4);
    hide Cong;
    CongProduct(4, 4, p, f);
    CongProduct(i, m * n, 4 * p, 4 * f);
    CongProduct(tangent, n, j, m * (4 * f));
    assert (m * n) * (4 * f) == n * (m * (4 * f)) by { Rotate(m, n, 4 * f); }
    Chain(tangent * j, n * (m * (4 * f)), n * (m * (4 * f)));
    Chain(i * (4 * p), (m * n) * (4 * f), tangent * j);
  }

  /** The first point is doubled: x2 : z2 goes to the coordinate of the tangent's third point. */
  lemma DoublesPoint(u: elem, s: State, x: int, y: int)
    requires OnCurve(x, y) && Cong(s.x2, x * s.z2)
    ensures Cong(Step(u, s).x2 * (4 * (y * y)), Tangent(x, y) * Step(u, s).z2)
  {
    hide FAdd, FSub, FMul, Tangent, Cubic, Cong;
    var t := Step(u, s);
    var c := x * s.z2;
    Same(s.x2);
    Same(s.z2);
    Same(121665);
    var a, b := FAdd(s.x2, s.z2), FSub(s.x2, s.z2);
    AddOf(s.x2, s.z2, s.x2, s.z2);
    SubOf(s.x2, s.z2, s.x2, s.z2);
    var aa, bb, e := FSquare(a), FSquare(b), FSub(FSquare(a), FSquare(b));
    var i, j := (s.x2 + s.z2) * (s.x2 + s.z2), (s.x2 - s.z2) * (s.x2 - s.z2);
    MulOf(a, a, s.x2 + s.z2, s.x2 + s.z2);
    MulOf(b, b, s.x2 - s.z2, s.x2 - s.z2);
    MulOf(aa, bb, i, j);
    SubOf(aa, bb, i, j);
    MulOf(121665, e, 121665, i - j);
    AddOf(aa, FMul(121665, e), i, 121665 * (i - j));
    MulOf(e, FAdd(aa, FMul(121665, e)), i - j, i + 121665 * (i - j));
    hide Step;
    DoubleX(s.x2, s.z2);
    DoubleZ(s.x2, s.z2);
    Same(s.z2);
    CongProduct(s.x2, c, s.x2, c);
    CongProduct(s.x2, c, s.z2, s.z2);
    DoubledCong(s.x2 * s.x2, c * c, s.x2 * s.z2, c * s.z2, s.z2 * s.z2);
    DoubledAffine(x, s.z2);
    var m, n := (s.z2 * s.z2) * (s.z2 * s.z2), (x * x - 1) * (x * x - 1);
    Chain(t.x2, (s.x2 * s.x2 - s.z2 * s.z2) * (s.x2 * s.x2 - s.z2 * s.z2), m * n);
    Chain(t.z2, (4 * (s.x2 * s.z2)) * (s.x2 * s.x2 + A * (s.x2 * s.z2) + s.z2 * s.z2), m * (4 * Cubic(A, x)));
    TangentOnCurve(x, y);
    CrossDoubled(t.x2, t.z2, m, n, Cubic(A, x), y * y, Tangent(x, y));
  }

  lemma AddedCong(i: int, z: int, j: int, w: int, c: int, e: int)
    requires Cong(i, c) && Cong(j, e)
    ensures Cong(i * j - z * w, c * e - z * w) && Cong(z * j - i * w, z * e - c * w)
  {
    Same(z);
    Same(w);
    Same(z * w);
    hide Cong;
    CongProduct(i, c, j, e);
    CongSum(i * j, c * e, z * w, z * w);
    CongProduct(z, z, j, e);
    CongProduct(i, c, w, w);
    CongSum(z * j, z * e, i * w, c * w);
  }

  lemma FourSquares(i: int, j: int)
    requires Cong(i, j)
    ensures Cong(4 * (i * i), 4 * (j * j))
  {
    Same(4);
    hide Cong;
    CongProduct(i, j, i, j);
    CongProduct(4, 4, i * i, j * j);
  }

  lemma AddedAffine(x: int, z: int, v: int, w: int)
    ensures var c, e, zw := x * z, v * w, z * w;
            var k := 4 * (zw * zw);
            && 4 * ((c * e - zw) * (c * e - zw)) == k * ((x * v - 1) * (x * v - 1))
            && 4 * ((z * e - c * w) * (z * e - c * w)) == k * ((x - v) * (x - v))
  {
    var c, e, zw := x * z, v * w, z * w;
    assert c * e == zw * (x * v) by { MulExchange(x, z, v, w); }
    assert c * e - zw == zw * (x * v - 1);
    assert z * e == zw * v by { Rotate(z, v, w); Rotate(v, z, w); }
    assert c * w == zw * x by { Rotate(x, z, w); }
    assert z * e - c * w == -(zw * (x - v));
    MulExchange(zw, x * v - 1, zw, x * v - 1);
    MulExchange(zw, x - v, zw, x - v);
    NegatedSquare(zw * (x - v));
    Fourfold(zw * zw, (x * v - 1) * (x * v - 1));
    Fourfold(zw * zw, (x - v) * (x - v));
  }

  lemma NegatedSquare(i: int)
    ensures (-i) * (-i) == i * i
  { }

  lemma Fourfold(i: int, j: int)
    ensures 4 * (i * j) == (4 * i) * j
  { }

  /** i : j is n : u d, scaled by k. */
  lemma CrossAdded(i: int, j: int, k: int, n: int, d: int, u: int, chord: int, mirror: int)
    requires Cong(i, k * n) && Cong(j, u * (k * d)) && Cong(chord * mirror, n * d) && Cong(u * d, mirror)
    ensures Cong(i * d, chord * j)
  {
    Same(d);
    Same(k);
    Same(chord);
    hide Cong;
    CongProduct(i, k * n, d, d);
    assert (k * n) * d == k * (n * d) by { Rotate(k, n, d); }
    CongProduct(chord, chord, u * d, mirror);
    Chain(chord * (u * d), chord * mirror, n * d);
    CongProduct(k, k, n * d, chord * (u * d));
    Chain(i * d, k * (n * d), k * (chord * (u * d)));
    CongProduct(chord, chord, j, u * (k * d));
    assert k * (chord * (u * d)) == chord * (u * (k * d)) by { Rotate(k, chord, u * d); Rotate(k, u, d); }
    Same(chord * j);
    Chain(chord * j, chord * j, chord * (u * (k * d)));
    Chain(i * d, chord * (u * (k * d)), chord * j);
  }

  /**
   The two points are added: if u is the coordinate of their difference, x3 : z3 goes to that of the third point on
   the line through them.
   */
  lemma AddsPoints(u: elem, s: State, x: int, y: int, v: int, w: int)
    requires OnCurve(x, y) && OnCurve(v, w) && Cong(s.x2, x * s.z2) && Cong(s.x3, v * s.z3)
    requires Cong(u * ((x - v) * (x - v)), Chord(x, y, v, -w))
    ensures Cong(Step(u, s).x3 * ((x - v) * (x - v)), Chord(x, y, v, w) * Step(u, s).z3)
  {
    hide FAdd, FSub, FMul, Chord, OnCurve, Cong;
    var t := Step(u, s);
    Same(s.x2);
    Same(s.z2);
    Same(s.x3);
    Same(s.z3);
    Same(u);
    AddOf(s.x2, s.z2, s.x2, s.z2);
    SubOf(s.x2, s.z2, s.x2, s.z2);
    AddOf(s.x3, s.z3, s.x3, s.z3);
    SubOf(s.x3, s.z3, s.x3, s.z3);
    var da := FMul(FSub(s.x3, s.z3), FAdd(s.x2, s.z2));
    var cb := FMul(FAdd(s.x3, s.z3), FSub(s.x2, s.z2));
    var l, m := (s.x3 - s.z3) * (s.x2 + s.z2), (s.x3 + s.z3) * (s.x2 - s.z2);
    MulOf(FSub(s.x3, s.z3), FAdd(s.x2, s.z2), s.x3 - s.z3, s.x2 + s.z2);
    MulOf(FAdd(s.x3, s.z3), FSub(s.x2, s.z2), s.x3 + s.z3, s.x2 - s.z2);
    AddOf(da, cb, l, m);
    SubOf(da, cb, l, m);
    MulOf(FAdd(da, cb), FAdd(da, cb), l + m, l + m);
    MulOf(FSub(da, cb), FSub(da, cb), l - m, l - m);
    MulOf(u, FSquare(FSub(da, cb)), u, (l - m) * (l - m));
    hide Step;
    Cross(s.x2, s.z2, s.x3, s.z3);
    SquareOfTwice(s.x2 * s.x3 - s.z2 * s.z3);
    SquareOfTwice(s.z2 * s.x3 - s.x2 * s.z3);
    var c, e, zw := x * s.z2, v * s.z3, s.z2 * s.z3;
    var i, j := s.x2 * s.x3 - s.z2 * s.z3, s.z2 * s.x3 - s.x2 * s.z3;
    AddedCong(s.x2, s.z2, s.x3, s.z3, c, e);
    FourSquares(i, c * e - zw);
    FourSquares(j, s.z2 * e - c * s.z3);
    AddedAffine(x, s.z2, v, s.z3);
    var k, n, d := 4 * (zw * zw), (x * v - 1) * (x * v - 1), (x - v) * (x - v);
    CongProduct(u, u, 4 * (j * j), k * d);
    Chain(t.x3, 4 * (i * i), k * n);
    Chain(t.z3, u * (4 * (j * j)), u * (k * d));
    ChordOnCurve(x, y, v, w);
    CrossAdded(t.x3, t.z3, k, n, d, u, Chord(x, y, v, w), Chord(x, y, v, -w));
  }

  /** Under Fermat the last power is an inverse: X25519 returns the affine coordinate. */
  lemma PowerInverts(z: elem)
    requires Fermat()
    ensures FMul(z, FPow(z, P - 2)) == if z == 0 then 0 else 1
  {
    assert FPow(z, 1) == z by { assert Pow(z, 1) == z * Pow(z, 0); }
    FPowAdd(z, 1, P - 2);
    hide FPow, FMul;
    assert z != 0 ==> FermatPower(z) == 1;
    if z == 0 { MulZero(FPow(z, P - 2)); }
  }
}
