/**
 The code runs the ladder over 256 bits, section 5 of RFC 7748 over 255. The extra leading zero
 changes the representation of the second point but not the result.
 */
module Projective {
  import opened ModArith
  import opened Field25519
  import opened Ladder

  /** Fermat's theorem for the prime 2^255 - 19, taken as a hypothesis. */
  ghost predicate Fermat() {
    forall a: elem :: a != 0 ==> FermatPower(a) == 1
  }

  function FermatPower(a: elem): elem {
    FPow(a, P - 1)
  }

  // ----- field laws -----

  lemma MulAssoc(a: elem, b: elem, c: elem)
    ensures FMul(FMul(a, b), c) == FMul(a, FMul(b, c))
  {
    ModMulLeft(a * b, c, P);
    ModMulLeft(b * c, a, P);
    Rotate(a, b, c);
    assert (b * c) * a == a * (b * c);
    assert (b * c % P) * a == a * (b * c % P);
  }

  lemma MulAdd(m: elem, a: elem, b: elem)
    ensures FMul(m, FAdd(a, b)) == FAdd(FMul(m, a), FMul(m, b))
  {
    ModMulLeft(a + b, m, P);
    assert ((a + b) % P) * m == m * ((a + b) % P);
    Distribute(a, b, m);
    ModAdd(m * a, m * b, P);
  }

  lemma MulSub(m: elem, a: elem, b: elem)
    ensures FMul(m, FSub(a, b)) == FSub(FMul(m, a), FMul(m, b))
  {
    ModMulLeft(a - b, m, P);
    assert ((a - b) % P) * m == m * ((a - b) % P);
    Distribute(a - b, b, m);
    ModSub(m * a, m * b, P);
  }

  lemma MulZero(a: elem)
    ensures FMul(a, 0) == 0 && FMul(0, a) == 0
  { }

  lemma MulOne(a: elem)
    ensures FMul(1, a) == a && FMul(a, 1) == a
  { }

  /** (m a)(n b) = (m n)(a b). */
  lemma MulScaled(m: elem, a: elem, n: elem, b: elem)
    ensures FMul(FMul(m, a), FMul(n, b)) == FMul(FMul(m, n), FMul(a, b))
  {
    hide FMul;
    MulAssoc(m, a, FMul(n, b));
    MulAssoc(a, n, b);
    MulCommutes(a, n);
    MulAssoc(n, a, b);
    MulAssoc(m, n, FMul(a, b));
  }

  lemma {:induction false} PowScaled(m: elem, a: elem, n: nat)
    ensures FPow(FMul(m, a), n) == FMul(FPow(m, n), FPow(a, n))
  {
    PowMod(m * a, n, P);
    PowProduct(m, a, n);
    ModMul(Pow(m, n), Pow(a, n), P);
  }

  lemma PowZero(n: nat)
    requires n > 0
    ensures FPow(0, n) == 0
  {
    assert Pow(0, n) == 0 * Pow(0, n - 1);
  }

  /** Under Fermat a product of non-zero elements is not zero. */
  lemma NonZeroProduct(a: elem, b: elem)
    requires Fermat() && a != 0 && b != 0
    ensures FMul(a, b) != 0
  {
    hide FPow;
    assert FermatPower(a) == 1 && FermatPower(b) == 1;
    PowScaled(a, b, P - 1);
    MulOne(1);
    if FMul(a, b) == 0 { PowZero(P - 1); }
  }

  // ----- the ladder on scaled points -----

  /** t is s with its two points scaled by m and l. */
  ghost predicate Scaled(s: State, t: State, m: elem, l: elem) {
    && t.x2 == FMul(m, s.x2) && t.z2 == FMul(m, s.z2)
    && t.x3 == FMul(l, s.x3) && t.z3 == FMul(l, s.z3)
  }

  lemma StepScaled(u: elem, s: State, t: State, m: elem, l: elem)
    requires Scaled(s, t, m, l)
    ensures Scaled(Step(u, s), Step(u, t), FSquare(FSquare(m)), FSquare(FMul(l, m)))
  {
    hide FAdd, FSub, FMul;
    var a, b := FAdd(s.x2, s.z2), FSub(s.x2, s.z2);
    var c, d := FAdd(s.x3, s.z3), FSub(s.x3, s.z3);
    MulAdd(m, s.x2, s.z2);
    MulSub(m, s.x2, s.z2);
    MulAdd(l, s.x3, s.z3);
    MulSub(l, s.x3, s.z3);
    DoubleScaled(a, b, m);
    AddScaled(u, a, b, c, d, m, l);
  }

  lemma DoubleScaled(a: elem, b: elem, m: elem)
    ensures
      var aa, bb := FSquare(a), FSquare(b);
      var aa', bb' := FSquare(FMul(m, a)), FSquare(FMul(m, b));
      var e, e' := FSub(aa, bb), FSub(aa', bb');
      var k := FSquare(FSquare(m));
      && FMul(aa', bb') == FMul(k, FMul(aa, bb))
      && FMul(e', FAdd(aa', FMul(121665, e'))) == FMul(k, FMul(e, FAdd(aa, FMul(121665, e))))
  {
    hide FAdd, FSub, FMul;
    var mm := FSquare(m);
    var aa, bb := FSquare(a), FSquare(b);
    MulScaled(m, a, m, a);
    MulScaled(m, b, m, b);
    MulScaled(mm, aa, mm, bb);
    MulSub(mm, aa, bb);
    var e := FSub(aa, bb);
    MulAssoc(121665, mm, e);
    MulCommutes(121665, mm);
    MulAssoc(mm, 121665, e);
    MulAdd(mm, aa, FMul(121665, e));
    MulScaled(mm, e, mm, FAdd(aa, FMul(121665, e)));
  }

  lemma AddScaled(u: elem, a: elem, b: elem, c: elem, d: elem, m: elem, l: elem)
    ensures
      var da, cb := FMul(d, a), FMul(c, b);
      var da', cb' := FMul(FMul(l, d), FMul(m, a)), FMul(FMul(l, c), FMul(m, b));
      var k := FSquare(FMul(l, m));
      && FSquare(FAdd(da', cb')) == FMul(k, FSquare(FAdd(da, cb)))
      && FMul(u, FSquare(FSub(da', cb'))) == FMul(k, FMul(u, FSquare(FSub(da, cb))))
  {
    hide FAdd, FSub, FMul;
    var lm := FMul(l, m);
    var da, cb := FMul(d, a), FMul(c, b);
    MulScaled(l, d, m, a);
    MulScaled(l, c, m, b);
    MulAdd(lm, da, cb);
    MulSub(lm, da, cb);
    MulScaled(lm, FAdd(da, cb), lm, FAdd(da, cb));
    MulScaled(lm, FSub(da, cb), lm, FSub(da, cb));
    var k, q := FSquare(lm), FSquare(FSub(da, cb));
    MulAssoc(u, k, q);
    MulCommutes(u, k);
    MulAssoc(k, u, q);
  }

  /** Scaled points stay scaled, by non-zero factors, through the whole ladder. */
  lemma {:induction false} LadderScaled(u: elem, bits: seq<bool>, s: State, t: State, m: elem, l: elem)
    returns (m': elem, l': elem)
    requires Fermat() && Scaled(s, t, m, l) && m != 0 && l != 0
    ensures Scaled(EagerLadder(u, bits, s), EagerLadder(u, bits, t), m', l') && m' != 0 && l' != 0
    decreases |bits|
  {
    hide Fermat, Step, FMul;
    if bits == [] {
      m', l' := m, l;
    } else {
      var n, k := if bits[0] then l else m, if bits[0] then m else l;
      StepScaled(u, CSwap(bits[0], s), CSwap(bits[0], t), n, k);
      NonZeroProduct(n, n);
      NonZeroProduct(FSquare(n), FSquare(n));
      NonZeroProduct(k, n);
      NonZeroProduct(FMul(k, n), FMul(k, n));
      var n', k' := FSquare(FSquare(n)), FSquare(FMul(k, n));
      m', l' := LadderScaled(u, bits[1..], EagerStep(u, bits[0], s), EagerStep(u, bits[0], t),
                             if bits[0] then k' else n', if bits[0] then n' else k');
    }
  }

  /** The quotient x2 / z2, as the code computes it. */
  function Affine(s: State): elem {
    FMul(s.x2, FPow(s.z2, P - 2))
  }

  lemma AffineScaled(s: State, t: State, m: elem, l: elem)
    requires Fermat() && Scaled(s, t, m, l) && m != 0
    ensures Affine(t) == Affine(s)
  {
    hide FMul, FPow;
    PowScaled(m, s.z2, P - 2);
    MulScaled(m, s.x2, FPow(m, P - 2), FPow(s.z2, P - 2));
    OneMorePower(m);
    assert FermatPower(m) == 1;
    MulOne(Affine(s));
  }

  lemma OneMorePower(m: elem)
    ensures FMul(m, FPow(m, P - 2)) == FermatPower(m)
  {
    FPowAdd(m, 1, P - 2);
    assert Pow(m, 1) == m;
    DivModUnique(m, P, 0, m);
  }

  // ----- the point zero -----

  /** Both points have a zero coordinate. */
  predicate Vanishing(s: State) {
    FMul(s.x2, s.z2) == 0 && FMul(s.x3, s.z3) == 0
  }

  /** (x + z)^2 - (x - z)^2 = 4 x z, modulo any m. */
  lemma SquareDifferenceMod(x: int, z: int, m: int)
    requires m > 0
    ensures var a, b := (x + z) % m, (x - z) % m;
            (a * a % m - b * b % m) % m == 4 * (x * z % m) % m
  {
    var p, q := x + z, x - z;
    Squares(x, z);
    ModMul(p, p, m);
    ModMul(q, q, m);
    ModSub(p * p, q * q, m);
    ModMulLeft(x * z, 4, m);
  }

  lemma Squares(x: int, z: int)
    ensures (x + z) * (x + z) - (x - z) * (x - z) == x * z * 4
  {
    Distribute(x, z, x + z);
    Distribute(x, z, x);
    Distribute(x, z, z);
    Distribute(x - z, z, x - z);
    Distribute(x - z, z, x);
    Distribute(x - z, z, z);
  }

  lemma SquareDifference(x: elem, z: elem)
    ensures FSub(FSquare(FAdd(x, z)), FSquare(FSub(x, z))) == FMul(4, FMul(x, z))
  {
    SquareDifferenceMod(x, z, P);
  }

  lemma ZeroStep(s: State)
    requires Vanishing(s)
    ensures Step(0, s).z2 == 0 && Step(0, s).z3 == 0
  {
    hide FAdd, FSub, FMul;
    SquareDifference(s.x2, s.z2);
    MulZero(4);
    var aa := FSquare(FAdd(s.x2, s.z2));
    MulZero(FAdd(aa, FMul(121665, 0)));
    var da, cb := FMul(FSub(s.x3, s.z3), FAdd(s.x2, s.z2)), FMul(FAdd(s.x3, s.z3), FSub(s.x2, s.z2));
    MulZero(FSquare(FSub(da, cb)));
  }

  lemma {:induction false} ZeroLadder(bits: seq<bool>, s: State)
    requires Vanishing(s) && s.z2 == 0
    ensures EagerLadder(0, bits, s).z2 == 0
    decreases |bits|
  {
    hide Step, FMul;
    if bits != [] {
      var t := CSwap(bits[0], s);
      ZeroStep(t);
      var n := Step(0, t);
      MulZero(n.x2);
      MulZero(n.x3);
      ZeroLadder(bits[1..], EagerStep(0, bits[0], s));
    }
  }

  lemma ZeroAffine(s: State)
    requires s.z2 == 0
    ensures Affine(s) == 0
  {
    hide FMul, FPow;
    PowZero(P - 2);
    MulZero(s.x2);
  }

  // ----- a leading zero bit -----

  lemma FirstStep(u: elem)
    ensures Step(u, Start(u)) == State(1, 0, FMul(FMul(4, u), u), FMul(4, u))
  {
    assert Start(u).x2 == 1;
    FirstDoubling();
    FirstAddition(u);
  }

  lemma FirstDoubling()
    ensures var aa, bb := FSquare(FAdd(1, 0)), FSquare(FSub(1, 0));
            var e := FSub(aa, bb);
            FMul(aa, bb) == 1 && FMul(e, FAdd(aa, FMul(121665, e))) == 0
  { }

  lemma FirstAddition(u: elem)
    ensures var da, cb := FMul(FSub(u, 1), FAdd(1, 0)), FMul(FAdd(u, 1), FSub(1, 0));
            && FSquare(FAdd(da, cb)) == FMul(FMul(4, u), u)
            && FMul(u, FSquare(FSub(da, cb))) == FMul(4, u)
  {
    MulOne(FSub(u, 1));
    MulOne(FAdd(u, 1));
    FirstSums(u, P);
    ModMulLeft(4 * u, u, P);
    MulCommutes(4, u);
    assert FAdd(1, 0) == 1 && FSub(1, 0) == 1;
  }

  lemma FirstSums(u: int, m: int)
    requires m > 4
    ensures var a, b := (u - 1) % m, (u + 1) % m;
            && ((a + b) % m) * ((a + b) % m) % m == 4 * u * u % m
            && ((a - b) % m) * ((a - b) % m) % m == 4
  {
    ModAdd(u - 1, u + 1, m);
    ModSub(u - 1, u + 1, m);
    ModMul(2 * u, 2 * u, m);
    ModMul(-2, -2, m);
    Rotate(2 * u, 2, u);
    DivModUnique(4, m, 0, 4);
  }

  /** A leading zero bit of the scalar does not change the result. */
  lemma LeadingZero(u: elem, bits: seq<bool>)
    requires Fermat()
    ensures X25519(u, [false] + bits) == X25519(u, bits)
  {
    var s, t := Start(u), Step(u, Start(u));
    EagerIsRfc(u, bits, s, false);
    EagerIsRfc(u, [false] + bits, s, false);
    assert ([false] + bits)[1..] == bits;
    FirstStep(u);
    hide Fermat, Step, FMul, FPow, RfcLadder;
    if u == 0 {
      MulZero(0);
      MulZero(1);
      MulZero(4);
      ZeroLadder(bits, s);
      ZeroLadder(bits, t);
      ZeroAffine(EagerLadder(0, bits, s));
      ZeroAffine(EagerLadder(0, bits, t));
    } else {
      MulOne(1);
      MulZero(1);
      MulOne(FMul(4, u));
      NonZeroProduct(4, u);
      var m, l := LadderScaled(u, bits, s, t, 1, FMul(4, u));
      AffineScaled(EagerLadder(u, bits, s), EagerLadder(u, bits, t), m, l);
    }
  }
}
