/** Digital signatures as in FIPS 186: what is signed, what is accepted, and why they agree. */
module DssMath {
  import opened ModArith

  /** w is the inverse of a modulo m, as mp_invmod returns it. */
  predicate IsInverse(a: int, m: nat, w: nat) {
    w < m && (a * w) % m == 1 % m
  }

  ghost predicate Invertible(a: int, m: nat) {
    exists w: nat :: IsInverse(a, m, w)
  }

  function ExptMod(b: int, e: nat, m: nat): (r: nat)
    requires m > 0
  {
    Pow(b, e) % m
  }

  datatype Key = Key(p: nat, q: nat, g: nat, y: nat)

  /** A key whose g has order dividing q and whose y belongs to x. */
  predicate Sound(key: Key, x: nat) {
    && key.p > 0 && key.q > 0
    && ExptMod(key.g, key.q, key.p) == 1 % key.p
    && key.y == ExptMod(key.g, x, key.p)
  }

  /** r and s sign the hash value h with the nonce k. */
  predicate Signs(key: Key, x: nat, h: nat, k: nat, r: nat, s: nat)
    requires key.p > 0 && key.q > 0
  {
    r == ExptMod(key.g, k, key.p) % key.q && s < key.q && (k * s) % key.q == (h + x * r) % key.q
  }

  /** The value compared with r: both exponents are scaled by the inverse w of s. */
  function CheckValue(key: Key, h: nat, r: nat, w: nat): nat
    requires key.p > 0 && key.q > 0
  {
    (ExptMod(key.g, (h * w) % key.q, key.p) * ExptMod(key.y, (r * w) % key.q, key.p)) % key.p % key.q
  }

  /** What buf_dss_verify accepts: it bounds r and s from above only. */
  ghost predicate Accepts(key: Key, h: nat, r: nat, s: nat) {
    && key.p > 0 && r < key.q && s < key.q
    && exists w: nat :: IsInverse(s, key.q, w) && CheckValue(key, h, r, w) == r
  }

  /** What FIPS 186 accepts: r and s lie strictly between 0 and q. */
  ghost predicate FipsAccepts(key: Key, h: nat, r: nat, s: nat) {
    && key.p > 0 && 0 < r < key.q && 0 < s < key.q
    && exists w: nat :: IsInverse(s, key.q, w) && CheckValue(key, h, r, w) == r
  }

  // ----- congruences -----

  lemma CongMul(a: int, b: int, c: int, m: int)
    requires m > 0 && a % m == b % m
    ensures (a * c) % m == (b * c) % m && (c * a) % m == (c * b) % m
  {
    ModMulLeft(a, c, m);
    ModMulLeft(b, c, m);
    assert c * a == a * c && c * b == b * c;
  }

  lemma CongAdd(a: int, b: int, c: int, d: int, m: int)
    requires m > 0 && a % m == b % m && c % m == d % m
    ensures (a + c) % m == (b + d) % m
  {
    ModAdd(a, c, m);
    ModAdd(b, d, m);
  }

  lemma InverseUnique(a: int, m: nat, v: nat, w: nat)
    requires IsInverse(a, m, v) && IsInverse(a, m, w)
    ensures v == w
  {
    CongMul(a * v, 1, w, m);
    CongMul(a * w, 1, v, m);
    assert (a * v) * w == (a * w) * v by { Rotate(a, v, w); Rotate(a, w, v); assert v * w == w * v; }
    DivModUnique(v, m, 0, v);
    DivModUnique(w, m, 0, w);
  }

  /** Any factor that gives 1 makes an inverse. */
  lemma MakeInverse(a: int, m: nat, f: int)
    requires m > 0 && (a * f) % m == 1 % m
    ensures Invertible(a, m)
  {
    ModIdem(f, m);
    CongMul(f % m, f, a, m);
    assert IsInverse(a, m, f % m);
  }

  /** Numbers with the same residue are invertible together. */
  lemma CongInvertible(a: int, b: int, m: nat)
    requires m > 0 && a % m == b % m
    ensures Invertible(a, m) ==> Invertible(b, m)
  {
    if Invertible(a, m) {
      var w: nat :| IsInverse(a, m, w);
      CongMul(a, b, w, m);
      MakeInverse(b, m, w);
    }
  }

  /** A product is invertible exactly when both factors are. */
  lemma ProductInvertible(a: int, b: int, m: nat)
    requires m > 0
    ensures Invertible(a * b, m) <==> Invertible(a, m) && Invertible(b, m)
  {
    if Invertible(a * b, m) {
      var w: nat :| IsInverse(a * b, m, w);
      assert a * (b * w) == (a * b) * w by { Rotate(a, b, w); }
      MakeInverse(a, m, b * w);
      assert b * (a * w) == (a * b) * w by { Rotate(a, b, w); }
      MakeInverse(b, m, a * w);
    }
    if Invertible(a, m) && Invertible(b, m) {
      var v: nat :| IsInverse(a, m, v);
      var w: nat :| IsInverse(b, m, w);
      MulExchange(a, v, b, w);
      CongMul(a * v, 1, b * w, m);
      MakeInverse(a * b, m, v * w);
    }
  }

  /** Powers of an element of order q depend only on the exponent's residue. */
  lemma {:induction false} PowPeriod(g: int, q: nat, p: nat, e: nat)
    requires p > 0 && q > 0 && ExptMod(g, q, p) == 1 % p
    ensures ExptMod(g, e, p) == ExptMod(g, e % q, p)
  {
    if e < q {
      DivModUnique(e, q, 0, e);
    } else {
      PowPeriod(g, q, p, e - q);
      PowAdd(g, q, e - q);
      CongMul(Pow(g, q), 1, Pow(g, e - q), p);
      ModShift(e, -1, q);
    }
  }

  // ----- correctness -----

  /** The scaled exponents add up to the nonce. */
  lemma ExponentsMeet(q: nat, x: nat, h: nat, k: nat, r: nat, s: nat, w: nat)
    requires IsInverse(s, q, w) && (k * s) % q == (h + x * r) % q
    ensures ((h * w) % q + x * ((r * w) % q)) % q == k % q
  {
    var u1, u2 := (h * w) % q, (r * w) % q;
    ModIdem(h * w, q);
    ModIdem(r * w, q);
    CongMul(u2, r * w, x, q);
    CongAdd(u1, h * w, x * u2, x * (r * w), q);
    assert h * w + x * (r * w) == (h + x * r) * w by { Rotate(x, r, w); Distribute(h, x * r, w); }
    CongMul(k * s, h + x * r, w, q);
    assert (k * s) * w == k * (s * w) by { Rotate(k, s, w); }
    CongMul(s * w, 1, k, q);
  }

  /** The check value, for any pair: g to the nonce that the pair stands for, mod p mod q. */
  lemma CheckValueOfNonce(key: Key, x: nat, h: nat, k: nat, r: nat, s: nat, w: nat)
    requires Sound(key, x) && IsInverse(s, key.q, w) && (k * s) % key.q == (h + x * r) % key.q
    ensures CheckValue(key, h, r, w) == ExptMod(key.g, k, key.p) % key.q
  {
    var p, q, g := key.p, key.q, key.g;
    var u1, u2 := (h * w) % q, (r * w) % q;
    ExponentsMeet(q, x, h, k, r, s, w);
    hide ExptMod;
    PowerOfY(key, x, u2);
    ProductOfPowers(g, u1, x * u2, p);
    assert (ExptMod(g, u1, p) * ExptMod(key.y, u2, p)) % p == ExptMod(g, u1 + x * u2, p);
    PowPeriod(g, q, p, u1 + x * u2);
    PowPeriod(g, q, p, k);
  }

  /** The nonce of a pair, from the inverse w of its s. */
  function Nonce(q: nat, x: nat, h: nat, r: nat, w: nat): nat
    requires q > 0
  {
    ((h + x * r) * w) % q
  }

  lemma NonceSolves(q: nat, x: nat, h: nat, r: nat, s: nat, w: nat)
    requires q > 0 && IsInverse(s, q, w)
    ensures (Nonce(q, x, h, r, w) * s) % q == (h + x * r) % q
  {
    var t := h + x * r;
    ModIdem(t * w, q);
    CongMul((t * w) % q, t * w, s, q);
    assert (t * w) * s == t * (s * w) by { Rotate(t, w, s); assert w * s == s * w; }
    CongMul(s * w, 1, t, q);
  }

  lemma CheckValueExactly(key: Key, x: nat, h: nat, r: nat, s: nat, w: nat)
    requires Sound(key, x) && IsInverse(s, key.q, w)
    ensures CheckValue(key, h, r, w) == ExptMod(key.g, ((h + x * r) * w) % key.q, key.p) % key.q
  {
    hide CheckValue, ExptMod;
    NonceSolves(key.q, x, h, r, s, w);
    CheckValueOfNonce(key, x, h, Nonce(key.q, x, h, r, w), r, s, w);
  }

  /** The check value of any key, sound or not, over unreduced powers. */
  lemma CheckValueAny(key: Key, h: nat, r: nat, w: nat)
    requires key.p > 0 && key.q > 0
    ensures CheckValue(key, h, r, w) == (Pow(key.g, (h * w) % key.q) * Pow(key.y, (r * w) % key.q)) % key.p % key.q
  {
    ModMul(Pow(key.g, (h * w) % key.q), Pow(key.y, (r * w) % key.q), key.p);
  }

  /** No pair is accepted but the signatures of the private key: those for the nonce (h + x r) / s. */
  lemma AcceptedExactly(key: Key, x: nat, h: nat, r: nat, s: nat)
    requires Sound(key, x)
    ensures Accepts(key, h, r, s) <==>
              && r < key.q && s < key.q
              && exists w: nat :: IsInverse(s, key.q, w) && Signs(key, x, h, ((h + x * r) * w) % key.q, r, s)
  {
    forall w: nat | IsInverse(s, key.q, w)
      ensures s < key.q ==> (CheckValue(key, h, r, w) == r <==> Signs(key, x, h, Nonce(key.q, x, h, r, w), r, s))
    {
      CheckValueExactly(key, x, h, r, s, w);
      NonceSolves(key.q, x, h, r, s, w);
      hide CheckValue, ExptMod;
    }
    hide CheckValue, Signs, Sound;
  }

  /** Hence any nonce for which the pair is a signature will do as evidence. */
  lemma AcceptedIsSigned(key: Key, x: nat, h: nat, r: nat, s: nat)
    requires Sound(key, x)
    ensures Accepts(key, h, r, s) <==>
              r < key.q && s < key.q && Invertible(s, key.q) && exists k: nat :: Signs(key, x, h, k, r, s)
  {
    AcceptedExactly(key, x, h, r, s);
    if s < key.q && Invertible(s, key.q) && exists k: nat :: Signs(key, x, h, k, r, s) {
      var w: nat :| IsInverse(s, key.q, w);
      var k: nat :| Signs(key, x, h, k, r, s);
      CheckValueOfNonce(key, x, h, k, r, s, w);
      hide CheckValue, ExptMod;
    }
  }

  lemma PowersOfFour()
    ensures ExptMod(4, 3, 23) == 18 && ExptMod(4, 8, 23) == 9 && ExptMod(4, 11, 23) == 1
  {
    assert Pow(4, 0) == 1 && Pow(4, 1) == 4 && Pow(4, 2) == 16;
    PowAdd(4, 3, 3);
    PowAdd(4, 6, 2);
    PowAdd(4, 8, 3);
    assert Pow(4, 3) == 4 * Pow(4, 2);
    hide Pow;
  }

  /** Only one inverse to try. */
  lemma RejectedBy(key: Key, h: nat, r: nat, s: nat, w: nat)
    requires key.p > 0 && key.q > 0 && IsInverse(s, key.q, w) && CheckValue(key, h, r, w) != r
    ensures !Accepts(key, h, r, s)
  {
    forall v: nat | IsInverse(s, key.q, v) ensures v == w { InverseUnique(s, key.q, v, w); }
    hide CheckValue, IsInverse;
  }

  /** A pair that is refused: the nonce is 8, 4^8 is 9 modulo 23, and r is 1. */
  lemma WrongPairRejected()
    ensures var key := Key(23, 11, 4, 18); Sound(key, 3) && CheckValue(key, 5, 1, 1) == 9 && !Accepts(key, 5, 1, 1)
  {
    var key := Key(23, 11, 4, 18);
    PowersOfFour();
    hide Pow, CheckValue, Accepts, ExptMod;
    CheckValueExactly(key, 3, 5, 1, 1, 1);
    RejectedBy(key, 5, 1, 1, 1);
  }

  lemma PowerOfY(key: Key, x: nat, u: nat)
    requires Sound(key, x)
    ensures ExptMod(key.y, u, key.p) == ExptMod(key.g, x * u, key.p)
  {
    PowMod(Pow(key.g, x), u, key.p);
    PowMul(key.g, x, u);
  }

  lemma ProductOfPowers(g: int, m: nat, n: nat, p: nat)
    requires p > 0
    ensures (ExptMod(g, m, p) * ExptMod(g, n, p)) % p == ExptMod(g, m + n, p)
  {
    PowAdd(g, m, n);
    ModMul(Pow(g, m), Pow(g, n), p);
  }

  /** A signature is accepted exactly when h + x * r has an inverse; for a prime q, when q does not divide it. */
  lemma SignatureAccepted(key: Key, x: nat, h: nat, k: nat, r: nat, s: nat)
    requires Sound(key, x) && Signs(key, x, h, k, r, s) && Invertible(k, key.q)
    ensures Accepts(key, h, r, s) <==> Invertible(h + x * r, key.q)
  {
    var q := key.q;
    ProductInvertible(k, s, q);
    CongInvertible(k * s, h + x * r, q);
    CongInvertible(h + x * r, k * s, q);
    hide CheckValue, Pow, ExptMod;
    if Invertible(s, q) {
      var w: nat :| IsInverse(s, q, w);
      CheckValueOfNonce(key, x, h, k, r, s, w);
    }
  }

  lemma SmallInverse(a: nat, m: nat, w: nat)
    requires IsInverse(a, m, w)
    ensures Invertible(a, m)
  { }

  /**
   Signing can produce s = 0, which no verifier accepts: p = 7, q = 3, g = y = 2, x = k = 1 and h = 1; with h = 2 all
   is well.
   */
  lemma UnverifiableSignature()
    ensures var key := Key(7, 3, 2, 2);
            && Sound(key, 1) && Invertible(1, key.q)
            && Signs(key, 1, 1, 1, 2, 0) && !Accepts(key, 1, 2, 0)
            && Signs(key, 1, 2, 1, 2, 1) && Accepts(key, 2, 2, 1)
  {
    var key := Key(7, 3, 2, 2);
    assert Pow(2, 0) == 1 && Pow(2, 1) == 2 && Pow(2, 2) == 4 && Pow(2, 3) == 8;
    hide Pow;
    assert Sound(key, 1) && Signs(key, 1, 1, 1, 2, 0) && Signs(key, 1, 2, 1, 2, 1);
    SmallInverse(1, 3, 1);
    SmallInverse(4, 3, 1);
    hide Signs, Sound, CheckValue, Invertible, Accepts;
    SignatureAccepted(key, 1, 2, 1, 2, 1);
    ZeroRejected(key, 1, 2);
  }

  lemma ZeroRejected(key: Key, h: nat, r: nat)
    requires key.q > 1
    ensures !Accepts(key, h, r, 0)
  {
    ZeroNotInvertible(key.q);
    hide CheckValue;
  }

  /** A power of g, by the hash over s, that q divides once it is reduced modulo p; y plays no part. */
  ghost predicate VanishingPower(key: Key, h: nat, s: nat) {
    && key.p > 0 && s < key.q
    && exists w: nat :: IsInverse(s, key.q, w) && ExptMod(key.g, (h * w) % key.q, key.p) % key.q == 0
  }

  /** The code and FIPS 186 give the same verdict unless r is 0 and that power of g vanishes. */
  lemma FipsExactly(key: Key, h: nat, r: nat, s: nat)
    requires key.q > 1
    ensures (Accepts(key, h, r, s) <==> FipsAccepts(key, h, r, s)) <==> !(r == 0 && VanishingPower(key, h, s))
  {
    if key.p > 0 {
      forall w: nat ensures CheckValue(key, h, 0, w) == ExptMod(key.g, (h * w) % key.q, key.p) % key.q {
        CheckOfZero(key, h, w);
      }
    }
    hide CheckValue, ExptMod;
    ZeroRejected(key, h, r);
  }

  lemma CheckOfZero(key: Key, h: nat, w: nat)
    requires key.p > 0 && key.q > 0
    ensures CheckValue(key, h, 0, w) == ExptMod(key.g, (h * w) % key.q, key.p) % key.q
  {
    var x := ExptMod(key.g, (h * w) % key.q, key.p);
    assert (0 * w) % key.q == 0 by { DivModUnique(0, key.q, 0, 0); }
    assert Pow(key.y, 0) == 1;
    ModIdem(1, key.p);
    ModMul(x, 1, key.p);
    ModMul(x, 1 % key.p, key.p);
    DivModUnique(x, key.p, 0, x);
  }

  /** Such a pair: 3 has order 5 modulo 11, 3^3 = 27 = 5 modulo 11 and 5 = 0 modulo 5; no private key is involved. */
  lemma ZeroRAccepted(y: nat)
    requires y > 0
    ensures var key := Key(11, 5, 3, y);
            ExptMod(key.g, key.q, key.p) == 1 && Accepts(key, 3, 0, 1) && !FipsAccepts(key, 3, 0, 1)
  {
    var key := Key(11, 5, 3, y);
    assert Pow(3, 0) == 1 && Pow(3, 1) == 3 && Pow(3, 2) == 9 && Pow(3, 3) == 27 && Pow(3, 4) == 81 && Pow(3, 5) == 243;
    assert Pow(y, 0) == 1;
    hide Pow;
    assert IsInverse(1, 5, 1);
    assert CheckValue(key, 3, 0, 1) == 0;
  }

  // ----- prime moduli -----

  /** Fermat's little theorem for p, taken as a hypothesis. */
  ghost predicate Fermat(p: nat) {
    p > 1 && forall a: nat :: 0 < a < p ==> FermatAt(a, p)
  }

  predicate FermatAt(a: nat, p: nat)
    requires p > 1
  {
    ExptMod(a, p - 1, p) == 1
  }

  lemma FermatInverse(a: nat, p: nat)
    requires Fermat(p) && 0 < a < p
    ensures Invertible(a, p)
  {
    assert FermatAt(a, p);
    assert Pow(a, p - 1) == a * Pow(a, p - 2);
    DivModUnique(1, p, 0, 1);
    hide Pow;
    MakeInverse(a, p, Pow(a, p - 2));
  }

  lemma ZeroNotInvertible(p: nat)
    requires p > 1
    ensures !Invertible(0, p)
  {
    DivModUnique(0, p, 0, 0);
    DivModUnique(1, p, 0, 1);
  }

  /** Then everything but the multiples of p is invertible. */
  lemma FermatInvertible(a: nat, p: nat)
    requires Fermat(p)
    ensures Invertible(a, p) <==> a % p != 0
  {
    hide ExptMod, Invertible;
    ModIdem(a, p);
    CongInvertible(a % p, a, p);
    CongInvertible(a, a % p, p);
    ZeroNotInvertible(p);
    if a % p != 0 { FermatInverse(a % p, p); }
  }

  /** With prime p and q: every nonce works, and a signature fails only if q divides h + x * r, where s is 0. */
  lemma SignatureAcceptedPrime(key: Key, x: nat, h: nat, k: nat, r: nat, s: nat)
    requires Sound(key, x) && Fermat(key.q) && 0 < k < key.q && Signs(key, x, h, k, r, s)
    ensures Accepts(key, h, r, s) <==> s != 0
  {
    hide Invertible, Accepts, Fermat, ExptMod;
    var q := key.q;
    FermatInvertible(k, q);
    DivModUnique(k, q, 0, k);
    SignatureAccepted(key, x, h, k, r, s);
    ProductInvertible(k, s, q);
    CongInvertible(k * s, h + x * r, q);
    CongInvertible(h + x * r, k * s, q);
    FermatInvertible(s, q);
    DivModUnique(s, q, 0, s);
  }
}
