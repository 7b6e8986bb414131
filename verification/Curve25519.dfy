/** curve25519_donna: the X25519 function from 32 bytes of secret and 32 bytes of point. */
module Curve25519 {
  import opened Bytes
  import opened Bits
  import opened ModArith
  import opened Limbs
  import opened Field25519
  import opened FieldProduct
  import opened FieldReduce
  import opened FieldOps
  import opened Ladder
  import opened Scalar
  import opened ScalarMult
  import opened Recip
  import opened Packing
  import opened Contract
  import Projective
  import Wire

  /**
   e[0] &= 248; e[31] &= 127; e[31] |= 64: the low three bits and the top bit are cleared, bit 254 is set, the others
   stay.
   */
  function Clamp(secret: seq<byte>): (e: seq<byte>)
    requires |secret| == 32
    ensures |e| == 32 && e[1..31] == secret[1..31]
    ensures e[0] == secret[0] - secret[0] % 8 && e[31] == 64 + secret[31] % 64
  {
    ClampedLow(secret[0]);
    ClampedHigh(secret[31]);
    hide And, Or;
    secret[0 := And(secret[0] as nat, 248) as byte][31 := Or(And(secret[31] as nat, 127), 64) as byte]
  }

  lemma ClampedLow(b: byte)
    ensures And(b as nat, 248) == b as nat - b as nat % 8
  {
    var a := b as nat;
    assert Exp2(5) == 32;
    AndMask(5, a / 8, 0);
    assert a / 2 / 2 / 2 == a / 8;
    hide Exp2;
    assert And(a, 248) == 2 * And(a / 2, 124);
    assert And(a / 2, 124) == 2 * And(a / 2 / 2, 62);
    assert And(a / 2 / 2, 62) == 2 * And(a / 2 / 2 / 2, 31);
  }

  lemma ClampedHigh(b: byte)
    ensures Or(And(b as nat, 127), 64) == 64 + b as nat % 64
  {
    hide And, Or;
    var a := b as nat;
    ByteParts(a);
    LowSeven(a % 128, a / 128);
    SetSix(a % 64, a % 128 / 64);
  }

  lemma ByteParts(a: nat)
    requires a < 0x100
    ensures a == a % 128 + (a / 128) * 128 && a % 128 == a % 64 + (a % 128 / 64) * 64 && a % 128 / 64 < 2
  { }

  /** `& 127`. */
  lemma LowSeven(low: nat, high: nat)
    requires low < 128
    ensures And(low + high * 128, 127) == low
  {
    assert Exp2(7) == 128;
    hide Exp2, And;
    AndMask(7, low, high);
  }

  /** `| 64` on seven bits. */
  lemma SetSix(low: nat, high: nat)
    requires low < 64 && high < 2
    ensures Or(low + high * 64, 64) == 64 + low
  {
    assert Exp2(6) == 64;
    hide Exp2, Or;
    OrAbove(6, low, high, 1);
    OrOne(high);
  }

  lemma OrOne(x: nat)
    requires x < 2
    ensures Or(x, 1) == 1
  { }

  method CurveDonna(mypublic: array<byte>, secret: array<byte>, basepoint: array<byte>)
    requires mypublic.Length == 32 && secret.Length == 32 && basepoint.Length == 32
    modifies mypublic
    ensures LittleEndian(mypublic[..]) < TOP
    ensures LittleEndian(mypublic[..]) % P ==
            X25519(LittleEndian(old(basepoint[..])) % P, BitsOf(LittleEndian(Clamp(old(secret[..]))), 256))
    ensures Projective.Fermat() && old(basepoint[31]) < 128 ==>
              LittleEndian(mypublic[..]) % P == RfcX25519(old(secret[..]), old(basepoint[..]))
  {
    hide LittleEndian, BitsOf, RfcLadder, Reduced, NearlyReduced, Roomy, PairRoomy, Elem, FMul, FPow, Clamp, Start,
      Value, RfcX25519, Projective.Fermat;
    var bp, x, z, zmone := new limb[10], new limb[10], new limb[11], new limb[10];
    var e := new byte[32];
    CopyClamped(e, secret);
    FExpand(bp, basepoint);
    ElemOfValue(bp[..]);
    CMult(x, z, e, bp);
    CRecip(zmone, z);
    ReducedPair(x[..], zmone[..]);
    assert x[..][..10] == x[..10] && zmone[..][..10] == zmone[..10];
    FMulTo(z, x, zmone);
    ReducedBelow62(z[..]);
    FReduceCoefficients(z);
    FContract(mypublic, z);
    if Projective.Fermat() && old(basepoint[31]) < 128 { MaskedInputs(old(secret[..]), old(basepoint[..])); }
  }

  /** The secret is copied, and the copy clamped. */
  method CopyClamped(e: array<byte>, secret: array<byte>)
    requires e.Length == 32 && secret.Length == 32 && e != secret
    modifies e
    ensures e[..] == Clamp(secret[..])
  {
    hide And, Or;
    var i := 0;
    while i < 32
      invariant 0 <= i <= 32
      invariant forall j :: 0 <= j < i ==> e[j] == secret[j]
    {
      e[i] := secret[i];
      i := i + 1;
    }
    ClampedLow(e[0]);
    ClampedHigh(e[31]);
    ClampedMiddle(e[31]);
    e[0] := And(e[0] as nat, 248) as byte;
    e[31] := And(e[31] as nat, 127) as byte;
    e[31] := Or(e[31] as nat, 64) as byte;
    assert e[..] == Clamp(secret[..]);
  }

  lemma ClampedMiddle(b: byte)
    ensures And(b as nat, 127) < 0x100
  {
    assert Exp2(8) == 0x100;
    AndBound(8, b as nat, 127);
  }

  lemma ElemOfValue(s: seq<limb>)
    requires |s| >= 10
    ensures Elem(s) == Value(s[..10]) % P
  { }

  lemma ReducedBelow62(s: seq<limb>)
    requires NearlyReduced(s)
    ensures Below62(s)
  {
    forall i | 0 <= i < 10
      ensures -0x4000_0000_0000_0000 < s[i] < 0x4000_0000_0000_0000
    {
      assert i == 2 || Fits(s[i], i);
    }
  }

  /** A clamped scalar lies between 2^254 and 2^255 and is a multiple of 8. */
  lemma ClampedRange(secret: seq<byte>)
    requires |secret| == 32
    ensures var k := LittleEndian(Clamp(secret));
            64 * Exp2(248) <= k < 128 * Exp2(248) && k % 8 == 0
  {
    hide Clamp, Exp2, LittleEndian;
    var e := Clamp(secret);
    assert e == e[..31] + [e[31]];
    MultipleOf8(e);
    OneValue(e[31]);
    LittleEndianJoin(e[..31], [e[31]]);
    LittleEndianBound(e[..31]);
    ScaleBounds(e[31] as int, Exp2(248), LittleEndian(e[..31]));
  }

  lemma MultipleOf8(e: seq<byte>)
    requires |e| == 32 && e[0] % 8 == 0
    ensures LittleEndian(e) % 8 == 0
  { }

  lemma ScaleBounds(x: int, w: int, v: int)
    requires 64 <= x < 128 && 0 <= v < w
    ensures 64 * w <= v + x * w < 128 * w
  {
    Distribute(x - 64, 64, w);
    Distribute(x, 127 - x, w);
  }

  /** Given Fermat's theorem, the 256 rounds of the code compute the 255 rounds of the RFC. */
  lemma DonnaIsX25519(u: elem, secret: seq<byte>)
    requires |secret| == 32 && Projective.Fermat()
    ensures var k := LittleEndian(Clamp(secret));
            X25519(u, BitsOf(k, 256)) == X25519(u, BitsOf(k, 255))
  {
    hide Clamp, X25519, Projective.Fermat, LittleEndian;
    var k := LittleEndian(Clamp(secret));
    ClampedRange(secret);
    TopBitClear(k);
    Projective.LeadingZero(u, BitsOf(k, 255));
  }

  lemma Exp2OfSeven()
    ensures Exp2(7) == 128
  { }

  lemma TopBitClear(k: nat)
    requires k < 128 * Exp2(248)
    ensures BitsOf(k, 256) == [false] + BitsOf(k, 255)
  {
    hide Exp2;
    Exp2OfSeven();
    Exp2Add(7, 248);
    DivModUnique(k, Exp2(255), 0, k);
  }

  // ----- the function of the RFC on bytes -----

  /** Section 5 of RFC 7748 on byte strings: bit 255 of the point is masked, and 255 scalar bits are used. */
  function RfcX25519(secret: seq<byte>, point: seq<byte>): elem
    requires |secret| == 32 && |point| == 32
  {
    X25519(LittleEndian(point) % TOP % P, BitsOf(LittleEndian(Clamp(secret)), 255))
  }

  lemma TopByte(s: seq<byte>)
    requires |s| == 32
    ensures LittleEndian(s) < TOP <==> s[31] < 128
    ensures LittleEndian(s) < 2 * TOP
  {
    hide Exp2, LittleEndian;
    assert s == s[..31] + [s[31]];
    OneValue(s[31]);
    LittleEndianJoin(s[..31], [s[31]]);
    LittleEndianBound(s[..31]);
    Exp2OfSeven();
    Exp2Add(7, 248);
    TopIsExp2();
    TopByteBounds(s[31] as int, Exp2(248), LittleEndian(s[..31]));
  }

  lemma TopByteBounds(x: int, w: int, v: int)
    requires 0 <= x < 256 && 0 <= v < w
    ensures v + x * w < 128 * w <==> x < 128
    ensures v + x * w < 2 * (128 * w)
  {
    if x < 128 { Distribute(x, 127 - x, w); } else { Distribute(x - 128, 128, w); }
    Distribute(x, 255 - x, w);
  }

  /** The code, which keeps bit 255, and the RFC, which masks it, see the same point exactly when the bit is clear. */
  lemma MaskedPoint(s: seq<byte>)
    requires |s| == 32
    ensures LittleEndian(s) % P == LittleEndian(s) % TOP % P <==> s[31] < 128
  {
    hide LittleEndian;
    TopByte(s);
    var v := LittleEndian(s);
    if v < TOP {
      DivModUnique(v, TOP, 0, v);
    } else {
      DivModUnique(v, TOP, 1, v - TOP);
      if v % P == (v - TOP) % P {
        var k := ModEqualMultiple(v, v - TOP, P);
        DivModUnique(TOP, P, k, 0);
        DivModUnique(TOP, P, 1, 19);
        assert false;
      }
    }
  }

  /** 2^255 as a point: the code takes it for 19, the RFC for 0. */
  lemma TopBitPoint()
    ensures var s := Wire.Zeros(31) + [128];
            LittleEndian(s) % P == 19 && LittleEndian(s) % TOP % P == 0
  {
    var s := Wire.Zeros(31) + [128];
    hide LittleEndian, Exp2;
    LittleEndianJoin(Wire.Zeros(31), [128]);
    OneValue(128);
    ZeroValue(31);
    Exp2OfSeven();
    Exp2Add(7, 248);
    TopIsExp2();
    assert LittleEndian(s) == TOP;
    DivModUnique(TOP, P, 1, 19);
    DivModUnique(TOP, TOP, 1, 0);
    DivModUnique(0, P, 0, 0);
  }

  lemma {:induction false} ZeroValue(n: nat)
    ensures LittleEndian(Wire.Zeros(n)) == 0
  {
    if n > 0 {
      ZeroValue(n - 1);
      assert Wire.Zeros(n)[1..] == Wire.Zeros(n - 1);
    }
  }

  /** Given Fermat's theorem and a clear bit 255, the code's ladder is the RFC's function of the bytes. */
  lemma MaskedInputs(secret: seq<byte>, point: seq<byte>)
    requires |secret| == 32 && |point| == 32 && point[31] < 128 && Projective.Fermat()
    ensures X25519(LittleEndian(point) % P, BitsOf(LittleEndian(Clamp(secret)), 256)) == RfcX25519(secret, point)
  {
    hide X25519, BitsOf, LittleEndian, Clamp, Projective.Fermat;
    MaskedPoint(point);
    DonnaIsX25519(LittleEndian(point) % P, secret);
  }
}
