/** Integers modulo the prime 2^255 - 19, and the field element that limbs stand for. */
module Field25519 {
  import opened ModArith
  import opened Limbs

  const P: nat := 0x7fff_ffff_ffff_ffff_ffff_ffff_ffff_ffff_ffff_ffff_ffff_ffff_ffff_ffff_ffff_ffed

  type elem = x: int | 0 <= x < P

  function FAdd(a: elem, b: elem): elem { (a + b) % P }
  function FSub(a: elem, b: elem): elem { (a - b) % P }
  function FMul(a: elem, b: elem): elem { (a * b) % P }
  function FSquare(a: elem): elem { FMul(a, a) }

  function FPow(a: elem, n: nat): elem {
    Pow(a, n) % P
  }

  /** The field element represented by the first ten limbs. */
  ghost function Elem(s: seq<limb>): elem
    requires |s| >= 10
  {
    Value(s[..10]) % P
  }

  lemma FPowAdd(a: elem, m: nat, n: nat)
    ensures FMul(FPow(a, m), FPow(a, n)) == FPow(a, m + n)
  {
    PowAdd(a, m, n);
    ModMul(Pow(a, m), Pow(a, n), P);
  }

  lemma FPowDouble(a: elem, n: nat)
    ensures FSquare(FPow(a, n)) == FPow(a, 2 * n)
  {
    FPowAdd(a, n, n);
  }

  lemma ElemSum(r: seq<limb>, s: seq<limb>, t: seq<limb>)
    requires |r| >= 10 && |s| >= 10 && |t| >= 10
    requires forall i :: 0 <= i < 10 ==> r[i] as int == s[i] as int + t[i] as int
    ensures Elem(r) == FAdd(Elem(s), Elem(t))
  {
    ValueLinear(r[..10], 1, s[..10], 1, t[..10]);
    ModAdd(Value(s[..10]), Value(t[..10]), P);
  }

  lemma ElemDifference(r: seq<limb>, s: seq<limb>, t: seq<limb>)
    requires |r| >= 10 && |s| >= 10 && |t| >= 10
    requires forall i :: 0 <= i < 10 ==> r[i] as int == s[i] as int - t[i] as int
    ensures Elem(r) == FSub(Elem(s), Elem(t))
  {
    ValueLinear(r[..10], 1, s[..10], -1, t[..10]);
    ModSub(Value(s[..10]), Value(t[..10]), P);
  }

  lemma ElemScaled(r: seq<limb>, c: elem, t: seq<limb>)
    requires |r| >= 10 && |t| >= 10
    requires forall i :: 0 <= i < 10 ==> r[i] as int == c * t[i] as int
    ensures Elem(r) == FMul(c, Elem(t))
  {
    ValueLinear(r[..10], 0, t[..10], c, t[..10]);
    ModMulLeft(Value(t[..10]), c, P);
    assert c * Value(t[..10]) == Value(t[..10]) * c;
  }

  /** 2^255 is 19: the limbs above the tenth fold back, multiplied by 19. */
  lemma ElemFold(r: seq<limb>, s: seq<limb>)
    requires |r| >= 10 && |s| == 19
    requires forall i :: 0 <= i < 9 ==> r[i] as int == s[i] as int + 19 * s[10 + i] as int
    requires r[9] == s[9]
    ensures Elem(r) == Value(s) % P
  {
    var high := s[10..] + [0];
    ValueLinear(r[..10], 1, s[..10], 19, high);
    assert high[..9] == s[10..];
    assert Value(high) == Value(s[10..]);
    ValueSplit(s);
    var h := Value(s[10..]);
    assert Value(s) == Value(r[..10]) + P * h;
    ModShift(Value(r[..10]), h, P);
  }
}
