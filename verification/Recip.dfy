/** crecip: the inverse as a power, by an addition chain of squarings and products. */
module Recip {
  import opened Bits
  import opened ModArith
  import opened Limbs
  import opened Field25519
  import opened FieldProduct
  import opened FieldReduce
  import opened FieldOps

  /** a holds z^e, in reduced limbs. */
  ghost predicate IsPower(a: array<limb>, z: elem, e: nat)
    reads a
  {
    a.Length >= 10 && NearlyReduced(a[..]) && Elem(a[..]) == FPow(z, e)
  }

  method SquarePower(output: array<limb>, input: array<limb>, ghost z: elem, ghost e: nat)
    requires output.Length >= 10 && output != input && IsPower(input, z, e)
    modifies output
    ensures IsPower(output, z, 2 * e)
  {
    hide NearlyReduced, Elem, FPow, FSquare, Roomy;
    ReducedPair(input[..], input[..]);
    assert input[..][..10] == input[..10];
    FSquareTo(output, input);
    FPowDouble(z, e);
  }

  method MulPower(output: array<limb>, in1: array<limb>, in2: array<limb>, ghost z: elem, ghost e1: nat, ghost e2: nat)
    requires output.Length >= 10 && output != in1 && output != in2
    requires IsPower(in1, z, e1) && IsPower(in2, z, e2)
    modifies output
    ensures IsPower(output, z, e1 + e2)
  {
    hide NearlyReduced, Elem, FPow, FMul, Roomy;
    ReducedPair(in1[..], in2[..]);
    assert in1[..][..10] == in1[..10] && in2[..][..10] == in2[..10];
    FMulTo(output, in1, in2);
    FPowAdd(z, e1, e2);
  }

  /** for (i = 2; i < n; i += 2): two squarings a round. */
  method SquareLoop(t0: array<limb>, t1: array<limb>, n: nat, ghost z: elem, ghost e: nat)
    requires t0.Length >= 10 && t1.Length >= 10 && t0 != t1 && IsPower(t1, z, 4 * e) && n >= 2 && n % 2 == 0
    modifies t0, t1
    ensures IsPower(t1, z, Exp2(n) * e)
  {
    hide IsPower;
    var i := 2;
    assert Exp2(2) == 4;
    while i < n
      invariant 2 <= i <= n && i % 2 == 0
      invariant IsPower(t1, z, Exp2(i) * e)
    {
      SquarePower(t0, t1, z, Exp2(i) * e);
      SquarePower(t1, t0, z, 2 * (Exp2(i) * e));
      ExpQuadruple(i, e);
      i := i + 2;
    }
  }

  lemma ExpQuadruple(i: nat, e: nat)
    ensures Exp2(i + 2) * e == 2 * (2 * (Exp2(i) * e))
  {
    assert Exp2(i + 2) == 4 * Exp2(i);
    hide Exp2;
    Rotate(4, Exp2(i), e);
  }

  /** 2^n - 1. */
  function Ones(n: nat): nat {
    Exp2(n) - 1
  }

  lemma OnesJoin(m: nat, n: nat)
    ensures Exp2(n) * Ones(m) + Ones(n) == Ones(m + n)
  {
    Exp2Add(m, n);
    hide Exp2;
    Distribute(Ones(m), 1, Exp2(n));
  }

  /** From z^(2^m - 1) in a and z^(2^n - 1) in b to z^(2^(m+n) - 1): n squarings of a, then a product. */
  method Extend(output: array<limb>, a: array<limb>, b: array<limb>, t0: array<limb>, t1: array<limb>,
                m: nat, n: nat, ghost z: elem)
    requires output.Length >= 10 && t0.Length >= 10 && t1.Length >= 10 && n >= 2 && n % 2 == 0
    requires t0 != t1 && t0 != a && t0 != b && t1 != b && output != t1 && output != b
    requires IsPower(a, z, Ones(m)) && IsPower(b, z, Ones(n))
    modifies output, t0, t1
    ensures IsPower(output, z, Ones(m + n))
  {
    hide *;
    SquarePower(t0, a, z, Ones(m));
    SquarePower(t1, t0, z, 2 * Ones(m));
    SquareLoop(t0, t1, n, z, Ones(m));
    MulPower(output, t1, b, z, Exp2(n) * Ones(m), Ones(n));
    OnesJoin(m, n);
  }

  lemma SmallOnes()
    ensures Ones(5) == 31 && Ones(10) == 1023
  { }

  /** The start of the chain: z^11 and z^(2^10 - 1). */
  method RecipLow(z: array<limb>, z11: array<limb>, z2_10_0: array<limb>, t0: array<limb>, t1: array<limb>,
                  ghost v: elem)
    requires z11.Length >= 10 && z2_10_0.Length >= 10 && t0.Length >= 10 && t1.Length >= 10
    requires z11 != z2_10_0 && t0 != t1 && {t0, t1} !! {z11, z2_10_0} && z !in {z11, z2_10_0, t0, t1}
    requires IsPower(z, v, 1)
    modifies z11, z2_10_0, t0, t1
    ensures IsPower(z11, v, 11) && IsPower(z2_10_0, v, Ones(10))
  {
    hide IsPower, Ones;
    var z2, z9, z2_5_0 := new limb[10], new limb[10], new limb[10];
    SquarePower(z2, z, v, 1);
    SquarePower(t1, z2, v, 2);
    SquarePower(t0, t1, v, 4);
    MulPower(z9, t0, z, v, 8, 1);
    MulPower(z11, z9, z2, v, 9, 2);
    SquarePower(t0, z11, v, 11);
    MulPower(z2_5_0, t0, z9, v, 22, 9);
    FiveSquarings(z2_10_0, z2_5_0, t0, t1, v);
  }

  /** From z^31 to z^1023. */
  method FiveSquarings(output: array<limb>, z2_5_0: array<limb>, t0: array<limb>, t1: array<limb>, ghost v: elem)
    requires output.Length >= 10 && t0.Length >= 10 && t1.Length >= 10
    requires t0 != t1 && {t0, t1} !! {output, z2_5_0} && output != z2_5_0 && IsPower(z2_5_0, v, 31)
    modifies output, t0, t1
    ensures IsPower(output, v, Ones(10))
  {
    hide IsPower, Ones;
    SquarePower(t0, z2_5_0, v, 31);
    SquarePower(t1, t0, v, 62);
    SquarePower(t0, t1, v, 124);
    SquarePower(t1, t0, v, 248);
    SquarePower(t0, t1, v, 496);
    MulPower(output, t0, z2_5_0, v, 992, 31);
    SmallOnes();
  }

  /** The end of the chain: five squarings of z^(2^250 - 1), times z^11. */
  method RecipHigh(output: array<limb>, z11: array<limb>, t0: array<limb>, t1: array<limb>, ghost v: elem)
    requires output.Length >= 10 && t0.Length >= 10 && t1.Length >= 10
    requires t0 != t1 && output != t1 && z11 !in {output, t0, t1}
    requires IsPower(z11, v, 11) && IsPower(t0, v, Ones(250))
    modifies output, t0, t1
    ensures IsPower(output, v, P - 2)
  {
    hide IsPower;
    ghost var e := Ones(250);
    SquarePower(t1, t0, v, e);
    SquarePower(t0, t1, v, 2 * e);
    SquarePower(t1, t0, v, 4 * e);
    SquarePower(t0, t1, v, 8 * e);
    SquarePower(t1, t0, v, 16 * e);
    MulPower(output, t1, z11, v, 32 * e, 11);
    LastExponent();
  }

  lemma LastExponent()
    ensures 32 * Ones(250) + 11 == P - 2
  {
    assert Exp2(5) == 32;
    hide Exp2;
    Exp2Add(250, 5);
    TopIsExp2();
  }

  method CRecip(output: array<limb>, z: array<limb>)
    requires output.Length >= 10 && z.Length >= 10 && output != z && NearlyReduced(z[..])
    modifies output
    ensures NearlyReduced(output[..]) && Elem(output[..]) == FPow(Elem(z[..]), P - 2)
  {
    hide Elem, NearlyReduced, FPow, Ones, IsPower;
    ghost var v := Elem(z[..]);
    FirstPower(z);
    var z11, z2_10_0 := new limb[10], new limb[10];
    var t0, t1 := new limb[10], new limb[10];
    RecipLow(z, z11, z2_10_0, t0, t1, v);
    RecipMiddle(z2_10_0, t0, t1, v);
    RecipHigh(output, z11, t0, t1, v);
    PowerElem(output, v, P - 2);
  }

  /** The middle of the chain: from 2^10 - 1 by doublings to 2^250 - 1, which ends in t0. */
  method RecipMiddle(z2_10_0: array<limb>, t0: array<limb>, t1: array<limb>, ghost v: elem)
    requires t0.Length >= 10 && t1.Length >= 10 && t0 != t1 && z2_10_0 !in {t0, t1} && IsPower(z2_10_0, v, Ones(10))
    modifies t0, t1
    ensures IsPower(t0, v, Ones(250))
  {
    hide *;
    var z2_20_0, z2_50_0, z2_100_0 := new limb[10], new limb[10], new limb[10];
    Extend(z2_20_0, z2_10_0, z2_10_0, t0, t1, 10, 10, v);
    Extend(t0, z2_20_0, z2_20_0, t0, t1, 20, 20, v);
    Extend(z2_50_0, t0, z2_10_0, t1, t0, 40, 10, v);
    Extend(z2_100_0, z2_50_0, z2_50_0, t0, t1, 50, 50, v);
    Extend(t1, z2_100_0, z2_100_0, t1, t0, 100, 100, v);
    Extend(t0, t1, z2_50_0, t0, t1, 200, 50, v);
  }

  lemma FirstPower(z: array<limb>)
    requires z.Length >= 10 && NearlyReduced(z[..])
    ensures IsPower(z, Elem(z[..]), 1)
  {
    var v := Elem(z[..]);
    hide Elem;
    assert Pow(v, 1) == v;
    DivModUnique(v, P, 0, v);
  }

  lemma PowerElem(a: array<limb>, z: elem, e: nat)
    requires IsPower(a, z, e)
    ensures a.Length >= 10 && NearlyReduced(a[..]) && Elem(a[..]) == FPow(z, e)
  { }
}
