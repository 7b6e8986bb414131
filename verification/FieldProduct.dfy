/** The schoolbook product and square of ten-limb numbers. */
module FieldProduct {
  import opened Bytes
  import opened ModArith
  import opened Limbs

  /** Largest magnitudes of limbs that may enter a product: 2^27 (even) and 2^26 (odd). */
  function Room(i: nat): int {
    if i % 2 == 0 then 0x800_0000 else 0x400_0000
  }

  ghost predicate Roomy(s: seq<limb>) {
    |s| >= 10 && forall i :: 0 <= i < 10 ==> -Room(i) <= s[i] as int <= Room(i)
  }

  type Factor = s: seq<limb> | |s| == 10 && Roomy(s)
    witness [0, 0, 0, 0, 0, 0, 0, 0, 0, 0]

  lemma MulBound(a: int, b: int, m: int, n: int)
    requires -m <= a <= m && -n <= b <= n
    ensures -(m * n) <= a * b <= m * n
  {
    var x, y := if a < 0 then -a else a, if b < 0 then -b else b;
    MulMonotone(x, m, y);
    MulMonotone(y, n, m);
    MulSigns(a, b);
  }

  lemma MulMonotone(x: int, m: int, y: int)
    requires 0 <= x <= m && y >= 0
    ensures 0 <= x * y <= m * y && y * x <= y * m && x * y == y * x && m * y == y * m
  {
    Distribute(x, m - x, y);
    MulNonnegative(m - x, y);
    MulNonnegative(x, y);
  }

  lemma MulNonnegative(a: int, b: int)
    requires a >= 0 && b >= 0
    ensures a * b >= 0
  { }

  lemma MulSigns(a: int, b: int)
    ensures (-a) * b == -(a * b) == a * (-b) && (-a) * (-b) == a * b
  { }

  /** The source's cast-and-multiply: both casts to 32 bits are exact, the product fits 64 bits. */
  function Mul(a: limb, b: limb): (r: limb)
    requires -0x800_0000 <= a <= 0x800_0000 && -0x800_0000 <= b <= 0x800_0000
    ensures r as int == Prod(a, b)
    ensures -0x40_0000_0000_0000 <= r <= 0x40_0000_0000_0000
  {
    MulBound(a as int, b as int, 0x800_0000, 0x800_0000);
    ((a as s32) as limb) * ((b as s32) as limb)
  }

  lemma Unroll(a: seq<limb>, b: seq<limb>, k: nat)
    ensures Coefficient(a, b, k, 10) ==
            Term(a, b, 0, k) + Term(a, b, 1, k - 1) + Term(a, b, 2, k - 2) + Term(a, b, 3, k - 3)
            + Term(a, b, 4, k - 4) + Term(a, b, 5, k - 5) + Term(a, b, 6, k - 6) + Term(a, b, 7, k - 7)
            + Term(a, b, 8, k - 8) + Term(a, b, 9, k - 9)
  {
    hide Term;
    assert Coefficient(a, b, k, 1) == Term(a, b, 0, k);
    assert Coefficient(a, b, k, 2) == Coefficient(a, b, k, 1) + Term(a, b, 1, k - 1);
    assert Coefficient(a, b, k, 4) == Coefficient(a, b, k, 2) + Term(a, b, 2, k - 2) + Term(a, b, 3, k - 3);
    assert Coefficient(a, b, k, 6) == Coefficient(a, b, k, 4) + Term(a, b, 4, k - 4) + Term(a, b, 5, k - 5);
    assert Coefficient(a, b, k, 8) == Coefficient(a, b, k, 6) + Term(a, b, 6, k - 6) + Term(a, b, 7, k - 7);
  }

  lemma ProdCommutes()
    ensures forall x, y :: Prod(x, y) == Prod(y, x)
  { }

  // ----- the nineteen limbs of the product -----

  function Product0(a: Factor, b: Factor): (r: limb)
    ensures r as int == Coefficient(a, b, 0, 10)
  {
    Unroll(a, b, 0);
    hide Prod, Mul, Coefficient;
    Mul(a[0], b[0])
  }

  function Product1(a: Factor, b: Factor): (r: limb)
    ensures r as int == Coefficient(a, b, 1, 10)
  {
    Unroll(a, b, 1);
    hide Prod, Mul, Coefficient;
    Mul(a[0], b[1]) + Mul(a[1], b[0])
  }

  function Product2(a: Factor, b: Factor): (r: limb)
    ensures r as int == Coefficient(a, b, 2, 10)
  {
    Unroll(a, b, 2);
    hide Prod, Mul, Coefficient;
    2 * Mul(a[1], b[1]) + Mul(a[0], b[2]) + Mul(a[2], b[0])
  }

  function Product3(a: Factor, b: Factor): (r: limb)
    ensures r as int == Coefficient(a, b, 3, 10)
  {
    Unroll(a, b, 3);
    hide Prod, Mul, Coefficient;
    Mul(a[1], b[2]) + Mul(a[2], b[1]) + Mul(a[0], b[3]) + Mul(a[3], b[0])
  }

  function Product4(a: Factor, b: Factor): (r: limb)
    ensures r as int == Coefficient(a, b, 4, 10)
  {
    Unroll(a, b, 4);
    hide Prod, Mul, Coefficient;
    Mul(a[2], b[2]) + 2 * (Mul(a[1], b[3]) + Mul(a[3], b[1])) + Mul(a[0], b[4]) + Mul(a[4], b[0])
  }

  function Product5(a: Factor, b: Factor): (r: limb)
    ensures r as int == Coefficient(a, b, 5, 10)
  {
    Unroll(a, b, 5);
    hide Prod, Mul, Coefficient;
    Mul(a[2], b[3]) + Mul(a[3], b[2]) + Mul(a[1], b[4]) + Mul(a[4], b[1]) + Mul(a[0], b[5]) + Mul(a[5], b[0])
  }

  function Product6(a: Factor, b: Factor): (r: limb)
    ensures r as int == Coefficient(a, b, 6, 10)
  {
    Unroll(a, b, 6);
    hide Prod, Mul, Coefficient;
    2 * (Mul(a[3], b[3]) + Mul(a[1], b[5]) + Mul(a[5], b[1])) + Mul(a[2], b[4]) + Mul(a[4], b[2]) + Mul(a[0],
      b[6]) + Mul(a[6], b[0])
  }

  function Product7(a: Factor, b: Factor): (r: limb)
    ensures r as int == Coefficient(a, b, 7, 10)
  {
    Unroll(a, b, 7);
    hide Prod, Mul, Coefficient;
    Mul(a[3], b[4]) + Mul(a[4], b[3]) + Mul(a[2], b[5]) + Mul(a[5], b[2]) + Mul(a[1], b[6]) + Mul(a[6], b[1]) +
      Mul(a[0], b[7]) + Mul(a[7], b[0])
  }

  function Product8(a: Factor, b: Factor): (r: limb)
    ensures r as int == Coefficient(a, b, 8, 10)
  {
    Unroll(a, b, 8);
    hide Prod, Mul, Coefficient;
    Mul(a[4], b[4]) + 2 * (Mul(a[3], b[5]) + Mul(a[5], b[3]) + Mul(a[1], b[7]) + Mul(a[7], b[1])) + Mul(a[2],
      b[6]) + Mul(a[6], b[2]) + Mul(a[0], b[8]) + Mul(a[8], b[0])
  }

  function Product9(a: Factor, b: Factor): (r: limb)
    ensures r as int == Coefficient(a, b, 9, 10)
  {
    Unroll(a, b, 9);
    hide Prod, Mul, Coefficient;
    Mul(a[4], b[5]) + Mul(a[5], b[4]) + Mul(a[3], b[6]) + Mul(a[6], b[3]) + Mul(a[2], b[7]) + Mul(a[7], b[2]) +
      Mul(a[1], b[8]) + Mul(a[8], b[1]) + Mul(a[0], b[9]) + Mul(a[9], b[0])
  }

  function Product10(a: Factor, b: Factor): (r: limb)
    ensures r as int == Coefficient(a, b, 10, 10)
  {
    Unroll(a, b, 10);
    hide Prod, Mul, Coefficient;
    2 * (Mul(a[5], b[5]) + Mul(a[3], b[7]) + Mul(a[7], b[3]) + Mul(a[1], b[9]) + Mul(a[9], b[1])) + Mul(a[4],
      b[6]) + Mul(a[6], b[4]) + Mul(a[2], b[8]) + Mul(a[8], b[2])
  }

  function Product11(a: Factor, b: Factor): (r: limb)
    ensures r as int == Coefficient(a, b, 11, 10)
  {
    Unroll(a, b, 11);
    hide Prod, Mul, Coefficient;
    Mul(a[5], b[6]) + Mul(a[6], b[5]) + Mul(a[4], b[7]) + Mul(a[7], b[4]) + Mul(a[3], b[8]) + Mul(a[8], b[3]) +
      Mul(a[2], b[9]) + Mul(a[9], b[2])
  }

  function Product12(a: Factor, b: Factor): (r: limb)
    ensures r as int == Coefficient(a, b, 12, 10)
  {
    Unroll(a, b, 12);
    hide Prod, Mul, Coefficient;
    Mul(a[6], b[6]) + 2 * (Mul(a[5], b[7]) + Mul(a[7], b[5]) + Mul(a[3], b[9]) + Mul(a[9], b[3])) + Mul(a[4],
      b[8]) + Mul(a[8], b[4])
  }

  function Product13(a: Factor, b: Factor): (r: limb)
    ensures r as int == Coefficient(a, b, 13, 10)
  {
    Unroll(a, b, 13);
    hide Prod, Mul, Coefficient;
    Mul(a[6], b[7]) + Mul(a[7], b[6]) + Mul(a[5], b[8]) + Mul(a[8], b[5]) + Mul(a[4], b[9]) + Mul(a[9], b[4])
  }

  function Product14(a: Factor, b: Factor): (r: limb)
    ensures r as int == Coefficient(a, b, 14, 10)
  {
    Unroll(a, b, 14);
    hide Prod, Mul, Coefficient;
    2 * (Mul(a[7], b[7]) + Mul(a[5], b[9]) + Mul(a[9], b[5])) + Mul(a[6], b[8]) + Mul(a[8], b[6])
  }

  function Product15(a: Factor, b: Factor): (r: limb)
    ensures r as int == Coefficient(a, b, 15, 10)
  {
    Unroll(a, b, 15);
    hide Prod, Mul, Coefficient;
    Mul(a[7], b[8]) + Mul(a[8], b[7]) + Mul(a[6], b[9]) + Mul(a[9], b[6])
  }

  function Product16(a: Factor, b: Factor): (r: limb)
    ensures r as int == Coefficient(a, b, 16, 10)
  {
    Unroll(a, b, 16);
    hide Prod, Mul, Coefficient;
    Mul(a[8], b[8]) + 2 * (Mul(a[7], b[9]) + Mul(a[9], b[7]))
  }

  function Product17(a: Factor, b: Factor): (r: limb)
    ensures r as int == Coefficient(a, b, 17, 10)
  {
    Unroll(a, b, 17);
    hide Prod, Mul, Coefficient;
    Mul(a[8], b[9]) + Mul(a[9], b[8])
  }

  function Product18(a: Factor, b: Factor): (r: limb)
    ensures r as int == Coefficient(a, b, 18, 10)
  {
    Unroll(a, b, 18);
    hide Prod, Mul, Coefficient;
    2 * Mul(a[9], b[9])
  }

  /** Terms in limb k of a product. */
  function Terms(k: nat): int {
    if k < 10 then k + 1 else 19 - k
  }

  ghost predicate ProductSized(s: seq<limb>) {
    |s| == 19 && forall k :: 0 <= k < 19 ==>
      -(Terms(k) * 0x40_0000_0000_0000) <= s[k] as int <= Terms(k) * 0x40_0000_0000_0000
  }

  lemma TermBound(a: Factor, b: Factor, i: nat, j: int)
    ensures -0x40_0000_0000_0000 <= Term(a, b, i, j) <= 0x40_0000_0000_0000
    ensures !(i < 10 && 0 <= j < 10) ==> Term(a, b, i, j) == 0
  {
    if i < 10 && 0 <= j < 10 {
      MulBound(a[i] as int, b[j] as int, Room(i), Room(j));
    }
  }

  lemma {:induction false} CoefficientBound(a: Factor, b: Factor, k: nat, n: nat)
    requires k < 19 && n <= 10
    ensures
      var count := (if n < k + 1 then n else k + 1) - (if k < 9 then 0 else k - 9);
      var most := if count < 0 then 0 else count * 0x40_0000_0000_0000;
      -most <= Coefficient(a, b, k, n) <= most
  {
    if n != 0 {
      CoefficientBound(a, b, k, n - 1);
      TermBound(a, b, n - 1, k - (n - 1));
      hide Term;
    }
  }

  lemma ProductFits(out: seq<limb>, a: Factor, b: Factor)
    requires IsProduct(out, a, b)
    ensures ProductSized(out)
  {
    forall k | 0 <= k < 19
      ensures -(Terms(k) * 0x40_0000_0000_0000) <= out[k] as int <= Terms(k) * 0x40_0000_0000_0000
    {
      CoefficientBound(a, b, k, 10);
      hide Coefficient;
    }
  }

  function ProductLimbs(a: Factor, b: Factor): (r: seq<limb>)
    ensures |r| == 19 && IsProduct(r, a, b)
  {
    [Product0(a, b), Product1(a, b), Product2(a, b), Product3(a, b), Product4(a, b), Product5(a, b), Product6(a, b),
     Product7(a, b), Product8(a, b), Product9(a, b), Product10(a, b), Product11(a, b), Product12(a, b), Product13(a, b),
     Product14(a, b), Product15(a, b), Product16(a, b), Product17(a, b), Product18(a, b)]
  }

  method FProduct(output: array<limb>, in2: array<limb>, in1: array<limb>)
    requires output.Length == 19 && output != in2 && output != in1
    requires in2.Length >= 10 && in1.Length >= 10
    requires Roomy(in2[..10]) && Roomy(in1[..10])
    modifies output
    ensures IsProduct(output[..], in2[..10], in1[..10])
    ensures Value(output[..]) == Value(in2[..10]) * Value(in1[..10])
    ensures ProductSized(output[..])
  {
    hide *;
    var a: Factor, b: Factor := in2[..10], in1[..10];
    var r := ProductLimbs(a, b);
    ProductCorrect(r, a, b);
    ProductFits(r, a, b);
    forall k | 0 <= k < 19 { output[k] := r[k]; }
    assert output[..] == r && in2[..10] == a && in1[..10] == b;
  }

  // ----- the square: the same nineteen limbs with equal products gathered -----

  function Square0(a: Factor): (r: limb)
    ensures r as int == Coefficient(a, a, 0, 10)
  {
    Unroll(a, a, 0);
    ProdCommutes();
    hide Prod, Mul, Coefficient;
    Mul(a[0], a[0])
  }

  function Square1(a: Factor): (r: limb)
    ensures r as int == Coefficient(a, a, 1, 10)
  {
    Unroll(a, a, 1);
    ProdCommutes();
    hide Prod, Mul, Coefficient;
    2 * Mul(a[0], a[1])
  }

  function Square2(a: Factor): (r: limb)
    ensures r as int == Coefficient(a, a, 2, 10)
  {
    Unroll(a, a, 2);
    ProdCommutes();
    hide Prod, Mul, Coefficient;
    2 * (Mul(a[1], a[1]) + Mul(a[0], a[2]))
  }

  function Square3(a: Factor): (r: limb)
    ensures r as int == Coefficient(a, a, 3, 10)
  {
    Unroll(a, a, 3);
    ProdCommutes();
    hide Prod, Mul, Coefficient;
    2 * (Mul(a[1], a[2]) + Mul(a[0], a[3]))
  }

  function Square4(a: Factor): (r: limb)
    ensures r as int == Coefficient(a, a, 4, 10)
  {
    Unroll(a, a, 4);
    ProdCommutes();
    hide Prod, Mul, Coefficient;
    Mul(a[2], a[2]) + 4 * Mul(a[1], a[3]) + 2 * Mul(a[0], a[4])
  }

  function Square5(a: Factor): (r: limb)
    ensures r as int == Coefficient(a, a, 5, 10)
  {
    Unroll(a, a, 5);
    ProdCommutes();
    hide Prod, Mul, Coefficient;
    2 * (Mul(a[2], a[3]) + Mul(a[1], a[4]) + Mul(a[0], a[5]))
  }

  function Square6(a: Factor): (r: limb)
    ensures r as int == Coefficient(a, a, 6, 10)
  {
    Unroll(a, a, 6);
    ProdCommutes();
    hide Prod, Mul, Coefficient;
    2 * (Mul(a[3], a[3]) + Mul(a[2], a[4]) + Mul(a[0], a[6]) + 2 * Mul(a[1], a[5]))
  }

  function Square7(a: Factor): (r: limb)
    ensures r as int == Coefficient(a, a, 7, 10)
  {
    Unroll(a, a, 7);
    ProdCommutes();
    hide Prod, Mul, Coefficient;
    2 * (Mul(a[3], a[4]) + Mul(a[2], a[5]) + Mul(a[1], a[6]) + Mul(a[0], a[7]))
  }

  function Square8(a: Factor): (r: limb)
    ensures r as int == Coefficient(a, a, 8, 10)
  {
    Unroll(a, a, 8);
    ProdCommutes();
    hide Prod, Mul, Coefficient;
    Mul(a[4], a[4]) + 2 * (Mul(a[2], a[6]) + Mul(a[0], a[8]) + 2 * (Mul(a[1], a[7]) + Mul(a[3], a[5])))
  }

  function Square9(a: Factor): (r: limb)
    ensures r as int == Coefficient(a, a, 9, 10)
  {
    Unroll(a, a, 9);
    ProdCommutes();
    hide Prod, Mul, Coefficient;
    2 * (Mul(a[4], a[5]) + Mul(a[3], a[6]) + Mul(a[2], a[7]) + Mul(a[1], a[8]) + Mul(a[0], a[9]))
  }

  function Square10(a: Factor): (r: limb)
    ensures r as int == Coefficient(a, a, 10, 10)
  {
    Unroll(a, a, 10);
    ProdCommutes();
    hide Prod, Mul, Coefficient;
    2 * (Mul(a[5], a[5]) + Mul(a[4], a[6]) + Mul(a[2], a[8]) + 2 * (Mul(a[3], a[7]) + Mul(a[1], a[9])))
  }

  function Square11(a: Factor): (r: limb)
    ensures r as int == Coefficient(a, a, 11, 10)
  {
    Unroll(a, a, 11);
    ProdCommutes();
    hide Prod, Mul, Coefficient;
    2 * (Mul(a[5], a[6]) + Mul(a[4], a[7]) + Mul(a[3], a[8]) + Mul(a[2], a[9]))
  }

  function Square12(a: Factor): (r: limb)
    ensures r as int == Coefficient(a, a, 12, 10)
  {
    Unroll(a, a, 12);
    ProdCommutes();
    hide Prod, Mul, Coefficient;
    Mul(a[6], a[6]) + 2 * (Mul(a[4], a[8]) + 2 * (Mul(a[5], a[7]) + Mul(a[3], a[9])))
  }

  function Square13(a: Factor): (r: limb)
    ensures r as int == Coefficient(a, a, 13, 10)
  {
    Unroll(a, a, 13);
    ProdCommutes();
    hide Prod, Mul, Coefficient;
    2 * (Mul(a[6], a[7]) + Mul(a[5], a[8]) + Mul(a[4], a[9]))
  }

  function Square14(a: Factor): (r: limb)
    ensures r as int == Coefficient(a, a, 14, 10)
  {
    Unroll(a, a, 14);
    ProdCommutes();
    hide Prod, Mul, Coefficient;
    2 * (Mul(a[7], a[7]) + Mul(a[6], a[8]) + 2 * Mul(a[5], a[9]))
  }

  function Square15(a: Factor): (r: limb)
    ensures r as int == Coefficient(a, a, 15, 10)
  {
    Unroll(a, a, 15);
    ProdCommutes();
    hide Prod, Mul, Coefficient;
    2 * (Mul(a[7], a[8]) + Mul(a[6], a[9]))
  }

  function Square16(a: Factor): (r: limb)
    ensures r as int == Coefficient(a, a, 16, 10)
  {
    Unroll(a, a, 16);
    ProdCommutes();
    hide Prod, Mul, Coefficient;
    Mul(a[8], a[8]) + 4 * Mul(a[7], a[9])
  }

  function Square17(a: Factor): (r: limb)
    ensures r as int == Coefficient(a, a, 17, 10)
  {
    Unroll(a, a, 17);
    ProdCommutes();
    hide Prod, Mul, Coefficient;
    2 * Mul(a[8], a[9])
  }

  function Square18(a: Factor): (r: limb)
    ensures r as int == Coefficient(a, a, 18, 10)
  {
    Unroll(a, a, 18);
    ProdCommutes();
    hide Prod, Mul, Coefficient;
    2 * Mul(a[9], a[9])
  }

  function SquareLimbs(a: Factor): (r: seq<limb>)
    ensures |r| == 19 && IsProduct(r, a, a)
  {
    [Square0(a), Square1(a), Square2(a), Square3(a), Square4(a), Square5(a), Square6(a), Square7(a), Square8(a),
     Square9(a), Square10(a), Square11(a), Square12(a), Square13(a), Square14(a), Square15(a), Square16(a),
     Square17(a), Square18(a)]
  }

  method FSquareInner(output: array<limb>, input: array<limb>)
    requires output.Length == 19 && output != input && input.Length >= 10
    requires Roomy(input[..10])
    modifies output
    ensures IsProduct(output[..], input[..10], input[..10])
    ensures Value(output[..]) == Value(input[..10]) * Value(input[..10])
    ensures ProductSized(output[..])
  {
    hide *;
    var a: Factor := input[..10];
    var r := SquareLimbs(a);
    ProductCorrect(r, a, a);
    ProductFits(r, a, a);
    forall k | 0 <= k < 19 { output[k] := r[k]; }
    assert output[..] == r && input[..10] == a;
  }
}

