/** Sums, differences and reduced products of field elements held in limb arrays. */
module FieldOps {
  import opened ModArith
  import opened Limbs
  import opened Field25519
  import opened FieldProduct
  import opened FieldReduce

  /** The magnitudes of s and t, limb by limb, add up to what a product accepts. */
  ghost predicate PairRoomy(s: seq<limb>, t: seq<limb>) {
    && |s| >= 10 && |t| >= 10
    && forall i :: 0 <= i < 10 ==> Abs(s[i] as int) + Abs(t[i] as int) <= Room(i)
  }

  function Abs(x: int): int {
    if x < 0 then -x else x
  }

  lemma ReducedPair(s: seq<limb>, t: seq<limb>)
    requires NearlyReduced(s) && NearlyReduced(t)
    ensures PairRoomy(s, t) && Roomy(s[..10]) && Roomy(t[..10])
  {
    forall i | 0 <= i < 10
      ensures Abs(s[i] as int) + Abs(t[i] as int) <= Room(i)
    {
      assert i == 2 || (Fits(s[i], i) && Fits(t[i], i));
    }
  }

  method FSum(output: array<limb>, input: array<limb>)
    requires output.Length >= 10 && input.Length >= 10 && output != input
    requires PairRoomy(output[..], input[..])
    modifies output
    ensures Elem(output[..]) == FAdd(Elem(old(output[..])), Elem(input[..]))
    ensures Roomy(output[..10]) && output[10..] == old(output[10..])
    ensures forall i :: 0 <= i < 10 ==> output[i] as int == old(output[i]) as int + input[i] as int
  {
    hide Elem, FAdd, Room;
    ghost var s := output[..];
    var i := 0;
    while i < 10
      invariant 0 <= i <= 10 && i % 2 == 0
      invariant forall j :: 0 <= j < i ==> output[j] as int == s[j] as int + input[j] as int
      invariant forall j :: i <= j < output.Length ==> output[j] == s[j]
    {
      RoomBound(s, input[..], i);
      RoomBound(s, input[..], i + 1);
      output[i] := output[i] + input[i];
      output[i + 1] := output[i + 1] + input[i + 1];
      i := i + 2;
    }
    ElemSum(output[..], s, input[..]);
    assert output[10..] == s[10..];
  }

  lemma RoomBound(s: seq<limb>, t: seq<limb>, i: nat)
    requires PairRoomy(s, t) && i < 10
    ensures -0x800_0000 <= s[i] <= 0x800_0000 && -0x800_0000 <= t[i] <= 0x800_0000
  {
    assert Abs(s[i] as int) + Abs(t[i] as int) <= Room(i);
  }

  method FDifference(output: array<limb>, input: array<limb>)
    requires output.Length >= 10 && input.Length >= 10 && output != input
    requires PairRoomy(output[..], input[..])
    modifies output
    ensures Elem(output[..]) == FSub(Elem(input[..]), Elem(old(output[..])))
    ensures Roomy(output[..10]) && output[10..] == old(output[10..])
    ensures forall i :: 0 <= i < 10 ==> output[i] as int == input[i] as int - old(output[i]) as int
  {
    hide Elem, FSub, Room;
    ghost var s := output[..];
    var i := 0;
    while i < 10
      invariant 0 <= i <= 10
      invariant forall j :: 0 <= j < i ==> output[j] as int == input[j] as int - s[j] as int
      invariant forall j :: i <= j < output.Length ==> output[j] == s[j]
    {
      RoomBound(s, input[..], i);
      output[i] := input[i] - output[i];
      i := i + 1;
    }
    ElemDifference(output[..], input[..], s);
    assert output[10..] == s[10..];
  }

  /** The 64-bit product does not overflow. */
  function ScaledLimb(x: limb, scalar: limb): (r: limb)
    requires -0x800_0000 <= x <= 0x800_0000 && 0 <= scalar <= 0x4_0000_0000
    ensures r as int == scalar as int * x as int && -0x2000_0000_0000_0000 <= r <= 0x2000_0000_0000_0000
  {
    MulBound(x as int, scalar as int, 0x800_0000, 0x4_0000_0000);
    x * scalar
  }

  method FScalarProduct(output: array<limb>, input: array<limb>, scalar: limb)
    requires output.Length >= 10 && input.Length >= 10 && output != input
    requires Roomy(input[..10]) && 0 <= scalar <= 0x4_0000_0000
    modifies output
    ensures Elem(output[..]) == FMul(scalar as int, Elem(input[..]))
    ensures Below62(output[..]) && output[10..] == old(output[10..])
  {
    hide Elem, FMul, Below62, ScaledLimb;
    ghost var s := output[..];
    var i := 0;
    while i < 10
      invariant 0 <= i <= 10
      invariant forall j :: 0 <= j < i ==> output[j] as int == scalar as int * input[j] as int
      invariant forall j :: 0 <= j < i ==> -0x2000_0000_0000_0000 <= output[j] <= 0x2000_0000_0000_0000
      invariant forall j :: i <= j < output.Length ==> output[j] == s[j]
    {
      assert -0x800_0000 <= input[..10][i] <= 0x800_0000;
      output[i] := ScaledLimb(input[i], scalar);
      i := i + 1;
    }
    ElemScaled(output[..], scalar as int, input[..]);
    assert output[10..] == s[10..];
    Below62From(output[..]);
  }

  lemma Below62From(s: seq<limb>)
    requires |s| >= 10 && forall j :: 0 <= j < 10 ==> -0x2000_0000_0000_0000 <= s[j] <= 0x2000_0000_0000_0000
    ensures Below62(s)
  { }

  /** The residue of a product of values is the product of the elements. */
  lemma ElemProduct(a: seq<limb>, b: seq<limb>, v: int)
    requires |a| >= 10 && |b| >= 10 && v == Value(a[..10]) * Value(b[..10])
    ensures v % P == FMul(Elem(a), Elem(b))
  {
    hide Value;
    ModMul(Value(a[..10]), Value(b[..10]), P);
  }

  /** fproduct, freduce_degree, freduce_coefficients on a nineteen-limb array. */
  method ProductReduced(output: array<limb>, in2: array<limb>, in1: array<limb>)
    requires output.Length == 19 && in2.Length >= 10 && in1.Length >= 10
    requires output != in2 && output != in1
    requires Roomy(in2[..10]) && Roomy(in1[..10])
    modifies output
    ensures Elem(output[..]) == FMul(Elem(in2[..]), Elem(in1[..]))
    ensures NearlyReduced(output[..])
  {
    hide *;
    FProduct(output, in2, in1);
    assert in2[..][..10] == in2[..10] && in1[..][..10] == in1[..10];
    ElemProduct(in2[..], in1[..], Value(output[..]));
    FReduceDegree(output);
    FReduceCoefficients(output);
  }

  method SquareReduced(output: array<limb>, input: array<limb>)
    requires output.Length == 19 && input.Length >= 10 && output != input
    requires Roomy(input[..10])
    modifies output
    ensures Elem(output[..]) == FSquare(Elem(input[..]))
    ensures NearlyReduced(output[..])
  {
    hide FMul, Value, Elem, Roomy, NearlyReduced;
    FSquareInner(output, input);
    assert input[..][..10] == input[..10];
    ElemProduct(input[..], input[..], Value(output[..]));
    FReduceDegree(output);
    FReduceCoefficients(output);
  }

  /** memcpy of ten limbs. */
  method CopyTen(output: array<limb>, input: array<limb>)
    requires output.Length >= 10 && input.Length >= 10 && output != input
    modifies output
    ensures output[..10] == input[..10] && output[10..] == old(output[10..])
    ensures Elem(output[..]) == Elem(input[..])
    ensures NearlyReduced(input[..]) ==> NearlyReduced(output[..])
  {
    forall i | 0 <= i < 10 { output[i] := input[i]; }
    SameTen(input[..], output[..]);
  }

  lemma SameTen(s: seq<limb>, t: seq<limb>)
    requires |s| >= 10 && |t| >= 10 && forall i :: 0 <= i < 10 ==> t[i] == s[i]
    ensures t[..10] == s[..10] && Elem(t) == Elem(s)
    ensures NearlyReduced(s) ==> NearlyReduced(t)
    ensures Reduced(s) ==> Reduced(t)
  {
    hide Value;
  }

  method FMulTo(output: array<limb>, in1: array<limb>, in2: array<limb>)
    requires output.Length >= 10 && in1.Length >= 10 && in2.Length >= 10
    requires Roomy(in1[..10]) && Roomy(in2[..10])
    modifies output
    ensures Elem(output[..]) == FMul(old(Elem(in1[..])), old(Elem(in2[..])))
    ensures NearlyReduced(output[..]) && output[10..] == old(output[10..])
  {
    hide *;
    var t := new limb[19];
    ProductReduced(t, in1, in2);
    CopyTen(output, t);
  }

  method FSquareTo(output: array<limb>, input: array<limb>)
    requires output.Length >= 10 && input.Length >= 10
    requires Roomy(input[..10])
    modifies output
    ensures Elem(output[..]) == FSquare(old(Elem(input[..])))
    ensures NearlyReduced(output[..]) && output[10..] == old(output[10..])
  {
    hide *;
    var t := new limb[19];
    SquareReduced(t, input);
    CopyTen(output, t);
  }
}
