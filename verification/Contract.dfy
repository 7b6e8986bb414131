/** fcontract: make every limb non-negative by borrowing, then pack the limbs into 32 bytes. */
module Contract {
  import opened Bytes
  import opened Bits
  import opened ModArith
  import opened Limbs
  import opened Field25519
  import opened FieldReduce
  import opened Scalar
  import opened ScalarMult
  import opened Packing

  // ----- borrows -----

  /** mask = x >> 31; carry = -((x & mask) >> w): one unit exactly when x is negative. */
  function BorrowOf(x: s32, i: nat): (carry: int)
    requires -Magnitude(i) <= x as int < Magnitude(i)
    ensures carry == if x < 0 then 1 else 0
  {
    var mask := (x as int / 0x8000_0000) as s32;
    AndWithMask(mask, x);
    hide AndS32;
    -(AndS32(mask, x) as int / Magnitude(i))
  }

  /** t is s after the loop body has treated limbs 0 to i - 1. */
  ghost predicate Borrowed(s: seq<limb>, t: seq<limb>, i: nat) {
    && 10 <= |s| == |t| && i < 10
    && Value(t[..10]) == Value(s[..10])
    && (forall j :: 0 <= j < i ==> 0 <= t[j] as int < Magnitude(j))
    && (forall j :: i < j < 10 ==> t[j] == s[j])
    && (t[i] == s[i] || (i > 0 && t[i] as int == s[i] as int - 1))
    && (t[i] != s[i] && Settling(s) ==> s[0] < 0 && t[0] as int == s[0] as int + 0x400_0000)
  }

  /** Limbs as a borrow pass leaves them: only limb 0 can be negative, by 19 at most. */
  ghost predicate Settling(s: seq<limb>) {
    && |s| >= 10 && -19 <= s[0] < 0x400_0000
    && forall j :: 1 <= j < 10 ==> 0 <= s[j] as int < Magnitude(j)
  }

  /** All limbs non-negative and within their widths. */
  ghost predicate Canonical(s: seq<limb>) {
    |s| >= 10 && forall j :: 0 <= j < 10 ==> 0 <= s[j] as int < Magnitude(j)
  }

  lemma BorrowStep(s: seq<limb>, t: seq<limb>, u: seq<limb>, i: nat, c: int)
    requires Reduced(s) && Borrowed(s, t, i) && i < 9
    requires Carried(t, u, i, -c) && c == if t[i] < 0 then 1 else 0
    ensures Borrowed(s, u, i + 1)
  {
    hide Value;
    CarriedElsewhere(t, u, i, -c);
    assert Fits(s[i], i) && Fits(s[i + 1], i + 1);
    assert t[i + 1] == s[i + 1];
    assert u[i] as int == t[i] as int + c * Magnitude(i);
    assert u[..10] == t[..10][i := u[i]][i + 1 := u[i + 1]];
    CarriedKeepsValue(t[..10], u[..10], i, -c);
    hide Carried, Magnitude;
    assert 0 <= u[i] as int < Magnitude(i);
  }

  method BorrowLimb(input: array<limb>, i: nat)
    requires input.Length >= 10 && i < 9
    requires -Magnitude(i) <= input[i] as int < Magnitude(i)
    requires -Magnitude(i + 1) < input[i + 1] as int < Magnitude(i + 1)
    modifies input
    ensures Carried(old(input[..]), input[..], i, -(if old(input[i]) < 0 then 1 else 0))
  {
    var carry := BorrowOf(input[i] as s32, i);
    hide BorrowOf;
    input[i] := ((input[i] as s32) as int + carry * Magnitude(i)) as limb;
    input[i + 1] := ((input[i + 1] as s32) as int - carry) as limb;
  }

  /** The wrap-around borrow: limb 9 takes 2^25 and limb 0 pays 19. */
  ghost predicate Wrapped(t: seq<limb>, u: seq<limb>, c: int) {
    && 10 <= |t| == |u|
    && u[9] as int == t[9] as int + c * 0x200_0000
    && u[0] as int == t[0] as int - 19 * c
    && u == t[9 := u[9]][0 := u[0]]
  }

  lemma WrappedElem(t: seq<limb>, u: seq<limb>, c: int)
    requires Wrapped(t, u, c)
    ensures Elem(u) == Elem(t)
  {
    hide Value;
    var a := t[..10];
    var b := a[9 := u[9]];
    assert u[..10] == b[0 := u[0]];
    ValueUpdate(a, 9, u[9]);
    ValueUpdate(b, 0, u[0]);
    WeightNine();
    assert Weight(0) == 1;
    hide Weight;
    assert Value(u[..10]) == Value(a) + P * c;
    ModShift(Value(a), c, P);
  }

  lemma WeightNine()
    ensures 0x200_0000 * Weight(9) == TOP
  {
    assert Weight(0) == 1;
    Powers();
    hide Exp2;
    WeightStep(9);
    WeightTen(0);
    assert Exp2(Width(9)) == 0x200_0000;
  }

  lemma PassEnd(s: seq<limb>, t: seq<limb>, u: seq<limb>, c: int)
    requires Reduced(s) && Borrowed(s, t, 9) && Wrapped(t, u, c) && c == if t[9] < 0 then 1 else 0
    ensures Settling(u) && (Settling(s) ==> Canonical(u))
    ensures Elem(u) == Elem(s) && |u| == |s|
  {
    WrappedElem(t, u, c);
    hide Value, Elem;
    assert Fits(s[9], 9);
    assert forall j :: 1 <= j < 9 ==> u[j] == t[j];
    if Settling(s) && c == 1 {
      assert t[9] != s[9];
    }
  }

  lemma BorrowedElem(s: seq<limb>, t: seq<limb>, i: nat)
    requires Borrowed(s, t, i)
    ensures Elem(t) == Elem(s)
  { }

  method BorrowPass(input: array<limb>)
    requires input.Length >= 10 && Reduced(input[..])
    modifies input
    ensures Elem(input[..]) == Elem(old(input[..]))
    ensures Settling(input[..])
    ensures Settling(old(input[..])) ==> Canonical(input[..])
  {
    hide Elem, Value, Settling, Canonical, Reduced, Carried;
    ghost var s := input[..];
    var i := 0;
    while i < 9
      invariant 0 <= i <= 9
      invariant Borrowed(s, input[..], i)
    {
      ghost var t := input[..];
      BorrowRoom(s, t, i);
      BorrowLimb(input, i);
      BorrowStep(s, t, input[..], i, if t[i] < 0 then 1 else 0);
      i := i + 1;
    }
    ghost var t := input[..];
    BorrowRoom(s, t, 9);
    BorrowedElem(s, t, 9);
    var carry := BorrowOf(input[9] as s32, 9);
    input[9] := ((input[9] as s32) as int + carry * 0x200_0000) as limb;
    input[0] := ((input[0] as s32) as int - carry * 19) as limb;
    PassEnd(s, t, input[..], carry);
  }

  lemma BorrowRoom(s: seq<limb>, t: seq<limb>, i: nat)
    requires Reduced(s) && Borrowed(s, t, i)
    ensures -Magnitude(i) <= t[i] as int < Magnitude(i)
    ensures i < 9 ==> -Magnitude(i + 1) < t[i + 1] as int < Magnitude(i + 1)
    ensures 0 < i ==> 0 <= t[0] < 0x400_0000
  {
    hide Value;
    assert Fits(s[i], i);
    if i < 9 { assert Fits(s[i + 1], i + 1) && t[i + 1] == s[i + 1]; }
  }

  lemma SettlingIsReduced(s: seq<limb>)
    requires Settling(s)
    ensures Reduced(s)
  { }

  /** The loop: two passes leave nothing negative, whatever the signs were. */
  method BorrowPasses(input: array<limb>)
    requires input.Length >= 10 && Reduced(input[..])
    modifies input
    ensures Canonical(input[..]) && Elem(input[..]) == Elem(old(input[..]))
  {
    hide Elem, Settling, Reduced, Canonical;
    var j := 0;
    while j < 2
      invariant 0 <= j <= 2
      invariant Elem(input[..]) == Elem(old(input[..]))
      invariant Reduced(input[..])
      invariant j == 1 ==> Settling(input[..])
      invariant j == 2 ==> Canonical(input[..])
    {
      BorrowPass(input);
      SettlingIsReduced(input[..]);
      j := j + 1;
    }
  }

  /**
   The last borrow, from limb 1 into limb 0, follows; `settled`, the limbs before it, are already canonical, and it
   changes none.
   */
  method Normalise(input: array<limb>) returns (ghost settled: seq<limb>)
    requires input.Length >= 10 && Reduced(input[..])
    modifies input
    ensures Canonical(settled) && input[..] == settled
    ensures Elem(input[..]) == Elem(old(input[..]))
  {
    hide Elem, Reduced, Canonical;
    BorrowPasses(input);
    settled := input[..];
    CanonicalEnds(settled);
    BorrowLimb(input, 0);
    IdleBorrow(settled, input[..]);
  }

  lemma CanonicalEnds(t: seq<limb>)
    requires Canonical(t)
    ensures 0 <= t[0] < 0x400_0000 && 0 <= t[1] < 0x200_0000
  { }

  lemma IdleBorrow(t: seq<limb>, u: seq<limb>)
    requires |t| >= 10 && 0 <= t[0] && Carried(t, u, 0, -(if t[0] < 0 then 1 else 0))
    ensures u == t
  { }

  // ----- packing -----

  lemma {:induction false} CanonicalBound(t: seq<limb>, m: nat)
    requires Canonical(t) && m <= 10
    ensures 0 <= Value(t[..m]) < Weight(m)
  {
    hide Weight, Exp2, Width, Magnitude;
    if m == 0 {
      WeightZero();
    } else {
      CanonicalBound(t, m - 1);
      assert t[..m][..m - 1] == t[..m - 1];
      var x, w := t[m - 1] as int, Weight(m - 1);
      WeightStep(m - 1);
      MagnitudeIsExp2(m - 1);
      DigitBelow(Value(t[..m - 1]), w, x, Magnitude(m - 1));
    }
  }

  lemma DigitBelow(v: int, w: int, x: int, m: int)
    requires 0 <= v < w && 0 <= x < m
    ensures 0 <= v + x * w < w * m
  {
    Distribute(x, m - x, w);
    Distribute(1, m - x - 1, w);
  }

  lemma WeightZero()
    ensures Weight(0) == 1
  { }

  /** The byte where limb i starts, and its position inside that byte. */
  function First(i: nat): nat {
    if i < 5 then 3 * i else 16 + 3 * (i - 5)
  }

  function Offset(i: nat): nat
    requires i < 10
  {
    Shift(i) - 8 * First(i)
  }

  /** Or-ing the low byte of c shifted left by n over a byte below 2^n adds them. */
  lemma OverlapByte(under: byte, c: nat, n: nat)
    requires n <= 8 && under as nat < Exp2(n)
    ensures var r := c * Exp2(n) % 0x100;
            Or(under as nat, r) == under as nat + r < 0x100
  {
    hide Exp2, Or;
    Exp2OfEight();
    Exp2Add(n, 8 - n);
    var e, f := Exp2(n), Exp2(8 - n);
    var d := c % f;
    assert c * e == 0x100 * (c / f) + d * e by {
      assert c == f * (c / f) + d;
      Distribute(f * (c / f), d, e);
      Rotate(e, f, c / f);
    }
    assert d * e + e <= 0x100 by { Distribute(d + 1, f - d - 1, e); }
    DivModUnique(c * e, 0x100, c / f, d * e);
    OrDisjoint(n, under as nat, d);
  }

  /** The four bytes of x, the first one or-ed over what is there. */
  function FourBytes(under: byte, x: nat): seq<nat> {
    [Or(under as nat, And(x, 0xff)), And(x / 0x100, 0xff), And(x / 0x1_0000, 0xff), And(x / 0x100_0000, 0xff)]
  }

  lemma FourBytesValue(under: byte, c: nat, n: nat, x: nat)
    requires n <= 8 && under as nat < Exp2(n) && x == c * Exp2(n) < 0x1_0000_0000
    ensures var b := FourBytes(under, x);
            && (forall j :: 0 <= j < 4 ==> 0 <= b[j] < 0x100)
            && b[0] + 0x100 * b[1] + 0x1_0000 * b[2] + 0x100_0000 * b[3] == under as nat + x
            && b[3] == x / 0x100_0000
  {
    hide Exp2, Or, And;
    OverlapByte(under, c, n);
    LowByte(x);
    LowByte(x / 0x100);
    LowByte(x / 0x1_0000);
    LowByte(x / 0x100_0000);
    Digits(x);
  }

  lemma Digits(x: nat)
    requires x < 0x1_0000_0000
    ensures x == x % 0x100 + 0x100 * (x / 0x100 % 0x100) + 0x1_0000 * (x / 0x1_0000 % 0x100) +
            0x100_0000 * (x / 0x100_0000)
    ensures x / 0x100_0000 % 0x100 == x / 0x100_0000
  {
    assert x / 0x1_0000 == x / 0x100 / 0x100;
    assert x / 0x100_0000 == x / 0x1_0000 / 0x100;
  }

  lemma LowByte(x: nat)
    ensures And(x, 0xff) == x % 0x100
  {
    assert Exp2(8) == 0x100;
    Masked(x, 8);
  }

  /** The F macro of fcontract. */
  method PackLimb(output: array<byte>, s: nat, x: limb, ghost c: nat, ghost n: nat)
    requires output.Length == 32 && s + 4 <= 32
    requires n <= 8 && output[s] as nat < Exp2(n) && x as int == c * Exp2(n) < 0x1_0000_0000
    modifies output
    ensures LittleEndian(output[..s + 4]) == LittleEndian(old(output[..s + 1])) + x as int * Exp2(8 * s)
    ensures output[s + 3] as int == x as int / 0x100_0000
    ensures forall j :: s + 4 <= j < 32 ==> output[j] == old(output[j])
  {
    ghost var b := FourBytes(output[s], x as nat);
    FourBytesValue(output[s], c, n, x as nat);
    ghost var before := output[..];
    hide Exp2, LittleEndian, Or, And;
    output[s] := Or(output[s] as nat, And(x as nat, 0xff)) as byte;
    output[s + 1] := And(x as nat / 0x100, 0xff) as byte;
    output[s + 2] := And(x as nat / 0x1_0000, 0xff) as byte;
    output[s + 3] := And(x as nat / 0x100_0000, 0xff) as byte;
    PackedPrefix(before, output[..], s, x as nat);
  }

  lemma PackedPrefix(a: seq<byte>, b: seq<byte>, s: nat, x: nat)
    requires |a| == |b| == 32 && s + 4 <= 32 && a[..s] == b[..s]
    requires b[s] as nat + 0x100 * b[s + 1] as nat + 0x1_0000 * b[s + 2] as nat + 0x100_0000 * b[s + 3] as nat ==
             a[s] as nat + x
    ensures LittleEndian(b[..s + 4]) == LittleEndian(a[..s + 1]) + x * Exp2(8 * s)
  {
    var four := [b[s], b[s + 1], b[s + 2], b[s + 3]];
    FourValue(four);
    assert b[..s + 4] == b[..s] + four;
    assert a[..s + 1] == a[..s] + [a[s]];
    OneValue(a[s]);
    hide Exp2, LittleEndian;
    LittleEndianJoin(b[..s], four);
    LittleEndianJoin(a[..s], [a[s]]);
    Distribute(a[s] as nat, x, Exp2(8 * s));
  }

  lemma OneValue(b: byte)
    ensures LittleEndian([b]) == b as nat
  { }

  lemma FourValue(b: seq<byte>)
    requires |b| == 4
    ensures LittleEndian(b) == b[0] as nat + 0x100 * b[1] as nat + 0x1_0000 * b[2] as nat + 0x100_0000 * b[3] as nat
  {
    assert b[1..][1..][1..] == [b[3]];
    OneValue(b[3]);
    assert LittleEndian(b[1..][1..]) == b[2] as nat + 0x100 * b[3] as nat;
    assert LittleEndian(b[1..]) == b[1] as nat + 0x100 * (b[2] as nat + 0x100 * b[3] as nat);
  }

  /** Limbs 0 to i - 1 are in the bytes before the one where limb i starts, or in its low bits. */
  ghost predicate Packed(out: seq<byte>, t: seq<limb>, i: nat) {
    && |out| == 32 && |t| >= 10 && i <= 10
    && (i < 10 ==> First(i) < 32 && LittleEndian(out[..First(i) + 1]) == Value(t[..i]))
    && (i < 10 ==> out[First(i)] as nat < Exp2(Offset(i)))
    && (i < 5 ==> out[16] == 0)
    && (i == 10 ==> LittleEndian(out) == Value(t[..10]))
  }

  lemma PackStart(out: seq<byte>, t: seq<limb>)
    requires |out| == 32 && |t| >= 10 && out[0] == 0 && out[16] == 0
    ensures Packed(out, t, 0)
  {
    assert out[..1] == [0];
    OneValue(0);
    hide LittleEndian;
  }

  lemma OffsetTable(i: nat)
    requires i < 10
    ensures Offset(i) <= 6 && Magnitude(i) * Exp2(Offset(i)) <= 0x1_0000_0000
    ensures i != 4 && i != 9 ==>
              First(i + 1) == First(i) + 3 && Magnitude(i) * Exp2(Offset(i)) == 0x100_0000 * Exp2(Offset(i + 1))
  {
    hide Exp2, Offset, Width;
    OffsetSum(i);
    Powers();
    Exp2Of32();
    MagnitudeIsExp2(i);
    Exp2Add(Width(i), Offset(i));
    Exp2Add(Width(i) + Offset(i), 32 - Width(i) - Offset(i));
    Distribute(1, Exp2(32 - Width(i) - Offset(i)) - 1, Exp2(Width(i) + Offset(i)));
    if i != 4 && i != 9 { Exp2Add(24, Offset(i + 1)); }
  }

  lemma MagnitudeIsExp2(i: nat)
    ensures Magnitude(i) == Exp2(Width(i))
  {
    Powers();
    hide Exp2;
  }

  lemma OffsetSum(i: nat)
    requires i < 10
    ensures Offset(i) <= 6 && Width(i) + Offset(i) <= 32
    ensures i != 4 && i != 9 ==> First(i + 1) == First(i) + 3 && Width(i) + Offset(i) == 24 + Offset(i + 1)
  {
    assert i in {0, 1, 2, 3, 4, 5, 6, 7, 8, 9};
  }

  /** Limb i shifted left by its offset spans four bytes; its top byte stays below the next limb. */
  lemma ShiftedLimb(c: int, i: nat)
    requires i < 10 && 0 <= c < Magnitude(i)
    ensures Offset(i) <= 6
    ensures var x := c * Exp2(Offset(i));
            && 0 <= x < 0x1_0000_0000
            && (i != 4 && i != 9 ==> x < 0x100_0000 * Exp2(Offset(i + 1)))
            && x * Exp2(8 * First(i)) == c * Weight(i)
  {
    hide Exp2, Offset, Magnitude;
    OffsetTable(i);
    var e := Exp2(Offset(i));
    Distribute(c, Magnitude(i) - c, e);
    Distribute(1, Magnitude(i) - c - 1, e);
    OffsetPlace(i);
    Exp2Add(Offset(i), 8 * First(i));
    Rotate(c, e, Exp2(8 * First(i)));
  }

  lemma OffsetPlace(i: nat)
    requires i < 10
    ensures Offset(i) + 8 * First(i) == Shift(i)
  { }

  lemma PackStep(a: seq<byte>, b: seq<byte>, t: seq<limb>, i: nat, x: int)
    requires Canonical(t) && i < 10 && Packed(a, t, i) && |b| == 32 && First(i) + 4 <= 32
    requires x == t[i] as int * Exp2(Offset(i))
    requires LittleEndian(b[..First(i) + 4]) == LittleEndian(a[..First(i) + 1]) + x * Exp2(8 * First(i))
    requires b[First(i) + 3] as int == x / 0x100_0000
    requires forall j :: First(i) + 4 <= j < 32 ==> b[j] == a[j]
    ensures Packed(b, t, i + 1)
  {
    hide Exp2, Magnitude, Offset, LittleEndian;
    assert 0 <= t[i] as int < Magnitude(i);
    ShiftedLimb(t[i] as int, i);
    OffsetTable(i);
    assert t[..i + 1][..i] == t[..i];
    assert Value(t[..i + 1]) == Value(t[..i]) + t[i] as int * Weight(i);
    hide Value, Weight;
    assert LittleEndian(b[..First(i) + 4]) == Value(t[..i + 1]);
    if i == 4 {
      assert b[..17] == b[..16] + [0];
      OneValue(0);
      LittleEndianJoin(b[..16], [0]);
    } else if i == 9 {
      assert b[..32] == b;
    }
  }

  /** Packs limb i; shifted[i] is that limb already shifted left by its offset. */
  method PackNext(output: array<byte>, shifted: array<limb>, i: nat, ghost t: seq<limb>)
    requires output.Length == 32 && shifted.Length >= 10 && i < 10
    requires Canonical(t) && Packed(output[..], t, i) && shifted[i] as int == t[i] as int * Exp2(Offset(i))
    modifies output
    ensures Packed(output[..], t, i + 1)
  {
    hide Exp2, LittleEndian, Value, Canonical, Offset, Magnitude;
    CanonicalLimb(t, i);
    ghost var a := output[..];
    ShiftedLimb(t[i] as int, i);
    assert a[..First(i) + 1] == output[..First(i) + 1];
    PackLimb(output, First(i), shifted[i], t[i] as nat, Offset(i));
    assert output[..][..First(i) + 4] == output[..First(i) + 4];
    PackStep(a, output[..], t, i, shifted[i] as int);
  }

  lemma CanonicalLimb(t: seq<limb>, i: nat)
    requires Canonical(t) && i < 10
    ensures 0 <= t[i] as int < Magnitude(i)
  { }

  /** The eight shift statements between the borrows and the packing. */
  method ShiftLimbs(input: array<limb>)
    requires input.Length >= 10 && Canonical(input[..])
    modifies input
    ensures forall i :: 0 <= i < 10 ==> input[i] as int == old(input[i]) as int * Exp2(Offset(i))
  {
    hide Exp2, Offset, Canonical;
    SmallLimbs(input[..]);
    input[1] := input[1] * 4;
    input[2] := input[2] * 8;
    input[3] := input[3] * 32;
    input[4] := input[4] * 64;
    input[6] := input[6] * 2;
    input[7] := input[7] * 8;
    input[8] := input[8] * 16;
    input[9] := input[9] * 64;
    forall i | 0 <= i < 10
      ensures input[i] as int == old(input[i]) as int * Exp2(Offset(i))
    {
      OffsetPower(i);
      assert i in {0, 1, 2, 3, 4, 5, 6, 7, 8, 9};
    }
  }

  lemma SmallLimbs(t: seq<limb>)
    requires Canonical(t)
    ensures forall i :: 0 <= i < 10 ==> 0 <= t[i] < 0x400_0000
  { }

  lemma OffsetPower(i: nat)
    requires i < 10
    ensures Exp2(Offset(i)) == [1, 4, 8, 32, 64, 1, 2, 8, 16, 64][i]
  {
    hide Exp2, Offset;
    OffsetValue(i);
    SmallPowers();
    assert i in {0, 1, 2, 3, 4, 5, 6, 7, 8, 9};
  }

  lemma OffsetValue(i: nat)
    requires i < 10
    ensures Offset(i) == [0, 2, 3, 5, 6, 0, 1, 3, 4, 6][i]
  {
    assert i in {0, 1, 2, 3, 4, 5, 6, 7, 8, 9};
  }

  lemma SmallPowers()
    ensures Exp2(0) == 1 && Exp2(1) == 2 && Exp2(2) == 4 && Exp2(3) == 8 && Exp2(4) == 16 && Exp2(5) == 32
            && Exp2(6) == 64
  { }

  method FContract(output: array<byte>, input: array<limb>)
    requires output.Length == 32 && input.Length >= 10 && Reduced(input[..])
    modifies output, input
    ensures LittleEndian(output[..]) < TOP
    ensures LittleEndian(output[..]) % P == Elem(old(input[..]))
  {
    hide Reduced, Canonical, Elem, LittleEndian, Packed, Exp2, Offset;
    ghost var t := Normalise(input);
    ShiftLimbs(input);
    output[0] := 0;
    output[16] := 0;
    PackStart(output[..], t);
    PackNext(output, input, 0, t);
    PackNext(output, input, 1, t);
    PackNext(output, input, 2, t);
    PackNext(output, input, 3, t);
    PackNext(output, input, 4, t);
    PackNext(output, input, 5, t);
    PackNext(output, input, 6, t);
    PackNext(output, input, 7, t);
    PackNext(output, input, 8, t);
    PackNext(output, input, 9, t);
    PackedWhole(output[..], t);
  }

  lemma PackedWhole(out: seq<byte>, t: seq<limb>)
    requires Canonical(t) && Packed(out, t, 10)
    ensures LittleEndian(out) < TOP && LittleEndian(out) % P == Elem(t)
  {
    hide Exp2, LittleEndian, Value;
    CanonicalBound(t, 10);
    WeightTen(0);
    WeightZero();
  }
}
