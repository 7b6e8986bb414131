/** Reduction of long and oversized limb arrays modulo 2^255 - 19. */
module FieldReduce {
  import opened Bytes
  import opened Bits
  import opened ModArith
  import opened Limbs
  import opened Field25519
  import opened FieldProduct

  // ----- machine conversions and division by shifts -----

  /** (uint64_t) v. */
  function ToU64(v: limb): nat {
    v as int % 0x1_0000_0000_0000_0000
  }

  /** (int32_t) of an unsigned 32-bit word. */
  function ToS32(u: nat): s32
    requires u < 0x1_0000_0000
  {
    if u < 0x8000_0000 then u as s32 else (u - 0x1_0000_0000) as s32
  }

  /** C's division by a positive d: the quotient rounds toward zero. */
  function Quotient(v: int, d: int): int
    requires d > 0
  {
    if v >= 0 then v / d else -((-v) / d)
  }

  /** A right shift of a signed number extends the sign, so it divides rounding down. */
  function DivBy26(v: limb): (r: limb)
    ensures r as int == Quotient(v as int, 0x400_0000)
  {
    var highword := U32(ToU64(v) / 0x1_0000_0000);
    var sign := ToS32(highword) as int / 0x8000_0000;
    var roundoff := U32(sign) / 0x40;
    assert sign == if v < 0 then -1 else 0;
    ((v as int + roundoff) / 0x400_0000) as limb
  }

  function DivBy25(v: limb): (r: limb)
    ensures r as int == Quotient(v as int, 0x200_0000)
  {
    var highword := U32(ToU64(v) / 0x1_0000_0000);
    var sign := ToS32(highword) as int / 0x8000_0000;
    var roundoff := U32(sign) / 0x80;
    assert sign == if v < 0 then -1 else 0;
    ((v as int + roundoff) / 0x200_0000) as limb
  }

  function DivS32By25(v: s32): (r: s32)
    ensures r as int == Quotient(v as int, 0x200_0000)
  {
    var roundoff := U32(v as int / 0x8000_0000) / 0x80;
    ((v as int + roundoff) / 0x200_0000) as s32
  }

  // ----- from nineteen limbs to ten -----

  /** Limbs k to 8 of r have absorbed 19 times the limb ten places above. */
  ghost predicate Folded(s: seq<limb>, r: seq<limb>, k: nat) {
    && |s| == |r| == 19
    && (forall i :: k <= i < 9 ==> r[i] as int == s[i] as int + 19 * s[i + 10] as int)
    && (forall i :: 0 <= i < 19 && !(k <= i < 9) ==> r[i] == s[i])
  }

  /** Entry condition of the coefficient reduction. */
  ghost predicate Below62(s: seq<limb>) {
    |s| >= 10 && forall i :: 0 <= i < 10 ==> -0x4000_0000_0000_0000 < s[i] < 0x4000_0000_0000_0000
  }

  /** The three shift-and-add statements that add 19 times limb k + 10 to limb k. */
  method FoldLimb(output: array<limb>, k: nat, ghost s: seq<limb>)
    requires output.Length == 19 && k < 9
    requires ProductSized(s) && Folded(s, output[..], k + 1)
    modifies output
    ensures Folded(s, output[..], k)
  {
    assert output[..][k] == s[k] && output[..][k + 10] == s[k + 10];
    assert -0x280_0000_0000_0000 <= s[k] <= 0x280_0000_0000_0000;
    assert -0x240_0000_0000_0000 <= s[k + 10] <= 0x240_0000_0000_0000;
    hide ProductSized;
    output[k] := output[k] + output[k + 10] * 16;
    output[k] := output[k] + output[k + 10] * 2;
    output[k] := output[k] + output[k + 10];
  }

  method FReduceDegree(output: array<limb>)
    requires output.Length == 19 && ProductSized(output[..])
    modifies output
    ensures Elem(output[..]) == Value(old(output[..])) % P
    ensures Below62(output[..])
  {
    ghost var s := output[..];
    assert Folded(s, output[..], 9);
    hide *;
    FoldLimb(output, 8, s);
    FoldLimb(output, 7, s);
    FoldLimb(output, 6, s);
    FoldLimb(output, 5, s);
    FoldLimb(output, 4, s);
    FoldLimb(output, 3, s);
    FoldLimb(output, 2, s);
    FoldLimb(output, 1, s);
    FoldLimb(output, 0, s);
    FoldedFits(s, output[..]);
  }

  lemma FoldedFits(s: seq<limb>, r: seq<limb>)
    requires ProductSized(s) && Folded(s, r, 0)
    ensures Below62(r) && Elem(r) == Value(s) % P
  {
    assert r[9] == s[9];
    ElemFold(r, s);
    FoldedBelow62(s, r);
  }

  lemma FoldedBelow62(s: seq<limb>, r: seq<limb>)
    requires ProductSized(s) && Folded(s, r, 0)
    ensures Below62(r)
  {
    forall i | 0 <= i < 10
      ensures -0x4000_0000_0000_0000 < r[i] < 0x4000_0000_0000_0000
    {
      var most := Terms(i) * 0x40_0000_0000_0000;
      assert -most <= s[i] as int <= most;
      if i < 9 {
        var more := Terms(i + 10) * 0x40_0000_0000_0000;
        assert -more <= s[i + 10] as int <= more;
        assert r[i] as int == s[i] as int + 19 * s[i + 10] as int;
      }
    }
  }

  // ----- carries between limbs -----

  function Magnitude(i: nat): int {
    if i % 2 == 0 then 0x400_0000 else 0x200_0000
  }

  lemma MagnitudeOf(i: nat)
    requires i % 2 == 0
    ensures Magnitude(i) == 0x400_0000 && Magnitude(i + 1) == 0x200_0000
  { }

  /** x fits the width of limb i. */
  predicate Fits(x: limb, i: nat) {
    -Magnitude(i) < x as int < Magnitude(i)
  }

  /** Every limb fits its width, except that limb 2 may reach 2^26. */
  ghost predicate NearlyReduced(s: seq<limb>) {
    && |s| >= 10
    && (forall i :: 0 <= i < 10 && i != 2 ==> Fits(s[i], i))
    && -0x400_0000 <= s[2] <= 0x400_0000
  }

  ghost predicate Reduced(s: seq<limb>) {
    |s| >= 10 && forall i :: 0 <= i < 10 ==> Fits(s[i], i)
  }

  /** t is s after a carry of c out of limb i. */
  ghost predicate Carried(s: seq<limb>, t: seq<limb>, i: nat, c: int) {
    && i + 1 < |s| == |t|
    && t[i] as int == s[i] as int - c * Magnitude(i)
    && t[i + 1] as int == s[i + 1] as int + c
    && t == s[i := t[i]][i + 1 := t[i + 1]]
  }

  lemma CarriedKeepsValue(s: seq<limb>, t: seq<limb>, i: nat, c: int)
    requires Carried(s, t, i, c)
    ensures Value(t) == Value(s)
  {
    hide Value;
    Powers();
    hide Exp2;
    ValueCarry(s, i, c, t);
  }

  /** over = div_by_2_26(output[i]); output[i] -= over << 26; output[i+1] += over. */
  method CarryEven(output: array<limb>, i: nat) returns (over: limb)
    requires i + 1 < output.Length && i % 2 == 0
    requires -0x5000_0000_0000_0000 < output[i] < 0x5000_0000_0000_0000
    requires -0x5000_0000_0000_0000 < output[i + 1] < 0x5000_0000_0000_0000
    modifies output
    ensures Carried(old(output[..]), output[..], i, over as int)
    ensures over as int == Quotient(old(output[i]) as int, 0x400_0000)
    ensures Fits(output[i], i)
    ensures Value(output[..]) == Value(old(output[..]))
  {
    over := DivBy26(output[i]);
    hide DivBy26, Value;
    output[i] := output[i] - over * 0x400_0000;
    output[i + 1] := output[i + 1] + over;
    CarriedKeepsValue(old(output[..]), output[..], i, over as int);
  }

  /** over = div_by_2_25(output[i]); output[i] -= over << 25; output[i+1] += over. */
  method CarryOdd(output: array<limb>, i: nat) returns (over: limb)
    requires i + 1 < output.Length && i % 2 == 1
    requires -0x5000_0000_0000_0000 < output[i] < 0x5000_0000_0000_0000
    requires -0x5000_0000_0000_0000 < output[i + 1] < 0x5000_0000_0000_0000
    modifies output
    ensures Carried(old(output[..]), output[..], i, over as int)
    ensures over as int == Quotient(old(output[i]) as int, 0x200_0000)
    ensures Fits(output[i], i)
    ensures Value(output[..]) == Value(old(output[..]))
  {
    over := DivBy25(output[i]);
    hide DivBy25, Value;
    output[i] := output[i] - over * 0x200_0000;
    output[i + 1] := output[i + 1] + over;
    CarriedKeepsValue(old(output[..]), output[..], i, over as int);
  }

  // ----- every limb back to its width -----

  /** What holds when limbs 0 to i - 1 have passed on their carries; s is the array at the start. */
  ghost predicate Swept(s: seq<limb>, t: seq<limb>, i: nat) {
    && 11 <= |s| == |t| && i <= 10
    && Value(t[..11]) == Value(s[..10])
    && (forall j :: 0 <= j < i ==> Fits(t[j], j))
    && (forall j :: i < j < 10 ==> t[j] == s[j])
    && (if i < 10 then t[10] == 0 && -0x40_0000_0000 < t[i] as int - s[i] as int < 0x40_0000_0000
        else -0x40_0000_0000 < t[10] < 0x40_0000_0000)
    && t[11..] == s[11..]
  }

  lemma Carry11(s: seq<limb>, t: seq<limb>, i: nat, c: int)
    requires Carried(s, t, i, c) && |s| >= 11 && i < 10
    ensures Value(t[..11]) == Value(s[..11]) && t[11..] == s[11..]
  {
    hide Value, Magnitude;
    assert t[..11] == s[..11][i := t[i]][i + 1 := t[i + 1]];
    CarriedKeepsValue(s[..11], t[..11], i, c);
  }

  lemma SweepStep(s: seq<limb>, t: seq<limb>, u: seq<limb>, i: nat, c: int)
    requires Below62(s) && Swept(s, t, i) && i < 10
    requires Carried(t, u, i, c) && Fits(u[i], i)
    requires -0x40_0000_0000 < c < 0x40_0000_0000
    ensures Swept(s, u, i + 1)
  {
    hide Value, Below62, Magnitude, Carried;
    CarriedElsewhere(t, u, i, c);
    Carry11(t, u, i, c);
  }

  lemma CarriedElsewhere(s: seq<limb>, t: seq<limb>, i: nat, c: int)
    requires Carried(s, t, i, c)
    ensures |t| == |s| && t[i + 1] as int == s[i + 1] as int + c
    ensures forall j :: 0 <= j < |s| && j != i && j != i + 1 ==> t[j] == s[j]
  {
    hide Magnitude;
  }

  /** The change that the carries so far have made to limb i (limb 10 starts at zero). */
  ghost function Delta(s: seq<limb>, t: seq<limb>, i: nat): int
    requires 11 <= |s| == |t| && i <= 10
  {
    if i < 10 then t[i] as int - s[i] as int else t[10] as int
  }

  /** On nearly reduced limbs a carry is one unit at most, and starts at a limb 2 that is then zero. */
  ghost predicate Ripples(s: seq<limb>, t: seq<limb>, i: nat)
    requires 11 <= |s| == |t| && i <= 10
  {
    && -1 <= Delta(s, t, i) <= 1
    && (Delta(s, t, i) != 0 ==> i >= 3 && t[2] == 0)
  }

  lemma RippleStep(s: seq<limb>, t: seq<limb>, u: seq<limb>, i: nat, c: int)
    requires Swept(s, t, i) && i < 10 && Carried(t, u, i, c) && c == Quotient(t[i] as int, Magnitude(i))
    requires NearlyReduced(s) && Ripples(s, t, i)
    ensures Ripples(s, u, i + 1)
  {
    hide Value;
    CarriedElsewhere(t, u, i, c);
    assert Fits(s[i], i) || i == 2;
    assert -Magnitude(i) <= t[i] as int <= Magnitude(i);
    assert t[i + 1] == if i < 9 then s[i + 1] else 0;
    if i % 2 == 0 {
      assert Magnitude(i) == 0x400_0000;
    } else {
      assert Magnitude(i) == 0x200_0000;
    }
    assert u[i] as int == t[i] as int - c * Magnitude(i);
    hide Swept, NearlyReduced, Carried;
    assert c == 0 || (-1 <= c <= 1 && u[i] == 0);
  }

  /** The array during the first pass: swept up to i, and rippling if it came nearly reduced. */
  ghost predicate Passing(s: seq<limb>, t: seq<limb>, i: nat) {
    Swept(s, t, i) && (NearlyReduced(s) ==> Ripples(s, t, i))
  }

  lemma PassStart(s: seq<limb>, t: seq<limb>)
    requires |s| >= 11 && t == s[10 := 0]
    ensures Passing(s, t, 0)
  {
    assert t[..11][..10] == s[..10];
  }

  lemma PassRoom(s: seq<limb>, t: seq<limb>, i: nat)
    requires Below62(s) && Passing(s, t, i) && i < 10
    ensures -0x5000_0000_0000_0000 < t[i] < 0x5000_0000_0000_0000
    ensures -0x5000_0000_0000_0000 < t[i + 1] < 0x5000_0000_0000_0000
  {
    hide Value, Ripples;
    assert i == 9 || t[i + 1] == s[i + 1];
  }

  lemma PassStep(s: seq<limb>, t: seq<limb>, u: seq<limb>, i: nat, c: int)
    requires Below62(s) && Passing(s, t, i) && i < 10
    requires Carried(t, u, i, c) && Fits(u[i], i) && c == Quotient(t[i] as int, Magnitude(i))
    ensures Passing(s, u, i + 1)
  {
    hide Value, Ripples, Carried, NearlyReduced;
    PassRoom(s, t, i);
    assert -0x40_0000_0000 < c < 0x40_0000_0000;
    SweepStep(s, t, u, i, c);
    if NearlyReduced(s) { RippleStep(s, t, u, i, c); }
  }

  /** One round of the loop: a carry out of an even limb, then one out of the odd limb above it. */
  method CarryPair(output: array<limb>, i: nat, ghost s: seq<limb>)
    requires output.Length >= 11 && i < 10 && i % 2 == 0
    requires Below62(s) && Passing(s, output[..], i)
    modifies output
    ensures Passing(s, output[..], i + 2)
  {
    hide *;
    MagnitudeOf(i);
    ghost var t := output[..];
    PassRoom(s, t, i);
    var over := CarryEven(output, i);
    PassStep(s, t, output[..], i, over as int);
    t := output[..];
    PassRoom(s, t, i + 1);
    over := CarryOdd(output, i + 1);
    PassStep(s, t, output[..], i + 1, over as int);
  }

  method FirstPass(output: array<limb>)
    requires output.Length >= 11 && Below62(output[..])
    modifies output
    ensures Passing(old(output[..]), output[..], 10)
  {
    hide *;
    ghost var s := output[..];
    output[10] := 0;
    PassStart(s, output[..]);
    var i := 0;
    while i < 10
      invariant 0 <= i <= 10 && i % 2 == 0
      invariant Passing(s, output[..], i)
    {
      CarryPair(output, i, s);
      i := i + 2;
    }
  }

  // ----- folding limb 10 back and settling limbs 0 and 1 -----

  /** u is t with limb 10 folded into limb 0. */
  ghost predicate TopFolded(t: seq<limb>, u: seq<limb>) {
    && |t| == |u| >= 11
    && u[0] as int == t[0] as int + 19 * t[10] as int
    && u[10] == 0
    && u == t[0 := u[0]][10 := 0]
  }

  lemma TopFoldedElem(s: seq<limb>, t: seq<limb>, u: seq<limb>)
    requires Swept(s, t, 10) && TopFolded(t, u)
    ensures Elem(u) == Elem(s)
  {
    hide Value, Fits;
    TopFoldedValue(t, u);
    ModShift(Value(u[..10]), t[10] as int, P);
  }

  lemma TopFoldedValue(t: seq<limb>, u: seq<limb>)
    requires TopFolded(t, u)
    ensures Value(t[..11]) == Value(u[..10]) + P * t[10] as int
  {
    var low := t[..10];
    assert t[..11][..10] == low && u[..10] == low[0 := u[0]];
    assert Value(t[..11]) == Value(low) + t[10] as int * Weight(10);
    hide Value;
    ValueUpdate(low, 0, u[0]);
    WeightTen(0);
    assert Weight(0) == 1;
  }

  method FoldTop(output: array<limb>)
    requires output.Length >= 11
    requires -0x400_0000 < output[0] < 0x400_0000 && -0x40_0000_0000 < output[10] < 0x40_0000_0000
    modifies output
    ensures TopFolded(old(output[..]), output[..])
  {
    output[0] := output[0] + output[10] * 16;
    output[0] := output[0] + output[10] * 2;
    output[0] := output[0] + output[10];
    output[10] := 0;
  }

  /** The carry out of limb 1, in 32-bit arithmetic. */
  method CarryS32(output: array<limb>) returns (over32: s32)
    requires output.Length >= 11
    requires -0x400_0000 < output[1] < 0x400_0000 && -0x400_0000 < output[2] < 0x400_0000
    modifies output
    ensures Carried(old(output[..]), output[..], 1, over32 as int)
    ensures over32 as int == Quotient(old(output[1]) as int, 0x200_0000)
    ensures Fits(output[1], 1)
  {
    over32 := DivS32By25(output[1] as s32);
    hide DivS32By25;
    output[1] := output[1] - (over32 * 0x200_0000) as limb;
    output[2] := output[2] + over32 as limb;
  }

  lemma CarryKeepsElem(s: seq<limb>, t: seq<limb>, i: nat, c: int)
    requires Carried(s, t, i, c) && |s| >= 10 && i < 9
    ensures Elem(t) == Elem(s)
  {
    hide Value, Magnitude;
    assert t[..10] == s[..10][i := t[i]][i + 1 := t[i + 1]];
    CarriedKeepsValue(s[..10], t[..10], i, c);
  }

  /** The end of the reduction: t after the pass, u folded, v and w after the last two carries. */
  lemma Settled(s: seq<limb>, t: seq<limb>, u: seq<limb>, v: seq<limb>, w: seq<limb>, c: int, d: int)
    requires Passing(s, t, 10) && TopFolded(t, u)
    requires Carried(u, v, 0, c) && c == Quotient(u[0] as int, 0x400_0000) && Fits(v[0], 0)
    requires Carried(v, w, 1, d) && d == Quotient(v[1] as int, 0x200_0000) && Fits(w[1], 1)
    ensures NearlyReduced(w)
    ensures NearlyReduced(s) ==> Reduced(w)
    ensures |w| == |s| && w[10] == 0 && w[11..] == s[11..]
  {
    hide Value;
    CarriedElsewhere(u, v, 0, c);
    CarriedElsewhere(v, w, 1, d);
    hide Carried;
    assert -77825 <= c <= 77825;
    assert -1 <= d <= 1;
    assert w[0] == v[0];
    assert w[2] as int == t[2] as int + d;
    if NearlyReduced(s) {
      assert t[10] == 0 ==> c == 0;
      assert c == 0 ==> d == 0;
      assert Ripples(s, t, 10);
    }
    forall j | 3 <= j < 10 ensures w[j] == t[j] { }
    assert forall j :: 0 <= j < 10 && j != 2 ==> Fits(w[j], j);
  }

  method FReduceCoefficients(output: array<limb>)
    requires output.Length >= 11 && Below62(output[..])
    modifies output
    ensures NearlyReduced(output[..])
    ensures NearlyReduced(old(output[..])) ==> Reduced(output[..])
    ensures Elem(output[..]) == Elem(old(output[..]))
    ensures output[10] == 0 && output[11..] == old(output[11..])
  {
    ghost var s := output[..];
    FirstPass(output);
    ghost var t := output[..];
    FoldTop(output);
    ghost var u := output[..];
    TopFoldedElem(s, t, u);
    var over := CarryEven(output, 0);
    ghost var v := output[..];
    CarryKeepsElem(u, v, 0, over as int);
    var over32 := CarryS32(output);
    ghost var w := output[..];
    CarryKeepsElem(v, w, 1, over32 as int);
    Settled(s, t, u, v, w, over as int, over32 as int);
  }
}
