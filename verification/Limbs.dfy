/**
 The redundant representation of field elements: limbs of 26, 25, 26, 25, ... bits,
 least significant first, each a signed 64-bit machine integer.
 */
module Limbs {
  import opened Bits
  import opened ModArith

  /** int64_t and int32_t: every operation on them is proved free of overflow. */
  newtype limb = x: int | -0x8000_0000_0000_0000 <= x < 0x8000_0000_0000_0000

  /** Bits of limb i. */
  function Width(i: nat): nat {
    if i % 2 == 0 then 26 else 25
  }

  /** The position of the lowest bit of limb i: 25.5 i, rounded up. */
  function Shift(i: nat): nat {
    25 * i + (i + 1) / 2
  }

  function Weight(i: nat): nat {
    Exp2(Shift(i))
  }

  ghost function Value(s: seq<limb>): int {
    if |s| == 0 then 0
    else Value(s[..|s| - 1]) + s[|s| - 1] as int * Weight(|s| - 1)
  }

  lemma Powers()
    ensures Exp2(24) == 0x100_0000
    ensures Exp2(25) == 0x200_0000
    ensures Exp2(26) == 0x400_0000
  {
    assert Exp2(8) == 0x100;
    Exp2Add(8, 8);
    Exp2Add(16, 8);
    assert Exp2(25) == 2 * Exp2(24);
    assert Exp2(26) == 2 * Exp2(25);
  }

  lemma WeightStep(i: nat)
    ensures Weight(i + 1) == Weight(i) * Exp2(Width(i))
  {
    hide Exp2;
    assert Shift(i + 1) == Shift(i) + Width(i);
    Exp2Add(Shift(i), Width(i));
  }

  /** 2^255. */
  const TOP: nat := 0x8000_0000_0000_0000_0000_0000_0000_0000_0000_0000_0000_0000_0000_0000_0000_0000

  lemma TopIsExp2()
    ensures Exp2(255) == TOP
  {
    hide Exp2;
    Powers();
    Exp2Add(26, 25);
    Exp2Add(51, 51);
    Exp2Add(102, 102);
    Exp2Add(204, 51);
  }

  /** 2 when both indices are odd: their positions, rounded up separately, are one too high. */
  function Twice(i: nat, j: nat): (r: nat)
    ensures r == 1 || r == 2
  {
    if i % 2 == 1 && j % 2 == 1 then 2 else 1
  }

  lemma ShiftAdd(i: nat, j: nat)
    ensures Shift(i) + Shift(j) == Shift(i + j) + Twice(i, j) - 1
  {
    ShiftHalves(i);
    ShiftHalves(j);
    ShiftHalves(i + j);
    hide Shift;
  }

  lemma ShiftHalves(i: nat)
    ensures i == 2 * (i / 2) + i % 2 && Shift(i) == 51 * (i / 2) + 26 * (i % 2)
  { }

  /** The product of two weights is a weight, doubled when both indices are odd. */
  lemma WeightProduct(i: nat, j: nat)
    ensures Weight(i) * Weight(j) == Twice(i, j) * Weight(i + j)
  {
    hide Exp2, Shift, Twice;
    Exp2Next(Shift(i + j));
    ShiftAdd(i, j);
    Exp2Add(Shift(i), Shift(j));
    if Twice(i, j) == 1 {
      assert Shift(i) + Shift(j) == Shift(i + j);
    } else {
      assert Shift(i) + Shift(j) == Shift(i + j) + 1;
    }
  }

  lemma Exp2Next(n: nat)
    ensures Exp2(n + 1) == 2 * Exp2(n)
  { }

  lemma WeightTen(j: nat)
    ensures Weight(10 + j) == TOP * Weight(j)
  {
    TopIsExp2();
    hide Exp2;
    assert Shift(10 + j) == 255 + Shift(j);
    Exp2Add(255, Shift(j));
  }

  lemma {:induction false} ValueUpdate(s: seq<limb>, i: nat, v: limb)
    requires i < |s|
    ensures Value(s[i := v]) == Value(s) + (v as int - s[i] as int) * Weight(i)
    decreases |s|
  {
    hide Weight;
    var n := |s| - 1;
    if i == n {
      assert s[i := v][..n] == s[..n];
      Distribute(v as int - s[i] as int, s[i] as int, Weight(i));
    } else {
      ValueUpdate(s[..n], i, v);
      assert s[i := v][..n] == s[..n][i := v];
    }
  }

  /** Moving c units of 2^Width(i) from limb i into limb i+1 keeps the value. */
  lemma ValueCarry(s: seq<limb>, i: nat, c: int, t: seq<limb>)
    requires i + 1 < |s| == |t|
    requires t[i] as int == s[i] as int - c * Exp2(Width(i))
    requires t[i + 1] as int == s[i + 1] as int + c
    requires t == s[i := t[i]][i + 1 := t[i + 1]]
    ensures Value(t) == Value(s)
  {
    hide *;
    var m := s[i := t[i]];
    ValueUpdate(s, i, t[i]);
    ValueUpdate(m, i + 1, t[i + 1]);
    WeightStep(i);
    CarryCancels(c, Weight(i), Exp2(Width(i)));
  }

  lemma CarryCancels(c: int, w: int, e: int)
    ensures (-(c * e)) * w + c * (w * e) == 0
  {
    Rotate(c, w, e);
    Rotate(w, c, e);
  }

  /** Limbs from the tenth on count 2^255 times as much. */
  lemma {:induction false} ValueSplit(s: seq<limb>)
    requires |s| >= 10
    ensures Value(s) == Value(s[..10]) + TOP * Value(s[10..])
    decreases |s|
  {
    hide Weight;
    var n := |s| - 1;
    if |s| == 10 {
      assert s[..10] == s && s[10..] == [];
    } else {
      ValueSplit(s[..n]);
      assert s[..n][..10] == s[..10];
      assert s[10..][..n - 10] == s[..n][10..];
      WeightTen(n - 10);
      Rotate(s[n] as int, TOP, Weight(n - 10));
    }
  }

  /** The value is linear in the limbs. */
  lemma {:induction false} ValueLinear(r: seq<limb>, a: int, s: seq<limb>, b: int, t: seq<limb>)
    requires |r| == |s| == |t|
    requires forall i :: 0 <= i < |r| ==> r[i] as int == a * s[i] as int + b * t[i] as int
    ensures Value(r) == a * Value(s) + b * Value(t)
    decreases |r|
  {
    hide Weight;
    if |r| != 0 {
      var n := |r| - 1;
      ValueLinear(r[..n], a, s[..n], b, t[..n]);
      LinearStep(a, Value(s[..n]), s[n] as int, b, Value(t[..n]), t[n] as int, Weight(n));
    }
  }

  lemma LinearStep(a: int, u: int, x: int, b: int, v: int, y: int, w: int)
    ensures a * u + b * v + (a * x + b * y) * w == a * (u + x * w) + b * (v + y * w)
  {
    Distribute(a * x, b * y, w);
    Rotate(a, x, w);
    Rotate(b, y, w);
    Distribute(u, x * w, a);
    Distribute(v, y * w, b);
  }

  lemma {:induction false} ValueZeros(s: seq<limb>)
    requires forall i :: 0 <= i < |s| ==> s[i] == 0
    ensures Value(s) == 0
    decreases |s|
  {
    hide Weight;
    if |s| != 0 { ValueZeros(s[..|s| - 1]); }
  }

  // ----- the schoolbook product -----

  ghost function Prod(x: limb, y: limb): int {
    x as int * y as int
  }

  /** Contribution of limbs i of a and j of b to limb i + j of the product. */
  ghost function Term(a: seq<limb>, b: seq<limb>, i: nat, j: int): int {
    if i < |a| && 0 <= j < |b| then
      Twice(i, j) * Prod(a[i], b[j])
    else 0
  }

  /** Limb k of the product of the first n limbs of a with b. */
  ghost function Coefficient(a: seq<limb>, b: seq<limb>, k: nat, n: nat): int {
    if n == 0 then 0 else Coefficient(a, b, k, n - 1) + Term(a, b, n - 1, k - (n - 1))
  }

  ghost function RowValue(a: seq<limb>, b: seq<limb>, i: nat, len: nat): int {
    if len == 0 then 0
    else RowValue(a, b, i, len - 1) + Term(a, b, i, len - 1 - i) * Weight(len - 1)
  }

  ghost function ProductValue(a: seq<limb>, b: seq<limb>, n: nat, len: nat): int {
    if len == 0 then 0
    else ProductValue(a, b, n, len - 1) + Coefficient(a, b, len - 1, n) * Weight(len - 1)
  }

  lemma {:induction false} RowIsScaled(a: seq<limb>, b: seq<limb>, i: nat, len: nat)
    requires i < |a|
    ensures RowValue(a, b, i, len) ==
            a[i] as int * Weight(i) * Value(if len < i then [] else if len - i < |b| then b[..len - i] else b)
    decreases len
  {
    hide Weight;
    if len == 0 {
    } else {
      RowIsScaled(a, b, i, len - 1);
      var j := len - 1 - i;
      if 0 <= j < |b| {
        var p := if j + 1 < |b| then b[..j + 1] else b;
        assert p[..j] == b[..j];
        assert Value(p) == Value(b[..j]) + b[j] as int * Weight(j);
        WeightProduct(i, j);
        ScaleStep(Twice(i, j), a[i] as int, b[j] as int, Weight(i), Weight(j), Weight(i + j), Value(b[..j]));
      }
    }
  }

  lemma ScaleStep(f: int, x: int, y: int, u: int, v: int, w: int, rest: int)
    requires u * v == f * w
    ensures x * u * rest + f * (x * y) * w == x * u * (rest + y * v)
  {
    calc {
      x * u * (rest + y * v);
      x * u * rest + x * u * (y * v);
      { assert x * u * (y * v) == (x * y) * (u * v) by { MulExchange(x, u, y, v); } }
      x * u * rest + (x * y) * (f * w);
      { assert (x * y) * (f * w) == f * (x * y) * w; }
      x * u * rest + f * (x * y) * w;
    }
  }

  lemma {:induction false} ProductAddsRow(a: seq<limb>, b: seq<limb>, n: nat, len: nat)
    ensures ProductValue(a, b, n + 1, len) == ProductValue(a, b, n, len) + RowValue(a, b, n, len)
    decreases len
  {
    hide Weight;
    if len != 0 {
      ProductAddsRow(a, b, n, len - 1);
      var c, t, w := Coefficient(a, b, len - 1, n), Term(a, b, n, len - 1 - n), Weight(len - 1);
      Distribute(c, t, w);
    }
  }

  /** The coefficients of the product, weighted, add up to the product of the values. */
  lemma {:induction false} ProductIsProduct(a: seq<limb>, b: seq<limb>, n: nat, len: nat)
    requires n <= |a| && len + 1 >= |a| + |b|
    ensures ProductValue(a, b, n, len) == Value(a[..n]) * Value(b)
    decreases n
  {
    hide Weight;
    if n == 0 {
      EmptyProduct(a, b, len);
    } else {
      ProductIsProduct(a, b, n - 1, len);
      ProductAddsRow(a, b, n - 1, len);
      RowIsScaled(a, b, n - 1, len);
      if len >= n - 1 && len - (n - 1) == |b| { assert b[..|b|] == b; }
      assert a[..n][..n - 1] == a[..n - 1];
      Distribute(Value(a[..n - 1]), a[n - 1] as int * Weight(n - 1), Value(b));
    }
  }

  lemma {:induction false} EmptyProduct(a: seq<limb>, b: seq<limb>, len: nat)
    ensures ProductValue(a, b, 0, len) == 0
  {
    hide Weight;
    if len != 0 { EmptyProduct(a, b, len - 1); }
  }

  ghost predicate IsProduct(out: seq<limb>, a: seq<limb>, b: seq<limb>) {
    && |out| == 19 && |a| == 10 && |b| == 10
    && forall k :: 0 <= k < 19 ==> out[k] as int == Coefficient(a, b, k, 10)
  }

  lemma ProductCorrect(out: seq<limb>, a: seq<limb>, b: seq<limb>)
    requires IsProduct(out, a, b)
    ensures Value(out) == Value(a) * Value(b)
  {
    ProductPrefix(out, a, b, 19);
    ProductIsProduct(a, b, 10, 19);
    assert out[..19] == out && a[..10] == a;
  }

  lemma {:induction false} ProductPrefix(out: seq<limb>, a: seq<limb>, b: seq<limb>, len: nat)
    requires IsProduct(out, a, b) && len <= 19
    ensures Value(out[..len]) == ProductValue(a, b, 10, len)
    decreases len
  {
    hide Weight;
    if len != 0 {
      ProductPrefix(out, a, b, len - 1);
      assert out[..len][..len - 1] == out[..len - 1];
    }
  }
}
