/** fexpand and fcontract: between 32 little-endian bytes and ten limbs. */
module Packing {
  import opened Bytes
  import opened Bits
  import opened ModArith
  import opened Limbs
  import opened FieldProduct
  import opened FieldReduce
  import FieldOps
  import opened Scalar
  import opened ScalarMult

  // ----- bit fields of integers -----

  function ShiftRight(x: nat, n: nat): nat {
    DivNonnegative(x, Exp2(n));
    x / Exp2(n)
  }

  /** Bits pos to pos + w - 1 of k. */
  function Field(k: nat, pos: nat, w: nat): (r: nat)
    ensures r < Exp2(w)
  {
    k / Exp2(pos) % Exp2(w)
  }

  function LowBits(k: nat, n: nat): nat {
    k % Exp2(n)
  }

  /** A field of w bits taken inside the low 2^n part is the field of the whole. */
  lemma FieldOfLow(x: nat, n: nat, a: nat, w: nat)
    requires a + w <= n
    ensures x % Exp2(n) / Exp2(a) % Exp2(w) == x / Exp2(a) % Exp2(w)
  {
    hide Exp2;
    Exp2Add(a, n - a);
    Exp2Add(w, n - a - w);
    FieldSplit(x, Exp2(a), Exp2(w), Exp2(n - a - w), Exp2(n));
  }

  lemma FieldSplit(x: nat, e: nat, f: nat, g: nat, m: nat)
    requires e > 0 && f > 0 && m > 0 && m == e * (f * g)
    ensures x % m / e % f == x / e % f
  {
    var q, r := x / m, x % m;
    var a := f * (g * q) + r / e;
    assert x == e * a + r % e by {
      assert x == m * q + r && r == e * (r / e) + r % e;
      Rotate(e, f * g, q);
      Rotate(f, g, q);
      Distribute(f * (g * q), r / e, e);
    }
    DivModUnique(x, e, a, r % e);
    ModShift(r / e, g * q, f);
  }

  /** The low n + w bits are the low n bits and a field of w bits above them. */
  lemma FieldJoin(x: nat, n: nat, w: nat)
    ensures LowBits(x, n + w) == LowBits(x, n) + Field(x, n, w) * Exp2(n)
  {
    hide Exp2;
    Exp2Add(n, w);
    var e, f := Exp2(n), Exp2(w);
    var q, r := x / e, x % e;
    var q', t := q / f, q % f;
    assert x == (e * f) * q' + (r + t * e) by {
      assert x == e * q + r && q == f * q' + t;
      Distribute(f * q', t, e);
      Rotate(e, f, q');
    }
    assert 0 <= r + t * e < e * f by {
      Distribute(t, f - t, e);
      Distribute(1, f - t - 1, e);
    }
    DivModUnique(x, e * f, q', r + t * e);
  }

  lemma {:induction false} LittleEndianBound(s: seq<byte>)
    ensures LittleEndian(s) < Exp2(8 * |s|)
  {
    if s != [] {
      LittleEndianBound(s[1..]);
      assert Exp2(8) == 0x100;
      Exp2Add(8, 8 * (|s| - 1));
      hide Exp2;
    }
  }

  lemma {:induction false} LittleEndianJoin(s: seq<byte>, t: seq<byte>)
    ensures LittleEndian(s + t) == LittleEndian(s) + LittleEndian(t) * Exp2(8 * |s|)
  {
    if s == [] {
      assert s + t == t;
    } else {
      LittleEndianJoin(s[1..], t);
      assert (s + t)[1..] == s[1..] + t;
      assert Exp2(8) == 0x100;
      Exp2Add(8, 8 * (|s| - 1));
      hide Exp2;
      Rotate(LittleEndian(t), 0x100, Exp2(8 * (|s| - 1)));
    }
  }

  // ----- fexpand -----

  /** Four bytes from `start`, joined by shifts and |. */
  function Word(s: seq<byte>, start: nat): nat
    requires start + 4 <= |s|
  {
    Or(Or(Or(s[start] as nat, s[start + 1] as nat * 0x100), s[start + 2] as nat * 0x1_0000),
      s[start + 3] as nat * 0x100_0000)
  }

  lemma WordIsLittleEndian(s: seq<byte>, start: nat)
    requires start + 4 <= |s|
    ensures Word(s, start) == LittleEndian(s[start..start + 4]) < Exp2(32)
  {
    var a, b, c, d := s[start] as nat, s[start + 1] as nat, s[start + 2] as nat, s[start + 3] as nat;
    assert Exp2(8) == 0x100;
    Exp2Add(8, 8);
    Exp2Add(16, 8);
    hide Exp2, Or;
    OrDisjoint(8, a, b);
    OrDisjoint(16, a + b * 0x100, c);
    OrDisjoint(24, a + b * 0x100 + c * 0x1_0000, d);
    var t := s[start..start + 4];
    LittleEndianBound(t);
    assert t[1..][1..][1..] == [s[start + 3]];
    assert LittleEndian(t[1..][1..][1..][1..]) == 0;
    assert LittleEndian([s[start + 3]]) == d;
    assert LittleEndian(t[1..][1..]) == c + 0x100 * d;
    assert LittleEndian(t[1..]) == b + 0x100 * (c + 0x100 * d);
  }

  /** The window of four bytes is bits 8 start to 8 start + 31 of the whole number. */
  lemma WordIsField(s: seq<byte>, start: nat)
    requires start + 4 <= |s|
    ensures LittleEndian(s[start..start + 4]) == LittleEndian(s) / Exp2(8 * start) % Exp2(32)
  {
    hide Exp2, LittleEndian;
    var low, mid, high := s[..start], s[start..start + 4], s[start + 4..];
    LittleEndianBound(low);
    LittleEndianBound(mid);
    LittleEndianJoin(mid, high);
    LittleEndianJoin(low, mid + high);
    assert low + (mid + high) == s;
    TakeDigit(LittleEndian(s), LittleEndian(low), LittleEndian(mid), LittleEndian(high), Exp2(8 * start), Exp2(32));
  }

  lemma TakeDigit(k: nat, low: nat, mid: nat, high: nat, e: nat, f: nat)
    requires low < e && mid < f && k == low + (mid + high * f) * e
    ensures k / e % f == mid
  {
    DivModUnique(k, e, mid + high * f, low);
    DivModUnique(mid + high * f, f, high, mid);
  }

  /** The F macro of fexpand: a window, shifted right and masked to w bits. */
  function Window(s: seq<byte>, start: nat, shift: nat, w: nat): nat
    requires start + 4 <= |s|
  {
    hide Word, And;
    And(ShiftRight(Word(s, start), shift), Exp2(w) - 1)
  }

  lemma WindowField(s: seq<byte>, start: nat, shift: nat, w: nat)
    requires start + 4 <= |s| && shift + w <= 32
    ensures Window(s, start, shift, w) == Field(LittleEndian(s), 8 * start + shift, w)
  {
    hide Exp2, And, Word, LittleEndian;
    WordIsLittleEndian(s, start);
    WordIsField(s, start);
    Masked(ShiftRight(Word(s, start), shift), w);
    FieldOfLow(LittleEndian(s) / Exp2(8 * start), 32, shift, w);
    Exp2Add(8 * start, shift);
    DivDiv(LittleEndian(s), Exp2(8 * start), Exp2(shift));
  }

  lemma WidthBound(w: nat)
    requires w <= 26
    ensures Exp2(w) <= 0x400_0000
  {
    hide Exp2;
    Powers();
    Exp2Add(w, 26 - w);
    Distribute(1, Exp2(26 - w) - 1, Exp2(w));
  }

  function ExpandLimb(s: seq<byte>, start: nat, shift: nat, w: nat): (r: limb)
    requires start + 4 <= |s| && shift + w <= 32 && w <= 26
    ensures r as int == Field(LittleEndian(s), 8 * start + shift, w)
  {
    hide *;
    WindowField(s, start, shift, w);
    WidthBound(w);
    Window(s, start, shift, w) as limb
  }

  lemma Masked(x: nat, w: nat)
    ensures And(x, Exp2(w) - 1) == x % Exp2(w)
  {
    hide Exp2, And;
    AndMask(w, x % Exp2(w), x / Exp2(w));
    assert x == x % Exp2(w) + x / Exp2(w) * Exp2(w);
  }

  /** Limbs 0 to m - 1 are the fields of k at the positions of the limbs. */
  ghost predicate Expanded(t: seq<limb>, k: nat, m: nat) {
    m <= |t| && forall i :: 0 <= i < m ==> t[i] as int == Field(k, Shift(i), if i == 9 then 26 else Width(i))
  }

  lemma {:induction false} ExpandedValue(t: seq<limb>, k: nat, m: nat)
    requires Expanded(t, k, m) && m <= 9
    ensures Value(t[..m]) == LowBits(k, Shift(m))
  {
    hide Exp2, Field, LowBits;
    if m == 0 {
      NoBits(k);
    } else {
      ExpandedValue(t, k, m - 1);
      assert t[..m][..m - 1] == t[..m - 1];
      assert Shift(m) == Shift(m - 1) + Width(m - 1);
      FieldJoin(k, Shift(m - 1), Width(m - 1));
    }
  }

  lemma NoBits(k: nat)
    ensures LowBits(k, 0) == 0
  { }

  lemma ExpandedIsWhole(t: seq<limb>, k: nat)
    requires Expanded(t, k, 10) && k < Exp2(256)
    ensures Value(t[..10]) == k
  {
    hide Exp2, Field;
    ExpandedValue(t, k, 9);
    assert t[..10][..9] == t[..9];
    assert Value(t[..10]) == Value(t[..9]) + t[9] as int * Weight(9);
    hide Value;
    FieldJoin(k, 230, 26);
    DivModUnique(k, Exp2(256), 0, k);
  }

  method FExpand(output: array<limb>, input: array<byte>)
    requires output.Length >= 10 && input.Length == 32
    modifies output
    ensures Value(output[..10]) == LittleEndian(input[..])
    ensures Roomy(output[..10]) && FieldOps.PairRoomy(output[..], ONE)
  {
    hide Field, LittleEndian, Exp2, Value, ExpandLimb, Roomy, FieldOps.PairRoomy;
    ghost var k := LittleEndian(input[..]);
    output[0] := ExpandLimb(input[..], 0, 0, 26);
    output[1] := ExpandLimb(input[..], 3, 2, 25);
    output[2] := ExpandLimb(input[..], 6, 3, 26);
    output[3] := ExpandLimb(input[..], 9, 5, 25);
    output[4] := ExpandLimb(input[..], 12, 6, 26);
    output[5] := ExpandLimb(input[..], 16, 0, 25);
    output[6] := ExpandLimb(input[..], 19, 1, 26);
    output[7] := ExpandLimb(input[..], 22, 3, 25);
    output[8] := ExpandLimb(input[..], 25, 4, 26);
    output[9] := ExpandLimb(input[..], 28, 6, 26);
    assert Expanded(output[..], k, 10);
    LittleEndianBound(input[..]);
    ExpandedIsWhole(output[..], k);
    ExpandedRoomy(output[..], k);
    assert output[..][..10] == output[..10];
  }

  lemma ExpandedRoomy(t: seq<limb>, k: nat)
    requires Expanded(t, k, 10)
    ensures Roomy(t[..10]) && FieldOps.PairRoomy(t, ONE)
  {
    hide Field;
    Powers();
    hide Exp2;
    forall i | 0 <= i < 10
      ensures 0 <= t[i] as int < (if i == 9 then 0x400_0000 else Magnitude(i))
    {
      assert t[i] as int == Field(k, Shift(i), if i == 9 then 26 else Width(i));
    }
  }
}
