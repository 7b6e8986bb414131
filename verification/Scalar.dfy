/** The scalar: little-endian bytes, read one bit at a time from the top. */
module Scalar {
  import opened Bytes
  import opened Bits
  import opened ModArith

  /** Little-endian integer of a byte string. */
  function LittleEndian(s: seq<byte>): nat {
    if s == [] then 0 else s[0] as nat + 0x100 * LittleEndian(s[1..])
  }

  /** The lowest `count` bits of k, most significant first. */
  function BitsOf(k: nat, count: nat): seq<bool> {
    if count == 0 then [] else [k / Exp2(count - 1) % 2 == 1] + BitsOf(k, count - 1)
  }

  lemma Exp2OfEight()
    ensures Exp2(8) == 0x100
  { }

  lemma NoShift(k: nat)
    ensures k / Exp2(0) == k
  { }

  lemma {:induction false} ByteAt(s: seq<byte>, m: nat)
    requires m < |s|
    ensures LittleEndian(s) / Exp2(8 * m) % 0x100 == s[m] as nat
  {
    hide Exp2;
    if m == 0 {
      NoShift(LittleEndian(s));
    } else {
      assert LittleEndian(s) / 0x100 == LittleEndian(s[1..]);
      hide LittleEndian;
      ByteAt(s[1..], m - 1);
      Exp2OfEight();
      Exp2Add(8, 8 * (m - 1));
      DivDiv(LittleEndian(s), 0x100, Exp2(8 * (m - 1)));
    }
  }

  /** Bit l of byte m is bit 8m + l of the scalar. */
  lemma ScalarBit(s: seq<byte>, m: nat, l: nat)
    requires m < |s| && l < 8
    ensures LittleEndian(s) / Exp2(8 * m + l) % 2 == s[m] as nat / Exp2(l) % 2
  {
    hide LittleEndian, Exp2;
    var k := LittleEndian(s);
    ByteAt(s, m);
    Exp2Add(8 * m, l);
    DivDiv(k, Exp2(8 * m), Exp2(l));
    LowByteBit(k / Exp2(8 * m), l);
  }

  lemma LowByteBit(k: nat, l: nat)
    requires l < 8
    ensures k / Exp2(l) % 2 == k % 0x100 / Exp2(l) % 2
  {
    assert Exp2(8) == 0x100 && Exp2(8 - l) == 2 * Exp2(7 - l);
    Exp2Add(l, 8 - l);
    hide Exp2;
    SplitLow(k / 0x100, k % 0x100, Exp2(l), Exp2(7 - l));
  }

  lemma SplitLow(q: nat, r: nat, e: nat, g: nat)
    requires e > 0 && e * (2 * g) == 0x100
    ensures (0x100 * q + r) / e % 2 == r / e % 2
  {
    var a := 2 * g * q + r / e;
    assert 0x100 * q + r == e * a + r % e by {
      assert r == e * (r / e) + r % e;
      Rotate(e, 2 * g, q);
      Distribute(2 * g * q, r / e, e);
    }
    DivModUnique(0x100 * q + r, e, a, r % e);
    assert a == r / e + 2 * (g * q);
    ModShift(r / e, g * q, 2);
  }

  /** A byte shifted left j times has bit 7 - j of the original on top. */
  lemma TopBit(v: nat, j: nat)
    requires v < 0x100 && j < 8
    ensures v * Exp2(j) % 0x100 / 0x80 == v / Exp2(7 - j) % 2
  {
    assert Exp2(7) == 0x80;
    Exp2Add(j, 7 - j);
    hide Exp2;
    ShiftOut(v, Exp2(j), Exp2(7 - j));
  }

  lemma ShiftOut(v: nat, f: nat, e: nat)
    requires f > 0 && e > 0 && f * e == 0x80
    ensures v * f % 0x100 / 0x80 == v / e % 2
  {
    var a, c := v / e, v % e;
    var h, t := a / 2, a % 2;
    assert v * f == 0x100 * h + (0x80 * t + c * f) by {
      assert v == e * a + c;
      Distribute(e * a, c, f);
      Rotate(f, e, a);
    }
    assert 0 <= c * f < 0x80 by { Distribute(c, e - c, f); }
    DivModUnique(v * f, 0x100, h, 0x80 * t + c * f);
  }

  /** A byte after j left shifts, the bits that leave it lost. */
  function Shifted(v: byte, j: nat): byte {
    (v as nat * Exp2(j) % 0x100) as byte
  }

  lemma ShiftedStart(v: byte)
    ensures Shifted(v, 0) == v
  { }

  lemma ShiftedNext(v: byte, j: nat)
    ensures Shifted(v, j + 1) as int == Shifted(v, j) as int * 2 % 0x100
  {
    assert Exp2(j + 1) == Exp2(j) * 2;
    hide Exp2;
    Rotate(v as nat, Exp2(j), 2);
    ModMulLeft(v as nat * Exp2(j), 2, 0x100);
  }

  /** Round j of byte 31 - i reads the next bit of the scalar. */
  lemma NextBit(n: seq<byte>, i: nat, j: nat)
    requires |n| == 32 && i < 32 && j < 8
    ensures var bits := BitsOf(LittleEndian(n), 8 * (32 - i) - j);
            && |bits| > 0 && bits[0] == (Shifted(n[31 - i], j) / 0x80 == 1)
            && bits[1..] == BitsOf(LittleEndian(n), 8 * (32 - i) - j - 1)
  {
    ScalarBit(n, 31 - i, 7 - j);
    TopBit(n[31 - i] as nat, j);
    hide Exp2, LittleEndian;
  }
}
