/** The data types of section 5 of RFC 4251 as byte strings: uint32, string and mpint. */
module Wire {
  import opened Bytes
  import opened Bits
  import opened ModArith

  const BUF_MAX_MPINT := 8240 / 8
  const MAX_STRING_LEN := 9000

  // ----- unsigned big-endian numbers -----

  function BigEndian(s: seq<byte>): nat {
    if s == [] then 0 else 0x100 * BigEndian(s[..|s| - 1]) + s[|s| - 1] as nat
  }

  /** mp_to_unsigned_bin: the shortest big-endian form, nothing at all for zero. */
  function Unsigned(m: nat): seq<byte> {
    if m == 0 then [] else Unsigned(m / 0x100) + [(m % 0x100) as byte]
  }

  /** mp_count_bits. */
  function BitCount(m: nat): nat {
    if m == 0 then 0 else 1 + BitCount(m / 2)
  }

  function Zeros(n: nat): (s: seq<byte>)
    ensures |s| == n
  {
    seq(n, _ => 0 as byte)
  }

  lemma {:induction false} BigEndianUnsigned(m: nat)
    ensures BigEndian(Unsigned(m)) == m
  {
    if m != 0 {
      BigEndianUnsigned(m / 0x100);
      assert Unsigned(m)[..|Unsigned(m)| - 1] == Unsigned(m / 0x100);
    }
  }

  lemma {:induction false} BigEndianInjective(s: seq<byte>, t: seq<byte>)
    requires |s| == |t| && BigEndian(s) == BigEndian(t)
    ensures s == t
  {
    if s != [] {
      var n := |s| - 1;
      assert BigEndian(s[..n]) == BigEndian(t[..n]) && s[n] == t[n];
      BigEndianInjective(s[..n], t[..n]);
      assert s == s[..n] + [s[n]] && t == t[..n] + [t[n]];
    }
  }

  lemma {:induction false} BigEndianBound(s: seq<byte>)
    ensures BigEndian(s) < Exp2(8 * |s|)
  {
    if s != [] {
      BigEndianBound(s[..|s| - 1]);
      Exp2Byte(|s| - 1);
    }
  }

  lemma Exp2Byte(n: nat)
    ensures Exp2(8 * (n + 1)) == 0x100 * Exp2(8 * n)
  {
    Exp2Add(8, 8 * n);
    assert Exp2(8) == 0x100;
  }

  /** A byte string without leading zero is the shortest form of its value. */
  lemma {:induction false} UnsignedOf(s: seq<byte>)
    requires s != [] ==> s[0] != 0
    ensures Unsigned(BigEndian(s)) == s
  {
    if s != [] {
      var front := s[..|s| - 1];
      UnsignedOf(front);
      if front != [] { UnsignedLeads(front); }
      assert BigEndian(s) / 0x100 == BigEndian(front) && BigEndian(s) % 0x100 == s[|s| - 1] as nat;
      assert s == front + [s[|s| - 1]];
    }
  }

  lemma {:induction false} UnsignedLeads(s: seq<byte>)
    requires s != [] && s[0] != 0
    ensures BigEndian(s) > 0
  {
    if |s| > 1 { UnsignedLeads(s[..|s| - 1]); }
  }

  lemma {:induction false} LeadingZeros(n: nat, s: seq<byte>)
    ensures BigEndian(Zeros(n) + s) == BigEndian(s)
    decreases n + |s|
  {
    var t := Zeros(n) + s;
    if s != [] {
      assert t[..|t| - 1] == Zeros(n) + s[..|s| - 1];
      LeadingZeros(n, s[..|s| - 1]);
    } else if n > 0 {
      assert t[..|t| - 1] == Zeros(n - 1) + s;
      LeadingZeros(n - 1, s);
    }
  }

  lemma {:induction false} UnsignedFits(m: nat, n: nat)
    ensures |Unsigned(m)| <= n <==> m < Exp2(8 * n)
    decreases n
  {
    if m != 0 && n > 0 {
      UnsignedFits(m / 0x100, n - 1);
      Exp2Byte(n - 1);
      assert 8 * (n - 1 + 1) == 8 * n;
    }
  }

  // ----- bit lengths -----

  lemma {:induction false} BitCountShift(m: nat, n: nat)
    requires m >= Exp2(n)
    ensures BitCount(m) == n + BitCount(m / Exp2(n)) && m / Exp2(n) > 0
    decreases n
  {
    if n > 0 {
      BitCountShift(m / 2, n - 1);
      HalfThenShift(m, n);
    }
  }

  lemma HalfThenShift(m: nat, n: nat)
    requires n > 0
    ensures m / 2 / Exp2(n - 1) == m / Exp2(n)
  {
    DivDiv(m, 2, Exp2(n - 1));
  }

  lemma BitCountByte(m: nat)
    requires 0 < m < 0x100
    ensures 1 <= BitCount(m) <= 8 && (BitCount(m) == 8 <==> m >= 0x80)
  {
    BitCountFits(m, 8);
    BitCountFits(m, 7);
    assert Exp2(7) == 0x80 && Exp2(8) == 0x100;
  }

  lemma {:induction false} BitCountFits(m: nat, n: nat)
    ensures BitCount(m) <= n <==> m < Exp2(n)
    decreases n
  {
    if m != 0 && n > 0 { BitCountFits(m / 2, n - 1); }
  }

  lemma BitCountOver(m: nat)
    requires m >= 0x100
    ensures BitCount(m) == 8 + BitCount(m / 0x100)
  {
    assert Exp2(8) == 0x100;
    BitCountShift(m, 8);
    hide Exp2, BitCount;
  }

  /** The length of the shortest form is the bit length in bytes; its first byte holds the remaining bits. */
  lemma {:induction false} UnsignedLength(m: nat)
    requires m > 0
    ensures |Unsigned(m)| == (BitCount(m) + 7) / 8
    ensures Unsigned(m)[0] != 0
    ensures Unsigned(m)[0] >= 0x80 <==> BitCount(m) % 8 == 0
  {
    hide BitCount;
    if m < 0x100 {
      BitCountByte(m);
      assert Unsigned(m / 0x100) == [] && Unsigned(m) == [m as byte];
    } else {
      UnsignedLength(m / 0x100);
      BitCountOver(m);
    }
  }

  // ----- uint32 -----

  /** STORE32H. */
  function U32Wire(v: nat): (s: seq<byte>)
    requires v < U32_LIMIT
    ensures |s| == 4 && Load32(s) == v
  {
    var v1 := v / 0x100;
    var v2 := v1 / 0x100;
    var v3 := v2 / 0x100;
    [v3 as byte, (v2 % 0x100) as byte, (v1 % 0x100) as byte, (v % 0x100) as byte]
  }

  /** LOAD32H. */
  function Load32(s: seq<byte>): (v: nat)
    requires |s| == 4
    ensures v < U32_LIMIT
  {
    s[0] as nat * 0x100_0000 + s[1] as nat * 0x1_0000 + s[2] as nat * 0x100 + s[3] as nat
  }

  /** LOAD32H reads the most significant byte first. */
  lemma Load32BigEndian(s: seq<byte>)
    requires |s| == 4
    ensures Load32(s) == BigEndian(s)
  {
    var s3, s2, s1 := s[..3], s[..2], s[..1];
    assert s3[..2] == s2 && s2[..1] == s1 && s1[..0] == [];
    assert BigEndian(s1) == s[0] as nat && BigEndian(s2) == 0x100 * BigEndian(s1) + s[1] as nat;
    assert BigEndian(s3) == 0x100 * BigEndian(s2) + s[2] as nat;
  }

  /** STORE32H writes it first: the only four bytes with that value. */
  lemma U32BigEndian(v: nat, s: seq<byte>)
    requires v < U32_LIMIT && |s| == 4
    ensures BigEndian(s) == v <==> s == U32Wire(v)
  {
    var t := U32Wire(v);
    hide U32Wire;
    Load32BigEndian(t);
    hide Load32;
    if BigEndian(s) == v { BigEndianInjective(s, t); }
  }

  // ----- string -----

  function StringWire(s: seq<byte>): seq<byte>
    requires |s| < U32_LIMIT
  {
    U32Wire(|s|) + s
  }

  /** What a read from a buffer gives: a value and what is left, DROPBEAR_FAILURE, or dropbear_exit. */
  datatype Parsed<T> = Parsed(value: T, rest: seq<byte>) | Refused | Exited

  function ReadU32(s: seq<byte>): Parsed<nat> {
    if |s| < 4 then Exited else Parsed(Load32(s[..4]), s[4..])
  }

  /** buf_getstring. */
  function ReadString(s: seq<byte>): Parsed<seq<byte>> {
    if |s| < 4 || Load32(s[..4]) > MAX_STRING_LEN || Load32(s[..4]) > |s| - 4 then Exited
    else Parsed(s[4..4 + Load32(s[..4])], s[4 + Load32(s[..4])..])
  }

  /** A string's encoding tells where it ends. */
  lemma StringPrefixFree(a: seq<byte>, x: seq<byte>, b: seq<byte>, y: seq<byte>)
    requires |a| < U32_LIMIT && |b| < U32_LIMIT
    requires StringWire(a) + x == StringWire(b) + y
    ensures a == b && x == y
  {
    var s, t := StringWire(a) + x, StringWire(b) + y;
    assert s[..4] == U32Wire(|a|) && t[..4] == U32Wire(|b|);
    hide U32Wire, Load32;
    assert |a| == Load32(s[..4]) == Load32(t[..4]) == |b|;
    assert s[4..4 + |a|] == a && t[4..4 + |b|] == b;
    assert s[4 + |a|..] == x && t[4 + |b|..] == y;
  }

  lemma StringRoundTrip(a: seq<byte>, x: seq<byte>)
    requires |a| < U32_LIMIT
    ensures ReadString(StringWire(a) + x) == if |a| <= MAX_STRING_LEN then Parsed(a, x) else Exited
  {
    var s := StringWire(a) + x;
    assert s[..4] == U32Wire(|a|);
    assert s[4..4 + |a|] == a && s[4 + |a|..] == x;
    hide Load32;
  }

  /** Four bytes are the encoding of the number they hold. */
  lemma U32Back(s: seq<byte>)
    requires |s| == 4
    ensures U32Wire(Load32(s)) == s
  {
    hide U32Wire, Load32, BigEndian;
    Load32BigEndian(s);
    U32BigEndian(Load32(s), s);
  }

  /** buf_getstring finds a string exactly where one was written; anything else ends the program. */
  lemma ReadStringExactly(s: seq<byte>, a: seq<byte>, x: seq<byte>)
    ensures ReadString(s) == Parsed(a, x) <==> |a| <= MAX_STRING_LEN && s == StringWire(a) + x
    ensures ReadString(s).Parsed? || ReadString(s).Exited?
  {
    hide Load32, U32Wire;
    if |a| <= MAX_STRING_LEN && s == StringWire(a) + x { StringRoundTrip(a, x); }
    if ReadString(s) == Parsed(a, x) {
      U32Back(s[..4]);
      assert s == s[..4] + s[4..] && s[4..] == a + x;
    }
  }

  // ----- mpint -----

  /** The bytes of an mpint as buf_putmpint lays them out for a number that libtommath has normalised. */
  function MpintBytes(m: nat): seq<byte> {
    (if BitCount(m) % 8 == 0 then [0 as byte] else []) + Unsigned(m)
  }

  /** The length buf_putmpint writes before it computes any byte. */
  lemma MpintLength(m: nat)
    ensures |MpintBytes(m)| == BitCount(m) / 8 + 1
  {
    if m > 0 { UnsignedLength(m); }
  }

  /** Section 5 of RFC 4251: two's complement, most significant byte first, no unnecessary leading byte, zero empty. */
  predicate RfcMpint(s: seq<byte>, m: nat) {
    && BigEndian(s) == m
    && (s != [] ==> s[0] < 0x80)
    && (s != [] && s[0] == 0 ==> |s| > 1 && s[1] >= 0x80)
  }

  /** The RFC leaves one form for each number. */
  lemma RfcMpintUnique(s: seq<byte>, t: seq<byte>, m: nat)
    requires RfcMpint(s, m) && RfcMpint(t, m)
    ensures s == t
  {
    RfcMpintForm(s, m);
    RfcMpintForm(t, m);
  }

  lemma RfcMpintForm(s: seq<byte>, m: nat)
    requires RfcMpint(s, m)
    ensures s == if m == 0 then [] else MpintBytes(m)
  {
    if s != [] {
      if s[0] == 0 {
        var u := s[1..];
        assert s == Zeros(1) + u;
        LeadingZeros(1, u);
        UnsignedLeads(u);
        UnsignedOf(u);
        UnsignedLength(m);
      } else {
        UnsignedLeads(s);
        UnsignedOf(s);
        UnsignedLength(m);
      }
    }
  }

  /** buf_putmpint follows the RFC for every positive number, and for no other: zero becomes one zero byte. */
  lemma MpintConforms(m: nat)
    ensures RfcMpint(MpintBytes(m), m) <==> m > 0
    ensures BigEndian(MpintBytes(m)) == m && MpintBytes(m)[0] < 0x80
  {
    BigEndianUnsigned(m);
    if m > 0 {
      UnsignedLength(m);
      if BitCount(m) % 8 == 0 {
        assert MpintBytes(m) == Zeros(1) + Unsigned(m);
        LeadingZeros(1, Unsigned(m));
      } else {
        assert MpintBytes(m) == Unsigned(m);
      }
    }
  }

  predicate MpintFits(m: nat) {
    |MpintBytes(m)| < U32_LIMIT
  }

  function MpintWire(m: nat): seq<byte>
    requires MpintFits(m)
  {
    StringWire(MpintBytes(m))
  }

  /** buf_getmpint. */
  function ReadMpint(s: seq<byte>): Parsed<nat> {
    if |s| < 4 then Exited
    else
      var len := Load32(s[..4]);
      if len == 0 then Parsed(0, s[4..])
      else if len > BUF_MAX_MPINT then Refused
      else if |s| < 5 then Exited
      else if s[4] >= 0x80 then Refused
      else if len > |s| - 4 then Exited
      else Parsed(BigEndian(s[4..4 + len]), s[4 + len..])
  }

  /** What buf_getmpint makes of a string: a number unless it is too long or has a sign. */
  lemma ReadBack(b: seq<byte>, x: seq<byte>)
    requires |b| < U32_LIMIT
    ensures ReadMpint(StringWire(b) + x) ==
            if |b| > BUF_MAX_MPINT || (b != [] && b[0] >= 0x80) then Refused else Parsed(BigEndian(b), x)
  {
    StringLayout(b, x);
    assert BigEndian([]) == 0;
    hide Load32, BigEndian, U32Wire, StringWire;
  }

  /** Where the parts of an encoded string are. */
  lemma StringLayout(b: seq<byte>, x: seq<byte>)
    requires |b| < U32_LIMIT
    ensures var s := StringWire(b) + x;
            && |s| == 4 + |b| + |x| && s[..4] == U32Wire(|b|) && Load32(s[..4]) == |b|
            && s[4..4 + |b|] == b && s[4 + |b|..] == x && (|b| > 0 ==> s[4] == b[0])
  {
    hide Load32, U32Wire;
    var s := StringWire(b) + x;
    assert s[..4] == U32Wire(|b|);
  }

  /** buf_getmpint takes exactly the strings of at most BUF_MAX_MPINT bytes without a sign, of any form. */
  lemma ReadMpintExactly(s: seq<byte>, m: nat, x: seq<byte>)
    ensures ReadMpint(s) == Parsed(m, x) <==>
              exists b: seq<byte> :: && |b| <= BUF_MAX_MPINT && (b != [] ==> b[0] < 0x80)
                                     && BigEndian(b) == m && s == StringWire(b) + x
  {
    hide StringWire, Load32, BigEndian;
    if b: seq<byte> :| && |b| <= BUF_MAX_MPINT && (b != [] ==> b[0] < 0x80)
                       && BigEndian(b) == m && s == StringWire(b) + x {
      ReadBack(b, x);
    }
    if ReadMpint(s) == Parsed(m, x) { MpintString(s, m, x); }
  }

  lemma MpintString(s: seq<byte>, m: nat, x: seq<byte>)
    requires ReadMpint(s) == Parsed(m, x)
    ensures |s| >= 4 && Load32(s[..4]) <= |s| - 4
    ensures var b := s[4..4 + Load32(s[..4])];
            && |b| <= BUF_MAX_MPINT && (b != [] ==> b[0] < 0x80) && BigEndian(b) == m && s == StringWire(b) + x
  {
    var n := Load32(s[..4]);
    U32Back(s[..4]);
    assert BigEndian([]) == 0;
    hide Load32, U32Wire, BigEndian;
    assert s == s[..4] + s[4..] && s[4..] == s[4..4 + n] + s[4 + n..];
  }

  /** buf_getmpint inverts buf_putmpint for the numbers below 2^8239, and refuses every other one. */
  lemma MpintRoundTrip(m: nat, x: seq<byte>)
    requires MpintFits(m)
    ensures ReadMpint(MpintWire(m) + x) == if m < Exp2(8239) then Parsed(m, x) else Refused
  {
    hide Exp2, BitCount, MpintBytes, ReadMpint, StringWire;
    MpintLength(m);
    MpintConforms(m);
    BitCountFits(m, 8239);
    ReadBack(MpintBytes(m), x);
  }

  lemma MpintPrefixFree(m: nat, x: seq<byte>, n: nat, y: seq<byte>)
    requires MpintFits(m) && MpintFits(n)
    requires MpintWire(m) + x == MpintWire(n) + y
    ensures m == n && x == y
  {
    StringPrefixFree(MpintBytes(m), x, MpintBytes(n), y);
    MpintConforms(m);
    MpintConforms(n);
  }
}
