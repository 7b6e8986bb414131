/** Generation of ssh-dss keys: the shape of p, the order of g, and the public value y. */
module GenDss {
  import opened Wrappers
  import opened Bytes
  import opened Bits
  import opened ModArith
  import opened Wire
  import opened DssMath
  import opened Dss

  /** `buf[0] |= 0x80`. */
  function TopBitSet(s: seq<byte>): (t: seq<byte>)
    requires |s| > 0
    ensures |t| == |s| && t[0] >= 0x80 && t[1..] == s[1..]
  {
    [if s[0] < 0x80 then s[0] + 0x80 else s[0]] + s[1..]
  }

  /** The candidate for p that one round of random bytes gives. */
  function Candidate(q: nat, bytes: seq<byte>): nat
    requires q > 0 && |bytes| > 0
  {
    Nearest(BigEndian(TopBitSet(bytes)), q)
  }

  /** P = X - (C - 1), where C = X mod 2q. */
  function Nearest(x: nat, q: nat): nat
    requires q > 0
  {
    ModAtMost(x, 2 * q);
    x - x % (2 * q) + 1
  }

  lemma ModAtMost(x: nat, m: nat)
    requires m > 0
    ensures x % m <= x
  {
    if x < m { DivModUnique(x, m, 0, x); }
  }

  /** p = 1 modulo 2q. */
  predicate OneMod2q(p: nat, q: nat)
    requires q > 0
  {
    p > 0 && (p - 1) % (2 * q) == 0 && (p - 1) % q == 0 && p % 2 == 1
  }

  /** Leading byte first: a number whose first byte has its top bit set has all its bits. */
  lemma {:induction false} TopHeavy(s: seq<byte>)
    requires |s| > 0 && s[0] >= 0x80
    ensures BigEndian(s) >= Exp2(8 * |s| - 1)
  {
    assert Exp2(8) == 0x100 && Exp2(7) == 0x80;
    hide Exp2;
    if |s| == 1 {
      assert BigEndian(s[..0]) == 0;
    } else {
      TopHeavy(s[..|s| - 1]);
      Exp2Add(8, 8 * (|s| - 1) - 1);
    }
  }

  /** p = 1 modulo 2q, so that p is odd and q divides p - 1, and p is the nearest such number below the random one. */
  lemma CandidateForm(q: nat, bytes: seq<byte>)
    requires q > 0 && |bytes| > 0
    ensures var p := Candidate(q, bytes);
            && OneMod2q(p, q)
            && Exp2(8 * |bytes| - 1) < p + 2 * q && p <= Exp2(8 * |bytes|)
  {
    hide Exp2, BigEndian, Nearest, OneMod2q, TopBitSet;
    var t := TopBitSet(bytes);
    var x := BigEndian(t);
    TopHeavy(t);
    BigEndianBound(t);
    RoundDown(x, q);
  }

  lemma RoundDown(x: nat, q: nat)
    requires q > 0
    ensures var p := Nearest(x, q); OneMod2q(p, q) && x < p + 2 * q && p <= x + 1
  {
    var d := x / (2 * q);
    var m := x - x % (2 * q);
    assert m == (2 * q) * d;
    Rotate(2, q, d);
    Rotate(q, 2, d);
    DivModUnique(m, 2 * q, d, 0);
    DivModUnique(m, q, 2 * d, 0);
    DivModUnique(m, 2, q * d, 0);
  }

  /** getp over a supply of random buffers: the first candidate that passes the primality test. */
  method GetP(q: nat, size: nat, supply: seq<seq<byte>>, isPrime: nat -> bool) returns (p: Option<nat>)
    requires q > 0 && size > 0 && forall i :: 0 <= i < |supply| ==> |supply[i]| == size
    ensures p.None? ==> forall i :: 0 <= i < |supply| ==> !isPrime(Candidate(q, supply[i]))
    ensures p.Some? ==>
              && isPrime(p.value) && OneMod2q(p.value, q)
              && Exp2(8 * size - 1) < p.value + 2 * q && p.value <= Exp2(8 * size)
    ensures p.Some? ==> exists i :: 0 <= i < |supply| && p.value == Candidate(q, supply[i])
                                     && forall j :: 0 <= j < i ==> !isPrime(Candidate(q, supply[j]))
  {
    hide Exp2, BigEndian, OneMod2q;
    var temp2q := q * 2;
    var i := 0;
    while i < |supply|
      invariant i <= |supply|
      invariant forall j :: 0 <= j < i ==> !isPrime(Candidate(q, supply[j]))
    {
      var tempX := BigEndian(TopBitSet(supply[i]));
      var tempC := tempX % temp2q;
      var tempP := tempX - tempC;
      var candidate := tempP + 1;
      assert candidate == Candidate(q, supply[i]);
      if isPrime(candidate) {
        CandidateForm(q, supply[i]);
        return Some(candidate);
      }
      i := i + 1;
    }
    return None;
  }

  /** The power tried by getg. */
  function GCandidate(p: nat, q: nat, h: nat): nat
    requires q > 0 && p > 1
  {
    ExptMod(h, (p - 1) / q, p)
  }

  /** Such a power has order dividing q. */
  lemma GeneratorOrder(p: nat, q: nat, h: nat)
    requires Fermat(p) && q > 0 && (p - 1) % q == 0 && 0 < h < p
    ensures ExptMod(GCandidate(p, q, h), q, p) == 1
  {
    var d := (p - 1) / q;
    assert d * q == p - 1;
    assert FermatAt(h, p);
    PowMul(h, d, q);
    PowMod(Pow(h, d), q, p);
  }

  lemma CandidatePeriod(p: nat, q: nat, h: nat)
    requires p > 1 && q > 0
    ensures GCandidate(p, q, h) == GCandidate(p, q, h % p)
  {
    DivNonnegative(p - 1, q);
    PowMod(h, (p - 1) / q, p);
    ModIdem(h, p);
    hide Pow;
  }

  lemma ZeroCandidate(p: nat, q: nat)
    requires p > 1 && q > 0
    ensures GCandidate(p, q, 0) <= 1
  {
    DivNonnegative(p - 1, q);
    PowOfZero((p - 1) / q);
    DivModUnique(0, p, 0, 0);
    DivModUnique(1, p, 0, 1);
    hide Pow;
  }

  lemma PowOfZero(n: nat)
    ensures Pow(0, n) == if n == 0 then 1 else 0
  { }

  /** The first h that does is below p. */
  lemma LeastBelow(p: nat, q: nat, h: nat)
    requires p > 1 && q > 0 && h > 0 && GCandidate(p, q, h) > 1
    requires forall j :: 1 <= j < h ==> GCandidate(p, q, j) <= 1
    ensures h < p
  {
    if h >= p {
      CandidatePeriod(p, q, h);
      ZeroCandidate(p, q);
      hide GCandidate;
    }
  }

  /**
   getg: g is the power of the least h for which it exceeds 1. `rounds` is how many rounds of the loop
   are looked at: None is a loop that goes on.
   */
  method GetG(p: nat, q: nat, rounds: nat) returns (g: Option<nat>)
    requires p > 1 && q > 0
    ensures g.None? ==> forall j :: 1 <= j <= rounds ==> GCandidate(p, q, j) <= 1
    ensures g.Some? ==> 1 < g.value < p
    ensures g.Some? ==> exists h: nat :: 1 <= h < p && g.value == GCandidate(p, q, h)
                                         && forall j :: 1 <= j < h ==> GCandidate(p, q, j) <= 1
    ensures g.Some? && Fermat(p) && (p - 1) % q == 0 ==> ExptMod(g.value, q, p) == 1
  {
    hide ExptMod;
    var val := p - 1;
    DivNonnegative(val, q);
    var div := val / q;
    var h := 1;
    while h <= rounds
      invariant 1 <= h <= rounds + 1
      invariant forall j :: 1 <= j < h ==> GCandidate(p, q, j) <= 1
    {
      var power := ExptMod(h, div, p);
      assert power == GCandidate(p, q, h);
      if power > 1 {
        LeastBelow(p, q, h);
        ExptBelow(h, div, p);
        if Fermat(p) && (p - 1) % q == 0 { GeneratorOrder(p, q, h); }
        return Some(power);
      }
      h := h + 1;
    }
    return None;
  }

  lemma ExptBelow(b: int, e: nat, m: nat)
    requires m > 0
    ensures ExptMod(b, e, m) < m
  { }

  /**
   gen_dss_priv_key after getq and getx: with a p for which Fermat's theorem holds, a sound key of the documented
   shape.
   */
  method GenDssPrivKey(q: nat, size: nat, supply: seq<seq<byte>>, isPrime: nat -> bool, rounds: nat, x: nat)
    returns (key: Option<Key>)
    requires q > 0 && size > 0 && forall i :: 0 <= i < |supply| ==> |supply[i]| == size
    ensures key.Some? ==> key.value.q == q && isPrime(key.value.p) && OneMod2q(key.value.p, q)
    ensures key.Some? && Fermat(key.value.p) ==> Sound(key.value, x)
  {
    hide Exp2, ExptMod, GCandidate, Fermat;
    var p := GetP(q, size, supply, isPrime);
    if p.None? || p.value <= 1 { return None; }  // 1 is no prime
    var g := GetG(p.value, q, rounds);
    if g.None? { return None; }
    DivModUnique(1, p.value, 0, 1);
    var y := ExptMod(g.value, x, p.value);
    return Some(Key(p.value, q, g.value, y));
  }

  /**
   Signatures made with a generated key verify, unless s is 0: from the shape of p and g to the 40 bytes read back.
   */
  lemma GeneratedKeyVerifies(p: nat, q: nat, seed: nat, x: nat, h: nat, k: nat, r: nat, s: nat, rest: seq<byte>)
    requires Fermat(p) && Fermat(q) && OneMod2q(p, q) && q <= Exp2(160) && 0 < seed < p && 0 < k < q
    requires var g := GCandidate(p, q, seed); Signs(Key(p, q, g, ExptMod(g, x, p)), x, h, k, r, s)
    ensures |Unsigned(r)| <= SHA1_HASH_SIZE && |Unsigned(s)| <= SHA1_HASH_SIZE
    ensures ReadString(StringWire(Blob(r, s)) + rest) == Parsed(Blob(r, s), rest)
    ensures var g := GCandidate(p, q, seed);
            VerifiesBlob(Key(p, q, g, ExptMod(g, x, p)), h, Blob(r, s)) <==> s != 0
  {
    var g := GCandidate(p, q, seed);
    var key := Key(p, q, g, ExptMod(g, x, p));
    GeneratorOrder(p, q, seed);
    DivModUnique(1, p, 0, 1);
    hide Exp2, ExptMod, GCandidate, Signs, OneMod2q, VerifiesBlob, Unsigned;
    assert Sound(key, x);
    DivModUnique(k, q, 0, k);
    FermatInvertible(k, q);
    SignThenVerify(key, x, h, k, r, s, rest);
    SignatureAccepted(key, x, h, k, r, s);
    SignatureAcceptedPrime(key, x, h, k, r, s);
  }
}
