/** ssh-dss signatures in a buffer. */
module Dss {
  import opened Bytes
  import opened Bits
  import opened ModArith
  import opened Wire
  import opened Buffer
  import opened DssMath

  const SHA1_HASH_SIZE := 20

  /** "ssh-dss". */
  const SSH_SIGNKEY_DSS: seq<byte> := [0x73, 0x73, 0x68, 0x2d, 0x64, 0x73, 0x73]

  // ----- fixed-width numbers -----

  function Padded(m: nat, n: nat): (s: seq<byte>)
    requires |Unsigned(m)| <= n
    ensures |s| == n
  {
    Zeros(n - |Unsigned(m)|) + Unsigned(m)
  }

  lemma PaddedValue(m: nat, n: nat)
    requires |Unsigned(m)| <= n
    ensures BigEndian(Padded(m, n)) == m
  {
    LeadingZeros(n - |Unsigned(m)|, Unsigned(m));
    BigEndianUnsigned(m);
  }

  /** The blob of a signature: r and s in 20 bytes each. */
  function Blob(r: nat, s: nat): (b: seq<byte>)
    requires |Unsigned(r)| <= SHA1_HASH_SIZE && |Unsigned(s)| <= SHA1_HASH_SIZE
    ensures |b| == 2 * SHA1_HASH_SIZE
  {
    Padded(r, SHA1_HASH_SIZE) + Padded(s, SHA1_HASH_SIZE)
  }

  lemma BlobValues(r: nat, s: nat)
    requires |Unsigned(r)| <= SHA1_HASH_SIZE && |Unsigned(s)| <= SHA1_HASH_SIZE
    ensures BigEndian(Blob(r, s)[..SHA1_HASH_SIZE]) == r && BigEndian(Blob(r, s)[SHA1_HASH_SIZE..]) == s
  {
    PaddedValue(r, SHA1_HASH_SIZE);
    PaddedValue(s, SHA1_HASH_SIZE);
    assert Blob(r, s)[..SHA1_HASH_SIZE] == Padded(r, SHA1_HASH_SIZE);
    assert Blob(r, s)[SHA1_HASH_SIZE..] == Padded(s, SHA1_HASH_SIZE);
  }

  lemma Narrower(r: nat, q: nat, n: nat)
    requires r <= q && |Unsigned(q)| <= n
    ensures |Unsigned(r)| <= n
  {
    UnsignedFits(r, n);
    UnsignedFits(q, n);
  }

  // ----- verification -----

  ghost predicate VerifiesBlob(key: Key, h: nat, blob: seq<byte>) {
    && |blob| == 2 * SHA1_HASH_SIZE
    && Accepts(key, h, BigEndian(blob[..SHA1_HASH_SIZE]), BigEndian(blob[SHA1_HASH_SIZE..]))
  }

  /** mp_invmod: MP_OKAY exactly when there is an inverse. */
  method MpInvmod(a: nat, m: nat) returns (ok: bool, w: nat)
    ensures ok <==> Invertible(a, m)
    ensures ok ==> IsInverse(a, m, w)
  {
    w := 0;
    while w < m && (a * w) % m != 1 % m
      invariant w <= m
      invariant forall v: nat :: v < w ==> !IsInverse(a, m, v)
    {
      w := w + 1;
    }
    assert w < m ==> IsInverse(a, m, w);
    return w < m, w;
  }

  /** buf_dss_verify: exit when the blob cannot be read; otherwise ok is DROPBEAR_SUCCESS. */
  method BufDssVerify(buf: Buf, key: Key, msghash: seq<byte>) returns (exit: bool, ok: bool)
    requires buf.Valid()
    modifies buf`pos
    ensures exit <==> !ReadString(old(buf.Rest())).Parsed?
    ensures !exit ==> (ok <==> VerifiesBlob(key, BigEndian(msghash), ReadString(old(buf.Rest())).value))
  {
    ok := false;
    var got, str := buf.GetString();
    if !got { return true, false; }
    exit := false;
    if |str| != 2 * SHA1_HASH_SIZE { return; }
    ok := VerifyNumbers(key, BigEndian(msghash), BigEndian(str[..SHA1_HASH_SIZE]), BigEndian(str[SHA1_HASH_SIZE..]));
  }

  /** The arithmetic of buf_dss_verify, on the numbers of the blob and of the hash. */
  method VerifyNumbers(key: Key, h: nat, r: nat, s: nat) returns (ok: bool)
    ensures ok <==> Accepts(key, h, r, s)
  {
    hide ExptMod, Pow;
    var val1, val2, val3, val4 := s, 0, 0, 0;
    if val1 >= key.q { return false; }
    ok, val2 := MpInvmod(val1, key.q);
    if !ok { return; }
    ghost var w := val2;
    val1 := h;
    val3 := (val1 * val2) % key.q;
    val1 := r;
    if val1 >= key.q { return false; }
    val4 := (val1 * val2) % key.q;
    if key.p == 0 { return false; }
    val2 := ExptMod(key.g, val3, key.p);
    val3 := ExptMod(key.y, val4, key.p);
    val4 := (val2 * val3) % key.p;
    val2 := val4 % key.q;
    ok := val2 == val1;
    assert val2 == CheckValue(key, h, r, w);
    AcceptsBy(key, h, r, s, w);
  }

  /** The inverse of s is unique, so the check does not depend on which one is found. */
  lemma AcceptsBy(key: Key, h: nat, r: nat, s: nat, w: nat)
    requires key.p > 0 && r < key.q && s < key.q && IsInverse(s, key.q, w)
    ensures Accepts(key, h, r, s) <==> CheckValue(key, h, r, w) == r
  {
    hide CheckValue;
    if Accepts(key, h, r, s) {
      var v: nat :| IsInverse(s, key.q, v) && CheckValue(key, h, r, v) == r;
      InverseUnique(s, key.q, v, w);
    }
  }

  // ----- signing -----

  /** The arithmetic of buf_put_dss_sign for a nonce 0 < k < q; it fails exactly when p is 0 or k has no inverse. */
  method SignNumbers(key: Key, x: nat, h: nat, k: nat) returns (ok: bool, r: nat, s: nat)
    requires 0 < k < key.q
    ensures ok <==> key.p > 0 && Invertible(k, key.q)
    ensures ok ==> Signs(key, x, h, k, r, s) && r < key.q
  {
    hide ExptMod, Pow;
    r, s := 0, 0;
    if key.p == 0 { return false, r, s; }
    var temp1, temp2;
    temp1 := ExptMod(key.g, k, key.p);
    r := temp1 % key.q;
    temp1 := (r * x) % key.q;
    temp2 := (h + temp1) % key.q;
    ok, temp1 := MpInvmod(k, key.q);
    if !ok { return; }
    s := (temp1 * temp2) % key.q;
    SigningEquation(key.q, x, h, k, r, temp1);
  }

  /** s = k^-1 (h + x r) solves k s = h + x r. */
  lemma SigningEquation(q: nat, x: nat, h: nat, k: nat, r: nat, w: nat)
    requires q > 0 && IsInverse(k, q, w)
    ensures (k * ((w * ((h + (r * x) % q) % q)) % q)) % q == (h + x * r) % q
  {
    var t := (h + (r * x) % q) % q;
    ModIdem(r * x, q);
    CongAdd(h, h, (r * x) % q, x * r, q);
    ModIdem(h + (r * x) % q, q);
    ModIdem(w * t, q);
    CongMul((w * t) % q, w * t, k, q);
    Rotate(k, w, t);
    CongMul(k * w, 1, t, q);
  }

  /** The loop that pads with zeros. */
  method PutZeros(buf: Buf, n: u32) returns (ok: bool)
    requires buf.Valid()
    modifies buf`pos, buf`len, buf.data
    ensures buf.Valid() && (ok <==> old(buf.pos) + n <= buf.size)
    ensures ok ==> buf.Written() == old(buf.Written()) + Zeros(n)
    ensures ok ==> buf.pos == old(buf.pos) + n
  {
    ok := true;
    var i := 0;
    while i < n && ok
      invariant i <= n && buf.Valid()
      invariant ok ==> buf.pos == old(buf.pos) + i && buf.Written() == old(buf.Written()) + Zeros(i)
      invariant !ok ==> old(buf.pos) + n > buf.size
    {
      ok := buf.PutByte(0);
      i := i + 1;
      assert Zeros(i - 1) + [0] == Zeros(i);
    }
  }

  /**
   One of the two padded numbers; the padding is computed in 32 bits, so a number over 20 bytes overruns the buffer.
   */
  method PutPaddedNumber(buf: Buf, m: nat) returns (ok: bool)
    requires buf.Valid() && |Unsigned(m)| <= BUF_MAX_MPINT
    modifies buf`pos, buf`len, buf.data
    ensures buf.Valid()
    ensures ok <==> |Unsigned(m)| <= SHA1_HASH_SIZE && old(buf.pos) + SHA1_HASH_SIZE <= buf.size
    ensures ok ==> buf.Written() == old(buf.Written()) + Padded(m, SHA1_HASH_SIZE)
    ensures ok ==> buf.pos == old(buf.pos) + SHA1_HASH_SIZE
  {
    hide Unsigned, Zeros;
    ok := PutZeros(buf, U32(SHA1_HASH_SIZE - |Unsigned(m)|));
    if !ok { return; }
    ok := buf.PutBytes(Unsigned(m));
  }

  /** buf_put_dss_sign, with the nonce that gen_random_mpint chose; ok is false where the program ends. */
  method BufPutDssSign(buf: Buf, key: Key, x: nat, msghash: seq<byte>, k: nat)
    returns (ok: bool, r: nat, s: nat)
    requires buf.Valid() && 0 < k < key.q && |Unsigned(key.q)| <= BUF_MAX_MPINT
    modifies buf`pos, buf`len, buf.data
    ensures ok ==> key.p > 0 && Invertible(k, key.q) && Signs(key, x, BigEndian(msghash), k, r, s)
    ensures ok ==> buf.Valid() && |Unsigned(r)| <= SHA1_HASH_SIZE && |Unsigned(s)| <= SHA1_HASH_SIZE
    ensures ok ==> buf.Written() == old(buf.Written()) + (StringWire(SSH_SIGNKEY_DSS) + StringWire(Blob(r, s)))
    ensures ok || key.p == 0 || !Invertible(k, key.q) || |Unsigned(key.q)| > SHA1_HASH_SIZE
            || old(buf.pos) + 55 > buf.size
  {
    hide Signs, Invertible, Unsigned, BigEndian;
    ok, r, s := SignNumbers(key, x, BigEndian(msghash), k);
    if !ok { return; }
    SignedSizes(key, x, BigEndian(msghash), k, r, s);
    ok := PutSignature(buf, r, s);
  }

  lemma SignedSizes(key: Key, x: nat, h: nat, k: nat, r: nat, s: nat)
    requires key.p > 0 && key.q > 0 && Signs(key, x, h, k, r, s) && |Unsigned(key.q)| <= BUF_MAX_MPINT
    ensures |Unsigned(r)| <= |Unsigned(key.q)| && |Unsigned(s)| <= |Unsigned(key.q)|
  {
    Narrower(r, key.q, |Unsigned(key.q)|);
    Narrower(s, key.q, |Unsigned(key.q)|);
  }

  /** The second half of buf_put_dss_sign. */
  method PutSignature(buf: Buf, r: nat, s: nat) returns (ok: bool)
    requires buf.Valid() && |Unsigned(r)| <= BUF_MAX_MPINT && |Unsigned(s)| <= BUF_MAX_MPINT
    modifies buf`pos, buf`len, buf.data
    ensures ok ==> buf.Valid() && |Unsigned(r)| <= SHA1_HASH_SIZE && |Unsigned(s)| <= SHA1_HASH_SIZE
    ensures ok ==> buf.Written() == old(buf.Written()) + (StringWire(SSH_SIGNKEY_DSS) + StringWire(Blob(r, s)))
    ensures |Unsigned(r)| <= SHA1_HASH_SIZE && |Unsigned(s)| <= SHA1_HASH_SIZE && old(buf.pos) + 55 <= buf.size ==> ok
  {
    hide Unsigned, U32Wire, Padded;
    ok := buf.PutString(SSH_SIGNKEY_DSS);
    if !ok { return; }
    ok := buf.PutInt(2 * SHA1_HASH_SIZE);
    if !ok { return; }
    ok := PutPaddedNumber(buf, r);
    if !ok { return; }
    ok := PutPaddedNumber(buf, s);
  }

  // ----- the two together -----

  /** What was signed is verified: exactly when h + x * r has an inverse modulo q. */
  lemma SignThenVerify(key: Key, x: nat, h: nat, k: nat, r: nat, s: nat, rest: seq<byte>)
    requires Sound(key, x) && Signs(key, x, h, k, r, s) && Invertible(k, key.q) && key.q <= Exp2(160)
    ensures |Unsigned(r)| <= SHA1_HASH_SIZE && |Unsigned(s)| <= SHA1_HASH_SIZE
    ensures ReadString(StringWire(Blob(r, s)) + rest) == Parsed(Blob(r, s), rest)
    ensures VerifiesBlob(key, h, Blob(r, s)) <==> Invertible(h + x * r, key.q)
  {
    SignedNarrow(key, x, h, k, r, s);
    hide Exp2, Unsigned;
    StringRoundTrip(Blob(r, s), rest);
    BlobValues(r, s);
    SignatureAccepted(key, x, h, k, r, s);
    hide Invertible, Accepts, Blob, Signs;
  }

  lemma SignedNarrow(key: Key, x: nat, h: nat, k: nat, r: nat, s: nat)
    requires key.p > 0 && 0 < key.q <= Exp2(160) && Signs(key, x, h, k, r, s)
    ensures |Unsigned(r)| <= SHA1_HASH_SIZE && |Unsigned(s)| <= SHA1_HASH_SIZE
  {
    hide Exp2;
    assert r < key.q && s < key.q by { hide ExptMod; }
    UnsignedFits(r, SHA1_HASH_SIZE);
    UnsignedFits(s, SHA1_HASH_SIZE);
  }
}
