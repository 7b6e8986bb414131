/** The exchange hash's transcript and the shared secret (section 8 of RFC 4253). */
module KexHash {
  import opened Bytes
  import opened Bits
  import opened ModArith
  import opened Wire
  import opened Buffer
  import opened DssMath
  import opened DssKey

  const KEXHASHBUF_MAX_INTS := 1700 + 130 + 130 + 130

  /** The packet header, which the received payload's buffer still holds and its length includes. */
  const PACKET_PAYLOAD_OFF := 5

  /** What kexhashbuf holds beyond the four strings themselves. */
  const ALLOWANCE := KEXHASHBUF_MAX_INTS + PACKET_PAYLOAD_OFF

  /** The fields that are hashed, named as in the RFC. */
  datatype Fields = Fields(vC: seq<byte>, vS: seq<byte>, iC: seq<byte>, iS: seq<byte>, kS: seq<byte>, e: nat, f: nat,
    k: nat)

  predicate Hashable(t: Fields) {
    && |t.vC| < U32_LIMIT && |t.vS| < U32_LIMIT && |t.iC| < U32_LIMIT && |t.iS| < U32_LIMIT && |t.kS| < U32_LIMIT
    && MpintFits(t.e) && MpintFits(t.f) && MpintFits(t.k)
  }

  /** V_C, V_S, I_C, I_S. */
  function Head(vC: seq<byte>, vS: seq<byte>, iC: seq<byte>, iS: seq<byte>): seq<byte>
    requires |vC| < U32_LIMIT && |vS| < U32_LIMIT && |iC| < U32_LIMIT && |iS| < U32_LIMIT
  {
    StringWire(vC) + (StringWire(vS) + (StringWire(iC) + StringWire(iS)))
  }

  /** K_S, e, f, K. */
  function Tail(kS: seq<byte>, e: nat, f: nat, k: nat): seq<byte>
    requires |kS| < U32_LIMIT && MpintFits(e) && MpintFits(f) && MpintFits(k)
  {
    StringWire(kS) + (MpintWire(e) + (MpintWire(f) + MpintWire(k)))
  }

  function Transcript(t: Fields): seq<byte>
    requires Hashable(t)
  {
    Head(t.vC, t.vS, t.iC, t.iS) + Tail(t.kS, t.e, t.f, t.k)
  }

  // ----- nothing is lost -----

  lemma HeadInjective(t: Fields, u: Fields, x: seq<byte>, y: seq<byte>)
    requires Hashable(t) && Hashable(u)
    requires Head(t.vC, t.vS, t.iC, t.iS) + x == Head(u.vC, u.vS, u.iC, u.iS) + y
    ensures t.vC == u.vC && t.vS == u.vS && t.iC == u.iC && t.iS == u.iS && x == y
  {
    hide StringWire, MpintFits;
    var a1, a2, a3, a4 := StringWire(t.vC), StringWire(t.vS), StringWire(t.iC), StringWire(t.iS);
    var b1, b2, b3, b4 := StringWire(u.vC), StringWire(u.vS), StringWire(u.iC), StringWire(u.iS);
    Regrouped(a1, a2, a3, a4, x);
    Regrouped(b1, b2, b3, b4, y);
    StringPrefixFree(t.vC, a2 + (a3 + (a4 + x)), u.vC, b2 + (b3 + (b4 + y)));
    StringPrefixFree(t.vS, a3 + (a4 + x), u.vS, b3 + (b4 + y));
    StringPrefixFree(t.iC, a4 + x, u.iC, b4 + y);
    StringPrefixFree(t.iS, x, u.iS, y);
  }

  lemma Regrouped(a: seq<byte>, b: seq<byte>, c: seq<byte>, d: seq<byte>, x: seq<byte>)
    ensures (a + (b + (c + d))) + x == a + (b + (c + (d + x)))
  { }

  lemma TailInjective(t: Fields, u: Fields)
    requires Hashable(t) && Hashable(u) && Tail(t.kS, t.e, t.f, t.k) == Tail(u.kS, u.e, u.f, u.k)
    ensures t.kS == u.kS && t.e == u.e && t.f == u.f && t.k == u.k
  {
    hide StringWire, MpintFits, MpintWire;
    var a2, a3, a4 := MpintWire(t.e), MpintWire(t.f), MpintWire(t.k);
    var b2, b3, b4 := MpintWire(u.e), MpintWire(u.f), MpintWire(u.k);
    StringPrefixFree(t.kS, a2 + (a3 + a4), u.kS, b2 + (b3 + b4));
    MpintPrefixFree(t.e, a3 + a4, u.e, b3 + b4);
    MpintPrefixFree(t.f, a4, u.f, b4);
    assert a4 + [] == b4 + [];
    MpintPrefixFree(t.k, [], u.k, []);
  }

  /** Equal transcripts come from equal fields: the exchange hash binds every one of them. */
  lemma TranscriptInjective(t: Fields, u: Fields)
    requires Hashable(t) && Hashable(u) && Transcript(t) == Transcript(u)
    ensures t == u
  {
    hide Head, Tail;
    HeadInjective(t, u, Tail(t.kS, t.e, t.f, t.k), Tail(u.kS, u.e, u.f, u.k));
    TailInjective(t, u);
  }

  // ----- each side writes it -----

  /** V_C, V_S, I_C, I_S from one side's point of view. */
  function SideHead(server: bool, local: seq<byte>, remote: seq<byte>, sent: seq<byte>, received: seq<byte>): seq<byte>
    requires |local| < U32_LIMIT && |remote| < U32_LIMIT && |sent| < U32_LIMIT && |received| < U32_LIMIT
  {
    if server then Head(remote, local, received, sent) else Head(local, remote, sent, received)
  }

  /** recv_msg_kexinit: the local and the remote half of each pair, in the client's and the server's order. */
  method StartTranscript(buf: Buf, server: bool, local: seq<byte>, remote: seq<byte>, transkexinit: seq<byte>,
                         payload: seq<byte>)
    returns (ok: bool)
    requires buf.Valid() && |local| < U32_LIMIT && |remote| < U32_LIMIT && |transkexinit| < U32_LIMIT
             && |payload| < U32_LIMIT
    modifies buf`pos, buf`len, buf.data
    ensures buf.Valid()
    ensures ok <==> old(buf.pos) + 16 + |local| + |remote| + |transkexinit| + |payload| <= buf.size
    ensures ok ==> buf.pos == old(buf.pos) + 16 + |local| + |remote| + |transkexinit| + |payload|
    ensures ok ==> buf.Written() == old(buf.Written()) + SideHead(server, local, remote, transkexinit, payload)
    ensures ok ==> buf.len == if buf.pos > old(buf.len) then buf.pos else old(buf.len)
  {
    hide U32Wire;
    if !server {
      ok := PutTwo(buf, local, remote);
      if !ok { return; }
      ok := PutTwo(buf, transkexinit, payload);
    } else {
      ok := PutTwo(buf, remote, local);
      if !ok { return; }
      ok := PutTwo(buf, payload, transkexinit);
    }
  }

  method PutTwo(buf: Buf, a: seq<byte>, b: seq<byte>) returns (ok: bool)
    requires buf.Valid() && |a| < U32_LIMIT && |b| < U32_LIMIT
    modifies buf`pos, buf`len, buf.data
    ensures buf.Valid()
    ensures ok <==> old(buf.pos) + 8 + |a| + |b| <= buf.size
    ensures ok ==> buf.pos == old(buf.pos) + 8 + |a| + |b|
    ensures ok ==> buf.Written() == old(buf.Written()) + (StringWire(a) + StringWire(b))
    ensures ok ==> buf.len == if buf.pos > old(buf.len) then buf.pos else old(buf.len)
  {
    hide U32Wire;
    ok := buf.PutString(a);
    if !ok { return; }
    ok := buf.PutString(b);
  }

  /** K_S, e, f, K with this side's value and the peer's in the client's and the server's order. */
  function SideTail(server: bool, kS: seq<byte>, pub: nat, them: nat, k: nat): seq<byte>
    requires |kS| < U32_LIMIT && MpintFits(pub) && MpintFits(them) && MpintFits(k)
  {
    if server then Tail(kS, them, pub, k) else Tail(kS, pub, them, k)
  }

  /**
   kexdh_comb_key: the peer's value must lie in [2, p - 2]; the secret is its power, and the rest of the
   transcript is written with the client's value first. The buffer was sized by KEXHASHBUF_MAX_INTS.
   */
  method KexdhCombKey(buf: Buf, server: bool, p: nat, priv: nat, pub: nat, them: nat, hostkey: seq<byte>)
    returns (ok: bool, k: nat)
    requires buf.Valid() && |hostkey| < U32_LIMIT && MpintFits(p) && MpintFits(pub)
    modifies buf`pos, buf`len, buf.data
    ensures buf.Valid()
    ensures 1 < them < p - 1 ==>
              && MpintFits(them) && MpintFits(k) && k == ExptMod(them, priv, p)
              && (ok <==> old(buf.pos) + |SideTail(server, hostkey, pub, them, k)| <= buf.size)
              && (ok ==> buf.Written() == old(buf.Written()) + SideTail(server, hostkey, pub, them, k))
    ensures !(1 < them < p - 1) ==> !ok
    ensures ok ==> buf.len == if buf.pos > old(buf.len) then buf.pos else old(buf.len)
  {
    hide MpintWire, MpintFits, Pow, U32Wire;
    k := 0;
    if them >= p - 1 || them <= 1 {
      return false, k;
    }
    k := ExptMod(them, priv, p);
    FitsBelow(them, p);
    FitsBelow(k, p);
    var dhE := if server then them else pub;
    var dhF := if server then pub else them;
    ok := buf.PutString(hostkey);
    if !ok { return; }
    ok := PutNumber(buf, dhE);
    if !ok { return; }
    ok := PutNumbers(buf, dhF, k);
  }

  /** A smaller number needs no more bytes. */
  lemma FitsBelow(m: nat, n: nat)
    requires MpintFits(n) && m <= n
    ensures MpintFits(m)
  {
    MpintLength(m);
    MpintLength(n);
    BitCountFits(m, BitCount(n));
    BitCountFits(n, BitCount(n));
    hide BitCount;
  }

  /**
   With a group of 2048 bits, the room that recv_msg_kexinit leaves is enough for host keys up to 1292 bytes,
   and for values that use all 2048 bits it is not enough for any longer one.
   */
  lemma RoomForGroup14(kS: seq<byte>, e: nat, f: nat, k: nat)
    requires |kS| < U32_LIMIT && e < Exp2(2048) && f < Exp2(2048) && k < Exp2(2048)
    ensures MpintFits(e) && MpintFits(f) && MpintFits(k)
    ensures |kS| <= 1292 ==> 16 + |Tail(kS, e, f, k)| <= ALLOWANCE
    ensures BitCount(e) == BitCount(f) == BitCount(k) == 2048 && |kS| > 1292 ==> 16 + |Tail(kS, e, f, k)| > ALLOWANCE
  {
    hide Exp2, MpintBytes, BitCount;
    MpintLength(e);
    MpintLength(f);
    MpintLength(k);
    BitCountFits(e, 2048);
    BitCountFits(f, 2048);
    BitCountFits(k, 2048);
  }

  // ----- both sides write the same -----

  /** Both powers are the same secret. */
  lemma SecretsEqual(g: nat, p: nat, x: nat, y: nat)
    requires p > 0
    ensures ExptMod(ExptMod(g, y, p), x, p) == ExptMod(ExptMod(g, x, p), y, p)
  {
    PowMod(Pow(g, y), x, p);
    PowMod(Pow(g, x), y, p);
    PowMul(g, y, x);
    PowMul(g, x, y);
    assert x * y == y * x;
  }

  /** What one side knows when it hashes. */
  datatype Knowledge = Knowledge(local: seq<byte>, remote: seq<byte>, sent: seq<byte>, received: seq<byte>,
                                 hostkey: seq<byte>, pub: nat, them: nat)

  predicate Sized(w: Knowledge) {
    && |w.local| < U32_LIMIT && |w.remote| < U32_LIMIT && |w.sent| < U32_LIMIT && |w.received| < U32_LIMIT
    && |w.hostkey| < U32_LIMIT && MpintFits(w.pub) && MpintFits(w.them)
  }

  /** The bytes one side writes into kexhashbuf. */
  function SideTranscript(server: bool, w: Knowledge, k: nat): seq<byte>
    requires Sized(w) && MpintFits(k)
  {
    SideHead(server, w.local, w.remote, w.sent, w.received) + SideTail(server, w.hostkey, w.pub, w.them, k)
  }

  /** The same exchange as the other side knows it: what one sent the other received. */
  function Mirrored(w: Knowledge): Knowledge {
    Knowledge(w.remote, w.local, w.received, w.sent, w.hostkey, w.them, w.pub)
  }

  /** Both sides write the transcript of the RFC, byte for byte. */
  lemma TranscriptsAgree(w: Knowledge, k: nat)
    requires Sized(w) && MpintFits(k)
    ensures SideTranscript(false, w, k) == SideTranscript(true, Mirrored(w), k)
         == Transcript(Fields(w.local, w.remote, w.sent, w.received, w.hostkey, w.pub, w.them, k))
    ensures SideTranscript(false, w, k) ==
            StringWire(w.local) + StringWire(w.remote) + StringWire(w.sent) + StringWire(w.received) +
            StringWire(w.hostkey) + MpintWire(w.pub) + MpintWire(w.them) + MpintWire(k)
  {
    hide StringWire, MpintWire, MpintFits;
  }

  /** The size of kexhashbuf, computed in 32 bits; the received payload counts with its header. */
  function BufferSize(w: Knowledge): u32 {
    U32(|w.local| + |w.remote| + |w.sent| + (PACKET_PAYLOAD_OFF + |w.received|) + KEXHASHBUF_MAX_INTS)
  }

  /**
   The transcript of one side from recv_msg_kexinit to finish_kexhashbuf, for the group p: k is the secret and
   h the hash of what was written. It fails for a bad value of the peer, and when the rest exceeds its allowance.
   */
  method ExchangeHash(server: bool, w: Knowledge, p: nat, priv: nat, hash: seq<byte> -> seq<byte>)
    returns (ok: bool, k: nat, h: seq<byte>)
    requires Sized(w) && MpintFits(p)
    ensures ok ==> 1 < w.them < p - 1 && k == ExptMod(w.them, priv, p) && MpintFits(k)
    ensures ok ==> h == hash(SideTranscript(server, w, k))
    ensures 1 < w.them < p - 1 && |w.local| + |w.remote| + |w.sent| + |w.received| + ALLOWANCE <= BUF_MAX_SIZE ==>
              && MpintFits(k) && k == ExptMod(w.them, priv, p)
              && (ok <==> 16 + |SideTail(server, w.hostkey, w.pub, w.them, k)| <= ALLOWANCE)
  {
    hide SideHead, SideTail, MpintFits, Pow, ExptMod;
    k, h := 0, [];
    FitsPower(w.them, priv, p);
    var buf := Buf.New(BufferSize(w));
    if buf == null {
      k := if p > 0 then ExptMod(w.them, priv, p) else 0;
      return false, k, h;
    }
    assert buf.Written() == [];
    ok := StartTranscript(buf, server, w.local, w.remote, w.sent, w.received);
    ghost var head := SideHead(server, w.local, w.remote, w.sent, w.received);
    assert [] + head == head;
    if !ok {
      k := if p > 0 then ExptMod(w.them, priv, p) else 0;
      return;
    }
    ok, k := KexdhCombKey(buf, server, p, priv, w.pub, w.them, w.hostkey);
    if ok {
      assert buf.len == buf.pos;
      h := hash(buf.data[..buf.len]);
    }
  }

  lemma FitsPower(b: nat, e: nat, p: nat)
    requires MpintFits(p)
    ensures p > 0 ==> MpintFits(ExptMod(b, e, p))
  {
    hide MpintFits;
    if p > 0 { FitsBelow(ExptMod(b, e, p), p); }
  }
}
