/** ssh-dss keys in a buffer. */
module DssKey {
  import opened Bytes
  import opened Bits
  import opened Wire
  import opened Buffer
  import opened DssMath
  import opened Dss

  const MIN_DSS_KEYLEN := 512

  predicate KeyFits(key: Key) {
    MpintFits(key.p) && MpintFits(key.q) && MpintFits(key.g) && MpintFits(key.y)
  }

  /** The format buf_put_dss_pub_key documents. */
  function PubKeyWire(key: Key): seq<byte>
    requires KeyFits(key)
  {
    StringWire(SSH_SIGNKEY_DSS) + ((MpintWire(key.p) + MpintWire(key.q)) + (MpintWire(key.g) + MpintWire(key.y)))
  }

  /** The four numbers of a key, one after the other. */
  function ReadNumbers(s: seq<byte>): Parsed<Key> {
    match ReadMpint(s)
    case Refused => Refused
    case Exited => Exited
    case Parsed(p, s1) =>
      match ReadMpint(s1)
      case Refused => Refused
      case Exited => Exited
      case Parsed(q, s2) =>
        match ReadMpint(s2)
        case Refused => Refused
        case Exited => Exited
        case Parsed(g, s3) =>
          match ReadMpint(s3)
          case Refused => Refused
          case Exited => Exited
          case Parsed(y, s4) => Parsed(Key(p, q, g, y), s4)
  }

  /** buf_get_dss_pub_key: the name is skipped without a look, and p must be long enough. */
  function ReadPubKey(s: seq<byte>): Parsed<Key> {
    if |s| < 4 + |SSH_SIGNKEY_DSS| then Exited
    else
      var r := ReadNumbers(s[4 + |SSH_SIGNKEY_DSS|..]);
      if r.Parsed? && BitCount(r.value.p) < MIN_DSS_KEYLEN then Refused else r
  }

  predicate Readable(m: nat) {
    m < Exp2(8239)
  }

  lemma NumbersRoundTrip(key: Key, x: seq<byte>)
    requires KeyFits(key)
    ensures ReadNumbers(MpintWire(key.p) + (MpintWire(key.q) + (MpintWire(key.g) + (MpintWire(key.y) + x)))) ==
            if Readable(key.p) && Readable(key.q) && Readable(key.g) && Readable(key.y) then Parsed(key, x) else Refused
  {
    var s3 := MpintWire(key.y) + x;
    var s2 := MpintWire(key.g) + s3;
    var s1 := MpintWire(key.q) + s2;
    MpintRoundTrip(key.p, s1);
    MpintRoundTrip(key.q, s2);
    MpintRoundTrip(key.g, s3);
    MpintRoundTrip(key.y, x);
    hide Exp2, ReadMpint, MpintWire, MpintFits;
  }

  /** A written key is read back, unless a number is too large or p too short. */
  lemma KeyRoundTrip(key: Key, x: seq<byte>)
    requires KeyFits(key)
    ensures ReadPubKey(PubKeyWire(key) + x) ==
            if Readable(key.p) && Readable(key.q) && Readable(key.g) && Readable(key.y)
              && key.p >= Exp2(MIN_DSS_KEYLEN - 1)
            then Parsed(key, x) else Refused
  {
    hide Exp2, BitCount, U32Wire, MpintWire, ReadNumbers, Readable;
    var name := StringWire(SSH_SIGNKEY_DSS);
    var p, q, g, y := MpintWire(key.p), MpintWire(key.q), MpintWire(key.g), MpintWire(key.y);
    var s := PubKeyWire(key) + x;
    Regroup(p, q, g, y, x);
    assert s == name + (p + (q + (g + (y + x))));
    assert s[4 + |SSH_SIGNKEY_DSS|..] == p + (q + (g + (y + x)));
    NumbersRoundTrip(key, x);
    BitCountFits(key.p, MIN_DSS_KEYLEN - 1);
  }

  lemma Regroup(p: seq<byte>, q: seq<byte>, g: seq<byte>, y: seq<byte>, x: seq<byte>)
    ensures ((p + q) + (g + y)) + x == p + (q + (g + (y + x)))
  { }

  function Number(m: nat): (b: Bignum)
    ensures Clamped(b) && b.magnitude == m && !b.negative
  {
    Bignum(false, if m == 0 then 0 else 1, m)
  }

  method BufPutDssPubKey(buf: Buf, key: Key) returns (ok: bool)
    requires buf.Valid() && KeyFits(key)
    modifies buf`pos, buf`len, buf.data
    ensures ok <==> old(buf.pos) + |PubKeyWire(key)| <= buf.size
    ensures ok ==> buf.Valid() && buf.Written() == old(buf.Written()) + PubKeyWire(key)
    ensures ok ==> buf.Written() == old(buf.Written()) + StringWire(SSH_SIGNKEY_DSS) + MpintWire(key.p)
                                    + MpintWire(key.q) + MpintWire(key.g) + MpintWire(key.y)
  {
    hide MpintWire, MpintFits, U32Wire;
    ok := buf.PutString(SSH_SIGNKEY_DSS);
    if !ok { return; }
    ok := PutNumbers(buf, key.p, key.q);
    if !ok { return; }
    ok := PutNumbers(buf, key.g, key.y);
  }

  method PutNumbers(buf: Buf, m: nat, n: nat) returns (ok: bool)
    requires buf.Valid() && MpintFits(m) && MpintFits(n)
    modifies buf`pos, buf`len, buf.data
    ensures buf.Valid()
    ensures ok <==> old(buf.pos) + |MpintWire(m)| + |MpintWire(n)| <= buf.size
    ensures ok ==> buf.Written() == old(buf.Written()) + (MpintWire(m) + MpintWire(n))
    ensures ok ==> buf.len == if buf.pos > old(buf.len) then buf.pos else old(buf.len)
  {
    hide MpintWire, MpintFits;
    ok := PutNumber(buf, m);
    if !ok { return; }
    ok := PutNumber(buf, n);
  }

  method PutNumber(buf: Buf, m: nat) returns (ok: bool)
    requires buf.Valid() && MpintFits(m)
    modifies buf`pos, buf`len, buf.data
    ensures buf.Valid()
    ensures ok <==> old(buf.pos) + |MpintWire(m)| <= buf.size
    ensures ok ==> buf.Written() == old(buf.Written()) + MpintWire(m)
    ensures ok ==> buf.len == if buf.pos > old(buf.len) then buf.pos else old(buf.len)
  {
    hide MpintWire;
    ok := buf.PutMpint(Number(m));
  }

  method BufGetDssPubKey(buf: Buf) returns (ok: bool, refused: bool, key: Key)
    requires buf.Valid()
    modifies buf`pos
    ensures buf.Valid()
    ensures ok == ReadPubKey(old(buf.Rest())).Parsed? && refused == ReadPubKey(old(buf.Rest())).Refused?
    ensures ok ==> ReadPubKey(old(buf.Rest())) == Parsed(key, buf.Rest())
  {
    hide ReadMpint;
    key, refused := Key(0, 0, 0, 0), false;
    ghost var was := buf.Rest();
    ok := buf.IncrPos((4 + |SSH_SIGNKEY_DSS|) as s32);
    if !ok { return; }
    assert buf.Rest() == was[4 + |SSH_SIGNKEY_DSS|..];
    var p, q, g, y;
    ok, refused, p := buf.GetMpint();
    if !ok { return; }
    ok, refused, q := buf.GetMpint();
    if !ok { return; }
    ok, refused, g := buf.GetMpint();
    if !ok { return; }
    ok, refused, y := buf.GetMpint();
    if !ok { return; }
    key := Key(p, q, g, y);
    if BitCount(p) < MIN_DSS_KEYLEN {
      return false, true, key;
    }
  }
}
