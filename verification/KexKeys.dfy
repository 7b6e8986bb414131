/** Key derivation (section 7.2 of RFC 4253): hashkeys and gen_new_keys over an arbitrary hash function. */
module KexKeys {
  import opened Bytes
  import opened Wire
  import opened Buffer
  import opened DssKey

  const MAX_IV_LEN := 20
  const MAX_KEY_LEN := 32

  ghost predicate Digests(hash: seq<byte> -> seq<byte>, size: nat) {
    size > 0 && forall s :: |hash(s)| == size
  }

  /** K1 || K2 || ... || Kn, where the first comes from a letter and the session id, the others from all before. */
  ghost function KeyStream(hash: seq<byte> -> seq<byte>, base: seq<byte>, letter: byte, sid: seq<byte>,
                           n: nat): seq<byte> {
    if n == 0 then []
    else if n == 1 then hash(base + [letter] + sid)
    else
      var before := KeyStream(hash, base, letter, sid, n - 1);
      before + hash(base + before)
  }

  lemma {:induction false} KeyStreamLength(hash: seq<byte> -> seq<byte>, size: nat, base: seq<byte>, letter: byte,
                                           sid: seq<byte>, n: nat)
    requires Digests(hash, size)
    ensures |KeyStream(hash, base, letter, sid, n)| == n * size
  {
    if n == 1 {
    } else if n > 1 {
      KeyStreamLength(hash, size, base, letter, sid, n - 1);
      assert (n - 1) * size + size == n * size;
    }
  }

  /** Longer streams only add bytes. */
  lemma {:induction false} KeyStreamPrefix(hash: seq<byte> -> seq<byte>, base: seq<byte>, letter: byte,
                                           sid: seq<byte>, m: nat, n: nat)
    requires m <= n
    ensures KeyStream(hash, base, letter, sid, m) <= KeyStream(hash, base, letter, sid, n)
    decreases n
  {
    if 0 < m < n { KeyStreamPrefix(hash, base, letter, sid, m, n - 1); }
  }

  /** Block i of the stream hashes all the blocks before it, block 0 the letter and the session id. */
  lemma KeyStreamBlock(hash: seq<byte> -> seq<byte>, size: nat, base: seq<byte>, letter: byte, sid: seq<byte>, n: nat,
                       i: nat)
    requires Digests(hash, size) && i < n
    ensures var s := KeyStream(hash, base, letter, sid, n);
            && |s| == n * size && 0 <= i * size <= (i + 1) * size <= n * size
            && s[i * size..(i + 1) * size] == hash(base + if i == 0 then [letter] + sid else s[..i * size])
  {
    KeyStreamLength(hash, size, base, letter, sid, n);
    KeyStreamLength(hash, size, base, letter, sid, i);
    KeyStreamLength(hash, size, base, letter, sid, i + 1);
    KeyStreamPrefix(hash, base, letter, sid, i, n);
    KeyStreamPrefix(hash, base, letter, sid, i + 1, n);
    assert base + [letter] + sid == base + ([letter] + sid);
    var s, t, u := KeyStream(hash, base, letter, sid, n), KeyStream(hash, base, letter, sid, i),
      KeyStream(hash, base, letter, sid, i + 1);
    var block := hash(base + if i == 0 then [letter] + sid else t);
    assert u == t + block && |block| == size;
    hide KeyStream, Digests;
    Times(i, n, size);
    BlockBetween(s, t, u, block);
  }

  lemma Times(i: nat, n: nat, size: nat)
    requires i < n
    ensures (i + 1) * size == i * size + size <= n * size
  {
    assert n * size == (i + 1) * size + (n - i - 1) * size;
  }

  lemma BlockBetween(s: seq<byte>, t: seq<byte>, u: seq<byte>, block: seq<byte>)
    requires t <= s && u <= s && u == t + block
    ensures s[|t|..|t| + |block|] == block && s[..|t|] == t
  { }

  /** out holds the first `done` bytes of the stream, and untouched bytes from there on. */
  ghost predicate Filled(out: seq<byte>, was: seq<byte>, stream: seq<byte>, done: nat) {
    && |out| == |was| && done <= |out| && done <= |stream|
    && out[..done] == stream[..done] && out[done..] == was[done..]
  }

  /** memcpy of the first n bytes of src to out[at..]. */
  method CopyInto(out: array<byte>, at: nat, src: seq<byte>, n: nat)
    requires at + n <= out.Length && n <= |src|
    modifies out
    ensures out[..at] == old(out[..at]) && out[at..at + n] == src[..n] && out[at + n..] == old(out[at + n..])
  {
    forall i | 0 <= i < n { out[at + i] := src[i]; }
  }

  /** One more digest. */
  lemma FilledNext(out: seq<byte>, e: seq<byte>, was: seq<byte>, stream: seq<byte>, digest: seq<byte>, done: nat,
                   n: nat)
    requires Filled(out, was, stream, done) && done == |stream| && n <= |digest| && done + n <= |out| == |e|
    requires e[..done] == out[..done] && e[done..done + n] == digest[..n] && e[done + n..] == out[done + n..]
    ensures Filled(e, was, stream + digest, done + n)
  {
    assert (stream + digest)[..done + n] == stream + digest[..n];
    assert e[..done + n] == e[..done] + e[done..done + n];
    assert out[done + n..] == out[done..][n..] && was[done + n..] == was[done..][n..];
  }

  /**
   hashkeys: the first outlen bytes of the key stream, and nothing behind them. The loop hashes the
   bytes already produced, so it relies on each digest but the last having been copied whole.
   */
  method HashKeys(out: array<byte>, outlen: nat, hash: seq<byte> -> seq<byte>, size: nat, base: seq<byte>,
                  letter: byte, sid: seq<byte>)
    requires Digests(hash, size) && outlen <= out.Length
    modifies out
    ensures forall n :: n * size >= outlen ==>
              Filled(out[..], old(out[..]), KeyStream(hash, base, letter, sid, n), outlen)
  {
    hide Filled, Digests, KeyStream;
    ghost var was := out[..];
    ghost var n := 1;
    var tmpout := hash(base + [letter] + sid);
    StreamOfOne(hash, size, base, letter, sid);
    FilledNothing(was);
    CopyInto(out, 0, tmpout, Min(size, outlen));
    FilledNext(was, out[..], was, [], tmpout, 0, Min(size, outlen));
    assert [] + tmpout == tmpout;
    var offset := size;
    while offset < outlen
      invariant n > 0 && offset == n * size
      invariant out.Length == |was|
      invariant Filled(out[..], was, KeyStream(hash, base, letter, sid, n), Min(offset, outlen))
      decreases outlen - offset
    {
      ghost var stream := KeyStream(hash, base, letter, sid, n);
      ghost var before := out[..];
      StreamGrows(hash, size, base, letter, sid, n);
      WholeStream(before, was, stream, offset);
      assert out[..offset] == before[..offset];
      tmpout := hash(base + out[..offset]);
      var count := Min(outlen - offset, size);
      CopyInto(out, offset, tmpout, count);
      FilledNext(before, out[..], was, stream, tmpout, offset, count);
      offset := offset + size;
      n := n + 1;
    }
    forall m: nat | m * size >= outlen
      ensures Filled(out[..], was, KeyStream(hash, base, letter, sid, m), outlen)
    {
      FilledAny(out[..], was, hash, size, base, letter, sid, n, m, outlen);
    }
  }

  lemma FilledNothing(was: seq<byte>)
    ensures Filled(was, was, [], 0)
  { }

  lemma StreamOfOne(hash: seq<byte> -> seq<byte>, size: nat, base: seq<byte>, letter: byte, sid: seq<byte>)
    requires Digests(hash, size)
    ensures KeyStream(hash, base, letter, sid, 1) == hash(base + [letter] + sid)
    ensures |hash(base + [letter] + sid)| == size > 0 && 1 * size == size
  { }

  lemma StreamGrows(hash: seq<byte> -> seq<byte>, size: nat, base: seq<byte>, letter: byte, sid: seq<byte>, n: nat)
    requires Digests(hash, size) && n > 0
    ensures var s := KeyStream(hash, base, letter, sid, n);
            && KeyStream(hash, base, letter, sid, n + 1) == s + hash(base + s)
            && |hash(base + s)| == size > 0 && |s| == n * size && (n + 1) * size == n * size + size
  {
    KeyStreamLength(hash, size, base, letter, sid, n);
  }

  lemma WholeStream(out: seq<byte>, was: seq<byte>, stream: seq<byte>, done: nat)
    requires Filled(out, was, stream, done) && done == |stream|
    ensures done <= |out| && out[..done] == stream
  { }

  /** Which of the long enough streams is meant does not matter. */
  lemma FilledAny(out: seq<byte>, was: seq<byte>, hash: seq<byte> -> seq<byte>, size: nat, base: seq<byte>,
                  letter: byte, sid: seq<byte>,
                  n: nat, m: nat, outlen: nat)
    requires Digests(hash, size) && n * size >= outlen && m * size >= outlen
    requires Filled(out, was, KeyStream(hash, base, letter, sid, n), outlen)
    ensures Filled(out, was, KeyStream(hash, base, letter, sid, m), outlen)
  {
    KeyStreamLength(hash, size, base, letter, sid, m);
    KeyStreamLength(hash, size, base, letter, sid, n);
    if m <= n {
      KeyStreamPrefix(hash, base, letter, sid, m, n);
    } else {
      KeyStreamPrefix(hash, base, letter, sid, n, m);
    }
    hide KeyStream, Digests;
  }

  // ----- which key goes where -----

  /** The first len bytes of a key stream. */
  ghost function KeyBytes(hash: seq<byte> -> seq<byte>, size: nat, base: seq<byte>, letter: byte, sid: seq<byte>,
                          len: nat): (s: seq<byte>)
    requires Digests(hash, size)
    ensures |s| == len
  {
    Enough(hash, size, base, letter, sid, len);
    KeyStream(hash, base, letter, sid, len)[..len]
  }

  lemma Enough(hash: seq<byte> -> seq<byte>, size: nat, base: seq<byte>, letter: byte, sid: seq<byte>, len: nat)
    requires Digests(hash, size)
    ensures |KeyStream(hash, base, letter, sid, len)| >= len && len * size >= len
  {
    KeyStreamLength(hash, size, base, letter, sid, len);
    assert len * size == len + len * (size - 1);
  }

  datatype DirKeys = DirKeys(iv: seq<byte>, key: seq<byte>, mac: seq<byte>)

  /** The keys of a direction as the RFC assigns them: letters A, C, E from client to server, B, D, F back. */
  ghost function DirectionKeys(hash: seq<byte> -> seq<byte>, size: nat, base: seq<byte>, sid: seq<byte>, c2s: bool,
                               maclen: nat): DirKeys
    requires Digests(hash, size)
  {
    DirKeys(KeyBytes(hash, size, base, if c2s then 'A' as byte else 'B' as byte, sid, MAX_IV_LEN),
            KeyBytes(hash, size, base, if c2s then 'C' as byte else 'D' as byte, sid, MAX_KEY_LEN),
            KeyBytes(hash, size, base, if c2s then 'E' as byte else 'F' as byte, sid, maclen))
  }

  /** hashkeys into a fresh buffer. */
  method NewKey(hash: seq<byte> -> seq<byte>, size: nat, base: seq<byte>, letter: byte, sid: seq<byte>,
                len: nat) returns (k: seq<byte>)
    requires Digests(hash, size)
    ensures k == KeyBytes(hash, size, base, letter, sid, len)
  {
    var out := new byte[len];
    ghost var was := out[..];
    HashKeys(out, len, hash, size, base, letter, sid);
    Enough(hash, size, base, letter, sid, len);
    assert Filled(out[..], was, KeyStream(hash, base, letter, sid, len), len);
    k := out[..];
  }

  const MP_BUFFER_SIZE := 512 + 20

  /**
   hash_process_mp: what it feeds to the hash, from a buffer of fixed size; ok is false where that ends the program.
   */
  method SecretBytes(secret: nat) returns (ok: bool, bytes: seq<byte>)
    requires MpintFits(secret)
    ensures ok <==> |MpintWire(secret)| <= MP_BUFFER_SIZE
    ensures ok ==> bytes == MpintWire(secret)
  {
    hide MpintWire, MpintFits;
    bytes := [];
    var buf := new Buf(MP_BUFFER_SIZE);
    assert buf.Written() == [];
    ok := PutNumber(buf, secret);
    if ok {
      assert [] + MpintWire(secret) == MpintWire(secret);
      bytes := buf.data[..buf.len];
    }
  }

  /**
   gen_new_keys for the secret and the exchange hash h: each side transmits with the keys of its own
   direction and receives with those of the other, so that what one transmits with the other receives with. The
   program ends for a secret whose mpint exceeds the buffer of hash_process_mp.
   */
  method GenNewKeys(server: bool, hash: seq<byte> -> seq<byte>, size: nat, secret: nat, h: seq<byte>, sid: seq<byte>,
                    transMac: nat, recvMac: nat) returns (ok: bool, trans: DirKeys, recv: DirKeys)
    requires Digests(hash, size) && MpintFits(secret)
    ensures ok <==> |MpintWire(secret)| <= MP_BUFFER_SIZE
    ensures ok ==> trans == DirectionKeys(hash, size, MpintWire(secret) + h, sid, !server, transMac)
    ensures ok ==> recv == DirectionKeys(hash, size, MpintWire(secret) + h, sid, server, recvMac)
    ensures var base := MpintWire(secret) + h;
            var (iv, key, mac) := if server then ('B', 'D', 'F') else ('A', 'C', 'E');
            ok ==> trans == DirKeys(KeyBytes(hash, size, base, iv as byte, sid, MAX_IV_LEN),
                                    KeyBytes(hash, size, base, key as byte, sid, MAX_KEY_LEN),
                                    KeyBytes(hash, size, base, mac as byte, sid, transMac))
    ensures var base := MpintWire(secret) + h;
            var (iv, key, mac) := if server then ('A', 'C', 'E') else ('B', 'D', 'F');
            ok ==> recv == DirKeys(KeyBytes(hash, size, base, iv as byte, sid, MAX_IV_LEN),
                                   KeyBytes(hash, size, base, key as byte, sid, MAX_KEY_LEN),
                                   KeyBytes(hash, size, base, mac as byte, sid, recvMac))
  {
    hide Digests, MpintWire, KeyBytes;
    trans, recv := DirKeys([], [], []), DirKeys([], [], []);
    var bytes: seq<byte>;
    ok, bytes := SecretBytes(secret);
    if !ok { return; }
    var base := bytes + h;
    var mactransletter, macrecvletter := 'E' as byte, 'F' as byte;
    if server {
      mactransletter, macrecvletter := 'F' as byte, 'E' as byte;
    }
    var c2sIv := NewKey(hash, size, base, 'A' as byte, sid, MAX_IV_LEN);
    var s2cIv := NewKey(hash, size, base, 'B' as byte, sid, MAX_IV_LEN);
    var c2sKey := NewKey(hash, size, base, 'C' as byte, sid, MAX_KEY_LEN);
    var s2cKey := NewKey(hash, size, base, 'D' as byte, sid, MAX_KEY_LEN);
    var macTrans := NewKey(hash, size, base, mactransletter, sid, transMac);
    var macRecv := NewKey(hash, size, base, macrecvletter, sid, recvMac);
    if server {
      trans, recv := DirKeys(s2cIv, s2cKey, macTrans), DirKeys(c2sIv, c2sKey, macRecv);
    } else {
      trans, recv := DirKeys(c2sIv, c2sKey, macTrans), DirKeys(s2cIv, s2cKey, macRecv);
    }
  }
}
