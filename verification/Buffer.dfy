/** The bounds-checked byte buffer. A result ok == false stands for dropbear_exit. */
module Buffer {
  import opened Bytes
  import opened Wire

  const BUF_MAX_INCR := 1000000000
  const BUF_MAX_SIZE := 1000000000

  /** A libtommath number: sign, digits in use, magnitude. */
  datatype Bignum = Bignum(negative: bool, used: nat, magnitude: nat)

  /** libtommath leaves no leading zero digit: zero has none at all. */
  predicate Clamped(m: Bignum) {
    m.magnitude == 0 ==> m.used == 0 && !m.negative
  }

  /** The zero check of buf_putmpint, which a clamped number never meets. */
  predicate EmptyZero(m: Bignum) {
    m.used == 1 && m.magnitude == 0
  }

  function BignumWire(m: Bignum): (s: seq<byte>)
    requires MpintFits(m.magnitude)
    ensures Clamped(m) ==> s == MpintWire(m.magnitude)
  {
    if EmptyZero(m) then StringWire([]) else MpintWire(m.magnitude)
  }

  /** A piece of a piece. */
  lemma Slices(s: seq<byte>, from: nat, to: nat, n: nat)
    requires from + n <= to <= |s|
    ensures s[from..to][..n] == s[from..from + n] && s[from..to][n..] == s[from + n..to]
  { }

  lemma RestSlices(s: seq<byte>, from: nat, n: nat)
    requires from + n <= |s|
    ensures s[from..][..n] == s[from..from + n] && s[from..][n..] == s[from + n..]
  { }

  class Buf {
    var data: array<byte>
    var len: u32
    var pos: u32
    var size: u32

    ghost predicate Valid()
      reads this
    {
      pos <= len <= size <= BUF_MAX_SIZE && data.Length == size
    }

    /** What lies before the position. */
    ghost function Written(): seq<byte>
      requires Valid()
      reads this, data
    {
      data[..pos]
    }

    /** What is left to read. */
    ghost function Rest(): seq<byte>
      requires Valid()
      reads this, data
    {
      data[pos..len]
    }

    /** buf_new, for a size that does not end the program. */
    constructor (size: u32)
      requires size <= BUF_MAX_SIZE
      ensures Valid() && fresh(data) && this.size == size && len == 0 && pos == 0
    {
      data := new byte[size];
      this.size, len, pos := size, 0, 0;
    }

    static method New(size: u32) returns (b: Buf?)
      ensures b == null <==> size > BUF_MAX_SIZE
      ensures b != null ==> fresh(b) && fresh(b.data) && b.Valid() && b.size == size && b.len == 0 && b.pos == 0
    {
      if size > BUF_MAX_SIZE {
        return null;
      }
      b := new Buf(size);
    }

    /** buf_newcopy: the same contents, read from the start, and no spare room. */
    method NewCopy() returns (b: Buf)
      requires Valid()
      ensures fresh(b) && fresh(b.data) && b.Valid() && b.Rest() == data[..len] && b.size == len
    {
      b := new Buf(len);
      b.len := len;
      forall i | 0 <= i < len { b.data[i] := data[i]; }
    }

    /** buf_resize: the contents are kept as far as they fit. */
    method Resize(newsize: u32) returns (ok: bool)
      requires Valid()
      modifies this
      ensures Valid() && ok == (newsize <= BUF_MAX_SIZE)
      ensures ok ==> fresh(data) && size == newsize && len == Min(newsize, old(len)) && pos == Min(newsize, old(pos))
      ensures ok ==> data[..len] == old(data[..len])[..len]
    {
      if newsize > BUF_MAX_SIZE {
        return false;
      }
      var fit := Min(newsize, size);
      data := Reallocated(data, fit, newsize);
      size := newsize;
      len := Min(newsize, len);
      pos := Min(newsize, pos);
      return true;
    }

    static method Reallocated(d: array<byte>, fit: nat, n: nat) returns (e: array<byte>)
      requires fit <= d.Length && fit <= n
      ensures fresh(e) && e.Length == n && e[..fit] == d[..fit]
    {
      e := new byte[n];
      forall i | 0 <= i < fit { e[i] := d[i]; }
    }

    method SetLen(n: u32) returns (ok: bool)
      requires Valid()
      modifies this`len, this`pos
      ensures Valid() && ok == (n <= size)
      ensures ok ==> len == n && pos == Min(old(pos), n)
    {
      if n > size {
        return false;
      }
      len := n;
      pos := Min(pos, len);
      return true;
    }

    /** The 32-bit sums in this and the following checks never wrap. */
    method IncrLen(incr: u32) returns (ok: bool)
      requires Valid()
      modifies this`len
      ensures Valid() && ok == (old(len) + incr <= size)
      ensures len == if ok then old(len) + incr else old(len)
    {
      if incr > BUF_MAX_INCR || U32(len + incr) > size {
        return false;
      }
      len := U32(len + incr);
      return true;
    }

    method SetPos(n: u32) returns (ok: bool)
      requires Valid()
      modifies this`pos
      ensures Valid() && ok == (n <= len)
      ensures pos == if ok then n else old(pos)
    {
      if n > len {
        return false;
      }
      pos := n;
      return true;
    }

    method IncrWritePos(incr: u32) returns (ok: bool)
      requires Valid()
      modifies this`pos, this`len
      ensures Valid() && ok == (old(pos) + incr <= size)
      ensures pos == if ok then old(pos) + incr else old(pos)
      ensures len == if pos > old(len) then pos else old(len)
    {
      if incr > BUF_MAX_INCR || U32(pos + incr) > size {
        return false;
      }
      pos := U32(pos + incr);
      if pos > len {
        len := pos;
      }
      return true;
    }

    /** The only operation with a signed step. */
    method IncrPos(incr: s32) returns (ok: bool)
      requires Valid()
      modifies this`pos
      ensures Valid() && ok == (0 <= old(pos) + incr as int <= len)
      ensures pos == if ok then old(pos) + incr as int else old(pos)
    {
      var step := incr as int;
      if step > BUF_MAX_INCR || step < -BUF_MAX_INCR || U32(pos + step) > len || pos + step < 0 {
        return false;
      }
      pos := U32(pos + step);
      return true;
    }

    method GetPtr(n: u32) returns (ok: bool)
      requires Valid()
      ensures ok == (n <= |Rest()|)
    {
      return !(n > BUF_MAX_INCR || U32(pos + n) > len);
    }

    method GetWritePtr(n: u32) returns (ok: bool)
      requires Valid()
      ensures ok == (pos + n <= size)
    {
      return !(n > BUF_MAX_INCR || U32(pos + n) > size);
    }

    method GetByte() returns (ok: bool, v: byte)
      requires Valid()
      modifies this`pos
      ensures Valid() && ok == (|old(Rest())| > 0)
      ensures ok ==> old(Rest()) == [v] + Rest()
    {
      v := 0;
      if pos >= len {
        return false, v;
      }
      v := data[pos];
      pos := pos + 1;
      return true, v;
    }

    method PutByte(v: byte) returns (ok: bool)
      requires Valid()
      modifies this`pos, this`len, data
      ensures Valid() && ok == (old(pos) + 1 <= size)
      ensures ok ==> Written() == old(Written()) + [v] && data[pos..] == old(data[..])[pos..]
      ensures ok ==> len == if pos > old(len) then pos else old(len)
    {
      ok := true;
      if pos >= len {
        ok := IncrLen(1);
        if !ok { return; }
      }
      data[pos] := v;
      pos := pos + 1;
    }

    /** buf_putbytes: bytes go in at the position, nothing behind them changes. */
    method PutBytes(bytes: seq<byte>) returns (ok: bool)
      requires Valid() && |bytes| < U32_LIMIT
      modifies this`pos, this`len, data
      ensures Valid() && ok == (old(pos) + |bytes| <= size)
      ensures ok ==> Written() == old(Written()) + bytes && data[pos..] == old(data[..])[pos..]
      ensures ok ==> len == if pos > old(len) then pos else old(len)
      ensures !ok ==> data[..] == old(data[..]) && pos == old(pos) && len == old(len)
    {
      ok := GetWritePtr(|bytes|);
      if !ok { return; }
      CopyAt(data, pos, bytes);
      ok := IncrWritePos(|bytes|);
    }

    /** memcpy. */
    static method CopyAt(d: array<byte>, at: nat, bytes: seq<byte>)
      requires at + |bytes| <= d.Length
      modifies d
      ensures d[..at] == old(d[..at]) && d[at..at + |bytes|] == bytes && d[at + |bytes|..] == old(d[at + |bytes|..])
    {
      forall i | 0 <= i < |bytes| { d[at + i] := bytes[i]; }
    }

    method GetInt() returns (ok: bool, v: nat)
      requires Valid()
      modifies this`pos
      ensures Valid() && ok == ReadU32(old(Rest())).Parsed?
      ensures ok <==> |old(Rest())| >= 4
      ensures ok ==> v == BigEndian(old(Rest())[..4]) && v < U32_LIMIT && Rest() == old(Rest())[4..]
      ensures ok ==> ReadU32(old(Rest())) == Parsed(v, Rest())
      ensures ok ==> pos == old(pos) + 4
    {
      v := 0;
      ok := GetPtr(4);
      if !ok { return; }
      v := Load32(data[pos..pos + 4]);
      Load32BigEndian(data[pos..pos + 4]);
      hide BigEndian;
      assert data[pos..len][..4] == data[pos..pos + 4] && data[pos..len][4..] == data[pos + 4..len];
      ok := IncrPos(4);
    }

    method PutInt(v: u32) returns (ok: bool)
      requires Valid()
      modifies this`pos, this`len, data
      ensures Valid() && ok == (old(pos) + 4 <= size)
      ensures ok ==> Written() == old(Written()) + U32Wire(v) && data[pos..] == old(data[..])[pos..]
      ensures ok ==> pos == old(pos) + 4 && BigEndian(Written()[old(pos)..]) == v
      ensures ok ==> len == if pos > old(len) then pos else old(len)
    {
      U32BigEndian(v, U32Wire(v));
      hide BigEndian;
      ok := PutBytes(U32Wire(v));
      assert ok ==> Written()[old(pos)..] == U32Wire(v);
    }

    method PutString(str: seq<byte>) returns (ok: bool)
      requires Valid() && |str| < U32_LIMIT
      modifies this`pos, this`len, data
      ensures Valid() && ok == (old(pos) + 4 + |str| <= size)
      ensures ok ==> Written() == old(Written()) + StringWire(str) && data[pos..] == old(data[..])[pos..]
      ensures ok ==> len == if pos > old(len) then pos else old(len)
    {
      ok := PutInt(|str|);
      if !ok { return; }
      ok := PutBytes(str);
    }

    /** buf_getptr, a copy, and buf_incrpos. */
    method TakeBytes(n: u32) returns (ok: bool, bytes: seq<byte>)
      requires Valid()
      modifies this`pos
      ensures Valid() && ok == (n <= |old(Rest())|)
      ensures ok ==> bytes == old(Rest())[..n] && Rest() == old(Rest())[n..]
    {
      bytes := [];
      ok := GetPtr(n);
      if !ok { return; }
      bytes := data[pos..pos + n];
      Slices(data[..], pos, len, n);
      assert data[..][pos..len] == Rest() && data[..][pos..pos + n] == bytes
             && data[..][pos + n..len] == data[pos + n..len];
      ok := IncrPos(n as s32);
    }

    method GetString() returns (ok: bool, str: seq<byte>)
      requires Valid()
      modifies this`pos
      ensures Valid() && ok == ReadString(old(Rest())).Parsed?
      ensures ok ==> ReadString(old(Rest())) == Parsed(str, Rest())
    {
      str := [];
      var n: nat;
      ghost var was := Rest();
      ok, n := GetInt();
      if !ok { return; }
      if n > MAX_STRING_LEN {
        return false, str;
      }
      hide Load32;
      ok, str := TakeBytes(n);
      if ok { RestSlices(was, 4, n); }
    }

    /** Negative numbers are refused; MpintFits is the size of number that libtommath can hold. */
    method PutMpint(mp: Bignum) returns (ok: bool)
      requires Valid() && MpintFits(mp.magnitude)
      modifies this`pos, this`len, data
      ensures Valid()
      ensures ok == (!mp.negative && old(pos) + |BignumWire(mp)| <= size)
      ensures ok ==> Written() == old(Written()) + BignumWire(mp)
      ensures ok ==> len == if pos > old(len) then pos else old(len)
    {
      hide U32Wire, BitCount, Unsigned;
      ghost var m := mp.magnitude;
      MpintLength(m);
      if mp.negative {
        return false;
      }
      var n, pad := 0, 0;
      if !(mp.used == 1 && mp.magnitude == 0) {
        n := BitCount(mp.magnitude);
        pad := if n % 8 == 0 then 1 else 0;
        n := n / 8 + 1;
      }
      assert !EmptyZero(mp) ==> |MpintBytes(m)| == n && (pad == 1 <==> BitCount(m) % 8 == 0);
      hide MpintBytes, BitCount;
      ok := PutInt(n);
      if !ok || n == 0 { return; }
      ok := PutPadded(pad == 1, mp.magnitude);
    }

    /** The bytes of an mpint after its length. */
    method PutPadded(pad: bool, m: nat) returns (ok: bool)
      requires Valid() && pad == (BitCount(m) % 8 == 0) && MpintFits(m)
      modifies this`pos, this`len, data
      ensures Valid() && ok == (old(pos) + |MpintBytes(m)| <= size)
      ensures ok ==> Written() == old(Written()) + MpintBytes(m)
      ensures ok ==> len == if pos > old(len) then pos else old(len)
    {
      hide Unsigned, BitCount;
      if pad {
        ok := PutByte(0);
        if !ok { return; }
      }
      ok := PutBytes(Unsigned(m));
    }

    /** buf_getmpint: the number, DROPBEAR_FAILURE (refused) or dropbear_exit. */
    method GetMpint() returns (ok: bool, refused: bool, m: nat)
      requires Valid()
      modifies this`pos
      ensures Valid() && ok == ReadMpint(old(Rest())).Parsed? && refused == ReadMpint(old(Rest())).Refused?
      ensures ok ==> ReadMpint(old(Rest())) == Parsed(m, Rest())
    {
      hide Load32, BigEndian;
      refused, m := false, 0;
      var n: nat;
      ghost var was := Rest();
      ok, n := GetInt();
      if !ok || n == 0 { return; }
      if n > BUF_MAX_MPINT {
        return false, true, m;
      }
      ok := GetPtr(1);
      if !ok { return; }
      assert data[pos] == Rest()[0] == was[4];
      if data[pos] >= 0x80 {
        return false, true, m;
      }
      var bytes: seq<byte>;
      ok, bytes := TakeBytes(n);
      if !ok { return; }
      m := BigEndian(bytes);
      RestSlices(was, 4, n);
    }
  }
}
