/** The ring buffer that holds channel data until the local side accepts it. */
module CircBuffer {
  import opened Bytes
  import opened ModArith

  const MAX_CBUF_SIZE := 100000000

  /** Position k places after r in a ring of n places. */
  function Ring(r: nat, k: nat, n: nat): nat {
    if r + k < n then r + k else r + k - n
  }

  /** Positions that are less than two turns away wrap at most once. */
  lemma RingIsMod(x: nat, n: nat)
    requires n > 0 && x < 2 * n
    ensures x % n == if x < n then x else x - n
  {
    if x >= n { assert x == n * 1 + (x - n); }
  }

  /** A cursor moved on by less than a turn, modulo the size. */
  function Wrapped(x: nat, n: nat): (r: nat)
    requires n > 0 && x < 2 * n
    ensures r == if x < n then x else x - n
  {
    RingIsMod(x, n);
    x % n
  }

  /** The two equations that cbuf_writelen asserts between its cursors. */
  lemma CursorEquations(r: nat, k: nat, n: nat)
    requires r < n && k <= n
    ensures (2 * n + Ring(r, k, n) - r) % n == k % n
    ensures (2 * n + r - Ring(r, k, n)) % n == (n - k) % n
  {
    var w := Ring(r, k, n);
    var turns := if w == r + k then 2 else 1;
    assert 2 * n + w - r == k + n * turns;
    assert 2 * n + r - w == (n - k) + n * (3 - turns);
    ModShift(k, turns, n);
    ModShift(n - k, 3 - turns, n);
  }

  /** The bytes from position r on, k of them, around the ring. */
  function Unrolled(d: seq<byte>, r: nat, k: nat): (s: seq<byte>)
    requires r < |d| && k <= |d|
    ensures |s| == k
  {
    seq(k, i requires 0 <= i < k => d[Ring(r, i, |d|)])
  }

  lemma UnrolledAppend(d: seq<byte>, r: nat, k: nat, len: nat)
    requires r < |d| && k + len <= |d| && Ring(r, k, |d|) + len <= |d|
    ensures Unrolled(d, r, k + len) == Unrolled(d, r, k) + d[Ring(r, k, |d|)..Ring(r, k, |d|) + len]
  {
    var s := Unrolled(d, r, k) + d[Ring(r, k, |d|)..Ring(r, k, |d|) + len];
    forall i | 0 <= i < k + len
      ensures Unrolled(d, r, k + len)[i] == s[i]
    {
      if i >= k { assert Ring(r, i, |d|) == Ring(r, k, |d|) + (i - k); }
    }
  }

  lemma UnrolledDrop(d: seq<byte>, r: nat, k: nat, len: nat)
    requires r < |d| && len <= k <= |d| && Ring(r, len, |d|) < |d|
    ensures Unrolled(d, Ring(r, len, |d|), k - len) == Unrolled(d, r, k)[len..]
  { }

  lemma UnrolledRuns(d: seq<byte>, r: nat, k: nat, first: nat)
    requires r < |d| && k <= |d| && first == if k < |d| - r then k else |d| - r
    ensures d[r..r + first] + d[..k - first] == Unrolled(d, r, k)
  {
    var s := d[r..r + first] + d[..k - first];
    forall i | 0 <= i < k
      ensures s[i] == Unrolled(d, r, k)[i]
    { }
  }

  /** Storing from the write position on leaves the queued bytes alone. */
  lemma UnrolledUntouched(d: seq<byte>, e: seq<byte>, r: nat, k: nat, len: nat)
    requires r < |d| == |e| && k + len <= |d| && Ring(r, k, |d|) + len <= |d|
    requires forall i :: 0 <= i < |d| && !(Ring(r, k, |d|) <= i < Ring(r, k, |d|) + len) ==> e[i] == d[i]
    ensures Unrolled(e, r, k) == Unrolled(d, r, k)
  {
    forall i | 0 <= i < k
      ensures Unrolled(e, r, k)[i] == Unrolled(d, r, k)[i]
    {
      var j := Ring(r, i, |d|);
      assert e[j] == d[j];
    }
  }

  lemma AppendStep(c: seq<byte>, src: seq<byte>, at: nat, n: nat)
    requires at + n <= |src|
    ensures (c + src[..at]) + src[at..at + n] == c + src[..at + n]
  { }

  class CircBuf {
    const size: nat
    var used: nat
    var readpos: nat
    var writepos: nat
    var data: array?<byte>

    ghost predicate Valid()
      reads this, data
    {
      && used <= size <= MAX_CBUF_SIZE
      && (size > 0 ==> readpos < size && writepos < size && writepos == Ring(readpos, used, size))
      && (size == 0 ==> readpos == 0 && writepos == 0)
      && (if data == null then used == 0 else data.Length == size)
    }

    /** The queued bytes, oldest first. */
    ghost function Contents(): (s: seq<byte>)
      requires Valid()
      reads this, data
      ensures |s| == used
    {
      if data == null || size == 0 then [] else Unrolled(data[..], readpos, used)
    }

    /** cbuf_new: the program ends (here, null) on a size above the limit. */
    static method New(size: nat) returns (c: CircBuf?)
      ensures c == null <==> size > MAX_CBUF_SIZE
      ensures c != null ==> fresh(c) && c.Valid() && c.Contents() == [] && c.size == size && c.data == null
    {
      if size > MAX_CBUF_SIZE {
        return null;
      }
      c := new CircBuf(size);
    }

    constructor (size: nat)
      requires size <= MAX_CBUF_SIZE
      ensures Valid() && Contents() == [] && this.size == size && data == null
    {
      this.size := size;
      used, readpos, writepos := 0, 0, 0;
      data := null;
    }

    method GetAvail() returns (n: nat)
      requires Valid()
      ensures n == size - |Contents()|
    {
      n := size - used;
    }

    /** The longest run of free bytes from writepos: all that is free, or up to the end of the array. */
    method WriteLen() returns (n: nat)
      requires Valid()
      ensures n <= size - used && writepos + n <= size
      ensures n == size - used || writepos + n == size
      ensures n == 0 <==> used == size
    {
      if used == size {
        n := 0;
      } else if writepos < readpos {
        n := readpos - writepos;
      } else {
        n := size - writepos;
      }
    }

    /** The queue as two runs of the array: len1 bytes from p1, then len2 bytes from 0. */
    method ReadPtrs() returns (p1: nat, len1: nat, p2: nat, len2: nat)
      requires Valid()
      ensures len1 + len2 == used && p2 == 0
      ensures p1 + len1 <= size && len2 <= size
      ensures data != null ==> data[p1..p1 + len1] + data[..len2] == Contents()
    {
      p1 := readpos;
      len1 := if used < size - readpos then used else size - readpos;
      p2 := 0;
      len2 := if len1 < used then used - len1 else 0;
      if data != null && size > 0 {
        UnrolledRuns(data[..], readpos, used, len1);
        assert data[..][p1..p1 + len1] == data[p1..p1 + len1] && data[..][..len2] == data[..len2];
      }
    }

    /**
     cbuf_writeptr: room for len bytes at writepos, the array allocated on first use; ok is false when the program
     ends.
     */
    method WritePtr(len: nat) returns (ok: bool, p: nat)
      requires Valid()
      modifies this`data
      ensures Valid() && Contents() == old(Contents())
      ensures data == old(data) || (old(data) == null && fresh(data))
      ensures ok == (len <= size - used && writepos + len <= size)
      ensures ok ==> data != null && p == writepos
    {
      var room := WriteLen();
      ok, p := true, writepos;
      if len > room {
        ok := false;
        return;
      }
      if data == null {
        data := new byte[size];
      }
    }

    /** cbuf_incrwrite: the len bytes that were stored from writepos on join the queue. */
    method IncrWrite(len: nat) returns (ok: bool)
      requires Valid() && size > 0 && data != null
      modifies this`used, this`writepos
      ensures Valid()
      ensures ok == (len <= size - old(used) && old(writepos) + len <= size)
      ensures ok ==> Contents() == old(Contents()) + data[old(writepos)..old(writepos) + len]
      ensures ok ==> writepos == Ring(old(writepos), len, size)
      ensures !ok ==> Contents() == old(Contents())
    {
      var room := WriteLen();
      if len > room {
        return false;
      }
      UnrolledAppend(data[..], readpos, used, len);
      assert data[..][writepos..writepos + len] == data[writepos..writepos + len];
      hide Unrolled, Wrapped;
      used := used + len;
      writepos := Wrapped(writepos + len, size);
      return true;
    }

    /** cbuf_incrread: the oldest len bytes leave the queue. */
    method IncrRead(len: nat)
      requires Valid() && size > 0 && len <= used
      modifies this`used, this`readpos
      ensures Valid() && Contents() == old(Contents())[len..]
    {
      if data != null { UnrolledDrop(data[..], readpos, used, len); }
      hide Unrolled, Wrapped;
      used := used - len;
      readpos := Wrapped(readpos + len, size);
    }

    /** memcpy of src to the write position: the queue does not change. */
    method Store(p: nat, src: seq<byte>)
      requires Valid() && size > 0 && data != null && p == writepos
      requires |src| <= size - used && p + |src| <= size
      modifies data
      ensures Valid() && Contents() == old(Contents()) && data[p..p + |src|] == src
    {
      ghost var d := data[..];
      forall i | 0 <= i < |src| { data[p + i] := src[i]; }
      UnrolledUntouched(d, data[..], readpos, used, |src|);
    }

    /** memcpy to cbuf_writeptr, then cbuf_incrwrite: unread bytes are untouched and src is appended. */
    method Append(src: seq<byte>)
      requires Valid() && size > 0
      requires |src| <= size - used && writepos + |src| <= size
      modifies this, data
      ensures Valid() && Contents() == old(Contents()) + src
      ensures writepos == Ring(old(writepos), |src|, size)
      ensures data == old(data) || fresh(data)
    {
      hide Unrolled;
      var ok, p := WritePtr(|src|);
      Store(p, src);
      ok := IncrWrite(|src|);
    }

    /** The copy loop of common_recv_msg_channel_data: what fits is appended in at most two runs. */
    method AppendAll(src: seq<byte>) returns (rounds: nat)
      requires Valid() && size > 0 && |src| <= size - |Contents()|
      modifies this, data
      ensures Valid() && Contents() == old(Contents()) + src
      ensures data == old(data) || fresh(data)
      ensures rounds <= 2
    {
      hide Unrolled, Contents;
      var at := 0;
      rounds := 0;
      while at < |src|
        invariant at <= |src| && (rounds == 0 || (rounds == 1 && (at == |src| || writepos == 0))
                  || (rounds == 2 && at == |src|))
        invariant Valid() && (data == old(data) || fresh(data))
        invariant Contents() == old(Contents()) + src[..at]
        invariant used == old(used) + at
        decreases |src| - at
      {
        var room := WriteLen();
        var buflen := if room < |src| - at then room else |src| - at;
        AppendStep(old(Contents()), src, at, buflen);
        Append(src[at..at + buflen]);
        at := at + buflen;
        rounds := rounds + 1;
      }
      assert src[..at] == src;
    }
  }
}
