/** Name lists of section 7.1 of RFC 4253: tables of algorithms printed, and cut into names again. */
module AlgoList {
  import opened Bytes
  import opened Wire
  import opened Buffer

  const MAX_PROPOSED_ALGO := 20
  const MAX_NAME_LEN := 64
  const ALGOLIST_SIZE := 300
  const COMMA: byte := ',' as byte

  type Name = seq<byte>

  /** An entry of a local table: unusable entries stay in their place. */
  datatype Entry = Entry(name: Name, usable: bool)

  function Usable(t: seq<Entry>): seq<Name> {
    if t == [] then []
    else if t[0].usable then [t[0].name] + Usable(t[1..])
    else Usable(t[1..])
  }

  lemma {:induction false} UsableAppend(t: seq<Entry>, u: seq<Entry>)
    ensures Usable(t + u) == Usable(t) + Usable(u)
  {
    if t == [] {
      assert t + u == u;
    } else {
      UsableAppend(t[1..], u);
      assert (t + u)[1..] == t[1..] + u;
    }
  }

  function Join(names: seq<Name>): seq<byte> {
    if names == [] then []
    else if |names| == 1 then names[0]
    else names[0] + [COMMA] + Join(names[1..])
  }

  lemma {:induction false} JoinAppend(names: seq<Name>, n: Name)
    ensures Join(names + [n]) == Join(names) + (if names == [] then [] else [COMMA]) + n
  {
    if names != [] {
      JoinAppend(names[1..], n);
      assert (names + [n])[1..] == names[1..] + [n];
    }
  }

  lemma {:induction false} JoinGrows(names: seq<Name>, more: seq<Name>)
    ensures |Join(names)| <= |Join(names + more)|
    decreases |more|
  {
    if more == [] {
      assert names + more == names;
    } else {
      JoinAppend(names, more[0]);
      JoinGrows(names + [more[0]], more[1..]);
      assert names + [more[0]] + more[1..] == names + more;
    }
  }

  // ----- printing -----

  /** The list of one more entry. */
  lemma NextEntry(t: seq<Entry>, i: nat)
    requires i < |t|
    ensures Usable(t[..i + 1]) == if t[i].usable then Usable(t[..i]) + [t[i].name] else Usable(t[..i])
    ensures |Join(Usable(t[..i + 1]))| <= |Join(Usable(t))|
  {
    assert t[..i + 1] == t[..i] + [t[i]] && t == t[..i + 1] + t[i + 1..];
    UsableAppend(t[..i], [t[i]]);
    UsableAppend(t[..i + 1], t[i + 1..]);
    JoinGrows(Usable(t[..i + 1]), Usable(t[i + 1..]));
    assert Usable([t[i]]) == (if t[i].usable then [t[i].name] else []) by { assert [t[i]][1..] == []; }
    hide Usable, Join;
  }

  /** One name of the list, after a comma unless it is the first. */
  method PutName(algolist: Buf, n: Name, donefirst: bool) returns (ok: bool)
    requires algolist.Valid() && algolist.len == algolist.pos && |n| < U32_LIMIT
    modifies algolist`pos, algolist`len, algolist.data
    ensures algolist.Valid() && algolist.size == old(algolist.size)
    ensures ok <==> old(algolist.pos) + (if donefirst then 1 else 0) + |n| <= algolist.size
    ensures ok ==> algolist.len == algolist.pos
    ensures ok ==> algolist.Written() == old(algolist.Written()) + (if donefirst then [COMMA] else []) + n
  {
    if donefirst {
      ok := algolist.PutByte(COMMA);
      if !ok { return; }
    }
    ok := algolist.PutBytes(n);
  }

  /** buf_put_algolist: the usable names, separated by commas, as a string; the list may not exceed its 300 bytes. */
  method BufPutAlgolist(buf: Buf, t: seq<Entry>) returns (ok: bool)
    requires buf.Valid() && forall i :: 0 <= i < |t| ==> |t[i].name| < U32_LIMIT
    modifies buf`pos, buf`len, buf.data
    ensures ok <==> |Join(Usable(t))| <= ALGOLIST_SIZE && old(buf.pos) + 4 + |Join(Usable(t))| <= buf.size
    ensures ok ==> buf.Valid() && buf.Written() == old(buf.Written()) + StringWire(Join(Usable(t)))
  {
    hide Usable, Join;
    assert t[..0] == [];
    UsableOfNone();
    var algolist: Buf := new Buf(ALGOLIST_SIZE);
    ghost var store := algolist.data;
    var donefirst := false;
    var i := 0;
    while i < |t|
      modifies algolist, store
      invariant algolist.data == store
      invariant i <= |t| && algolist.Valid() && algolist.len == algolist.pos && algolist.size == ALGOLIST_SIZE
      invariant fresh(algolist) && fresh(algolist.data)
      invariant algolist.Written() == Join(Usable(t[..i]))
      invariant donefirst <==> Usable(t[..i]) != []
    {
      NextEntry(t, i);
      if t[i].usable {
        JoinAppend(Usable(t[..i]), t[i].name);
        ok := PutName(algolist, t[i].name, donefirst);
        if !ok { return; }
        donefirst := true;
      }
      i := i + 1;
    }
    assert t[..i] == t;
    ok := buf.PutString(algolist.data[..algolist.len]);
  }

  lemma UsableOfNone()
    ensures Usable([]) == [] && Join([]) == []
  { }

  // ----- cutting -----

  function FirstComma(s: seq<byte>): (c: nat)
    ensures c <= |s|
    ensures c < |s| ==> s[c] == COMMA
    ensures forall i :: 0 <= i < c ==> s[i] != COMMA
  {
    if s == [] || s[0] == COMMA then 0 else 1 + FirstComma(s[1..])
  }

  /** s cut at its commas into at most `limit` pieces. */
  function Cut(s: seq<byte>, limit: nat): (r: seq<seq<byte>>)
    requires limit > 0
    ensures 0 < |r| <= limit
    decreases limit
  {
    var c := FirstComma(s);
    if limit == 1 || c == |s| then [s] else [s[..c]] + Cut(s[c + 1..], limit - 1)
  }

  predicate Plain(n: Name) {
    COMMA !in n && 0 !in n && n != []
  }

  ghost predicate AllPlain(names: seq<Name>) {
    forall i :: 0 <= i < |names| ==> Plain(names[i])
  }

  lemma FirstCommaIs(s: seq<byte>, c: nat)
    requires c <= |s| && COMMA !in s[..c] && (c < |s| ==> s[c] == COMMA)
    ensures FirstComma(s) == c
  {
    assert forall i :: 0 <= i < c ==> s[i] == s[..c][i];
  }

  /** The first cut. */
  lemma CutStep(s: seq<byte>, n: Name, rest: seq<byte>, limit: nat)
    requires s == n + [COMMA] + rest && COMMA !in n && limit > 1
    ensures Cut(s, limit) == [n] + Cut(rest, limit - 1)
  {
    assert s[..|n|] == n && s[|n| + 1..] == rest;
    FirstCommaIs(s, |n|);
  }

  lemma CutLast(s: seq<byte>, limit: nat)
    requires limit > 0 && (limit == 1 || COMMA !in s)
    ensures Cut(s, limit) == [s]
  {
    if COMMA !in s {
      assert s[..|s|] == s;
      FirstCommaIs(s, |s|);
    }
  }

  /** Cutting undoes printing, for names without commas, up to the limit. */
  lemma {:induction false} CutJoin(names: seq<Name>, limit: nat)
    requires AllPlain(names) && |names| <= limit && limit > 0
    ensures Cut(Join(names), limit) == if names == [] then [[]] else names
    decreases limit
  {
    hide Cut;
    if |names| >= 2 {
      assert Plain(names[0]);
      CutStep(Join(names), names[0], Join(names[1..]), limit);
      CutJoin(names[1..], limit - 1);
      assert names == [names[0]] + names[1..];
    } else {
      if |names| == 1 { assert Plain(names[0]); }
      CutLast(Join(names), limit);
    }
  }

  // ----- cutting in place -----

  /** The C string in s: everything up to the first NUL. */
  function CString(s: seq<byte>): (r: seq<byte>)
    ensures |r| <= |s| && r == s[..|r|] && 0 !in r && (|r| < |s| ==> s[|r|] == 0)
  {
    if s == [] || s[0] == 0 then [] else [s[0]] + CString(s[1..])
  }

  /** The names buf_match_algo compares; only the last one can have been cut short by a NUL. */
  function RemoteNames(s: seq<byte>): (r: seq<Name>)
    ensures 0 < |r| <= MAX_PROPOSED_ALGO
  {
    var pieces := Cut(s, MAX_PROPOSED_ALGO);
    pieces[..|pieces| - 1] + [CString(pieces[|pieces| - 1])]
  }

  /** A NUL in the part that the loop looks at: all of it, or what precedes the twentieth name. */
  ghost predicate Strange(s: seq<byte>) {
    var pieces := Cut(s, MAX_PROPOSED_ALGO);
    exists k :: 0 <= k < |pieces| && k < MAX_PROPOSED_ALGO - 1 && 0 in pieces[k]
  }

  /** n stands at p as a C string that ends before `end`. */
  predicate StringAt(d: seq<byte>, p: nat, n: Name, end: nat) {
    p + |n| < end <= |d| && d[p..p + |n|] == n && d[p + |n|] == 0 && 0 !in n
  }

  /** The progress of the cutting loop: the names so far, then what is left of the string from the last start on. */
  ghost predicate Cutting(s: seq<byte>, d: seq<byte>, starts: seq<nat>, names: seq<Name>, i: nat) {
    && |d| == |s| + 1 && i <= |s| && d[|s|] == 0
    && |starts| == |names| + 1 <= MAX_PROPOSED_ALGO
    && var start := starts[|names|];
    && start <= i && d[start..] == s[start..] + [0]
    && COMMA !in s[start..i] && 0 !in s[start..i]
    && Cut(s, MAX_PROPOSED_ALGO) == names + Cut(s[start..], MAX_PROPOSED_ALGO - |names|)
    && forall k :: 0 <= k < |names| ==> StringAt(d, starts[k], names[k], start)
  }

  lemma CuttingStart(s: seq<byte>)
    ensures Cutting(s, s + [0], [0], [], 0)
  {
    assert s[0..] == s && (s + [0])[0..] == s[0..] + [0];
    assert Cut(s, MAX_PROPOSED_ALGO) == [] + Cut(s[0..], MAX_PROPOSED_ALGO - 0);
  }

  /** An ordinary byte. */
  lemma CuttingByte(s: seq<byte>, d: seq<byte>, starts: seq<nat>, names: seq<Name>, i: nat)
    requires Cutting(s, d, starts, names, i) && i < |s| && d[i] != 0 && d[i] != COMMA
    ensures Cutting(s, d, starts, names, i + 1)
  {
    hide Cut, StringAt;
    var start := starts[|names|];
    assert d[i] == d[start..][i - start] == s[start..][i - start] == s[i];
    assert s[start..i + 1] == s[start..i] + [s[i]];
  }

  /** A comma. */
  lemma CuttingComma(s: seq<byte>, d: seq<byte>, starts: seq<nat>, names: seq<Name>, i: nat)
    requires Cutting(s, d, starts, names, i) && i < |s| && d[i] == COMMA && |starts| < MAX_PROPOSED_ALGO
    ensures Cutting(s, d[i := 0], starts + [i + 1], names + [s[starts[|names|]..i]], i + 1)
  {
    hide Cut, StringAt;
    var start := starts[|names|];
    var n := s[start..i];
    var rest := s[start..];
    assert d[i] == d[start..][i - start] == rest[i - start];
    assert rest == n + [COMMA] + s[i + 1..];
    CutStep(rest, n, s[i + 1..], MAX_PROPOSED_ALGO - |names|);
    var e := d[i := 0];
    assert d[start..i] == n by { assert d[start..i] == d[start..][..i - start]; }
    StringMade(d, start, n, i);
    assert e[i + 1..] == d[start..][i - start + 1..] == s[i + 1..] + [0];
    forall k | 0 <= k < |names|
      ensures StringAt(e, starts[k], names[k], i + 1)
    {
      StringKept(d, starts[k], names[k], start, i);
    }
  }

  lemma StringMade(d: seq<byte>, p: nat, n: Name, i: nat)
    requires p <= i < |d| && d[p..i] == n && 0 !in n
    ensures StringAt(d[i := 0], p, n, i + 1)
  { }

  lemma StringKept(d: seq<byte>, p: nat, n: Name, end: nat, i: nat)
    requires StringAt(d, p, n, end) && end <= i < |d|
    ensures StringAt(d[i := 0], p, n, i + 1)
  {
    assert d[i := 0][p..p + |n|] == d[p..p + |n|];
  }

  lemma CuttingEnd(s: seq<byte>, d: seq<byte>, starts: seq<nat>, names: seq<Name>, i: nat)
    requires Cutting(s, d, starts, names, i) && (i == |s| || |starts| == MAX_PROPOSED_ALGO)
    ensures RemoteNames(s) == names + [CString(s[starts[|names|]..])]
    ensures StringAt(d, starts[|names|], CString(s[starts[|names|]..]), |d|)
    ensures !Strange(s)
  {
    var start := starts[|names|];
    var rest := s[start..];
    hide Cut, StringAt;
    if i == |s| { assert s[start..i] == rest; }
    CutLast(rest, MAX_PROPOSED_ALGO - |names|);
    var pieces := Cut(s, MAX_PROPOSED_ALGO);
    assert pieces == names + [rest];
    assert pieces[..|names|] == names;
    LastString(d, start, rest);
    NamesClean(d, starts, names, start);
    if |names| < MAX_PROPOSED_ALGO - 1 { assert s[start..i] == rest; }
  }

  lemma LastString(d: seq<byte>, p: nat, rest: seq<byte>)
    requires p <= |d| && d[p..] == rest + [0]
    ensures StringAt(d, p, CString(rest), |d|)
  {
    var n := CString(rest);
    assert d[p..][..|n|] == n && d[p..p + |n|] == d[p..][..|n|];
    assert d[p + |n|] == d[p..][|n|];
  }

  lemma NamesClean(d: seq<byte>, starts: seq<nat>, names: seq<Name>, end: nat)
    requires |starts| >= |names| && forall k :: 0 <= k < |names| ==> StringAt(d, starts[k], names[k], end)
    ensures forall k :: 0 <= k < |names| ==> 0 !in names[k]
  { }

  /** A NUL among the bytes looked at. */
  lemma CuttingNul(s: seq<byte>, d: seq<byte>, starts: seq<nat>, names: seq<Name>, i: nat)
    requires Cutting(s, d, starts, names, i) && i < |s| && d[i] == 0 && |starts| < MAX_PROPOSED_ALGO
    ensures Strange(s)
  {
    var start := starts[|names|];
    var rest := s[start..];
    var c := FirstComma(rest);
    var tail := Cut(rest, MAX_PROPOSED_ALGO - |names|);
    assert d[i] == d[start..][i - start] == rest[i - start];
    assert forall j :: 0 <= j < i - start ==> rest[j] == s[start..i][j];
    assert c > i - start;
    assert 0 in tail[0] by { assert tail[0][i - start] == 0; }
    hide Cut;
    assert Cut(s, MAX_PROPOSED_ALGO)[|names|] == tail[0];
  }

  /** The first loop of buf_match_algo: commas become NULs in place, and starts are the addresses of the names. */
  method CutNames(list: array<byte>, ghost s: seq<byte>) returns (ok: bool, starts: seq<nat>)
    requires list[..] == s + [0]
    modifies list
    ensures ok <==> !Strange(s)
    ensures ok ==> |starts| == |RemoteNames(s)|
    ensures ok ==> forall k :: 0 <= k < |starts| ==> StringAt(list[..], starts[k], RemoteNames(s)[k], list.Length)
  {
    hide Cut, RemoteNames, StringAt, Strange;
    starts := [0];
    ghost var names: seq<Name> := [];
    CuttingStart(s);
    var i := 0;
    while i < list.Length - 1 && |starts| < MAX_PROPOSED_ALGO
      invariant i <= |s| == list.Length - 1
      invariant Cutting(s, list[..], starts, names, i)
      decreases list.Length - i
    {
      if list[i] == 0 {
        CuttingNul(s, list[..], starts, names, i);
        return false, starts;
      }
      if list[i] == COMMA {
        CuttingComma(s, list[..], starts, names, i);
        ghost var d := list[..];
        list[i] := 0;
        assert list[..] == d[i := 0];
        names := names + [s[starts[|names|]..i]];
        starts := starts + [i + 1];
      } else {
        CuttingByte(s, list[..], starts, names, i);
      }
      i := i + 1;
    }
    CuttingEnd(s, list[..], starts, names, i);
    StringsEndEarly(list[..], starts, names);
    ok := true;
  }

  lemma StringsEndEarly(d: seq<byte>, starts: seq<nat>, names: seq<Name>)
    requires |starts| == |names| + 1 && starts[|names|] <= |d|
    requires forall k :: 0 <= k < |names| ==> StringAt(d, starts[k], names[k], starts[|names|])
    ensures forall k :: 0 <= k < |names| ==> StringAt(d, starts[k], names[k], |d|)
  { }
}
