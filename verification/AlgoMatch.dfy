/** Matching the peer's name list with the local table, and judging guessed first packets. */
module AlgoMatch {
  import opened Wrappers
  import opened Bytes
  import opened Wire
  import opened Buffer
  import opened AlgoList

  /** Whether the peer announces kexguess2 is looked up once, in its first list. */
  datatype Guess2 = Look | No | Yes

  /** "kexguess2@matt.ucc.asn.au". */
  const KEXGUESS2_ALGO_NAME: Name :=
    [0x6b, 0x65, 0x78, 0x67, 0x75, 0x65, 0x73, 0x73, 0x32, 0x40, 0x6d, 0x61, 0x74, 0x74, 0x2e,
     0x75, 0x63, 0x63, 0x2e, 0x61, 0x73, 0x6e, 0x2e, 0x61, 0x75]

  // ----- the search -----

  /** The names of a table in their places; None is the null pointer of an unusable entry. */
  function LocalNames(t: seq<Entry>): (r: seq<Option<Name>>)
    ensures |r| == |t|
  {
    seq(|t|, i requires 0 <= i < |t| => if t[i].usable then Some(t[i].name) else None)
  }

  function AllNames(names: seq<Name>): (r: seq<Option<Name>>)
    ensures |r| == |names|
  {
    seq(|names|, i requires 0 <= i < |names| => Some(names[i]))
  }

  predicate Same(a: Option<Name>, b: Option<Name>) {
    a.Some? && a == b
  }

  predicate In(a: Option<Name>, serv: seq<Option<Name>>) {
    a.Some? && a in serv
  }

  /** No earlier client name is on the server's list, and j is the first place of this one. */
  ghost predicate FirstMatch(cli: seq<Option<Name>>, serv: seq<Option<Name>>, i: nat, j: nat) {
    && i < |cli| && j < |serv| && Same(cli[i], serv[j])
    && (forall k :: 0 <= k < i ==> !In(cli[k], serv))
    && (forall k :: 0 <= k < j ==> !Same(cli[i], serv[k]))
  }

  ghost predicate NoMatch(cli: seq<Option<Name>>, serv: seq<Option<Name>>) {
    forall k :: 0 <= k < |cli| ==> !In(cli[k], serv)
  }

  /** The nested loops of buf_match_algo. */
  method FindMatch(cli: seq<Option<Name>>, serv: seq<Option<Name>>) returns (found: bool, i: nat, j: nat)
    ensures found ==> FirstMatch(cli, serv, i, j)
    ensures !found ==> NoMatch(cli, serv)
  {
    i, j := 0, 0;
    while i < |cli|
      invariant i <= |cli|
      invariant forall k :: 0 <= k < i ==> !In(cli[k], serv)
    {
      j := 0;
      while j < |serv|
        invariant j <= |serv|
        invariant forall k :: 0 <= k < j ==> !Same(cli[i], serv[k])
      {
        if serv[j].Some? && cli[i].Some? && serv[j].value == cli[i].value {
          return true, i, j;
        }
        j := j + 1;
      }
      i := i + 1;
    }
    return false, i, j;
  }

  predicate GoodGuess(g: Option<Guess2>, i: nat, j: nat) {
    g.Some? && if g.value == Yes then i == 0 else i == 0 && j == 0
  }

  function Looked(g: Option<Guess2>, names: seq<Name>): Option<Guess2> {
    if g == Some(Look) then Some(if KEXGUESS2_ALGO_NAME in names then Yes else No) else g
  }

  /** What buf_match_algo answers for a table and the peer's names: the index of an entry of the table, if any. */
  ghost predicate Picks(t: seq<Entry>, server: bool, names: seq<Name>, g: Option<Guess2>, ret: Option<nat>,
                        good: bool) {
    var cli := if server then AllNames(names) else LocalNames(t);
    var serv := if server then LocalNames(t) else AllNames(names);
    || (ret == None && !good && NoMatch(cli, serv))
    || exists i: nat, j: nat ::
         && FirstMatch(cli, serv, i, j)
         && ret == Some(if server then j else i) && good == GoodGuess(g, i, j)
  }

  /**
   What the verdict on a guess means: with kexguess2 that the client's first entry is on the server's list, and so
   is the choice; without it that the first entries of both are the same.
   */
  lemma GuessMeaning(t: seq<Entry>, server: bool, names: seq<Name>, g: Option<Guess2>, ret: Option<nat>, good: bool)
    requires Picks(t, server, names, g, ret, good)
    ensures var cli := if server then AllNames(names) else LocalNames(t);
            var serv := if server then LocalNames(t) else AllNames(names);
            good <==> && g.Some? && cli != [] && serv != []
                      && if g == Some(Yes) then In(cli[0], serv) else Same(cli[0], serv[0])
  {
    var cli := if server then AllNames(names) else LocalNames(t);
    var serv := if server then LocalNames(t) else AllNames(names);
    hide LocalNames, AllNames;
    if i: nat, j: nat :| FirstMatch(cli, serv, i, j) && good == GoodGuess(g, i, j) {
      assert In(cli[i], serv);
      assert Same(cli[0], serv[0]) ==> In(cli[0], serv);
    }
  }

  /** Lists that are refused before any name is compared. */
  ghost predicate Unfit(list: seq<byte>) {
    |list| > MAX_PROPOSED_ALGO * (MAX_NAME_LEN + 1) || Strange(list)
  }

  /** The C strings at the given addresses. */
  method ReadNames(list: array<byte>, starts: seq<nat>, ghost names: seq<Name>) returns (r: seq<Name>)
    requires |starts| == |names|
    requires forall k :: 0 <= k < |starts| ==> StringAt(list[..], starts[k], names[k], list.Length)
    ensures r == names
  {
    r := [];
    for k := 0 to |starts|
      invariant r == names[..k]
    {
      assert StringAt(list[..], starts[k], names[k], list.Length);
      CStringAt(list[..], starts[k], names[k], list.Length);
      r := r + [CString(list[starts[k]..])];
    }
  }

  lemma CStringAt(d: seq<byte>, p: nat, n: Name, end: nat)
    requires StringAt(d, p, n, end)
    ensures p <= |d| && CString(d[p..]) == n
  {
    var r := CString(d[p..]);
    assert d[p..][|n|] == 0 && d[p..][..|n|] == n;
    assert forall k :: 0 <= k < |r| ==> d[p..][k] == r[k];
    assert forall k :: 0 <= k < |n| ==> d[p..][k] == n[k];
  }

  /** buf_match_algo on one string of the peer's KEXINIT; the table fits the array of MAX_PROPOSED_ALGO names. */
  method BufMatchAlgo(buf: Buf, t: seq<Entry>, server: bool, guess: Option<Guess2>)
    returns (exit: bool, ret: Option<nat>, g: Option<Guess2>, good: bool)
    requires buf.Valid() && |t| <= MAX_PROPOSED_ALGO
    modifies buf`pos
    ensures buf.Valid() && (exit <==> !ReadString(old(buf.Rest())).Parsed?)
    ensures !exit ==> ReadString(old(buf.Rest())).rest == buf.Rest()
    ensures !exit ==>
              var list := ReadString(old(buf.Rest())).value;
              if Unfit(list) then ret == None && !good && g == guess
              else g == Looked(guess, RemoteNames(list)) && Picks(t, server, RemoteNames(list), g, ret, good)
  {
    ret, g, good := None, guess, false;
    var ok, list := buf.GetString();
    if !ok { return true, ret, g, good; }
    exit := false;
    ret, g, good := MatchList(list, t, server, guess);
  }

  method MatchList(list: seq<byte>, t: seq<Entry>, server: bool, guess: Option<Guess2>)
    returns (ret: Option<nat>, g: Option<Guess2>, good: bool)
    requires |t| <= MAX_PROPOSED_ALGO
    ensures if Unfit(list) then ret == None && !good && g == guess
            else g == Looked(guess, RemoteNames(list)) && Picks(t, server, RemoteNames(list), g, ret, good)
  {
    hide RemoteNames, Strange, StringAt;
    ret, g, good := None, guess, false;
    if |list| > MAX_PROPOSED_ALGO * (MAX_NAME_LEN + 1) { return; }
    var algolist := CopyOf(list);
    var ok, starts := CutNames(algolist, list);
    if !ok { return; }
    var remotenames := ReadNames(algolist, starts, RemoteNames(list));
    g := Looked(guess, remotenames);
    var localnames := LocalNames(t);
    var clinames := if server then AllNames(remotenames) else localnames;
    var servnames := if server then localnames else AllNames(remotenames);
    var found, i, j := FindMatch(clinames, servnames);
    if found {
      good := GoodGuess(g, i, j);
      ret := Some(if server then j else i);
    }
  }

  /** The string with its terminating NUL, as buf_getstring allocates it. */
  method CopyOf(list: seq<byte>) returns (a: array<byte>)
    ensures fresh(a) && a[..] == list + [0]
  {
    a := new byte[|list| + 1](i => 0);
    for i := 0 to |list|
      invariant a[..i] == list[..i] && a[|list|] == 0
    {
      a[i] := list[i];
    }
  }
}
