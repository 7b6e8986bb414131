/** Two peers that print and match the same tables choose the same algorithm and judge a guess alike. */
module AlgoAgree {
  import opened Wrappers
  import opened Bytes
  import opened AlgoList
  import opened AlgoMatch

  /** A table as algorithms are listed: short plain names, no more of them than the peer can hold. */
  ghost predicate WellFormed(t: seq<Entry>) {
    && |t| <= MAX_PROPOSED_ALGO
    && (forall i :: 0 <= i < |t| ==> Plain(t[i].name))
    && |Join(Usable(t))| <= ALGOLIST_SIZE
  }

  /** The first client name that the server has too: the rule of section 7.1 of RFC 4253. */
  function FirstCommon(c: seq<Name>, s: seq<Name>): Option<Name> {
    if c == [] then None else if c[0] in s then Some(c[0]) else FirstCommon(c[1..], s)
  }

  // ----- lists as they arrive -----

  lemma {:induction false} UsableFrom(t: seq<Entry>, n: Name)
    ensures n in Usable(t) <==> exists i :: 0 <= i < |t| && t[i].usable && t[i].name == n
    ensures |Usable(t)| <= |t|
  {
    if t != [] {
      UsableFrom(t[1..], n);
      assert forall i :: 0 < i < |t| ==> t[i] == t[1..][i - 1];
    }
  }

  lemma UsablePlain(t: seq<Entry>)
    requires WellFormed(t)
    ensures AllPlain(Usable(t)) && |Usable(t)| <= |t|
  {
    UsableFrom(t, []);
    forall k | 0 <= k < |Usable(t)|
      ensures Plain(Usable(t)[k])
    {
      UsableFrom(t, Usable(t)[k]);
    }
  }

  /** What the peer sees of a table: its usable names, or one empty name. */
  lemma ArrivesAs(t: seq<Entry>)
    requires WellFormed(t)
    ensures !Unfit(Join(Usable(t)))
    ensures RemoteNames(Join(Usable(t))) == if Usable(t) == [] then [[]] else Usable(t)
  {
    UsablePlain(t);
    hide Usable, Join, Cut;
    CutJoin(Usable(t), MAX_PROPOSED_ALGO);
    CleanPieces(Join(Usable(t)), if Usable(t) == [] then [[]] else Usable(t));
  }

  /** Pieces without NULs are the names. */
  lemma CleanPieces(list: seq<byte>, names: seq<Name>)
    requires Cut(list, MAX_PROPOSED_ALGO) == names
    requires forall k :: 0 <= k < |names| ==> names[k] == [] || Plain(names[k])
    ensures !Strange(list) && RemoteNames(list) == names
  {
    hide Cut;
    assert forall k :: 0 <= k < |names| ==> 0 !in names[k];
    var last := names[|names| - 1];
    assert CString(last) == last;
    assert names == names[..|names| - 1] + [last];
  }

  // ----- the choice of each side -----

  lemma {:induction false} FirstCommonAt(c: seq<Name>, s: seq<Name>, i: nat)
    requires i < |c| && c[i] in s && forall k :: 0 <= k < i ==> c[k] !in s
    ensures FirstCommon(c, s) == Some(c[i])
  {
    if i > 0 {
      assert forall k :: 0 <= k < i - 1 ==> c[1..][k] == c[k + 1];
      FirstCommonAt(c[1..], s, i - 1);
    }
  }

  lemma {:induction false} FirstCommonNone(c: seq<Name>, s: seq<Name>)
    ensures FirstCommon(c, s) == None <==> forall k :: 0 <= k < |c| ==> c[k] !in s
  {
    if c != [] {
      FirstCommonNone(c[1..], s);
      assert forall k :: 0 < k < |c| ==> c[k] == c[1..][k - 1];
    }
  }

  /** Unusable entries do not matter for the first common name. */
  lemma {:induction false} FirstCommonUsable(t: seq<Entry>, s: seq<Name>, i: nat)
    requires i < |t| && t[i].usable && t[i].name in s
    requires forall k :: 0 <= k < i && t[k].usable ==> t[k].name !in s
    ensures FirstCommon(Usable(t), s) == Some(t[i].name)
  {
    if i > 0 {
      assert forall k :: 0 <= k < i ==> t[1..][k] == t[k + 1];
      FirstCommonUsable(t[1..], s, i - 1);
    }
  }

  lemma InLocal(t: seq<Entry>, n: Name)
    ensures Some(n) in LocalNames(t) <==> n in Usable(t)
  {
    UsableFrom(t, n);
    hide Usable;
    forall i | 0 <= i < |t| && t[i].usable && t[i].name == n
      ensures Some(n) in LocalNames(t)
    {
      assert LocalNames(t)[i] == Some(n);
    }
  }

  lemma InAll(names: seq<Name>, n: Name)
    ensures Some(n) in AllNames(names) <==> n in names
  {
    forall i | 0 <= i < |names| && names[i] == n
      ensures Some(n) in AllNames(names)
    {
      assert AllNames(names)[i] == Some(n);
    }
  }

  /** The client picks the entry of the first common name. */
  lemma ClientPicks(t: seq<Entry>, names: seq<Name>, g: Option<Guess2>, ret: Option<nat>, good: bool)
    requires Picks(t, false, names, g, ret, good)
    ensures ret == None ==> FirstCommon(Usable(t), names) == None
    ensures ret.Some? ==> ret.value < |t| && FirstCommon(Usable(t), names) == Some(t[ret.value].name)
  {
    forall n: Name ensures Some(n) in AllNames(names) <==> n in names { InAll(names, n); }
    if ret == None {
      FirstCommonNone(Usable(t), names);
      forall k | 0 <= k < |Usable(t)|
        ensures Usable(t)[k] !in names
      {
        UsableFrom(t, Usable(t)[k]);
        var i :| 0 <= i < |t| && t[i].usable && t[i].name == Usable(t)[k];
        assert LocalNames(t)[i] == Some(t[i].name);
      }
    } else {
      var i: nat, j: nat :| FirstMatch(LocalNames(t), AllNames(names), i, j) && ret == Some(i)
        && good == GoodGuess(g, i, j);
      assert LocalNames(t)[i] == AllNames(names)[j];
      assert forall k :: 0 <= k < i && t[k].usable ==> LocalNames(t)[k] == Some(t[k].name);
      FirstCommonUsable(t, names, i);
    }
  }

  /** So does the server. */
  lemma ServerPicks(t: seq<Entry>, names: seq<Name>, g: Option<Guess2>, ret: Option<nat>, good: bool)
    requires Picks(t, true, names, g, ret, good)
    ensures ret == None ==> FirstCommon(names, Usable(t)) == None
    ensures ret.Some? ==> ret.value < |t| && FirstCommon(names, Usable(t)) == Some(t[ret.value].name)
  {
    forall n: Name ensures Some(n) in LocalNames(t) <==> n in Usable(t) { InLocal(t, n); }
    if ret == None {
      FirstCommonNone(names, Usable(t));
      assert forall k :: 0 <= k < |names| ==> AllNames(names)[k] == Some(names[k]);
    } else {
      var i: nat, j: nat :| FirstMatch(AllNames(names), LocalNames(t), i, j) && ret == Some(j)
        && good == GoodGuess(g, i, j);
      assert AllNames(names)[i] == LocalNames(t)[j];
      assert forall k :: 0 <= k < i ==> AllNames(names)[k] == Some(names[k]);
      FirstCommonAt(names, Usable(t), i);
    }
  }

  /** An empty list arrives as one empty name, which nobody has. */
  lemma EmptyListHarmless(c: seq<Name>)
    requires AllPlain(c)
    ensures FirstCommon(c, [[]]) == None == FirstCommon(c, []) && FirstCommon([[]], c) == None == FirstCommon([], c)
  {
    assert [] !in c by {
      forall i | 0 <= i < |c| ensures c[i] != [] { assert Plain(c[i]); }
    }
    FirstCommonNone(c, [[]]);
    FirstCommonNone(c, []);
    FirstCommonNone([[]], c);
  }

  /**
   Negotiation agreement: each side matches its own table with the list the other printed, and both
   find the first usable client name that the server can use, or both find nothing.
   */
  lemma SidesAgree(c: seq<Entry>, s: seq<Entry>, gc: Option<Guess2>, rc: Option<nat>, goodc: bool,
                   gs: Option<Guess2>, rs: Option<nat>, goods: bool)
    requires WellFormed(c) && WellFormed(s)
    requires Picks(c, false, RemoteNames(Join(Usable(s))), gc, rc, goodc)
    requires Picks(s, true, RemoteNames(Join(Usable(c))), gs, rs, goods)
    ensures var common := FirstCommon(Usable(c), Usable(s));
            && (rc == None <==> common == None) && (rs == None <==> common == None)
            && (rc.Some? ==> rc.value < |c| && common == Some(c[rc.value].name))
            && (rs.Some? ==> rs.value < |s| && common == Some(s[rs.value].name))
  {
    hide Picks, RemoteNames, Unfit, Join, Usable;
    ArrivesAs(c);
    ArrivesAs(s);
    UsablePlain(c);
    UsablePlain(s);
    ClientPicks(c, RemoteNames(Join(Usable(s))), gc, rc, goodc);
    ServerPicks(s, RemoteNames(Join(Usable(c))), gs, rs, goods);
    EmptyListHarmless(Usable(c));
    EmptyListHarmless(Usable(s));
  }

  // ----- guessed packets -----

  predicate HeadUsable(t: seq<Entry>) {
    t != [] && t[0].usable
  }

  /**
   The client's guess is good when the first entry of its table is usable and is the one chosen (kexguess2), or also
   heads the server's list.
   */
  lemma ClientJudges(t: seq<Entry>, names: seq<Name>, g: Guess2, ret: Option<nat>, good: bool)
    requires Picks(t, false, names, Some(g), ret, good)
    ensures good <==> HeadUsable(t) && (if g == Yes then t[0].name in names else names != [] && t[0].name == names[0])
  {
    hide Usable;
    if t != [] {
      InAll(names, t[0].name);
      assert LocalNames(t)[0] == if t[0].usable then Some(t[0].name) else None;
    }
    assert names != [] ==> AllNames(names)[0] == Some(names[0]);
  }

  /** The server judges by the first usable client name, and by the first entry of its own table. */
  lemma ServerJudges(t: seq<Entry>, names: seq<Name>, g: Guess2, ret: Option<nat>, good: bool)
    requires Picks(t, true, names, Some(g), ret, good) && names != []
    ensures good <==> (if g == Yes then names[0] in Usable(t) else HeadUsable(t) && t[0].name == names[0])
  {
    hide Usable;
    InLocal(t, names[0]);
    assert AllNames(names)[0] == Some(names[0]);
    assert t != [] ==> LocalNames(t)[0] == if t[0].usable then Some(t[0].name) else None;
  }

  lemma HeadOfUsable(t: seq<Entry>)
    ensures HeadUsable(t) ==> Usable(t) != [] && Usable(t)[0] == t[0].name
  { }

  /** When the two sides come to the same verdict on one list. */
  ghost predicate SameVerdict(c: seq<Entry>, s: seq<Entry>, g: Guess2) {
    var cn, sn := Usable(c), Usable(s);
    if g == Yes then HeadUsable(c) || cn == [] || cn[0] !in sn
    else HeadUsable(c) == HeadUsable(s) || cn == [] || sn == [] || cn[0] != sn[0]
  }

  /** No well-formed name is empty, so an empty list cannot be matched. */
  lemma NoEmptyName(t: seq<Entry>)
    requires WellFormed(t)
    ensures [] !in Usable(t) && (HeadUsable(t) ==> t[0].name != [])
  {
    UsablePlain(t);
    hide Usable, Join;
    assert forall i :: 0 <= i < |Usable(t)| ==> Plain(Usable(t)[i]);
  }

  lemma ClientVerdict(c: seq<Entry>, s: seq<Entry>, g: Guess2, rc: Option<nat>, goodc: bool)
    requires WellFormed(c) && WellFormed(s)
    requires Picks(c, false, RemoteNames(Join(Usable(s))), Some(g), rc, goodc)
    ensures goodc <==>
            && HeadUsable(c) && Usable(c) != [] && Usable(s) != []
            && if g == Yes then Usable(c)[0] in Usable(s) else Usable(c)[0] == Usable(s)[0]
  {
    HeadOfUsable(c);
    NoEmptyName(c);
    hide Picks, RemoteNames, Unfit, Join, Usable, WellFormed;
    ArrivesAs(s);
    ClientJudges(c, RemoteNames(Join(Usable(s))), g, rc, goodc);
  }

  lemma ServerVerdict(c: seq<Entry>, s: seq<Entry>, g: Guess2, rs: Option<nat>, goods: bool)
    requires WellFormed(c) && WellFormed(s)
    requires Picks(s, true, RemoteNames(Join(Usable(c))), Some(g), rs, goods)
    ensures goods <==>
            && Usable(c) != [] && Usable(s) != []
            && if g == Yes then Usable(c)[0] in Usable(s) else HeadUsable(s) && Usable(c)[0] == Usable(s)[0]
  {
    HeadOfUsable(s);
    NoEmptyName(s);
    hide Picks, RemoteNames, Unfit, Join, Usable, WellFormed;
    ArrivesAs(c);
    ServerJudges(s, RemoteNames(Join(Usable(c))), g, rs, goods);
  }

  /** Both sides judge a guess alike exactly when an unusable first entry does not come between them. */
  lemma VerdictsAgree(c: seq<Entry>, s: seq<Entry>, g: Guess2, rc: Option<nat>, goodc: bool, rs: Option<nat>,
                      goods: bool)
    requires WellFormed(c) && WellFormed(s)
    requires Picks(c, false, RemoteNames(Join(Usable(s))), Some(g), rc, goodc)
    requires Picks(s, true, RemoteNames(Join(Usable(c))), Some(g), rs, goods)
    ensures goodc == goods <==> SameVerdict(c, s, g)
  {
    HeadOfUsable(c);
    hide Picks, RemoteNames, Unfit, Join, Usable, WellFormed;
    ClientVerdict(c, s, g, rc, goodc);
    ServerVerdict(c, s, g, rs, goods);
  }

  /**
   A server that has disabled its first entry, for want of a host key, does not see in plain mode that the guess was
   right: the client does not repeat what the server skips.
   */
  lemma DisabledServerHead(a: Name, b: Name, rc: Option<nat>, goodc: bool, rs: Option<nat>, goods: bool)
    requires Plain(a) && Plain(b) && |b| <= MAX_NAME_LEN
    requires var c, s := [Entry(b, true)], [Entry(a, false), Entry(b, true)];
             && Picks(c, false, RemoteNames(Join(Usable(s))), Some(No), rc, goodc)
             && Picks(s, true, RemoteNames(Join(Usable(c))), Some(No), rs, goods)
    ensures goodc && !goods
  {
    var c, s := [Entry(b, true)], [Entry(a, false), Entry(b, true)];
    TwoEntries(a, b);
    hide Usable, Picks, RemoteNames, Join, WellFormed;
    ClientVerdict(c, s, No, rc, goodc);
    ServerVerdict(c, s, No, rs, goods);
  }

  lemma TwoEntries(a: Name, b: Name)
    requires Plain(a) && Plain(b) && |b| <= MAX_NAME_LEN
    ensures var one, two := [Entry(b, true)], [Entry(a, false), Entry(b, true)];
            WellFormed(one) && WellFormed(two) && Usable(one) == [b] == Usable(two)
  {
    var one, two := [Entry(b, true)], [Entry(a, false), Entry(b, true)];
    assert two[1..] == one && one[1..] == [];
  }

  /** A disabled first entry on the client's side would make the server take the second entry for the guess. */
  lemma UnusableHeadDiffers(a: Name, b: Name, g: Guess2, rc: Option<nat>, goodc: bool, rs: Option<nat>, goods: bool)
    requires Plain(a) && Plain(b) && |b| <= MAX_NAME_LEN
    requires var c, s := [Entry(a, false), Entry(b, true)], [Entry(b, true)];
             && Picks(c, false, RemoteNames(Join(Usable(s))), Some(g), rc, goodc)
             && Picks(s, true, RemoteNames(Join(Usable(c))), Some(g), rs, goods)
    ensures !goodc && goods
  {
    var c, s := [Entry(a, false), Entry(b, true)], [Entry(b, true)];
    TwoEntries(a, b);
    hide Usable, Picks, RemoteNames, Join, WellFormed;
    ClientVerdict(c, s, g, rc, goodc);
    ServerVerdict(c, s, g, rs, goods);
  }

  /** A table has the kexguess2 entry exactly when the program was built with it. */
  predicate Announces(t: seq<Entry>, built: bool) {
    built <==> KEXGUESS2_ALGO_NAME in Usable(t)
  }

  function StartMode(built: bool): Option<Guess2> {
    Some(if built then Look else No)
  }

  /** Both sides end up in the same mode: kexguess2 if both were built with it. */
  lemma ModesAgree(c: seq<Entry>, s: seq<Entry>, builtc: bool, builts: bool)
    requires WellFormed(c) && WellFormed(s) && Announces(c, builtc) && Announces(s, builts)
    ensures Looked(StartMode(builtc), RemoteNames(Join(Usable(s)))) == Some(if builtc && builts then Yes else No)
    ensures Looked(StartMode(builts), RemoteNames(Join(Usable(c)))) == Some(if builtc && builts then Yes else No)
  {
    ArrivesAs(c);
    ArrivesAs(s);
    hide Usable, Join, RemoteNames;
  }

  /** The lists that decide about a guessed packet, as one side reads them; allgood is the conjunction. */
  ghost predicate Judged(kex: seq<Entry>, host: seq<Entry>, server: bool, kexlist: seq<byte>, hostlist: seq<byte>,
                         built: bool, allgood: bool)
  {
    var g := Looked(StartMode(built), RemoteNames(kexlist));
    exists r1: Option<nat>, good1, r2: Option<nat>, good2 ::
      && Picks(kex, server, RemoteNames(kexlist), g, r1, good1)
      && Picks(host, server, RemoteNames(hostlist), g, r2, good2)
      && allgood == (good1 && good2)
  }

  /** The client sends KEXDH_INIT after KEXINIT unless its guess was taken as right (our_first_follows_matches). */
  predicate ClientSendsInit(guessing: bool, allgood: bool) {
    !(guessing && allgood)
  }

  /** The server skips one packet if one follows and the guess was wrong (ignorenext). */
  predicate ServerSkips(follows: bool, allgood: bool) {
    follows && !allgood
  }

  /** The names at the head of both lists would make the guess right. */
  predicate HeadsMatch(c: seq<Entry>, s: seq<Entry>, g: Guess2) {
    var cn, sn := Usable(c), Usable(s);
    cn != [] && sn != [] && if g == Yes then cn[0] in sn else cn[0] == sn[0]
  }

  /**
   When both sides come to the same verdict on the two lists together: the heads that count are usable on both sides
   or on neither.
   */
  predicate SameVerdicts(ckex: seq<Entry>, skex: seq<Entry>, chost: seq<Entry>, shost: seq<Entry>, g: Guess2) {
    HeadsMatch(ckex, skex, g) && HeadsMatch(chost, shost, g) ==>
      (HeadUsable(ckex) && HeadUsable(chost) <==> g == Yes || (HeadUsable(skex) && HeadUsable(shost)))
  }

  /**
   How many KEXDH_INIT the server is left with: it acts on the first, and answers another with UNIMPLEMENTED.
   */
  function InitsNotSkipped(guessing: bool, goodc: bool, goods: bool): int {
    (if guessing then 1 else 0) + (if ClientSendsInit(guessing, goodc) then 1 else 0)
    - (if ServerSkips(guessing, goods) then 1 else 0)
  }

  /** The guess is right for both, but in plain mode the server cannot see it past a disabled first entry. */
  predicate ServerMisses(ckex: seq<Entry>, skex: seq<Entry>, chost: seq<Entry>, shost: seq<Entry>, g: Guess2) {
    && g != Yes && HeadsMatch(ckex, skex, g) && HeadsMatch(chost, shost, g)
    && HeadUsable(ckex) && HeadUsable(chost) && !(HeadUsable(skex) && HeadUsable(shost))
  }

  /**
   The client repeats a guessed KEXDH_INIT exactly when the server skips it, and so the server is left with exactly
   one, if and only if there is no guess or the usable heads of the four tables agree; it is left with none exactly
   when it misses a guess that was right.
   */
  lemma ExactlyOneInit(ckex: seq<Entry>, skex: seq<Entry>, chost: seq<Entry>, shost: seq<Entry>,
                       builtc: bool, builts: bool, goodc: bool, goods: bool, guessing: bool)
    requires WellFormed(ckex) && WellFormed(skex) && WellFormed(chost) && WellFormed(shost)
    requires Announces(ckex, builtc) && Announces(skex, builts)
    requires Judged(ckex, chost, false, Join(Usable(skex)), Join(Usable(shost)), builtc, goodc)
    requires Judged(skex, shost, true, Join(Usable(ckex)), Join(Usable(chost)), builts, goods)
    ensures var g := if builtc && builts then Yes else No;
            var left := InitsNotSkipped(guessing, goodc, goods);
            && (goodc == goods <==> SameVerdicts(ckex, skex, chost, shost, g))
            && (left == 1 <==> !guessing || SameVerdicts(ckex, skex, chost, shost, g))
            && (left == 0 <==> guessing && ServerMisses(ckex, skex, chost, shost, g))
  {
    hide Picks, RemoteNames, Join, Usable, WellFormed, Announces, Looked, SameVerdicts, HeadsMatch, ServerMisses;
    ModesAgree(ckex, skex, builtc, builts);
    var g := if builtc && builts then Yes else No;
    AllGood(ckex, skex, chost, shost, g, builtc, goodc, builts, goods);
  }

  /** In particular when all four heads are usable, and in kexguess2 mode when the client's are. */
  lemma UsableHeadsAgree(ckex: seq<Entry>, skex: seq<Entry>, chost: seq<Entry>, shost: seq<Entry>, g: Guess2)
    requires HeadUsable(ckex) && HeadUsable(chost) && (g == Yes || (HeadUsable(skex) && HeadUsable(shost)))
    ensures SameVerdicts(ckex, skex, chost, shost, g)
  { }

  lemma AllGood(ckex: seq<Entry>, skex: seq<Entry>, chost: seq<Entry>, shost: seq<Entry>, g: Guess2,
                builtc: bool, goodc: bool, builts: bool, goods: bool)
    requires WellFormed(ckex) && WellFormed(skex) && WellFormed(chost) && WellFormed(shost)
    requires Judged(ckex, chost, false, Join(Usable(skex)), Join(Usable(shost)), builtc, goodc)
    requires Judged(skex, shost, true, Join(Usable(ckex)), Join(Usable(chost)), builts, goods)
    requires Looked(StartMode(builtc), RemoteNames(Join(Usable(skex)))) == Some(g)
    requires Looked(StartMode(builts), RemoteNames(Join(Usable(ckex)))) == Some(g)
    ensures goodc == goods <==> SameVerdicts(ckex, skex, chost, shost, g)
    ensures goodc && !goods <==> ServerMisses(ckex, skex, chost, shost, g)
  {
    ClientJudged(ckex, skex, chost, shost, g, builtc, goodc);
    ServerJudged(ckex, skex, chost, shost, g, builts, goods);
    hide Judged, RemoteNames, Join, Usable, WellFormed, Looked, StartMode, HeadUsable, HeadsMatch;
  }

  lemma ClientJudged(ckex: seq<Entry>, skex: seq<Entry>, chost: seq<Entry>, shost: seq<Entry>, g: Guess2, built: bool,
                     good: bool)
    requires WellFormed(ckex) && WellFormed(skex) && WellFormed(chost) && WellFormed(shost)
    requires Judged(ckex, chost, false, Join(Usable(skex)), Join(Usable(shost)), built, good)
    requires Looked(StartMode(built), RemoteNames(Join(Usable(skex)))) == Some(g)
    ensures good <==> HeadUsable(ckex) && HeadsMatch(ckex, skex, g) && HeadUsable(chost) && HeadsMatch(chost, shost, g)
  {
    hide Picks, RemoteNames, Join, Usable, WellFormed, Looked, StartMode, HeadUsable;
    var r1: Option<nat>, good1, r2: Option<nat>, good2 :|
      && Picks(ckex, false, RemoteNames(Join(Usable(skex))), Some(g), r1, good1)
      && Picks(chost, false, RemoteNames(Join(Usable(shost))), Some(g), r2, good2)
      && good == (good1 && good2);
    ClientVerdict(ckex, skex, g, r1, good1);
    ClientVerdict(chost, shost, g, r2, good2);
  }

  lemma ServerJudged(ckex: seq<Entry>, skex: seq<Entry>, chost: seq<Entry>, shost: seq<Entry>, g: Guess2, built: bool,
                     good: bool)
    requires WellFormed(ckex) && WellFormed(skex) && WellFormed(chost) && WellFormed(shost)
    requires Judged(skex, shost, true, Join(Usable(ckex)), Join(Usable(chost)), built, good)
    requires Looked(StartMode(built), RemoteNames(Join(Usable(ckex)))) == Some(g)
    ensures good <==>
            && HeadsMatch(ckex, skex, g) && HeadsMatch(chost, shost, g)
            && (g == Yes || (HeadUsable(skex) && HeadUsable(shost)))
  {
    hide Picks, RemoteNames, Join, Usable, WellFormed, Looked, StartMode, HeadUsable;
    var q1: Option<nat>, ok1, q2: Option<nat>, ok2 :|
      && Picks(skex, true, RemoteNames(Join(Usable(ckex))), Some(g), q1, ok1)
      && Picks(shost, true, RemoteNames(Join(Usable(chost))), Some(g), q2, ok2)
      && good == (ok1 && ok2);
    ServerVerdict(ckex, skex, g, q1, ok1);
    ServerVerdict(chost, shost, g, q2, ok2);
  }
}
