/** One whole key exchange: from the tables and the private values of two peers to the keys they use. */
module KexAgreement {
  import opened Wrappers
  import opened Bytes
  import opened Wire
  import opened Buffer
  import opened DssMath
  import opened AlgoList
  import opened KexInit
  import opened KexHash
  import opened KexKeys
  import KexModel

  /** What a key exchange method of the program stands for: its hash and its group. */
  datatype Method = Method(hash: seq<byte> -> seq<byte>, size: nat, p: nat)

  ghost predicate Supported(m: Method) {
    Digests(m.hash, m.size) && m.p > 0 && MpintFits(m.p)
  }

  /** What a side holds after gen_new_keys. */
  datatype Result = Result(transcript: seq<byte>, secret: nat, h: seq<byte>, sid: seq<byte>,
                           trans: DirKeys, recv: DirKeys, transAlgos: Direction, recvAlgos: Direction)

  predicate Chose(r: Chosen) {
    r.trans.mac.Some? && r.recv.mac.Some?
  }

  /** What one side computes from what it knows and has chosen; macLen gives the key length of each MAC. */
  ghost function SideResult(server: bool, m: Method, w: Knowledge, priv: nat, r: Chosen, macLen: Name -> nat,
                            sid: Option<seq<byte>>): Result
    requires Supported(m) && Sized(w) && Chose(r)
  {
    FitsPower(w.them, priv, m.p);
    var k := ExptMod(w.them, priv, m.p);
    var t := SideTranscript(server, w, k);
    var h := m.hash(t);
    var id := KexModel.SessionId(sid, h);
    var base := MpintWire(k) + h;
    Result(t, k, h, id, DirectionKeys(m.hash, m.size, base, id, !server, macLen(r.trans.mac.value)),
           DirectionKeys(m.hash, m.size, base, id, server, macLen(r.recv.mac.value)), r.trans, r.recv)
  }

  /** The exchange of one side, by its methods: finish_kexhashbuf, then gen_new_keys. */
  method Exchange(server: bool, m: Method, w: Knowledge, priv: nat, r: Chosen, macLen: Name -> nat,
                  sid: Option<seq<byte>>)
    returns (ok: bool, h: seq<byte>, id: seq<byte>, trans: DirKeys, recv: DirKeys)
    requires Supported(m) && Sized(w) && Chose(r)
    ensures ok ==>
              var s := SideResult(server, m, w, priv, r, macLen, sid);
              h == s.h && id == s.sid && trans == s.trans && recv == s.recv
    ensures ok ==> 1 < w.them < m.p - 1
    ensures 1 < w.them < m.p - 1 && |w.local| + |w.remote| + |w.sent| + |w.received| + ALLOWANCE <= BUF_MAX_SIZE ==>
              var k := ExptMod(w.them, priv, m.p);
              && MpintFits(k)
              && (ok <==> 16 + |SideTail(server, w.hostkey, w.pub, w.them, k)| <= ALLOWANCE
                          && |MpintWire(k)| <= MP_BUFFER_SIZE)
  {
    hide SideTranscript, DirectionKeys, Digests, MpintFits, ExptMod, SideTail, MpintWire;
    h, id, trans, recv := [], [], DirKeys([], [], []), DirKeys([], [], []);
    var k;
    ok, k, h := ExchangeHash(server, w, m.p, priv, m.hash);
    if !ok { return; }
    id := KexModel.SessionId(sid, h);
    ok, trans, recv := GenNewKeys(server, m.hash, m.size, k, h, id, macLen(r.trans.mac.value),
      macLen(r.recv.mac.value));
  }

  // ----- rekeying -----

  /** What one side brings to one of its exchanges. */
  datatype Round = Round(m: Method, w: Knowledge, priv: nat, chosen: Chosen)

  ghost predicate Complete(r: Round) {
    Supported(r.m) && Sized(r.w) && Chose(r.chosen)
  }

  /** The exchanges of one side in turn, each with the session id that the one before has left. */
  ghost function Session(server: bool, rounds: seq<Round>, macLen: Name -> nat,
                         sid: Option<seq<byte>>): (rs: seq<Result>)
    requires forall i :: 0 <= i < |rounds| ==> Complete(rounds[i])
    ensures |rs| == |rounds|
  {
    if rounds == [] then []
    else
      assert Complete(rounds[0]);
      var r := SideResult(server, rounds[0].m, rounds[0].w, rounds[0].priv, rounds[0].chosen, macLen, sid);
      [r] + Session(server, rounds[1..], macLen, Some(r.sid))
  }

  /** The keys of an exchange: from its own secret and hash, and from the session id. */
  ghost predicate KeyedBy(server: bool, r: Round, macLen: Name -> nat, x: Result, id: seq<byte>)
    requires Complete(r)
  {
    && MpintFits(x.secret) && x.secret == ExptMod(r.w.them, r.priv, r.m.p)
    && x.h == r.m.hash(SideTranscript(server, r.w, x.secret))
    && x.trans == DirectionKeys(r.m.hash, r.m.size, MpintWire(x.secret) + x.h, id, !server,
                                macLen(r.chosen.trans.mac.value))
    && x.recv == DirectionKeys(r.m.hash, r.m.size, MpintWire(x.secret) + x.h, id, server,
                               macLen(r.chosen.recv.mac.value))
  }

  lemma RoundKeyed(server: bool, r: Round, macLen: Name -> nat, sid: Option<seq<byte>>)
    requires Complete(r)
    ensures var x := SideResult(server, r.m, r.w, r.priv, r.chosen, macLen, sid);
            var id := if sid.Some? then sid.value else x.h;
            x.sid == id && KeyedBy(server, r, macLen, x, id)
  {
    FitsPower(r.w.them, r.priv, r.m.p);
    hide SideTranscript, DirectionKeys, Digests, MpintFits, ExptMod, MpintWire;
  }

  lemma {:induction false} SessionKeeps(server: bool, rounds: seq<Round>, macLen: Name -> nat, id: seq<byte>, i: nat)
    requires (forall j :: 0 <= j < |rounds| ==> Complete(rounds[j])) && i < |rounds|
    ensures var x := Session(server, rounds, macLen, Some(id))[i];
            x.sid == id && KeyedBy(server, rounds[i], macLen, x, id)
    decreases i
  {
    hide Complete, KeyedBy, SideResult;
    RoundKeyed(server, rounds[0], macLen, Some(id));
    if i > 0 { SessionKeeps(server, rounds[1..], macLen, id, i - 1); }
  }

  /** However often a session rekeys, its id is the hash of its first exchange, and all its keys come from that. */
  lemma FirstHashIsSessionId(server: bool, rounds: seq<Round>, macLen: Name -> nat, i: nat)
    requires (forall j :: 0 <= j < |rounds| ==> Complete(rounds[j])) && i < |rounds|
    ensures var xs := Session(server, rounds, macLen, None);
            xs[i].sid == xs[0].h && KeyedBy(server, rounds[i], macLen, xs[i], xs[0].h)
  {
    hide Complete, KeyedBy, SideResult;
    RoundKeyed(server, rounds[0], macLen, None);
    var x := Session(server, rounds, macLen, None)[0];
    if i > 0 { SessionKeeps(server, rounds[1..], macLen, x.h, i - 1); }
  }

  function Swapped(s: Result): Result {
    s.(trans := s.recv, recv := s.trans, transAlgos := s.recvAlgos, recvAlgos := s.transAlgos)
  }

  /** Given the same choice and matching private values, each side has what the other has, directions exchanged. */
  lemma ResultsAgree(m: Method, w: Knowledge, x: nat, y: nat, g: nat, rc: Chosen, rs: Chosen, macLen: Name -> nat,
                     sid: Option<seq<byte>>)
    requires Supported(m) && Sized(w) && Chose(rc) && rc.trans == rs.recv && rc.recv == rs.trans
    requires w.pub == ExptMod(g, x, m.p) && w.them == ExptMod(g, y, m.p)
    ensures SideResult(false, m, w, x, rc, macLen, sid) == Swapped(SideResult(true, m, Mirrored(w), y, rs, macLen, sid))
  {
    hide ExptMod, SideTranscript, DirectionKeys, MpintFits, MpintWire, Digests;
    FitsPower(w.them, x, m.p);
    SecretsEqual(g, m.p, x, y);
    TranscriptsAgree(w, ExptMod(w.them, x, m.p));
  }

  /** One exchange as the client and the server know it, in a group generated by g. */
  ghost predicate Meets(c: Round, s: Round, g: nat) {
    && Complete(c) && s.m == c.m && s.w == Mirrored(c.w)
    && c.w.pub == ExptMod(g, c.priv, c.m.p) && c.w.them == ExptMod(g, s.priv, c.m.p)
    && c.chosen.trans == s.chosen.recv && c.chosen.recv == s.chosen.trans
  }

  lemma MeetsComplete(c: Round, s: Round, g: nat)
    requires Meets(c, s, g)
    ensures Complete(c) && Complete(s)
  {
    hide Digests, MpintFits, ExptMod;
  }

  /** Two sides that meet in every exchange hold each other's keys after every one. */
  lemma {:induction false} SessionsAgree(cs: seq<Round>, ss: seq<Round>, gs: seq<nat>, macLen: Name -> nat,
                                         sid: Option<seq<byte>>, i: nat)
    requires |cs| == |ss| == |gs| && i < |cs|
    requires forall j :: 0 <= j < |cs| ==> Meets(cs[j], ss[j], gs[j])
    ensures forall j :: 0 <= j < |cs| ==> Complete(cs[j])
    ensures forall j :: 0 <= j < |ss| ==> Complete(ss[j])
    ensures Session(false, cs, macLen, sid)[i] == Swapped(Session(true, ss, macLen, sid)[i])
    decreases |cs|
  {
    hide Complete, SideResult, Meets, Swapped, Supported, Sized, Chose;
    AllComplete(cs, ss, gs);
    RoundsAgree(cs[0], ss[0], gs[0], macLen, sid);
    var x := Session(false, cs, macLen, sid)[0];
    if i > 0 { SessionsAgree(cs[1..], ss[1..], gs[1..], macLen, Some(x.sid), i - 1); }
  }

  lemma AllComplete(cs: seq<Round>, ss: seq<Round>, gs: seq<nat>)
    requires |cs| == |ss| == |gs|
    requires forall j :: 0 <= j < |cs| ==> Meets(cs[j], ss[j], gs[j])
    ensures forall j :: 0 <= j < |cs| ==> Complete(cs[j])
    ensures forall j :: 0 <= j < |ss| ==> Complete(ss[j])
  {
    forall j | 0 <= j < |cs| ensures Complete(cs[j]) && Complete(ss[j]) { MeetsComplete(cs[j], ss[j], gs[j]); }
  }

  lemma RoundsAgree(c: Round, s: Round, g: nat, macLen: Name -> nat, sid: Option<seq<byte>>)
    requires Meets(c, s, g)
    ensures Complete(c) && Complete(s)
    ensures SideResult(false, c.m, c.w, c.priv, c.chosen, macLen, sid) ==
            Swapped(SideResult(true, s.m, s.w, s.priv, s.chosen, macLen, sid))
    ensures SideResult(false, c.m, c.w, c.priv, c.chosen, macLen, sid).sid ==
            SideResult(true, s.m, s.w, s.priv, s.chosen, macLen, sid).sid
  {
    MeetsComplete(c, s, g);
    hide SideResult, Digests, MpintFits, ExptMod;
    ResultsAgree(c.m, c.w, c.priv, s.priv, g, c.chosen, s.chosen, macLen, sid);
  }

  /**
   Client and server, who know w and its mirror image, have chosen the same methods, written the same bytes,
   those of the RFC, hence have the same hash and session id, and each receives with what the other transmits
   with: IV, key, MAC key and algorithms.
   */
  ghost predicate Agreed(rc: Chosen, rs: Chosen, w: Knowledge, x: nat, y: nat,
                         methods: Name -> Method, macLen: Name -> nat, sid: Option<seq<byte>>)
  {
    && Proceeds(rc) && Proceeds(rs) && rc.kex == rs.kex && rc.host == rs.host
    && var m := methods(rc.kex.value);
    && Supported(m) && Sized(w)
    && var client := SideResult(false, m, w, x, rc, macLen, sid);
    var server := SideResult(true, methods(rs.kex.value), Mirrored(w), y, rs, macLen, sid);
    && client == Swapped(server) && MpintFits(client.secret)
    && client.transcript == Transcript(Fields(w.local, w.remote, w.sent, w.received, w.hostkey, w.pub, w.them,
      client.secret))
  }

  /** The values of a Diffie-Hellman exchange in the group of the chosen method. */
  predicate Values(m: Method, g: nat, x: nat, y: nat, w: Knowledge) {
    m.p > 0 && w.pub == ExptMod(g, x, m.p) && w.them == ExptMod(g, y, m.p)
  }

  /**
   The agreement of two peers. Each prints its tables into a KEXINIT, reads the other's, picks, computes the
   secret from the other's value, hashes and derives keys; the client knows w.
   */
  lemma PeersAgree(c: Tables, s: Tables, cookieC: seq<byte>, cookieS: seq<byte>, guessing: bool, rc: Chosen, rs: Chosen,
                   w: Knowledge, g: nat, x: nat, y: nat, methods: Name -> Method, macLen: Name -> nat,
                   sid: Option<seq<byte>>)
    requires AllWellFormed(c) && AllWellFormed(s) && |cookieC| == 16 == |cookieS|
    requires w.sent == KexinitPayload(cookieC, c, guessing) && w.received == KexinitPayload(cookieS, s, false)
    requires NegotiatesFrom(c, false, w.received, rc) && NegotiatesFrom(s, true, w.sent, rs)
    requires Proceeds(rc) && Supported(methods(rc.kex.value)) && Sized(w) && Values(methods(rc.kex.value), g, x, y, w)
    ensures Agreed(rc, rs, w, x, y, methods, macLen, sid)
  {
    hide Selects, Lists, KexinitPayload, ReceivedLists, ExptMod, Transcript, SideTranscript, DirectionKeys, Digests,
      MpintFits, AllWellFormed;
    PayloadRoundTrip(cookieS, s, false);
    PayloadRoundTrip(cookieC, c, guessing);
    SuitesAgree(c, s, rc, rs);
    hide Negotiates;
    var m := methods(rc.kex.value);
    ResultsAgree(m, w, x, y, g, rc, rs, macLen, sid);
    FitsPower(w.them, x, m.p);
    TranscriptsAgree(w, ExptMod(w.them, x, m.p));
  }
}
