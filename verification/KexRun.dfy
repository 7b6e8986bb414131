/** Two sides of a key exchange over in-order queues, through any number of exchanges. */
module KexRun {
  import opened Wrappers
  import opened KexModel

  // ----- the grammar of a side's packets -----

  /** n NEWKEYS sent so far; whether KEXINIT is out without its NEWKEYS; exchange packets since that KEXINIT. */
  datatype Log = Log(n: nat, open: bool, d: nat, ok: bool)

  /** How many KEXDH_INIT a client sends in one exchange. */
  function Inits(c: Config): nat {
    (if c.guesses then 1 else 0) + (if c.guesses && c.good then 0 else 1)
  }

  function LogStep(l: Log, p: Packet, c: Config): Log {
    match p
    case Kexinit(f) => Log(l.n, true, 0, l.ok && !l.open && f == Follows(c))
    case KexdhInit(_) => Log(l.n, l.open, l.d + 1, l.ok && l.open && !c.server && l.d < Inits(c))
    case KexdhReply(f, h) => Log(l.n, l.open, l.d + 1, l.ok && l.open && c.server && l.d == 0 && h.f == f)
    case Newkeys => Log(l.n + 1, false, 0, l.ok && l.open && l.d == if c.server then 1 else Inits(c))
    case NotUnderstood => l
    case Other => l.(ok := l.ok && !l.open && l.n > 0)
  }

  function LogOf(log: seq<Sent>, c: Config): Log {
    if log == [] then Log(0, false, 0, true)
    else LogStep(LogOf(log[..|log| - 1], c), log[|log| - 1].packet, c)
  }

  lemma LogPush(log: seq<Sent>, x: Sent, c: Config)
    ensures LogOf(log + [x], c) == LogStep(LogOf(log, c), x.packet, c)
  {
    assert (log + [x])[..|log|] == log;
  }

  /** An orderly log was orderly at every earlier point, with no more exchanges done. */
  lemma {:induction false} LogPrefix(log: seq<Sent>, k: nat, c: Config)
    requires k <= |log| && LogOf(log, c).ok
    ensures LogOf(log[..k], c).ok && LogOf(log[..k], c).n <= LogOf(log, c).n
    ensures c.server ==> LogOf(log[..k], c).n + LogOf(log[..k], c).d <= LogOf(log, c).n + LogOf(log, c).d
    decreases |log|
  {
    if k < |log| {
      LogPrefix(log[..|log| - 1], k, c);
      assert log[..|log| - 1][..k] == log[..k];
      if c.server { LogClosed(log[..|log| - 1], c); }
    } else {
      assert log[..k] == log;
    }
  }

  lemma {:induction false} LogClosed(log: seq<Sent>, c: Config)
    requires LogOf(log, c).ok && c.server
    ensures !LogOf(log, c).open ==> LogOf(log, c).d == 0
    ensures LogOf(log, c).d <= 1
  {
    if log != [] { LogClosed(log[..|log| - 1], c); }
  }

  // ----- the hashes of the exchanges, and the contexts they give -----

  /** The hash of every exchange, as the server announced them. */
  function Exchanges(log: seq<Sent>): seq<Hash> {
    if log == [] then []
    else
      var last := log[|log| - 1].packet;
      Exchanges(log[..|log| - 1]) + if last.KexdhReply? then [last.signed] else []
  }

  lemma ExchangesPush(log: seq<Sent>, x: Sent)
    ensures Exchanges(log + [x]) == Exchanges(log) + if x.packet.KexdhReply? then [x.packet.signed] else []
  {
    assert (log + [x])[..|log|] == log;
  }

  lemma {:induction false} ExchangesPrefix(log: seq<Sent>, k: nat)
    requires k <= |log|
    ensures Exchanges(log[..k]) <= Exchanges(log)
    decreases |log|
  {
    if k < |log| {
      ExchangesPrefix(log[..|log| - 1], k);
      assert log[..|log| - 1][..k] == log[..k];
    } else {
      assert log[..k] == log;
    }
  }

  /** A server's replies: one for each NEWKEYS, and one more between the two. */
  lemma {:induction false} ExchangesCounted(log: seq<Sent>, c: Config)
    requires LogOf(log, c).ok && c.server
    ensures |Exchanges(log)| == LogOf(log, c).n + LogOf(log, c).d
  {
    if log != [] {
      ExchangesCounted(log[..|log| - 1], c);
      LogClosed(log[..|log| - 1], c);
    }
  }

  /** The context of a direction after n NEWKEYS. */
  function CtxAt(hs: seq<Hash>, n: nat, c2s: bool): Ctx
    requires n <= |hs|
  {
    if n == 0 then Unkeyed else Keyed(hs[n - 1], hs[0], c2s)
  }

  /** Every packet was encrypted in the context of the exchanges its sender had completed. */
  ghost predicate Tagged(log: seq<Sent>, hs: seq<Hash>, c: Config) {
    forall i :: 0 <= i < |log| ==> TaggedAt(log, i, log[i], hs, c)
  }

  predicate TaggedAt(log: seq<Sent>, i: nat, x: Sent, hs: seq<Hash>, c: Config)
    requires i <= |log|
  {
    LogOf(log[..i], c).n <= |hs| && x.ctx == CtxAt(hs, LogOf(log[..i], c).n, !c.server)
  }

  // ----- one side -----

  /**
   What a side's flags say, given what it has sent (l), what it has received (i), and the hashes of all
   exchanges so far.
   */
  predicate Flags(s: Ses, l: Log, i: Log) {
    && l.ok && i.ok && i.n <= l.n <= i.n + 1 && (l.open || l.n > 0)
    && (l.n == i.n + 1 ==> !l.open && i.open)
    && (l.n == i.n && i.open ==> l.open)
    && s.kex == Progress(l.open || l.n == i.n + 1, i.open, l.n == i.n + 1, false)
    && s.gate.dataallowed == !l.open
    && s.gate.requirenext == (if !i.open then (if i.n == 0 then NeedKexinit else Anything)
                              else if l.n == i.n then NeedKexdh else NeedNewkeys)
  }

  /** How many KEXDH_INIT a server skips in one exchange. */
  function Skips(c: Config): nat {
    if c.guesses && !c.good then 1 else 0
  }

  /** How many KEXDH_INIT a client has sent, before and after the server's KEXINIT. */
  function InitsSoFar(c: Config, answered: bool): nat {
    if answered then Inits(c) else if c.guesses then 1 else 0
  }

  predicate Counts(s: Ses, l: Log, i: Log) {
    if s.conf.server then
      && l.d == 0 && (s.gate.ignorenext <==> i.open && i.d < Skips(s.conf))
      && (i.open ==> (l.n == i.n + 1 <==> i.d > Skips(s.conf)))
    else
      && !s.gate.ignorenext && l.n == i.n + i.d
      && (l.open ==> l.d == InitsSoFar(s.conf, i.open))
  }

  predicate Keys(s: Ses, l: Log, i: Log, hs: seq<Hash>) {
    && i.n <= l.n <= |hs|
    && s.keys == Contexts(CtxAt(hs, i.n, s.conf.server), CtxAt(hs, l.n, !s.conf.server))
    && s.hashes == Hashes(None, if l.n == 0 then None else Some(hs[0]))
    && s.newkeys == (if l.n == i.n + 1 then Some(Pending(Some(CtxAt(hs, l.n, s.conf.server)), None))
                     else if l.open then Some(Pending(None, None)) else None)
  }

  predicate SideOk(s: Ses, l: Log, i: Log, hs: seq<Hash>) {
    Flags(s, l, i) && Counts(s, l, i) && Keys(s, l, i, hs)
  }

  /** A side may start an exchange. */
  lemma RekeyKeeps(s: Ses, i: Log, hs: seq<Hash>)
    requires SideOk(s, LogOf(s.sent, s.conf), i, hs)
    ensures var t := Rekey(s); SideOk(t, LogOf(t.sent, t.conf), i, hs)
    ensures Rekey(s).kex.sentkexinit
  {
    var k := Kexinit(Follows(s.conf));
    LogPush(s.sent, Sent(k, s.keys.trans), s.conf);
    InitLog(Encrypt(s, k), true);
    hide LogOf, CtxAt;
  }

  /** What send_msg_kexdh_init does to the log. */
  lemma InitLog(s: Ses, same: bool)
    ensures var t := SendInit(s, same);
            exists v :: LogOf(t.sent, t.conf) == LogStep(LogOf(s.sent, s.conf), KexdhInit(v), s.conf)
  {
    var v := if same && s.value.Some? then s.value.value else |s.sent|;
    LogPush(s.sent, Sent(KexdhInit(v), s.keys.trans), s.conf);
  }

  lemma OtherKeeps(s: Ses, i: Log, hs: seq<Hash>)
    requires SideOk(s, LogOf(s.sent, s.conf), i, hs)
    ensures var t := SendOther(s); SideOk(t, LogOf(t.sent, t.conf), i, hs)
  {
    LogPush(s.sent, Sent(Other, s.keys.trans), s.conf);
    hide LogOf, CtxAt;
  }

  /** A client and a server that know of the same guess. */
  predicate Peers(c: Config, d: Config) {
    c.server != d.server && c.guesses == d.guesses
  }

  /** Packets of the services, and UNIMPLEMENTED, change nothing. */
  lemma OtherTaken(s: Ses, l: Log, i: Log, hs: seq<Hash>, p: Packet, f: nat, peer: Config)
    requires SideOk(s, l, i, hs) && (p.Other? || p.NotUnderstood?) && LogStep(i, p, peer).ok
    ensures Process(s, p, f) == Next(s) && LogStep(i, p, peer) == i && Understood(s, p)
  {
    hide Keys;
  }

  lemma KexinitTaken(s: Ses, i: Log, hs: seq<Hash>, f: bool, v: nat, peer: Config)
    requires SideOk(s, LogOf(s.sent, s.conf), i, hs) && Peers(s.conf, peer) && LogStep(i, Kexinit(f), peer).ok
    ensures Process(s, Kexinit(f), v) == Next(RecvKexinit(s, f)) && Understood(s, Kexinit(f))
    ensures var t := RecvKexinit(s, f); SideOk(t, LogOf(t.sent, t.conf), LogStep(i, Kexinit(f), peer), hs)
  {
    hide LogOf, CtxAt, SideOk;
    RekeyKeeps(s, i, hs);
    RekeyClosed(s, LogOf(s.sent, s.conf), i, hs, f, v, peer);
    AfterKexinit(Rekey(s), i, hs, f, peer);
  }

  /** KEXINIT is welcome, and answered with one's own. */
  lemma RekeyClosed(s: Ses, l: Log, i: Log, hs: seq<Hash>, f: bool, v: nat, peer: Config)
    requires SideOk(s, l, i, hs) && Peers(s.conf, peer) && LogStep(i, Kexinit(f), peer).ok
    ensures Process(s, Kexinit(f), v) == Next(RecvKexinit(s, f)) && Rekey(s).conf == s.conf
    ensures Understood(s, Kexinit(f))
  {
    hide CtxAt, Keys;
  }

  lemma AfterKexinit(r: Ses, i: Log, hs: seq<Hash>, f: bool, peer: Config)
    requires SideOk(r, LogOf(r.sent, r.conf), i, hs) && Peers(r.conf, peer) && LogStep(i, Kexinit(f), peer).ok
    requires r.kex.sentkexinit
    ensures var t := ClientLoop(TakeKexinit(r, f)); SideOk(t, LogOf(t.sent, t.conf), LogStep(i, Kexinit(f), peer), hs)
  {
    hide LogOf, CtxAt;
    InitLog(TakeKexinit(r, f), r.conf.same);
  }

  /** The context a NEWKEYS brings into use does not depend on later exchanges. */
  lemma CtxGrows(hs: seq<Hash>, more: seq<Hash>, n: nat, c2s: bool)
    requires n <= |hs|
    ensures CtxAt(hs + more, n, c2s) == CtxAt(hs, n, c2s)
  { }

  lemma SideGrows(s: Ses, l: Log, i: Log, hs: seq<Hash>, more: seq<Hash>)
    requires SideOk(s, l, i, hs)
    ensures SideOk(s, l, i, hs + more)
  {
    CtxGrows(hs, more, i.n, s.conf.server);
    CtxGrows(hs, more, l.n, s.conf.server);
    CtxGrows(hs, more, l.n, !s.conf.server);
    hide CtxAt;
  }

  // ----- KEXDH_INIT at the server: skipped, acted on, or too many -----

  lemma InitSkipped(s: Ses, l: Log, i: Log, hs: seq<Hash>, e: nat, f: nat, peer: Config)
    requires SideOk(s, l, i, hs) && Peers(s.conf, peer) && s.conf.server && LogStep(i, KexdhInit(e), peer).ok
    requires s.gate.ignorenext
    ensures Process(s, KexdhInit(e), f) == Next(s.(gate := s.gate.(ignorenext := false)))
    ensures Understood(s, KexdhInit(e)) && i.d < Skips(s.conf)
    ensures SideOk(s.(gate := s.gate.(ignorenext := false)), l, LogStep(i, KexdhInit(e), peer), hs)
  {
    hide CtxAt;
  }

  /** The server after KEXDH_INIT: it has replied and changed its sending keys. */
  function Answered(s: Ses, e: nat, f: nat): Ses {
    var h := Hash(e, f);
    var sid := if s.hashes.sid.None? then h else s.hashes.sid.value;
    var s1 := Encrypt(Encrypt(s, KexdhReply(f, h)), Newkeys);
    Switched(s1, h, sid)
  }

  /** A side that has sent NEWKEYS. */
  function Switched(s: Ses, h: Hash, sid: Hash): Ses {
    s.(kex := s.kex.(sentnewkeys := true), gate := s.gate.(dataallowed := true, requirenext := NeedNewkeys),
       hashes := Hashes(None, Some(sid)), keys := s.keys.(trans := Keyed(h, sid, !s.conf.server)),
       newkeys := Some(Pending(Some(Keyed(h, sid, s.conf.server)), None)))
  }

  lemma InitAnswered(s: Ses, i: Log, hs: seq<Hash>, e: nat, f: nat, peer: Config)
    requires SideOk(s, LogOf(s.sent, s.conf), i, hs) && Peers(s.conf, peer) && s.conf.server
    requires LogStep(i, KexdhInit(e), peer).ok && i.d == Skips(s.conf) && |hs| == LogOf(s.sent, s.conf).n
    ensures Process(s, KexdhInit(e), f) == Next(Answered(s, e, f)) && Understood(s, KexdhInit(e))
    ensures LogOf(s.sent, s.conf).n == i.n
    ensures var t := Answered(s, e, f);
            SideOk(t, LogOf(t.sent, t.conf), LogStep(i, KexdhInit(e), peer), hs + [Hash(e, f)])
  {
    hide LogOf, SideOk;
    var l, h := LogOf(s.sent, s.conf), Hash(e, f);
    SideGrows(s, l, i, hs, [h]);
    LogPush(s.sent, Sent(KexdhReply(f, h), s.keys.trans), s.conf);
    LogPush(Encrypt(s, KexdhReply(f, h)).sent, Sent(Newkeys, s.keys.trans), s.conf);
    InitHandled(s, l, i, hs, e, f, peer);
    hide Process;
    AfterInit(s, l, i, hs + [h], e, f, peer);
  }

  lemma InitHandled(s: Ses, l: Log, i: Log, hs: seq<Hash>, e: nat, f: nat, peer: Config)
    requires SideOk(s, l, i, hs) && Peers(s.conf, peer) && s.conf.server && LogStep(i, KexdhInit(e), peer).ok
    requires i.d == Skips(s.conf)
    ensures Process(s, KexdhInit(e), f) == Next(Answered(s, e, f)) && Understood(s, KexdhInit(e))
    ensures l.open && l.ok && l.d == 0 && l.n == i.n
  {
    hide CtxAt;
  }

  lemma AfterInit(s: Ses, l: Log, i: Log, hs: seq<Hash>, e: nat, f: nat, peer: Config)
    requires SideOk(s, l, i, hs) && Peers(s.conf, peer) && s.conf.server && LogStep(i, KexdhInit(e), peer).ok
    requires i.d == Skips(s.conf) && |hs| == l.n + 1 && hs[l.n] == Hash(e, f)
    ensures SideOk(Answered(s, e, f), LogStep(LogStep(l, KexdhReply(f, Hash(e, f)), s.conf), Newkeys, s.conf),
                   LogStep(i, KexdhInit(e), peer), hs)
  { }

  /** One KEXDH_INIT too many is answered with UNIMPLEMENTED, and nothing else happens. */
  lemma InitNotUnderstood(s: Ses, i: Log, hs: seq<Hash>, e: nat, f: nat, peer: Config)
    requires SideOk(s, LogOf(s.sent, s.conf), i, hs) && Peers(s.conf, peer) && s.conf.server
    requires LogStep(i, KexdhInit(e), peer).ok && i.d > Skips(s.conf)
    ensures var t := Encrypt(s, NotUnderstood);
            && Process(s, KexdhInit(e), f) == Next(t)
            && SideOk(t, LogOf(t.sent, t.conf), LogStep(i, KexdhInit(e), peer), hs)
  {
    hide LogOf, CtxAt;
    LogPush(s.sent, Sent(NotUnderstood, s.keys.trans), s.conf);
  }

  // ----- the rest -----

  /** The client whose value is the one that was hashed takes the reply. */
  lemma ReplyTaken(s: Ses, i: Log, hs: seq<Hash>, h: Hash, peer: Config)
    requires SideOk(s, LogOf(s.sent, s.conf), i, hs) && Peers(s.conf, peer) && !s.conf.server
    requires LogStep(i, KexdhReply(h.f, h), peer).ok && s.value == Some(h.e)
    requires LogOf(s.sent, s.conf).n < |hs| && hs[LogOf(s.sent, s.conf).n] == h
    ensures var t := Switched(Encrypt(s.(value := None), Newkeys), h, hs[0]);
            && (forall v :: Process(s, KexdhReply(h.f, h), v) == Next(t)) && Understood(s, KexdhReply(h.f, h))
            && SideOk(t, LogOf(t.sent, t.conf), LogStep(i, KexdhReply(h.f, h), peer), hs)
  {
    LogPush(s.sent, Sent(Newkeys, s.keys.trans), s.conf);
    hide LogOf;
  }

  /** The peer's NEWKEYS ends the exchange. */
  lemma NewkeysTaken(s: Ses, l: Log, i: Log, hs: seq<Hash>, f: nat, peer: Config)
    requires SideOk(s, l, i, hs) && Peers(s.conf, peer) && LogStep(i, Newkeys, peer).ok && l.n == i.n + 1
    ensures var t := Process(s, Newkeys, f);
            && t.Next? && t.ses.sent == s.sent && t.ses.conf == s.conf && t.ses.value == s.value
              && Understood(s, Newkeys)
            && SideOk(t.ses, l, LogStep(i, Newkeys, peer), hs)
  { }
}
