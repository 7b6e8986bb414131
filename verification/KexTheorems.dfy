/** What holds in every run of a client and a server, over any number of key exchanges. */
module KexTheorems {
  import opened Wrappers
  import opened KexModel
  import opened KexRun

  /** Both sides, and how many packets of each have arrived. */
  datatype Net = Net(a: Ses, b: Ses, toB: nat, toA: nat)

  /** Either side may start an exchange or send data at any time; f is the value of a server that answers now. */
  datatype Event = RekeyA | RekeyB | DataA | DataB | DeliverToB(f: nat) | DeliverToA

  datatype NetOutcome = Running(net: Net) | Failed

  function Happen(n: Net, ev: Event): NetOutcome {
    match ev
    case RekeyA => Running(n.(a := Rekey(n.a)))
    case RekeyB => Running(n.(b := Rekey(n.b)))
    case DataA => Running(n.(a := SendOther(n.a)))
    case DataB => Running(n.(b := SendOther(n.b)))
    case DeliverToB(f) =>
      if n.toB >= |n.a.sent| then Running(n)
      else (match Process(n.b, n.a.sent[n.toB].packet, f)
            case Next(t) => Running(n.(b := t, toB := n.toB + 1))
            case _ => Failed)
    case DeliverToA =>
      if n.toA >= |n.b.sent| then Running(n)
      else (match Process(n.a, n.b.sent[n.toA].packet, 0)
            case Next(t) => Running(n.(a := t, toA := n.toA + 1))
            case _ => Failed)
  }

  function Run(n: Net, events: seq<Event>): NetOutcome
    decreases |events|
  {
    if events == [] then Running(n)
    else match Happen(n, events[0])
      case Failed => Failed
      case Running(n') => Run(n', events[1..])
  }

  /** Client and server at the start. */
  function StartNet(c: Config, d: Config): Net {
    Net(Start(c), Start(d), 0, 0)
  }

  /** A client and a server that know of the same guess. */
  predicate Pair(c: Config, d: Config) {
    !c.server && d.server && c.guesses == d.guesses
  }

  /**
   Their opinions of the guess go together: they are the same, or the client repeats a guess that the server has
   acted on, for the same method and hence with the same value.
   */
  predicate Compatible(c: Config, d: Config) {
    c.guesses ==> c.good == d.good || (!c.good && c.same)
  }

  // ----- the contexts of packets -----

  /** All packets so far carry their contexts, and the next one will. */
  ghost predicate Current(s: Ses, hs: seq<Hash>) {
    && Tagged(s.sent, hs, s.conf) && LogOf(s.sent, s.conf).n <= |hs|
    && s.keys.trans == CtxAt(hs, LogOf(s.sent, s.conf).n, !s.conf.server)
  }

  lemma TagsOf(s: Ses, t: Ses, p: Packet, hs: seq<Hash>)
    requires Current(s, hs) && t.sent == s.sent + [Sent(p, s.keys.trans)] && t.conf == s.conf
    ensures Tagged(t.sent, hs, t.conf)
    ensures !p.Newkeys? && t.keys.trans == s.keys.trans ==> Current(t, hs)
  {
    var n := |s.sent|;
    assert t.sent[..n] == s.sent;
    forall i | 0 <= i < |t.sent|
      ensures TaggedAt(t.sent, i, t.sent[i], hs, t.conf)
    {
      if i < n {
        assert TaggedAt(s.sent, i, s.sent[i], hs, s.conf);
        assert t.sent[..i] == s.sent[..i];
      }
    }
    LogPush(s.sent, Sent(p, s.keys.trans), s.conf);
    hide LogOf;
  }

  lemma TagsGrow(log: seq<Sent>, c: Config, hs: seq<Hash>, more: seq<Hash>)
    requires Tagged(log, hs, c)
    ensures Tagged(log, hs + more, c)
  {
    hide LogOf;
    forall i | 0 <= i < |log|
      ensures TaggedAt(log, i, log[i], hs + more, c)
    {
      assert TaggedAt(log, i, log[i], hs, c);
      CtxGrows(hs, more, LogOf(log[..i], c).n, !c.server);
    }
  }

  lemma CurrentAgain(s: Ses, l: Log, i: Log, hs: seq<Hash>)
    requires SideOk(s, l, i, hs) && l == LogOf(s.sent, s.conf) && Tagged(s.sent, hs, s.conf)
    ensures Current(s, hs)
  {
    hide LogOf, CtxAt, Tagged;
  }

  lemma InitTags(s: Ses, same: bool, hs: seq<Hash>)
    requires Current(s, hs)
    ensures Current(SendInit(s, same), hs)
  {
    hide LogOf, CtxAt, Tagged;
    var t := SendInit(s, same);
    TagsOf(s, t, KexdhInit(t.value.value), hs);
  }

  lemma RekeyTags(s: Ses, hs: seq<Hash>)
    requires Current(s, hs)
    ensures Current(Rekey(s), hs)
  {
    var k := Kexinit(Follows(s.conf));
    TagsOf(s, Encrypt(s, k), k, hs);
    var s1 := Encrypt(s, k).(kex := s.kex.(sentkexinit := true), gate := s.gate.(dataallowed := false),
                             newkeys := Some(Pending(None, None)));
    hide LogOf, CtxAt, Tagged;
    assert Current(s1, hs);
    InitTags(s1, true, hs);
    hide SendInit;
  }

  lemma KexinitTags(s: Ses, f: bool, hs: seq<Hash>)
    requires Current(s, hs)
    ensures Current(RecvKexinit(s, f), hs)
  {
    RekeyTags(s, hs);
    var r := TakeKexinit(Rekey(s), f);
    assert r.sent == Rekey(s).sent && r.conf == Rekey(s).conf && r.keys == Rekey(s).keys;
    hide Rekey, TakeKexinit, LogOf, CtxAt, Tagged;
    InitTags(r, r.conf.same, hs);
    hide SendInit;
  }

  // ----- the values of the exchanges -----

  /** The client's value in every exchange that the server answers: that of the first KEXDH_INIT it does not skip. */
  function Effective(log: seq<Sent>, c: Config, skip: nat): seq<nat> {
    if log == [] then []
    else
      var front, last := log[..|log| - 1], log[|log| - 1].packet;
      Effective(front, c, skip) + if last.KexdhInit? && LogOf(front, c).d == skip then [last.e] else []
  }

  lemma EffectivePush(log: seq<Sent>, x: Sent, c: Config, skip: nat)
    ensures Effective(log + [x], c, skip) ==
            Effective(log, c, skip) + if x.packet.KexdhInit? && LogOf(log, c).d == skip then [x.packet.e] else []
  {
    assert (log + [x])[..|log|] == log;
  }

  lemma {:induction false} EffectivePrefix(log: seq<Sent>, k: nat, c: Config, skip: nat)
    requires k <= |log|
    ensures Effective(log[..k], c, skip) <= Effective(log, c, skip)
    decreases |log|
  {
    if k < |log| {
      EffectivePrefix(log[..|log| - 1], k, c, skip);
      assert log[..|log| - 1][..k] == log[..k];
    } else {
      assert log[..k] == log;
    }
  }

  lemma {:induction false} ClosedClient(log: seq<Sent>, c: Config)
    requires LogOf(log, c).ok && !c.server
    ensures !LogOf(log, c).open ==> LogOf(log, c).d == 0
  {
    if log != [] { ClosedClient(log[..|log| - 1], c); }
  }

  /** One for each NEWKEYS, and one more once the KEXDH_INIT that counts is out. */
  lemma {:induction false} EffectiveCount(log: seq<Sent>, c: Config, skip: nat)
    requires LogOf(log, c).ok && !c.server && Inits(c) > skip
    ensures var l := LogOf(log, c); |Effective(log, c, skip)| == l.n + if l.open && l.d > skip then 1 else 0
  {
    if log != [] {
      EffectiveCount(log[..|log| - 1], c, skip);
      ClosedClient(log[..|log| - 1], c);
    }
  }

  /** The server's hashes are of the client's values. */
  predicate Answers(hs: seq<Hash>, ev: seq<nat>) {
    |hs| <= |ev| && forall j :: 0 <= j < |hs| ==> hs[j].e == ev[j]
  }

  /** The client has a value while it has sent one, and once it counts it is the one that counts. */
  predicate ValueOk(s: Ses, skip: nat) {
    var l, ev := LogOf(s.sent, s.conf), Effective(s.sent, s.conf, skip);
    && !s.conf.server && Inits(s.conf) > skip && l.ok
    && |ev| == l.n + (if l.open && l.d > skip then 1 else 0)
    && (s.value.Some? <==> l.open && l.d > 0)
    && (l.open && l.d > skip ==> s.value == Some(ev[l.n]))
  }

  /** Another packet than KEXDH_INIT and NEWKEYS leaves the value alone. */
  lemma PushValue(s: Ses, t: Ses, p: Packet, skip: nat)
    requires ValueOk(s, skip) && t.sent == s.sent + [Sent(p, s.keys.trans)] && t.conf == s.conf
    requires LogStep(LogOf(s.sent, s.conf), p, s.conf).ok && !p.KexdhInit? && (p.Newkeys? ==> t.value == None)
    requires !p.Newkeys? ==> t.value == s.value
    ensures ValueOk(t, skip) && Effective(t.sent, t.conf, skip) == Effective(s.sent, s.conf, skip)
  {
    LogPush(s.sent, Sent(p, s.keys.trans), s.conf);
    EffectivePush(s.sent, Sent(p, s.keys.trans), s.conf, skip);
    ClosedClient(s.sent, s.conf);
    EffectiveCount(t.sent, t.conf, skip);
    hide LogOf, Effective;
  }

  lemma InitValue(s: Ses, same: bool, skip: nat)
    requires ValueOk(s, skip)
    requires var l := LogOf(s.sent, s.conf); l.open && l.d < Inits(s.conf) && (l.d > skip ==> same)
    ensures ValueOk(SendInit(s, same), skip)
    ensures Effective(s.sent, s.conf, skip) <= Effective(SendInit(s, same).sent, s.conf, skip)
  {
    hide LogOf, Effective;
    var v := if same && s.value.Some? then s.value.value else |s.sent|;
    LogPush(s.sent, Sent(KexdhInit(v), s.keys.trans), s.conf);
    EffectivePush(s.sent, Sent(KexdhInit(v), s.keys.trans), s.conf, skip);
  }

  /** Starting an exchange. */
  lemma RekeyValue(s: Ses, i: Log, hs: seq<Hash>, skip: nat)
    requires ValueOk(s, skip) && SideOk(s, LogOf(s.sent, s.conf), i, hs)
    ensures ValueOk(Rekey(s), skip) && Rekey(s).conf == s.conf
    ensures Effective(s.sent, s.conf, skip) <= Effective(Rekey(s).sent, s.conf, skip)
  {
    if !s.kex.sentkexinit {
      var k := Kexinit(Follows(s.conf));
      var s1 := Encrypt(s, k).(kex := s.kex.(sentkexinit := true), gate := s.gate.(dataallowed := false),
                               newkeys := Some(Pending(None, None)));
      LogPush(s.sent, Sent(k, s.keys.trans), s.conf);
      hide LogOf, Effective, CtxAt;
      PushValue(s, s1, k, skip);
      if Follows(s.conf) { InitValue(s1, true, skip); }
      hide SendInit, ValueOk, SideOk;
    }
  }

  /** The client and the server's KEXINIT. */
  lemma KexinitValue(s: Ses, i: Log, hs: seq<Hash>, f: bool, d: Config)
    requires ValueOk(s, Skips(d)) && SideOk(s, LogOf(s.sent, s.conf), i, hs) && !i.open
    requires Pair(s.conf, d) && Compatible(s.conf, d)
    ensures ValueOk(RecvKexinit(s, f), Skips(d))
    ensures Effective(s.sent, s.conf, Skips(d)) <= Effective(RecvKexinit(s, f).sent, s.conf, Skips(d))
  {
    hide LogOf, Effective, CtxAt;
    var skip := Skips(d);
    RekeyValue(s, i, hs, skip);
    RekeyKeeps(s, i, hs);
    var r := TakeKexinit(Rekey(s), f);
    assert ValueOk(r, skip);
    assert LogOf(r.sent, r.conf).open && LogOf(r.sent, r.conf).d == InitsSoFar(r.conf, false);
    hide Rekey;
    if !(r.conf.guesses && r.conf.good) { InitValue(r, r.conf.same, skip); }
    hide SendInit, ValueOk;
  }

  // ----- the invariant of the pair -----

  function Arrived(log: seq<Sent>, k: nat, c: Config): Log
    requires k <= |log|
  {
    LogOf(log[..k], c)
  }

  /** One side of the pair, given what has arrived of its peer's packets. */
  ghost predicate SideInv(s: Ses, peer: Ses, k: nat, hs: seq<Hash>) {
    && k <= |peer.sent| && Tagged(s.sent, hs, s.conf) && Peers(s.conf, peer.conf)
    && SideOk(s, LogOf(s.sent, s.conf), Arrived(peer.sent, k, peer.conf), hs)
  }

  /** The values of both sides fit together. */
  predicate Matched(a: Ses, d: Config, hs: seq<Hash>) {
    Pair(a.conf, d) && Compatible(a.conf, d) && ValueOk(a, Skips(d)) && Answers(hs, Effective(a.sent, a.conf, Skips(d)))
  }

  ghost predicate NetInv(n: Net) {
    var hs := Exchanges(n.b.sent);
    SideInv(n.a, n.b, n.toA, hs) && SideInv(n.b, n.a, n.toB, hs) && Matched(n.a, n.b.conf, hs)
  }

  /** A step of the peer that only adds packets leaves a side's invariant alone. */
  lemma PeerAdds(s: Ses, peer: Ses, peer': Ses, k: nat, hs: seq<Hash>, more: seq<Hash>)
    requires SideInv(s, peer, k, hs) && peer.sent <= peer'.sent && peer'.conf == peer.conf
    ensures SideInv(s, peer', k, hs + more)
  {
    assert peer'.sent[..k] == peer.sent[..k];
    TagsGrow(s.sent, s.conf, hs, more);
    SideGrows(s, LogOf(s.sent, s.conf), Arrived(peer.sent, k, peer.conf), hs, more);
    hide SideOk, Tagged, LogOf;
  }

  /** A step of the client that only adds values. */
  lemma MatchedAgain(a: Ses, a': Ses, d: Config, hs: seq<Hash>)
    requires Matched(a, d, hs) && a'.conf == a.conf && ValueOk(a', Skips(d))
    requires Effective(a.sent, a.conf, Skips(d)) <= Effective(a'.sent, a.conf, Skips(d))
    ensures Matched(a', d, hs)
  {
    hide ValueOk, Effective;
  }

  /** The server has announced one hash for each of its NEWKEYS. */
  lemma ServerCount(s: Ses, peer: Ses, k: nat, hs: seq<Hash>)
    requires SideInv(s, peer, k, hs) && s.conf.server
    ensures |Exchanges(s.sent)| == LogOf(s.sent, s.conf).n
  {
    hide LogOf, CtxAt, Tagged;
    ExchangesCounted(s.sent, s.conf);
  }

  lemma StepArrived(log: seq<Sent>, k: nat, c: Config)
    requires k < |log| && LogOf(log, c).ok
    ensures Arrived(log, k + 1, c) == LogStep(Arrived(log, k, c), log[k].packet, c)
    ensures Arrived(log, k + 1, c).ok && Arrived(log, k + 1, c).n <= LogOf(log, c).n
  {
    hide LogOf, LogStep;
    LogPrefix(log, k + 1, c);
    assert log[..k + 1] == log[..k] + [log[k]];
    LogPush(log[..k], log[k], c);
  }

  // ----- local steps -----

  /** Rekeying or sending data adds packets but no hash. */
  lemma LocalStep(s: Ses, peer: Ses, k: nat, hs: seq<Hash>, t: Ses)
    requires SideInv(s, peer, k, hs) && (t == Rekey(s) || t == SendOther(s))
    ensures SideInv(t, peer, k, hs) && s.sent <= t.sent && t.conf == s.conf
  {
    var i := Arrived(peer.sent, k, peer.conf);
    CurrentAgain(s, LogOf(s.sent, s.conf), i, hs);
    RekeyKeeps(s, i, hs);
    RekeyTags(s, hs);
    OtherKeeps(s, i, hs);
    TagsOf(s, Encrypt(s, Other), Other, hs);
    hide SideOk, Tagged, LogOf, CtxAt;
  }

  /** On the client they keep the values. */
  lemma LocalValue(s: Ses, peer: Ses, k: nat, hs: seq<Hash>, t: Ses)
    requires SideInv(s, peer, k, hs) && Matched(s, peer.conf, hs) && (t == Rekey(s) || t == SendOther(s))
    ensures Matched(t, peer.conf, hs)
  {
    var skip := Skips(peer.conf);
    RekeyValue(s, Arrived(peer.sent, k, peer.conf), hs, skip);
    hide Rekey, Tagged, CtxAt, Effective, LogOf;
    if t == SendOther(s) && s.gate.dataallowed { PushValue(s, t, Other, skip); }
    hide ValueOk, SideOk;
    MatchedAgain(s, t, peer.conf, hs);
  }

  lemma InitNoHash(s: Ses, same: bool)
    ensures Exchanges(SendInit(s, same).sent) == Exchanges(s.sent)
  {
    var v := if same && s.value.Some? then s.value.value else |s.sent|;
    ExchangesPush(s.sent, Sent(KexdhInit(v), s.keys.trans));
    hide Exchanges;
  }

  lemma NoHash(s: Ses)
    ensures Exchanges(Rekey(s).sent) == Exchanges(s.sent) == Exchanges(SendOther(s).sent)
  {
    var k := Kexinit(Follows(s.conf));
    ExchangesPush(s.sent, Sent(k, s.keys.trans));
    ExchangesPush(s.sent, Sent(Other, s.keys.trans));
    var s1 := Encrypt(s, k).(kex := s.kex.(sentkexinit := true), gate := s.gate.(dataallowed := false),
                             newkeys := Some(Pending(None, None)));
    InitNoHash(s1, true);
    hide Exchanges, SendInit;
  }

  lemma LocalKeeps(n: Net, ev: Event)
    requires NetInv(n) && (ev.RekeyA? || ev.RekeyB? || ev.DataA? || ev.DataB?)
    ensures Happen(n, ev).Running? && NetInv(Happen(n, ev).net)
  {
    hide SideInv, Exchanges, Rekey, SendOther, Matched;
    var hs := Exchanges(n.b.sent);
    assert hs + [] == hs;
    if ev.RekeyA? || ev.DataA? {
      var t := Happen(n, ev).net.a;
      LocalStep(n.a, n.b, n.toA, hs, t);
      LocalValue(n.a, n.b, n.toA, hs, t);
      PeerAdds(n.b, n.a, t, n.toB, hs, []);
    } else {
      var t := Happen(n, ev).net.b;
      LocalStep(n.b, n.a, n.toB, hs, t);
      PeerAdds(n.a, n.b, t, n.toA, hs, []);
      NoHash(n.b);
    }
  }

  // ----- deliveries -----

  /** What a delivery to s leads to: t, with one more packet of the peer arrived and possibly one more hash. */
  ghost predicate Delivers(s: Ses, peer: Ses, k: nat, f: nat, t: Ses, hs: seq<Hash>)
    requires k < |peer.sent|
  {
    && Process(s, peer.sent[k].packet, f) == Next(t) && t.conf == s.conf && s.sent <= t.sent
    && SideInv(t, peer, k + 1, hs)
  }

  lemma DeliverOther(s: Ses, peer: Ses, k: nat, hs: seq<Hash>, f: nat)
    requires SideInv(s, peer, k, hs) && k < |peer.sent| && LogOf(peer.sent, peer.conf).ok
    requires peer.sent[k].packet.Other? || peer.sent[k].packet.NotUnderstood?
    ensures Delivers(s, peer, k, f, s, hs) && Understood(s, peer.sent[k].packet)
  {
    StepArrived(peer.sent, k, peer.conf);
    hide LogOf, Tagged;
    OtherTaken(s, LogOf(s.sent, s.conf), Arrived(peer.sent, k, peer.conf), hs, peer.sent[k].packet, f, peer.conf);
    hide SideOk, Process, Understood;
  }

  lemma DeliverKexinit(s: Ses, peer: Ses, k: nat, hs: seq<Hash>, f: nat)
    requires SideInv(s, peer, k, hs) && k < |peer.sent| && peer.sent[k].packet.Kexinit?
             && LogOf(peer.sent, peer.conf).ok
    ensures var t := RecvKexinit(s, peer.sent[k].packet.follows);
            Delivers(s, peer, k, f, t, hs) && (s.conf.server ==> Exchanges(t.sent) == Exchanges(s.sent))
    ensures Understood(s, peer.sent[k].packet)
  {
    hide SideOk, Process, LogOf, Tagged, CtxAt, Exchanges, RecvKexinit, LogStep, Understood;
    var i := Arrived(peer.sent, k, peer.conf);
    var follows := peer.sent[k].packet.follows;
    StepArrived(peer.sent, k, peer.conf);
    CurrentAgain(s, LogOf(s.sent, s.conf), i, hs);
    KexinitTags(s, follows, hs);
    assert peer.sent[k].packet == Kexinit(follows);
    KexinitTaken(s, i, hs, follows, f, peer.conf);
    KexinitAdds(s, follows);
  }

  lemma KexinitAdds(s: Ses, follows: bool)
    ensures var t := RecvKexinit(s, follows);
            s.sent <= t.sent && t.conf == s.conf && (s.conf.server ==> Exchanges(t.sent) == Exchanges(s.sent))
  {
    NoHash(s);
    hide Exchanges;
  }

  lemma KexinitMatched(s: Ses, peer: Ses, k: nat, hs: seq<Hash>)
    requires SideInv(s, peer, k, hs) && Matched(s, peer.conf, hs) && k < |peer.sent| && LogOf(peer.sent, peer.conf).ok
    requires peer.sent[k].packet.Kexinit?
    ensures Matched(RecvKexinit(s, peer.sent[k].packet.follows), peer.conf, hs)
  {
    var i := Arrived(peer.sent, k, peer.conf);
    StepArrived(peer.sent, k, peer.conf);
    hide LogOf, Tagged, CtxAt, Effective, ValueOk, RecvKexinit, SideOk;
    KexinitValue(s, i, hs, peer.sent[k].packet.follows, peer.conf);
    KexinitAdds(s, peer.sent[k].packet.follows);
    MatchedAgain(s, RecvKexinit(s, peer.sent[k].packet.follows), peer.conf, hs);
  }

  /** What the server does with a KEXDH_INIT. */
  lemma DeliverInit(s: Ses, peer: Ses, k: nat, f: nat) returns (t: Ses)
    requires SideInv(s, peer, k, Exchanges(s.sent)) && k < |peer.sent| && peer.sent[k].packet.KexdhInit?
    requires LogOf(peer.sent, peer.conf).ok && s.conf.server
    ensures var i := Arrived(peer.sent, k, peer.conf);
            && (i.d == Skips(s.conf) ==> LogOf(s.sent, s.conf).n == i.n)
            && Exchanges(t.sent) ==
               Exchanges(s.sent) + (if i.d == Skips(s.conf) then [Hash(peer.sent[k].packet.e, f)] else [])
            && (i.d <= Skips(s.conf) ==> Understood(s, peer.sent[k].packet))
    ensures Delivers(s, peer, k, f, t, Exchanges(t.sent))
  {
    hide SideOk, Process, LogOf, Tagged, Exchanges, CtxAt, LogStep, Understood, Skips;
    var hs := Exchanges(s.sent);
    var i := Arrived(peer.sent, k, peer.conf);
    var e := peer.sent[k].packet.e;
    assert peer.sent[k].packet == KexdhInit(e);
    assert hs + [] == hs;
    StepArrived(peer.sent, k, peer.conf);
    SkipFlag(s, LogOf(s.sent, s.conf), i, hs, e, peer.conf);
    if s.gate.ignorenext {
      t := s.(gate := s.gate.(ignorenext := false));
      InitSkipped(s, LogOf(s.sent, s.conf), i, hs, e, f, peer.conf);
    } else if i.d == Skips(s.conf) {
      t := Answered(s, e, f);
      ServerCount(s, peer, k, hs);
      InitAnswered(s, i, hs, e, f, peer.conf);
      CurrentAgain(s, LogOf(s.sent, s.conf), i, hs);
      AnsweredTags(s, e, f, hs);
    } else {
      t := Encrypt(s, NotUnderstood);
      InitNotUnderstood(s, i, hs, e, f, peer.conf);
      CurrentAgain(s, LogOf(s.sent, s.conf), i, hs);
      TagsOf(s, t, NotUnderstood, hs);
      ExchangesPush(s.sent, Sent(NotUnderstood, s.keys.trans));
    }
  }

  lemma SkipFlag(s: Ses, l: Log, i: Log, hs: seq<Hash>, e: nat, peer: Config)
    requires SideOk(s, l, i, hs) && s.conf.server && LogStep(i, KexdhInit(e), peer).ok
    ensures s.gate.ignorenext <==> i.d < Skips(s.conf)
  {
    hide Keys;
  }

  lemma AnsweredTags(s: Ses, e: nat, f: nat, hs: seq<Hash>)
    requires Current(s, hs)
    ensures Tagged(Answered(s, e, f).sent, hs + [Hash(e, f)], s.conf)
    ensures Exchanges(Answered(s, e, f).sent) == Exchanges(s.sent) + [Hash(e, f)]
  {
    hide CtxAt, LogOf;
    var h := Hash(e, f);
    var s1 := Encrypt(s, KexdhReply(f, h));
    var s2 := Encrypt(s1, Newkeys);
    TagsOf(s, s1, KexdhReply(f, h), hs);
    TagsOf(s1, s2, Newkeys, hs);
    TagsGrow(s2.sent, s.conf, hs, [h]);
    ExchangesPush(s.sent, Sent(KexdhReply(f, h), s.keys.trans));
    ExchangesPush(s1.sent, Sent(Newkeys, s.keys.trans));
    hide Exchanges, Tagged;
  }

  /** The value the server answers is the client's next one. */
  lemma AnswersNext(a: Ses, k: nat, d: Config, hs: seq<Hash>, f: nat)
    requires Matched(a, d, hs) && k < |a.sent| && a.sent[k].packet.KexdhInit?
             && Arrived(a.sent, k, a.conf).d == Skips(d)
    requires |hs| == Arrived(a.sent, k, a.conf).n && LogOf(a.sent, a.conf).ok
    ensures Matched(a, d, hs + [Hash(a.sent[k].packet.e, f)])
  {
    var skip := Skips(d);
    LogPrefix(a.sent, k, a.conf);
    EffectiveCount(a.sent[..k], a.conf, skip);
    assert a.sent[..k + 1] == a.sent[..k] + [a.sent[k]];
    EffectivePush(a.sent[..k], a.sent[k], a.conf, skip);
    EffectivePrefix(a.sent, k + 1, a.conf, skip);
    hide LogOf, Effective;
  }

  /** The client and the server's reply: its own hash is the one that the server has signed. */
  lemma DeliverReply(s: Ses, peer: Ses, k: nat, f: nat) returns (t: Ses)
    requires SideInv(s, peer, k, Exchanges(peer.sent)) && k < |peer.sent| && peer.sent[k].packet.KexdhReply?
    requires LogOf(peer.sent, peer.conf).ok && Matched(s, peer.conf, Exchanges(peer.sent)) && peer.conf.server
    ensures Delivers(s, peer, k, f, t, Exchanges(peer.sent)) && Matched(t, peer.conf, Exchanges(peer.sent))
    ensures Understood(s, peer.sent[k].packet)
  {
    hide Exchanges, Effective, Understood, SideOk, Process, LogOf, LogStep, Tagged, CtxAt, Matched;
    var hs := Exchanges(peer.sent);
    var i := Arrived(peer.sent, k, peer.conf);
    var h := peer.sent[k].packet.signed;
    RolesOf(s, peer.conf, hs);
    StepArrived(peer.sent, k, peer.conf);
    ReplyHash(peer.sent, k, peer.conf);
    assert peer.sent[k].packet == KexdhReply(h.f, h);
    ReplyExpected(s, LogOf(s.sent, s.conf), i, hs, h, peer.conf);
    ReplyTaken(s, i, hs, h, peer.conf);
    t := Switched(Encrypt(s.(value := None), Newkeys), h, hs[0]);
    CurrentAgain(s, LogOf(s.sent, s.conf), i, hs);
    TagsOf(s, t, Newkeys, hs);
    ReplyMatched(s, t, peer.conf, hs);
  }

  lemma ReplyMatched(s: Ses, t: Ses, d: Config, hs: seq<Hash>)
    requires Matched(s, d, hs) && LogStep(LogOf(s.sent, s.conf), Newkeys, s.conf).ok
    requires t.sent == s.sent + [Sent(Newkeys, s.keys.trans)] && t.conf == s.conf && t.value == None
    ensures Matched(t, d, hs)
  {
    hide LogOf, Effective, LogStep;
    PushValue(s, t, Newkeys, Skips(d));
    MatchedAgain(s, t, d, hs);
  }

  lemma ReplyExpected(s: Ses, l: Log, i: Log, hs: seq<Hash>, h: Hash, d: Config)
    requires l == LogOf(s.sent, s.conf) && SideOk(s, l, i, hs) && Matched(s, d, hs)
    requires LogStep(i, KexdhReply(h.f, h), d).ok && i.n + i.d < |hs| && hs[i.n + i.d] == h
    ensures l.n == i.n + i.d && s.value == Some(h.e) && LogStep(l, Newkeys, s.conf).ok
  {
    hide LogOf, CtxAt, Effective, Keys;
  }

  lemma ReplyHash(log: seq<Sent>, k: nat, c: Config)
    requires k < |log| && log[k].packet.KexdhReply? && LogOf(log, c).ok && c.server
    ensures var n := Arrived(log, k, c).n + Arrived(log, k, c).d;
            n < |Exchanges(log)| && Exchanges(log)[n] == log[k].packet.signed
    ensures log[k].packet.f == log[k].packet.signed.f
  {
    StepArrived(log, k, c);
    LogPrefix(log, k, c);
    ExchangesCounted(log[..k], c);
    ExchangesPrefix(log, k + 1);
    assert log[..k + 1] == log[..k] + [log[k]];
    ExchangesPush(log[..k], log[k]);
    hide LogOf, Exchanges;
  }

  lemma DeliverNewkeys(s: Ses, peer: Ses, k: nat, hs: seq<Hash>, f: nat) returns (t: Ses)
    requires SideInv(s, peer, k, hs) && k < |peer.sent| && peer.sent[k].packet.Newkeys?
             && LogOf(peer.sent, peer.conf).ok
    requires LogOf(s.sent, s.conf).n == Arrived(peer.sent, k, peer.conf).n + 1
    ensures Delivers(s, peer, k, f, t, hs) && t.sent == s.sent && t.value == s.value
    ensures Understood(s, peer.sent[k].packet)
  {
    StepArrived(peer.sent, k, peer.conf);
    hide LogOf, Tagged;
    NewkeysTaken(s, LogOf(s.sent, s.conf), Arrived(peer.sent, k, peer.conf), hs, f, peer.conf);
    t := Process(s, Newkeys, f).ses;
    hide SideOk, Process, Understood;
  }

  /** The server's NEWKEYS is out before the client's: the client sends its own only after the reply. */
  lemma ServerAhead(n: Net)
    requires NetInv(n) && n.toB < |n.a.sent| && n.a.sent[n.toB].packet.Newkeys?
    ensures LogOf(n.b.sent, n.b.conf).n == Arrived(n.a.sent, n.toB, n.a.conf).n + 1
  {
    hide CtxAt, Tagged, Exchanges, ValueOk, Effective;
    LogPrefix(n.b.sent, n.toA, n.b.conf);
    StepArrived(n.a.sent, n.toB, n.a.conf);
    hide LogOf;
  }

  /** The client answers a reply at once, so NEWKEYS that follows it finds the client ready. */
  lemma ClientReady(n: Net)
    requires NetInv(n) && n.toA < |n.b.sent| && n.b.sent[n.toA].packet.Newkeys?
    ensures LogOf(n.a.sent, n.a.conf).n == Arrived(n.b.sent, n.toA, n.b.conf).n + 1
  {
    hide CtxAt, Tagged, Exchanges, ValueOk, Effective;
    StepArrived(n.b.sent, n.toA, n.b.conf);
    hide LogOf;
  }

  lemma Orderly(s: Ses, peer: Ses, k: nat, hs: seq<Hash>)
    requires SideInv(s, peer, k, hs)
    ensures LogOf(s.sent, s.conf).ok
  {
    hide LogOf, CtxAt, Tagged;
  }

  /** The kinds of packet a side can send. */
  lemma {:induction false} OwnPackets(log: seq<Sent>, k: nat, c: Config)
    requires k < |log| && LogOf(log, c).ok
    ensures c.server ==> !log[k].packet.KexdhInit?
    ensures !c.server ==> !log[k].packet.KexdhReply?
    ensures log[k].packet.KexdhInit? ==> Arrived(log, k, c).d < Inits(c)
  {
    StepArrived(log, k, c);
    hide LogOf;
  }

  lemma RolesOf(a: Ses, d: Config, hs: seq<Hash>)
    requires Matched(a, d, hs)
    ensures !a.conf.server && d.server && Pair(a.conf, d) && Compatible(a.conf, d)
  { }

  /** The server takes whatever the client sent next; with equal verdicts it understands it. */
  lemma ServerTakes(n: Net, f: nat) returns (t: Ses)
    requires NetInv(n) && n.toB < |n.a.sent|
    ensures Exchanges(n.b.sent) <= Exchanges(t.sent) && Matched(n.a, n.b.conf, Exchanges(t.sent))
    ensures Delivers(n.b, n.a, n.toB, f, t, Exchanges(t.sent))
    ensures (n.a.conf.guesses ==> n.a.conf.good == n.b.conf.good) ==> Understood(n.b, n.a.sent[n.toB].packet)
  {
    hide Process, SideInv, Exchanges, LogOf, RecvKexinit, Delivers, Matched, Understood;
    var hs := Exchanges(n.b.sent);
    var p := n.a.sent[n.toB].packet;
    Orderly(n.a, n.b, n.toA, hs);
    RolesOf(n.a, n.b.conf, hs);
    OwnPackets(n.a.sent, n.toB, n.a.conf);
    if p.Other? || p.NotUnderstood? {
      t := n.b;
      DeliverOther(n.b, n.a, n.toB, hs, f);
    } else if p.Kexinit? {
      t := RecvKexinit(n.b, p.follows);
      DeliverKexinit(n.b, n.a, n.toB, hs, f);
    } else if p.KexdhInit? {
      t := DeliverInit(n.b, n.a, n.toB, f);
      ServerCount(n.b, n.a, n.toB, hs);
      assert hs + [] == hs;
      if Arrived(n.a.sent, n.toB, n.a.conf).d == Skips(n.b.conf) { AnswersNext(n.a, n.toB, n.b.conf, hs, f); }
    } else {
      ServerAhead(n);
      t := DeliverNewkeys(n.b, n.a, n.toB, hs, f);
    }
  }

  lemma DeliverToServer(n: Net, f: nat)
    requires NetInv(n) && n.toB < |n.a.sent|
    ensures Happen(n, DeliverToB(f)).Running? && NetInv(Happen(n, DeliverToB(f)).net)
  {
    hide Process, SideInv, Exchanges, Matched;
    var t := ServerTakes(n, f);
    var hs, hs' := Exchanges(n.b.sent), Exchanges(t.sent);
    assert hs' == hs + hs'[|hs|..];
    PeerAdds(n.a, n.b, t, n.toA, hs, hs'[|hs|..]);
  }

  /** The client takes whatever the server sent next. */
  lemma ClientTakes(n: Net) returns (t: Ses)
    requires NetInv(n) && n.toA < |n.b.sent|
    ensures Delivers(n.a, n.b, n.toA, 0, t, Exchanges(n.b.sent)) && Matched(t, n.b.conf, Exchanges(n.b.sent))
    ensures Understood(n.a, n.b.sent[n.toA].packet)
  {
    hide Process, SideInv, Exchanges, LogOf, RecvKexinit, Delivers, Matched, Understood;
    var hs := Exchanges(n.b.sent);
    var p := n.b.sent[n.toA].packet;
    Orderly(n.b, n.a, n.toB, hs);
    RolesOf(n.a, n.b.conf, hs);
    OwnPackets(n.b.sent, n.toA, n.b.conf);
    if p.Other? || p.NotUnderstood? {
      t := n.a;
      DeliverOther(n.a, n.b, n.toA, hs, 0);
    } else if p.Kexinit? {
      t := RecvKexinit(n.a, p.follows);
      DeliverKexinit(n.a, n.b, n.toA, hs, 0);
      KexinitMatched(n.a, n.b, n.toA, hs);
    } else if p.KexdhReply? {
      t := DeliverReply(n.a, n.b, n.toA, 0);
    } else {
      ClientReady(n);
      t := DeliverNewkeys(n.a, n.b, n.toA, hs, 0);
      SameValue(n.a, t, n.b, n.toA, hs);
    }
  }

  lemma SameValue(s: Ses, t: Ses, peer: Ses, k: nat, hs: seq<Hash>)
    requires Matched(s, peer.conf, hs) && t.sent == s.sent && t.value == s.value && k < |peer.sent|
    requires Delivers(s, peer, k, 0, t, hs)
    ensures Matched(t, peer.conf, hs)
  {
    hide LogOf, Effective, SideInv, Process;
  }

  lemma DeliverToClient(n: Net)
    requires NetInv(n) && n.toA < |n.b.sent|
    ensures Happen(n, DeliverToA).Running? && NetInv(Happen(n, DeliverToA).net)
  {
    hide Process, SideInv, Exchanges, Matched;
    var t := ClientTakes(n);
    var hs := Exchanges(n.b.sent);
    PeerAdds(n.b, n.a, t, n.toB, hs, []);
    assert hs + [] == hs;
  }

  // ----- whole runs -----

  lemma HappenKeeps(n: Net, ev: Event)
    requires NetInv(n)
    ensures Happen(n, ev).Running? && NetInv(Happen(n, ev).net)
  {
    hide NetInv;
    match ev
    case DeliverToB(f) => if n.toB < |n.a.sent| { DeliverToServer(n, f); }
    case DeliverToA => if n.toA < |n.b.sent| { DeliverToClient(n); }
    case _ => LocalKeeps(n, ev);
  }

  lemma EmptyLog(c: Config)
    ensures LogOf([], c) == Log(0, false, 0, true) && Exchanges([]) == [] && Tagged([], [], c)
    ensures forall skip: nat :: Effective([], c, skip) == []
  { }

  lemma StartLog(c: Config)
    ensures LogOf(Start(c).sent, c) == Log(0, true, if Follows(c) then 1 else 0, true)
    ensures Exchanges(Start(c).sent) == [] && Tagged(Start(c).sent, [], c)
  {
    hide LogOf, Exchanges, Tagged;
    EmptyLog(c);
    var s := Fresh(c);
    RekeyTags(s, []);
    NoHash(s);
    var k := Kexinit(Follows(c));
    LogPush([], Sent(k, Unkeyed), c);
    var s1 := Encrypt(s, k).(kex := s.kex.(sentkexinit := true), gate := s.gate.(dataallowed := false),
                             newkeys := Some(Pending(None, None)));
    InitLog(s1, true);
    hide SendInit;
  }

  /** At the start a value is only there if it was guessed. */
  lemma StartValue(c: Config, d: Config)
    requires Pair(c, d) && Compatible(c, d)
    ensures Start(c).conf == c && Matched(Start(c), d, [])
  {
    hide LogOf, Effective;
    EmptyLog(c);
    var s := Fresh(c);
    var k := Kexinit(Follows(c));
    var s1 := Encrypt(s, k).(kex := s.kex.(sentkexinit := true), gate := s.gate.(dataallowed := false),
                             newkeys := Some(Pending(None, None)));
    LogPush([], Sent(k, Unkeyed), c);
    assert ValueOk(s, Skips(d));
    PushValue(s, s1, k, Skips(d));
    if Follows(c) { InitValue(s1, true, Skips(d)); }
    hide SendInit, ValueOk;
  }

  lemma StartInv(c: Config, d: Config)
    requires Pair(c, d) && Compatible(c, d)
    ensures NetInv(StartNet(c, d))
  {
    hide LogOf, Exchanges, Tagged, Start, SideOk, Matched;
    StartLog(d);
    StartSideInv(c, d);
    StartSideInv(d, c);
    StartSide(d);
    StartValue(c, d);
    hide SideInv;
  }

  lemma StartSideInv(c: Config, d: Config)
    requires Peers(c, d)
    ensures SideInv(Start(c), Start(d), 0, [])
  {
    hide LogOf, Exchanges, Tagged, Start, SideOk;
    StartSide(c);
    StartSide(d);
    StartLog(c);
    EmptyLog(d);
    assert Start(d).sent[..0] == [];
  }

  lemma StartSide(c: Config)
    ensures Start(c).conf == c
    ensures SideOk(Start(c), Log(0, true, if Follows(c) then 1 else 0, true), Log(0, false, 0, true), [])
  { }

  lemma {:induction false} RunKeeps(n: Net, events: seq<Event>)
    requires NetInv(n)
    ensures Run(n, events).Running? && NetInv(Run(n, events).net)
    decreases |events|
  {
    hide NetInv, Happen;
    if events != [] {
      HappenKeeps(n, events[0]);
      RunKeeps(Happen(n, events[0]).net, events[1..]);
    }
  }

  // ----- what every run guarantees -----

  lemma HeadContext(s: Ses, peer: Ses, k: nat, j: nat, hs: seq<Hash>)
    requires SideInv(s, peer, k, hs) && SideInv(peer, s, j, hs) && k < |peer.sent|
    ensures peer.sent[k].ctx == s.keys.recv
  {
    assert TaggedAt(peer.sent, k, peer.sent[k], hs, peer.conf);
    hide LogOf, CtxAt, Tagged;
  }

  /** The next packet in each direction is encrypted with the keys its receiver holds. */
  predicate SameKeys(f: Net) {
    && (f.toB < |f.a.sent| ==> f.a.sent[f.toB].ctx == f.b.keys.recv)
    && (f.toA < |f.b.sent| ==> f.b.sent[f.toA].ctx == f.a.keys.recv)
  }

  /** The next packet in each direction will not be answered with UNIMPLEMENTED. */
  predicate NextUnderstood(f: Net) {
    && (f.toB < |f.a.sent| ==> Understood(f.b, f.a.sent[f.toB].packet))
    && (f.toA < |f.b.sent| ==> Understood(f.a, f.b.sent[f.toA].packet))
  }

  /**
   No run fails: no packet is refused and every signature fits the hash the client computes itself. Every packet
   is encrypted with the keys its receiver holds when it arrives. If both sides judge a guess alike, none is
   answered with UNIMPLEMENTED.
   */
  lemma SameKeysAtBothEnds(c: Config, d: Config, events: seq<Event>)
    requires Pair(c, d) && Compatible(c, d)
    ensures Run(StartNet(c, d), events).Running? && SameKeys(Run(StartNet(c, d), events).net)
    ensures (c.guesses ==> c.good == d.good) ==> NextUnderstood(Run(StartNet(c, d), events).net)
  {
    hide StartNet, NetInv, Run, SameKeys, NextUnderstood, Compatible;
    StartInv(c, d);
    RunKeeps(StartNet(c, d), events);
    RunConf(StartNet(c, d), events);
    StartConf(c, d);
    HeadContexts(Run(StartNet(c, d), events).net);
    if c.guesses ==> c.good == d.good { HeadsUnderstood(Run(StartNet(c, d), events).net); }
  }

  lemma StartConf(c: Config, d: Config)
    ensures StartNet(c, d).a.conf == c && StartNet(c, d).b.conf == d
  { }

  lemma {:induction false} RunConf(n: Net, events: seq<Event>)
    requires NetInv(n)
    ensures Run(n, events).Running?
    ensures Run(n, events).net.a.conf == n.a.conf && Run(n, events).net.b.conf == n.b.conf
    decreases |events|
  {
    hide NetInv, Happen;
    if events != [] {
      HappenKeeps(n, events[0]);
      HappenConf(n, events[0]);
      RunConf(Happen(n, events[0]).net, events[1..]);
    }
  }

  lemma HappenConf(n: Net, ev: Event)
    ensures Happen(n, ev).Running? ==> Happen(n, ev).net.a.conf == n.a.conf && Happen(n, ev).net.b.conf == n.b.conf
  {
    match ev {
      case DeliverToB(f) => if n.toB < |n.a.sent| { ProcessConf(n.b, n.a.sent[n.toB].packet, f); }
      case DeliverToA => if n.toA < |n.b.sent| { ProcessConf(n.a, n.b.sent[n.toA].packet, 0); }
      case _ =>
    }
    hide Process;
  }

  lemma ProcessConf(s: Ses, p: Packet, f: nat)
    ensures Process(s, p, f).Next? ==> Process(s, p, f).ses.conf == s.conf
  { }

  lemma HeadContexts(f: Net)
    requires NetInv(f)
    ensures SameKeys(f)
  {
    var hs := Exchanges(f.b.sent);
    hide SideInv, Exchanges, Matched;
    if f.toB < |f.a.sent| { HeadContext(f.b, f.a, f.toB, f.toA, hs); }
    if f.toA < |f.b.sent| { HeadContext(f.a, f.b, f.toA, f.toB, hs); }
  }

  lemma HeadsUnderstood(n: Net)
    requires NetInv(n) && (n.a.conf.guesses ==> n.a.conf.good == n.b.conf.good)
    ensures NextUnderstood(n)
  {
    hide NetInv, Understood, Delivers, Matched, Exchanges;
    if n.toB < |n.a.sent| { var t := ServerTakes(n, 0); }
    if n.toA < |n.b.sent| { var t := ClientTakes(n); }
  }

  /** dataallowed, ses.newkeys and the session id of one side. */
  predicate Gated(s: Ses, hs: seq<Hash>) {
    && (!s.gate.dataallowed <==> s.kex.sentkexinit && !s.kex.sentnewkeys)
    && (s.newkeys.Some? <==> s.kex.sentkexinit)
    && (s.kex.sentnewkeys ==> s.kex.recvkexinit) && !s.kex.recvnewkeys
    && (s.hashes.sid.Some? ==> hs != [] && s.hashes.sid.value == hs[0])
    && (s.keys.trans.Keyed? ==> s.hashes.sid == Some(s.keys.trans.sid))
  }

  /**
   Data is held back exactly between KEXINIT and NEWKEYS, and the session id is the first exchange hash on both
   sides.
   */
  lemma GatesHold(c: Config, d: Config, events: seq<Event>)
    requires Pair(c, d) && Compatible(c, d)
    ensures Run(StartNet(c, d), events).Running?
    ensures var f := Run(StartNet(c, d), events).net;
            Gated(f.a, Exchanges(f.b.sent)) && Gated(f.b, Exchanges(f.b.sent))
  {
    hide StartNet, NetInv, Run;
    StartInv(c, d);
    RunKeeps(StartNet(c, d), events);
    BothGated(Run(StartNet(c, d), events).net);
  }

  lemma BothGated(f: Net)
    requires NetInv(f)
    ensures Gated(f.a, Exchanges(f.b.sent)) && Gated(f.b, Exchanges(f.b.sent))
  {
    var hs := Exchanges(f.b.sent);
    hide SideInv, Exchanges, Gated, Matched;
    SideGated(f.a, f.b, f.toA, hs);
    SideGated(f.b, f.a, f.toB, hs);
  }

  lemma SideGated(s: Ses, peer: Ses, k: nat, hs: seq<Hash>)
    requires SideInv(s, peer, k, hs)
    ensures Gated(s, hs)
  {
    hide LogOf, Tagged;
  }

  /** A side between exchanges. */
  predicate AtRest(s: Ses) {
    && s.kex == Idle && s.gate == Gate(true, Anything, false) && s.newkeys == None && s.hashes.hash == None
    && s.keys.recv.Keyed? && s.keys.trans.Keyed?
  }

  /**
   No exchange is left hanging: whenever nothing is in flight both sides have finished, with each
   side's sending context the other's receiving one, and the same session id.
   */
  lemma ExchangesComplete(c: Config, d: Config, events: seq<Event>)
    requires Pair(c, d) && Compatible(c, d)
    ensures Run(StartNet(c, d), events).Running?
    ensures var f := Run(StartNet(c, d), events).net;
            f.toB == |f.a.sent| && f.toA == |f.b.sent| ==>
              && AtRest(f.a) && AtRest(f.b)
              && f.a.keys.trans == f.b.keys.recv && f.b.keys.trans == f.a.keys.recv
              && f.a.hashes.sid == f.b.hashes.sid
  {
    hide StartNet, NetInv, Run;
    StartInv(c, d);
    RunKeeps(StartNet(c, d), events);
    var f := Run(StartNet(c, d), events).net;
    if f.toB == |f.a.sent| && f.toA == |f.b.sent| { DrainedAtRest(f); }
  }

  lemma DrainedAtRest(f: Net)
    requires NetInv(f) && f.toB == |f.a.sent| && f.toA == |f.b.sent|
    ensures AtRest(f.a) && AtRest(f.b) && f.a.keys.trans == f.b.keys.recv && f.b.keys.trans == f.a.keys.recv
    ensures f.a.hashes.sid == f.b.hashes.sid
  {
    hide LogOf, Tagged, Exchanges, Effective, Answers;
    assert f.a.sent[..f.toB] == f.a.sent && f.b.sent[..f.toA] == f.b.sent;
    var la, lb := LogOf(f.a.sent, f.a.conf), LogOf(f.b.sent, f.b.conf);
    BothClosed(f.a, f.b, la, lb, Exchanges(f.b.sent));
  }

  lemma BothClosed(a: Ses, b: Ses, la: Log, lb: Log, hs: seq<Hash>)
    requires SideOk(a, la, lb, hs) && SideOk(b, lb, la, hs) && Pair(a.conf, b.conf) && Compatible(a.conf, b.conf)
    ensures la.n == lb.n > 0 && !la.open && !lb.open && !b.gate.ignorenext
  {
    hide CtxAt, Keys;
  }

  /** Once set, the session id never changes. */
  lemma {:induction false} SessionIdFixed(n: Net, events: seq<Event>)
    ensures Run(n, events).Running? && n.a.hashes.sid.Some? ==> Run(n, events).net.a.hashes.sid == n.a.hashes.sid
    ensures Run(n, events).Running? && n.b.hashes.sid.Some? ==> Run(n, events).net.b.hashes.sid == n.b.hashes.sid
    decreases |events|
  {
    if events != [] && Happen(n, events[0]).Running? {
      match events[0] {
        case DeliverToB(f) => if n.toB < |n.a.sent| { ProcessSid(n.b, n.a.sent[n.toB].packet, f); }
        case DeliverToA => if n.toA < |n.b.sent| { ProcessSid(n.a, n.b.sent[n.toA].packet, 0); }
        case _ =>
      }
      hide Process;
      SessionIdFixed(Happen(n, events[0]).net, events[1..]);
    }
  }

  lemma ProcessSid(s: Ses, p: Packet, f: nat)
    ensures s.hashes.sid.Some? && Process(s, p, f).Next? ==> Process(s, p, f).ses.hashes.sid == s.hashes.sid
  { }

  // ----- when the sides judge a guess differently -----

  /** The run goes on, and if nothing is in flight no exchange is left hanging. */
  ghost predicate GoesWell(n: Net, events: seq<Event>) {
    && Run(n, events).Running?
    && var f := Run(n, events).net;
    && (f.toB == |f.a.sent| && f.toA == |f.b.sent| ==> AtRest(f.a) && AtRest(f.b))
  }

  lemma Turn(n: Net, ev: Event, rest: seq<Event>)
    ensures Run(n, [ev] + rest) == if Happen(n, ev).Running? then Run(Happen(n, ev).net, rest) else Failed
  {
    assert ([ev] + rest)[1..] == rest;
  }

  /** The server skips the guess and the client does not repeat it: both wait. */
  lemma BothWait(c: Config, d: Config)
    requires Pair(c, d) && c.guesses && c.good && !d.good
    ensures !GoesWell(StartNet(c, d), [DeliverToB(0), DeliverToB(0), DeliverToA])
  {
    var n := StartNet(c, d);
    var es := [DeliverToB(0), DeliverToB(0), DeliverToA];
    assert n.a.sent == [Sent(Kexinit(true), Unkeyed), Sent(KexdhInit(1), Unkeyed)];
    assert n.b.sent == [Sent(Kexinit(false), Unkeyed)];
    var b1 := n.b.(kex := n.b.kex.(recvkexinit := true), gate := Gate(false, NeedKexdh, true));
    assert Process(n.b, Kexinit(true), 0) == Next(b1);
    var b2 := b1.(gate := Gate(false, NeedKexdh, false));
    assert Process(b1, KexdhInit(1), 0) == Next(b2);
    var a3 := n.a.(kex := n.a.kex.(recvkexinit := true), gate := Gate(false, NeedKexdh, false));
    assert Process(n.a, Kexinit(false), 0) == Next(a3);
    hide Process;
    var n1, n2, n3 := n.(b := b1, toB := 1), n.(b := b2, toB := 2), n.(a := a3, b := b2, toB := 2, toA := 1);
    assert Happen(n, es[0]) == Running(n1) && Happen(n1, es[1]) == Running(n2) && Happen(n2, es[2]) == Running(n3);
    hide Happen;
    Turn(n, es[0], es[1..]);
    Turn(n1, es[1], es[2..]);
    Turn(n2, es[2], []);
    assert es == [es[0]] + es[1..] && es[1..] == [es[1]] + es[2..] && es[2..] == [es[2]] + [];
  }

  /** The client's first two turns of such a run: it repeats the guess with a new value, and refuses the old one. */
  lemma NewValueRefuses(c: Config)
    requires !c.server && c.guesses && !c.good && !c.same
    ensures var k, i := Sent(Kexinit(true), Unkeyed), Sent(KexdhInit(1), Unkeyed);
            && Start(c).sent == [k, i]
            && var a1 := Start(c).(kex := Start(c).kex.(recvkexinit := true), gate := Gate(false, NeedKexdh, false),
                                   value := Some(2), sent := [k, i, Sent(KexdhInit(2), Unkeyed)]);
            Process(Start(c), Kexinit(false), 0) == Next(a1) && Process(a1, KexdhReply(0, Hash(1, 0)), 0) == Exit
  { }

  /** The server's: it takes the guess for the real thing. */
  lemma GuessAnswered(d: Config)
    requires d.server && d.good
    ensures Start(d).sent == [Sent(Kexinit(false), Unkeyed)]
    ensures var b2 := Start(d).(kex := Start(d).kex.(recvkexinit := true), gate := Gate(false, NeedKexdh, false));
            && Process(Start(d), Kexinit(true), 0) == Next(b2)
            && Process(b2, KexdhInit(1), 0) == Next(Answered(b2, 1, 0))
            && Answered(b2, 1, 0).sent == [Sent(Kexinit(false), Unkeyed), Sent(KexdhReply(0, Hash(1, 0)), Unkeyed),
                                           Sent(Newkeys, Unkeyed)]
  { }

  /** The server answers the guess, but the client has made a new value for the method it repeats it with. */
  lemma OldValueSigned(c: Config, d: Config)
    requires Pair(c, d) && c.guesses && !c.good && d.good && !c.same
    ensures !GoesWell(StartNet(c, d), [DeliverToA, DeliverToB(0), DeliverToB(0), DeliverToA])
  {
    NewValueRefuses(c);
    GuessAnswered(d);
    hide Process, Answered, Start;
    var n := StartNet(c, d);
    var es := [DeliverToA, DeliverToB(0), DeliverToB(0), DeliverToA];
    var a1 := Process(Start(c), Kexinit(false), 0).ses;
    var b2 := Process(Start(d), Kexinit(true), 0).ses;
    var b3 := Answered(b2, 1, 0);
    var n1, n2, n3 := Net(a1, Start(d), 0, 1), Net(a1, b2, 1, 1), Net(a1, b3, 2, 1);
    assert Happen(n, es[0]) == Running(n1) && Happen(n1, es[1]) == Running(n2) && Happen(n2, es[2]) == Running(n3);
    assert Happen(n3, es[3]) == Failed;
    FourTurns(n, n1, n2, n3, es);
    hide Happen, Run;
  }

  lemma FourTurns(n: Net, n1: Net, n2: Net, n3: Net, es: seq<Event>)
    requires |es| == 4 && Happen(n, es[0]) == Running(n1) && Happen(n1, es[1]) == Running(n2)
    requires Happen(n2, es[2]) == Running(n3) && Happen(n3, es[3]) == Failed
    ensures Run(n, es) == Failed
  {
    hide Happen;
    Turn(n, es[0], es[1..]);
    Turn(n1, es[1], es[2..]);
    Turn(n2, es[2], es[3..]);
    Turn(n3, es[3], []);
    assert es == [es[0]] + es[1..] && es[1..] == [es[1]] + es[2..];
    assert es[2..] == [es[2]] + es[3..] && es[3..] == [es[3]] + [];
  }

  /** Every run goes well exactly when the opinions of a guess go together. */
  lemma GoesWellExactly(c: Config, d: Config)
    requires Pair(c, d)
    ensures (forall events: seq<Event> :: GoesWell(StartNet(c, d), events)) <==> Compatible(c, d)
  {
    if Compatible(c, d) {
      forall events: seq<Event> ensures GoesWell(StartNet(c, d), events) {
        ExchangesComplete(c, d, events);
      }
    } else if c.good {
      BothWait(c, d);
    } else {
      OldValueSigned(c, d);
    }
  }
}
