/** One side against any peer: whatever packets come, in whatever order. */
module KexPeer {
  import opened Wrappers
  import opened KexModel

  /** A packet arrives (f is the value of a server that completes an exchange with it), or the side acts by itself. */
  datatype Step = Incoming(p: Packet, f: nat) | StartRekey | SendData

  function Take(s: Ses, step: Step): Outcome {
    match step
    case Incoming(p, f) => Process(s, p, f)
    case StartRekey => Next(Rekey(s))
    case SendData => Next(SendOther(s))
  }

  function Steps(s: Ses, steps: seq<Step>): Outcome
    decreases |steps|
  {
    if steps == [] then Next(s)
    else match Take(s, steps[0])
      case Next(t) => Steps(t, steps[1..])
      case o => o
  }

  // ----- the log -----

  predicate HasNewkeys(log: seq<Sent>) {
    log != [] && (log[|log| - 1].packet.Newkeys? || HasNewkeys(log[..|log| - 1]))
  }

  /** Every packet is encrypted with the side's own direction exactly if it comes after a NEWKEYS. */
  predicate Sealed(log: seq<Sent>, server: bool) {
    log == [] ||
    (var front, last := log[..|log| - 1], log[|log| - 1];
     && Sealed(front, server) && (last.ctx.Keyed? <==> HasNewkeys(front))
     && (last.ctx.Keyed? ==> last.ctx.c2s == !server))
  }

  /** No exchange of this side is under way: NEWKEYS has followed the last KEXINIT. */
  predicate Open(log: seq<Sent>) {
    log == [] ||
    var last := log[|log| - 1].packet;
    if last.Kexinit? then false else last.Newkeys? || Open(log[..|log| - 1])
  }

  predicate Quiet(log: seq<Sent>) {
    log == [] || (Quiet(log[..|log| - 1]) && (log[|log| - 1].packet.Other? ==> Open(log[..|log| - 1])))
  }

  lemma LogPush(log: seq<Sent>, x: Sent)
    ensures HasNewkeys(log + [x]) <==> x.packet.Newkeys? || HasNewkeys(log)
    ensures Open(log + [x]) <==> !x.packet.Kexinit? && (x.packet.Newkeys? || Open(log))
    ensures Quiet(log + [x]) <==> Quiet(log) && (x.packet.Other? ==> Open(log))
    ensures forall server :: Sealed(log + [x], server) <==>
              && Sealed(log, server) && (x.ctx.Keyed? <==> HasNewkeys(log))
              && (x.ctx.Keyed? ==> x.ctx.c2s == !server)
  {
    var l := log + [x];
    assert l[..|l| - 1] == log && l[|l| - 1] == x;
  }

  // ----- what every step keeps -----

  function Requires(s: Ses): Required {
    if !s.kex.recvkexinit then (if s.keys.recv.Unkeyed? then NeedKexinit else Anything)
    else if !s.kex.sentnewkeys then NeedKexdh else NeedNewkeys
  }

  predicate Flags(s: Ses) {
    && (s.kex.recvkexinit ==> s.kex.sentkexinit) && (s.kex.sentnewkeys ==> s.kex.recvkexinit) && !s.kex.recvnewkeys
    && s.gate.requirenext == Requires(s)
    && s.gate.dataallowed == (s.kex.sentkexinit ==> s.kex.sentnewkeys)
  }

  predicate Keys(s: Ses) {
    && s.hashes.hash.None? && (s.hashes.sid.Some? <==> s.keys.trans.Keyed?)
    && (s.keys.trans.Keyed? ==> s.keys.trans.sid == s.hashes.sid.value && s.keys.trans.c2s == !s.conf.server)
    && s.newkeys == (if !s.kex.sentkexinit then None
                     else if !s.kex.sentnewkeys then Some(Pending(None, None))
                     else Some(Pending(Some(Partner(s.keys.trans)), None)))
    && (s.kex.sentnewkeys ==> s.keys.trans.Keyed?)
    && (!s.kex.sentnewkeys ==> s.keys.recv == Partner(s.keys.trans))
  }

  /** The other direction of the same exchange. */
  function Partner(c: Ctx): Ctx {
    if c.Keyed? then c.(c2s := !c.c2s) else c
  }

  /** A client has a value while it may get a reply. */
  predicate HasValue(s: Ses) {
    !s.conf.server && s.kex.sentkexinit && !s.kex.sentnewkeys && (s.kex.recvkexinit || s.conf.guesses) ==>
      s.value.Some?
  }

  predicate Log(s: Ses) {
    && Sealed(s.sent, s.conf.server) && Quiet(s.sent)
    && (HasNewkeys(s.sent) <==> s.keys.trans.Keyed?) && (Open(s.sent) <==> s.gate.dataallowed)
  }

  predicate SideInv(s: Ses) {
    Flags(s) && Keys(s) && HasValue(s) && Log(s)
  }

  lemma EncryptKeeps(s: Ses, p: Packet)
    requires Log(s) && Keys(s) && !p.Kexinit? && !p.Newkeys? && (p.Other? ==> s.gate.dataallowed)
    ensures Log(Encrypt(s, p))
  {
    LogPush(s.sent, Sent(p, s.keys.trans));
    hide Sealed, Quiet, Open, HasNewkeys;
  }

  /** KEXINIT itself, before a guess. */
  function Announced(s: Ses): Ses {
    Encrypt(s, Kexinit(Follows(s.conf))).(
      kex := s.kex.(sentkexinit := true),
      gate := s.gate.(dataallowed := false),
      newkeys := Some(Pending(None, None)))
  }

  predicate Plain(s: Ses) {
    Flags(s) && Keys(s) && Log(s)
  }

  lemma AnnouncedKeeps(s: Ses)
    requires Plain(s) && !s.kex.sentkexinit
    ensures Plain(Announced(s)) && (s.conf.server || !s.conf.guesses ==> HasValue(Announced(s)))
  {
    LogPush(s.sent, Sent(Kexinit(Follows(s.conf)), s.keys.trans));
    hide Sealed, Quiet, Open, HasNewkeys;
  }

  lemma SendKexinitKeeps(s: Ses)
    requires Plain(s) && !s.kex.sentkexinit
    ensures SideInv(SendKexinit(s)) && SendKexinit(s).kex == s.kex.(sentkexinit := true)
    ensures SendKexinit(s).conf == s.conf && SendKexinit(s).gate.requirenext == s.gate.requirenext
    ensures SendKexinit(s).keys == s.keys && SendKexinit(s).hashes == s.hashes
  {
    AnnouncedKeeps(s);
    var s1 := Announced(s);
    hide Sealed, Quiet, Open, HasNewkeys;
    if Follows(s.conf) {
      var v := if s1.value.Some? then s1.value.value else |s1.sent|;
      EncryptKeeps(s1.(value := Some(v)), KexdhInit(v));
    }
  }

  lemma RecvKexinitKeeps(s: Ses, follows: bool)
    requires SideInv(s) && !s.kex.recvkexinit
    ensures SideInv(RecvKexinit(s, follows)) && RecvKexinit(s, follows).keys == s.keys
  {
    hide Sealed, Quiet, Open, HasNewkeys;
    if !s.kex.sentkexinit { SendKexinitKeeps(s); }
    var s1 := Rekey(s);
    assert SideInv(s1) && s1.kex == Progress(true, false, false, false) && s1.conf == s.conf && s1.keys == s.keys;
    hide Rekey;
    var s2 := TakeKexinit(s1, follows);
    assert Plain(s2) && s2.kex == Progress(true, true, false, false);
    if !s.conf.server && !(s.conf.guesses && s.conf.good) {
      var v := if s.conf.same && s2.value.Some? then s2.value.value else |s2.sent|;
      EncryptKeeps(s2.(value := Some(v)), KexdhInit(v));
    }
  }

  /** The end of an exchange: NEWKEYS goes out, everything after it is keyed by h. */
  lemma FinishKeeps(s: Ses, h: Hash)
    requires Plain(s) && s.kex == Progress(true, true, false, false)
    ensures var o := ThenNewkeys(FinishHash(s.(gate := s.gate.(requirenext := Anything)), h));
            && o.Next? && SideInv(o.ses) && o.ses.keys.recv == s.keys.recv
            && o.ses.keys.trans == Keyed(h, SessionId(s.hashes.sid, h), !s.conf.server)
  {
    LogPush(s.sent, Sent(Newkeys, s.keys.trans));
    hide Sealed, Quiet, Open, HasNewkeys;
  }

  lemma NewkeysKeeps(s: Ses)
    requires SideInv(s) && s.kex.sentnewkeys
    ensures var o := RecvNewkeys(s.(gate := s.gate.(requirenext := Anything)));
            o.Next? && SideInv(o.ses) && o.ses.keys == Contexts(Partner(s.keys.trans), s.keys.trans)
  {
    hide Sealed, Quiet, Open, HasNewkeys;
  }

  /** What a packet does to the keys: at most one direction changes, and only so. */
  ghost predicate Change(s: Ses, p: Packet, f: nat, t: Ses) {
    && (t.keys.recv != s.keys.recv ==> p.Newkeys? && s.kex.sentnewkeys && t.keys.recv == Partner(s.keys.trans))
    && (t.keys.trans != s.keys.trans ==>
          && s.kex.recvkexinit && t.keys.trans.Keyed? && t.keys.trans.sid == SessionId(s.hashes.sid, t.keys.trans.h)
          && if s.conf.server then p.KexdhInit? && t.keys.trans.h == Hash(p.e, f)
             else p.KexdhReply? && s.value == Some(p.signed.e) && p.f == p.signed.f && t.keys.trans.h == p.signed)
  }

  lemma HandleKeeps(s: Ses, p: Packet, f: nat)
    requires SideInv(s) && Expected(s, p) && !p.NotUnderstood?
    ensures var o := Handle(s.(gate := s.gate.(requirenext := Anything)), p, f);
            !o.Fault? && (o.Next? ==> SideInv(o.ses) && Change(s, p, f, o.ses))
  {
    var s0 := s.(gate := s.gate.(requirenext := Anything));
    hide Sealed, Quiet, Open, HasNewkeys;
    if !Known(s.conf, p) {
      assert s.gate.requirenext == Anything;
      EncryptKeeps(s, NotUnderstood);
    } else {
      match p
      case Kexinit(follows) => KexinitHandled(s, follows);
      case KexdhInit(e) => InitHandled(s, e, f);
      case KexdhReply(f', signed) => ReplyHandled(s, f', signed, f);
      case Newkeys => NewkeysHandled(s, f);
      case _ =>
    }
  }

  lemma KexinitHandled(s: Ses, follows: bool)
    requires SideInv(s) && Expected(s, Kexinit(follows))
    ensures var t := RecvKexinit(s.(gate := s.gate.(requirenext := Anything)), follows);
            SideInv(t) && t.keys == s.keys
  {
    hide Sealed, Quiet, Open, HasNewkeys;
    RecvKexinitKeeps(s, follows);
    assert RecvKexinit(s.(gate := s.gate.(requirenext := Anything)), follows) == RecvKexinit(s, follows);
  }

  lemma InitHandled(s: Ses, e: nat, f: nat)
    requires SideInv(s) && Expected(s, KexdhInit(e)) && s.conf.server
    ensures var o := RecvKexdhInit(s.(gate := s.gate.(requirenext := Anything)), e, f);
            !o.Fault? && (o.Next? ==> SideInv(o.ses) && Change(s, KexdhInit(e), f, o.ses))
  {
    hide Sealed, Quiet, Open, HasNewkeys;
    if s.kex.recvkexinit {
      var h := Hash(e, f);
      var reply := KexdhReply(f, h);
      EncryptKeeps(s, reply);
      FinishKeeps(Encrypt(s, reply), h);
      hide ThenNewkeys;
    }
  }

  lemma ReplyHandled(s: Ses, f: nat, signed: Hash, g: nat)
    requires SideInv(s) && Expected(s, KexdhReply(f, signed)) && !s.conf.server
    ensures var o := RecvKexdhReply(s.(gate := s.gate.(requirenext := Anything)), f, signed);
            !o.Fault? && (o.Next? ==> SideInv(o.ses) && Change(s, KexdhReply(f, signed), g, o.ses))
  {
    hide Sealed, Quiet, Open, HasNewkeys;
    if s.kex.recvkexinit && s.value == Some(signed.e) && f == signed.f {
      FinishKeeps(s.(value := None), signed);
      hide ThenNewkeys;
    }
  }

  lemma NewkeysHandled(s: Ses, f: nat)
    requires SideInv(s) && Expected(s, Newkeys)
    ensures var o := RecvNewkeys(s.(gate := s.gate.(requirenext := Anything)));
            !o.Fault? && (o.Next? ==> SideInv(o.ses) && Change(s, Newkeys, f, o.ses))
  {
    hide Sealed, Quiet, Open, HasNewkeys;
    if s.kex.sentnewkeys { NewkeysKeeps(s); }
  }

  lemma ProcessKeeps(s: Ses, p: Packet, f: nat)
    requires SideInv(s)
    ensures var o := Process(s, p, f);
            !o.Fault? && (o.Next? ==> SideInv(o.ses) && Change(s, p, f, o.ses))
  {
    hide Sealed, Quiet, Open, HasNewkeys;
    if p.NotUnderstood? {
    } else if !Expected(s, p) {
      EncryptKeeps(s, NotUnderstood);
    } else if !s.gate.ignorenext {
      HandleKeeps(s, p, f);
      hide Handle;
    }
  }

  lemma TakeKeeps(s: Ses, step: Step)
    requires SideInv(s)
    ensures !Take(s, step).Fault? && (Take(s, step).Next? ==> SideInv(Take(s, step).ses))
  {
    hide Sealed, Quiet, Open, HasNewkeys, Process;
    match step
    case Incoming(p, f) => ProcessKeeps(s, p, f);
    case StartRekey => if !s.kex.sentkexinit { SendKexinitKeeps(s); }
    case SendData => if s.gate.dataallowed { EncryptKeeps(s, Other); }
  }

  lemma {:induction false} StepsKeep(s: Ses, steps: seq<Step>)
    requires SideInv(s)
    ensures !Steps(s, steps).Fault? && (Steps(s, steps).Next? ==> SideInv(Steps(s, steps).ses))
    decreases |steps|
  {
    hide SideInv, Take;
    if steps != [] {
      TakeKeeps(s, steps[0]);
      if Take(s, steps[0]).Next? { StepsKeep(Take(s, steps[0]).ses, steps[1..]); }
    }
  }

  lemma StartInv(conf: Config)
    ensures SideInv(Start(conf))
  {
    SendKexinitKeeps(Fresh(conf));
  }

  // ----- for every peer -----

  lemma {:induction false} NewkeysBefore(log: seq<Sent>)
    ensures HasNewkeys(log) <==> exists i :: 0 <= i < |log| && log[i].packet.Newkeys?
  {
    if log != [] {
      var n := |log| - 1;
      NewkeysBefore(log[..n]);
      if i :| 0 <= i < n && log[i].packet.Newkeys? { assert log[..n][i] == log[i]; }
    }
  }

  lemma {:induction false} SealedAt(log: seq<Sent>, server: bool, j: nat)
    requires Sealed(log, server) && j < |log|
    ensures log[j].ctx.Keyed? <==> HasNewkeys(log[..j])
    ensures log[j].ctx.Keyed? ==> log[j].ctx.c2s == !server
  {
    var n := |log| - 1;
    if j < n {
      SealedAt(log[..n], server, j);
      assert log[..n][..j] == log[..j];
    }
  }

  lemma {:induction false} OpenSince(log: seq<Sent>, i: nat)
    requires Open(log) && i < |log| && log[i].packet.Kexinit?
    ensures exists k :: i < k < |log| && log[k].packet.Newkeys?
  {
    var n := |log| - 1;
    if log[n].packet.Newkeys? {
    } else {
      OpenSince(log[..n], i);
      var k :| i < k < n && log[..n][k].packet.Newkeys?;
      assert log[k] == log[..n][k];
    }
  }

  lemma {:induction false} QuietAt(log: seq<Sent>, i: nat, j: nat)
    requires Quiet(log) && i < j < |log| && log[i].packet.Kexinit? && log[j].packet.Other?
    ensures exists k :: i < k < j && log[k].packet.Newkeys?
  {
    var n := |log| - 1;
    var front := log[..n];
    if j == n { OpenSince(front, i); } else { QuietAt(front, i, j); }
    var k :| i < k < j && front[k].packet.Newkeys?;
    assert log[k] == front[k];
  }

  /** No sequence of packets makes a side follow a null pointer. */
  lemma NoFault(conf: Config, steps: seq<Step>)
    ensures !Steps(Start(conf), steps).Fault?
  {
    hide SideInv, Start, Steps;
    StartInv(conf);
    StepsKeep(Start(conf), steps);
  }

  lemma LogOf(s: Ses)
    requires SideInv(s)
    ensures Sealed(s.sent, s.conf.server) && Quiet(s.sent)
  {
    hide Sealed, Quiet, Flags, Keys, HasValue;
  }

  lemma StartConf(conf: Config)
    ensures Start(conf).conf == conf
  { }

  /** What a side sends is encrypted, in its own direction, exactly from its first NEWKEYS on. */
  lemma EncryptedSinceNewkeys(conf: Config, steps: seq<Step>, j: nat)
    requires Steps(Start(conf), steps).Next? && j < |Steps(Start(conf), steps).ses.sent|
    ensures var log := Steps(Start(conf), steps).ses.sent;
            && (log[j].ctx.Keyed? <==> exists i :: 0 <= i < j && log[i].packet.Newkeys?)
            && (log[j].ctx.Keyed? ==> log[j].ctx.c2s == !conf.server)
  {
    hide SideInv, Start, Steps, Sealed, HasNewkeys;
    StartInv(conf);
    StartConf(conf);
    StepsKeep(Start(conf), steps);
    StepsConf(Start(conf), steps);
    var s := Steps(Start(conf), steps).ses;
    LogOf(s);
    SealedAt(s.sent, conf.server, j);
    NewkeysBefore(s.sent[..j]);
    assert forall i :: 0 <= i < j ==> s.sent[..j][i] == s.sent[i];
  }

  lemma {:induction false} StepsConf(s: Ses, steps: seq<Step>)
    ensures Steps(s, steps).Next? ==> Steps(s, steps).ses.conf == s.conf
    decreases |steps|
  {
    if steps != [] && Take(s, steps[0]).Next? {
      TakeConf(s, steps[0]);
      hide Take;
      StepsConf(Take(s, steps[0]).ses, steps[1..]);
    }
  }

  lemma TakeConf(s: Ses, step: Step)
    ensures Take(s, step).Next? ==> Take(s, step).ses.conf == s.conf
  {
    if step.Incoming? { ProcessConf(s, step.p, step.f); }
    hide Process;
  }

  lemma ProcessConf(s: Ses, p: Packet, f: nat)
    ensures Process(s, p, f).Next? ==> Process(s, p, f).ses.conf == s.conf
  {
    var s0 := s.(gate := s.gate.(requirenext := Anything));
    if p.KexdhInit? {
      FinishConf(Encrypt(FinishHash(s0, Hash(p.e, f)), KexdhReply(f, Hash(p.e, f))));
    } else if p.KexdhReply? && s.value.Some? {
      FinishConf(FinishHash(s0.(value := None), Hash(s.value.value, p.f)));
    }
    hide ThenNewkeys, FinishHash;
  }

  lemma FinishConf(s: Ses)
    ensures ThenNewkeys(s).Next? ==> ThenNewkeys(s).ses.conf == s.conf
  { }

  /** Between its KEXINIT and its NEWKEYS a side sends nothing else. */
  lemma NoDataInExchange(conf: Config, steps: seq<Step>, i: nat, j: nat)
    requires Steps(Start(conf), steps).Next? && i < j < |Steps(Start(conf), steps).ses.sent|
    ensures var log := Steps(Start(conf), steps).ses.sent;
            log[i].packet.Kexinit? && log[j].packet.Other? ==> exists k :: i < k < j && log[k].packet.Newkeys?
  {
    hide SideInv, Start, Steps, Quiet;
    StartInv(conf);
    StepsKeep(Start(conf), steps);
    var log := Steps(Start(conf), steps).ses.sent;
    LogOf(Steps(Start(conf), steps).ses);
    if log[i].packet.Kexinit? && log[j].packet.Other? { QuietAt(log, i, j); }
  }

  /** Whether a packet of the services would be taken. */
  predicate TakesData(s: Ses) {
    Process(s, Other, 0).Next?
  }

  /** Services are reached only under keys, and not once the peer has started an exchange: anything else exits. */
  lemma DataOnlyUnderKeys(conf: Config, steps: seq<Step>)
    requires Steps(Start(conf), steps).Next?
    ensures var s := Steps(Start(conf), steps).ses;
            && (TakesData(s) <==> s.keys.recv.Keyed? && !s.kex.recvkexinit)
            && (!TakesData(s) ==> Process(s, Other, 0) == Exit)
  {
    hide Start, Steps, Keys, HasValue, Log;
    StartInv(conf);
    StepsKeep(Start(conf), steps);
  }

  /** Every change of keys, whatever the peer sends. */
  lemma KeysChangeOnlySo(conf: Config, steps: seq<Step>, p: Packet, f: nat)
    requires Steps(Start(conf), steps).Next?
    ensures var s := Steps(Start(conf), steps).ses;
            Process(s, p, f).Next? ==> Change(s, p, f, Process(s, p, f).ses)
  {
    StartInv(conf);
    StepsKeep(Start(conf), steps);
    hide Start, Steps, SideInv, Process, Change;
    ProcessKeeps(Steps(Start(conf), steps).ses, p, f);
  }

  /** A client that waits for a reply takes those that sign its own value and theirs; any other ends the program. */
  lemma ReplyExactly(conf: Config, steps: seq<Step>, f: nat, signed: Hash)
    requires Steps(Start(conf), steps).Next?
    ensures var s := Steps(Start(conf), steps).ses;
            !conf.server && s.gate.requirenext == NeedKexdh && !s.gate.ignorenext ==>
              && s.value.Some?
              && var o := Process(s, KexdhReply(f, signed), 0);
              if signed == Hash(s.value.value, f)
              then o.Next? && o.ses.keys.trans == Keyed(signed, SessionId(s.hashes.sid, signed), true)
              else o == Exit
  {
    hide Start, Steps, Sealed, Quiet, Open, HasNewkeys;
    StartInv(conf);
    StartConf(conf);
    StepsKeep(Start(conf), steps);
    StepsConf(Start(conf), steps);
    var s := Steps(Start(conf), steps).ses;
    if !conf.server && s.gate.requirenext == NeedKexdh && !s.gate.ignorenext && signed == Hash(s.value.value, f) {
      FinishKeeps(s.(value := None), signed);
      hide ThenNewkeys;
    }
  }

  /** A side that has sent NEWKEYS takes the peer's, and with it the other half of the keys. */
  lemma NewkeysExactly(conf: Config, steps: seq<Step>)
    requires Steps(Start(conf), steps).Next?
    ensures var s := Steps(Start(conf), steps).ses;
            s.kex.sentnewkeys && !s.gate.ignorenext ==>
              && var o := Process(s, Newkeys, 0);
              && o.Next? && o.ses.kex == Idle && o.ses.keys == Contexts(Partner(s.keys.trans), s.keys.trans)
              && s.keys.trans.Keyed? && o.ses.gate.requirenext == Anything
  {
    hide Start, Steps, Sealed, Quiet, Open, HasNewkeys;
    StartInv(conf);
    StepsKeep(Start(conf), steps);
    var s := Steps(Start(conf), steps).ses;
    if s.kex.sentnewkeys { NewkeysKeeps(s); }
  }
}
