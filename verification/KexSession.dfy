/** The session object whose fields the key exchange updates, refining the value model. */
module KexSession {
  import opened Wrappers
  import opened KexModel

  class Session {
    const conf: Config
    var kexstate: Progress
    /** Whether the peer's KEXINIT announced a guessed packet, and whether this side's own guess was right. */
    var themFirstFollows: bool
    var ourFirstFollowsMatches: bool
    var dataallowed: bool
    var requirenext: Required
    var ignorenext: bool
    var keys: Contexts
    var newkeys: Option<Pending>
    var hash: Option<Hash>
    var sessionId: Option<Hash>
    /** cli_ses's parameter of the exchange: the client's value, while it has one. */
    var value: Option<nat>
    var sent: seq<Sent>

    ghost function View(): Ses
      reads this
    {
      Ses(conf, kexstate, Gate(dataallowed, requirenext, ignorenext), keys, newkeys,
          Hashes(hash, sessionId), value, sent)
    }

    /** Only a client that guesses has a guess that was right. */
    predicate Valid()
      reads this`ourFirstFollowsMatches
    {
      ourFirstFollowsMatches ==> Follows(conf) && conf.good
    }

    /** common_session_init, then kexfirstinitialise. */
    constructor (conf: Config)
      ensures Valid() && View() == Fresh(conf)
    {
      this.conf := conf;
      kexstate := Progress(false, false, false, false);
      themFirstFollows, ourFirstFollowsMatches := false, false;
      dataallowed, requirenext, ignorenext := true, NeedKexinit, false;
      keys, newkeys, hash, sessionId := Contexts(Unkeyed, Unkeyed), None, None, None;
      value, sent := None, [];
    }

    method EncryptPacket(p: Packet)
      modifies this`sent
      ensures View() == Encrypt(old(View()), p)
    {
      sent := sent + [Sent(p, keys.trans)];
    }

    /** send_msg_kexdh_init: a value is made unless there is one for this method. */
    method SendMsgKexdhInit(same: bool)
      modifies this`sent, this`value
      ensures View() == SendInit(old(View()), same)
    {
      if !same || value.None? {
        value := Some(|sent|);
      }
      EncryptPacket(KexdhInit(value.value));
    }

    method SendMsgKexinit()
      modifies this`sent, this`dataallowed, this`kexstate, this`newkeys, this`value
      ensures View() == SendKexinit(old(View()))
    {
      EncryptPacket(Kexinit(Follows(conf)));
      dataallowed := false;
      kexstate := kexstate.(sentkexinit := true);
      newkeys := Some(Pending(None, None));
      if Follows(conf) {
        SendMsgKexdhInit(true);
      }
    }

    /** read_kex_algos and the end of recv_msg_kexinit. */
    method ReadKexAlgos(follows: bool)
      requires Valid()
      modifies this`newkeys, this`ignorenext, this`requirenext, this`kexstate, this`themFirstFollows,
               this`ourFirstFollowsMatches
      ensures Valid() && View() == TakeKexinit(old(View()), follows)
      ensures (follows ==> themFirstFollows) && (ourFirstFollowsMatches <==> Follows(conf) && conf.good)
    {
      newkeys := Some(Pending(None, None));
      if follows {
        themFirstFollows := true;
        if !conf.good {
          ignorenext := true;
        }
      }
      if Follows(conf) && conf.good {
        ourFirstFollowsMatches := true;
      }
      requirenext := NeedKexdh;
      kexstate := kexstate.(recvkexinit := true);
    }

    /** recv_msg_kexinit; for the client also cli_sessionloop's step after it. */
    method RecvMsgKexinit(follows: bool)
      requires Valid()
      modifies this`sent, this`dataallowed, this`kexstate, this`newkeys, this`ignorenext, this`requirenext, this`value
      modifies this`themFirstFollows, this`ourFirstFollowsMatches
      ensures Valid() && View() == RecvKexinit(old(View()), follows)
      ensures (follows ==> themFirstFollows) && (ourFirstFollowsMatches <==> Follows(conf) && conf.good)
    {
      hide SendKexinit, TakeKexinit, SendInit;
      if !kexstate.sentkexinit {
        SendMsgKexinit();
      }
      ReadKexAlgos(follows);
      if !conf.server && !ourFirstFollowsMatches {
        SendMsgKexdhInit(conf.same);
      }
    }

    method FinishKexhashbuf(h: Hash)
      modifies this`hash, this`sessionId
      ensures View() == FinishHash(old(View()), h)
    {
      hash := Some(h);
      if sessionId.None? {
        sessionId := Some(h);
      }
    }

    method GenerateKeys(h: Hash, sid: Hash)
      modifies this`newkeys, this`hash
      ensures View() == GenNewKeys(old(View()), h, sid)
    {
      hash := None;
      newkeys := Some(Pending(Some(Keyed(h, sid, conf.server)), Some(Keyed(h, sid, !conf.server))));
    }

    method Kexinitialise()
      modifies this`kexstate, this`themFirstFollows, this`ourFirstFollowsMatches
      ensures View() == old(View()).(kex := Idle) && !themFirstFollows && !ourFirstFollowsMatches
    {
      kexstate := kexstate.(sentkexinit := false, recvkexinit := false);
      kexstate := kexstate.(recvnewkeys := false, sentnewkeys := false);
      themFirstFollows := false;
      ourFirstFollowsMatches := false;
    }

    /** switch_keys; ok is false where the program ends. */
    method SwitchToNewKeys() returns (ok: bool)
      requires kexstate.sentkexinit && kexstate.recvkexinit ==> newkeys.Some?
      modifies this`keys, this`newkeys, this`kexstate
      modifies this`themFirstFollows, this`ourFirstFollowsMatches
      ensures old(Valid()) ==> Valid()
      ensures ok <==> SwitchKeys(old(View())).Next?
      ensures ok ==> View() == SwitchKeys(old(View())).ses
    {
      if !(kexstate.sentkexinit && kexstate.recvkexinit) {
        return false;
      }
      var n := newkeys.value;
      if kexstate.recvnewkeys && n.recv.Some? {
        keys := keys.(recv := n.recv.value);
        n := n.(recv := None);
      }
      if kexstate.sentnewkeys && n.trans.Some? {
        keys := keys.(trans := n.trans.value);
        n := n.(trans := None);
      }
      newkeys := Some(n);
      if kexstate.sentnewkeys && kexstate.recvnewkeys {
        newkeys := None;
        Kexinitialise();
      }
      return true;
    }

    method SendMsgNewkeys() returns (ok: bool)
      requires hash.Some? && sessionId.Some? && newkeys.Some?
      modifies this`sent, this`kexstate, this`dataallowed, this`keys, this`newkeys, this`hash
      modifies this`themFirstFollows, this`ourFirstFollowsMatches
      ensures old(Valid()) ==> Valid()
      ensures ok <==> SendNewkeys(old(View())).Next?
      ensures ok ==> View() == SendNewkeys(old(View())).ses
    {
      hide SwitchKeys;
      EncryptPacket(Newkeys);
      kexstate := kexstate.(sentnewkeys := true);
      dataallowed := true;
      GenerateKeys(hash.value, sessionId.value);
      ok := SwitchToNewKeys();
    }

    method RecvMsgNewkeys() returns (ok: bool)
      requires kexstate.sentkexinit && kexstate.recvkexinit ==> newkeys.Some?
      modifies this`keys, this`newkeys, this`kexstate
      modifies this`themFirstFollows, this`ourFirstFollowsMatches
      ensures old(Valid()) ==> Valid()
      ensures ok <==> RecvNewkeys(old(View())).Next?
      ensures ok ==> View() == RecvNewkeys(old(View())).ses
    {
      hide SwitchKeys;
      kexstate := kexstate.(recvnewkeys := true);
      ok := SwitchToNewKeys();
    }

    /** The end of recv_msg_kexdh_init and of recv_msg_kexdh_reply. */
    method FinishExchange() returns (ok: bool)
      requires hash.Some? && sessionId.Some? && newkeys.Some?
      modifies this`sent, this`kexstate, this`dataallowed, this`keys, this`newkeys, this`hash, this`requirenext
      modifies this`themFirstFollows, this`ourFirstFollowsMatches
      ensures old(Valid()) ==> Valid()
      ensures ok <==> ThenNewkeys(old(View())).Next?
      ensures ok ==> View() == ThenNewkeys(old(View())).ses
    {
      hide SendNewkeys;
      ok := SendMsgNewkeys();
      requirenext := NeedNewkeys;
    }

    /** recv_msg_kexdh_init on the server, whose value is f. */
    method RecvMsgKexdhInit(e: nat, f: nat) returns (ok: bool)
      requires Valid() && (kexstate.recvkexinit ==> newkeys.Some?)
      modifies this
      ensures Valid()
      ensures (ok <==> RecvKexdhInit(old(View()), e, f).Next?)
              && (ok ==> View() == RecvKexdhInit(old(View()), e, f).ses)
    {
      hide ThenNewkeys;
      if !kexstate.recvkexinit {
        return false;
      }
      FinishKexhashbuf(Hash(e, f));
      EncryptPacket(KexdhReply(f, Hash(e, f)));
      ok := FinishExchange();
    }

    /** recv_msg_kexdh_reply on the client: its own hash must be the signed one, and the value is used up. */
    method RecvMsgKexdhReply(f: nat, signed: Hash) returns (ok: bool)
      requires Valid() && (kexstate.recvkexinit ==> newkeys.Some? && value.Some?)
      modifies this
      ensures Valid()
      ensures ok <==> RecvKexdhReply(old(View()), f, signed).Next?
      ensures ok ==> View() == RecvKexdhReply(old(View()), f, signed).ses
    {
      hide ThenNewkeys;
      if !kexstate.recvkexinit {
        return false;
      }
      var own := Hash(value.value, f);
      if own != signed {
        return false;
      }
      value := None;
      FinishKexhashbuf(own);
      ok := FinishExchange();
    }

    /** process_packet for the packets of the model; ok is false where the program ends. */
    method ProcessPacket(p: Packet, f: nat) returns (ok: bool)
      requires Valid() && (kexstate.recvkexinit ==> newkeys.Some?)
      requires kexstate.recvkexinit && p.KexdhReply? && !conf.server && Wanted(requirenext, conf, p) ==> value.Some?
      modifies this
      ensures ok <==> Process(old(View()), p, f).Next?
      ensures ok ==> Valid() && View() == Process(old(View()), p, f).ses
    {
      hide RecvKexinit, RecvKexdhInit, RecvKexdhReply, RecvNewkeys;
      if p.NotUnderstood? {
        return true;
      }
      if !Wanted(requirenext, conf, p) {
        if p.Kexinit? || p.Other? {
          return false;
        }
        EncryptPacket(NotUnderstood);
        return true;
      }
      if ignorenext {
        ignorenext := false;
        return true;
      }
      requirenext := Anything;
      ok := true;
      if !Known(conf, p) {
        EncryptPacket(NotUnderstood);
        return;
      }
      match p {
        case Kexinit(follows) => RecvMsgKexinit(follows);
        case KexdhInit(e) => ok := RecvMsgKexdhInit(e, f);
        case KexdhReply(f', signed) => ok := RecvMsgKexdhReply(f', signed);
        case Newkeys => ok := RecvMsgNewkeys();
        case _ =>
      }
    }
  }
}
