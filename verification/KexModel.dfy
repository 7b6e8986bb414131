/**
 The key exchange state of one side as a value: KEXINIT, the exchange itself and NEWKEYS. Packets go
 to the end of `sent`, each with the context it was encrypted in.
 */
module KexModel {
  import opened Wrappers

  /**
   An exchange hash, by what it binds: the client's and the server's exchange value. Equal hashes have equal
   values, as equal transcripts have.
   */
  datatype Hash = Hash(e: nat, f: nat)

  /** The keys of one direction: none yet, or those of an exchange hash and a session id. */
  datatype Ctx = Unkeyed | Keyed(h: Hash, sid: Hash, c2s: bool)

  /**
   KEXDH_INIT carries the client's value, KEXDH_REPLY the server's value and the hash it has signed. NotUnderstood
   is UNIMPLEMENTED; Other stands for everything that is not allowed during a key exchange.
   */
  datatype Packet =
    | Kexinit(follows: bool)
    | KexdhInit(e: nat)
    | KexdhReply(f: nat, signed: Hash)
    | Newkeys
    | NotUnderstood
    | Other

  datatype Sent = Sent(packet: Packet, ctx: Ctx)

  /** ses.requirenext. */
  datatype Required = Anything | NeedKexinit | NeedKexdh | NeedNewkeys

  /**
   guesses: the client sends KEXDH_INIT along with KEXINIT; good: this side takes that guess as right; same: the
   method that is chosen is the guessed one, so that a client that repeats KEXDH_INIT keeps its value.
   */
  datatype Config = Config(server: bool, guesses: bool, good: bool, same: bool)

  /** The flags of ses.kexstate. */
  datatype Progress = Progress(sentkexinit: bool, recvkexinit: bool, sentnewkeys: bool, recvnewkeys: bool)

  /** ses.keys. */
  datatype Contexts = Contexts(recv: Ctx, trans: Ctx)

  /** ses.newkeys: a context is present once its valid flag is set. */
  datatype Pending = Pending(recv: Option<Ctx>, trans: Option<Ctx>)

  datatype Gate = Gate(dataallowed: bool, requirenext: Required, ignorenext: bool)

  /** ses.hash and ses.session_id. */
  datatype Hashes = Hashes(hash: Option<Hash>, sid: Option<Hash>)

  /** value is the client's exchange value, while it has one. */
  datatype Ses = Ses(conf: Config, kex: Progress, gate: Gate, keys: Contexts, newkeys: Option<Pending>,
                     hashes: Hashes, value: Option<nat>, sent: seq<Sent>)

  /** The next state, dropbear_exit, or a null pointer. */
  datatype Outcome = Next(ses: Ses) | Exit | Fault

  const Idle := Progress(false, false, false, false)

  function Encrypt(s: Ses, p: Packet): Ses {
    s.(sent := s.sent + [Sent(p, s.keys.trans)])
  }

  /** A client that guesses says so in its KEXINIT. */
  predicate Follows(c: Config) { !c.server && c.guesses }

  /** send_msg_kexdh_init: a new value, named by its place in the log, unless there is one for the same method. */
  function SendInit(s: Ses, same: bool): Ses {
    var v := if same && s.value.Some? then s.value.value else |s.sent|;
    Encrypt(s.(value := Some(v)), KexdhInit(v))
  }

  /** send_msg_kexinit, followed by the guessed packet. */
  function SendKexinit(s: Ses): Ses {
    var s1 := Encrypt(s, Kexinit(Follows(s.conf))).(
      kex := s.kex.(sentkexinit := true),
      gate := s.gate.(dataallowed := false),
      newkeys := Some(Pending(None, None)));
    if Follows(s.conf) then SendInit(s1, true) else s1
  }

  /** checkrekey: a side that has no exchange under way may start one. */
  function Rekey(s: Ses): Ses {
    if s.kex.sentkexinit then s else SendKexinit(s)
  }

  /** recv_msg_kexinit and read_kex_algos. */
  function TakeKexinit(s: Ses, follows: bool): Ses {
    s.(newkeys := Some(Pending(None, None)),
       kex := s.kex.(recvkexinit := true),
       gate := s.gate.(requirenext := NeedKexdh, ignorenext := s.gate.ignorenext || (follows && !s.conf.good)))
  }

  /** cli_sessionloop after KEXINIT: KEXDH_INIT, unless our_first_follows_matches. */
  function ClientLoop(s: Ses): Ses {
    if !s.conf.server && !(s.conf.guesses && s.conf.good) then SendInit(s, s.conf.same) else s
  }

  function RecvKexinit(s: Ses, follows: bool): Ses {
    ClientLoop(TakeKexinit(Rekey(s), follows))
  }

  /** The session id stays that of the first exchange. */
  function SessionId<T>(sid: Option<T>, h: T): T {
    if sid.Some? then sid.value else h
  }

  /** finish_kexhashbuf. */
  function FinishHash(s: Ses, h: Hash): Ses {
    s.(hashes := Hashes(Some(h), Some(SessionId(s.hashes.sid, h))))
  }

  /** gen_new_keys, with the exchange hash at hand. */
  function GenNewKeys(s: Ses, h: Hash, sid: Hash): Ses {
    s.(newkeys := Some(Pending(Some(Keyed(h, sid, s.conf.server)), Some(Keyed(h, sid, !s.conf.server)))),
       hashes := s.hashes.(hash := None))
  }

  function SwitchRecv(s: Ses, n: Pending): (Ses, Pending) {
    if s.kex.recvnewkeys && n.recv.Some? then (s.(keys := s.keys.(recv := n.recv.value)), n.(recv := None)) else (s, n)
  }

  function SwitchTrans(s: Ses, n: Pending): (Ses, Pending) {
    if s.kex.sentnewkeys && n.trans.Some?
    then (s.(keys := s.keys.(trans := n.trans.value)), n.(trans := None)) else (s, n)
  }

  function SwitchKeys(s: Ses): Outcome {
    if !(s.kex.sentkexinit && s.kex.recvkexinit) then Exit
    else if s.newkeys.None? then Fault
    else
      var (s1, n1) := SwitchRecv(s, s.newkeys.value);
      var (s2, n2) := SwitchTrans(s1, n1);
      if s.kex.sentnewkeys && s.kex.recvnewkeys then Next(s2.(newkeys := None, kex := Idle))
      else Next(s2.(newkeys := Some(n2)))
  }

  function SendNewkeys(s: Ses): Outcome {
    if s.hashes.hash.None? || s.hashes.sid.None? || s.newkeys.None? then Fault
    else
      var s1 := Encrypt(s, Newkeys).(kex := s.kex.(sentnewkeys := true), gate := s.gate.(dataallowed := true));
      SwitchKeys(GenNewKeys(s1, s.hashes.hash.value, s.hashes.sid.value))
  }

  function RecvNewkeys(s: Ses): Outcome {
    SwitchKeys(s.(kex := s.kex.(recvnewkeys := true)))
  }

  /** The end of recv_msg_kexdh_init and of recv_msg_kexdh_reply. */
  function ThenNewkeys(s: Ses): Outcome {
    match SendNewkeys(s)
    case Next(t) => Next(t.(gate := t.gate.(requirenext := NeedNewkeys)))
    case o => o
  }

  /** recv_msg_kexdh_init on the server, whose value is f: it hashes, signs and replies. */
  function RecvKexdhInit(s: Ses, e: nat, f: nat): Outcome {
    if !s.kex.recvkexinit then Exit
    else ThenNewkeys(Encrypt(FinishHash(s, Hash(e, f)), KexdhReply(f, Hash(e, f))))
  }

  /** recv_msg_kexdh_reply on the client: it hashes its own value, and the signature must be of that hash. */
  function RecvKexdhReply(s: Ses, f: nat, signed: Hash): Outcome {
    if !s.kex.recvkexinit then Exit
    else if s.value.None? then Fault
    else if Hash(s.value.value, f) != signed then Exit
    else ThenNewkeys(FinishHash(s.(value := None), Hash(s.value.value, f)))
  }

  predicate Wanted(required: Required, c: Config, p: Packet) {
    match required
    case Anything => true
    case NeedKexinit => p.Kexinit?
    case NeedKexdh => if c.server then p.KexdhInit? else p.KexdhReply?
    case NeedNewkeys => p.Newkeys?
  }

  predicate Expected(s: Ses, p: Packet) {
    Wanted(s.gate.requirenext, s.conf, p)
  }

  /** Whether this side has a handler for the packet. */
  predicate Known(c: Config, p: Packet) {
    match p
    case KexdhInit(_) => c.server
    case KexdhReply(_, _) => !c.server
    case _ => true
  }

  /** The handler of a packet type; f is the value of a server that completes an exchange now. */
  function Handle(s: Ses, p: Packet, f: nat): Outcome {
    if !Known(s.conf, p) then Next(Encrypt(s, NotUnderstood))
    else match p
      case Kexinit(follows) => Next(RecvKexinit(s, follows))
      case KexdhInit(e) => RecvKexdhInit(s, e, f)
      case KexdhReply(f', signed) => RecvKexdhReply(s, f', signed)
      case Newkeys => RecvNewkeys(s)
      case _ => Next(s)
  }

  /** process_packet: UNIMPLEMENTED passes at any time, and is the answer to what is allowed but not expected. */
  function Process(s: Ses, p: Packet, f: nat): Outcome {
    if p.NotUnderstood? then Next(s)
    else if !Expected(s, p) then (if p.Kexinit? || p.Other? then Exit else Next(Encrypt(s, NotUnderstood)))
    else if s.gate.ignorenext then Next(s.(gate := s.gate.(ignorenext := false)))
    else Handle(s.(gate := s.gate.(requirenext := Anything)), p, f)
  }

  /** A packet that is acted on, skipped or passed, and not answered with UNIMPLEMENTED. */
  predicate Understood(s: Ses, p: Packet) {
    p.NotUnderstood? || (Expected(s, p) && (s.gate.ignorenext || Known(s.conf, p)))
  }

  /** Packets of the services wait while dataallowed is 0. */
  function SendOther(s: Ses): Ses {
    if s.gate.dataallowed then Encrypt(s, Other) else s
  }

  /** common_session_init and kexfirstinitialise. */
  function Fresh(conf: Config): Ses {
    Ses(conf, Idle, Gate(true, NeedKexinit, false), Contexts(Unkeyed, Unkeyed), None, Hashes(None, None), None, [])
  }

  /** A session that has begun: nothing is encrypted, and KEXINIT has been sent. */
  function Start(conf: Config): Ses {
    SendKexinit(Fresh(conf))
  }

  /** NEWKEYS may be received before or after it is sent: switch_keys ends in the same state. */
  lemma NewkeysInAnyOrder(s: Ses)
    requires s.kex == Progress(true, true, false, false) && s.newkeys == Some(Pending(None, None))
    requires s.hashes.hash.Some? && s.hashes.sid.Some?
    ensures var c2s, h, sid := !s.conf.server, s.hashes.hash.value, s.hashes.sid.value;
            && SendNewkeys(s).Next? && RecvNewkeys(s).Next?
            && RecvNewkeys(SendNewkeys(s).ses) == SendNewkeys(RecvNewkeys(s).ses)
            && RecvNewkeys(SendNewkeys(s).ses) ==
               Next(Encrypt(s, Newkeys).(kex := Idle, newkeys := None, hashes := s.hashes.(hash := None),
                                        gate := s.gate.(dataallowed := true),
                                        keys := Contexts(Keyed(h, sid, !c2s), Keyed(h, sid, c2s))))
            && RecvNewkeys(s).ses.keys == s.keys
            && SendNewkeys(s).ses.keys.recv == s.keys.recv
  { }
}
