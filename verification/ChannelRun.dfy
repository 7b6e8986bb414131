/** Two endpoints of one channel joined by in-order message queues, over every run. */
module ChannelRun {
  import opened ChannelModel
  import opened ChannelInv
  import opened ChannelFlow

  /** toB messages of a's log have been handled by b, and toA of b's log by a; the rest is in flight. */
  datatype Net = Net(a: Chan, b: Chan, toB: nat, toA: nat)

  datatype Event =
    | IoA(io: Io)
    | IoB(io: Io)
    | DeliverToA(w: WriteResult, e: CloseEnv)
    | DeliverToB(w: WriteResult, e: CloseEnv)

  datatype NetOutcome = Running(net: Net) | Died(why: string)

  function Swap(n: Net): Net {
    Net(n.b, n.a, n.toA, n.toB)
  }

  /** b handles the next message of a, if there is one. */
  function Deliver(n: Net, w: WriteResult, e: CloseEnv): NetOutcome {
    if n.toB >= |n.a.tx.sent| then Running(n)
    else match Receive(n.b, n.a.tx.sent[n.toB], w, e)
      case Exit(why) => Died(why)
      case Next(c) => Running(n.(b := c, toB := n.toB + 1))
  }

  function Unswap(o: NetOutcome): NetOutcome {
    match o case Running(n) => Running(Swap(n)) case Died(_) => o
  }

  function Happen(n: Net, ev: Event): NetOutcome {
    match ev
    case IoA(io) => Running(n.(a := ChannelIo(n.a, io)))
    case IoB(io) => Running(n.(b := ChannelIo(n.b, io)))
    case DeliverToB(w, e) => Deliver(n, w, e)
    case DeliverToA(w, e) => Unswap(Deliver(Swap(n), w, e))
  }

  function Run(n: Net, events: seq<Event>): NetOutcome
    decreases |events|
  {
    if events == [] then Running(n)
    else match Happen(n, events[0])
      case Died(why) => Died(why)
      case Running(n') => Run(n', events[1..])
  }

  /** A channel that has just been confirmed on both sides. */
  predicate Fresh(c: Chan, peerWindow: nat) {
    && ConfigOk(c) && c.tx.sent == [] && c.tx.window == peerWindow
    && c.rx == Rx([], c.rx.extrabuf, c.conf.recvWindow, 0, [], [], 0, 0, false) && c.rx.Extra() == []
    && c.flags == Flags(false, false, false, false, false, false, false, 0)
  }

  predicate Opened(n: Net) {
    Fresh(n.a, n.b.conf.recvWindow) && Fresh(n.b, n.a.conf.recvWindow) && n.toA == 0 && n.toB == 0
  }

  // ----- one direction: s sends, r receives; k messages of s and m messages of r have arrived -----

  ghost predicate Ended(log: seq<Msg>) {
    exists i :: 0 <= i < |log| && (log[i].Eof? || log[i].Close?)
  }

  ghost predicate EndedByClose(log: seq<Msg>) {
    exists i :: 0 <= i < |log| && log[i].Close?
  }

  /** Sender's window, data in flight, credit in flight and dropped data make up the receiver's window. */
  predicate Windows(s: Chan, r: Chan, k: nat, m: nat) {
    && k <= |s.tx.sent| && m <= |r.tx.sent|
    && Outflow(s) - Volume(s.tx.sent[..k]) - Credit(r.tx.sent[..m]) + r.rx.dropped == Inflow(r)
  }

  /** What r has seen of s's end of stream. */
  ghost predicate Ends(s: Chan, r: Chan, k: nat) {
    && k <= |s.tx.sent|
    && (r.flags.recvEof <==> Ended(s.tx.sent[..k]))
    && (r.flags.recvClose <==> EndedByClose(s.tx.sent[..k]))
  }

  /** What r wrote and queued is what s sent, up to a point where r's descriptor was closed. */
  predicate Streams(s: Chan, r: Chan, k: nat, ext: bool) {
    && k <= |s.tx.sent|
    && Stream(r.rx, ext) <= Payload(s.tx.sent[..k], ext)
    && (HasBuffer(r, ext) && WriteFd(r, ext) >= 0 ==> Stream(r.rx, ext) == Payload(s.tx.sent[..k], ext))
  }

  ghost predicate Link(s: Chan, r: Chan, k: nat, m: nat) {
    Windows(s, r, k, m) && Ends(s, r, k) && Streams(s, r, k, false) && Streams(s, r, k, true)
  }

  ghost predicate NetInv(n: Net) {
    Inv(n.a) && Inv(n.b) && Link(n.a, n.b, n.toB, n.toA) && Link(n.b, n.a, n.toA, n.toB)
  }

  // ----- consequences of a link -----

  lemma InFlight(s: Chan, r: Chan, k: nat, m: nat)
    requires Inv(s) && Inv(r) && Windows(s, r, k, m)
    ensures s.tx.window <= r.rx.window <= MAX_RECV_WINDOW
    ensures Volume(s.tx.sent) - Volume(s.tx.sent[..k]) <= r.rx.window - s.tx.window
    ensures Credit(r.tx.sent) - Credit(r.tx.sent[..m]) <= r.rx.window - s.tx.window
  {
    SumsGrow(s.tx.sent, k);
    SumsGrow(r.tx.sent, m);
    hide Volume, Credit, Orderly;
  }

  /** The next message fits the receiver's window. */
  lemma NextFits(s: Chan, r: Chan, k: nat, m: nat)
    requires Inv(s) && Inv(r) && Windows(s, r, k, m) && k < |s.tx.sent|
    ensures MsgBytes(s.tx.sent[k]) <= r.rx.window
    ensures Volume(s.tx.sent[..k + 1]) == Volume(s.tx.sent[..k]) + MsgBytes(s.tx.sent[k])
  {
    SumsPush(s.tx.sent[..k], s.tx.sent[k]);
    assert s.tx.sent[..k] + [s.tx.sent[k]] == s.tx.sent[..k + 1];
    SumsGrow(s.tx.sent, k + 1);
    hide Volume, Credit, Inv;
    InFlight(s, r, k, m);
  }

  /** After s's EOF no data, and after s's CLOSE nothing at all, is left to arrive. */
  lemma NothingAfterEnd(s: Chan, r: Chan, k: nat)
    requires Inv(s) && Ends(s, r, k) && k < |s.tx.sent|
    ensures !r.flags.recvClose
    ensures r.flags.recvEof ==> s.tx.sent[k].WindowAdjust? || s.tx.sent[k].Close?
  {
    if r.flags.recvEof || r.flags.recvClose {
      var log := s.tx.sent;
      var i :| 0 <= i < k && (log[..k][i].Eof? || log[..k][i].Close?) && (r.flags.recvClose ==> log[..k][i].Close?);
      PhaseAfter(log, i);
    }
  }

  // ----- steps that receive nothing -----

  lemma SenderQuiet(s: Chan, s': Chan, r: Chan, k: nat, m: nat)
    requires Link(s, r, k, m) && Quiet(s, s')
    ensures Link(s', r, k, m)
  {
    assert s'.tx.sent[..k] == s.tx.sent[..k];
    hide Outflow, Inflow, Volume, Credit, Payload, Stream, Ended, EndedByClose;
  }

  lemma ReceiverQuiet(s: Chan, r: Chan, r': Chan, k: nat, m: nat)
    requires Link(s, r, k, m) && Quiet(r, r')
    ensures Link(s, r', k, m)
  {
    assert r'.tx.sent[..m] == r.tx.sent[..m];
    hide Outflow, Inflow, Volume, Credit, Payload, Stream, Ended, EndedByClose;
  }

  lemma IoKeeps(n: Net, io: Io)
    requires NetInv(n)
    ensures NetInv(n.(a := ChannelIo(n.a, io)))
  {
    hide Inv, Link, Quiet, ChannelIo;
    InFlightLink(n.a, n.b, n.toB, n.toA);
    ChannelIoKeeps(n.a, io);
    ChannelIoQuiet(n.a, io);
    SenderQuiet(n.a, ChannelIo(n.a, io), n.b, n.toB, n.toA);
    ReceiverQuiet(n.b, n.a, ChannelIo(n.a, io), n.toA, n.toB);
  }

  lemma InFlightLink(s: Chan, r: Chan, k: nat, m: nat)
    requires Inv(s) && Inv(r) && Link(s, r, k, m)
    ensures s.tx.window <= r.rx.window <= MAX_RECV_WINDOW
  {
    InFlight(s, r, k, m);
  }

  // ----- delivery -----

  lemma EndedPush(log: seq<Msg>, k: nat)
    requires k < |log|
    ensures Ended(log[..k + 1]) <==> Ended(log[..k]) || log[k].Eof? || log[k].Close?
    ensures EndedByClose(log[..k + 1]) <==> EndedByClose(log[..k]) || log[k].Close?
  {
    var p, q := log[..k], log[..k + 1];
    assert q[k] == log[k];
    assert forall i :: 0 <= i < k ==> q[i] == p[i];
    if Ended(p) { var i :| 0 <= i < k && (p[i].Eof? || p[i].Close?); assert q[i].Eof? || q[i].Close?; }
    if EndedByClose(p) { var i :| 0 <= i < k && p[i].Close?; assert q[i].Close?; }
  }

  lemma SumsAt(log: seq<Msg>, k: nat)
    requires k < |log|
    ensures Volume(log[..k + 1]) == Volume(log[..k]) + MsgBytes(log[k])
    ensures Credit(log[..k + 1]) == Credit(log[..k]) + MsgCredit(log[k])
    ensures forall ext :: Payload(log[..k + 1], ext) == Payload(log[..k], ext) + MsgPayload(log[k], ext)
  {
    assert log[..k + 1][..k] == log[..k];
  }

  /** Delivering data moves both directions on by one message. */
  lemma DataDelivered(s: Chan, r: Chan, r': Chan, k: nat, m: nat, ext: bool)
    requires Link(s, r, k, m) && Link(r, s, m, k) && k < |s.tx.sent|
    requires (if ext then s.tx.sent[k].Extended? else s.tx.sent[k].Data?) && Took(r, r', ext, s.tx.sent[k].bytes)
    ensures Link(s, r', k + 1, m) && Link(r', s, m, k + 1)
  {
    hide Outflow, Inflow, Volume, Credit, Payload, Stream, Ended, EndedByClose;
    SumsAt(s.tx.sent, k);
    EndedPush(s.tx.sent, k);
    assert r'.tx.sent[..m] == r.tx.sent[..m];
    var p, q := Payload(s.tx.sent[..k], !ext), Payload(s.tx.sent[..k], ext);
    assert p + [] == p;
    assert Streams(s, r', k + 1, ext);
    assert Streams(s, r', k + 1, !ext);
    assert Streams(r', s, m, false) && Streams(r', s, m, true);
  }

  /** Messages without data change the receiver's flags or transmit window only. */
  lemma ControlDelivered(s: Chan, r: Chan, r': Chan, k: nat, m: nat)
    requires Link(s, r, k, m) && Link(r, s, m, k) && k < |s.tx.sent|
    requires MsgBytes(s.tx.sent[k]) == 0 && !s.tx.sent[k].Data? && !s.tx.sent[k].Extended?
    requires r' == r.(tx := r.tx.(window := r.tx.window + MsgCredit(s.tx.sent[k])), flags := r'.flags)
    requires r'.flags.recvEof == (r.flags.recvEof || s.tx.sent[k].Eof? || s.tx.sent[k].Close?)
    requires r'.flags.recvClose == (r.flags.recvClose || s.tx.sent[k].Close?)
    ensures Link(s, r', k + 1, m) && Link(r', s, m, k + 1)
  {
    SumsAt(s.tx.sent, k);
    EndedPush(s.tx.sent, k);
    var p, q := Payload(s.tx.sent[..k], false), Payload(s.tx.sent[..k], true);
    assert p + [] == p && q + [] == q;
    hide Volume, Credit, Payload, Stream, Ended, EndedByClose;
  }

  /** A window adjust never meets the clamps. */
  lemma AdjustExact(s: Chan, r: Chan, k: nat, m: nat)
    requires Inv(s) && Inv(r) && Windows(r, s, m, k) && k < |s.tx.sent| && s.tx.sent[k].WindowAdjust?
    ensures RecvAdjust(r, s.tx.sent[k].incr).tx == r.tx.(window := r.tx.window + s.tx.sent[k].incr)
  {
    InFlight(r, s, m, k);
    SumsAt(s.tx.sent, k);
    SumsGrow(s.tx.sent, k + 1);
    hide Volume, Credit, Inv, Windows;
  }

  /** What delivery of the next message to r does, given both links. */
  lemma DeliveredLinks(s: Chan, r: Chan, k: nat, m: nat, w: WriteResult, e: CloseEnv)
    requires Inv(s) && Inv(r) && Link(s, r, k, m) && Link(r, s, m, k) && k < |s.tx.sent|
    ensures var o := Receive(r, s.tx.sent[k], w, e);
            o.Next? && Inv(o.c) && Link(s, o.c, k + 1, m) && Link(o.c, s, m, k + 1)
  {
    var msg := s.tx.sent[k];
    NextFits(s, r, k, m);
    NothingAfterEnd(s, r, k);
    assert !r.flags.removed by { hide PhaseOf; }
    ReceiveKeeps(r, msg, w, e);
    InFlightLink(r, s, m, k);
    hide Inv, Link;
    match msg
    case Data(b) => DataLinks(s, r, k, m, false, w);
    case Extended(b) => DataLinks(s, r, k, m, true, w);
    case WindowAdjust(n) =>
      AdjustLinks(s, r, k, m);
    case Eof =>
      hide CheckClose, Quiet;
      ControlDelivered(s, r, RecvEof(r), k, m);
      CheckCloseDelivered(s, RecvEof(r), k + 1, m, e);
    case Close =>
      hide CheckClose, Quiet;
      ControlDelivered(s, r, RecvClose(r), k, m);
      CheckCloseDelivered(s, RecvClose(r), k + 1, m, e);
  }

  lemma AdjustLinks(s: Chan, r: Chan, k: nat, m: nat)
    requires Inv(s) && Inv(r) && Link(s, r, k, m) && Link(r, s, m, k) && k < |s.tx.sent| && s.tx.sent[k].WindowAdjust?
    ensures var r' := RecvAdjust(r, s.tx.sent[k].incr); Link(s, r', k + 1, m) && Link(r', s, m, k + 1)
  {
    hide Inv;
    AdjustExact(s, r, k, m);
    hide Link;
    ControlDelivered(s, r, RecvAdjust(r, s.tx.sent[k].incr), k, m);
  }

  lemma DataLinks(s: Chan, r: Chan, k: nat, m: nat, ext: bool, w: WriteResult)
    requires Inv(s) && Inv(r) && Link(s, r, k, m) && Link(r, s, m, k) && k < |s.tx.sent|
    requires if ext then s.tx.sent[k].Extended? else s.tx.sent[k].Data?
    ensures var o := RecvData(r, ext, s.tx.sent[k].bytes, w);
            o.Next? ==> Link(s, o.c, k + 1, m) && Link(o.c, s, m, k + 1)
  {
    NextFits(s, r, k, m);
    NothingAfterEnd(s, r, k);
    hide Link, Took, RecvData;
    var b := s.tx.sent[k].bytes;
    RecvDataTook(r, ext, b, w);
    hide Inv;
    if RecvData(r, ext, b, w).Next? { DataDelivered(s, r, RecvData(r, ext, b, w).c, k, m, ext); }
  }

  lemma CheckCloseDelivered(s: Chan, r: Chan, k: nat, m: nat, e: CloseEnv)
    requires Link(s, r, k, m) && Link(r, s, m, k) && r.tx.window < 0x1_0000_0000
    ensures Link(s, CheckClose(r, e), k, m) && Link(CheckClose(r, e), s, m, k)
  {
    hide Link, Quiet, CheckClose;
    CheckCloseQuiet(r, e);
    ReceiverQuiet(s, r, CheckClose(r, e), k, m);
    SenderQuiet(r, CheckClose(r, e), s, m, k);
  }

  // ----- every run -----

  lemma SwapInv(n: Net)
    requires NetInv(n)
    ensures NetInv(Swap(n))
  { }

  lemma DeliverKeeps(n: Net, w: WriteResult, e: CloseEnv)
    requires NetInv(n)
    ensures Deliver(n, w, e).Running? && NetInv(Deliver(n, w, e).net)
  {
    hide Inv, Link, Receive;
    if n.toB < |n.a.tx.sent| { DeliveredLinks(n.a, n.b, n.toB, n.toA, w, e); }
  }

  lemma HappenKeeps(n: Net, ev: Event)
    requires NetInv(n)
    ensures Happen(n, ev).Running? && NetInv(Happen(n, ev).net)
  {
    hide NetInv, Deliver, ChannelIo;
    SwapInv(n);
    match ev
    case IoA(io) => IoKeeps(n, io);
    case IoB(io) => IoKeeps(Swap(n), io); SwapInv(Swap(n).(a := ChannelIo(n.b, io)));
    case DeliverToB(w, e) => DeliverKeeps(n, w, e);
    case DeliverToA(w, e) => DeliverKeeps(Swap(n), w, e); SwapInv(Deliver(Swap(n), w, e).net);
  }

  lemma OpenedInv(n: Net)
    requires Opened(n)
    ensures NetInv(n)
  {
    assert n.a.tx.sent[..0] == [] && n.b.tx.sent[..0] == [];
  }

  /** No interleaving makes either side exit, and the invariant holds after every run. */
  lemma {:induction false} RunKeeps(n: Net, events: seq<Event>)
    requires NetInv(n)
    ensures Run(n, events).Running? && NetInv(Run(n, events).net)
    decreases |events|
  {
    hide NetInv, Happen;
    if events != [] {
      HappenKeeps(n, events[0]);
      RunKeeps(Happen(n, events[0]).net, events[1..]);
    }
  }
}
