/** When the bytes of a channel can be lost without a write error, and when they cannot. */
module ChannelLoss {
  import opened Wrappers
  import opened Bytes
  import opened ChannelModel
  import opened ChannelInv
  import opened ChannelFlow
  import opened ChannelRun
  import opened ChannelDelivery
  import opened ChannelInput

  /** A write descriptor that is closed, without a write having failed, has been given all of the peer's input. */
  predicate AllWritten(input: seq<byte>, r: Chan, ext: bool) {
    WriteFd(r, ext) < 0 && !r.rx.broken ==> Written(r.rx, ext) == input
  }

  lemma {:induction false} NoMorePayload(log: seq<Msg>, k: nat, ext: bool)
    requires k <= |log| && forall j :: k <= j < |log| ==> log[j].WindowAdjust? || log[j].Close?
    ensures Payload(log, ext) == Payload(log[..k], ext)
    decreases |log|
  {
    if k < |log| {
      var front := log[..|log| - 1];
      NoMorePayload(front, k, ext);
      assert front[..k] == log[..k];
      assert Payload(front, ext) + [] == Payload(front, ext);
    } else {
      assert log[..k] == log;
    }
  }

  /** Once r has seen s's EOF, what has arrived is all the data there will ever be. */
  lemma EofIsLast(s: Chan, r: Chan, k: nat, ext: bool)
    requires Inv(s) && Ends(s, r, k) && r.flags.recvEof
    ensures Payload(s.tx.sent, ext) == Payload(s.tx.sent[..k], ext)
  {
    hide Payload;
    var log := s.tx.sent;
    var i :| 0 <= i < k && (log[..k][i].Eof? || log[..k][i].Close?);
    PhaseAfter(log, i);
    NoMorePayload(log, k, ext);
  }

  lemma GoodAllWritten(f: Net, ext: bool)
    requires GoodNet(f, ext)
    ensures AllWritten(Payload(f.a.tx.sent, ext), f.b, ext)
  {
    if WriteFd(f.b, ext) < 0 && !f.b.rx.broken {
      EofIsLast(f.a, f.b, f.toB, ext);
      hide Payload, PhaseOf, Ends;
      assert Written(f.b.rx, ext) + [] == Written(f.b.rx, ext);
    }
  }

  lemma RemovedIsClosed(c: Chan, ext: bool)
    requires Inv(c) && c.flags.removed
    ensures WriteFd(c, ext) < 0
  {
    hide PhaseOf;
  }

  lemma OpenedGood(n: Net, ext: bool)
    requires Opened(n) && Graceful(n.b, ext)
    ensures GoodNet(n, ext)
  {
    OpenedInv(n);
    assert n.a.tx.sent[..0] == [];
    hide NetInv;
  }

  /**
   A graceful receiver loses nothing, whatever the sender is: when its descriptor is closed, or the channel
   gone, and no write has failed, everything its peer ever read has been written.
   */
  lemma NothingLost(n: Net, events: seq<Event>, ext: bool)
    requires Opened(n) && Graceful(n.b, ext)
    ensures Run(n, events).Running?
    ensures var f := Run(n, events).net;
            && AllWritten(Input(n, events, ext), f.b, ext)
            && (f.b.flags.removed && !f.b.rx.broken ==> Written(f.b.rx, ext) == Input(n, events, ext))
  {
    OpenedGood(n, ext);
    OpenedInput(n, events, ext);
    hide Opened, GoodNet, Graceful, Input;
    RunGood(n, events, ext);
    var f := Run(n, events).net;
    GoodAllWritten(f, ext);
    if f.b.flags.removed {
      GoodInv(f, ext);
      RemovedIsClosed(f.b, ext);
    }
  }

  lemma GoodInv(f: Net, ext: bool)
    requires GoodNet(f, ext)
    ensures Inv(f.b) && NetInv(f) && Graceful(f.b, ext)
  { }

  // ----- removal -----

  /** The state of b in which an event calls check_close. */
  function Checked(f: Net, ev: Event): Chan {
    match ev
    case IoB(io) => IoDone(f.b, io)
    case DeliverToB(_, _) =>
      if f.toB < |f.a.tx.sent| && f.a.tx.sent[f.toB].Close? then RecvClose(f.b) else RecvEof(f.b)
    case _ => f.b
  }

  /** d came from c without writing: nothing received has moved, and closed stays closed. */
  predicate Steady(c: Chan, d: Chan) {
    d.rx == c.rx && d.flags.removed == c.flags.removed && (c.fds.write < 0 ==> d.fds.write < 0)
  }

  lemma SendDataSteady(c: Chan, ext: bool, r: ReadResult)
    ensures Steady(c, SendData(c, ext, r))
  { }

  lemma SendCloseSteady(c: Chan)
    ensures Steady(c, SendClose(c)) && SendClose(c).fds.write < 0
  { }

  lemma FlushSteady(c: Chan, e: CloseEnv)
    ensures Steady(c, Flush(c, e))
  {
    if c.flags.flushing {
      SendDataSteady(c, false, e.flushData);
      var c1 := if c.fds.read >= 0 && c.tx.window > 0 then SendData(c, false, e.flushData) else c;
      SendDataSteady(c1, true, e.flushErr);
      hide SendData;
    }
  }

  lemma CloseWriteSideSteady(c: Chan, allowed: bool)
    ensures Steady(c, CloseWriteSide(c, allowed))
    ensures c.conf.hasCheckClose && allowed ==> CloseWriteSide(c, allowed).fds.write < 0
  { }

  lemma GoOnSteady(c: Chan, allowed: bool, e: CloseEnv)
    ensures var d := CloseIfDone(EofIfDone(Flush(CloseWriteSide(c, allowed), e)), allowed);
            Steady(c, d) && (c.conf.hasCheckClose && allowed ==> d.fds.write < 0)
  {
    var c1 := CloseWriteSide(c, allowed);
    CloseWriteSideSteady(c, allowed);
    hide CloseWriteSide;
    var c2 := Flush(c1, e);
    FlushSteady(c1, e);
    hide Flush, WritePending;
    var c3 := EofIfDone(c2);
    assert Steady(c2, c3);
    hide EofIfDone;
    SendCloseSteady(c3);
    hide SendClose;
  }

  /**
   check_close writes nothing, and removes a channel only after CLOSE, with no byte waiting for an open descriptor.
   */
  lemma CheckCloseRemoves(c: Chan, e: CloseEnv)
    ensures CheckClose(c, e).rx == c.rx && (c.fds.write < 0 ==> CheckClose(c, e).fds.write < 0)
    ensures !c.flags.removed && CheckClose(c, e).flags.removed ==> c.flags.recvClose && !WritePending(c)
  {
    var c0 := StartFlushing(c, e);
    assert c0.rx == c.rx && c0.fds == c.fds && WritePending(c0) == WritePending(c)
        && c0.flags.removed == c.flags.removed && c0.flags.recvClose == c.flags.recvClose;
    hide StartFlushing, WritePending, CloseWriteSide, Flush, EofIfDone, CloseIfDone, SendClose, CloseAllowed;
    GoOnSteady(c0, CloseAllowed(c0, e), e);
    SendCloseSteady(c0);
  }

  lemma IoNotRemoved(c: Chan, io: Io)
    ensures IoDone(c, io).flags == c.flags
  {
    IoReadFlags(c, false, io.read);
    IoReadFlags(IoRead(c, false, io.read), true, io.errRead);
    var c2 := IoRead(IoRead(c, false, io.read), true, io.errRead);
    IoWriteFlags(c2, false, io.write);
    IoWriteFlags(IoWrite(c2, false, io.write), true, io.errWrite);
    hide IoRead, IoWrite;
  }

  lemma IoReadFlags(c: Chan, ext: bool, r: Option<ReadResult>)
    ensures IoRead(c, ext, r).flags == c.flags
  { }

  lemma IoWriteFlags(c: Chan, ext: bool, w: Option<WriteResult>)
    ensures IoWrite(c, ext, w).flags == c.flags
  { }

  lemma IoRemoves(c: Chan, io: Io)
    requires !c.flags.removed && ChannelIo(c, io).flags.removed
    ensures var d := IoDone(c, io); d.flags.recvClose && !WritePending(d) && ChannelIo(c, io).rx == d.rx
  {
    IoNotRemoved(c, io);
    hide IoRead, IoWrite, CheckClose, CanRead, CanWrite, WritePending;
    CheckCloseRemoves(IoDone(c, io), io.close);
  }

  lemma RecvDataFlags(c: Chan, ext: bool, data: seq<byte>, w: WriteResult)
    ensures RecvData(c, ext, data, w).Next? ==> RecvData(c, ext, data, w).c.flags == c.flags
  { }

  lemma ReceiveRemoves(c: Chan, m: Msg, w: WriteResult, e: CloseEnv)
    requires Receive(c, m, w, e).Next? && !c.flags.removed && Receive(c, m, w, e).c.flags.removed
    ensures var d := if m.Close? then RecvClose(c) else RecvEof(c);
            d.flags.recvClose && !WritePending(d) && Receive(c, m, w, e).c.rx == d.rx
  {
    if m.Data? { RecvDataFlags(c, false, m.bytes, w); }
    if m.Extended? { RecvDataFlags(c, true, m.bytes, w); }
    hide CheckClose, RecvData, WritePending;
    if m.Eof? { CheckCloseRemoves(RecvEof(c), e); }
    if m.Close? { CheckCloseRemoves(RecvClose(c), e); }
  }

  /**
   The step that removes a channel finds the peer's CLOSE received and no byte waiting for an open
   descriptor; the queues are then empty unless a write has failed or the channel is not a graceful one.
   */
  lemma RemovalWaits(n: Net, events: seq<Event>, ev: Event)
    requires Opened(n)
    ensures Run(n, events).Running? && Happen(Run(n, events).net, ev).Running?
    ensures var f := Run(n, events).net;
            var g := Happen(f, ev).net;
            !f.b.flags.removed && g.b.flags.removed ==>
              && var c := Checked(f, ev);
              && c.flags.recvClose && !WritePending(c) && g.b.rx == c.rx
              && (Graceful(n.b, false) && !c.rx.broken ==> c.rx.writebuf == [])
              && (Graceful(n.b, true) && !c.rx.broken ==> c.rx.Extra() == [])
  {
    OpenedInv(n);
    hide Opened, NetInv, Graceful, Happen, Checked, WritePending;
    RunKeeps(n, events);
    var f := Run(n, events).net;
    HappenKeeps(f, ev);
    if !f.b.flags.removed && Happen(f, ev).net.b.flags.removed {
      StepRemoves(f, ev);
      if Graceful(n.b, false) { QueueEmpty(n, events, ev, false); }
      if Graceful(n.b, true) { QueueEmpty(n, events, ev, true); }
    }
  }

  lemma StepRemoves(f: Net, ev: Event)
    requires Happen(f, ev).Running? && !f.b.flags.removed && Happen(f, ev).net.b.flags.removed
    ensures var c := Checked(f, ev); c.flags.recvClose && !WritePending(c) && Happen(f, ev).net.b.rx == c.rx
  {
    hide ChannelIo, Receive, WritePending, IoDone;
    match ev
    case IoB(io) => IoRemoves(f.b, io);
    case DeliverToB(w, e) =>
      if f.toB < |f.a.tx.sent| { ReceiveRemoves(f.b, f.a.tx.sent[f.toB], w, e); }
    case _ =>
  }

  lemma QueueEmpty(n: Net, events: seq<Event>, ev: Event, ext: bool)
    requires Opened(n) && Graceful(n.b, ext) && Run(n, events).Running? && Happen(Run(n, events).net, ev).Running?
    ensures var g := Happen(Run(n, events).net, ev).net;
            g.b.flags.removed && !g.b.rx.broken ==> Buffer(g.b.rx, ext) == []
  {
    OpenedGood(n, ext);
    hide Opened, GoodNet, Graceful, Happen;
    RunGood(n, events, ext);
    HappenGood(Run(n, events).net, ev, ext);
    var g := Happen(Run(n, events).net, ev).net;
    if g.b.flags.removed {
      GoodInv(g, ext);
      RemovedIsClosed(g.b, ext);
      GracefulQueue(g.b, ext);
    }
  }

  lemma GracefulQueue(c: Chan, ext: bool)
    requires Graceful(c, ext) && WriteFd(c, ext) < 0
    ensures c.rx.broken || Buffer(c.rx, ext) == []
  { }

  // ----- the other channels -----

  /** Answers of the surroundings that close nothing, and answers of a type whose process has gone. */
  const NoClose := CloseEnv(false, false, Interrupted, Interrupted)
  const TypeGone := CloseEnv(true, true, Interrupted, Interrupted)

  /** a reads one byte; b's descriptor takes nothing; then b closes it. */
  function LosingRun(b: Chan): seq<Event> {
    [IoA(Io(Some(Got([7])), None, None, None, false, NoClose)), DeliverToB(WouldBlock, NoClose), IoB(Closing(b))]
  }

  /** The turn that closes b's write descriptor: its type's process is gone, or one of its read descriptors ends. */
  function Closing(b: Chan): Io {
    if b.conf.hasCheckClose then Io(None, None, None, None, true, TypeGone)
    else if b.fds.read == b.fds.write then Io(Some(ReadResult.Ended), None, None, None, false, NoClose)
    else Io(None, Some(ReadResult.Ended), None, None, false, NoClose)
  }

  /** The peer's packet limit and the packet buffer leave room for data of either kind. */
  predicate MaySend(c: Chan) {
    c.tx.maxpacket > 0 && c.conf.payloadSize > 13
  }

  lemma FirstByteSent(a: Chan, w: nat)
    requires Fresh(a, w) && w > 0 && MaySend(a) && a.fds.read >= 0
    ensures var d := ChannelIo(a, Io(Some(Got([7])), None, None, None, false, NoClose));
            d.tx.sent == [Data([7])] && d.conf == a.conf
  {
    var d := SendData(a, false, Got([7]));
    assert d == a.(tx := SendBytes(a.tx, false, [7]));
    assert CheckClose(d, NoClose) == d;
    assert [] + [Data([7])] == [Data([7])];
  }

  lemma FirstByteQueued(b: Chan, w: nat)
    requires Fresh(b, w)
    ensures var o := RecvData(b, false, [7], WouldBlock);
            && o.Next? && o.c.conf == b.conf && o.c.fds == b.fds && o.c.flags == b.flags && !o.c.rx.broken
            && o.c.rx.toFd == [] && o.c.tx.window == b.tx.window && o.c.tx.maxpacket == b.tx.maxpacket
            && (o.c.rx.extrabuf.Some? <==> b.rx.extrabuf.Some?)
  { }

  /** Such a turn leaves the byte unwritten and the descriptor closed. */
  lemma ThenClosed(c: Chan)
    requires ConfigOk(c) && MaySend(c) && c.tx.window > 0
    requires c.flags == Flags(false, false, false, false, false, false, false, 0)
    requires c.conf.hasCheckClose || c.fds.write < 0 ||
             (!c.conf.sepfds && (c.fds.read == c.fds.write || (!c.ErrIsWrite() && c.fds.err == c.fds.write)))
    ensures var d := ChannelIo(c, Closing(c)); d.rx == c.rx && d.fds.write < 0
  {
    var io := Closing(c);
    var c1 := IoRead(c, false, io.read);
    var c2 := IoRead(c1, true, io.errRead);
    IoReadSteady(c, false, io.read);
    IoReadSteady(c1, true, io.errRead);
    assert c.conf.hasCheckClose ==> c2 == c;
    assert !c.conf.hasCheckClose ==> c2.fds.write < 0;
    hide IoRead;
    CheckCloseRemoves(c2, io.close);
    if c.conf.hasCheckClose { GoneCloses(c); }
    hide CheckClose;
  }

  lemma IoReadSteady(c: Chan, ext: bool, r: Option<ReadResult>)
    ensures Steady(c, IoRead(c, ext, r))
  {
    if CanRead(c, ext, r) { SendDataSteady(c, ext, r.value); }
    hide SendData;
  }

  lemma GoneCloses(c: Chan)
    requires c.conf.hasCheckClose && c.flags == Flags(false, false, false, false, false, false, false, 0)
    ensures CheckClose(c, TypeGone).fds.write < 0
  {
    var c0 := StartFlushing(c, TypeGone);
    assert CloseAllowed(c0, TypeGone) && c0.conf == c.conf && !c0.flags.recvClose;
    hide StartFlushing, CloseAllowed, CloseWriteSide, Flush, EofIfDone, CloseIfDone;
    GoOnSteady(c0, true, TypeGone);
  }

  ghost predicate LosesNothing(n: Net, events: seq<Event>, ext: bool) {
    Run(n, events).Running? && AllWritten(Input(n, events, ext), Run(n, events).net.b, ext)
  }

  lemma LosingRunLoses(n: Net)
    requires Opened(n) && !Graceful(n.b, false) && MaySend(n.a) && n.a.fds.read >= 0 && MaySend(n.b)
    ensures !LosesNothing(n, LosingRun(n.b), false)
  {
    FirstByteSent(n.a, n.b.conf.recvWindow);
    FirstByteQueued(n.b, n.a.conf.recvWindow);
    var es := LosingRun(n.b);
    var b2 := RecvData(n.b, false, [7], WouldBlock).c;
    ThenClosed(b2);
    assert Closing(b2) == Closing(n.b);
    hide ChannelIo, RecvData, Closing;
    var n1 := n.(a := ChannelIo(n.a, es[0].io));
    var n2 := n1.(b := b2, toB := 1);
    var n3 := n2.(b := ChannelIo(b2, Closing(b2)));
    assert Happen(n, es[0]) == Running(n1);
    assert Happen(n1, es[1]) == Running(n2);
    assert Happen(n2, es[2]) == Running(n3);
    hide Happen;
    Turn(n, es[0], es[1..], n1);
    Turn(n1, es[1], es[2..], n2);
    Turn(n2, es[2], [], n3);
    assert es == [es[0]] + es[1..] && es[1..] == [es[1]] + es[2..] && es[2..] == [es[2]] + [];
    OneByte();
    OpenedInput(n, es, false);
    hide Run, Input;
  }

  lemma Turn(n: Net, ev: Event, rest: seq<Event>, n': Net)
    requires Happen(n, ev) == Running(n')
    ensures Run(n, [ev] + rest) == Run(n', rest)
  {
    assert ([ev] + rest)[1..] == rest;
  }

  lemma OneByte()
    ensures Payload([Data([7])], false) == [7]
  {
    assert [Data([7])][..0] == [];
  }

  // ----- extended data -----

  /** b's own side ends and, if it can, it closes up before any data arrives. */
  const AllEnds := Io(Some(ReadResult.Ended), None, None, None, true,
                      CloseEnv(true, true, ReadResult.Ended, ReadResult.Ended))

  /** Then a sends a byte of extended data. */
  const LosingRunExt: seq<Event> :=
    [IoB(AllEnds), IoA(Io(None, Some(Got([7])), None, None, false, NoClose)), DeliverToB(WouldBlock, NoClose)]

  /** Descriptors that the channel's type has set: none is left as newchannel made it. */
  predicate Settled(c: Chan) {
    (c.fds.read >= 0 || c.fds.read == FD_CLOSED) && (c.fds.write >= 0 || c.fds.write == FD_CLOSED)
  }

  /** Without reads to come, and with its write descriptor closed, an idle channel closes up. */
  lemma IdleClosesUp(c: Chan, e: CloseEnv)
    requires c.ErrIsWrite() && c.rx.writebuf == [] && c.rx.Extra() == [] && !c.flags.recvClose && !c.flags.recvEof
    requires c.fds.read == FD_CLOSED && !c.flags.sentClose && !c.flags.sentEof && !c.flags.handlerDone && Settled(c)
    requires e.typeExited && e.typeClosed && (c.fds.write == FD_CLOSED || c.conf.hasCheckClose)
    ensures CheckClose(c, e).fds.err < 0
  {
    var c0 := StartFlushing(c, e);
    assert c0.fds == c.fds && c0.rx == c.rx && c0.conf == c.conf && c0.flags == c.flags.(flushing := c0.flags.flushing);
    assert CloseAllowed(c0, e);
    hide StartFlushing, CloseAllowed;
    var c1 := CloseWriteSide(c0, true);
    assert c1.fds.write == FD_CLOSED && c1.fds.read == FD_CLOSED && c1.rx == c.rx && c1.flags == c0.flags;
    assert Flush(c1, e) == c1;
    hide CloseWriteSide, Flush;
    var c3 := EofIfDone(c1);
    assert c3.fds == c1.fds && c3.rx == c1.rx && !c3.flags.sentClose && NoMoreToSend(c3) && !WritePending(c3);
    hide EofIfDone;
    SendCloseClosesErr(c3);
    hide SendClose;
  }

  lemma SendCloseClosesErr(c: Chan)
    requires c.ErrIsWrite()
    ensures SendClose(c).fds.err < 0
  { }

  lemma ErrStaysClosed(c: Chan, e: CloseEnv)
    requires c.fds.err < 0 && c.ErrIsWrite()
    ensures CheckClose(c, e).fds.err < 0
  {
    var c0 := StartFlushing(c, e);
    var allowed := CloseAllowed(c0, e);
    SendCloseClosesErr(c0);
    var c1 := CloseWriteSide(c0, allowed);
    assert c1.fds.err < 0 && c1.ErrIsWrite();
    hide CloseWriteSide, StartFlushing, CloseAllowed;
    FlushErr(c1, e);
    var c2 := Flush(c1, e);
    hide Flush;
    var c3 := EofIfDone(c2);
    assert c3.fds == c2.fds && c3.ErrIsWrite();
    hide EofIfDone;
    SendCloseClosesErr(c3);
    hide SendClose;
  }

  lemma FlushErr(c: Chan, e: CloseEnv)
    requires c.fds.err < 0 && c.ErrIsWrite()
    ensures Flush(c, e).fds.err < 0 && Flush(c, e).ErrIsWrite()
  { }

  /** A fresh channel that is not graceful for extended data can close its descriptor before any arrives. */
  lemma ClosesErr(b: Chan, w: nat)
    requires Fresh(b, w) && 0 < w <= MAX_RECV_WINDOW && MaySend(b) && b.ErrIsWrite() && Settled(b) && !Graceful(b, true)
    ensures var d := ChannelIo(b, AllEnds);
            && d.fds.err < 0 && d.rx == b.rx && d.flags.recvEof == false && !d.flags.removed && d.conf == b.conf
  {
    var c1 := IoRead(b, false, AllEnds.read);
    assert c1.rx == b.rx && c1.flags == b.flags && c1.conf == b.conf && c1.fds.read == FD_CLOSED && Settled(c1);
    assert c1.tx.window == w;
    assert b.fds.write == FD_CLOSED || b.fds.read == b.fds.write ==> c1.fds.write == FD_CLOSED;
    assert b.fds.err < 0 || b.fds.err == b.fds.read ==> c1.fds.err < 0;
    assert b.conf.hasCheckClose || b.fds.write == FD_CLOSED || b.fds.read == b.fds.write || b.fds.err < 0
           || b.fds.err == b.fds.read;
    hide IoRead, Fresh, Graceful;
    assert ChannelIo(b, AllEnds) == CheckClose(c1, AllEnds.close) by { SecondReadIdle(c1); }
    CheckCloseRemoves(c1, AllEnds.close);
    CheckCloseFlags(c1, AllEnds.close);
    if c1.fds.err < 0 {
      ErrStaysClosed(c1, AllEnds.close);
    } else {
      IdleClosesUp(c1, AllEnds.close);
    }
    hide CheckClose;
  }

  lemma SecondReadIdle(c: Chan)
    ensures IoRead(c, true, AllEnds.errRead) == c && IoWrite(c, false, AllEnds.write) == c
            && IoWrite(c, true, AllEnds.errWrite) == c
  { }

  lemma CheckCloseFlags(c: Chan, e: CloseEnv)
    requires c.tx.window < 0x1_0000_0000
    ensures CheckClose(c, e).flags.recvEof == c.flags.recvEof && CheckClose(c, e).conf == c.conf
  {
    CheckCloseQuiet(c, e);
    hide CheckClose;
  }

  lemma FirstExtByteSent(a: Chan, w: nat)
    requires Fresh(a, w) && w > 0 && MaySend(a) && !a.ErrIsWrite() && a.fds.err >= 0
    ensures var d := ChannelIo(a, Io(None, Some(Got([7])), None, None, false, NoClose)); d.tx.sent == [Extended([7])]
  {
    var d := SendData(a, true, Got([7]));
    assert d == a.(tx := SendBytes(a.tx, true, [7]));
    assert CheckClose(d, NoClose) == d;
    assert [] + [Extended([7])] == [Extended([7])];
  }

  lemma LosingRunLosesExt(n: Net)
    requires Opened(n) && !Graceful(n.b, true) && MaySend(n.a) && MaySend(n.b)
    requires !n.a.ErrIsWrite() && n.a.fds.err >= 0 && n.b.ErrIsWrite() && Settled(n.b)
    ensures !LosesNothing(n, LosingRunExt, true)
  {
    ClosesErr(n.b, n.a.conf.recvWindow);
    FirstExtByteSent(n.a, n.b.conf.recvWindow);
    var es := LosingRunExt;
    var b1 := ChannelIo(n.b, es[0].io);
    var a2 := ChannelIo(n.a, es[1].io);
    var b3 := b1.(rx := b1.rx.(dropped := b1.rx.dropped + 1));
    assert Receive(b1, Extended([7]), WouldBlock, NoClose) == Next(b3);
    hide ChannelIo, Receive;
    var n1, n2, n3 := n.(b := b1), n.(a := a2, b := b1), n.(a := a2, b := b3, toB := 1);
    assert Happen(n, es[0]) == Running(n1);
    assert Happen(n1, es[1]) == Running(n2);
    assert Happen(n2, es[2]) == Running(n3);
    hide Happen;
    Turn(n, es[0], es[1..], n1);
    Turn(n1, es[1], es[2..], n2);
    Turn(n2, es[2], [], n3);
    assert es == [es[0]] + es[1..] && es[1..] == [es[1]] + es[2..] && es[2..] == [es[2]] + [];
    OneExtByte();
    OpenedInput(n, es, true);
    hide Run, Input;
  }

  lemma OneExtByte()
    ensures Payload([Extended([7])], true) == [7]
  {
    assert [Extended([7])][..0] == [];
  }

  /** a can send the kind of data in question, and b has a place for it. */
  predicate Carries(n: Net, ext: bool) {
    && MaySend(n.a) && MaySend(n.b)
    && if ext then !n.a.ErrIsWrite() && n.a.fds.err >= 0 && n.b.ErrIsWrite() && Settled(n.b) else n.a.fds.read >= 0
  }

  /** Exactly the graceful receivers lose nothing in any run. */
  lemma LossExactly(n: Net, ext: bool)
    requires Opened(n) && Carries(n, ext)
    ensures (forall events: seq<Event> :: LosesNothing(n, events, ext)) <==> Graceful(n.b, ext)
  {
    hide Opened, Graceful, MaySend, AllWritten, Run, Settled, Input;
    if Graceful(n.b, ext) {
      forall events: seq<Event> ensures LosesNothing(n, events, ext) {
        NothingLost(n, events, ext);
      }
    } else if ext {
      LosingRunLosesExt(n);
    } else {
      LosingRunLoses(n);
    }
  }

  // ----- one such run to its end -----

  const Plain := Config(1000, 100, false, false, false)
  const Unset := Flags(false, false, false, false, false, false, false, 0)

  function Empty(fds: Fds): Chan {
    Chan(Plain, fds, Rx([], None, 1000, 0, [], [], 0, 0, false), Tx(1000, 100, []), Unset)
  }

  /** b reads and writes one descriptor, as the X11 and agent channels do. */
  const Shared := Net(Empty(Fds(3, 4, FD_CLOSED)), Empty(Fds(5, 5, FD_CLOSED)), 0, 0)

  const AllClosed := Fds(FD_CLOSED, FD_CLOSED, FD_CLOSED)

  const Farewell := [DeliverToA(WouldBlock, NoClose), DeliverToA(WouldBlock, NoClose), DeliverToB(WouldBlock, NoClose)]

  // the states of that run
  const A1 := Shared.a.(tx := Tx(999, 100, [Data([7])]))
  const B2 := Shared.b.(rx := Shared.b.rx.(writebuf := [7], window := 999))
  const B3 := B2.(fds := AllClosed, tx := B2.tx.(sent := [Eof, Close]),
                  flags := Unset.(sentEof := true, sentClose := true))
  const A4 := A1.(fds := Fds(3, FD_CLOSED, FD_CLOSED), flags := Unset.(recvEof := true))
  const Gone := Flags(true, true, true, true, false, false, true, 0)
  const A5 := A4.(fds := AllClosed, tx := A4.tx.(sent := [Data([7]), Close]), flags := Gone)
  const B6 := B3.(flags := Gone)

  lemma FirstTurn()
    ensures ChannelIo(Shared.a, Io(Some(Got([7])), None, None, None, false, NoClose)) == A1
  {
    assert SendData(Shared.a, false, Got([7])) == A1 && CheckClose(A1, NoClose) == A1;
  }

  lemma SecondTurn()
    ensures Receive(Shared.b, Data([7]), WouldBlock, NoClose) == Next(B2)
  { }

  lemma ThirdTurn()
    ensures ChannelIo(B2, Closing(Shared.b)) == B3
  {
    var c := B2.(fds := AllClosed);
    assert SendData(B2, false, ReadResult.Ended) == c;
    var d := c.(tx := c.tx.(sent := [Eof]), flags := Unset.(sentEof := true));
    assert EofIfDone(c) == d;
    assert [Eof] + [Close] == [Eof, Close];
    assert SendClose(d) == B3;
    assert CheckClose(c, NoClose) == B3 by { hide SendClose; }
  }

  lemma FourthTurn()
    ensures Receive(A1, Eof, WouldBlock, NoClose) == Next(A4)
  { }

  lemma FifthTurn()
    ensures Receive(A4, Close, WouldBlock, NoClose) == Next(A5)
  {
    var c := RecvClose(A4);
    assert [Data([7])] + [Close] == [Data([7]), Close];
    assert Remove(SendClose(c)) == A5;
    assert CheckClose(c, NoClose) == A5 by { hide SendClose, Remove; }
  }

  lemma SixthTurn()
    ensures Receive(B3, Close, WouldBlock, NoClose) == Next(B6)
  { }

  /** Both CLOSEs cross, no write fails, and the byte that waited in b's queue is gone with the channel. */
  lemma SharedDescriptorLoses()
    ensures Opened(Shared) && !Graceful(Shared.b, false)
    ensures var o := Run(Shared, LosingRun(Shared.b) + Farewell);
            && o.Running? && o.net.b.flags.removed && !o.net.b.rx.broken && o.net.b.rx.dropped == 0
            && Input(Shared, LosingRun(Shared.b) + Farewell, false) == [7]
            && o.net.b.rx.toFd == [] && o.net.b.rx.writebuf == [7]
  {
    hide ChannelIo, Receive, Closing;
    assert Opened(Shared) && !Graceful(Shared.b, false);
    FirstTurn();
    SecondTurn();
    ThirdTurn();
    FourthTurn();
    FifthTurn();
    SixthTurn();
    OpenedInput(Shared, LosingRun(Shared.b) + Farewell, false);
    hide Opened, Graceful, Input;
    SharedRun();
    hide Run;
    assert [Data([7]), Close][..1] == [Data([7])];
    OneByte();
    assert Payload([Data([7]), Close], false) == [7] + [];
  }

  lemma SharedRun()
    requires ChannelIo(Shared.a, Io(Some(Got([7])), None, None, None, false, NoClose)) == A1
    requires Receive(Shared.b, Data([7]), WouldBlock, NoClose) == Next(B2) && ChannelIo(B2, Closing(Shared.b)) == B3
    requires Receive(A1, Eof, WouldBlock, NoClose) == Next(A4) && Receive(A4, Close, WouldBlock, NoClose) == Next(A5)
    requires Receive(B3, Close, WouldBlock, NoClose) == Next(B6)
    ensures Run(Shared, LosingRun(Shared.b) + Farewell) == Running(Net(A5, B6, 2, 2))
  {
    hide ChannelIo, Receive, Closing;
    var es := LosingRun(Shared.b) + Farewell;
    var n1, n2, n3 := Net(A1, Shared.b, 0, 0), Net(A1, B2, 1, 0), Net(A1, B3, 1, 0);
    var n4, n5, n6 := Net(A4, B3, 1, 1), Net(A5, B3, 1, 2), Net(A5, B6, 2, 2);
    assert Happen(Shared, es[0]) == Running(n1) && Happen(n1, es[1]) == Running(n2) && Happen(n2, es[2]) == Running(n3);
    assert Happen(n3, es[3]) == Running(n4) && Happen(n4, es[4]) == Running(n5) && Happen(n5, es[5]) == Running(n6);
    hide Happen;
    SixTurns(es, Shared, n1, n2, n3, n4, n5, n6);
  }

  lemma SixTurns(es: seq<Event>, n: Net, n1: Net, n2: Net, n3: Net, n4: Net, n5: Net, n6: Net)
    requires |es| == 6 && Happen(n, es[0]) == Running(n1) && Happen(n1, es[1]) == Running(n2)
             && Happen(n2, es[2]) == Running(n3)
    requires Happen(n3, es[3]) == Running(n4) && Happen(n4, es[4]) == Running(n5) && Happen(n5, es[5]) == Running(n6)
    ensures Run(n, es) == Running(n6)
  {
    hide Happen;
    Turn(n, es[0], es[1..], n1);
    Turn(n1, es[1], es[2..], n2);
    Turn(n2, es[2], es[3..], n3);
    Turn(n3, es[3], es[4..], n4);
    Turn(n4, es[4], es[5..], n5);
    Turn(n5, es[5], [], n6);
    assert es == [es[0]] + es[1..] && es[1..] == [es[1]] + es[2..] && es[2..] == [es[2]] + es[3..];
    assert es[3..] == [es[3]] + es[4..] && es[4..] == [es[4]] + es[5..] && es[5..] == [es[5]] + [];
  }
}
