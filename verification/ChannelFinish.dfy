/** Finished channels are closed: what check_close brings about, and what that means for whole runs. */
module ChannelFinish {
  import opened Wrappers
  import opened Bytes
  import opened ChannelModel
  import opened ChannelInv
  import opened ChannelFlow
  import opened ChannelRun
  import opened ChannelDelivery
  import opened ChannelInput
  import opened ChannelLoss
  import ChannelTheorems

  // ----- one call of check_close -----

  lemma SendCloseSays(c: Chan)
    ensures SendClose(c).flags.sentEof && SendClose(c).flags.sentClose
    ensures SendClose(c).conf == c.conf && SendClose(c).flags.flushing == c.flags.flushing
    ensures SendClose(c).flags.recvEof == c.flags.recvEof && SendClose(c).flags.recvClose == c.flags.recvClose
    ensures SendClose(c).flags.removed == c.flags.removed
  { }

  /** The end of check_close. */
  lemma FinishSays(c: Chan, allowed: bool)
    ensures var d := CloseIfDone(EofIfDone(c), allowed);
            && (NoMoreToSend(d) && d.fds == c.fds ==> d.flags.sentEof)
            && (d.fds != c.fds ==> d.flags.sentEof && d.flags.sentClose)
            && (NoMoreToSend(d) && d.fds.write == FD_CLOSED && allowed && !WritePending(d) ==> d.flags.sentClose)
  {
    var c1 := EofIfDone(c);
    assert c1.fds == c.fds && c1.rx == c.rx && c1.flags.sentClose == c.flags.sentClose;
    assert NoMoreToSend(c1) == NoMoreToSend(c) && (NoMoreToSend(c1) ==> c1.flags.sentEof);
    assert WritePending(c1) == WritePending(c);
    hide EofIfDone, WritePending, NoMoreToSend;
    SendCloseSays(c1);
    hide SendClose;
  }

  /**
   After check_close a channel with nothing more to send has sent EOF; and if nothing can be received either,
   nothing waits to be written and the type allows it, CLOSE.
   */
  lemma CheckCloseFinishes(c: Chan, e: CloseEnv)
    ensures var d := CheckClose(c, e);
            && (NoMoreToSend(d) && d.fds.write == FD_CLOSED && CloseAllowed(c, e) && !WritePending(d) ==>
                  d.flags.sentClose)
            && ((c.flags.sentClose ==> c.flags.sentEof) && NoMoreToSend(d) ==> d.flags.sentEof)
  {
    var c0 := StartFlushing(c, e);
    var allowed := CloseAllowed(c0, e);
    assert allowed == CloseAllowed(c, e) && c0.flags == c.flags.(flushing := c0.flags.flushing);
    hide StartFlushing, CloseAllowed;
    SendCloseSays(c0);
    FinishSays(Flush(CloseWriteSide(c0, allowed), e), allowed);
    hide SendClose, CloseWriteSide, Flush, EofIfDone, CloseIfDone, NoMoreToSend, WritePending;
  }

  /** A flushing channel keeps reading until a read does not fill its request. */
  lemma CheckCloseFlushes(c: Chan, e: CloseEnv)
    requires c.flags.flushing || (c.conf.hasCheckClose && !c.flags.handlerDone && e.typeExited)
    requires c.fds.read >= 0 && c.tx.window > 0 && MaxLen(c, false) > 0
    requires e.flushData.Ended? || (e.flushData.Got? && |e.flushData.bytes| < MaxLen(c, false))
    ensures !CheckClose(c, e).flags.removed && !c.flags.removed ==> CheckClose(c, e).fds.read < 0
  {
    var c0 := StartFlushing(c, e);
    assert c0.flags.flushing && c0.fds == c.fds && c0.tx == c.tx && c0.conf == c.conf;
    var allowed := CloseAllowed(c0, e);
    hide StartFlushing, CloseAllowed, WritePending;
    var c1 := CloseWriteSide(c0, allowed);
    assert c1.tx == c.tx && c1.conf == c.conf && c1.flags == c0.flags && (c1.fds.read == c.fds.read || c1.fds.read < 0);
    hide CloseWriteSide;
    FlushReadSide(c1, e);
    var c2 := Flush(c1, e);
    hide Flush;
    FinishReadSide(c2, allowed);
    hide EofIfDone, CloseIfDone, SendClose;
  }

  lemma FlushReadSide(c: Chan, e: CloseEnv)
    requires c.flags.flushing && c.tx.window > 0 && MaxLen(c, false) > 0
    requires e.flushData.Ended? || (e.flushData.Got? && |e.flushData.bytes| < MaxLen(c, false))
    ensures Flush(c, e).fds.read < 0
  {
    var c1 := if c.fds.read >= 0 then SendData(c, false, e.flushData) else c;
    assert c1.fds.read < 0;
    assert SendData(c1, true, e.flushErr).fds.read < 0 by { ReadStaysClosed(c1, e.flushErr); }
    hide SendData;
  }

  lemma ReadStaysClosed(c: Chan, r: ReadResult)
    requires c.fds.read < 0
    ensures SendData(c, true, r).fds.read < 0
  { }

  lemma FinishReadSide(c: Chan, allowed: bool)
    requires c.fds.read < 0
    ensures CloseIfDone(EofIfDone(c), allowed).fds.read < 0
  { }

  // ----- channels with nothing left for check_close to do -----

  /** Types without their own check_close. */
  predicate Simple(c: Chan) {
    !c.conf.hasCheckClose && !c.flags.flushing
  }

  predicate EofSent(c: Chan) {
    NoMoreToSend(c) ==> c.flags.sentEof
  }

  predicate Stable(c: Chan) {
    || c.flags.removed
    || (&& EofSent(c)
        && (c.flags.recvEof && !WritePending(c) ==> c.fds.write == FD_CLOSED)
        && (NoMoreToSend(c) && c.fds.write == FD_CLOSED && !WritePending(c) ==> c.flags.sentClose)
        && (c.flags.recvClose ==> WritePending(c)))
  }

  lemma WriteSideSays(c: Chan)
    requires Simple(c)
    ensures var d := CloseWriteSide(c, true);
            && d.flags == c.flags && d.rx == c.rx && d.conf == c.conf && (WritePending(d) ==> d.fds == c.fds)
            && (WritePending(c) ==> d == c) && (d.flags.recvEof && !WritePending(c) ==> d.fds.write == FD_CLOSED)
  { }

  lemma FinishKeepsClosed(c: Chan, allowed: bool)
    ensures var d := CloseIfDone(EofIfDone(c), allowed);
            && d.rx == c.rx && d.conf == c.conf && d.flags.flushing == c.flags.flushing
            && d.flags.recvEof == c.flags.recvEof && d.flags.recvClose == c.flags.recvClose
            && d.flags.removed == c.flags.removed && (WritePending(c) ==> d.fds == c.fds)
            && (c.fds.write == FD_CLOSED ==> d.fds.write == FD_CLOSED)
  { }

  lemma CheckCloseStable(c: Chan, e: CloseEnv)
    requires Simple(c) && (c.flags.sentClose ==> c.flags.sentEof) && (c.flags.recvClose ==> c.flags.recvEof)
    ensures var d := CheckClose(c, e); Stable(d) && Simple(d) && EofSent(d)
  {
    assert StartFlushing(c, e) == c && CloseAllowed(c, e);
    CheckCloseFinishes(c, e);
    SendCloseSays(c);
    if c.flags.recvClose && !WritePending(c) {
      hide SendClose, WritePending, NoMoreToSend;
    } else {
      WriteSideSays(c);
      var c1 := CloseWriteSide(c, true);
      assert Flush(c1, e) == c1;
      FinishKeepsClosed(c1, true);
      hide CloseWriteSide, Flush, EofIfDone, CloseIfDone, StartFlushing, CloseAllowed, SendClose, NoMoreToSend;
    }
  }

  // ----- every event -----

  /** Once the peer's EOF is here nothing is left undone. */
  predicate Finishing(c: Chan) {
    Simple(c) && (c.flags.recvEof ==> Stable(c))
  }

  lemma IdleTurn(c: Chan, io: Io)
    requires !Active(c, io)
    ensures IoDone(c, io) == c
  { }

  lemma ChannelIoFinishing(c: Chan, io: Io)
    requires Inv(c) && Finishing(c)
    ensures Finishing(ChannelIo(c, io)) && (EofSent(c) ==> EofSent(ChannelIo(c, io)))
  {
    hide PhaseOf, Accounted, IoRead, IoWrite, CheckClose, CanRead, CanWrite, WritePending, NoMoreToSend;
    if !c.flags.removed {
      IoNotRemoved(c, io);
      IoConf(c, io);
      if Active(c, io) {
        CheckCloseStable(IoDone(c, io), io.close);
      } else {
        IdleTurn(c, io);
      }
    }
  }

  /** A signal, or anything to read or to write, leaves nothing undone. */
  lemma TurnFinishes(c: Chan, io: Io)
    requires Inv(c) && Simple(c) && !c.flags.removed
    requires io.signal || (io.read.Some? && c.fds.read >= 0) ||
             (io.read.None? && io.errRead.None? && io.write.Some? && c.fds.write >= 0)
    ensures Stable(ChannelIo(c, io))
  {
    hide PhaseOf, Accounted, IoRead, IoWrite, CheckClose, WritePending, NoMoreToSend;
    IoNotRemoved(c, io);
    IoConf(c, io);
    assert Active(c, io) by { Unread(c); }
    hide CanRead, CanWrite;
    CheckCloseStable(IoDone(c, io), io.close);
  }

  lemma Unread(c: Chan)
    ensures IoRead(c, false, None) == c && IoRead(c, true, None) == c
  { }

  lemma IoConf(c: Chan, io: Io)
    ensures IoDone(c, io).conf == c.conf
  {
    IoReadConf(c, false, io.read);
    IoReadConf(IoRead(c, false, io.read), true, io.errRead);
    var c2 := IoRead(IoRead(c, false, io.read), true, io.errRead);
    IoWriteConf(c2, false, io.write);
    IoWriteConf(IoWrite(c2, false, io.write), true, io.errWrite);
    hide IoRead, IoWrite;
  }

  lemma IoReadConf(c: Chan, ext: bool, r: Option<ReadResult>)
    ensures IoRead(c, ext, r).conf == c.conf
  { }

  lemma IoWriteConf(c: Chan, ext: bool, w: Option<WriteResult>)
    ensures IoWrite(c, ext, w).conf == c.conf
  { }

  /** No read descriptor is also a write descriptor that closes with it. */
  predicate Unshared(c: Chan) {
    c.conf.sepfds ||
    ((c.fds.write < 0 || (c.fds.read != c.fds.write && (c.ErrIsWrite() || c.fds.err != c.fds.write)))
     && (c.ErrIsWrite() && c.fds.err >= 0 ==> c.fds.err != c.fds.read))
  }

  lemma RecvDataReads(c: Chan, ext: bool, data: seq<byte>, w: WriteResult)
    requires Unshared(c)
    ensures var o := RecvData(c, ext, data, w);
            o.Next? ==> o.c.flags == c.flags && o.c.conf == c.conf && NoMoreToSend(o.c) == NoMoreToSend(c)
  { }

  lemma RecvDataConf(c: Chan, ext: bool, data: seq<byte>, w: WriteResult)
    ensures RecvData(c, ext, data, w).Next? ==> RecvData(c, ext, data, w).c.conf == c.conf && !c.flags.recvEof
  { }

  lemma DataFinishing(c: Chan, ext: bool, data: seq<byte>, w: WriteResult)
    requires Finishing(c)
    ensures var o := RecvData(c, ext, data, w);
            o.Next? ==> Finishing(o.c) && (Unshared(c) && EofSent(c) ==> EofSent(o.c))
  {
    RecvDataFlags(c, ext, data, w);
    RecvDataConf(c, ext, data, w);
    if Unshared(c) { RecvDataReads(c, ext, data, w); }
    hide RecvData, Stable, NoMoreToSend;
  }

  lemma ReceiveFinishing(c: Chan, m: Msg, w: WriteResult, e: CloseEnv)
    requires Inv(c) && Finishing(c)
    ensures var o := Receive(c, m, w, e);
            o.Next? ==> Finishing(o.c) && (Unshared(c) && EofSent(c) ==> EofSent(o.c))
  {
    hide PhaseOf, Accounted, CheckClose, RecvData, WritePending, NoMoreToSend;
    match m
    case Data(b) => DataFinishing(c, false, b, w);
    case Extended(b) => DataFinishing(c, true, b, w);
    case WindowAdjust(n) => AdjustFinishing(c, n);
    case Eof => CheckCloseStable(RecvEof(c), e);
    case Close => CheckCloseStable(RecvClose(c), e);
  }

  lemma AdjustFinishing(c: Chan, n: nat)
    requires Finishing(c)
    ensures Finishing(RecvAdjust(c, n)) && (EofSent(c) ==> EofSent(RecvAdjust(c, n)))
  { }

  // ----- whole runs -----

  predicate BothFinishing(n: Net) {
    Finishing(n.a) && Finishing(n.b)
  }

  lemma HappenFinishing(n: Net, ev: Event)
    requires NetInv(n) && BothFinishing(n)
    ensures Happen(n, ev).Running? && BothFinishing(Happen(n, ev).net)
  {
    HappenKeeps(n, ev);
    hide Inv, Link, ChannelIo, Receive, Finishing;
    match ev
    case IoA(io) => ChannelIoFinishing(n.a, io);
    case IoB(io) => ChannelIoFinishing(n.b, io);
    case DeliverToB(w, e) => if n.toB < |n.a.tx.sent| { ReceiveFinishing(n.b, n.a.tx.sent[n.toB], w, e); }
    case DeliverToA(w, e) => if n.toA < |n.b.tx.sent| { ReceiveFinishing(n.a, n.b.tx.sent[n.toA], w, e); }
  }

  lemma {:induction false} RunFinishing(n: Net, events: seq<Event>)
    requires NetInv(n) && BothFinishing(n)
    ensures Run(n, events).Running? && NetInv(Run(n, events).net) && BothFinishing(Run(n, events).net)
    decreases |events|
  {
    hide NetInv, BothFinishing, Happen;
    if events != [] {
      HappenKeeps(n, events[0]);
      HappenFinishing(n, events[0]);
      RunFinishing(Happen(n, events[0]).net, events[1..]);
    }
  }

  /** Neither to read nor to write. */
  predicate Idle(c: Chan) {
    NoMoreToSend(c) && !WritePending(c)
  }

  predicate NothingInFlight(n: Net) {
    n.toB == |n.a.tx.sent| && n.toA == |n.b.tx.sent|
  }

  /** EOF that has been sent and delivered. */
  lemma EofArrives(s: Chan, r: Chan)
    requires Inv(s) && Ends(s, r, |s.tx.sent|)
    ensures s.flags.sentEof ==> r.flags.recvEof
    ensures s.flags.sentClose ==> r.flags.recvClose
  {
    assert s.tx.sent[..|s.tx.sent|] == s.tx.sent;
    EndInLog(s.tx.sent);
    hide PhaseOf, Accounted, NoMoreToSend;
  }

  lemma {:induction false} EndInLog(log: seq<Msg>)
    ensures PhaseOf(log) == Half ==> ChannelRun.Ended(log)
    ensures PhaseOf(log) == Closed ==> ChannelRun.Ended(log) && EndedByClose(log)
  {
    if log != [] {
      var n := |log| - 1;
      EndInLog(log[..n]);
      if PhaseOf(log) == Half || PhaseOf(log) == Closed {
        if log[n].Eof? || log[n].Close? {
        } else {
          var i :| 0 <= i < n && (log[..n][i].Eof? || log[..n][i].Close?);
          assert log[i] == log[..n][i];
        }
      }
    }
  }

  /** From one end's EOF everything follows. */
  lemma FinishedBy(a: Chan, b: Chan)
    requires Inv(a) && Inv(b) && Finishing(a) && Finishing(b) && Idle(a) && Idle(b)
    requires Ends(a, b, |a.tx.sent|) && Ends(b, a, |b.tx.sent|) && a.flags.sentEof
    ensures a.flags.removed && b.flags.removed
  {
    EofArrives(a, b);
    EofArrives(b, a);
    hide PhaseOf, Accounted, Ends, NoMoreToSend, WritePending, ConfigOk;
  }

  /**
   Channels that are done are closed: in every run, whenever nothing is in flight and neither end has anything to
   read or to write, both channels are gone, if and only if one of the two has sent EOF.
   */
  lemma DoneIsRemoved(n: Net, events: seq<Event>)
    requires Opened(n) && Simple(n.a) && Simple(n.b)
    ensures Run(n, events).Running?
    ensures var f := Run(n, events).net;
            NothingInFlight(f) && Idle(f.a) && Idle(f.b) ==>
              (f.a.flags.removed && f.b.flags.removed <==> f.a.flags.sentEof || f.b.flags.sentEof)
  {
    OpenedInv(n);
    OpenedFinishing(n);
    hide NetInv, BothFinishing, Run, Opened, Idle;
    RunFinishing(n, events);
    var f := Run(n, events).net;
    if NothingInFlight(f) && Idle(f.a) && Idle(f.b) { DoneNet(f); }
  }

  lemma OpenedFinishing(n: Net)
    requires Opened(n) && Simple(n.a) && Simple(n.b)
    ensures BothFinishing(n)
  { }

  lemma DoneNet(f: Net)
    requires NetInv(f) && BothFinishing(f) && NothingInFlight(f) && Idle(f.a) && Idle(f.b)
    ensures f.a.flags.removed && f.b.flags.removed <==> f.a.flags.sentEof || f.b.flags.sentEof
  {
    hide Inv, Finishing, Idle, Windows, Streams, Ends;
    RemovedSaidEof(f.a);
    if f.a.flags.sentEof { FinishedBy(f.a, f.b); }
    if f.b.flags.sentEof { FinishedBy(f.b, f.a); }
  }

  lemma RemovedSaidEof(c: Chan)
    requires Inv(c)
    ensures c.flags.removed ==> c.flags.sentEof
  {
    hide PhaseOf;
  }

  /** An end with something to read, on descriptors it does not write to, sends EOF once it has no more. */
  lemma UnsharedSaysEof(n: Net, events: seq<Event>)
    requires Opened(n) && Simple(n.a) && Simple(n.b) && Unshared(n.a) && !NoMoreToSend(n.a)
    ensures Run(n, events).Running?
    ensures NoMoreToSend(Run(n, events).net.a) ==> Run(n, events).net.a.flags.sentEof
  {
    OpenedInv(n);
    OpenedFinishing(n);
    hide NetInv, BothFinishing, Run, Opened, Unshared;
    RunEofSent(n, events);
  }

  lemma {:induction false} RunEofSent(n: Net, events: seq<Event>)
    requires NetInv(n) && BothFinishing(n) && Unshared(n.a) && EofSent(n.a)
    ensures Run(n, events).Running? && EofSent(Run(n, events).net.a)
    decreases |events|
  {
    hide NetInv, BothFinishing, Happen, Unshared, EofSent;
    if events != [] {
      HappenKeeps(n, events[0]);
      HappenFinishing(n, events[0]);
      HappenEofSent(n, events[0]);
      RunEofSent(Happen(n, events[0]).net, events[1..]);
    }
  }

  lemma HappenEofSent(n: Net, ev: Event)
    requires NetInv(n) && BothFinishing(n) && Unshared(n.a) && EofSent(n.a) && Happen(n, ev).Running?
    ensures Unshared(Happen(n, ev).net.a) && EofSent(Happen(n, ev).net.a)
  {
    hide Inv, Link, ChannelIo, Receive, Finishing, Unshared, EofSent;
    match ev
    case IoA(io) => ChannelIoFinishing(n.a, io); ChannelIoUnshared(n.a, io);
    case DeliverToA(w, e) =>
      if n.toA < |n.b.tx.sent| {
        ReceiveFinishing(n.a, n.b.tx.sent[n.toA], w, e);
        ReceiveUnshared(n.a, n.b.tx.sent[n.toA], w, e);
      }
    case _ =>
  }

  // ----- when neither end says EOF -----

  /** Two descriptors, one each way, and no type that interferes. */
  predicate Duplex(c: Chan) {
    Simple(c) && MaySend(c) && c.fds.read >= 0 && c.fds.write >= 0 && c.fds.err == FD_CLOSED && !c.ErrIsWrite()
  }

  /** If nothing is in flight and nothing left to read or to write, the channel is gone at both ends. */
  predicate RemovesWhenDone(n: Net, events: seq<Event>) {
    var o := Run(n, events);
    o.Running? && (NothingInFlight(o.net) && Idle(o.net.a) && Idle(o.net.b) ==>
                     o.net.a.flags.removed && o.net.b.flags.removed)
  }

  const ReadByte := Io(Some(Got([7])), None, None, None, false, NoClose)

  /** Both ends read a byte, both fail to write the one they receive; then whatever is in flight arrives. */
  const StallingRun := [IoA(ReadByte), IoB(ReadByte), DeliverToB(Failed, NoClose), DeliverToA(Failed, NoClose),
                        DeliverToB(Failed, NoClose), DeliverToA(Failed, NoClose)]

  /** One byte has been sent, and perhaps credit; all descriptors are closed, and the peer has not been told. */
  predicate Stalled(c: Chan) {
    && c.flags == Unset && c.fds == AllClosed && !c.ErrIsWrite()
    && 1 <= |c.tx.sent| <= 2 && c.tx.sent[0] == Data([7]) && (|c.tx.sent| == 2 ==> c.tx.sent[1].WindowAdjust?)
  }

  /** A duplex end that has read its byte. */
  predicate HasRead(c: Chan, was: Chan) {
    c == was.(tx := c.tx) && c.tx.sent == [Data([7])]
  }

  lemma ByteRead(c: Chan, w: nat)
    requires Fresh(c, w) && w > 0 && Duplex(c)
    ensures HasRead(ChannelIo(c, ReadByte), c)
  {
    var d := SendData(c, false, Got([7]));
    assert d == c.(tx := SendBytes(c.tx, false, [7]));
    assert CheckClose(d, NoClose) == d;
    assert [] + [Data([7])] == [Data([7])];
  }

  lemma WriteFails(c: Chan, was: Chan, w: nat)
    requires Fresh(was, w) && Duplex(was) && !Unshared(was) && HasRead(c, was)
    ensures Receive(c, Data([7]), Failed, NoClose).Next? && Stalled(Receive(c, Data([7]), Failed, NoClose).c)
  { }

  lemma LateCredit(c: Chan, m: Msg)
    requires Stalled(c) && m.WindowAdjust?
    ensures Receive(c, m, Failed, NoClose).Next? && Stalled(Receive(c, m, Failed, NoClose).c)
    ensures Receive(c, m, Failed, NoClose).c.tx.sent == c.tx.sent
  { }

  lemma Exchanged(n: Net)
    requires Opened(n) && Duplex(n.a) && Duplex(n.b) && !Unshared(n.a) && !Unshared(n.b)
    ensures var o := Run(n, StallingRun[..4]); o.Running? && Stalled(o.net.a) && Stalled(o.net.b)
                                               && o.net.toB == 1 && o.net.toA == 1
  {
    ByteRead(n.a, n.b.conf.recvWindow);
    ByteRead(n.b, n.a.conf.recvWindow);
    var n1 := n.(a := ChannelIo(n.a, ReadByte));
    var n2 := n1.(b := ChannelIo(n.b, ReadByte));
    WriteFails(n2.b, n.b, n.a.conf.recvWindow);
    WriteFails(n2.a, n.a, n.b.conf.recvWindow);
    hide ChannelIo, Receive, Unshared, Duplex;
    var n3 := n2.(b := Receive(n2.b, Data([7]), Failed, NoClose).c, toB := 1);
    var n4 := n3.(a := Receive(n2.a, Data([7]), Failed, NoClose).c, toA := 1);
    var es := StallingRun;
    assert Happen(n, es[0]) == Running(n1) && Happen(n1, es[1]) == Running(n2);
    assert Happen(n2, es[2]) == Running(n3) && Happen(n3, es[3]) == Running(n4);
    hide Happen, Fresh;
    Turn(n, es[0], es[1..4], n1);
    Turn(n1, es[1], es[2..4], n2);
    Turn(n2, es[2], es[3..4], n3);
    Turn(n3, es[3], [], n4);
    assert es[..4] == [es[0]] + es[1..4] && es[1..4] == [es[1]] + es[2..4];
    assert es[2..4] == [es[2]] + es[3..4] && es[3..4] == [es[3]] + [];
  }

  lemma Settles(n: Net)
    requires Stalled(n.a) && Stalled(n.b) && n.toB == 1 && n.toA == 1
    ensures var o := Run(n, StallingRun[4..]);
            o.Running? && Stalled(o.net.a) && Stalled(o.net.b) && NothingInFlight(o.net)
  {
    if |n.a.tx.sent| == 2 { LateCredit(n.b, n.a.tx.sent[1]); }
    if |n.b.tx.sent| == 2 { LateCredit(n.a, n.b.tx.sent[1]); }
    hide Receive;
    var es := StallingRun;
    var n1 := Happen(n, es[4]).net;
    var n2 := Happen(n1, es[5]).net;
    assert Happen(n, es[4]).Running? && Stalled(n1.b) && n1.a == n.a && n1.toB == |n.a.tx.sent| && n1.toA == 1;
    assert n1.b.tx.sent == n.b.tx.sent;
    assert Happen(n1, es[5]).Running? && Stalled(n2.a) && n2.b == n1.b && NothingInFlight(n2);
    hide Happen, Stalled;
    Turn(n, es[4], es[5..], n1);
    Turn(n1, es[5], [], n2);
    assert es[4..] == [es[4]] + es[5..] && es[5..] == [es[5]] + [];
  }

  /** Two ends that each read and write one descriptor can both stop without a word to the other. */
  lemma BothStall(n: Net)
    requires Opened(n) && Duplex(n.a) && Duplex(n.b) && !Unshared(n.a) && !Unshared(n.b)
    ensures !RemovesWhenDone(n, StallingRun)
  {
    Exchanged(n);
    var n1 := Run(n, StallingRun[..4]).net;
    Settles(n1);
    RunJoined(n, StallingRun[..4], StallingRun[4..]);
    assert StallingRun[..4] + StallingRun[4..] == StallingRun;
    hide Run;
  }

  lemma {:induction false} RunJoined(n: Net, first: seq<Event>, second: seq<Event>)
    requires Run(n, first).Running?
    ensures Run(n, first + second) == Run(Run(n, first).net, second)
    decreases |first|
  {
    if first == [] {
      assert first + second == second;
    } else {
      assert (first + second)[1..] == first[1..] + second;
      RunJoined(Happen(n, first[0]).net, first[1..], second);
    }
  }

  lemma UnsharedRemoves(n: Net, events: seq<Event>)
    requires Opened(n) && Duplex(n.a) && Duplex(n.b) && (Unshared(n.a) || Unshared(n.b))
    ensures RemovesWhenDone(n, events)
  {
    hide Run, Opened, Unshared;
    DoneIsRemoved(n, events);
    if Unshared(n.a) {
      UnsharedSaysEof(n, events);
    } else {
      ChannelTheorems.RunMirrored(n, events);
      OpenedSwapped(n);
      UnsharedSaysEof(Swap(n), ChannelTheorems.MirroredAll(events));
    }
  }

  lemma OpenedSwapped(n: Net)
    requires Opened(n)
    ensures Opened(Swap(n))
  { }

  /** Every run closes what is done exactly when one of the two ends does not read and write the same descriptor. */
  lemma RemovedExactly(n: Net)
    requires Opened(n) && Duplex(n.a) && Duplex(n.b)
    ensures (forall events: seq<Event> :: RemovesWhenDone(n, events)) <==> Unshared(n.a) || Unshared(n.b)
  {
    hide RemovesWhenDone, Opened, Duplex, Unshared;
    if Unshared(n.a) || Unshared(n.b) {
      forall events: seq<Event> ensures RemovesWhenDone(n, events) { UnsharedRemoves(n, events); }
    } else {
      BothStall(n);
    }
  }

  // ----- descriptors only ever close -----

  predicate Closes(c: Chan, d: Chan) {
    && d.conf == c.conf && d.ErrIsWrite() == c.ErrIsWrite()
    && (d.fds.read == c.fds.read || d.fds.read == FD_CLOSED)
    && (d.fds.write == c.fds.write || d.fds.write == FD_CLOSED)
    && (d.fds.err == c.fds.err || d.fds.err == FD_CLOSED)
  }

  lemma ClosesUnshared(c: Chan, d: Chan)
    requires Unshared(c) && Closes(c, d)
    ensures Unshared(d)
  { }

  lemma SendDataCloses(c: Chan, ext: bool, r: ReadResult)
    ensures Closes(c, SendData(c, ext, r))
  { }

  lemma WritevCloses(c: Chan, ext: bool, more: Option<seq<byte>>, w: WriteResult)
    requires HasBuffer(c, ext)
    ensures Closes(c, Writev(c, ext, more, w).c)
  { }

  lemma WriteChannelCloses(c: Chan, ext: bool, more: Option<seq<byte>>, w: WriteResult)
    requires HasBuffer(c, ext)
    ensures Closes(c, WriteChannel(c, ext, more, w).c)
  {
    WritevCloses(c, ext, more, w);
    hide Writev;
  }

  lemma RecvDataCloses(c: Chan, ext: bool, data: seq<byte>, w: WriteResult)
    ensures RecvData(c, ext, data, w).Next? ==> Closes(c, RecvData(c, ext, data, w).c)
  {
    if HasBuffer(c, ext) { WriteChannelCloses(TakeWindow(c, |data|), ext, Some(data), w); }
    hide WriteChannel;
  }

  lemma IoDoneCloses(c: Chan, io: Io)
    ensures Closes(c, IoDone(c, io))
  {
    var c1 := IoRead(c, false, io.read);
    IoReadCloses(c, false, io.read);
    var c2 := IoRead(c1, true, io.errRead);
    IoReadCloses(c1, true, io.errRead);
    var c3 := IoWrite(c2, false, io.write);
    IoWriteCloses(c2, false, io.write);
    IoWriteCloses(c3, true, io.errWrite);
    hide IoRead, IoWrite;
  }

  lemma IoReadCloses(c: Chan, ext: bool, r: Option<ReadResult>)
    ensures Closes(c, IoRead(c, ext, r))
  {
    if CanRead(c, ext, r) { SendDataCloses(c, ext, r.value); }
    hide SendData;
  }

  lemma IoWriteCloses(c: Chan, ext: bool, w: Option<WriteResult>)
    ensures Closes(c, IoWrite(c, ext, w))
  {
    if CanWrite(c, ext, w) { WriteChannelCloses(c, ext, None, w.value); }
    hide WriteChannel;
  }

  lemma SendCloseCloses(c: Chan)
    ensures Closes(c, SendClose(c))
  { }

  lemma FlushCloses(c: Chan, e: CloseEnv)
    ensures Closes(c, Flush(c, e))
  {
    if c.flags.flushing {
      SendDataCloses(c, false, e.flushData);
      var c1 := if c.fds.read >= 0 && c.tx.window > 0 then SendData(c, false, e.flushData) else c;
      SendDataCloses(c1, true, e.flushErr);
      hide SendData;
    }
  }

  lemma FinishCloses(c: Chan, allowed: bool)
    ensures Closes(c, CloseIfDone(EofIfDone(c), allowed))
  {
    var c1 := EofIfDone(c);
    assert Closes(c, c1);
    SendCloseCloses(c1);
    hide EofIfDone, SendClose, WritePending, NoMoreToSend;
  }

  lemma WriteSideCloses(c: Chan, allowed: bool)
    ensures Closes(c, CloseWriteSide(c, allowed))
  {
    hide WritePending;
  }

  lemma CheckCloseCloses(c: Chan, e: CloseEnv)
    ensures Closes(c, CheckClose(c, e))
  {
    var c0 := StartFlushing(c, e);
    assert Closes(c, c0);
    var allowed := CloseAllowed(c0, e);
    hide StartFlushing, CloseAllowed, CloseWriteSide, Flush, EofIfDone, CloseIfDone, SendClose, WritePending;
    SendCloseCloses(c0);
    var c1 := CloseWriteSide(c0, allowed);
    WriteSideCloses(c0, allowed);
    FlushCloses(c1, e);
    FinishCloses(Flush(c1, e), allowed);
  }

  lemma ChannelIoUnshared(c: Chan, io: Io)
    requires Unshared(c)
    ensures Unshared(ChannelIo(c, io))
  {
    IoDoneCloses(c, io);
    ClosesUnshared(c, IoDone(c, io));
    CheckCloseCloses(IoDone(c, io), io.close);
    ClosesUnshared(IoDone(c, io), CheckClose(IoDone(c, io), io.close));
    hide IoRead, IoWrite, CheckClose, CanRead, CanWrite, Unshared;
  }

  lemma ReceiveUnshared(c: Chan, m: Msg, w: WriteResult, e: CloseEnv)
    requires Unshared(c)
    ensures Receive(c, m, w, e).Next? ==> Unshared(Receive(c, m, w, e).c)
  {
    match m {
      case Data(b) => RecvDataCloses(c, false, b, w);
      case Extended(b) => RecvDataCloses(c, true, b, w);
      case WindowAdjust(n) =>
      case Eof => CheckCloseCloses(RecvEof(c), e);
      case Close => CheckCloseCloses(RecvClose(c), e);
    }
    hide RecvData, CheckClose;
    if Receive(c, m, w, e).Next? { ClosesUnshared(c, Receive(c, m, w, e).c); }
  }
}
