/** Orderly channels lose nothing: what the peer sent was written, unless a local write failed. */
module ChannelDelivery {
  import opened Wrappers
  import opened Bytes
  import opened ChannelModel
  import opened ChannelInv
  import opened ChannelFlow
  import opened ChannelRun

  /**
   Channel types without their own check_close, whose read descriptor is not also written to (or is a
   socket that is shut down one way at a time): the write side closes only after an error, or when the
   peer has finished and everything it sent was written. With ext, the same of the descriptor that
   extended data is written to.
   */
  predicate Graceful(c: Chan, ext: bool) {
    && !c.conf.hasCheckClose && !c.flags.flushing
    && (c.conf.sepfds || c.fds.write < 0 ||
        (c.fds.read != c.fds.write && (c.ErrIsWrite() || c.fds.err != c.fds.write)))
    && (c.fds.write < 0 ==> c.rx.broken || (c.flags.recvEof && c.rx.writebuf == []))
    && (ext ==>
          && c.ErrIsWrite() && (c.fds.err < 0 || c.fds.err != c.fds.read)
          && (c.fds.err < 0 ==> c.rx.broken || (c.flags.recvEof && c.rx.Extra() == [])))
  }

  lemma SendDataGraceful(c: Chan, x: bool, ext: bool, r: ReadResult)
    requires Graceful(c, x) && CanRead(c, ext, Some(r)) && (c.conf.sepfds ==> c.fds.err == FD_CLOSED)
    ensures Graceful(SendData(c, ext, r), x)
  { }

  lemma WritevGraceful(c: Chan, x: bool, ext: bool, more: Option<seq<byte>>, w: WriteResult)
    requires Graceful(c, x) && HasBuffer(c, ext)
    requires WriteFd(c, ext) >= 0
    ensures Graceful(Writev(c, ext, more, w).c, x)
  { }

  lemma AdjustGraceful(c: Chan, x: bool)
    requires Graceful(c, x)
    ensures Graceful(Adjust(c), x)
  { }

  lemma IoGraceful(c: Chan, x: bool, ext: bool, r: Option<ReadResult>, w: Option<WriteResult>)
    requires Graceful(c, x) && Inv(c)
    ensures Graceful(IoRead(c, ext, r), x) && Graceful(IoWrite(c, ext, w), x)
  {
    hide Graceful, SendData, Writev, Adjust;
    if CanRead(c, ext, r) { SendDataGraceful(c, x, ext, r.value); }
    if CanWrite(c, ext, w) {
      WritevGraceful(c, x, ext, None, w.value);
      AdjustGraceful(Writev(c, ext, None, w.value).c, x);
    }
  }

  lemma RecvDataGraceful(c: Chan, x: bool, ext: bool, data: seq<byte>, w: WriteResult)
    requires Graceful(c, x)
    ensures RecvData(c, ext, data, w).Next? ==> Graceful(RecvData(c, ext, data, w).c, x)
  {
    if !c.flags.recvEof && WriteFd(c, ext) >= 0 && HasBuffer(c, ext) {
      var c1 := TakeWindow(c, |data|);
      WritevGraceful(c1, x, ext, Some(data), w);
      OpenAfterWrite(c1, ext, data, w);
      var r := Writev(c1, ext, Some(data), w);
      AdjustGraceful(r.c, x);
      hide Writev;
    }
  }

  lemma OpenAfterWrite(c: Chan, ext: bool, data: seq<byte>, w: WriteResult)
    requires HasBuffer(c, ext) && WriteFd(c, ext) >= 0
    ensures var r := Writev(c, ext, Some(data), w);
            r.ok ==> WriteFd(r.c, ext) >= 0
  { }

  /** Nothing that is still to be written is cut off. */
  predicate Drained(c: Chan) {
    && (c.fds.write >= 0 ==> c.flags.recvEof && c.rx.writebuf == [])
    && (c.fds.err >= 0 ==> c.rx.broken || (c.flags.recvEof && c.rx.Extra() == []))
  }

  lemma SendCloseGraceful(c: Chan, x: bool)
    requires Graceful(c, x) && (c.fds.write >= 0 ==> c.flags.recvEof && c.rx.writebuf == []) && (x ==> Drained(c))
    ensures Graceful(SendClose(c), x) && SendClose(c).rx == c.rx
  { }

  lemma CheckCloseGraceful(c: Chan, x: bool, e: CloseEnv)
    requires Graceful(c, x) && Inv(c)
    ensures Graceful(CheckClose(c, e), x)
  {
    assert StartFlushing(c, e) == c && (c.flags.recvClose ==> c.flags.recvEof) by { hide PhaseOf; }
    var allowed := CloseAllowed(c, e);
    if c.flags.recvClose && !WritePending(c) && allowed {
      SendCloseGraceful(c, x);
      hide SendClose, Inv;
    } else {
      var c1 := CloseWriteSide(c, allowed);
      assert Graceful(c1, x) && Flush(c1, e) == c1;
      var c3 := EofIfDone(c1);
      assert Graceful(c3, x);
      hide Inv, CloseFd, SendClose;
      if c3.fds.write == FD_CLOSED && !WritePending(c3) { SendCloseGraceful(c3, x); }
    }
  }

  lemma ChannelIoGraceful(c: Chan, x: bool, io: Io)
    requires Graceful(c, x) && Inv(c)
    ensures Graceful(ChannelIo(c, io), x)
  {
    hide Graceful, Inv, IoRead, IoWrite, CheckClose, CanRead, CanWrite;
    IoGraceful(c, x, false, io.read, None);
    IoReadKeeps(c, false, io.read);
    var c1 := IoRead(c, false, io.read);
    IoGraceful(c1, x, true, io.errRead, None);
    IoReadKeeps(c1, true, io.errRead);
    var c2 := IoRead(c1, true, io.errRead);
    IoGraceful(c2, x, false, None, io.write);
    IoWriteKeeps(c2, false, io.write);
    var c3 := IoWrite(c2, false, io.write);
    IoGraceful(c3, x, true, None, io.errWrite);
    IoWriteKeeps(c3, true, io.errWrite);
    CheckCloseGraceful(IoWrite(c3, true, io.errWrite), x, io.close);
  }

  lemma RecvFlagsGraceful(c: Chan, x: bool)
    requires Graceful(c, x)
    ensures Graceful(RecvEof(c), x) && Graceful(RecvClose(c), x)
  { }

  lemma ReceiveGraceful(c: Chan, x: bool, m: Msg, w: WriteResult, e: CloseEnv)
    requires Graceful(c, x) && Inv(c)
    ensures Receive(c, m, w, e).Next? ==> Graceful(Receive(c, m, w, e).c, x)
  {
    RecvFlagsGraceful(c, x);
    RecvFlagsKeep(c);
    hide Inv, CheckClose, RecvData, RecvEof, RecvClose;
    match m
    case Data(b) => RecvDataGraceful(c, x, false, b, w);
    case Extended(b) => RecvDataGraceful(c, x, true, b, w);
    case WindowAdjust(n) =>
    case Eof => CheckCloseGraceful(RecvEof(c), x, e);
    case Close => CheckCloseGraceful(RecvClose(c), x, e);
  }

  // ----- a graceful receiver, whatever the sender -----

  /** Without a failed write, r has everything that has arrived from s. */
  predicate Complete(s: Chan, r: Chan, k: nat, ext: bool) {
    k <= |s.tx.sent| && (!r.rx.broken ==> Stream(r.rx, ext) == Payload(s.tx.sent[..k], ext))
  }

  ghost predicate GoodNet(n: Net, ext: bool) {
    NetInv(n) && Graceful(n.b, ext) && Complete(n.a, n.b, n.toB, ext)
  }

  lemma SentComplete(s: Chan, s': Chan, r: Chan, k: nat, ext: bool)
    requires Complete(s, r, k, ext) && s.tx.sent <= s'.tx.sent
    ensures Complete(s', r, k, ext)
  {
    assert s'.tx.sent[..k] == s.tx.sent[..k];
  }

  lemma QuietComplete(s: Chan, r: Chan, r': Chan, k: nat, ext: bool)
    requires Complete(s, r, k, ext) && Quiet(r, r')
    ensures Complete(s, r', k, ext)
  {
    hide Outflow, Inflow, Payload, Stream;
  }

  lemma TookComplete(s: Chan, r: Chan, r': Chan, k: nat, ext: bool, x: bool)
    requires Complete(s, r, k, x) && k < |s.tx.sent| && Graceful(r, x) && !r.flags.recvEof
    requires (if ext then s.tx.sent[k].Extended? else s.tx.sent[k].Data?) && Took(r, r', ext, s.tx.sent[k].bytes)
    ensures Complete(s, r', k + 1, x)
  {
    SumsAt(s.tx.sent, k);
    var p := Payload(s.tx.sent[..k], x);
    assert p + [] == p;
    hide Outflow, Inflow, Payload, Stream;
  }

  lemma ControlComplete(s: Chan, r: Chan, r': Chan, k: nat, x: bool)
    requires Complete(s, r, k, x) && k < |s.tx.sent| && !s.tx.sent[k].Data? && !s.tx.sent[k].Extended? && r'.rx == r.rx
    ensures Complete(s, r', k + 1, x)
  {
    SumsAt(s.tx.sent, k);
    var p := Payload(s.tx.sent[..k], x);
    assert p + [] == p;
  }

  /** Handling a message only adds to what a side has sent. */
  lemma ReceiveSent(r: Chan, m: Msg, w: WriteResult, e: CloseEnv)
    requires Inv(r) && r.tx.window < 0x1_0000_0000 && MsgBytes(m) <= r.rx.window
    ensures Receive(r, m, w, e).Next? ==> r.tx.sent <= Receive(r, m, w, e).c.tx.sent
  {
    hide CheckClose, RecvData, Inv;
    match m
    case Data(b) => if !r.flags.recvEof { RecvDataTook(r, false, b, w); } else { AfterEof(r, false, b, w); }
    case Extended(b) => if !r.flags.recvEof { RecvDataTook(r, true, b, w); } else { AfterEof(r, true, b, w); }
    case WindowAdjust(n) =>
    case Eof => CheckCloseQuiet(RecvEof(r), e);
    case Close => CheckCloseQuiet(RecvClose(r), e);
  }

  lemma AfterEof(r: Chan, ext: bool, data: seq<byte>, w: WriteResult)
    requires r.flags.recvEof
    ensures RecvData(r, ext, data, w).Exit?
  { }

  lemma ReceiveComplete(s: Chan, r: Chan, k: nat, m: nat, w: WriteResult, e: CloseEnv, x: bool)
    requires Inv(s) && Inv(r) && Link(s, r, k, m) && Link(r, s, m, k) && k < |s.tx.sent|
    requires Graceful(r, x) && Complete(s, r, k, x)
    ensures var o := Receive(r, s.tx.sent[k], w, e);
            o.Next? && Complete(s, o.c, k + 1, x)
  {
    var msg := s.tx.sent[k];
    NextFits(s, r, k, m);
    NothingAfterEnd(s, r, k);
    assert !r.flags.removed by { hide PhaseOf; }
    InFlightLink(r, s, m, k);
    hide Link, Quiet, CheckClose, RecvData;
    match msg
    case Data(b) =>
      RecvDataTook(r, false, b, w);
      hide Inv;
      TookComplete(s, r, RecvData(r, false, b, w).c, k, false, x);
    case Extended(b) =>
      RecvDataTook(r, true, b, w);
      hide Inv;
      TookComplete(s, r, RecvData(r, true, b, w).c, k, true, x);
    case WindowAdjust(n) =>
      ControlComplete(s, r, RecvAdjust(r, n), k, x);
    case Eof =>
      hide Inv;
      ControlComplete(s, r, RecvEof(r), k, x);
      CheckCloseQuiet(RecvEof(r), e);
      QuietComplete(s, RecvEof(r), CheckClose(RecvEof(r), e), k + 1, x);
    case Close =>
      hide Inv;
      ControlComplete(s, r, RecvClose(r), k, x);
      CheckCloseQuiet(RecvClose(r), e);
      QuietComplete(s, RecvClose(r), CheckClose(RecvClose(r), e), k + 1, x);
  }

  /** The sender's own turns only add to what it has sent. */
  lemma SenderIoGood(n: Net, io: Io, x: bool)
    requires GoodNet(n, x)
    ensures GoodNet(n.(a := ChannelIo(n.a, io)), x)
  {
    hide Inv, Link, Quiet, ChannelIo, Graceful, Complete;
    InFlightLink(n.a, n.b, n.toB, n.toA);
    IoKeeps(n, io);
    ChannelIoQuiet(n.a, io);
    QuietSent(n.a, ChannelIo(n.a, io));
    SentComplete(n.a, ChannelIo(n.a, io), n.b, n.toB, x);
  }

  lemma QuietSent(c: Chan, d: Chan)
    requires Quiet(c, d)
    ensures c.tx.sent <= d.tx.sent
  { }

  lemma ReceiverIoGood(n: Net, io: Io, x: bool)
    requires GoodNet(n, x)
    ensures GoodNet(n.(b := ChannelIo(n.b, io)), x)
  {
    hide Inv, Link, Quiet, ChannelIo, Graceful, Complete;
    InFlightLink(n.b, n.a, n.toA, n.toB);
    SwapInv(n);
    IoKeeps(Swap(n), io);
    SwapInv(Swap(n).(a := ChannelIo(n.b, io)));
    ChannelIoQuiet(n.b, io);
    ChannelIoGraceful(n.b, x, io);
    QuietComplete(n.a, n.b, ChannelIo(n.b, io), n.toB, x);
  }

  lemma DeliverToReceiverGood(n: Net, w: WriteResult, e: CloseEnv, x: bool)
    requires GoodNet(n, x)
    ensures Deliver(n, w, e).Running? && GoodNet(Deliver(n, w, e).net, x)
  {
    hide Inv, Link, Receive, Graceful, Complete;
    DeliverKeeps(n, w, e);
    if n.toB < |n.a.tx.sent| {
      ReceiveComplete(n.a, n.b, n.toB, n.toA, w, e, x);
      ReceiveGraceful(n.b, x, n.a.tx.sent[n.toB], w, e);
    }
  }

  lemma DeliverToSenderGood(n: Net, w: WriteResult, e: CloseEnv, x: bool)
    requires GoodNet(n, x)
    ensures Deliver(Swap(n), w, e).Running? && GoodNet(Swap(Deliver(Swap(n), w, e).net), x)
  {
    hide Inv, Receive, Graceful, Complete;
    SwapInv(n);
    DeliverKeeps(Swap(n), w, e);
    SwapInv(Deliver(Swap(n), w, e).net);
    if n.toA < |n.b.tx.sent| {
      NextFits(n.b, n.a, n.toA, n.toB);
      hide Link;
      InFlightLink(n.a, n.b, n.toB, n.toA);
      ReceiveSent(n.a, n.b.tx.sent[n.toA], w, e);
      SentComplete(n.a, Deliver(Swap(n), w, e).net.b, n.b, n.toB, x);
    }
    hide NetInv;
  }

  lemma HappenGood(n: Net, ev: Event, x: bool)
    requires GoodNet(n, x)
    ensures Happen(n, ev).Running? && GoodNet(Happen(n, ev).net, x)
  {
    hide GoodNet, Deliver, ChannelIo;
    match ev
    case IoA(io) => SenderIoGood(n, io, x);
    case IoB(io) => ReceiverIoGood(n, io, x);
    case DeliverToB(w, e) => DeliverToReceiverGood(n, w, e, x);
    case DeliverToA(w, e) => DeliverToSenderGood(n, w, e, x);
  }

  lemma {:induction false} RunGood(n: Net, events: seq<Event>, x: bool)
    requires GoodNet(n, x)
    ensures Run(n, events).Running? && GoodNet(Run(n, events).net, x)
    decreases |events|
  {
    hide GoodNet, Happen;
    if events != [] {
      HappenGood(n, events[0], x);
      RunGood(Happen(n, events[0]).net, events[1..], x);
    }
  }
}
