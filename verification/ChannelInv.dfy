/** What every operation of one channel endpoint keeps. */
module ChannelInv {
  import opened Wrappers
  import opened Bytes
  import opened ChannelModel

  // ----- the order of messages -----

  /** How far an endpoint has closed its direction of the channel; Bad is a protocol violation. */
  datatype Phase = Open | Half | Closed | Bad

  function NextPhase(p: Phase, m: Msg): Phase {
    match p
    case Open => (match m case Eof => Half case Close => Closed case _ => Open)
    case Half => (match m case WindowAdjust(_) => Half case Close => Closed case _ => Bad)
    case _ => Bad
  }

  function PhaseOf(log: seq<Msg>): Phase {
    if log == [] then Open else NextPhase(PhaseOf(log[..|log| - 1]), log[|log| - 1])
  }

  lemma PhasePush(log: seq<Msg>, m: Msg)
    ensures PhaseOf(log + [m]) == NextPhase(PhaseOf(log), m)
  {
    assert (log + [m])[..|log|] == log;
  }

  /** A log that is in order so far was in order at every earlier point. */
  lemma {:induction false} PhasePrefix(log: seq<Msg>, k: nat)
    requires k <= |log| && PhaseOf(log) != Bad
    ensures PhaseOf(log[..k]) != Bad
    decreases |log|
  {
    if k < |log| {
      PhasePrefix(log[..|log| - 1], k);
      assert log[..|log| - 1][..k] == log[..k];
    } else {
      assert log[..k] == log;
    }
  }

  /** Data, EOF and CLOSE leave the log in their own phase or not at all. */
  lemma PhaseAfter(log: seq<Msg>, k: nat)
    requires k < |log| && PhaseOf(log) != Bad
    ensures log[k].Close? ==> k == |log| - 1
    ensures log[k].Eof? ==> forall j :: k < j < |log| ==> log[j].WindowAdjust? || log[j].Close?
  {
    forall j | k < j < |log| && (log[k].Close? || log[k].Eof?)
      ensures log[k].Eof? && (log[j].WindowAdjust? || log[j].Close?)
    {
      PhasePrefix(log, j + 1);
      PhaseBetween(log[..j + 1], k);
    }
  }

  lemma {:induction false} PhaseBetween(log: seq<Msg>, k: nat)
    requires k < |log| && PhaseOf(log) != Bad && (log[k].Close? || log[k].Eof?)
    ensures PhaseOf(log) == Half || PhaseOf(log) == Closed
    ensures k < |log| - 1 ==> log[k].Eof? && (log[|log| - 1].WindowAdjust? || log[|log| - 1].Close?)
    ensures k < |log| - 1 ==> PhaseOf(log[..|log| - 1]) == Half
    ensures PhaseOf(log) == Half ==> log[k].Eof?
    decreases |log|
  {
    if k < |log| - 1 {
      var front := log[..|log| - 1];
      PhaseBetween(front, k);
    }
  }

  // ----- the invariant of an endpoint -----

  function ChannelPhase(f: Flags): Phase {
    if f.sentClose then Closed else if f.sentEof then Half else Open
  }

  /** Limits that option parsing and channel types guarantee. */
  predicate ConfigOk(c: Chan) {
    && 0 < c.conf.recvWindow <= MAX_RECV_WINDOW && c.conf.payloadSize >= 13
    && (c.conf.sepfds ==> c.rx.extrabuf.None? && c.fds.err == FD_CLOSED)
  }

  /** Which messages were sent agrees with the flags and with the open descriptors. */
  predicate Orderly(c: Chan) {
    && PhaseOf(c.tx.sent) == ChannelPhase(c.flags)
    && (c.flags.sentEof ==> NoMoreToSend(c))
    && (c.flags.sentClose ==> c.flags.sentEof && c.fds.write == FD_CLOSED && c.fds.err == FD_CLOSED)
    && (c.flags.recvClose ==> c.flags.recvEof)
    && (c.flags.removed ==> c.flags.recvClose && c.flags.sentClose)
    && c.flags.handlerRuns == (if c.flags.handlerDone then 1 else 0)
    && (c.flags.handlerDone <==> c.conf.hasCloseHandler && c.flags.sentClose)
  }

  function Total(rx: Rx): nat {
    rx.window + rx.donelen + |rx.writebuf| + |rx.Extra()| + rx.discarded
  }

  /**
   Every byte of the receive window is announced, waiting to be announced, queued or lost;
   `owed` bytes are on their way in.
   */
  predicate Accounted(c: Chan, owed: nat) {
    && Total(c.rx) + owed == c.conf.recvWindow
    && (c.rx.donelen == 0 || c.rx.donelen < c.conf.recvWindow / 3)
  }

  predicate Inv(c: Chan) {
    ConfigOk(c) && Orderly(c) && Accounted(c, 0)
  }

  // ----- operations keep it -----

  lemma CloseFdKeeps(c: Chan, fd: int, shutRd: bool)
    requires ConfigOk(c) && Orderly(c)
    ensures var d := CloseFd(c, fd, shutRd); ConfigOk(d) && Orderly(d)
  {
    hide PhaseOf;
  }

  lemma CloseFdInv(c: Chan, fd: int, shutRd: bool)
    requires Inv(c)
    ensures Inv(CloseFd(c, fd, shutRd))
  {
    CloseFdKeeps(c, fd, shutRd);
    hide Orderly, ConfigOk;
  }

  lemma SendBytesKeeps(c: Chan, ext: bool, bytes: seq<byte>)
    requires Inv(c) && !c.flags.sentEof
    ensures Inv(c.(tx := SendBytes(c.tx, ext, bytes)))
  {
    hide PhaseOf;
    PhasePush(c.tx.sent, if ext then Extended(bytes) else Data(bytes));
  }

  lemma SendDataKeeps(c: Chan, ext: bool, r: ReadResult)
    requires Inv(c) && CanRead(c, ext, Some(r))
    ensures Inv(SendData(c, ext, r))
  {
    var maxlen := MaxLen(c, ext);
    CloseFdInv(c, ReadFd(c, ext), true);
    assert !c.flags.sentEof;
    hide Inv, CloseFd, SendBytes;
    if r.Got? && r.bytes != [] && maxlen > 0 {
      var bytes := if |r.bytes| <= maxlen then r.bytes else r.bytes[..maxlen];
      SendBytesKeeps(c, ext, bytes);
      CloseFdInv(c.(tx := SendBytes(c.tx, ext, bytes)), ReadFd(c, ext), true);
    }
  }

  lemma AdjustKeeps(c: Chan, owed: nat)
    requires ConfigOk(c) && Orderly(c) && !c.flags.sentClose && Total(c.rx) + owed == c.conf.recvWindow
    ensures var d := Adjust(c); ConfigOk(d) && Orderly(d) && Accounted(d, owed)
  {
    hide PhaseOf;
    PhasePush(c.tx.sent, WindowAdjust(c.rx.donelen));
  }

  /** writev moves bytes from the queue and from the incoming data to the descriptor. */
  lemma WritevKeeps(c: Chan, ext: bool, more: Option<seq<byte>>, w: WriteResult)
    requires ConfigOk(c) && Orderly(c) && HasBuffer(c, ext)
    ensures var d := Writev(c, ext, more, w).c; ConfigOk(d) && Orderly(d) && HasBuffer(d, ext)
  {
    hide PhaseOf;
    CloseFdKeeps(c.(rx := c.rx.(broken := true)), WriteFd(c, ext), false);
  }

  lemma AcceptTotal(rx: Rx, ext: bool, more: seq<byte>, written: nat)
    requires ext ==> rx.extrabuf.Some?
    requires written <= |Buffer(rx, ext)| + |more| && Total(rx) + |more| <= MAX_RECV_WINDOW
    ensures var buf := Buffer(rx, ext);
            var d := Accept(rx, ext, buf + more, written, buf[Min(|buf|, written)..]);
            Total(d) + Min(|buf|, written) == Total(rx) + written
  { }

  lemma WritevAccounted(c: Chan, ext: bool, more: Option<seq<byte>>, w: WriteResult, owed: nat)
    requires Accounted(c, owed) && HasBuffer(c, ext) && c.conf.recvWindow <= MAX_RECV_WINDOW
    requires owed == if more.Some? then |more.value| else 0
    ensures var r := Writev(c, ext, more, w);
            && Total(r.c.rx) + (owed - r.consumed) == c.conf.recvWindow
            && r.c.conf == c.conf && r.c.flags == c.flags
  {
    var extra := if more.Some? then more.value else [];
    if w.Wrote? { AcceptTotal(c.rx, ext, extra, Min(w.n, |Buffer(c.rx, ext) + extra|)); }
    hide Total, Accept;
  }

  lemma WriteChannelKeeps(c: Chan, ext: bool, more: Option<seq<byte>>, w: WriteResult, owed: nat)
    requires ConfigOk(c) && Orderly(c) && Accounted(c, owed) && HasBuffer(c, ext) && !c.flags.sentClose
    requires owed == if more.Some? then |more.value| else 0
    ensures var r := WriteChannel(c, ext, more, w);
            && ConfigOk(r.c) && Orderly(r.c) && Accounted(r.c, owed - r.consumed) && HasBuffer(r.c, ext)
  {
    WritevKeeps(c, ext, more, w);
    WritevAccounted(c, ext, more, w, owed);
    var r := Writev(c, ext, more, w);
    AdjustKeeps(r.c, owed - r.consumed);
    hide Writev, ConfigOk, Orderly, Accounted;
  }

  /** What writev left of the data is queued, or lost when the write failed. */
  lemma SettleKeeps(r: WriteOutcome, ext: bool, data: seq<byte>)
    requires r.consumed <= |data| && HasBuffer(r.c, ext)
    requires ConfigOk(r.c) && Orderly(r.c) && Accounted(r.c, |data| - r.consumed)
    ensures Inv(Settle(r, ext, data))
  {
    hide PhaseOf;
  }

  lemma TakeWindowKeeps(c: Chan, n: nat)
    requires Inv(c) && n <= c.rx.window
    ensures var d := TakeWindow(c, n); ConfigOk(d) && Orderly(d) && Accounted(d, n)
  {
    hide PhaseOf;
  }

  lemma RecvDataKeeps(c: Chan, ext: bool, data: seq<byte>, w: WriteResult)
    requires Inv(c) && |data| <= c.rx.window
    ensures var o := RecvData(c, ext, data, w);
            (o.Next? ==> Inv(o.c)) && (o.Exit? ==> c.flags.recvEof)
  {
    hide PhaseOf, WriteChannel, Settle;
    if !c.flags.recvEof && WriteFd(c, ext) >= 0 && HasBuffer(c, ext) {
      TakeWindowKeeps(c, |data|);
      var c1 := TakeWindow(c, |data|);
      WriteChannelKeeps(c1, ext, Some(data), w, |data|);
      SettleKeeps(WriteChannel(c1, ext, Some(data), w), ext, data);
    }
  }

  lemma SendCloseKeeps(c: Chan)
    requires Inv(c) && !c.flags.sentClose
    ensures var d := SendClose(c); Inv(d) && d.flags.sentClose && d.flags.recvClose == c.flags.recvClose
  {
    hide PhaseOf;
    PhasePush(c.tx.sent, Close);
  }

  lemma RemoveKeeps(c: Chan)
    requires Inv(c) && c.flags.sentClose && c.flags.recvClose
    ensures Inv(Remove(c))
  {
    hide PhaseOf;
  }

  lemma EofIfDoneKeeps(c: Chan)
    requires Inv(c)
    ensures Inv(EofIfDone(c))
  {
    hide PhaseOf;
    PhasePush(c.tx.sent, Eof);
  }

  lemma FlushKeeps(c: Chan, e: CloseEnv)
    requires Inv(c)
    ensures Inv(Flush(c, e))
  {
    hide Inv, SendData;
    if c.flags.flushing {
      var c1 := if c.fds.read >= 0 && c.tx.window > 0 then SendData(c, false, e.flushData) else c;
      if c.fds.read >= 0 && c.tx.window > 0 { SendDataKeeps(c, false, e.flushData); }
      if !c1.ErrIsWrite() && c1.fds.err >= 0 && c1.tx.window > 0 { SendDataKeeps(c1, true, e.flushErr); }
    }
  }

  lemma StartFlushingKeeps(c: Chan, e: CloseEnv)
    requires Inv(c)
    ensures Inv(StartFlushing(c, e))
  {
    hide PhaseOf;
  }

  lemma CheckCloseKeeps(c: Chan, e: CloseEnv)
    requires Inv(c)
    ensures Inv(CheckClose(c, e))
  {
    hide Inv, StartFlushing, CloseFd, SendClose, Remove, Flush, EofIfDone, WritePending, NoMoreToSend;
    var c0 := StartFlushing(c, e);
    StartFlushingKeeps(c, e);
    var allowed := CloseAllowed(c0, e);
    if c0.flags.recvClose && !WritePending(c0) && allowed {
      if !c0.flags.sentClose { SendCloseKeeps(c0); }
      RemoveKeeps(if c0.flags.sentClose then c0 else SendClose(c0));
    } else {
      CloseFdInv(c0, c0.fds.write, false);
      var c1 := CloseWriteSide(c0, allowed);
      FlushKeeps(c1, e);
      EofIfDoneKeeps(Flush(c1, e));
      var c3 := EofIfDone(Flush(c1, e));
      if !c3.flags.sentClose { SendCloseKeeps(c3); }
    }
  }

  lemma IoReadKeeps(c: Chan, ext: bool, r: Option<ReadResult>)
    requires Inv(c)
    ensures Inv(IoRead(c, ext, r))
  {
    hide Inv, SendData;
    if CanRead(c, ext, r) { SendDataKeeps(c, ext, r.value); }
  }

  lemma IoWriteKeeps(c: Chan, ext: bool, w: Option<WriteResult>)
    requires Inv(c)
    ensures Inv(IoWrite(c, ext, w))
  {
    hide PhaseOf, WriteChannel;
    if CanWrite(c, ext, w) { WriteChannelKeeps(c, ext, None, w.value, 0); }
  }

  lemma ChannelIoKeeps(c: Chan, io: Io)
    requires Inv(c)
    ensures Inv(ChannelIo(c, io))
  {
    hide Inv, IoRead, IoWrite, CheckClose, CanRead, CanWrite;
    IoReadKeeps(c, false, io.read);
    var c1 := IoRead(c, false, io.read);
    IoReadKeeps(c1, true, io.errRead);
    var c2 := IoRead(c1, true, io.errRead);
    IoWriteKeeps(c2, false, io.write);
    var c3 := IoWrite(c2, false, io.write);
    IoWriteKeeps(c3, true, io.errWrite);
    CheckCloseKeeps(IoWrite(c3, true, io.errWrite), io.close);
  }

  lemma RecvFlagsKeep(c: Chan)
    requires Inv(c)
    ensures Inv(RecvEof(c)) && Inv(RecvClose(c))
  {
    hide PhaseOf;
  }

  /** A message within the window keeps the invariant; only data after EOF or a removed channel ends the program. */
  lemma ReceiveKeeps(c: Chan, m: Msg, w: WriteResult, e: CloseEnv)
    requires Inv(c)
    requires m.Data? || m.Extended? ==> |m.bytes| <= c.rx.window
    ensures var o := Receive(c, m, w, e);
            && (o.Next? ==> Inv(o.c))
            && (o.Exit? ==> c.flags.removed || (c.flags.recvEof && (m.Data? || m.Extended?)))
  {
    RecvFlagsKeep(c);
    hide PhaseOf, CheckClose, RecvData, RecvEof, RecvClose;
    match m
    case Data(b) => RecvDataKeeps(c, false, b, w);
    case Extended(b) => RecvDataKeeps(c, true, b, w);
    case WindowAdjust(n) =>
    case Eof => CheckCloseKeeps(RecvEof(c), e);
    case Close => CheckCloseKeeps(RecvClose(c), e);
  }
}
