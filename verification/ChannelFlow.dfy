/** What one endpoint's operations do to window credit, to the byte streams and to the descriptors. */
module ChannelFlow {
  import opened Wrappers
  import opened Bytes
  import opened ChannelModel
  import opened ChannelInv

  function MsgBytes(m: Msg): nat {
    if m.Data? || m.Extended? then |m.bytes| else 0
  }

  function MsgCredit(m: Msg): nat {
    if m.WindowAdjust? then m.incr else 0
  }

  function MsgPayload(m: Msg, ext: bool): seq<byte> {
    if (if ext then m.Extended? else m.Data?) then m.bytes else []
  }

  /** Data bytes, window credit and payload in a run of messages. */
  function Volume(log: seq<Msg>): nat {
    if log == [] then 0 else Volume(log[..|log| - 1]) + MsgBytes(log[|log| - 1])
  }

  function Credit(log: seq<Msg>): nat {
    if log == [] then 0 else Credit(log[..|log| - 1]) + MsgCredit(log[|log| - 1])
  }

  function Payload(log: seq<Msg>, ext: bool): seq<byte> {
    if log == [] then [] else Payload(log[..|log| - 1], ext) + MsgPayload(log[|log| - 1], ext)
  }

  lemma SumsPush(log: seq<Msg>, m: Msg)
    ensures Volume(log + [m]) == Volume(log) + MsgBytes(m)
    ensures Credit(log + [m]) == Credit(log) + MsgCredit(m)
  {
    assert (log + [m])[..|log|] == log;
  }

  lemma {:induction false} SumsGrow(log: seq<Msg>, k: nat)
    requires k <= |log|
    ensures Volume(log[..k]) <= Volume(log) && Credit(log[..k]) <= Credit(log)
    decreases |log|
  {
    if k < |log| {
      var front := log[..|log| - 1];
      SumsGrow(front, k);
      assert front[..k] == log[..k];
    } else {
      assert log[..k] == log;
    }
  }

  /** Everything this endpoint has sent or may still send. */
  function Outflow(c: Chan): nat {
    c.tx.window + Volume(c.tx.sent)
  }

  /** The receive window less all the credit that was announced for it. */
  function Inflow(c: Chan): int {
    c.rx.window - Credit(c.tx.sent)
  }

  /** Bytes received for the local side, written or still queued. */
  function Stream(rx: Rx, ext: bool): seq<byte> {
    Written(rx, ext) + Buffer(rx, ext)
  }

  /** c became d without receiving anything: flows and streams are the same, descriptors at most closed. */
  predicate Quiet(c: Chan, d: Chan) {
    && d.conf == c.conf && d.rx.extrabuf.Some? == c.rx.extrabuf.Some?
    && c.tx.sent <= d.tx.sent && Outflow(d) == Outflow(c) && Inflow(d) == Inflow(c)
    && d.rx.dropped == c.rx.dropped && (c.rx.broken ==> d.rx.broken)
    && Stream(d.rx, false) == Stream(c.rx, false) && Stream(d.rx, true) == Stream(c.rx, true)
    && d.flags.recvEof == c.flags.recvEof && d.flags.recvClose == c.flags.recvClose
    && (d.fds.write >= 0 ==> c.fds.write >= 0) && (d.fds.err >= 0 ==> c.fds.err >= 0)
  }

  lemma QuietTrans(c: Chan, d: Chan, e: Chan)
    requires Quiet(c, d) && Quiet(d, e)
    ensures Quiet(c, e)
  {
    hide Outflow, Inflow, Stream;
  }

  lemma CloseFdQuiet(c: Chan, fd: int, shutRd: bool)
    ensures Quiet(c, CloseFd(c, fd, shutRd))
  { }

  lemma PushQuiet(c: Chan, m: Msg, d: Chan)
    requires m.Eof? || m.Close?
    requires d.conf == c.conf && d.rx == c.rx && d.tx == Push(c, m).tx
    requires d.flags.recvEof == c.flags.recvEof && d.flags.recvClose == c.flags.recvClose && d.fds == c.fds
    ensures Quiet(c, d)
  {
    SumsPush(c.tx.sent, m);
    hide Volume, Credit;
  }

  lemma SendBytesQuiet(c: Chan, ext: bool, bytes: seq<byte>)
    requires |bytes| <= c.tx.window < 0x1_0000_0000
    ensures Quiet(c, c.(tx := SendBytes(c.tx, ext, bytes)))
  {
    SumsPush(c.tx.sent, if ext then Extended(bytes) else Data(bytes));
    hide Volume, Credit;
  }

  lemma SendDataQuiet(c: Chan, ext: bool, r: ReadResult)
    requires c.tx.window < 0x1_0000_0000
    ensures Quiet(c, SendData(c, ext, r))
  {
    var maxlen := MaxLen(c, ext);
    hide Quiet, CloseFd, SendBytes;
    CloseFdQuiet(c, ReadFd(c, ext), true);
    QuietSelf(c);
    if r.Got? && r.bytes != [] && maxlen > 0 {
      var bytes := if |r.bytes| <= maxlen then r.bytes else r.bytes[..maxlen];
      var c1 := c.(tx := SendBytes(c.tx, ext, bytes));
      SendBytesQuiet(c, ext, bytes);
      CloseFdQuiet(c1, ReadFd(c, ext), true);
      QuietTrans(c, c1, CloseFd(c1, ReadFd(c, ext), true));
    }
  }

  lemma QuietSelf(c: Chan)
    ensures Quiet(c, c)
  { }

  lemma AdjustQuiet(c: Chan)
    requires c.rx.window + c.rx.donelen < 0x1_0000_0000
    ensures Quiet(c, Adjust(c))
  {
    SumsPush(c.tx.sent, WindowAdjust(c.rx.donelen));
    hide Volume, Credit;
  }

  /** Accepted bytes move from the queue to the descriptor, in order. */
  lemma AcceptStream(rx: Rx, ext: bool, more: seq<byte>, written: nat)
    requires ext ==> rx.extrabuf.Some?
    requires written <= |Buffer(rx, ext)| + |more|
    ensures var buf := Buffer(rx, ext);
            var fromBuf := Min(|buf|, written);
            var d := Accept(rx, ext, buf + more, written, buf[fromBuf..]);
            && Stream(d, ext) == Stream(rx, ext) + more[..written - fromBuf]
            && Stream(d, !ext) == Stream(rx, !ext)
            && (written > |buf| ==> Buffer(d, ext) == [])
  {
    var buf := Buffer(rx, ext);
    if written <= |buf| {
      assert (buf + more)[..written] + buf[written..] == buf;
    } else {
      assert (buf + more)[..written] == buf + more[..written - |buf|];
    }
  }

  lemma WritevQuiet(c: Chan, ext: bool, w: WriteResult)
    requires HasBuffer(c, ext)
    ensures Quiet(c, Writev(c, ext, None, w).c)
  {
    CloseFdQuiet(c.(rx := c.rx.(broken := true)), WriteFd(c, ext), false);
    var buf := Buffer(c.rx, ext);
    if w.Wrote? { AcceptStream(c.rx, ext, [], Min(w.n, |buf|)); }
    assert buf + [] == buf;
    hide Volume, Credit, Stream;
  }

  lemma QuietWindow(c: Chan, d: Chan)
    requires Quiet(c, d)
    ensures d.tx.window <= c.tx.window
  {
    SumsGrow(d.tx.sent, |c.tx.sent|);
    assert d.tx.sent[..|c.tx.sent|] == c.tx.sent;
    hide Volume, Credit, Stream;
  }

  lemma IoReadQuiet(c: Chan, ext: bool, r: Option<ReadResult>)
    requires c.tx.window < 0x1_0000_0000
    ensures Quiet(c, IoRead(c, ext, r))
  {
    QuietSelf(c);
    if CanRead(c, ext, r) { SendDataQuiet(c, ext, r.value); }
  }

  lemma IoWriteQuiet(c: Chan, ext: bool, w: Option<WriteResult>)
    requires Inv(c)
    ensures Quiet(c, IoWrite(c, ext, w))
  {
    QuietSelf(c);
    if CanWrite(c, ext, w) {
      WritevQuiet(c, ext, w.value);
      WritevAccounted(c, ext, None, w.value, 0);
      var d := Writev(c, ext, None, w.value).c;
      assert d.rx.window + d.rx.donelen < 0x1_0000_0000 by { hide Writev; }
      hide Quiet, Writev, Inv;
      AdjustQuiet(d);
      QuietTrans(c, d, Adjust(d));
    }
  }

  lemma SendCloseQuiet(c: Chan)
    ensures Quiet(c, SendClose(c))
  {
    var c0 := Push(RunHandler(c), Close);
    var c1 := c0.(flags := c0.flags.(sentEof := true, sentClose := true));
    PushQuiet(c, Close, c1);
    var c2 := CloseFd(c1, c1.fds.read, true);
    var c3 := CloseFd(c2, c2.fds.err, false);
    var c4 := CloseFd(c3, c3.fds.write, false);
    CloseFdQuiet(c1, c1.fds.read, true);
    CloseFdQuiet(c2, c2.fds.err, false);
    CloseFdQuiet(c3, c3.fds.write, false);
    assert c4 == SendClose(c);
    hide Quiet, CloseFd, SendClose;
    QuietTrans(c, c1, c2);
    QuietTrans(c, c2, c3);
    QuietTrans(c, c3, c4);
  }

  lemma FlushQuiet(c: Chan, e: CloseEnv)
    requires c.tx.window < 0x1_0000_0000
    ensures Quiet(c, Flush(c, e))
  {
    hide Quiet, SendData;
    QuietSelf(c);
    if c.flags.flushing {
      SendDataQuiet(c, false, e.flushData);
      var c1 := if c.fds.read >= 0 && c.tx.window > 0 then SendData(c, false, e.flushData) else c;
      QuietWindow(c, c1);
      SendDataQuiet(c1, true, e.flushErr);
      QuietTrans(c, c1, SendData(c1, true, e.flushErr));
    }
  }

  /** Setting flags other than the received ones. */
  lemma FlagsQuiet(c: Chan, f: Flags)
    requires f.recvEof == c.flags.recvEof && f.recvClose == c.flags.recvClose
    ensures Quiet(c, c.(flags := f))
  { }

  lemma EofIfDoneQuiet(c: Chan)
    ensures Quiet(c, EofIfDone(c))
  {
    QuietSelf(c);
    PushQuiet(c, Eof, SendEof(c));
  }

  lemma RemoveQuiet(c: Chan)
    ensures Quiet(c, Remove(c))
  {
    FlagsQuiet(c, Remove(c).flags);
  }

  lemma StartFlushingQuiet(c: Chan, e: CloseEnv)
    ensures Quiet(c, StartFlushing(c, e))
  {
    FlagsQuiet(c, StartFlushing(c, e).flags);
    QuietSelf(c);
    hide Quiet;
  }

  lemma CloseWriteSideQuiet(c: Chan, allowed: bool)
    ensures Quiet(c, CloseWriteSide(c, allowed))
  {
    hide Quiet, CloseFd;
    QuietSelf(c);
    CloseFdQuiet(c, c.fds.write, false);
  }

  lemma CloseIfDoneQuiet(c: Chan, allowed: bool)
    ensures Quiet(c, CloseIfDone(c, allowed))
  {
    hide Quiet, SendClose;
    QuietSelf(c);
    SendCloseQuiet(c);
  }

  /** The part of check_close for a channel that goes on. */
  lemma GoOnQuiet(c: Chan, allowed: bool, e: CloseEnv)
    requires c.tx.window < 0x1_0000_0000
    ensures Quiet(c, CloseIfDone(EofIfDone(Flush(CloseWriteSide(c, allowed), e)), allowed))
  {
    hide Quiet, CloseWriteSide, Flush, EofIfDone, CloseIfDone;
    var c1 := CloseWriteSide(c, allowed);
    CloseWriteSideQuiet(c, allowed);
    QuietWindow(c, c1);
    var c2 := Flush(c1, e);
    FlushQuiet(c1, e);
    QuietTrans(c, c1, c2);
    var c3 := EofIfDone(c2);
    EofIfDoneQuiet(c2);
    QuietTrans(c, c2, c3);
    CloseIfDoneQuiet(c3, allowed);
    QuietTrans(c, c3, CloseIfDone(c3, allowed));
  }

  lemma LeaveQuiet(c: Chan)
    ensures Quiet(c, Remove(if c.flags.sentClose then c else SendClose(c)))
  {
    hide Quiet, SendClose, Remove;
    QuietSelf(c);
    SendCloseQuiet(c);
    var d := if c.flags.sentClose then c else SendClose(c);
    RemoveQuiet(d);
    QuietTrans(c, d, Remove(d));
  }

  lemma CheckCloseQuiet(c: Chan, e: CloseEnv)
    requires c.tx.window < 0x1_0000_0000
    ensures Quiet(c, CheckClose(c, e))
  {
    var c0 := StartFlushing(c, e);
    assert c0.tx == c.tx;
    hide Quiet, StartFlushing, CloseWriteSide, SendClose, Remove, Flush, EofIfDone, CloseIfDone, WritePending,
      CloseAllowed;
    StartFlushingQuiet(c, e);
    var allowed := CloseAllowed(c0, e);
    GoOnQuiet(c0, allowed, e);
    LeaveQuiet(c0);
    QuietTrans(c, c0, CheckClose(c, e));
  }

  lemma ChannelIoQuiet(c: Chan, io: Io)
    requires Inv(c) && c.tx.window < 0x1_0000_0000
    ensures Quiet(c, ChannelIo(c, io))
  {
    hide Quiet, Inv, IoRead, IoWrite, CheckClose, CanRead, CanWrite;
    QuietSelf(c);
    IoReadQuiet(c, false, io.read);
    IoReadKeeps(c, false, io.read);
    var c1 := IoRead(c, false, io.read);
    QuietWindow(c, c1);
    IoReadQuiet(c1, true, io.errRead);
    IoReadKeeps(c1, true, io.errRead);
    var c2 := IoRead(c1, true, io.errRead);
    QuietTrans(c, c1, c2);
    IoWriteQuiet(c2, false, io.write);
    IoWriteKeeps(c2, false, io.write);
    var c3 := IoWrite(c2, false, io.write);
    QuietTrans(c, c2, c3);
    IoWriteQuiet(c3, true, io.errWrite);
    var c4 := IoWrite(c3, true, io.errWrite);
    QuietTrans(c, c3, c4);
    QuietWindow(c, c4);
    CheckCloseQuiet(c4, io.close);
    QuietTrans(c, c4, CheckClose(c4, io.close));
  }

  // ----- receiving data -----

  /** d is c after taking in data: the window shrinks, or the data is dropped because nobody listens. */
  predicate Took(c: Chan, d: Chan, ext: bool, data: seq<byte>) {
    && d.conf == c.conf && d.rx.extrabuf.Some? == c.rx.extrabuf.Some?
    && c.tx.sent <= d.tx.sent && Outflow(d) == Outflow(c)
    && Inflow(d) - d.rx.dropped == Inflow(c) - c.rx.dropped - |data|
    && Stream(d.rx, !ext) == Stream(c.rx, !ext)
    && Stream(d.rx, ext) ==
       (if HasBuffer(c, ext) && WriteFd(d, ext) >= 0 then Stream(c.rx, ext) + data else Stream(c.rx, ext))
    && (c.rx.broken ==> d.rx.broken)
    && (HasBuffer(c, ext) && WriteFd(c, ext) >= 0 && WriteFd(d, ext) < 0 ==> d.rx.broken)
    && d.flags == c.flags
    && (d.fds.write >= 0 ==> c.fds.write >= 0) && (d.fds.err >= 0 ==> c.fds.err >= 0)
  }

  /** writev with incoming data: what it consumed has joined the stream, after everything queued. */
  predicate Offered(c: Chan, r: WriteOutcome, ext: bool, data: seq<byte>) {
    && r.consumed <= |data|
    && r.c.conf == c.conf && r.c.flags == c.flags
    && c.tx.sent <= r.c.tx.sent && Outflow(r.c) == Outflow(c) && Inflow(r.c) == Inflow(c)
    && r.c.rx.extrabuf.Some? == c.rx.extrabuf.Some? && HasBuffer(r.c, ext)
    && r.c.rx.dropped == c.rx.dropped && (c.rx.broken ==> r.c.rx.broken)
    && Stream(r.c.rx, !ext) == Stream(c.rx, !ext)
    && Stream(r.c.rx, ext) == Stream(c.rx, ext) + data[..r.consumed]
    && (r.consumed > 0 ==> Buffer(r.c.rx, ext) == [])
    && (r.ok ==> r.c.fds == c.fds) && (!r.ok ==> r.consumed == 0 && WriteFd(r.c, ext) < 0 && r.c.rx.broken)
    && (r.c.fds.write >= 0 ==> c.fds.write >= 0) && (r.c.fds.err >= 0 ==> c.fds.err >= 0)
  }

  lemma WritevOffered(c: Chan, ext: bool, data: seq<byte>, w: WriteResult)
    requires HasBuffer(c, ext)
    ensures Offered(c, Writev(c, ext, Some(data), w), ext, data)
  {
    var buf := Buffer(c.rx, ext);
    if w.Wrote? { AcceptStream(c.rx, ext, data, Min(w.n, |buf + data|)); }
    assert data[..0] == [];
    hide Stream;
    assert Stream(c.rx, ext) + [] == Stream(c.rx, ext);
    assert w.Failed? ==> c.(rx := c.rx.(broken := true)).rx.extrabuf == c.rx.extrabuf;
    BrokenStream(c.rx);
  }

  lemma BrokenStream(rx: Rx)
    ensures forall ext :: Stream(rx.(broken := true), ext) == Stream(rx, ext)
  { }

  lemma QueueRest(written: seq<byte>, queued: seq<byte>, before: seq<byte>, data: seq<byte>, consumed: nat)
    requires consumed <= |data| && written + queued == before + data[..consumed]
    ensures written + (queued + data[consumed..]) == before + data
  {
    var rest := data[consumed..];
    assert written + (queued + rest) == (written + queued) + rest;
    assert before + data[..consumed] + rest == before + (data[..consumed] + rest);
    assert data[..consumed] + rest == data;
  }

  /** The rest of the data goes to the queue, behind what was consumed. */
  lemma SettleTook(c: Chan, r: WriteOutcome, ext: bool, data: seq<byte>)
    requires HasBuffer(c, ext) && Offered(c, r, ext, data)
    ensures var d := Settle(r, ext, data);
            && d.conf == c.conf && d.tx == r.c.tx && d.flags == c.flags && d.fds == r.c.fds
            && d.rx.extrabuf.Some? == c.rx.extrabuf.Some?
            && d.rx.window == r.c.rx.window && d.rx.dropped == c.rx.dropped && (c.rx.broken || !r.ok ==> d.rx.broken)
            && Stream(d.rx, !ext) == Stream(c.rx, !ext)
            && Stream(d.rx, ext) == if r.ok then Stream(c.rx, ext) + data else Stream(c.rx, ext)
  {
    hide Outflow, Inflow;
    QueueRest(Written(r.c.rx, ext), Buffer(r.c.rx, ext), Stream(c.rx, ext), data, r.consumed);
    assert !r.ok ==> Stream(c.rx, ext) + data[..0] == Stream(c.rx, ext);
  }

  lemma WindowStream(rx: Rx, n: nat)
    ensures forall ext :: Stream(rx.(window := n), ext) == Stream(rx, ext)
  { }

  lemma RecvDataTook(c: Chan, ext: bool, data: seq<byte>, w: WriteResult)
    requires Inv(c) && !c.flags.recvEof && |data| <= c.rx.window
    ensures RecvData(c, ext, data, w).Next? && Took(c, RecvData(c, ext, data, w).c, ext, data)
  {
    RecvDataKeeps(c, ext, data, w);
    if WriteFd(c, ext) >= 0 && HasBuffer(c, ext) {
      var c1 := TakeWindow(c, |data|);
      WindowStream(c.rx, c1.rx.window);
      TakeWindowKeeps(c, |data|);
      WritevOffered(c1, ext, data, w);
      WritevAccounted(c1, ext, Some(data), w, |data|);
      var r := Writev(c1, ext, Some(data), w);
      TookRest(c, c1, r, ext, data);
    } else {
      DroppedStream(c.rx, c.rx.dropped + |data|);
      hide Inv, Stream, Volume, Credit;
    }
  }

  lemma DroppedStream(rx: Rx, n: nat)
    ensures forall ext :: Stream(rx.(dropped := n), ext) == Stream(rx, ext)
  { }

  lemma TookRest(c: Chan, c1: Chan, r: WriteOutcome, ext: bool, data: seq<byte>)
    requires HasBuffer(c, ext) && WriteFd(c, ext) >= 0
    requires c1 == c.(rx := c.rx.(window := c1.rx.window)) && c1.rx.window == c.rx.window - |data|
    requires Stream(c1.rx, false) == Stream(c.rx, false) && Stream(c1.rx, true) == Stream(c.rx, true)
    requires Offered(c1, r, ext, data) && r.c.rx.window + r.c.rx.donelen < 0x1_0000_0000
    ensures Took(c, Settle(r.(c := Adjust(r.c)), ext, data), ext, data)
  {
    var a := r.(c := Adjust(r.c));
    AdjustOffered(c1, r, ext, data);
    SettleTook(c1, a, ext, data);
    hide Stream, Volume, Credit, Settle, Adjust, Written, Buffer;
  }

  lemma AdjustOffered(c: Chan, r: WriteOutcome, ext: bool, data: seq<byte>)
    requires Offered(c, r, ext, data) && r.c.rx.window + r.c.rx.donelen < 0x1_0000_0000
    ensures Offered(c, r.(c := Adjust(r.c)), ext, data)
  {
    AdjustQuiet(r.c);
    hide Outflow, Inflow;
  }
}
