/**
 One channel endpoint as a value: every operation of the channel layer is a function from state to
 state. Results of read() and writev() are arguments; messages go to the end of `sent`.
 */
module ChannelModel {
  import opened Wrappers
  import opened Bytes

  const FD_CLOSED := -1
  const TRANS_MAX_WINDOW := 500000000
  const TRANS_MAX_WIN_INCR := 500000000
  const MAX_RECV_WINDOW := 1024 * 1024

  datatype Msg = Data(bytes: seq<byte>) | Extended(bytes: seq<byte>) | WindowAdjust(incr: nat) | Eof | Close

  /** What read() has to offer: bytes (cut to the request), end of file or an error, or EINTR. */
  datatype ReadResult = Got(bytes: seq<byte>) | Ended | Interrupted

  /** What writev() does: accepts up to n bytes, EINTR or EAGAIN, or another error. */
  datatype WriteResult = Wrote(n: nat) | WouldBlock | Failed

  /** The constant parts of a channel: options and the ChanType entries that matter here. */
  datatype Config = Config(recvWindow: nat, payloadSize: nat, sepfds: bool, hasCheckClose: bool, hasCloseHandler: bool)

  datatype Fds = Fds(read: int, write: int, err: int)

  /**
   The receiving direction; toFd, toErr, dropped and discarded record where received bytes went, broken a failed
   write.
   */
  datatype Rx = Rx(writebuf: seq<byte>, extrabuf: Option<seq<byte>>, window: nat, donelen: nat,
                   toFd: seq<byte>, toErr: seq<byte>, dropped: nat, discarded: nat, broken: bool)
  {
    function Extra(): seq<byte> { if extrabuf.Some? then extrabuf.value else [] }
  }

  /** The sending direction; sent is every message sent so far. */
  datatype Tx = Tx(window: nat, maxpacket: nat, sent: seq<Msg>)

  datatype Flags = Flags(sentEof: bool, recvEof: bool, sentClose: bool, recvClose: bool,
                         handlerDone: bool, flushing: bool, removed: bool, handlerRuns: nat)

  datatype Chan = Chan(conf: Config, fds: Fds, rx: Rx, tx: Tx, flags: Flags)
  {
    predicate ErrIsWrite() { rx.extrabuf.Some? }
  }

  function Push(c: Chan, m: Msg): Chan {
    c.(tx := c.tx.(sent := c.tx.sent + [m]))
  }

  /** close_chan_fd; shutRd is how == SHUT_RD. */
  function CloseFd(c: Chan, fd: int, shutRd: bool): Chan {
    var closeout := !c.conf.sepfds || shutRd;
    var closein := !c.conf.sepfds || !shutRd;
    c.(fds := Fds(
      if closeout && fd == c.fds.read then FD_CLOSED else c.fds.read,
      if closein && fd == c.fds.write then FD_CLOSED else c.fds.write,
      if fd == c.fds.err && (if c.ErrIsWrite() then closein else closeout) then FD_CLOSED else c.fds.err))
  }

  function RunHandler(c: Chan): Chan {
    if c.conf.hasCloseHandler && !c.flags.handlerDone
    then c.(flags := c.flags.(handlerRuns := c.flags.handlerRuns + 1, handlerDone := true)) else c
  }

  function CloseSent(c: Chan): Chan {
    var c0 := Push(RunHandler(c), Close);
    c0.(flags := c0.flags.(sentEof := true, sentClose := true))
  }

  function SendClose(c: Chan): Chan {
    var c1 := CloseSent(c);
    var c2 := CloseFd(c1, c1.fds.read, true);
    var c3 := CloseFd(c2, c2.fds.err, false);
    CloseFd(c3, c3.fds.write, false)
  }

  function SendEof(c: Chan): Chan {
    var c0 := Push(c, Eof);
    c0.(flags := c0.flags.(sentEof := true))
  }

  /** The window-adjust part of writechannel. */
  function Adjust(c: Chan): Chan {
    if c.rx.donelen >= c.conf.recvWindow / 3
    then Push(c, WindowAdjust(c.rx.donelen)).(rx := c.rx.(window := U32(c.rx.window + c.rx.donelen), donelen := 0))
    else c
  }

  // the buffer and the descriptor of normal data (ext false) or of extended data (ext true)
  function Buffer(rx: Rx, ext: bool): seq<byte> { if ext then rx.Extra() else rx.writebuf }
  function Written(rx: Rx, ext: bool): seq<byte> { if ext then rx.toErr else rx.toFd }
  function WriteFd(c: Chan, ext: bool): int { if ext then c.fds.err else c.fds.write }
  predicate HasBuffer(c: Chan, ext: bool) { ext ==> c.ErrIsWrite() }

  function SetBuffer(rx: Rx, ext: bool, s: seq<byte>): Rx {
    if ext then rx.(extrabuf := Some(s)) else rx.(writebuf := s)
  }

  /** The first `written` bytes of what was offered reach the descriptor; `left` stays queued. */
  function Accept(rx: Rx, ext: bool, offered: seq<byte>, written: nat, left: seq<byte>): Rx
    requires written <= |offered|
  {
    var rx1 := rx.(donelen := U32(rx.donelen + written));
    if ext then rx1.(toErr := rx.toErr + offered[..written], extrabuf := Some(left))
    else rx1.(toFd := rx.toFd + offered[..written], writebuf := left)
  }

  datatype WriteOutcome = WriteOutcome(c: Chan, consumed: nat, ok: bool)

  /** writechannel_writev: the buffered bytes, then `more`, are offered to writev. */
  function Writev(c: Chan, ext: bool, more: Option<seq<byte>>, w: WriteResult): (r: WriteOutcome)
    requires HasBuffer(c, ext)
    ensures r.consumed <= if more.Some? then |more.value| else 0
  {
    var buf := Buffer(c.rx, ext);
    var offered := buf + (if more.Some? then more.value else []);
    if buf == [] && more.None? then WriteOutcome(c, 0, true)
    else match w
      case WouldBlock => WriteOutcome(c, 0, true)
      case Failed => WriteOutcome(CloseFd(c.(rx := c.rx.(broken := true)), WriteFd(c, ext), false), 0, false)
      case Wrote(n) =>
        var written := Min(n, |offered|);
        var fromBuf := Min(|buf|, written);
        WriteOutcome(c.(rx := Accept(c.rx, ext, offered, written, buf[fromBuf..])), written - fromBuf, true)
  }

  function WriteChannel(c: Chan, ext: bool, more: Option<seq<byte>>, w: WriteResult): (r: WriteOutcome)
    requires HasBuffer(c, ext)
    ensures r.consumed <= if more.Some? then |more.value| else 0
  {
    var r := Writev(c, ext, more, w);
    r.(c := Adjust(r.c))
  }

  /** Outcome of handling a message: the new state, or dropbear_exit. */
  datatype Outcome = Next(c: Chan) | Exit(why: string)

  /** Bytes that writev did not take are queued, or lost if it failed. */
  function Settle(r: WriteOutcome, ext: bool, data: seq<byte>): Chan
    requires r.consumed <= |data|
  {
    var rest := data[r.consumed..];
    if r.ok then r.c.(rx := SetBuffer(r.c.rx, ext, Buffer(r.c.rx, ext) + rest))
    else r.c.(rx := r.c.rx.(discarded := r.c.rx.discarded + |rest|))
  }

  /** common_recv_msg_channel_data. */
  function RecvData(c: Chan, ext: bool, data: seq<byte>, w: WriteResult): Outcome {
    if c.flags.recvEof then Exit("Received data after eof")
    else if WriteFd(c, ext) < 0 || !HasBuffer(c, ext) then Next(c.(rx := c.rx.(dropped := c.rx.dropped + |data|)))
    else if |data| > c.conf.recvWindow - |Buffer(c.rx, ext)| then Exit("Oversized packet")
    else Next(Settle(WriteChannel(TakeWindow(c, |data|), ext, Some(data), w), ext, data))
  }

  function TakeWindow(c: Chan, n: nat): Chan {
    c.(rx := c.rx.(window := U32(c.rx.window - n)))
  }

  function RecvAdjust(c: Chan, incr: nat): Chan {
    c.(tx := c.tx.(window := Min(U32(c.tx.window + Min(incr, TRANS_MAX_WIN_INCR)), TRANS_MAX_WINDOW)))
  }

  function MaxLen(c: Chan, ext: bool): int {
    Min(Min(c.tx.window, c.tx.maxpacket), c.conf.payloadSize - 9 - (if ext then 4 else 0))
  }

  function ReadFd(c: Chan, ext: bool): int { if ext then c.fds.err else c.fds.read }

  /** send_msg_channel_data. */
  function SendData(c: Chan, ext: bool, r: ReadResult): Chan {
    var maxlen := MaxLen(c, ext);
    if maxlen <= 0 then c
    else match r
      case Interrupted => c
      case Ended => CloseFd(c, ReadFd(c, ext), true)
      case Got(b) =>
        if b == [] then CloseFd(c, ReadFd(c, ext), true)
        else
          var bytes := if |b| <= maxlen then b else b[..maxlen];
          var c1 := c.(tx := SendBytes(c.tx, ext, bytes));
          if c.flags.flushing && |bytes| < maxlen then CloseFd(c1, ReadFd(c, ext), true) else c1
  }

  function SendBytes(tx: Tx, ext: bool, bytes: seq<byte>): Tx {
    tx.(sent := tx.sent + [if ext then Extended(bytes) else Data(bytes)], window := U32(tx.window - |bytes|))
  }

  predicate WritePending(c: Chan) {
    (c.fds.write >= 0 && c.rx.writebuf != []) || (c.fds.err >= 0 && c.rx.Extra() != [])
  }

  /** remove_channel. */
  function Remove(c: Chan): Chan {
    var c1 := RunHandler(c);
    c1.(flags := c1.flags.(removed := true))
  }

  /** What check_close may ask its surroundings: the type's check_close, twice, and reads while flushing. */
  datatype CloseEnv = CloseEnv(typeExited: bool, typeClosed: bool, flushData: ReadResult, flushErr: ReadResult)

  predicate CloseAllowed(c: Chan, e: CloseEnv) {
    !c.conf.hasCheckClose || c.flags.handlerDone || e.typeClosed
  }

  function StartFlushing(c: Chan, e: CloseEnv): Chan {
    if !c.flags.flushing && !c.flags.handlerDone && c.conf.hasCheckClose && e.typeExited
    then c.(flags := c.flags.(flushing := true)) else c
  }

  function CloseWriteSide(c: Chan, allowed: bool): Chan {
    if (c.flags.recvEof && !WritePending(c)) || (c.conf.hasCheckClose && allowed)
    then CloseFd(c, c.fds.write, false) else c
  }

  function Flush(c: Chan, e: CloseEnv): Chan {
    if !c.flags.flushing then c
    else
      var c1 := if c.fds.read >= 0 && c.tx.window > 0 then SendData(c, false, e.flushData) else c;
      if !c1.ErrIsWrite() && c1.fds.err >= 0 && c1.tx.window > 0 then SendData(c1, true, e.flushErr) else c1
  }

  predicate NoMoreToSend(c: Chan) {
    c.fds.read == FD_CLOSED && (c.ErrIsWrite() || c.fds.err == FD_CLOSED)
  }

  function EofIfDone(c: Chan): Chan {
    if !c.flags.sentEof && NoMoreToSend(c) then SendEof(c) else c
  }

  function CloseIfDone(c: Chan, allowed: bool): Chan {
    if NoMoreToSend(c) && c.fds.write == FD_CLOSED && !c.flags.sentClose && allowed && !WritePending(c)
    then SendClose(c) else c
  }

  /** check_close. */
  function CheckClose(c: Chan, e: CloseEnv): Chan {
    var c0 := StartFlushing(c, e);
    var allowed := CloseAllowed(c0, e);
    if c0.flags.recvClose && !WritePending(c0) && allowed then
      Remove(if c0.flags.sentClose then c0 else SendClose(c0))
    else
      CloseIfDone(EofIfDone(Flush(CloseWriteSide(c0, allowed), e)), allowed)
  }

  function RecvEof(c: Chan): Chan {
    c.(flags := c.flags.(recvEof := true))
  }

  function RecvClose(c: Chan): Chan {
    c.(flags := c.flags.(recvEof := true, recvClose := true))
  }

  /** One message from the peer. */
  function Receive(c: Chan, m: Msg, w: WriteResult, e: CloseEnv): Outcome {
    if c.flags.removed then Exit("Unknown channel")
    else match m
      case Data(b) => RecvData(c, false, b, w)
      case Extended(b) => RecvData(c, true, b, w)
      case WindowAdjust(n) => Next(RecvAdjust(c, n))
      case Eof => Next(CheckClose(RecvEof(c), e))
      case Close => Next(CheckClose(RecvClose(c), e))
  }

  /** The descriptors that select() reported for a channel, with what the system calls then do. */
  datatype Io = Io(read: Option<ReadResult>, errRead: Option<ReadResult>,
                   write: Option<WriteResult>, errWrite: Option<WriteResult>, signal: bool, close: CloseEnv)

  predicate CanRead(c: Chan, ext: bool, r: Option<ReadResult>) {
    r.Some? && if ext then !c.ErrIsWrite() && c.fds.err >= 0 else c.fds.read >= 0
  }

  predicate CanWrite(c: Chan, ext: bool, w: Option<WriteResult>) {
    w.Some? && HasBuffer(c, ext) && WriteFd(c, ext) >= 0
  }

  function IoRead(c: Chan, ext: bool, r: Option<ReadResult>): Chan {
    if CanRead(c, ext, r) then SendData(c, ext, r.value) else c
  }

  function IoWrite(c: Chan, ext: bool, w: Option<WriteResult>): Chan {
    if CanWrite(c, ext, w) then WriteChannel(c, ext, None, w.value).c else c
  }

  /** channelio for one channel. */
  function ChannelIo(c: Chan, io: Io): Chan {
    if c.flags.removed then c
    else
      var c1 := IoRead(c, false, io.read);
      var c2 := IoRead(c1, true, io.errRead);
      var c3 := IoWrite(c2, false, io.write);
      var c4 := IoWrite(c3, true, io.errWrite);
      if CanRead(c, false, io.read) || CanRead(c1, true, io.errRead) || CanWrite(c2, false, io.write)
         || CanWrite(c3, true, io.errWrite) || io.signal
      then CheckClose(c4, io.close) else c4
  }
}
