/** The channel object: fields updated in place over two ring buffers, refining the value model. */
module Channel {
  import opened Wrappers
  import opened Bytes
  import opened CircBuffer
  import opened ChannelModel

  /** Where received bytes went: written out, dropped on arrival, or lost to a failed write. */
  datatype Record = Record(toFd: seq<byte>, toErr: seq<byte>, dropped: nat, discarded: nat, broken: bool)

  class Endpoint {
    const conf: Config
    var fds: Fds
    var writebuf: CircBuf
    var extrabuf: CircBuf?
    var recvwindow: nat
    var recvdonelen: nat
    /** The transmit window, the peer's packet limit and the packets put on the wire. */
    var tx: Tx
    var flags: Flags
    ghost var record: Record
    ghost var queue: seq<byte>
    ghost var extra: Option<seq<byte>>

    /** The two ring buffers and their arrays. */
    ghost function Buffers(): set<object>
      reads this`writebuf, this`extrabuf, writebuf, extrabuf
    {
      {writebuf} + (if writebuf.data == null then {} else {writebuf.data})
      + (if extrabuf == null then {} else {extrabuf} + if extrabuf.data == null then {} else {extrabuf.data})
    }

    /** The buffers are sound, separate, as large as the receive window, and hold queue and extra. */
    ghost predicate Valid()
      reads this`writebuf, this`extrabuf, this`queue, this`extra, writebuf, extrabuf, Buffers()
    {
      && conf.recvWindow > 0
      && writebuf.Valid() && writebuf.size == conf.recvWindow && queue == writebuf.Contents()
      && (extrabuf == null ==> extra == None)
      && (extrabuf != null ==>
            && extrabuf != writebuf && extrabuf.Valid() && extrabuf.size == conf.recvWindow
            && extra == Some(extrabuf.Contents())
            && (extrabuf.data != null ==> extrabuf.data != writebuf.data))
    }

    /** The buffers' counters are those of queue and extra; this much of Valid() the closing of a channel needs. */
    ghost predicate Linked()
      reads this, writebuf, extrabuf
    {
      && (extrabuf == null <==> extra == None)
      && writebuf.used == |queue|
      && (extrabuf != null ==> extrabuf.used == |extra.value|)
    }

    /** Valid() depends on the buffers alone. */
    twostate lemma ValidKept()
      requires old(Valid()) && unchanged(this`writebuf, this`extrabuf, this`queue, this`extra)
      requires unchanged(old(Buffers()))
      ensures Valid()
    {
    }

    /** The object's state as a value. */
    ghost function View(): Chan
      reads this
    {
      Chan(conf, fds,
           Rx(queue, extra, recvwindow, recvdonelen, record.toFd, record.toErr, record.dropped, record.discarded,
              record.broken),
           tx, flags)
    }

    /** newchannel, for a channel whose descriptors the type's handler has set. */
    constructor (conf: Config, fds: Fds, withExtra: bool, transwindow: nat, transmaxpacket: nat)
      requires 0 < conf.recvWindow <= MAX_RECV_WINDOW
      ensures Valid() && fresh(Buffers())
      ensures View() == Chan(conf, fds,
                             Rx([], if withExtra then Some([]) else None, conf.recvWindow, 0, [], [], 0, 0, false),
                             Tx(transwindow, transmaxpacket, []),
                             Flags(false, false, false, false, false, false, false, 0))
    {
      this.conf, this.fds := conf, fds;
      writebuf := new CircBuf(conf.recvWindow);
      if withExtra {
        extrabuf := new CircBuf(conf.recvWindow);
      } else {
        extrabuf := null;
      }
      recvwindow, recvdonelen := conf.recvWindow, 0;
      tx := Tx(transwindow, transmaxpacket, []);
      flags := Flags(false, false, false, false, false, false, false, 0);
      record := Record([], [], 0, 0, false);
      queue, extra := [], if withExtra then Some([]) else None;
    }

    method CloseChanFd(fd: int, shutRd: bool)
      requires Linked()
      modifies this`fds
      ensures View() == CloseFd(old(View()), fd, shutRd)
    {
      var closein, closeout := false, false;
      if conf.sepfds {
        if shutRd { closeout := true; } else { closein := true; }
      } else {
        closein, closeout := true, true;
      }
      if closeout && fd == fds.read { fds := fds.(read := FD_CLOSED); }
      if closeout && extrabuf == null && fd == fds.err { fds := fds.(err := FD_CLOSED); }
      if closein && fd == fds.write { fds := fds.(write := FD_CLOSED); }
      if closein && extrabuf != null && fd == fds.err { fds := fds.(err := FD_CLOSED); }
    }

    method SendMsgChannelEof()
      requires Linked()
      modifies this`tx, this`flags
      ensures View() == SendEof(old(View()))
    {
      tx := tx.(sent := tx.sent + [Eof]);
      flags := flags.(sentEof := true);
    }

    method RunCloseHandler()
      modifies this`flags
      ensures View() == RunHandler(old(View()))
    {
      if conf.hasCloseHandler && !flags.handlerDone {
        flags := flags.(handlerRuns := flags.handlerRuns + 1, handlerDone := true);
      }
    }

    /** The packet and the flags of send_msg_channel_close. */
    method PutClose()
      modifies this`tx, this`flags
      ensures View() == CloseSent(old(View()))
    {
      RunCloseHandler();
      tx := tx.(sent := tx.sent + [Close]);
      flags := flags.(sentEof := true, sentClose := true);
    }

    method SendMsgChannelClose()
      requires Linked()
      modifies this`tx, this`flags, this`fds
      ensures View() == SendClose(old(View()))
    {
      hide CloseFd, CloseSent;
      PutClose();
      CloseChanFd(fds.read, true);
      CloseChanFd(fds.err, false);
      CloseChanFd(fds.write, false);
    }

    method RecvMsgChannelWindowAdjust(incr: nat)
      requires Linked()
      modifies this`tx
      ensures View() == RecvAdjust(old(View()), incr)
    {
      var n := if incr < TRANS_MAX_WIN_INCR then incr else TRANS_MAX_WIN_INCR;
      tx := tx.(window := U32(tx.window + n));
      tx := tx.(window := if tx.window < TRANS_MAX_WINDOW then tx.window else TRANS_MAX_WINDOW);
    }

    method SendMsgChannelData(ext: bool, r: ReadResult)
      requires Linked()
      modifies this`tx, this`fds
      ensures View() == SendData(old(View()), ext, r)
    {
      var fd := if ext then fds.err else fds.read;
      var maxlen := Min(Min(tx.window, tx.maxpacket), conf.payloadSize - 9 - (if ext then 4 else 0));
      if maxlen <= 0 { return; }
      if r.Interrupted? { return; }
      if r.Ended? || r.bytes == [] {
        CloseChanFd(fd, true);
        return;
      }
      var bytes := if |r.bytes| <= maxlen then r.bytes else r.bytes[..maxlen];
      tx := Tx(U32(tx.window - |bytes|), tx.maxpacket, tx.sent + [if ext then Extended(bytes) else Data(bytes)]);
      if flags.flushing && |bytes| < maxlen {
        CloseChanFd(fd, true);
      }
    }

    method RemoveChannel()
      modifies this`flags
      ensures View() == Remove(old(View()))
    {
      RunCloseHandler();
      flags := flags.(removed := true);
    }

    /** write_pending. */
    method HasWritePending() returns (pending: bool)
      requires Linked()
      ensures pending == WritePending(View())
    {
      if fds.write >= 0 && writebuf.used > 0 { return true; }
      return fds.err >= 0 && extrabuf != null && extrabuf.used > 0;
    }

    method CloseWriting(closeAllowed: bool)
      requires Linked()
      modifies this`fds
      ensures View() == CloseWriteSide(old(View()), closeAllowed)
    {
      hide WritePending, CloseFd;
      var pending := HasWritePending();
      if (flags.recvEof && !pending) || (conf.hasCheckClose && closeAllowed) {
        CloseChanFd(fds.write, false);
      }
    }

    method FlushReads(e: CloseEnv)
      requires Linked()
      modifies this`fds, this`tx
      ensures View() == Flush(old(View()), e)
    {
      hide SendData;
      if flags.flushing {
        if fds.read >= 0 && tx.window > 0 {
          SendMsgChannelData(false, e.flushData);
        }
        if extrabuf == null && fds.err >= 0 && tx.window > 0 {
          SendMsgChannelData(true, e.flushErr);
        }
      }
    }

    /** The end of check_close: EOF when there is nothing more to send, CLOSE when nothing more can be received. */
    method FinishSending(closeAllowed: bool)
      requires Linked()
      modifies this`fds, this`tx, this`flags
      ensures View() == CloseIfDone(EofIfDone(old(View())), closeAllowed)
    {
      hide SendClose, SendEof, WritePending;
      if !flags.sentEof && fds.read == FD_CLOSED && (extrabuf != null || fds.err == FD_CLOSED) {
        SendMsgChannelEof();
      }
      var pending := HasWritePending();
      if fds.read == FD_CLOSED && fds.write == FD_CLOSED && (extrabuf != null || fds.err == FD_CLOSED)
         && !flags.sentClose && closeAllowed && !pending {
        SendMsgChannelClose();
      }
    }

    /** A channel whose type says that its process has gone reads what is left. */
    method BeginFlushing(e: CloseEnv)
      modifies this`flags
      ensures View() == StartFlushing(old(View()), e)
    {
      if !flags.flushing && !flags.handlerDone && conf.hasCheckClose && e.typeExited {
        flags := flags.(flushing := true);
      }
    }

    method CheckCloseChannel(e: CloseEnv)
      requires Linked()
      modifies this`fds, this`tx, this`flags
      ensures View() == CheckClose(old(View()), e)
    {
      hide StartFlushing, SendClose, Remove, WritePending, CloseWriteSide, Flush, CloseIfDone, EofIfDone;
      BeginFlushing(e);
      var closeAllowed := !conf.hasCheckClose || flags.handlerDone || e.typeClosed;
      var pending := HasWritePending();
      if flags.recvClose && !pending && closeAllowed {
        if !flags.sentClose {
          SendMsgChannelClose();
        }
        RemoveChannel();
        return;
      }
      CloseWriting(closeAllowed);
      FlushReads(e);
      FinishSending(closeAllowed);
    }

    /** The ring buffer of normal data (ext false) or of extended data. */
    function Ringbuf(ext: bool): CircBuf?
      reads this`writebuf, this`extrabuf
    {
      if ext then extrabuf else writebuf
    }

    /** cbuf_incrread on one of the two buffers. */
    method TakeRead(ext: bool, len: nat)
      requires Valid() && Ringbuf(ext) != null && len <= |Buffer(View().rx, ext)|
      modifies this`queue, this`extra, Ringbuf(ext)`used, Ringbuf(ext)`readpos
      ensures Valid()
      ensures View() == old(View()).(rx := SetBuffer(old(View()).rx, ext, old(Buffer(View().rx, ext))[len..]))
    {
      hide CircBuf.Valid, CircBuf.Contents;
      if ext {
        extrabuf.IncrRead(len);
        extra := Some(extra.value[len..]);
      } else {
        writebuf.IncrRead(len);
        queue := queue[len..];
      }
    }

    /** The two runs of a buffer as writev is given them. */
    method Runs(ext: bool) returns (bytes: seq<byte>)
      requires Valid() && Ringbuf(ext) != null
      ensures bytes == Buffer(View().rx, ext)
    {
      var cbuf := Ringbuf(ext);
      var p1, len1, p2, len2 := cbuf.ReadPtrs();
      if cbuf.data == null { return []; }
      return cbuf.data[p1..p1 + len1] + cbuf.data[p2..len2];
    }

    /** A write error: the descriptor is closed for writing. */
    method FailWrite(ext: bool)
      requires Valid()
      modifies this`fds, this`record
      ensures Valid()
      ensures View() == CloseFd(old(View()).(rx := old(View()).rx.(broken := true)), WriteFd(old(View()), ext), false)
    {
      record := record.(broken := true);
      CloseChanFd(if ext then fds.err else fds.write, false);
      ValidKept();
    }

    /** writechannel_writev: consumed is the final *morelen, ok is DROPBEAR_SUCCESS. */
    method WritechannelWritev(ext: bool, more: Option<seq<byte>>, w: WriteResult) returns (consumed: nat, ok: bool)
      requires Valid() && Ringbuf(ext) != null
      modifies this`fds, this`recvdonelen, this`record, this`queue, this`extra, Ringbuf(ext)`used, Ringbuf(ext)`readpos
      ensures Valid()
      ensures WriteOutcome(View(), consumed, ok) == Writev(old(View()), ext, more, w)
    {
      hide CircBuf.Valid, CircBuf.Contents;
      var buffered := Runs(ext);
      if buffered == [] && more.None? {
        return 0, true;
      }
      var iov := buffered + if more.Some? then more.value else [];
      match w {
        case WouldBlock =>
          return 0, true;
        case Failed =>
          FailWrite(ext);
          return 0, false;
        case Wrote(n) =>
          var written := Min(n, |iov|);
          var cbufWritten := Min(|buffered|, written);
          TakeRead(ext, cbufWritten);
          NoteWritten(ext, iov, written);
          hide Valid, Linked, Min, U32;
          return written - cbufWritten, true;
      }
    }

    /** The count of written bytes, and the record of them. */
    method NoteWritten(ext: bool, iov: seq<byte>, written: nat)
      requires Valid() && Ringbuf(ext) != null && written <= |iov|
      modifies this`recvdonelen, this`record
      ensures Valid()
      ensures View() == old(View()).(rx := Accept(old(View()).rx, ext, iov, written, Buffer(old(View()).rx, ext)))
    {
      recvdonelen := U32(recvdonelen + written);
      record := if ext then record.(toErr := record.toErr + iov[..written])
                else record.(toFd := record.toFd + iov[..written]);
    }

    /** The end of writechannel: a window adjust when a third of the window has been written. */
    method AdjustWindow()
      requires Valid()
      modifies this`recvdonelen, this`recvwindow, this`tx
      ensures Valid() && View() == Adjust(old(View()))
    {
      if recvdonelen >= conf.recvWindow / 3 {
        tx := tx.(sent := tx.sent + [WindowAdjust(recvdonelen)]);
        recvwindow := U32(recvwindow + recvdonelen);
        recvdonelen := 0;
      }
    }

    method Writechannel(ext: bool, more: Option<seq<byte>>, w: WriteResult) returns (consumed: nat, ok: bool)
      requires Valid() && Ringbuf(ext) != null
      modifies this`fds, this`recvdonelen, this`recvwindow, this`tx, this`record, this`queue, this`extra
      modifies Ringbuf(ext)`used, Ringbuf(ext)`readpos
      ensures Valid()
      ensures WriteOutcome(View(), consumed, ok) == WriteChannel(old(View()), ext, more, w)
    {
      hide CircBuf.Valid, CircBuf.Contents, Writev, Adjust;
      consumed, ok := WritechannelWritev(ext, more, w);
      AdjustWindow();
    }

    /** The copy loop on one of the two buffers: rest always fits, in at most two rounds. */
    method CopyAll(ext: bool, rest: seq<byte>) returns (rounds: nat)
      requires Valid() && Ringbuf(ext) != null && |Buffer(View().rx, ext)| + |rest| <= conf.recvWindow
      modifies this`queue, this`extra, Ringbuf(ext), Ringbuf(ext).data
      ensures Valid() && fresh(Buffers() - old(Buffers()))
      ensures View() == old(View()).(rx := SetBuffer(old(View()).rx, ext, old(Buffer(View().rx, ext)) + rest))
      ensures rounds <= 2
    {
      hide CircBuf.Valid, CircBuf.Contents;
      if ext {
        rounds := extrabuf.AppendAll(rest);
        extra := Some(extra.value + rest);
      } else {
        rounds := writebuf.AppendAll(rest);
        queue := queue + rest;
      }
    }

    /** common_recv_msg_channel_data; a value in exit is the reason of dropbear_exit. */
    method CommonRecvMsgChannelData(ext: bool, data: seq<byte>, w: WriteResult) returns (exit: Option<string>)
      requires Valid()
      modifies this, Buffers()
      ensures exit == None ==> Valid() && fresh(Buffers() - old(Buffers()))
      ensures exit == None ==> RecvData(old(View()), ext, data, w) == Next(View())
      ensures exit != None ==> RecvData(old(View()), ext, data, w) == Exit(exit.value)
    {
      hide CircBuf.Valid, CircBuf.Contents, WriteChannel;
      if flags.recvEof {
        return Some("Received data after eof");
      }
      if (if ext then fds.err else fds.write) < 0 || Ringbuf(ext) == null {
        record := record.(dropped := record.dropped + |data|);
        return None;
      }
      var maxdata := Ringbuf(ext).GetAvail();
      if |data| > maxdata {
        return Some("Oversized packet");
      }
      ReceiveFitting(ext, data, w);
      return None;
    }

    /** The part of common_recv_msg_channel_data after its checks. */
    method ReceiveFitting(ext: bool, data: seq<byte>, w: WriteResult)
      requires Valid() && Ringbuf(ext) != null && |Buffer(View().rx, ext)| + |data| <= conf.recvWindow
      modifies this`fds, this`recvwindow, this`recvdonelen, this`tx, this`record, this`queue, this`extra
      modifies Ringbuf(ext), Ringbuf(ext).data
      ensures Valid() && fresh(Buffers() - old(Buffers()))
      ensures View() == Settle(WriteChannel(TakeWindow(old(View()), |data|), ext, Some(data), w), ext, data)
    {
      hide CircBuf.Valid, CircBuf.Contents, WriteChannel;
      ShrinkWindow(|data|);
      WriteChannelShrinks(View(), ext, data, w);
      var consumed, ok := Writechannel(ext, Some(data), w);
      if ok {
        var rounds := CopyAll(ext, data[consumed..]);
      } else {
        record := record.(discarded := record.discarded + |data[consumed..]|);
      }
    }

    /** recv_msg_channel_eof, then check_close. */
    method RecvMsgChannelEof(e: CloseEnv)
      requires Valid()
      modifies this`fds, this`tx, this`flags
      ensures Valid() && View() == CheckClose(RecvEof(old(View())), e)
    {
      hide CheckClose;
      flags := flags.(recvEof := true);
      CheckCloseChannel(e);
      ValidKept();
    }

    /** recv_msg_channel_close, then check_close. */
    method RecvMsgChannelClose(e: CloseEnv)
      requires Valid()
      modifies this`fds, this`tx, this`flags
      ensures Valid() && View() == CheckClose(RecvClose(old(View())), e)
    {
      hide CheckClose;
      flags := flags.(recvEof := true, recvClose := true);
      CheckCloseChannel(e);
      ValidKept();
    }

    /** channelio's read of one descriptor; selected says whether it counts as activity. */
    method TryRead(ext: bool, r: Option<ReadResult>) returns (selected: bool)
      requires Valid()
      modifies this`tx, this`fds
      ensures Valid() && selected == CanRead(old(View()), ext, r) && View() == IoRead(old(View()), ext, r)
    {
      hide SendData;
      selected := r.Some? && if ext then extrabuf == null && fds.err >= 0 else fds.read >= 0;
      if selected {
        SendMsgChannelData(ext, r.value);
        ValidKept();
      }
    }

    /** channelio's write of one descriptor. */
    method TryWrite(ext: bool, w: Option<WriteResult>) returns (selected: bool)
      requires Valid()
      modifies this`fds, this`recvdonelen, this`recvwindow, this`tx, this`record, this`queue, this`extra, writebuf,
               extrabuf
      ensures Valid() && Buffers() == old(Buffers())
      ensures selected == CanWrite(old(View()), ext, w) && View() == IoWrite(old(View()), ext, w)
    {
      hide WriteChannel, CircBuf.Valid, CircBuf.Contents;
      selected := w.Some? && Ringbuf(ext) != null && (if ext then fds.err else fds.write) >= 0;
      if selected {
        var consumed, ok := Writechannel(ext, None, w.value);
      }
    }

    method Channelio(io: Io)
      requires Valid()
      modifies this, Buffers()
      ensures Valid() && Buffers() == old(Buffers()) && View() == ChannelIo(old(View()), io)
    {
      hide Valid, IoRead, IoWrite, CheckClose, CanRead, CanWrite;
      if flags.removed { return; }
      var r := TryRead(false, io.read);
      var re := TryRead(true, io.errRead);
      var w := TryWrite(false, io.write);
      var we := TryWrite(true, io.errWrite);
      if r || re || w || we || io.signal {
        CheckCloseKeeping(io.close);
      }
    }

    method CheckCloseKeeping(e: CloseEnv)
      requires Valid()
      modifies this`fds, this`tx, this`flags
      ensures Valid() && View() == CheckClose(old(View()), e)
    {
      CheckCloseChannel(e);
      ValidKept();
    }

    method ShrinkWindow(n: nat)
      requires Valid()
      modifies this`recvwindow
      ensures Valid() && View() == TakeWindow(old(View()), n)
    {
      recvwindow := U32(recvwindow - n);
    }
  }

  /** writev never leaves more bytes queued than were queued or offered. */
  lemma WriteChannelShrinks(c: Chan, ext: bool, data: seq<byte>, w: WriteResult)
    requires HasBuffer(c, ext)
    ensures var r := WriteChannel(c, ext, Some(data), w);
            |Buffer(r.c.rx, ext)| <= |Buffer(c.rx, ext)|
  { }
}
