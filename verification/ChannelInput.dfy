/** From the bytes that an endpoint reads to the bytes that it sends. */
module ChannelInput {
  import opened Wrappers
  import opened Bytes
  import opened ChannelModel
  import opened ChannelInv
  import opened ChannelFlow
  import opened ChannelRun

  // ----- one read -----

  /** A read asks for as many bytes as the window, the peer's packet limit and the packet buffer all allow. */
  lemma MaxLenExactly(c: Chan, ext: bool, n: int)
    ensures n <= MaxLen(c, ext) <==>
            n <= c.tx.window && n <= c.tx.maxpacket && 1 + 4 + 4 + (if ext then 4 else 0) + n <= c.conf.payloadSize
  { }

  /** What read() returns of what is there: no more than it was asked for. */
  function Taken(c: Chan, ext: bool, r: ReadResult): seq<byte> {
    if r.Got? && MaxLen(c, ext) > 0 then r.bytes[..Min(|r.bytes|, MaxLen(c, ext))] else []
  }

  /** Packets with data are not empty, and fit the peer's limit and the packet buffer. */
  predicate FitsPeer(m: Msg, maxpacket: nat, payloadSize: nat) {
    && (m.Data? ==> 0 < |m.bytes| <= maxpacket && 1 + 4 + 4 + |m.bytes| <= payloadSize)
    && (m.Extended? ==> 0 < |m.bytes| <= maxpacket && 1 + 4 + 4 + 4 + |m.bytes| <= payloadSize)
  }

  predicate AllFit(c: Chan) {
    forall i :: 0 <= i < |c.tx.sent| ==> FitsPeer(c.tx.sent[i], c.tx.maxpacket, c.conf.payloadSize)
  }

  /** d has sent what c had, and then s, of the data of kind x, in packets that fit. */
  predicate Adds(c: Chan, d: Chan, x: bool, s: seq<byte>) {
    && Payload(d.tx.sent, x) == Payload(c.tx.sent, x) + s
    && d.tx.maxpacket == c.tx.maxpacket && d.conf == c.conf && (AllFit(c) ==> AllFit(d))
  }

  lemma PushAdds(c: Chan, d: Chan, m: Msg, x: bool)
    requires d.tx.sent == c.tx.sent + [m] && d.tx.maxpacket == c.tx.maxpacket && d.conf == c.conf
    requires FitsPeer(m, c.tx.maxpacket, c.conf.payloadSize)
    ensures Adds(c, d, x, MsgPayload(m, x))
  {
    assert (c.tx.sent + [m])[..|c.tx.sent|] == c.tx.sent;
  }

  lemma SameAdds(c: Chan, d: Chan, x: bool)
    requires d.tx.sent == c.tx.sent && d.tx.maxpacket == c.tx.maxpacket && d.conf == c.conf
    ensures Adds(c, d, x, [])
  {
    assert Payload(c.tx.sent, x) + [] == Payload(c.tx.sent, x);
  }

  lemma AddsTrans(c: Chan, d: Chan, e: Chan, x: bool, s: seq<byte>, t: seq<byte>)
    requires Adds(c, d, x, s) && Adds(d, e, x, t)
    ensures Adds(c, e, x, s + t)
  {
    hide Payload, AllFit;
    assert (Payload(c.tx.sent, x) + s) + t == Payload(c.tx.sent, x) + (s + t);
  }

  /** The bytes that were read are sent, all of them, in their order, and as the kind of data they are. */
  lemma SendDataSends(c: Chan, ext: bool, r: ReadResult, x: bool)
    ensures Adds(c, SendData(c, ext, r), x, if x == ext then Taken(c, ext, r) else [])
  {
    var s := Taken(c, ext, r);
    var d := SendData(c, ext, r);
    if s == [] {
      assert d.tx.sent == c.tx.sent;
      SameAdds(c, d, x);
    } else {
      assert s == if |r.bytes| <= MaxLen(c, ext) then r.bytes else r.bytes[..MaxLen(c, ext)];
      var m := if ext then Extended(s) else Data(s);
      assert d.tx.sent == c.tx.sent + [m];
      PushAdds(c, d, m, x);
    }
    hide Payload;
  }

  // ----- one turn -----

  function ReadInput(c: Chan, ext: bool, r: Option<ReadResult>, x: bool): seq<byte> {
    if x == ext && CanRead(c, ext, r) then Taken(c, ext, r.value) else []
  }

  lemma IoReadSends(c: Chan, ext: bool, r: Option<ReadResult>, x: bool)
    ensures Adds(c, IoRead(c, ext, r), x, ReadInput(c, ext, r, x))
  {
    if CanRead(c, ext, r) { SendDataSends(c, ext, r.value, x); } else { SameAdds(c, c, x); }
    hide SendData, Payload;
  }

  lemma IoWriteSends(c: Chan, ext: bool, w: Option<WriteResult>, x: bool)
    ensures Adds(c, IoWrite(c, ext, w), x, [])
  {
    if CanWrite(c, ext, w) { WriteSends(c, ext, None, w.value, x); } else { SameAdds(c, c, x); }
    hide WriteChannel, Payload;
  }

  lemma WriteSends(c: Chan, ext: bool, more: Option<seq<byte>>, w: WriteResult, x: bool)
    requires HasBuffer(c, ext)
    ensures Adds(c, WriteChannel(c, ext, more, w).c, x, [])
  {
    var d := Writev(c, ext, more, w).c;
    assert d.tx == c.tx && d.conf == c.conf;
    SameAdds(c, d, x);
    hide Writev;
    if Adjust(d).tx.sent == d.tx.sent { SameAdds(c, Adjust(d), x); }
    else { PushAdds(c, Adjust(d), WindowAdjust(d.rx.donelen), x); }
    hide Payload;
  }

  /** What check_close reads while the channel is flushing. */
  function FlushInput(c: Chan, e: CloseEnv, x: bool): seq<byte> {
    if !c.flags.flushing then []
    else
      var first := c.fds.read >= 0 && c.tx.window > 0;
      var c1 := if first then SendData(c, false, e.flushData) else c;
      var second := !c1.ErrIsWrite() && c1.fds.err >= 0 && c1.tx.window > 0;
      (if !x && first then Taken(c, false, e.flushData) else [])
      + (if x && second then Taken(c1, true, e.flushErr) else [])
  }

  lemma FlushSends(c: Chan, e: CloseEnv, x: bool)
    ensures Adds(c, Flush(c, e), x, FlushInput(c, e, x))
  {
    SameAdds(c, c, x);
    if c.flags.flushing {
      var first := c.fds.read >= 0 && c.tx.window > 0;
      var c1 := if first then SendData(c, false, e.flushData) else c;
      SendDataSends(c, false, e.flushData, x);
      SameAdds(c1, c1, x);
      SendDataSends(c1, true, e.flushErr, x);
      var s := if !x && first then Taken(c, false, e.flushData) else [];
      var t := if x && !c1.ErrIsWrite() && c1.fds.err >= 0 && c1.tx.window > 0 then Taken(c1, true, e.flushErr) else [];
      hide SendData, Payload, Taken;
      AddsTrans(c, c1, Flush(c, e), x, s, t);
    }
  }

  function CheckInput(c: Chan, e: CloseEnv, x: bool): seq<byte> {
    var c0 := StartFlushing(c, e);
    var allowed := CloseAllowed(c0, e);
    if c0.flags.recvClose && !WritePending(c0) && allowed then [] else FlushInput(CloseWriteSide(c0, allowed), e, x)
  }

  lemma SendCloseSends(c: Chan, x: bool)
    ensures Adds(c, SendClose(c), x, [])
  {
    assert SendClose(c).tx.sent == c.tx.sent + [Close];
    PushAdds(c, SendClose(c), Close, x);
    hide SendClose, Payload;
  }

  lemma EofSends(c: Chan, x: bool)
    ensures Adds(c, EofIfDone(c), x, [])
  {
    SameAdds(c, c, x);
    if EofIfDone(c) != c { PushAdds(c, EofIfDone(c), Eof, x); }
    hide Payload;
  }

  lemma CloseIfDoneSends(c: Chan, allowed: bool, x: bool)
    ensures Adds(c, CloseIfDone(c, allowed), x, [])
  {
    SameAdds(c, c, x);
    SendCloseSends(c, x);
    hide SendClose, Payload;
  }

  lemma CheckCloseSends(c: Chan, e: CloseEnv, x: bool)
    ensures Adds(c, CheckClose(c, e), x, CheckInput(c, e, x))
  {
    var c0 := StartFlushing(c, e);
    assert c0.tx == c.tx && c0.conf == c.conf;
    var allowed := CloseAllowed(c0, e);
    var c1 := CloseWriteSide(c0, allowed);
    assert c1.tx == c.tx && c1.conf == c.conf;
    hide StartFlushing, CloseAllowed, CloseWriteSide, WritePending;
    if c0.flags.recvClose && !WritePending(c0) && allowed {
      SameAdds(c, c0, x);
      SendCloseSends(c0, x);
      var d := if c0.flags.sentClose then c0 else SendClose(c0);
      assert Adds(c, d, x, []) by { hide Payload, SendClose; }
      assert Remove(d).tx == d.tx && Remove(d).conf == d.conf;
      hide SendClose, Remove, Payload, AllFit;
    } else {
      var s := FlushInput(c1, e, x);
      FlushSends(c1, e, x);
      var c2 := Flush(c1, e);
      hide Flush, FlushInput;
      EofSends(c2, x);
      var c3 := EofIfDone(c2);
      hide EofIfDone;
      CloseIfDoneSends(c3, allowed, x);
      hide CloseIfDone, Payload;
      assert s + [] == s;
      AddsTrans(c1, c2, c3, x, s, []);
      AddsTrans(c1, c3, CloseIfDone(c3, allowed), x, s, []);
    }
  }

  /** Whether a turn of channelio ends with check_close. */
  predicate Active(c: Chan, io: Io) {
    var c1 := IoRead(c, false, io.read);
    var c2 := IoRead(c1, true, io.errRead);
    var c3 := IoWrite(c2, false, io.write);
    CanRead(c, false, io.read) || CanRead(c1, true, io.errRead) || CanWrite(c2, false, io.write)
    || CanWrite(c3, true, io.errWrite) || io.signal
  }

  /** The state of a turn after its reads and writes. */
  function IoDone(c: Chan, io: Io): Chan {
    var c1 := IoRead(c, false, io.read);
    var c2 := IoRead(c1, true, io.errRead);
    IoWrite(IoWrite(c2, false, io.write), true, io.errWrite)
  }

  /** Everything of kind x that the endpoint reads in a turn. */
  function TurnInput(c: Chan, io: Io, x: bool): seq<byte> {
    if c.flags.removed then []
    else
      ReadInput(c, false, io.read, x) + ReadInput(IoRead(c, false, io.read), true, io.errRead, x)
      + (if Active(c, io) then CheckInput(IoDone(c, io), io.close, x) else [])
  }

  lemma IoDoneSends(c: Chan, io: Io, x: bool)
    ensures Adds(c, IoDone(c, io), x,
                 ReadInput(c, false, io.read, x) + ReadInput(IoRead(c, false, io.read), true, io.errRead, x))
  {
    hide IoRead, IoWrite, ReadInput, Payload;
    var c1 := IoRead(c, false, io.read);
    var c2 := IoRead(c1, true, io.errRead);
    var c3 := IoWrite(c2, false, io.write);
    var s, t := ReadInput(c, false, io.read, x), ReadInput(c1, true, io.errRead, x);
    IoReadSends(c, false, io.read, x);
    IoReadSends(c1, true, io.errRead, x);
    IoWriteSends(c2, false, io.write, x);
    IoWriteSends(c3, true, io.errWrite, x);
    AddsTrans(c, c1, c2, x, s, t);
    assert (s + t) + [] == s + t;
    AddsTrans(c, c2, c3, x, s + t, []);
    AddsTrans(c, c3, IoDone(c, io), x, s + t, []);
  }

  lemma ChannelIoSends(c: Chan, io: Io, x: bool)
    ensures Adds(c, ChannelIo(c, io), x, TurnInput(c, io, x))
  {
    SameAdds(c, c, x);
    if !c.flags.removed {
      var s := ReadInput(c, false, io.read, x) + ReadInput(IoRead(c, false, io.read), true, io.errRead, x);
      IoDoneSends(c, io, x);
      CheckCloseSends(IoDone(c, io), io.close, x);
      assert ChannelIo(c, io) == if Active(c, io) then CheckClose(IoDone(c, io), io.close) else IoDone(c, io) by {
        hide IoRead, IoWrite, CheckClose, CanRead, CanWrite;
      }
      hide ChannelIo, CheckClose, CheckInput, IoDone, Active, Payload, IoRead, ReadInput;
      assert s + [] == s;
      if Active(c, io) { AddsTrans(c, IoDone(c, io), ChannelIo(c, io), x, s, CheckInput(IoDone(c, io), io.close, x)); }
    }
  }

  // ----- one message -----

  lemma RecvDataSends(c: Chan, ext: bool, data: seq<byte>, w: WriteResult, x: bool)
    ensures RecvData(c, ext, data, w).Next? ==> Adds(c, RecvData(c, ext, data, w).c, x, [])
  {
    var o := RecvData(c, ext, data, w);
    if o.Next? {
      if WriteFd(c, ext) < 0 || !HasBuffer(c, ext) {
        SameAdds(c, o.c, x);
      } else {
        var c1 := TakeWindow(c, |data|);
        WriteSends(c1, ext, Some(data), w, x);
        var r := WriteChannel(c1, ext, Some(data), w);
        assert Settle(r, ext, data).tx == r.c.tx && Settle(r, ext, data).conf == r.c.conf;
        assert c1.tx == c.tx && c1.conf == c.conf;
        hide WriteChannel, Payload, Settle;
      }
    }
  }

  /** What is read while a message is handled: only check_close reads. */
  function MessageInput(c: Chan, m: Msg, e: CloseEnv, x: bool): seq<byte> {
    match m
    case Eof => CheckInput(RecvEof(c), e, x)
    case Close => CheckInput(RecvClose(c), e, x)
    case _ => []
  }

  lemma ReceiveSends(c: Chan, m: Msg, w: WriteResult, e: CloseEnv, x: bool)
    ensures Receive(c, m, w, e).Next? ==> Adds(c, Receive(c, m, w, e).c, x, MessageInput(c, m, e, x))
  {
    match m {
      case Data(b) => RecvDataSends(c, false, b, w, x);
      case Extended(b) => RecvDataSends(c, true, b, w, x);
      case WindowAdjust(n) => SameAdds(c, RecvAdjust(c, n), x);
      case Eof => CheckCloseSends(RecvEof(c), e, x);
      case Close => CheckCloseSends(RecvClose(c), e, x);
    }
    hide CheckClose, CheckInput, RecvData, Payload;
  }

  // ----- whole runs -----

  /** What a reads in one event. */
  function EventInput(n: Net, ev: Event, x: bool): seq<byte> {
    match ev
    case IoA(io) => TurnInput(n.a, io, x)
    case DeliverToA(_, e) => if n.toA < |n.b.tx.sent| then MessageInput(n.a, n.b.tx.sent[n.toA], e, x) else []
    case _ => []
  }

  /** Everything that a has read in a run. */
  function Input(n: Net, events: seq<Event>, x: bool): seq<byte>
    decreases |events|
  {
    if events == [] || Happen(n, events[0]).Died? then []
    else EventInput(n, events[0], x) + Input(Happen(n, events[0]).net, events[1..], x)
  }

  lemma HappenSends(n: Net, ev: Event, x: bool)
    ensures Happen(n, ev).Running? ==> Adds(n.a, Happen(n, ev).net.a, x, EventInput(n, ev, x))
  {
    SameAdds(n.a, n.a, x);
    match ev {
      case IoA(io) => ChannelIoSends(n.a, io, x);
      case DeliverToA(w, e) =>
        if n.toA < |n.b.tx.sent| { ReceiveSends(n.a, n.b.tx.sent[n.toA], w, e, x); }
      case _ =>
    }
    hide ChannelIo, Receive, TurnInput, MessageInput, Payload;
  }

  /** In every run, what a has sent is what a has read, byte for byte and in order. */
  lemma {:induction false} SentIsRead(n: Net, events: seq<Event>, x: bool)
    ensures Run(n, events).Running? ==> Adds(n.a, Run(n, events).net.a, x, Input(n, events, x))
    decreases |events|
  {
    if events == [] {
      SameAdds(n.a, n.a, x);
    } else if Happen(n, events[0]).Running? {
      HappenSends(n, events[0], x);
      var m := Happen(n, events[0]).net;
      SentIsRead(m, events[1..], x);
      hide Happen, EventInput, Payload;
      if Run(n, events).Running? {
        AddsTrans(n.a, m.a, Run(n, events).net.a, x, EventInput(n, events[0], x), Input(m, events[1..], x));
      }
    }
  }

  lemma {:induction false} PayloadSplit(log: seq<Msg>, k: nat, x: bool)
    requires k <= |log|
    ensures Payload(log, x) == Payload(log[..k], x) + Payload(log[k..], x)
    decreases |log|
  {
    if k == |log| {
      assert log[..k] == log && log[k..] == [];
      assert Payload(log, x) + [] == Payload(log, x);
    } else {
      hide Payload;
      var n := |log| - 1;
      PayloadSplit(log[..n], k, x);
      LastPayload(log, x);
      LastPayload(log[k..], x);
      Halves(log, k);
      Regroup(Payload(log[..k], x), Payload(log[..n][k..], x), MsgPayload(log[n], x));
    }
  }

  lemma LastPayload(log: seq<Msg>, x: bool)
    requires log != []
    ensures Payload(log, x) == Payload(log[..|log| - 1], x) + MsgPayload(log[|log| - 1], x)
  { }

  lemma Halves(log: seq<Msg>, k: nat)
    requires k < |log|
    ensures log[..|log| - 1][..k] == log[..k] && log[k..][..|log| - 1 - k] == log[..|log| - 1][k..]
    ensures log[k..][|log| - 1 - k] == log[|log| - 1]
  { }

  lemma Regroup(p: seq<byte>, q: seq<byte>, r: seq<byte>)
    ensures (p + q) + r == p + (q + r)
  { }

  /** From the start of a channel, everything that was sent was read, in packets that fit the peer. */
  lemma OpenedInput(n: Net, events: seq<Event>, x: bool)
    requires Opened(n)
    ensures Run(n, events).Running? ==>
              Payload(Run(n, events).net.a.tx.sent, x) == Input(n, events, x) && AllFit(Run(n, events).net.a)
  {
    SentIsRead(n, events, x);
    hide Run, Input;
    assert AllFit(n.a) && Payload(n.a.tx.sent, x) == [];
    hide AllFit, Payload;
    assert [] + Input(n, events, x) == Input(n, events, x);
  }
}
