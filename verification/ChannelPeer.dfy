/** One endpoint against any peer: whatever messages come, in whatever order. */
module ChannelPeer {
  import opened Wrappers
  import opened Bytes
  import opened ChannelModel
  import opened ChannelInv
  import opened ChannelFlow
  import opened ChannelRun
  import opened ChannelInput
  import opened ChannelLoss
  import opened ChannelFinish

  /** A message arrives, or the channel has its turn. */
  datatype Step = Message(m: Msg, w: WriteResult, e: CloseEnv) | Turn(io: Io)

  function Take(c: Chan, step: Step): Outcome {
    match step
    case Message(m, w, e) => Receive(c, m, w, e)
    case Turn(io) => Next(ChannelIo(c, io))
  }

  function Steps(c: Chan, steps: seq<Step>): Outcome {
    if steps == [] then Next(c)
    else match Steps(c, steps[..|steps| - 1])
      case Next(d) => Take(d, steps[|steps| - 1])
      case o => o
  }

  /** The messages that have come. */
  function Received(steps: seq<Step>): seq<Msg> {
    if steps == [] then []
    else
      var last := steps[|steps| - 1];
      Received(steps[..|steps| - 1]) + if last.Message? then [last.m] else []
  }

  // ----- everything but receiving -----

  /** c became d without receiving: nothing is queued or lost, and no window is made up. */
  predicate Calm(c: Chan, d: Chan) {
    && d.conf == c.conf && d.rx.extrabuf.Some? == c.rx.extrabuf.Some? && d.flags.recvEof == c.flags.recvEof
    && d.tx.window <= c.tx.window && Outflow(d) == Outflow(c)
    && Stream(d.rx, false) == Stream(c.rx, false) && Stream(d.rx, true) == Stream(c.rx, true)
    && |d.rx.writebuf| <= |c.rx.writebuf| && |d.rx.Extra()| <= |c.rx.Extra()|
    && (d.fds.write >= 0 ==> c.fds.write >= 0) && (d.fds.err >= 0 ==> c.fds.err >= 0)
  }

  lemma CalmTrans(c: Chan, d: Chan, e: Chan)
    requires Calm(c, d) && Calm(d, e)
    ensures Calm(c, e)
  {
    hide Outflow, Stream;
  }

  lemma QuietCalm(c: Chan, d: Chan)
    requires Quiet(c, d) && d.rx == c.rx
    ensures Calm(c, d)
  {
    QuietWindow(c, d);
    hide Outflow, Inflow, Stream;
  }

  lemma WriteCalm(c: Chan, ext: bool, w: WriteResult)
    requires HasBuffer(c, ext)
    ensures Calm(c, WriteChannel(c, ext, None, w).c)
  {
    WritevQuiet(c, ext, w);
    var d := Writev(c, ext, None, w).c;
    assert |d.rx.writebuf| <= |c.rx.writebuf| && |d.rx.Extra()| <= |c.rx.Extra()|;
    hide Writev;
    QuietWindow(c, d);
    assert Calm(c, d) by { hide Outflow, Inflow, Stream; }
    AdjustCalm(d);
    hide Calm;
    CalmTrans(c, d, Adjust(d));
  }

  lemma AdjustCalm(c: Chan)
    ensures Calm(c, Adjust(c))
  {
    SumsPush(c.tx.sent, WindowAdjust(c.rx.donelen));
    hide Volume, Credit;
  }

  lemma IoReadCalm(c: Chan, ext: bool, r: Option<ReadResult>)
    requires c.tx.window < U32_LIMIT
    ensures Calm(c, IoRead(c, ext, r))
  {
    IoReadQuiet(c, ext, r);
    if CanRead(c, ext, r) { SendDataSteady(c, ext, r.value); }
    hide SendData, Quiet;
    QuietCalm(c, IoRead(c, ext, r));
  }

  lemma IoWriteCalm(c: Chan, ext: bool, w: Option<WriteResult>)
    ensures Calm(c, IoWrite(c, ext, w))
  {
    if CanWrite(c, ext, w) { WriteCalm(c, ext, w.value); }
    hide WriteChannel;
  }

  lemma CheckCloseCalm(c: Chan, e: CloseEnv)
    requires c.tx.window < U32_LIMIT
    ensures Calm(c, CheckClose(c, e))
  {
    CheckCloseQuiet(c, e);
    CheckCloseRemoves(c, e);
    hide CheckClose, Quiet;
    QuietCalm(c, CheckClose(c, e));
  }

  lemma TurnCalm(c: Chan, io: Io)
    requires c.tx.window < U32_LIMIT
    ensures Calm(c, ChannelIo(c, io))
  {
    var c1 := IoRead(c, false, io.read);
    IoReadCalm(c, false, io.read);
    var c2 := IoRead(c1, true, io.errRead);
    IoReadCalm(c1, true, io.errRead);
    CalmTrans(c, c1, c2);
    var c3 := IoWrite(c2, false, io.write);
    IoWriteCalm(c2, false, io.write);
    CalmTrans(c, c2, c3);
    var c4 := IoWrite(c3, true, io.errWrite);
    IoWriteCalm(c3, true, io.errWrite);
    CalmTrans(c, c3, c4);
    CheckCloseCalm(c4, io.close);
    CalmTrans(c, c4, CheckClose(c4, io.close));
    CalmSelf(c);
    hide Calm, IoRead, IoWrite, CheckClose, CanRead, CanWrite;
  }

  lemma CalmSelf(c: Chan)
    ensures Calm(c, c)
  { }

  // ----- receiving -----

  /** d is c after a message with data that did not end the program. */
  predicate TookIn(c: Chan, d: Chan, ext: bool, data: seq<byte>) {
    && d.conf == c.conf && d.rx.extrabuf.Some? == c.rx.extrabuf.Some? && d.flags == c.flags
    && d.tx.window == c.tx.window && Outflow(d) == Outflow(c)
    && Stream(d.rx, !ext) == Stream(c.rx, !ext)
    && Stream(d.rx, ext) ==
       (if HasBuffer(c, ext) && WriteFd(d, ext) >= 0 then Stream(c.rx, ext) + data else Stream(c.rx, ext))
    && |Buffer(d.rx, !ext)| == |Buffer(c.rx, !ext)|
    && (|Buffer(d.rx, ext)| <= |Buffer(c.rx, ext)| || |Buffer(d.rx, ext)| <= c.conf.recvWindow)
    && (d.fds.write >= 0 ==> c.fds.write >= 0) && (d.fds.err >= 0 ==> c.fds.err >= 0)
  }

  lemma DataTookIn(c: Chan, ext: bool, data: seq<byte>, w: WriteResult)
    requires RecvData(c, ext, data, w).Next?
    ensures TookIn(c, RecvData(c, ext, data, w).c, ext, data) && !c.flags.recvEof
  {
    if WriteFd(c, ext) >= 0 && HasBuffer(c, ext) {
      var c1 := TakeWindow(c, |data|);
      WindowStream(c.rx, c1.rx.window);
      WritevOffered(c1, ext, data, w);
      WritevSizes(c1, ext, data, w);
      var r := Writev(c1, ext, Some(data), w);
      hide Writev;
      TookInRest(c, c1, r, ext, data);
    } else {
      DroppedStream(c.rx, c.rx.dropped + |data|);
      hide Stream, Volume;
    }
  }

  lemma WritevSizes(c: Chan, ext: bool, data: seq<byte>, w: WriteResult)
    requires HasBuffer(c, ext)
    ensures var r := Writev(c, ext, Some(data), w);
            && |Buffer(r.c.rx, ext)| <= |Buffer(c.rx, ext)| && |Buffer(r.c.rx, !ext)| == |Buffer(c.rx, !ext)|
            && r.c.tx == c.tx
  { }

  lemma TookInRest(c: Chan, c1: Chan, r: WriteOutcome, ext: bool, data: seq<byte>)
    requires HasBuffer(c, ext) && WriteFd(c, ext) >= 0 && |data| <= c.conf.recvWindow - |Buffer(c.rx, ext)|
    requires c1 == c.(rx := c.rx.(window := c1.rx.window))
    requires Stream(c1.rx, false) == Stream(c.rx, false) && Stream(c1.rx, true) == Stream(c.rx, true)
    requires Offered(c1, r, ext, data)
    requires |Buffer(r.c.rx, ext)| <= |Buffer(c.rx, ext)| && |Buffer(r.c.rx, !ext)| == |Buffer(c.rx, !ext)|
    requires r.c.tx == c.tx
    ensures TookIn(c, Settle(r.(c := Adjust(r.c)), ext, data), ext, data)
  {
    var d, e := Settle(r, ext, data), Settle(r.(c := Adjust(r.c)), ext, data);
    SettleTook(c1, r, ext, data);
    SettleSizes(r, ext, data);
    AdjustSettled(r, ext, data);
    AdjustCalm(r.c);
    SameStream(d.rx, e.rx);
    hide Stream, Volume, Credit, Settle, Adjust, Buffer;
  }

  lemma SettleSizes(r: WriteOutcome, ext: bool, data: seq<byte>)
    requires r.consumed <= |data| && HasBuffer(r.c, ext)
    ensures var d := Settle(r, ext, data);
            && |Buffer(d.rx, !ext)| == |Buffer(r.c.rx, !ext)|
            && |Buffer(d.rx, ext)| <= |Buffer(r.c.rx, ext)| + |data|
  { }

  /** The window adjust that follows the write touches neither queue nor flags. */
  lemma AdjustSettled(r: WriteOutcome, ext: bool, data: seq<byte>)
    requires r.consumed <= |data|
    ensures var d, e := Settle(r, ext, data), Settle(r.(c := Adjust(r.c)), ext, data);
            && e.conf == d.conf && e.flags == d.flags && e.fds == d.fds && e.tx == Adjust(r.c).tx
            && e.rx == d.rx.(window := e.rx.window, donelen := e.rx.donelen)
            && Adjust(r.c).tx.window == r.c.tx.window
  { }

  lemma SameStream(rx: Rx, ry: Rx)
    requires ry == rx.(window := ry.window, donelen := ry.donelen)
    ensures forall ext :: Stream(ry, ext) == Stream(rx, ext) && Buffer(ry, ext) == Buffer(rx, ext)
  { }

  // ----- every step -----

  /** No data follows EOF or CLOSE. */
  ghost predicate Tidy(log: seq<Msg>) {
    forall i, j :: 0 <= i < j < |log| && (log[i].Eof? || log[i].Close?) ==> !(log[j].Data? || log[j].Extended?)
  }

  predicate Bounded(c: Chan) {
    |c.rx.writebuf| <= c.conf.recvWindow && |c.rx.Extra()| <= c.conf.recvWindow
  }

  /** What was written and queued is what came, up to a point where the descriptor was closed. */
  predicate Follows(c: Chan, log: seq<Msg>, ext: bool) {
    && Stream(c.rx, ext) <= Payload(log, ext)
    && (HasBuffer(c, ext) && WriteFd(c, ext) >= 0 ==> Stream(c.rx, ext) == Payload(log, ext))
  }

  ghost predicate Held(c: Chan, log: seq<Msg>, credit: nat) {
    && c.tx.window < U32_LIMIT && Outflow(c) <= credit + Credit(log)
    && Bounded(c) && Follows(c, log, false) && Follows(c, log, true)
    && Tidy(log) && (c.flags.recvEof <==> ChannelRun.Ended(log))
  }

  lemma CalmHeld(c: Chan, d: Chan, log: seq<Msg>, credit: nat)
    requires Calm(c, d) && Held(c, log, credit)
    ensures Held(d, log, credit)
  {
    hide Outflow, Stream, Payload, Credit, Tidy, ChannelRun.Ended;
  }

  lemma EndedPush(log: seq<Msg>, m: Msg)
    ensures ChannelRun.Ended(log + [m]) <==> ChannelRun.Ended(log) || m.Eof? || m.Close?
  {
    var l := log + [m];
    assert l[|log|] == m;
    if ChannelRun.Ended(log) {
      var i :| 0 <= i < |log| && (log[i].Eof? || log[i].Close?);
      assert l[i] == log[i];
    }
  }

  lemma TidyPush(log: seq<Msg>, m: Msg)
    requires Tidy(log) && (ChannelRun.Ended(log) ==> !m.Data? && !m.Extended?)
    ensures Tidy(log + [m])
  {
    var l := log + [m];
    forall i, j | 0 <= i < j < |l| && (l[i].Eof? || l[i].Close?) ensures !(l[j].Data? || l[j].Extended?) {
      assert l[i] == log[i];
      if j < |log| { assert l[j] == log[j]; }
    }
  }

  lemma PayloadPush(log: seq<Msg>, m: Msg, ext: bool)
    ensures Payload(log + [m], ext) == Payload(log, ext) + MsgPayload(m, ext)
  {
    assert (log + [m])[..|log|] == log;
  }

  /** A message without data of this kind. */
  lemma FollowsOn(c: Chan, d: Chan, log: seq<Msg>, m: Msg, ext: bool)
    requires Follows(c, log, ext) && MsgPayload(m, ext) == []
    requires Stream(d.rx, ext) == Stream(c.rx, ext) && d.rx.extrabuf.Some? == c.rx.extrabuf.Some?
    requires (d.fds.write >= 0 ==> c.fds.write >= 0) && (d.fds.err >= 0 ==> c.fds.err >= 0)
    ensures Follows(d, log + [m], ext)
  {
    PayloadPush(log, m, ext);
    assert Payload(log, ext) + [] == Payload(log, ext);
    hide Stream, Payload;
  }

  lemma FollowsData(c: Chan, d: Chan, log: seq<Msg>, m: Msg, ext: bool)
    requires Follows(c, log, ext) && (if ext then m.Extended? else m.Data?) && TookIn(c, d, ext, m.bytes)
    ensures Follows(d, log + [m], ext)
  {
    PayloadPush(log, m, ext);
    hide Stream, Payload, Outflow, Buffer;
  }

  lemma DataHeld(c: Chan, log: seq<Msg>, credit: nat, m: Msg, ext: bool, w: WriteResult)
    requires Held(c, log, credit) && (if ext then m.Extended? else m.Data?) && RecvData(c, ext, m.bytes, w).Next?
    ensures Held(RecvData(c, ext, m.bytes, w).c, log + [m], credit)
  {
    var d := RecvData(c, ext, m.bytes, w).c;
    DataTookIn(c, ext, m.bytes, w);
    hide RecvData, Outflow, Stream, Payload, Credit, Tidy, ChannelRun.Ended;
    assert Bounded(d);
    assert Follows(c, log, ext) && Follows(c, log, !ext);
    FollowsData(c, d, log, m, ext);
    FollowsOn(c, d, log, m, !ext);
    hide Bounded, Follows;
    SumsPush(log, m);
    EndedPush(log, m);
    TidyPush(log, m);
  }

  lemma AdjustHeld(c: Chan, log: seq<Msg>, credit: nat, n: nat)
    requires Held(c, log, credit)
    ensures Held(RecvAdjust(c, n), log + [WindowAdjust(n)], credit)
  {
    var d := RecvAdjust(c, n);
    assert d == c.(tx := d.tx) && d.tx.window < U32_LIMIT;
    assert Outflow(d) <= Outflow(c) + n by { hide Volume; }
    hide RecvAdjust, Outflow, Stream, Payload, Credit, Tidy, ChannelRun.Ended;
    FollowsOn(c, d, log, WindowAdjust(n), false);
    FollowsOn(c, d, log, WindowAdjust(n), true);
    assert Bounded(d);
    hide Follows, Bounded;
    SumsPush(log, WindowAdjust(n));
    EndedPush(log, WindowAdjust(n));
    TidyPush(log, WindowAdjust(n));
  }

  lemma EndHeld(c: Chan, log: seq<Msg>, credit: nat, m: Msg, d: Chan, e: CloseEnv)
    requires Held(c, log, credit) && (m.Eof? || m.Close?) && d == (if m.Eof? then RecvEof(c) else RecvClose(c))
    ensures Held(CheckClose(d, e), log + [m], credit)
  {
    hide Outflow, Stream, Payload, Credit, Tidy, ChannelRun.Ended;
    assert Bounded(d);
    FollowsOn(c, d, log, m, false);
    FollowsOn(c, d, log, m, true);
    SumsPush(log, m);
    EndedPush(log, m);
    TidyPush(log, m);
    hide Follows, Bounded;
    assert Outflow(d) == Outflow(c) by { OutflowOf(c, d); }
    assert Held(d, log + [m], credit);
    CheckCloseCalm(d, e);
    hide CheckClose, Held, Calm;
    CalmHeld(d, CheckClose(d, e), log + [m], credit);
  }

  lemma OutflowOf(c: Chan, d: Chan)
    requires d.tx == c.tx
    ensures Outflow(d) == Outflow(c)
  { }

  lemma ReceiveHeld(c: Chan, log: seq<Msg>, credit: nat, m: Msg, w: WriteResult, e: CloseEnv)
    requires Held(c, log, credit) && Receive(c, m, w, e).Next?
    ensures Held(Receive(c, m, w, e).c, log + [m], credit) && Receive(c, m, w, e).c.conf == c.conf
  {
    match m {
      case Data(b) => DataHeld(c, log, credit, m, false, w); DataTookIn(c, false, b, w);
      case Extended(b) => DataHeld(c, log, credit, m, true, w); DataTookIn(c, true, b, w);
      case WindowAdjust(n) => AdjustHeld(c, log, credit, n);
      case Eof => EndHeld(c, log, credit, m, RecvEof(c), e); CheckCloseCalm(RecvEof(c), e);
      case Close => EndHeld(c, log, credit, m, RecvClose(c), e); CheckCloseCalm(RecvClose(c), e);
    }
    hide Held, RecvData, CheckClose, Outflow, Stream;
  }

  lemma {:induction false} StepsHold(c: Chan, steps: seq<Step>, credit: nat)
    requires Held(c, [], credit) && Steps(c, steps).Next?
    ensures Held(Steps(c, steps).c, Received(steps), credit) && Steps(c, steps).c.conf == c.conf
    decreases |steps|
  {
    hide Held, Calm;
    if steps != [] {
      var front, last := steps[..|steps| - 1], steps[|steps| - 1];
      StepsHold(c, front, credit);
      var d := Steps(c, front).c;
      match last
      case Message(m, w, e) => ReceiveHeld(d, Received(front), credit, m, w, e);
      case Turn(io) =>
        WindowHeld(d, Received(front), credit);
        TurnCalm(d, io);
        CalmConf(d, ChannelIo(d, io));
        CalmHeld(d, ChannelIo(d, io), Received(front), credit);
        assert Received(steps) == Received(front);
    }
  }

  lemma CalmConf(c: Chan, d: Chan)
    requires Calm(c, d)
    ensures d.conf == c.conf
  { }

  lemma WindowHeld(c: Chan, log: seq<Msg>, credit: nat)
    requires Held(c, log, credit)
    ensures c.tx.window < U32_LIMIT
  { }

  // ----- for every peer -----

  lemma FreshHeld(c: Chan, w: nat)
    requires Fresh(c, w) && w < U32_LIMIT
    ensures Held(c, [], w)
  { }

  /** An endpoint never sends more than the peer has allowed, whatever credit comes and however often. */
  lemma SendsWithinCredit(c: Chan, w: nat, steps: seq<Step>)
    requires Fresh(c, w) && w < U32_LIMIT && Steps(c, steps).Next?
    ensures Volume(Steps(c, steps).c.tx.sent) <= w + Credit(Received(steps))
  {
    FreshHeld(c, w);
    StepsHold(c, steps, w);
    hide Fresh, Steps, Bounded, Follows, Tidy, ChannelRun.Ended;
  }

  /** No peer makes the queues outgrow their buffers; it exits before that. */
  lemma QueuesBounded(c: Chan, w: nat, steps: seq<Step>)
    requires Fresh(c, w) && w < U32_LIMIT && Steps(c, steps).Next?
    ensures var d := Steps(c, steps).c; |d.rx.writebuf| <= c.conf.recvWindow && |d.rx.Extra()| <= c.conf.recvWindow
  {
    FreshHeld(c, w);
    StepsHold(c, steps, w);
    hide Fresh, Steps, Outflow, Follows, Tidy, ChannelRun.Ended;
  }

  /** What reaches the local side is a prefix of what came, and all of it while the descriptor is open. */
  lemma ReceivedInOrder(c: Chan, w: nat, steps: seq<Step>, ext: bool)
    requires Fresh(c, w) && w < U32_LIMIT && Steps(c, steps).Next?
    ensures Follows(Steps(c, steps).c, Received(steps), ext)
  {
    FreshHeld(c, w);
    StepsHold(c, steps, w);
    hide Fresh, Steps, Outflow, Follows, Tidy, ChannelRun.Ended, Bounded;
  }

  /** Data after EOF or CLOSE always ends the program. */
  lemma NoDataAfterEnd(c: Chan, w: nat, steps: seq<Step>, m: Msg, wr: WriteResult, e: CloseEnv)
    requires Fresh(c, w) && w < U32_LIMIT && Steps(c, steps).Next? && (m.Data? || m.Extended?)
    ensures ChannelRun.Ended(Received(steps)) ==> Receive(Steps(c, steps).c, m, wr, e).Exit?
  {
    FreshHeld(c, w);
    StepsHold(c, steps, w);
    hide Fresh, Steps, Outflow, Follows, Tidy, ChannelRun.Ended, Bounded;
  }

  // ----- single calls -----

  /** Both clamps and the 32-bit sum together are an addition that stops at TRANS_MAX_WINDOW. */
  lemma AdjustSaturates(c: Chan, n: nat)
    requires c.tx.window <= TRANS_MAX_WINDOW
    ensures RecvAdjust(c, n) == c.(tx := c.tx.(window := Min(c.tx.window + n, TRANS_MAX_WINDOW)))
  { }

  /** Data ends the program exactly after EOF, or if it does not fit behind what is queued for an open descriptor. */
  lemma DataRefused(c: Chan, ext: bool, data: seq<byte>, w: WriteResult)
    ensures RecvData(c, ext, data, w).Exit? <==>
            || c.flags.recvEof
            || (HasBuffer(c, ext) && WriteFd(c, ext) >= 0 && |Buffer(c.rx, ext)| + |data| > c.conf.recvWindow)
  { }

  predicate Ready(c: Chan, ext: bool) {
    if ext then !c.ErrIsWrite() && c.fds.err >= 0 else c.fds.read >= 0
  }

  /** A readable descriptor is read: what it has, up to MaxLen, is sent next. */
  lemma ReadsWhenReady(c: Chan, ext: bool, b: seq<byte>)
    ensures Payload(IoRead(c, ext, Some(Got(b))).tx.sent, ext) ==
            Payload(c.tx.sent, ext) +
            if Ready(c, ext) && MaxLen(c, ext) > 0 then b[..Min(|b|, MaxLen(c, ext))] else []
  {
    IoReadSends(c, ext, Some(Got(b)), ext);
    hide IoRead, Payload, AllFit;
  }

  /** A writable descriptor is given the oldest bytes of the queue, as many as it takes. */
  lemma WritesWhenReady(c: Chan, ext: bool, n: nat)
    requires HasBuffer(c, ext) && WriteFd(c, ext) >= 0
    ensures var d := IoWrite(c, ext, Some(Wrote(n)));
            var k := Min(n, |Buffer(c.rx, ext)|);
            && Written(d.rx, ext) == Written(c.rx, ext) + Buffer(c.rx, ext)[..k]
            && Buffer(d.rx, ext) == Buffer(c.rx, ext)[k..] && d.fds == c.fds
  {
    var buf := Buffer(c.rx, ext);
    assert buf + [] == buf;
    assert buf == [] ==> Written(c.rx, ext) + [] == Written(c.rx, ext);
  }

  /** Data that arrives at an open descriptor is written behind the queue as far as it goes, and the rest is queued. */
  lemma DataWritten(c: Chan, ext: bool, data: seq<byte>, n: nat)
    requires !RecvData(c, ext, data, Wrote(n)).Exit? && HasBuffer(c, ext) && WriteFd(c, ext) >= 0
    ensures var d := RecvData(c, ext, data, Wrote(n)).c;
            var all := Buffer(c.rx, ext) + data;
            Written(d.rx, ext) == Written(c.rx, ext) + all[..Min(n, |all|)] && Buffer(d.rx, ext) == all[Min(n, |all|)..]
  {
    var buf := Buffer(c.rx, ext);
    var all := buf + data;
    var c1 := TakeWindow(c, |data|);
    var r := Writev(c1, ext, Some(data), Wrote(n));
    var k := Min(n, |all|);
    assert Written(r.c.rx, ext) == Written(c.rx, ext) + all[..k] && Buffer(r.c.rx, ext) == buf[Min(|buf|, k)..];
    assert r.consumed == k - Min(|buf|, k) && r.ok && HasBuffer(r.c, ext);
    hide Writev;
    assert all[k..] == buf[Min(|buf|, k)..] + data[k - Min(|buf|, k)..];
    AdjustSettled(r, ext, data);
    SettledQueue(r, ext, data);
    hide Settle, Adjust;
  }

  lemma SettledQueue(r: WriteOutcome, ext: bool, data: seq<byte>)
    requires r.consumed <= |data| && r.ok && HasBuffer(r.c, ext)
    ensures var d := Settle(r, ext, data);
            Written(d.rx, ext) == Written(r.c.rx, ext) && Buffer(d.rx, ext) == Buffer(r.c.rx, ext) + data[r.consumed..]
  { }

  /**
   close_chan_fd: without separate shutdowns the descriptor is gone from all three places; with them, from one side, and
   the other side keeps it.
   */
  lemma ShutdownExactly(c: Chan, fd: int, shutRd: bool)
    requires fd != FD_CLOSED
    ensures var d := CloseFd(c, fd, shutRd);
            && (c.conf.sepfds && shutRd ==> d.fds.read != fd && d.fds.write == c.fds.write)
            && (c.conf.sepfds && !shutRd ==> d.fds.write != fd && d.fds.read == c.fds.read)
            && (!c.conf.sepfds ==> d.fds.read != fd && d.fds.write != fd && d.fds.err != fd)
            && Closes(c, d) && (c.fds.read != fd ==> d.fds.read == c.fds.read)
            && (c.fds.write != fd ==> d.fds.write == c.fds.write) && (c.fds.err != fd ==> d.fds.err == c.fds.err)
  { }
}
