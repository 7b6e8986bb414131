/** What holds after every run of two endpoints from a confirmed channel. */
module ChannelTheorems {
  import opened Wrappers
  import opened Bytes
  import opened ChannelModel
  import opened ChannelInv
  import opened ChannelFlow
  import opened ChannelRun
  import opened ChannelInput

  lemma {:induction false} SumsSplit(log: seq<Msg>, k: nat)
    requires k <= |log|
    ensures Volume(log) == Volume(log[..k]) + Volume(log[k..])
    ensures Credit(log) == Credit(log[..k]) + Credit(log[k..])
    decreases |log|
  {
    if k == |log| {
      assert log[..k] == log && log[k..] == [];
    } else {
      var n := |log| - 1;
      SumsSplit(log[..n], k);
      assert log[..n][..k] == log[..k] && log[..n][k..] == log[k..][..n - k];
    }
  }

  /**
   Flow control: in both directions the sender's window, the data and the credit in flight and the
   dropped bytes add up to the receiver's window, which never exceeds the room in its buffers.
   */
  lemma WindowLaw(n: Net, events: seq<Event>)
    requires Opened(n)
    ensures Run(n, events).Running?
    ensures var f := Run(n, events).net;
            && f.toB <= |f.a.tx.sent| && f.toA <= |f.b.tx.sent|
            && f.a.tx.window + Volume(f.a.tx.sent[f.toB..]) + Credit(f.b.tx.sent[f.toA..]) + f.b.rx.dropped ==
              f.b.rx.window
            && f.b.tx.window + Volume(f.b.tx.sent[f.toA..]) + Credit(f.a.tx.sent[f.toB..]) + f.a.rx.dropped ==
              f.a.rx.window
            && f.b.rx.window + f.b.rx.donelen + |f.b.rx.writebuf| + |f.b.rx.Extra()| + f.b.rx.discarded ==
              n.b.conf.recvWindow
            && f.a.rx.window + f.a.rx.donelen + |f.a.rx.writebuf| + |f.a.rx.Extra()| + f.a.rx.discarded ==
              n.a.conf.recvWindow
  {
    OpenedInv(n);
    RunKeeps(n, events);
    RunConfig(n, events);
    var f := Run(n, events).net;
    SumsSplit(f.a.tx.sent, f.toB);
    SumsSplit(f.b.tx.sent, f.toA);
    hide Run, Volume, Credit, PhaseOf, Stream, Payload, Ends, Opened;
  }

  lemma {:induction false} RunConfig(n: Net, events: seq<Event>)
    requires NetInv(n)
    ensures Run(n, events).Running? && Run(n, events).net.a.conf == n.a.conf && Run(n, events).net.b.conf == n.b.conf
    decreases |events|
  {
    hide NetInv, Happen;
    if events != [] {
      HappenKeeps(n, events[0]);
      HappenConfig(n, events[0]);
      RunConfig(Happen(n, events[0]).net, events[1..]);
    }
  }

  lemma HappenConfig(n: Net, ev: Event)
    requires NetInv(n)
    ensures Happen(n, ev).Running? ==> Happen(n, ev).net.a.conf == n.a.conf && Happen(n, ev).net.b.conf == n.b.conf
  {
    HappenKeeps(n, ev);
    InFlightLink(n.a, n.b, n.toB, n.toA);
    InFlightLink(n.b, n.a, n.toA, n.toB);
    match ev
    case IoA(io) => ChannelIoQuiet(n.a, io); hide ChannelIo, NetInv;
    case IoB(io) => ChannelIoQuiet(n.b, io); hide ChannelIo, NetInv;
    case DeliverToB(w, e) =>
      hide NetInv;
      if n.toB < |n.a.tx.sent| { ReceiveConfig(n.b, n.a.tx.sent[n.toB], w, e); }
    case DeliverToA(w, e) =>
      hide NetInv;
      if n.toA < |n.b.tx.sent| { ReceiveConfig(n.a, n.b.tx.sent[n.toA], w, e); }
  }

  lemma ReceiveConfig(c: Chan, m: Msg, w: WriteResult, e: CloseEnv)
    requires c.tx.window < 0x1_0000_0000
    ensures Receive(c, m, w, e).Next? ==> Receive(c, m, w, e).c.conf == c.conf
  {
    CheckCloseQuiet(RecvEof(c), e);
    CheckCloseQuiet(RecvClose(c), e);
    hide CheckClose;
  }

  /**
   Data that arrives always finds room: the exits for unknown channels, late data and oversized packets are not
   taken.
   */
  lemma NeverOversized(n: Net, events: seq<Event>, w: WriteResult, e: CloseEnv)
    requires Opened(n)
    ensures Run(n, events).Running?
    ensures var f := Run(n, events).net;
            f.toB < |f.a.tx.sent| ==>
              var m := f.a.tx.sent[f.toB];
              && MsgBytes(m) <= f.b.rx.window
              && f.b.rx.window <= n.b.conf.recvWindow - |f.b.rx.writebuf|
              && Receive(f.b, m, w, e).Next?
  {
    OpenedInv(n);
    RunKeeps(n, events);
    RunConfig(n, events);
    var f := Run(n, events).net;
    hide Run, Opened;
    if f.toB < |f.a.tx.sent| {
      NextFits(f.a, f.b, f.toB, f.toA);
      DeliveredLinks(f.a, f.b, f.toB, f.toA, w, e);
      hide PhaseOf, Receive, Link;
    }
  }

  /**
   EOF and CLOSE are sent at most once; no data follows EOF, nothing follows CLOSE; a close handler runs exactly
   once, with CLOSE; a channel is gone only after both CLOSEs.
   */
  lemma MessageOrder(n: Net, events: seq<Event>)
    requires Opened(n)
    ensures Run(n, events).Running?
    ensures var c := Run(n, events).net.a;
            && (forall i, j :: 0 <= i < j < |c.tx.sent| ==>
                  !c.tx.sent[i].Close? && (c.tx.sent[i].Eof? ==> c.tx.sent[j].WindowAdjust? || c.tx.sent[j].Close?))
            && c.flags.handlerRuns == (if c.conf.hasCloseHandler && c.flags.sentClose then 1 else 0)
            && (c.flags.removed ==> c.flags.recvClose && c.flags.sentClose)
  {
    OpenedInv(n);
    RunKeeps(n, events);
    var c := Run(n, events).net.a;
    hide Run, Link, Opened;
    forall i, j | 0 <= i < j < |c.tx.sent|
      ensures !c.tx.sent[i].Close? && (c.tx.sent[i].Eof? ==> c.tx.sent[j].WindowAdjust? || c.tx.sent[j].Close?)
    {
      PhaseAfter(c.tx.sent, i);
    }
    hide PhaseOf;
  }

  /**
   What is written to b's descriptor is a prefix of what a has read; together with b's queue and the data in
   flight it is all of it while the descriptor is open.
   */
  lemma StreamLaw(n: Net, events: seq<Event>, ext: bool)
    requires Opened(n)
    ensures Run(n, events).Running?
    ensures var f := Run(n, events).net;
            && f.toB <= |f.a.tx.sent|
            && Written(f.b.rx, ext) <= Input(n, events, ext)
            && (HasBuffer(f.b, ext) && WriteFd(f.b, ext) >= 0 ==>
                  Written(f.b.rx, ext) + Buffer(f.b.rx, ext) + Payload(f.a.tx.sent[f.toB..], ext) ==
                  Input(n, events, ext))
  {
    OpenedInv(n);
    RunKeeps(n, events);
    OpenedInput(n, events, ext);
    var f := Run(n, events).net;
    PayloadSplit(f.a.tx.sent, f.toB, ext);
    hide Run, Opened, Inv, Input, AllFit, Windows, Ends, Payload;
  }

  /** Every packet with data fits the limit that the peer has announced, and the packet buffer; none is empty. */
  lemma PacketsFit(n: Net, events: seq<Event>)
    requires Opened(n)
    ensures Run(n, events).Running? && AllFit(Run(n, events).net.a)
    ensures Run(n, events).net.a.tx.maxpacket == n.a.tx.maxpacket
  {
    OpenedInv(n);
    RunKeeps(n, events);
    OpenedInput(n, events, false);
    SentIsRead(n, events, false);
    hide Run, Input;
  }

  /** With drained buffers, nothing in flight and nothing lost, the sender may send: most of the window is open. */
  lemma NoDeadlock(n: Net, events: seq<Event>)
    requires Opened(n)
    ensures Run(n, events).Running?
    ensures var f := Run(n, events).net;
            && f.toB == |f.a.tx.sent| && f.toA == |f.b.tx.sent|
            && f.b.rx.writebuf == [] && f.b.rx.Extra() == [] && f.b.rx.dropped == 0 && f.b.rx.discarded == 0
            ==> f.a.tx.window > n.b.conf.recvWindow - n.b.conf.recvWindow / 3 || f.a.tx.window == n.b.conf.recvWindow
  {
    WindowLaw(n, events);
    OpenedInv(n);
    RunKeeps(n, events);
    RunConfig(n, events);
    var f := Run(n, events).net;
    assert f.toB == |f.a.tx.sent| ==> f.a.tx.sent[f.toB..] == [];
    assert f.toA == |f.b.tx.sent| ==> f.b.tx.sent[f.toA..] == [];
    hide Run, Opened, Link, PhaseOf;
  }

  // ----- the two sides are alike -----

  function Mirrored(ev: Event): Event {
    match ev
    case IoA(io) => IoB(io)
    case IoB(io) => IoA(io)
    case DeliverToA(w, e) => DeliverToB(w, e)
    case DeliverToB(w, e) => DeliverToA(w, e)
  }

  function MirroredAll(events: seq<Event>): (r: seq<Event>)
    ensures |r| == |events|
  {
    if events == [] then [] else [Mirrored(events[0])] + MirroredAll(events[1..])
  }

  /** Exchanging the endpoints turns runs into runs, so what is proved of one direction holds of the other. */
  lemma {:induction false} RunMirrored(n: Net, events: seq<Event>)
    ensures Run(Swap(n), MirroredAll(events)) == Unswap(Run(n, events))
    decreases |events|
  {
    if events != [] {
      HappenMirrored(n, events[0]);
      assert MirroredAll(events)[1..] == MirroredAll(events[1..]);
      if Happen(n, events[0]).Running? {
        RunMirrored(Happen(n, events[0]).net, events[1..]);
      }
      hide Happen;
    }
  }

  lemma HappenMirrored(n: Net, ev: Event)
    ensures Happen(Swap(n), Mirrored(ev)) == Unswap(Happen(n, ev))
  {
    hide ChannelIo, Receive;
  }

  // ----- why types with separate shutdowns must leave errfd closed -----

  /** No read of either descriptor makes the channel send. */
  ghost predicate Silent(c: Chan) {
    forall ext, r :: IoRead(c, ext, r) == c
  }

  /**
   After CLOSE an endpoint is silent unless it shuts its directions down separately and reads errfd as
   a descriptor of its own: send_msg_channel_close asks for SHUT_RDWR, which close_chan_fd takes as
   a shutdown of the write side only, so that errfd stays open and data can follow CLOSE.
   */
  lemma SilentAfterClose(c: Chan)
    ensures Silent(SendClose(c)) <==>
            !(c.conf.sepfds && !c.ErrIsWrite() && c.fds.err >= 0 && c.fds.err != c.fds.read && MaxLen(c, true) > 0)
  {
    var d := SendClose(c);
    assert d.fds.read == FD_CLOSED && d.tx.window == c.tx.window && d.tx.maxpacket == c.tx.maxpacket;
    if c.conf.sepfds && !c.ErrIsWrite() && c.fds.err >= 0 && c.fds.err != c.fds.read && MaxLen(c, true) > 0 {
      hide SendClose;
      assert IoRead(d, true, Some(Got([0 as byte]))).tx.sent == d.tx.sent + [Extended([0 as byte])];
      assert IoRead(d, true, Some(Got([0 as byte]))) != d;
    }
  }
}
