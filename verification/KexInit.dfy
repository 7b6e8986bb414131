/** The KEXINIT payload, and the suite of algorithms two peers settle on. */
module KexInit {
  import opened Wrappers
  import opened Bytes
  import opened Wire
  import opened AlgoList
  import opened AlgoMatch
  import opened AlgoAgree

  /** The local tables; one table serves both directions. */
  datatype Tables = Tables(kex: seq<Entry>, host: seq<Entry>, cipher: seq<Entry>, mac: seq<Entry>, comp: seq<Entry>)

  ghost predicate AllWellFormed(t: Tables) {
    WellFormed(t.kex) && WellFormed(t.host) && WellFormed(t.cipher) && WellFormed(t.mac) && WellFormed(t.comp)
  }

  /** The ten lists of send_msg_kexinit, languages last. */
  function Lists(t: Tables): (r: seq<seq<byte>>)
    ensures |r| == 10
  {
    var cipher, mac, comp := Join(Usable(t.cipher)), Join(Usable(t.mac)), Join(Usable(t.comp));
    [Join(Usable(t.kex)), Join(Usable(t.host)), cipher, cipher, mac, mac, comp, comp, [], []]
  }

  ghost predicate Short(lists: seq<seq<byte>>) {
    forall i :: 0 <= i < |lists| ==> |lists[i]| <= MAX_STRING_LEN
  }

  ghost function ListsWire(lists: seq<seq<byte>>): seq<byte>
    requires Short(lists)
  {
    if lists == [] then []
    else
      assert Short(lists[1..]) by { assert forall i :: 0 <= i < |lists| - 1 ==> lists[1..][i] == lists[i + 1]; }
      StringWire(lists[0]) + ListsWire(lists[1..])
  }

  function ReadLists(s: seq<byte>, n: nat): Parsed<seq<seq<byte>>>
    decreases n
  {
    if n == 0 then Parsed([], s)
    else match ReadString(s)
      case Refused => Refused
      case Exited => Exited
      case Parsed(first, rest) =>
        match ReadLists(rest, n - 1)
        case Parsed(more, end) => Parsed([first] + more, end)
        case o => o
  }

  /** The receiver reads the very lists that were written. */
  lemma {:induction false} ListsRoundTrip(lists: seq<seq<byte>>, x: seq<byte>)
    requires Short(lists)
    ensures ReadLists(ListsWire(lists) + x, |lists|) == Parsed(lists, x)
    decreases |lists|
  {
    hide ReadString, StringWire;
    if lists != [] {
      assert Short(lists[1..]) by { assert forall i :: 0 <= i < |lists| - 1 ==> lists[1..][i] == lists[i + 1]; }
      var rest := ListsWire(lists[1..]) + x;
      assert ListsWire(lists) + x == StringWire(lists[0]) + rest;
      StringRoundTrip(lists[0], rest);
      ListsRoundTrip(lists[1..], x);
      assert [lists[0]] + lists[1..] == lists;
    }
  }

  lemma ListsShort(t: Tables)
    requires AllWellFormed(t)
    ensures Short(Lists(t))
  {
    hide Join, Usable;
  }

  const SSH_MSG_KEXINIT: byte := 20

  /** send_msg_kexinit: type, cookie, the ten lists, first_kex_packet_follows, reserved. */
  ghost function KexinitPayload(cookie: seq<byte>, t: Tables, follows: bool): seq<byte>
    requires |cookie| == 16 && AllWellFormed(t)
  {
    ListsShort(t);
    ([SSH_MSG_KEXINIT] + cookie) + (ListsWire(Lists(t)) + ([if follows then 1 else 0] + U32Wire(0)))
  }

  /** What read_kex_algos finds behind the type and the cookie. */
  function ReceivedLists(payload: seq<byte>): Parsed<seq<seq<byte>>> {
    if |payload| < 17 then Exited else ReadLists(payload[17..], 10)
  }

  lemma ListsSpelled(t: Tables)
    ensures var cipher, mac, comp := Join(Usable(t.cipher)), Join(Usable(t.mac)), Join(Usable(t.comp));
            Lists(t) == [Join(Usable(t.kex)), Join(Usable(t.host)), cipher, cipher, mac, mac, comp, comp, [], []]
  { }

  /** The receiver of a KEXINIT reads the sender's lists, in the order of section 7.1 of RFC 4253, and the flag. */
  lemma PayloadRoundTrip(cookie: seq<byte>, t: Tables, follows: bool)
    requires |cookie| == 16 && AllWellFormed(t)
    ensures var payload := KexinitPayload(cookie, t, follows);
            && payload[0] == 20 && payload[1..17] == cookie
            && ReceivedLists(payload) == Parsed(Lists(t), [if follows then 1 else 0, 0, 0, 0, 0])
    ensures var cipher, mac, comp := Join(Usable(t.cipher)), Join(Usable(t.mac)), Join(Usable(t.comp));
            Lists(t) == [Join(Usable(t.kex)), Join(Usable(t.host)), cipher, cipher, mac, mac, comp, comp, [], []]
  {
    hide ReadLists, ListsWire, AllWellFormed, Join, Usable, Short;
    ListsSpelled(t);
    hide Lists;
    ListsShort(t);
    TailBytes(follows);
    var tail := [if follows then 1 else 0] + U32Wire(0);
    hide U32Wire;
    ListsRoundTrip(Lists(t), tail);
    Behind(SSH_MSG_KEXINIT, cookie, ListsWire(Lists(t)) + tail);
  }

  lemma TailBytes(follows: bool)
    ensures [if follows then 1 else 0] + U32Wire(0) == [if follows then 1 else 0, 0, 0, 0, 0]
  { }

  lemma Behind(first: byte, cookie: seq<byte>, rest: seq<byte>)
    ensures var s := ([first] + cookie) + rest;
            s[0] == first && s[1..1 + |cookie|] == cookie && s[1 + |cookie|..] == rest
  { }

  /** One side's choice from one list: nothing, which ends the program, or a name of its table. */
  ghost predicate Selects(t: seq<Entry>, server: bool, list: seq<byte>, name: Option<Name>) {
    exists g: Option<Guess2>, ret: Option<nat>, good ::
      && Picks(t, server, RemoteNames(list), g, ret, good)
      && (ret.None? ==> name == None)
      && (ret.Some? ==> ret.value < |t| && name == Some(t[ret.value].name))
  }

  lemma SelectionsAgree(c: seq<Entry>, s: seq<Entry>, nc: Option<Name>, ns: Option<Name>)
    requires WellFormed(c) && WellFormed(s)
    requires Selects(c, false, Join(Usable(s)), nc) && Selects(s, true, Join(Usable(c)), ns)
    ensures nc == ns == FirstCommon(Usable(c), Usable(s))
  {
    hide Picks, RemoteNames, Join, Usable, WellFormed, FirstCommon;
    var gc: Option<Guess2>, rc: Option<nat>, goodc :|
      && Picks(c, false, RemoteNames(Join(Usable(s))), gc, rc, goodc)
      && (rc.None? ==> nc == None) && (rc.Some? ==> rc.value < |c| && nc == Some(c[rc.value].name));
    var gs: Option<Guess2>, rs: Option<nat>, goods :|
      && Picks(s, true, RemoteNames(Join(Usable(c))), gs, rs, goods)
      && (rs.None? ==> ns == None) && (rs.Some? ==> rs.value < |s| && ns == Some(s[rs.value].name));
    SidesAgree(c, s, gc, rc, goodc, gs, rs, goods);
  }

  /** The algorithms of one direction. */
  datatype Direction = Direction(cipher: Option<Name>, mac: Option<Name>, comp: Option<Name>)

  /** What read_kex_algos stores: the methods, and each direction in its place. */
  datatype Chosen = Chosen(kex: Option<Name>, host: Option<Name>, trans: Direction, recv: Direction)

  /** read_kex_algos on the peer's lists: of each pair the first is for client to server, which the server receives. */
  ghost predicate Negotiates(t: Tables, server: bool, lists: seq<seq<byte>>, r: Chosen) {
    && |lists| == 10
    && var c2s := if server then r.recv else r.trans;
    var s2c := if server then r.trans else r.recv;
    && Selects(t.kex, server, lists[0], r.kex) && Selects(t.host, server, lists[1], r.host)
    && Selects(t.cipher, server, lists[2], c2s.cipher) && Selects(t.cipher, server, lists[3], s2c.cipher)
    && Selects(t.mac, server, lists[4], c2s.mac) && Selects(t.mac, server, lists[5], s2c.mac)
    && Selects(t.comp, server, lists[6], c2s.comp) && Selects(t.comp, server, lists[7], s2c.comp)
  }

  /** The same from the payload as it was received. */
  ghost predicate NegotiatesFrom(t: Tables, server: bool, payload: seq<byte>, r: Chosen) {
    ReceivedLists(payload).Parsed? && Negotiates(t, server, ReceivedLists(payload).value, r)
  }

  /** read_kex_algos goes on: everything has been chosen, and the method is not the kexguess2 marker. */
  predicate Proceeds(r: Chosen) {
    && r.kex.Some? && r.kex.value != KEXGUESS2_ALGO_NAME && r.host.Some?
    && r.trans.cipher.Some? && r.trans.mac.Some? && r.trans.comp.Some?
    && r.recv.cipher.Some? && r.recv.mac.Some? && r.recv.comp.Some?
  }

  /**
   Client and server settle on the same methods, and each transmits with what the other receives with; or both exit.
   */
  lemma SuitesAgree(c: Tables, s: Tables, rc: Chosen, rs: Chosen)
    requires AllWellFormed(c) && AllWellFormed(s)
    requires Negotiates(c, false, Lists(s), rc) && Negotiates(s, true, Lists(c), rs)
    ensures rc.kex == rs.kex && rc.host == rs.host && rc.trans == rs.recv && rc.recv == rs.trans
    ensures Proceeds(rc) <==> Proceeds(rs)
  {
    hide Selects, Join, Usable, WellFormed, FirstCommon;
    SelectionsAgree(c.kex, s.kex, rc.kex, rs.kex);
    SelectionsAgree(c.host, s.host, rc.host, rs.host);
    SelectionsAgree(c.cipher, s.cipher, rc.trans.cipher, rs.recv.cipher);
    SelectionsAgree(c.cipher, s.cipher, rc.recv.cipher, rs.trans.cipher);
    SelectionsAgree(c.mac, s.mac, rc.trans.mac, rs.recv.mac);
    SelectionsAgree(c.mac, s.mac, rc.recv.mac, rs.trans.mac);
    SelectionsAgree(c.comp, s.comp, rc.trans.comp, rs.recv.comp);
    SelectionsAgree(c.comp, s.comp, rc.recv.comp, rs.trans.comp);
  }
}
