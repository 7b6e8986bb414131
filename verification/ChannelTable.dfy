/** The slot table of a session: newchannel, getchannel and remove_channel. */
module ChannelTable {
  import opened Wrappers

  const MAX_CHANNELS := 1000
  const CHAN_EXTEND_SIZE := 3

  /** How many slots hold a channel. */
  function Used<T>(slots: seq<Option<T>>): (n: nat)
    ensures n <= |slots|
  {
    if slots == [] then 0 else Used(slots[..|slots| - 1]) + (if slots[|slots| - 1].Some? then 1 else 0)
  }

  lemma {:induction false} UsedFull<T>(slots: seq<Option<T>>)
    ensures Used(slots) == |slots| <==> forall i :: 0 <= i < |slots| ==> slots[i].Some?
  {
    if slots != [] {
      var front := slots[..|slots| - 1];
      UsedFull(front);
      assert (forall i :: 0 <= i < |slots| ==> slots[i].Some?)
        <==> (forall i :: 0 <= i < |front| ==> front[i].Some?) && slots[|slots| - 1].Some?;
    }
  }

  lemma {:induction false} UsedUpdate<T>(slots: seq<Option<T>>, k: nat, v: Option<T>)
    requires k < |slots|
    ensures Used(slots[k := v]) == Used(slots) - (if slots[k].Some? then 1 else 0) + (if v.Some? then 1 else 0)
  {
    var last := |slots| - 1;
    var front := slots[..last];
    if k < last {
      UsedUpdate(front, k, v);
      assert slots[k := v][..last] == front[k := v];
    } else {
      assert slots[k := v][..last] == front;
    }
  }

  lemma {:induction false} UsedExtend<T>(slots: seq<Option<T>>, n: nat)
    ensures Used(slots + seq(n, _ => None)) == Used(slots)
  {
    var more := slots + seq(n, _ => None);
    if n == 0 {
      assert more == slots;
    } else {
      UsedExtend(slots, n - 1);
      assert more[..|more| - 1] == slots + seq(n - 1, _ => None);
    }
  }

  class Table<T> {
    var channels: seq<Option<T>>
    var chancount: nat

    /** chansize grows from 1 in steps of 3, so that it meets MAX_CHANNELS exactly. */
    ghost predicate Valid()
      reads this
    {
      && chancount == Used(channels)
      && |channels| % CHAN_EXTEND_SIZE == 1
      && |channels| <= MAX_CHANNELS
    }

    /** chaninitialise. */
    constructor ()
      ensures Valid() && channels == [None]
    {
      channels, chancount := [None], 0;
    }

    /**
     newchannel: the new channel takes the lowest free index and disturbs no other. It is refused
     exactly when MAX_CHANNELS channels are open.
     */
    method NewChannel(chan: T) returns (index: Option<nat>)
      requires Valid()
      modifies this
      ensures Valid()
      ensures index == None <==> old(chancount) == MAX_CHANNELS
      ensures index == None ==> channels == old(channels)
      ensures index != None ==>
                && index.value < |channels| && chancount == old(chancount) + 1
                && channels[index.value] == Some(chan)
                && (index.value < |old(channels)| ==> old(channels)[index.value] == None)
                && (forall j :: 0 <= j < index.value ==> j < |old(channels)| && old(channels)[j].Some?)
                && (forall j :: 0 <= j < |channels| && j != index.value ==>
                      channels[j] == if j < |old(channels)| then old(channels)[j] else None)
    {
      UsedFull(channels);
      var i := 0;
      while i < |channels| && channels[i].Some?
        invariant 0 <= i <= |channels|
        invariant forall j :: 0 <= j < i ==> channels[j].Some?
      {
        i := i + 1;
      }
      if i == |channels| {
        if |channels| >= MAX_CHANNELS {
          return None;
        }
        UsedExtend(channels, CHAN_EXTEND_SIZE);
        channels := channels + seq(CHAN_EXTEND_SIZE, _ => None);
      }
      UsedUpdate(channels, i, Some(chan));
      channels := channels[i := Some(chan)];
      chancount := chancount + 1;
      return Some(i);
    }

    /** getchannel: None when the program ends because of an unknown channel. */
    method GetChannel(chan: nat) returns (found: Option<T>)
      ensures found.Some? <==> chan < |channels| && channels[chan].Some?
      ensures found.Some? ==> found == channels[chan]
    {
      if chan >= |channels| || channels[chan].None? {
        return None;
      }
      return channels[chan];
    }

    /** The table part of remove_channel. */
    method RemoveChannel(index: nat)
      requires Valid() && index < |channels| && channels[index].Some?
      modifies this
      ensures Valid() && chancount == old(chancount) - 1 && channels == old(channels)[index := None]
    {
      UsedUpdate(channels, index, None);
      channels := channels[index := None];
      chancount := chancount - 1;
    }
  }
}
