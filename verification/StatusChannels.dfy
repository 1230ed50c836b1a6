/** The bounded, lossy channels on which the Spinner announces discovery events, and the two
    methods that use them: the Spinner's announcement and the poll of a `MatchWait`. */
module StatusChannels {
  import opened MatchTables
  import opened SwapRemoval

  datatype TrySendResult = Sent | Full | Closed

  /** A bounded multi-producer channel with one receiver.
      `waker`: the receiver's task has registered to be woken by the next change.
      `open`: the receiver still exists. `hungUp`: all senders are gone. */
  datatype Channel = Channel(capacity: nat, queue: seq<Event>, waker: bool, open: bool, hungUp: bool) {

    function TrySend(e: Event): (Channel, TrySendResult) {
      if !open then (this, Closed)
      else if |queue| >= capacity then (this, Full)
      else (this.(queue := queue + [e], waker := false), Sent)
    }

    /** The receiver's task is woken by a send exactly when the event got in and a waker was waiting. */
    predicate WokenBy(e: Event) {
      TrySend(e).1.Sent? && waker
    }
  }

  /** A channel object, shared by the Spinner's sender and the waiting task's receiver. */
  class StatusChannel {
    const capacity: nat
    var queue: seq<Event>
    var waker: bool
    var open: bool
    var hungUp: bool
    var woken: bool // the receiver's task has been scheduled again

    function View(): Channel
      reads this
    {
      Channel(capacity, queue, waker, open, hungUp)
    }

    constructor (capacity: nat)
      ensures View() == Channel(capacity, [], false, true, false) && !woken
    {
      this.capacity := capacity;
      queue, waker, open, hungUp, woken := [], false, true, false, false;
    }

    /** `try_send`: a closed or a full channel is left alone; any other gets the event at its end,
        and a registered waker is used up. */
    method TrySend(e: Event) returns (r: TrySendResult)
      modifies this
      ensures (View(), r) == old(View()).TrySend(e)
      ensures !old(open) ==> r == Closed && View() == old(View()) && woken == old(woken)
      ensures old(open) && |old(queue)| >= capacity ==> r == Full && View() == old(View()) && woken == old(woken)
      ensures old(open) && |old(queue)| < capacity ==>
                && r == Sent && queue == old(queue) + [e] && open && !waker && hungUp == old(hungUp)
                && woken == (old(woken) || old(waker))
    {
      if !open {
        return Closed;
      }
      if |queue| >= capacity {
        return Full;
      }
      queue := queue + [e];
      if waker {
        waker, woken := false, true;
      }
      r := Sent;
    }
  }

  /** The recorded positions are those of the closed ones among the first `n`, in order. */
  ghost predicate ClosedAmong(indices: seq<nat>, open: seq<bool>, n: nat)
    requires n <= |open|
  {
    && Ascending(indices, n)
    && forall k :: 0 <= k < n ==> (k in indices <==> !open[k])
  }

  datatype Subscription = Receiver(channel: StatusChannel) | Panics

  class StatusEventSenders {
    var senders: seq<StatusChannel>
    var haveSpinner: bool

    /** Every receiver got its own channel. */
    ghost predicate Valid()
      reads this
    {
      forall i, j :: 0 <= i < j < |senders| ==> senders[i] != senders[j]
    }

    constructor ()
      ensures Valid() && senders == [] && !haveSpinner
    {
      senders, haveSpinner := [], false;
    }

    /** `spinner`, as far as it matters here: from now on there is one; a second one panics. */
    method StartSpinner() returns (panics: bool)
      modifies this`haveSpinner
      ensures haveSpinner && panics == old(haveSpinner)
    {
      panics := haveSpinner;
      if !panics {
        haveSpinner := true;
      }
    }

    /** `status_receiver`: a new channel of capacity 8 joins the list; without a Spinner it panics. */
    method StatusReceiver() returns (r: Subscription)
      requires Valid()
      requires forall s :: s in senders ==> allocated(s)
      modifies this`senders
      ensures Valid() && (r.Panics? <==> !haveSpinner)
      ensures r.Panics? ==> senders == old(senders)
      ensures r.Receiver? ==>
                && fresh(r.channel) && senders == old(senders) + [r.channel]
                && r.channel.View() == Channel(8, [], false, true, false)
    {
      if !haveSpinner {
        return Panics;
      }
      var channel := new StatusChannel(8);
      senders := senders + [channel];
      r := Receiver(channel);
    }

    /** `send_status_event`: offers the event to every channel, then drops the senders whose
        receiver is gone, and no others. An open channel with room has the event at its end, and
        its receiver is woken if it waits; every other channel is as before. */
    method SendStatusEvent(e: Event)
      requires Valid()
      modifies this`senders, senders
      ensures forall s :: s in old(senders) ==>
                && s.queue == old(s.queue) + (if old(s.open && |s.queue| < s.capacity) then [e] else [])
                && s.waker == old(s.waker && !(s.open && |s.queue| < s.capacity))
                && s.woken == old(s.woken || (s.waker && s.open && |s.queue| < s.capacity))
                && s.open == old(s.open) && s.hungUp == old(s.hungUp)
      ensures Valid()
      ensures forall s :: s in senders ==> s in old(senders)
      ensures forall s :: s in old(senders) ==> (s in senders <==> old(s.open))
    {
      ghost var all := senders;
      ghost var open := seq(|all|, i requires 0 <= i < |all| reads all => all[i].open);
      var closed := OfferToAll(e, open);
      SendersLeft(all, open, closed);
      RemoveClosed(closed);
    }

    /** The first loop: a `try_send` to each, recording the positions that reported `Closed`. */
    method OfferToAll(e: Event, ghost open: seq<bool>) returns (closed: seq<nat>)
      requires Valid()
      requires |open| == |senders| && forall k :: 0 <= k < |senders| ==> senders[k].open == open[k]
      modifies senders
      ensures ClosedAmong(closed, open, |senders|)
      ensures forall s :: s in senders ==>
                && s.queue == old(s.queue) + (if old(s.open && |s.queue| < s.capacity) then [e] else [])
                && s.waker == old(s.waker && !(s.open && |s.queue| < s.capacity))
                && s.woken == old(s.woken || (s.waker && s.open && |s.queue| < s.capacity))
                && s.open == old(s.open) && s.hungUp == old(s.hungUp)
    {
      closed := [];
      for i := 0 to |senders|
        invariant ClosedAmong(closed, open, i)
        invariant forall k :: 0 <= k < i ==>
                    && senders[k].queue ==
                         old(senders[k].queue) + (if old(senders[k].open && |senders[k].queue| < senders[k].capacity) then [e] else [])
                    && senders[k].waker == old(senders[k].waker && !(senders[k].open && |senders[k].queue| < senders[k].capacity))
                    && senders[k].woken ==
                         old(senders[k].woken || (senders[k].waker && senders[k].open && |senders[k].queue| < senders[k].capacity))
                    && senders[k].open == old(senders[k].open) && senders[k].hungUp == old(senders[k].hungUp)
        invariant forall k :: i <= k < |senders| ==> unchanged(senders[k])
      {
        var r := senders[i].TrySend(e);
        if r == Closed {
          closed := closed + [i];
        }
      }
    }

    /** The second loop: `swap_remove` of every recorded position, the largest first. */
    method RemoveClosed(closed: seq<nat>)
      requires Ascending(closed, |senders|)
      modifies this`senders
      ensures senders == Prune(old(senders), closed)
    {
      var n := |closed|;
      assert closed[..n] == closed;
      while n > 0
        invariant n <= |closed| && Ascending(closed[..n], |senders|)
        invariant Prune(senders, closed[..n]) == Prune(old(senders), closed)
      {
        PruneLast(senders, closed[..n]);
        assert closed[..n][..n - 1] == closed[..n - 1];
        n := n - 1;
        senders := SwapRemove(senders, closed[n]);
      }
    }
  }

  lemma PruneLast(senders: seq<StatusChannel>, closed: seq<nat>)
    requires closed != [] && Ascending(closed, |senders|)
    ensures var last := |closed| - 1;
            && Ascending(closed[..last], |SwapRemove(senders, closed[last])|)
            && Prune(senders, closed) == Prune(SwapRemove(senders, closed[last]), closed[..last])
  {
  }

  lemma SendersLeft(all: seq<StatusChannel>, open: seq<bool>, closed: seq<nat>)
    requires |all| == |open| && ClosedAmong(closed, open, |all|)
    requires forall i, j :: 0 <= i < j < |all| ==> all[i] != all[j]
    ensures forall s :: s in Prune(all, closed) ==> s in all
    ensures forall k :: 0 <= k < |all| ==> (all[k] in Prune(all, closed) <==> open[k])
    ensures var p := Prune(all, closed); forall i, j :: 0 <= i < j < |p| ==> p[i] != p[j]
  {
    forall s | s in Prune(all, closed) ensures s in all {
      PruneMembers(all, closed, s);
    }
    forall k | 0 <= k < |all| ensures all[k] in Prune(all, closed) <==> open[k] {
      PruneMembers(all, closed, all[k]);
    }
    PruneDistinct(all, closed);
  }

  lemma PruneDistinct<T>(s: seq<T>, indices: seq<nat>)
    requires Ascending(indices, |s|)
    requires forall i, j :: 0 <= i < j < |s| ==> s[i] != s[j]
    ensures var p := Prune(s, indices); forall i, j :: 0 <= i < j < |p| ==> p[i] != p[j]
    decreases |indices|
  {
    if indices != [] {
      var last := |indices| - 1;
      assert forall a :: 0 <= a < last ==> indices[a] < indices[last];
      PruneDistinct(SwapRemove(s, indices[last]), indices[..last]);
    }
  }

  /** A future that resolves once its local endpoint has a matched remote. */
  class MatchWait {
    const side: Side
    const local: Guid
    const matches: MatchRecorder
    const channel: StatusChannel
    var streamOpen: bool

    constructor (side: Side, local: Guid, matches: MatchRecorder, channel: StatusChannel)
      ensures this.side == side && this.local == local && this.matches == matches && this.channel == channel
      ensures streamOpen
    {
      this.side, this.local, this.matches, this.channel := side, local, matches, channel;
      streamOpen := true;
    }

    method Matched() returns (b: bool)
      ensures b <==> matches.View().Remotes(side, local) != {}
    {
      var table := if side.LocalReader? then matches.readersToRemoteWriters else matches.writersToRemoteReaders;
      b := local in table && table[local] != {};
    }

    /** One `poll`, uninterrupted: resolves exactly when a remote is in the table, whatever
        the drained events say; a stream that is still open is left empty with a waker
        registered, a closed one is given up. */
    method Poll() returns (ready: bool)
      modifies this`streamOpen, channel`queue, channel`waker
      ensures ready <==> matches.View().Remotes(side, local) != {}
      ensures streamOpen <==> old(streamOpen) && !channel.hungUp
      ensures old(streamOpen) ==> channel.queue == []
      ensures streamOpen ==> channel.waker
      ensures !old(streamOpen) ==> channel.View() == old(channel.View())
      ensures old(streamOpen) && channel.hungUp ==> channel.waker == old(channel.waker)
    {
      if streamOpen {
        while channel.queue != []
          modifies channel`queue
          decreases |channel.queue|
        {
          channel.queue := channel.queue[1..];
        }
        if channel.hungUp {
          streamOpen := false;
        } else {
          channel.waker := true;
        }
      }
      ready := Matched();
    }
  }
}
