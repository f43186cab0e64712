/** Sequenced messages from sender to receiver. The sender counts them over all channels
    and starts again at every ordered message; the receiver compares the counts of one
    channel (src/reliability/layer.rs:527-541 and 436-440). */
module SequencedMessages {
  import opened Basics
  import opened Datagrams
  import opened Ordering
  import opened Retransmission
  import opened Scheduling
  import opened Senders

  /** What is asked of `send`, as far as sequencing goes. */
  datatype Request = Request(reliability: Reliability, channel: byte, data: Bytes)

  /** The sender's counters after these requests. */
  function SequenceIndex(sends: seq<Request>): nat {
    if sends == [] then 0 else NextSequence(SequenceIndex(sends[..|sends| - 1]), sends[|sends| - 1].reliability)
  }

  predicate OnChannels(sends: seq<Request>) {
    forall i :: 0 <= i < |sends| && sends[i].reliability.UsesChannel() ==> sends[i].channel < ORDERING_CHANNEL_SIZE
  }

  function OrderingIndices(sends: seq<Request>): (indices: seq<nat>)
    requires OnChannels(sends)
    ensures |indices| == ORDERING_CHANNEL_SIZE
  {
    if sends == [] then
      seq(ORDERING_CHANNEL_SIZE, _ => 0)
    else
      var n := |sends| - 1;
      NextOrdering(OrderingIndices(sends[..n]), sends[n].reliability, sends[n].channel)
  }

  predicate IsOrderedOnly(reliability: Reliability) {
    !reliability.IsSequenced() && reliability.IsOrdered()
  }

  predicate SequencedOn(sends: seq<Request>, channel: byte, p: nat) {
    p < |sends| && sends[p].reliability.IsSequenced() && sends[p].channel == channel
  }

  /** The channel carries no ordered messages. */
  predicate OnlySequenced(sends: seq<Request>, channel: byte) {
    forall i :: 0 <= i < |sends| && sends[i].channel == channel ==> !IsOrderedOnly(sends[i].reliability)
  }

  lemma {:induction false} OrderingStays(sends: seq<Request>, channel: byte)
    requires OnChannels(sends) && OnlySequenced(sends, channel) && channel < ORDERING_CHANNEL_SIZE
    ensures OrderingIndices(sends)[channel] == 0
  {
    if sends != [] {
      OrderingStays(sends[..|sends| - 1], channel);
    }
  }

  /** A sender whose counters are what these requests have made them. */
  function After(sends: seq<Request>): Sender
    requires OnChannels(sends)
  {
    Sender(0, Schedule([], []), EmptyCache(), 0, 0, SequenceIndex(sends), OrderingIndices(sends), 0)
  }

  lemma OnChannelsPrefix(sends: seq<Request>, p: nat)
    requires p <= |sends| && OnChannels(sends)
    ensures OnChannels(sends[..p])
  {
  }

  /** Request `p` as one fragment, as `send` makes it before it is known whether it has to
      be split. */
  function WholeOf(sends: seq<Request>, p: nat): (whole: Fragment)
    requires p < |sends| && OnChannels(sends)
    ensures whole.data == sends[p].data && whole.splitInfo.None? && whole.reliableIndex.None?
    ensures sends[p].reliability.UsesChannel() ==> whole.orderingInfo.Some?
  {
    OnChannelsPrefix(sends, p);
    Whole(After(sends[..p]), sends[p].reliability, sends[p].channel, sends[p].data)
  }

  lemma WholeIs(sends: seq<Request>, channel: byte, p: nat)
    requires OnChannels(sends) && OnlySequenced(sends, channel) && SequencedOn(sends, channel, p)
    ensures var whole := WholeOf(sends, p);
            whole.sequenceIndex == Some(SequenceIndex(sends[..p])) && whole.orderingInfo == Some(OrderingInfo(0, channel))
  {
    OnChannelsPrefix(sends, p);
    OrderingStays(sends[..p], channel);
  }

  // ---- the receiver ----

  predicate Arrivals(sends: seq<Request>, channel: byte, arrivals: seq<nat>) {
    forall i :: 0 <= i < |arrivals| ==> SequencedOn(sends, channel, arrivals[i])
  }

  /** What the channel hands up when the sequenced messages of these requests arrive, each
      told by the position of its request. */
  function Heard(sends: seq<Request>, channel: byte, arrivals: seq<nat>): (Channel<nat>, seq<nat>)
    requires OnChannels(sends) && Arrivals(sends, channel, arrivals)
  {
    if arrivals == [] then
      (Closed(), [])
    else
      var n := |arrivals| - 1;
      var (c, heard) := Heard(sends, channel, arrivals[..n]);
      assert SequencedOn(sends, channel, arrivals[n]);
      var whole := WholeOf(sends, arrivals[n]);
      var (c', out) := Receive(c, whole.orderingInfo.value.index, whole.sequenceIndex, arrivals[n]);
      (c', heard + out)
  }

  /** The arrivals that were sent later than everything that arrived before them. */
  function Newest(arrivals: seq<nat>): seq<nat> {
    if arrivals == [] then
      []
    else
      var n := |arrivals| - 1;
      Newest(arrivals[..n]) + if forall i :: 0 <= i < n ==> arrivals[i] < arrivals[n] then [arrivals[n]] else []
  }

  /** The counts of the channel's messages go up with every one. */
  predicate Climbs(sends: seq<Request>, channel: byte) {
    forall p, q :: 0 <= p < q < |sends| && SequencedOn(sends, channel, p) && SequencedOn(sends, channel, q) ==>
                     SequenceIndex(sends[..p]) < SequenceIndex(sends[..q])
  }

  /** One more arrival, in terms of the counts. */
  lemma HeardSnoc(sends: seq<Request>, channel: byte, arrivals: seq<nat>)
    requires OnChannels(sends) && OnlySequenced(sends, channel) && Arrivals(sends, channel, arrivals) && arrivals != []
    ensures SequencedOn(sends, channel, arrivals[|arrivals| - 1])
    ensures var n := |arrivals| - 1;
            var (c, heard) := Heard(sends, channel, arrivals[..n]);
            var (c', out) := Receive(c, 0, Some(SequenceIndex(sends[..arrivals[n]])), arrivals[n]);
            Heard(sends, channel, arrivals) == (c', heard + out)
  {
    var n := |arrivals| - 1;
    assert SequencedOn(sends, channel, arrivals[n]);
    WholeIs(sends, channel, arrivals[n]);
  }

  /** Nothing is ever buffered; the channel waits for a count above all it has heard. */
  lemma {:induction false} HeardState(sends: seq<Request>, channel: byte, arrivals: seq<nat>)
    requires OnChannels(sends) && OnlySequenced(sends, channel) && Arrivals(sends, channel, arrivals)
    ensures var c := Heard(sends, channel, arrivals).0;
            c.nextOrdering == 0 && c.buffered == []
    decreases |arrivals|
  {
    hide SequenceIndex, WholeOf;
    if arrivals != [] {
      HeardSnoc(sends, channel, arrivals);
      HeardState(sends, channel, arrivals[..|arrivals| - 1]);
    }
  }

  /** The channel waits for the count after the highest of these arrivals. */
  predicate WaitsAbove(sends: seq<Request>, arrivals: seq<nat>, next: nat) {
    && (forall i :: 0 <= i < |arrivals| ==> arrivals[i] <= |sends| && SequenceIndex(sends[..arrivals[i]]) < next)
    && (next > 0 ==> exists i :: 0 <= i < |arrivals| && SequenceIndex(sends[..arrivals[i]]) + 1 == next)
  }

  /** With climbing counts, a message counts at least what the channel waits for if and only
      if it is newer than all that arrived. */
  lemma CountsAreNew(sends: seq<Request>, channel: byte, arrivals: seq<nat>, next: nat, q: nat)
    requires Arrivals(sends, channel, arrivals) && Climbs(sends, channel) && WaitsAbove(sends, arrivals, next)
    requires SequencedOn(sends, channel, q)
    ensures SequenceIndex(sends[..q]) >= next <==> forall i :: 0 <= i < |arrivals| ==> arrivals[i] < q
  {
    hide SequenceIndex;
    if SequenceIndex(sends[..q]) >= next {
      forall i | 0 <= i < |arrivals|
        ensures arrivals[i] < q
      {
        assert SequencedOn(sends, channel, arrivals[i]);
        assert SequenceIndex(sends[..arrivals[i]]) < next;
      }
    } else {
      var i :| 0 <= i < |arrivals| && SequenceIndex(sends[..arrivals[i]]) + 1 == next;
      assert SequencedOn(sends, channel, arrivals[i]);
    }
  }

  lemma WaitsOn(sends: seq<Request>, arrivals: seq<nat>, next: nat, q: nat)
    requires q <= |sends| && WaitsAbove(sends, arrivals, next)
    ensures var count := SequenceIndex(sends[..q]);
            WaitsAbove(sends, arrivals + [q], if count >= next then count + 1 else next)
  {
    hide SequenceIndex;
    var count := SequenceIndex(sends[..q]);
    var more := arrivals + [q];
    assert forall i :: 0 <= i < |arrivals| ==> more[i] == arrivals[i];
    if count >= next {
      assert SequenceIndex(sends[..more[|arrivals|]]) + 1 == count + 1;
    } else {
      var i :| 0 <= i < |arrivals| && SequenceIndex(sends[..arrivals[i]]) + 1 == next;
      assert SequenceIndex(sends[..more[i]]) + 1 == next;
    }
  }

  /** With climbing counts exactly the messages newer than all before them are heard. */
  lemma {:induction false} ClimbingIsHeard(sends: seq<Request>, channel: byte, arrivals: seq<nat>)
    requires OnChannels(sends) && OnlySequenced(sends, channel)
    requires Arrivals(sends, channel, arrivals) && Climbs(sends, channel)
    ensures var (c, heard) := Heard(sends, channel, arrivals);
            heard == Newest(arrivals) && WaitsAbove(sends, arrivals, c.nextSequence)
    decreases |arrivals|
  {
    hide SequenceIndex, WholeOf, WaitsAbove, Climbs;
    if arrivals == [] {
      NothingWaits(sends);
    } else {
      var n := |arrivals| - 1;
      var c := Heard(sends, channel, arrivals[..n]).0;
      assert SequencedOn(sends, channel, arrivals[n]);
      HeardSnoc(sends, channel, arrivals);
      HeardState(sends, channel, arrivals[..n]);
      ClimbingIsHeard(sends, channel, arrivals[..n]);
      CountsAreNew(sends, channel, arrivals[..n], c.nextSequence, arrivals[n]);
      WaitsOn(sends, arrivals[..n], c.nextSequence, arrivals[n]);
      assert arrivals[..n] + [arrivals[n]] == arrivals;
    }
  }

  lemma NothingWaits(sends: seq<Request>)
    ensures WaitsAbove(sends, [], 0)
  {
  }

  lemma HeardTwo(sends: seq<Request>, channel: byte, p: nat, q: nat)
    requires OnChannels(sends) && OnlySequenced(sends, channel)
    requires SequencedOn(sends, channel, p) && SequencedOn(sends, channel, q)
    ensures Arrivals(sends, channel, [p, q])
    ensures Heard(sends, channel, [p, q]).1 ==
            if SequenceIndex(sends[..q]) > SequenceIndex(sends[..p]) then [p, q] else [p]
    ensures Newest([p, q]) == if p < q then [p, q] else [p]
  {
    hide SequenceIndex, WholeOf;
    var none: seq<nat> := [];
    assert [p, q][..1] == [p] && [p][..0] == none;
    assert Heard(sends, channel, none) == (Closed(), none) && Newest(none) == none;
    HeardSnoc(sends, channel, [p]);
    HeardSnoc(sends, channel, [p, q]);
    assert none + [p] == [p] && [p] + [q] == [p, q] && [p] + none == [p];
    assert Heard(sends, channel, [p]).1 == [p] && Newest([p]) == [p];
  }

  ghost predicate NewerIsHeard(sends: seq<Request>, channel: byte)
    requires OnChannels(sends)
  {
    forall arrivals :: Arrivals(sends, channel, arrivals) ==> Heard(sends, channel, arrivals).1 == Newest(arrivals)
  }

  /** On a channel that carries no ordered messages, a receiver gets every message that is
      newer than all it has, whatever is lost and in whatever order the rest arrives, if and
      only if the counts of the channel climb: no message was sent after the count had
      started again and not yet passed an earlier message of the channel. */
  lemma NewerIsHeardIff(sends: seq<Request>, channel: byte)
    requires OnChannels(sends) && OnlySequenced(sends, channel)
    ensures NewerIsHeard(sends, channel) <==> Climbs(sends, channel)
  {
    if Climbs(sends, channel) {
      forall arrivals | Arrivals(sends, channel, arrivals)
        ensures Heard(sends, channel, arrivals).1 == Newest(arrivals)
      {
        ClimbingIsHeard(sends, channel, arrivals);
      }
    } else {
      var p, q :| 0 <= p < q < |sends| && SequencedOn(sends, channel, p) && SequencedOn(sends, channel, q)
                  && !(SequenceIndex(sends[..p]) < SequenceIndex(sends[..q]));
      HeardTwo(sends, channel, p, q);
      assert Heard(sends, channel, [p, q]).1 != Newest([p, q]);
    }
  }

  /** An ordered message on the channel itself is enough to keep newer ones back: after
      one, a sequenced message waits behind it although nothing older has arrived. */
  lemma OrderedHoldsBack(a: Bytes, b: Bytes)
    ensures var sends := [Request(ReliableOrdered, 0, a), Request(ReliableSequenced, 0, b)];
            && OnChannels(sends) && Climbs(sends, 0) && Arrivals(sends, 0, [1])
            && Heard(sends, 0, [1]).1 == [] && Newest([1]) == [1]
  {
    var sends := [Request(ReliableOrdered, 0, a), Request(ReliableSequenced, 0, b)];
    OnChannelsPrefix(sends, 1);
    assert sends[..1] == [sends[0]] && sends[..1][..0] == [];
    assert OrderingIndices(sends[..1][..0])[0] == 0;
    assert OrderingIndices(sends[..1])[0] == 1;
    assert WholeOf(sends, 1).orderingInfo == Some(OrderingInfo(1, 0));
    assert [1][..0] == [];
  }

  // ---- the counts, in the caller's terms ----

  /** The sequenced requests, on any channel, since the last ordered one. */
  ghost function SequencedSince(sends: seq<Request>): set<nat> {
    set i: nat | i < |sends| && sends[i].reliability.IsSequenced()
                 && forall j :: i < j < |sends| ==> !IsOrderedOnly(sends[j].reliability)
  }

  lemma SinceStep(sends: seq<Request>)
    requires sends != []
    ensures var n := |sends| - 1;
            SequencedSince(sends) ==
            if IsOrderedOnly(sends[n].reliability) then {}
            else SequencedSince(sends[..n]) + if sends[n].reliability.IsSequenced() then {n} else {}
  {
    var n := |sends| - 1;
    forall i: nat
      ensures i in SequencedSince(sends) <==>
              !IsOrderedOnly(sends[n].reliability)
              && (i in SequencedSince(sends[..n]) || (i == n && sends[n].reliability.IsSequenced()))
    {
      if i < n && i in SequencedSince(sends[..n]) && !IsOrderedOnly(sends[n].reliability) {
        forall j | i < j < |sends|
          ensures !IsOrderedOnly(sends[j].reliability)
        {
          assert j < n ==> sends[..n][j] == sends[j];
        }
      }
    }
  }

  lemma {:induction false} CountIs(sends: seq<Request>)
    ensures SequenceIndex(sends) == |SequencedSince(sends)|
  {
    if sends == [] {
      assert SequencedSince(sends) == {};
    } else {
      hide SequencedSince;
      var n := |sends| - 1;
      CountIs(sends[..n]);
      SinceStep(sends);
      SinceBelow(sends[..n]);
      assert SequencedSince(sends[..n]) + {} == SequencedSince(sends[..n]);
    }
  }

  lemma SinceBelow(sends: seq<Request>)
    ensures |sends| !in SequencedSince(sends)
  {
  }

  /** As long as no ordered message is sent between them, the later one counts higher. */
  lemma {:induction false} NoOrderedBetween(sends: seq<Request>, p: nat, q: nat)
    requires p < q < |sends| && sends[p].reliability.IsSequenced()
    requires forall j :: p < j < q ==> !IsOrderedOnly(sends[j].reliability)
    ensures SequenceIndex(sends[..p]) < SequenceIndex(sends[..q])
  {
    assert sends[..q][..q - 1] == sends[..q - 1];
    if p + 1 < q {
      NoOrderedBetween(sends, p, q - 1);
    }
  }

  /** Sequenced on channel 0, ordered on channel 1, sequenced on channel 0: the second
      message of channel 0 is dropped, although it is newer. */
  lemma OtherChannelResets(a: Bytes, b: Bytes, c: Bytes)
    ensures var sends := [Request(ReliableSequenced, 0, a), Request(ReliableOrdered, 1, b), Request(ReliableSequenced, 0, c)];
            && OnChannels(sends) && OnlySequenced(sends, 0) && Arrivals(sends, 0, [0, 2])
            && Heard(sends, 0, [0, 2]).1 == [0]
  {
    var sends := [Request(ReliableSequenced, 0, a), Request(ReliableOrdered, 1, b), Request(ReliableSequenced, 0, c)];
    assert sends[..2][..1] == [sends[0]] && [sends[0]][..0] == [];
    assert sends[..0] == [];
    assert SequenceIndex(sends[..0]) == 0 && SequenceIndex(sends[..2]) == 0;
    assert SequencedOn(sends, 0, 0) && SequencedOn(sends, 0, 2);
    HeardTwo(sends, 0, 0, 2);
  }
}
