/** A channel that carries ordered and sequenced messages side by side
    (src/reliability/layer.rs:416-456 and 527-541). */
module MixedChannels {
  import opened Basics
  import opened Datagrams
  import opened Ordering
  import opened Senders
  import opened SequencedMessages

  predicate On(sends: seq<Request>, channel: byte, p: nat) {
    p < |sends| && sends[p].reliability.UsesChannel() && sends[p].channel == channel
  }

  predicate OrderedOn(sends: seq<Request>, channel: byte, p: nat) {
    p < |sends| && IsOrderedOnly(sends[p].reliability) && sends[p].channel == channel
  }

  /** What is sent on the channel, in order. */
  function Positions(sends: seq<Request>, channel: byte): seq<nat> {
    if sends == [] then
      []
    else
      var n := |sends| - 1;
      Positions(sends[..n], channel) + if On(sends, channel, n) then [n] else []
  }

  /** The channel, and what it hands up, when all of that arrives in the order sent. */
  function InOrder(sends: seq<Request>, channel: byte): (Channel<nat>, seq<nat>)
    requires OnChannels(sends)
  {
    if sends == [] then
      (Closed(), [])
    else
      var n := |sends| - 1;
      var (c, out) := InOrder(sends[..n], channel);
      if On(sends, channel, n) then
        var whole := WholeOf(sends, n);
        var (c', more) := Receive(c, whole.orderingInfo.value.index, whole.sequenceIndex, n);
        (c', out + more)
      else
        (c, out)
  }

  /** A sequenced message of the channel after which no ordered one was sent on it. */
  predicate InEpoch(sends: seq<Request>, channel: byte, p: nat) {
    SequencedOn(sends, channel, p) && forall j :: p < j < |sends| ==> !OrderedOn(sends, channel, j)
  }

  /** Between two ordered messages of the channel, the counts of its sequenced ones climb. */
  predicate EpochsClimb(sends: seq<Request>, channel: byte) {
    forall p, q :: 0 <= p < q < |sends| && InEpoch(sends[..q], channel, p) && SequencedOn(sends, channel, q) ==>
                     SequenceIndex(sends[..p]) < SequenceIndex(sends[..q])
  }

  /** The channel waits for the count after the highest of the epoch. */
  predicate WaitsInEpoch(sends: seq<Request>, channel: byte, next: nat) {
    && (forall p :: 0 <= p < |sends| && InEpoch(sends, channel, p) ==> SequenceIndex(sends[..p]) < next)
    && (next > 0 ==> exists p :: 0 <= p < |sends| && InEpoch(sends, channel, p) && SequenceIndex(sends[..p]) + 1 == next)
  }

  lemma WholeOn(sends: seq<Request>, channel: byte, p: nat)
    requires OnChannels(sends) && On(sends, channel, p)
    ensures OnChannels(sends[..p])
    ensures var whole := WholeOf(sends, p);
            && whole.orderingInfo == Some(OrderingInfo(OrderingIndices(sends[..p])[channel], channel))
            && whole.sequenceIndex == if SequencedOn(sends, channel, p) then Some(SequenceIndex(sends[..p])) else None
    ensures SequencedOn(sends, channel, p) <==> !OrderedOn(sends, channel, p)
  {
    OnChannelsPrefix(sends, p);
  }

  /** Nothing is buffered, and the channel waits for the index the sender gives next. */
  lemma {:induction false} InOrderState(sends: seq<Request>, channel: byte)
    requires OnChannels(sends) && channel < ORDERING_CHANNEL_SIZE
    ensures var c := InOrder(sends, channel).0;
            c.buffered == [] && c.nextOrdering == OrderingIndices(sends)[channel]
  {
    hide SequenceIndex, WholeOf;
    if sends != [] {
      var n := |sends| - 1;
      OnChannelsPrefix(sends, n);
      InOrderState(sends[..n], channel);
      if On(sends, channel, n) {
        WholeOn(sends, channel, n);
      }
    }
  }

  lemma EpochsOfPrefix(sends: seq<Request>, channel: byte)
    requires sends != []
    ensures var n := |sends| - 1;
            EpochsClimb(sends, channel) <==>
            EpochsClimb(sends[..n], channel)
            && (SequencedOn(sends, channel, n) ==>
                  forall p :: 0 <= p < n && InEpoch(sends[..n], channel, p) ==> SequenceIndex(sends[..p]) < SequenceIndex(sends[..n]))
  {
    hide SequenceIndex, InEpoch;
    var n := |sends| - 1;
    forall q | 0 <= q < n
      ensures sends[..n][..q] == sends[..q] && SequencedOn(sends[..n], channel, q) == SequencedOn(sends, channel, q)
    {
    }
    if EpochsClimb(sends, channel) {
      forall p, q | 0 <= p < q < n && InEpoch(sends[..n][..q], channel, p) && SequencedOn(sends[..n], channel, q)
        ensures SequenceIndex(sends[..n][..p]) < SequenceIndex(sends[..n][..q])
      {
        assert sends[..n][..q] == sends[..q] && sends[..n][..p] == sends[..p];
      }
    }
    if EpochsClimb(sends[..n], channel) {
      forall p, q | 0 <= p < q < n && InEpoch(sends[..q], channel, p) && SequencedOn(sends, channel, q)
        ensures SequenceIndex(sends[..p]) < SequenceIndex(sends[..q])
      {
        assert sends[..n][..q] == sends[..q] && sends[..n][..p] == sends[..p];
      }
    }
  }

  lemma EpochOfOneMore(sends: seq<Request>, channel: byte, p: nat)
    requires sends != [] && p < |sends|
    ensures var n := |sends| - 1;
            InEpoch(sends, channel, p) <==>
            if p == n then SequencedOn(sends, channel, n) else !OrderedOn(sends, channel, n) && InEpoch(sends[..n], channel, p)
  {
    var n := |sends| - 1;
    if p < n {
      forall j | p < j < n
        ensures OrderedOn(sends[..n], channel, j) == OrderedOn(sends, channel, j)
      {
      }
      if InEpoch(sends[..n], channel, p) && !OrderedOn(sends, channel, n) {
        forall j | p < j < |sends|
          ensures !OrderedOn(sends, channel, j)
        {
          assert j < n ==> OrderedOn(sends[..n], channel, j) == OrderedOn(sends, channel, j);
        }
      }
      if InEpoch(sends, channel, p) {
        assert !OrderedOn(sends, channel, n);
        forall j | p < j < n
          ensures !OrderedOn(sends[..n], channel, j)
        {
          assert !OrderedOn(sends, channel, j);
        }
      }
    }
  }

  /** The wait of the channel after one more request. */
  lemma WaitsOneMore(sends: seq<Request>, channel: byte, next: nat)
    requires sends != [] && WaitsInEpoch(sends[..|sends| - 1], channel, next)
    ensures var n := |sends| - 1;
            var count := SequenceIndex(sends[..n]);
            && (OrderedOn(sends, channel, n) ==> WaitsInEpoch(sends, channel, 0))
            && (!On(sends, channel, n) ==> WaitsInEpoch(sends, channel, next))
            && (SequencedOn(sends, channel, n) && count >= next ==> WaitsInEpoch(sends, channel, count + 1))
  {
    hide SequenceIndex, InEpoch;
    var n := |sends| - 1;
    forall p | 0 <= p < |sends|
      ensures sends[..n][..if p < n then p else 0] == sends[..if p < n then p else 0]
      ensures InEpoch(sends, channel, p) <==>
              if p == n then SequencedOn(sends, channel, n) else !OrderedOn(sends, channel, n) && InEpoch(sends[..n], channel, p)
    {
      EpochOfOneMore(sends, channel, p);
    }
    forall p | 0 <= p < n
      ensures sends[..n][..p] == sends[..p]
    {
    }
    if !On(sends, channel, n) && next > 0 {
      var p :| 0 <= p < n && InEpoch(sends[..n], channel, p) && SequenceIndex(sends[..n][..p]) + 1 == next;
      assert InEpoch(sends, channel, p) && SequenceIndex(sends[..p]) + 1 == next;
    }
    if SequencedOn(sends, channel, n) {
      assert InEpoch(sends, channel, n) && SequenceIndex(sends[..n]) + 1 == SequenceIndex(sends[..n]) + 1;
    }
  }

  lemma FewReleased(sends: seq<Request>, channel: byte)
    requires OnChannels(sends) && sends != [] && channel < ORDERING_CHANNEL_SIZE
    ensures OnChannels(sends[..|sends| - 1])
    ensures var n := |sends| - 1;
            var ((c, out), (c', out')) := (InOrder(sends[..n], channel), InOrder(sends, channel));
            && (!On(sends, channel, n) ==> (c', out') == (c, out))
            && (OrderedOn(sends, channel, n) ==> c'.nextSequence == 0 && out' == out + [n])
            && (SequencedOn(sends, channel, n) ==>
                  var count := SequenceIndex(sends[..n]);
                  if count >= c.nextSequence then c'.nextSequence == count + 1 && out' == out + [n] else (c', out') == (c, out))
  {
    hide SequenceIndex, WholeOf;
    var n := |sends| - 1;
    OnChannelsPrefix(sends, n);
    InOrderState(sends[..n], channel);
    var (c, out) := InOrder(sends[..n], channel);
    assert out + [] == out;
    if On(sends, channel, n) {
      WholeOn(sends, channel, n);
      assert [n] + [] == [n];
    }
  }

  /** When everything sent on a channel arrives in the order sent, everything is handed up,
      in that order, if and only if the counts of its sequenced messages climb between any
      two of its ordered ones. */
  lemma {:induction false} InOrderIsAllIff(sends: seq<Request>, channel: byte)
    requires OnChannels(sends) && channel < ORDERING_CHANNEL_SIZE
    ensures var (c, out) := InOrder(sends, channel);
            && |out| <= |Positions(sends, channel)|
            && (out == Positions(sends, channel) <==> EpochsClimb(sends, channel))
            && (EpochsClimb(sends, channel) ==> WaitsInEpoch(sends, channel, c.nextSequence))
  {
    hide SequenceIndex, EpochsClimb, WaitsInEpoch, Receive, WholeOf, OnChannels;
    if sends == [] {
      NothingSent(channel);
    } else {
      var n := |sends| - 1;
      FewReleased(sends, channel);
      InOrderIsAllIff(sends[..n], channel);
      var (c, out) := InOrder(sends[..n], channel);
      var before := Positions(sends[..n], channel);
      EpochsOfPrefix(sends, channel);
      assert before + [] == before;
      assert out + [n] == before + [n] ==> out == before by {
        assert (out + [n])[..|out|] == out && (before + [n])[..|before|] == before;
      }
      if EpochsClimb(sends[..n], channel) {
        WaitsOneMore(sends, channel, c.nextSequence);
        ClimbsIff(sends[..n], channel, c.nextSequence, SequenceIndex(sends[..n]));
        assert forall p :: 0 <= p < n ==> sends[..n][..p] == sends[..p];
      }
    }
  }

  lemma NothingSent(channel: byte)
    ensures EpochsClimb([], channel) && WaitsInEpoch([], channel, 0)
  {
  }

  lemma ClimbsIff(sends: seq<Request>, channel: byte, next: nat, count: nat)
    requires WaitsInEpoch(sends, channel, next)
    ensures count >= next <==> forall p :: 0 <= p < |sends| && InEpoch(sends, channel, p) ==> SequenceIndex(sends[..p]) < count
  {
    hide SequenceIndex, InEpoch;
  }

  /** If all ordered messages are sent on the channel itself, in-order arrival of any mix on
      it releases everything. */
  lemma OneChannelInOrder(sends: seq<Request>, channel: byte)
    requires OnChannels(sends) && channel < ORDERING_CHANNEL_SIZE
    requires forall i :: 0 <= i < |sends| && IsOrderedOnly(sends[i].reliability) ==> sends[i].channel == channel
    ensures InOrder(sends, channel).1 == Positions(sends, channel)
  {
    hide SequenceIndex, InOrder, Positions;
    forall p, q | 0 <= p < q < |sends| && InEpoch(sends[..q], channel, p) && SequencedOn(sends, channel, q)
      ensures SequenceIndex(sends[..p]) < SequenceIndex(sends[..q])
    {
      forall j | p < j < q
        ensures !IsOrderedOnly(sends[j].reliability)
      {
        assert !OrderedOn(sends[..q], channel, j);
      }
      NoOrderedBetween(sends, p, q);
    }
    InOrderIsAllIff(sends, channel);
  }

  // ---- what comes too late ----

  lemma {:induction false} IndicesGrow(sends: seq<Request>, channel: byte, q: nat, p: nat)
    requires OnChannels(sends) && channel < ORDERING_CHANNEL_SIZE && q <= p <= |sends|
    ensures OnChannels(sends[..q]) && OnChannels(sends[..p])
    ensures OrderingIndices(sends[..q])[channel] <= OrderingIndices(sends[..p])[channel]
    decreases p
  {
    OnChannelsPrefix(sends, q);
    OnChannelsPrefix(sends, p);
    if q < p {
      IndicesGrow(sends, channel, q, p - 1);
      assert sends[..p][..p - 1] == sends[..p - 1];
    }
  }

  /** Once the channel is past an ordered message, nothing sent on it before comes out. */
  lemma OrderedCutsOff(sends: seq<Request>, channel: byte, q: nat, p: nat, c: Channel<nat>)
    requires OnChannels(sends) && channel < ORDERING_CHANNEL_SIZE
    requires q < p && On(sends, channel, q) && OrderedOn(sends, channel, p)
    requires WholeOf(sends, p).orderingInfo.value.index < c.nextOrdering
    ensures var whole := WholeOf(sends, q); Receive(c, whole.orderingInfo.value.index, whole.sequenceIndex, q) == (c, [])
  {
    WholeOn(sends, channel, q);
    WholeOn(sends, channel, p);
    IndicesGrow(sends, channel, q, p);
  }

  lemma {:induction false} AllPositions(sends: seq<Request>, channel: byte)
    requires forall p :: 0 <= p < |sends| ==> On(sends, channel, p)
    ensures Positions(sends, channel) == Range(0, |sends|)
  {
    if sends != [] {
      var n := |sends| - 1;
      forall p | 0 <= p < n
        ensures On(sends[..n], channel, p)
      {
        assert On(sends, channel, p);
      }
      AllPositions(sends[..n], channel);
      assert On(sends, channel, n) && Range(0, n) + [n] == Range(0, n + 1);
    }
  }

  /** Ordered, sequenced, sequenced, ordered, sequenced on one channel: all five come out. */
  lemma FiveInOrder(data: Bytes)
    ensures var sends := [Request(ReliableOrdered, 0, data), Request(ReliableSequenced, 0, data), Request(UnreliableSequenced, 0, data),
                          Request(ReliableOrdered, 0, data), Request(ReliableSequenced, 0, data)];
            OnChannels(sends) && InOrder(sends, 0).1 == [0, 1, 2, 3, 4]
  {
    hide InOrder, Positions;
    var sends := [Request(ReliableOrdered, 0, data), Request(ReliableSequenced, 0, data), Request(UnreliableSequenced, 0, data),
                  Request(ReliableOrdered, 0, data), Request(ReliableSequenced, 0, data)];
    OneChannelInOrder(sends, 0);
    AllPositions(sends, 0);
    assert Range(0, 5) == [0, 1, 2, 3, 4];
  }
}
