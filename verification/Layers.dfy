/** The reliability layer itself, updated in place (src/reliability/layer.rs). Its two
    halves are read as the values of `Senders` and `Receivers`; every method is proved
    to do to them what those modules say.

    What the congestion controller answers (bandwidth, timeout, slow start, when to
    acknowledge) comes in as parameters; its packet counter is `nextSeq`. */
module Layers {
  import opened Basics
  import opened Datagrams
  import opened Windows
  import opened Retransmission
  import opened RetransmitCaches
  import opened Scheduling
  import opened Splitting
  import opened Ordering
  import opened Packing
  import Senders
  import SenderRuns
  import opened Receivers
  import opened Buffers
  import opened LayerFacts
  import Codec

  const DEFAULT_TIMEOUT: nat := 10000

  /** The position of an element of least weight. */
  method PeekMin(queue: seq<Outgoing>) returns (i: nat)
    requires queue != []
    ensures IsMin(queue, i)
  {
    i := 0;
    for j := 1 to |queue|
      invariant i < j
      invariant forall k :: 0 <= k < j ==> queue[i].weight <= queue[k].weight
    {
      if queue[j].weight < queue[i].weight {
        i := j;
      }
    }
  }

  class Layer {
    const maxSizeOfPacket: nat
    var bandwidthExceeded: bool
    var needsArrivalRate: bool
    var isDead: bool
    var timeout: nat
    var lastUpdate: nat
    var timeLastDatagramRecved: nat
    var totalBytesAcked: nat
    var acks: seq<nat>
    var naks: seq<nat>
    var outgoingQueue: seq<Outgoing>
    var outgoingNextWeight: seq<nat>
    var outputQueue: seq<Bytes>
    const retransmitCache: RetransmitCache
    const seqWindow: Window<nat>
    const reliableWindow: Window<()>
    var splitFragments: Table
    var orderedFragments: seq<seq<Option<Bytes>>>
    var sendSplitId: nat
    var sendReliableIndex: nat
    var sendSequenceIndex: nat
    var sendOrderingIndex: seq<nat>
    var recvSequenceIndex: seq<nat>
    var recvOrderingIndex: seq<nat>
    var nextSeq: nat
    /** Everything handed to the socket. */
    ghost var wire: seq<Bytes>

    ghost function Sending(): Senders.Sender
      reads `outgoingQueue, `outgoingNextWeight, `sendSplitId, `sendReliableIndex, `sendSequenceIndex, `sendOrderingIndex, `nextSeq
      reads retransmitCache, retransmitCache.histories
      requires retransmitCache.Valid()
    {
      Senders.Sender(maxSizeOfPacket, Schedule(outgoingQueue, outgoingNextWeight), retransmitCache.View(),
                     sendSplitId, sendReliableIndex, sendSequenceIndex, sendOrderingIndex, nextSeq)
    }

    ghost predicate ChannelsValid()
      reads `recvSequenceIndex, `recvOrderingIndex, `orderedFragments
    {
      |recvSequenceIndex| == |recvOrderingIndex| == |orderedFragments| == ORDERING_CHANNEL_SIZE
    }

    ghost function Channels(): (cs: seq<Channel<Bytes>>)
      reads `recvSequenceIndex, `recvOrderingIndex, `orderedFragments
      requires ChannelsValid()
      ensures |cs| == ORDERING_CHANNEL_SIZE
    {
      Zipped(recvOrderingIndex, recvSequenceIndex, orderedFragments)
    }

    ghost function Receiving(): Receiver
      reads `acks, `naks, `splitFragments, `recvSequenceIndex, `recvOrderingIndex, `orderedFragments, `outputQueue
      reads seqWindow, reliableWindow
      requires ChannelsValid()
    {
      Receiver(seqWindow.View(), acks, naks, reliableWindow.View(), splitFragments, Channels(), outputQueue)
    }

    ghost predicate ReceiverValid()
      reads `recvSequenceIndex, `recvOrderingIndex, `orderedFragments, `timeLastDatagramRecved, seqWindow, seqWindow.buf, reliableWindow, reliableWindow.buf
    {
      && seqWindow.Valid() && seqWindow.size == SEQ_WINDOW_SIZE
      && reliableWindow.Valid() && reliableWindow.size == RELIABLE_WINDOW_SIZE
      && seqWindow.buf as object != reliableWindow.buf && seqWindow as object != reliableWindow
      && ChannelsValid()
      && (forall i <- seqWindow.entries :: seqWindow.entries[i] <= timeLastDatagramRecved)
    }

    /** The two halves share no field, so a method that touches one keeps the other. */
    ghost predicate Valid()
      reads this, retransmitCache, retransmitCache.histories
      reads seqWindow, seqWindow.buf, reliableWindow, reliableWindow.buf
    {
      SenderValid() && ReceiverValid()
    }

    ghost predicate SenderValid()
      reads `outgoingQueue, `outgoingNextWeight, `sendSplitId, `sendReliableIndex, `sendSequenceIndex, `sendOrderingIndex, `nextSeq
      reads `lastUpdate, retransmitCache, retransmitCache.histories
    {
      retransmitCache.Valid() && Ready(Sending(), lastUpdate)
    }

    constructor (now: nat, mtuSize: nat)
      requires mtuSize >= IP_UDP_HEADER_SIZE + HEADER_SIZE + PACKET_HEADER_SIZE
      ensures retransmitCache.Valid() && ReceiverValid()
      ensures Sending() == Senders.NewSender(mtuSize) && Receiving() == NewReceiver() && wire == []
      ensures Valid() <==> mtuSize >= SenderRuns.MIN_MTU
      ensures timeout == 10000 && lastUpdate == timeLastDatagramRecved == now && totalBytesAcked == 0
      ensures !isDead && !bandwidthExceeded && !needsArrivalRate
      ensures fresh(retransmitCache) && fresh(retransmitCache.histories)
      ensures fresh(seqWindow) && fresh(seqWindow.buf) && fresh(reliableWindow) && fresh(reliableWindow.buf)
    {
      hide EmptyCache, Ready, NewReceiver, Zipped;
      maxSizeOfPacket := mtuSize - IP_UDP_HEADER_SIZE - HEADER_SIZE - PACKET_HEADER_SIZE;
      bandwidthExceeded, needsArrivalRate, isDead := false, false, false;
      timeout := DEFAULT_TIMEOUT;
      lastUpdate, timeLastDatagramRecved := now, now;
      totalBytesAcked := 0;
      acks, naks, outgoingQueue, outputQueue := [], [], [], [];
      outgoingNextWeight := [0, 0, 0, 0];
      retransmitCache := new RetransmitCache();
      seqWindow := new Window(SEQ_WINDOW_SIZE);
      reliableWindow := new Window(RELIABLE_WINDOW_SIZE);
      splitFragments := map[];
      orderedFragments := seq(ORDERING_CHANNEL_SIZE, _ => []);
      sendSplitId, sendReliableIndex, sendSequenceIndex, nextSeq := 0, 0, 0, 0;
      sendOrderingIndex := seq(ORDERING_CHANNEL_SIZE, _ => 0);
      recvSequenceIndex := seq(ORDERING_CHANNEL_SIZE, _ => 0);
      recvOrderingIndex := seq(ORDERING_CHANNEL_SIZE, _ => 0);
      wire := [];
      new;
      NewSenderReady(mtuSize, now);
      assert Sending() == Senders.NewSender(mtuSize);
      assert Channels() == NewReceiver().channels;
    }

    // ---- send ----

    method GetNextWeight(priority: Priority) returns (weight: nat, ghost peek: nat)
      requires Balanced(Schedule(outgoingQueue, outgoingNextWeight))
      modifies `outgoingNextWeight
      ensures Peeks(outgoingQueue, peek)
      ensures (weight, outgoingNextWeight) == NextWeight(Schedule(outgoingQueue, old(outgoingNextWeight)), peek, priority)
    {
      hide PriorityFactor;
      var p := priority.Index();
      if outgoingQueue == [] {
        outgoingNextWeight := InitWeights();
        return outgoingNextWeight[p], 0;
      }
      var currentWeight := outgoingNextWeight[p];
      var top := PeekMin(outgoingQueue);
      assert outgoingQueue[top] in outgoingQueue;
      var minWeight := outgoingQueue[top].weight - PriorityFactor(outgoingQueue[top].priority.Index());
      weight := if currentWeight < minWeight then minWeight + PriorityFactor(p) else currentWeight;
      outgoingNextWeight := outgoingNextWeight[p := weight + PriorityFactor(p + 1)];
      peek := top;
    }

    method Enqueue(priority: Priority, fragment: Fragment) returns (ghost peek: nat)
      requires Balanced(Schedule(outgoingQueue, outgoingNextWeight))
      modifies `outgoingNextWeight, `outgoingQueue
      ensures Peeks(old(outgoingQueue), peek)
      ensures Schedule(outgoingQueue, outgoingNextWeight) ==
              Push(old(Schedule(outgoingQueue, outgoingNextWeight)), peek, priority, fragment)
    {
      var weight;
      weight, peek := GetNextWeight(priority);
      outgoingQueue := outgoingQueue + [Outgoing(weight, priority, fragment)];
    }

    /** Pushes the next one of a list of pieces. */
    method EnqueuePiece(priority: Priority, piece: Fragment, ghost before: Schedule, ghost peeks: seq<nat>,
                        ghost pieces: seq<Fragment>, ghost i: nat) returns (ghost peeks': seq<nat>)
      requires i < |pieces| && piece == pieces[i]
      requires Pushed(before, peeks, priority, pieces[..i], Schedule(outgoingQueue, outgoingNextWeight))
      modifies `outgoingNextWeight, `outgoingQueue
      ensures Pushed(before, peeks', priority, pieces[..i + 1], Schedule(outgoingQueue, outgoingNextWeight))
    {
      ghost var schedule := Schedule(outgoingQueue, outgoingNextWeight);
      ghost var peek := Enqueue(priority, piece);
      PushOneMore(before, peeks, priority, pieces, i, peek, schedule);
      peeks' := peeks + [peek];
    }

    method SplitFragment(priority: Priority, base: Fragment) returns (ghost peeks: seq<nat>)
      requires Balanced(Schedule(outgoingQueue, outgoingNextWeight))
      requires base.data != [] && maxSizeOfPacket > base.HeaderSize() + SPLIT_INFO_SIZE
      modifies `outgoingNextWeight, `outgoingQueue, `sendSplitId
      ensures Pushed(old(Schedule(outgoingQueue, outgoingNextWeight)), peeks, priority,
                     Pieces(base, old(sendSplitId), Chunks(base.data, AllowedSize(base, maxSizeOfPacket))),
                     Schedule(outgoingQueue, outgoingNextWeight))
      ensures sendSplitId == old(sendSplitId) + 1
    {
      var allowedSize := maxSizeOfPacket - base.HeaderSize() - SPLIT_INFO_SIZE;
      var splitSize := (|base.data| - 1) / allowedSize + 1;
      ChunkCount(base.data, allowedSize);
      peeks := EnqueuePieces(priority, base, allowedSize, splitSize);
      sendSplitId := sendSplitId + 1;
    }

    method EnqueuePieces(priority: Priority, base: Fragment, allowedSize: nat, splitSize: nat) returns (ghost peeks: seq<nat>)
      requires Balanced(Schedule(outgoingQueue, outgoingNextWeight))
      requires allowedSize > 0 && splitSize == |Chunks(base.data, allowedSize)|
      modifies `outgoingNextWeight, `outgoingQueue
      ensures Pushed(old(Schedule(outgoingQueue, outgoingNextWeight)), peeks, priority,
                     Pieces(base, sendSplitId, Chunks(base.data, allowedSize)), Schedule(outgoingQueue, outgoingNextWeight))
    {
      var data := base.data;
      ghost var chunks := Chunks(base.data, allowedSize);
      ghost var pieces := Pieces(base, sendSplitId, chunks);
      ghost var before := Schedule(outgoingQueue, outgoingNextWeight);
      peeks := [];
      NothingPushed(before, priority, pieces);
      for i := 0 to splitSize
        invariant Pushed(before, peeks, priority, pieces[..i], Schedule(outgoingQueue, outgoingNextWeight))
        invariant i < splitSize ==> Chunks(data, allowedSize) == chunks[i..]
      {
        var n := if |data| < allowedSize then |data| else allowedSize;
        var piece := base.(splitInfo := Some(SplitInfo(splitSize, sendSplitId, i)), data := data[..n]);
        ChunkStep(data, allowedSize, chunks, i);
        data := data[n..];
        peeks := EnqueuePiece(priority, piece, before, peeks, pieces, i);
      }
      assert pieces[..splitSize] == pieces;
    }

    method Send(priority: Priority, reliability: Reliability, channel: byte, data: Bytes) returns (ghost peeks: seq<nat>)
      requires SenderValid() && (reliability.UsesChannel() ==> channel < ORDERING_CHANNEL_SIZE)
      modifies `sendSequenceIndex, `sendOrderingIndex, `outgoingNextWeight, `outgoingQueue, `sendSplitId
      ensures SenderValid()
      ensures Senders.CanSend(old(Sending()), peeks, priority, reliability, channel, data)
      ensures Sending() == Senders.Sent(old(Sending()), peeks, priority, reliability, channel, data)
    {
      hide CacheReady, Senders.CanPushAll, Senders.PushAll, Splitting.Pieces, Balanced;
      ghost var before := Sending();
      var fragment := BuildFragment(reliability, channel, data);
      peeks := EnqueueMessage(priority, fragment, before);
      SenderRuns.SendKeepsShape(before, peeks, priority, reliability, channel, data);
    }

    /** The message as one fragment, with its sequence and ordering indices. */
    method BuildFragment(reliability: Reliability, channel: byte, data: Bytes) returns (fragment: Fragment)
      requires retransmitCache.Valid() && (reliability.UsesChannel() ==> channel < |sendOrderingIndex|)
      modifies `sendSequenceIndex, `sendOrderingIndex
      ensures fragment == Senders.Whole(old(Sending()), reliability, channel, data)
      ensures sendSequenceIndex == Senders.NextSequence(old(sendSequenceIndex), reliability)
      ensures sendOrderingIndex == Senders.NextOrdering(old(sendOrderingIndex), reliability, channel)
    {
      fragment := Fragment(reliability, None, None, None, None, data);
      if reliability.IsSequenced() {
        fragment := fragment.(sequenceIndex := Some(sendSequenceIndex),
                              orderingInfo := Some(OrderingInfo(sendOrderingIndex[channel], channel)));
        sendSequenceIndex := sendSequenceIndex + 1;
      } else if reliability.IsOrdered() {
        sendSequenceIndex := 0;
        fragment := fragment.(orderingInfo := Some(OrderingInfo(sendOrderingIndex[channel], channel)));
        sendOrderingIndex := sendOrderingIndex[channel := sendOrderingIndex[channel] + 1];
      }
    }

    /** The message as it is if it fits a packet, and otherwise cut up. */
    method EnqueueMessage(priority: Priority, fragment: Fragment, ghost before: Senders.Sender) returns (ghost peeks: seq<nat>)
      requires Balanced(Schedule(outgoingQueue, outgoingNextWeight)) && fragment.splitInfo.None?
      requires maxSizeOfPacket >= Senders.MIN_PACKET_ROOM
      requires before.maxSize == maxSizeOfPacket && before.splitId == sendSplitId
      modifies `outgoingNextWeight, `outgoingQueue, `sendSplitId
      ensures Pushed(old(Schedule(outgoingQueue, outgoingNextWeight)), peeks, priority, Senders.Outbound(before, fragment),
                     Schedule(outgoingQueue, outgoingNextWeight))
      ensures sendSplitId == if Senders.MustSplit(before, fragment) then old(sendSplitId) + 1 else old(sendSplitId)
    {
      if fragment.FullSize() > maxSizeOfPacket {
        peeks := SplitFragment(priority, fragment);
      } else {
        NothingPushed(Schedule(outgoingQueue, outgoingNextWeight), priority, [fragment]);
        peeks := EnqueuePiece(priority, fragment, Schedule(outgoingQueue, outgoingNextWeight), [], [fragment], 0);
        assert [fragment][..1] == [fragment];
      }
    }

    // ---- update ----

    /** The first packing loop: from the front of the retransmit queue. */
    method PackRetransmits(bandwidth: nat) returns (p: Packer, ghost taken: nat)
      modifies retransmitCache`retransmitFragments
      ensures var queue := old(retransmitCache.retransmitFragments);
              && taken <= |queue| && retransmitCache.retransmitFragments == queue[taken..]
              && p == Fill(queue[..taken], maxSizeOfPacket)
              && (taken < |queue| ==> p.total + queue[taken].FullSize() > bandwidth)
      ensures p.total <= bandwidth
    {
      ghost var queue := retransmitCache.retransmitFragments;
      p := EMPTY_PACKER;
      taken := 0;
      while p.total < bandwidth && retransmitCache.retransmitFragments != []
        invariant taken <= |queue| && retransmitCache.retransmitFragments == queue[taken..]
        invariant p == Fill(queue[..taken], maxSizeOfPacket) && p.total <= bandwidth
        decreases |queue| - taken
      {
        var fragment := retransmitCache.retransmitFragments[0];
        if p.total + fragment.FullSize() > bandwidth {
          break;
        }
        retransmitCache.retransmitFragments := retransmitCache.retransmitFragments[1..];
        FillSnoc(queue[..taken], fragment, maxSizeOfPacket);
        assert queue[..taken + 1] == queue[..taken] + [fragment];
        p := p.Add(fragment, maxSizeOfPacket);
        taken := taken + 1;
      }
    }

    /** The second packing loop: from the top of the heap. Reliable fragments get their index here. */
    method PackOutgoing(p: Packer, ghost items: seq<Fragment>, bandwidth: nat) returns (p': Packer, ghost picks: seq<nat>)
      requires p == Fill(items, maxSizeOfPacket) && p.total <= bandwidth
      modifies `outgoingQueue, `sendReliableIndex
      ensures Taken(old(outgoingQueue), old(sendReliableIndex), picks, outgoingQueue, sendReliableIndex)
      ensures p' == Fill(items + Senders.NumberAll(Senders.Popped(old(outgoingQueue), picks), old(sendReliableIndex)), maxSizeOfPacket)
      ensures p'.total <= bandwidth && Senders.Exhausts(outgoingQueue, p'.total, bandwidth)
    {
      p' := p;
      picks := [];
      ghost var queue, index := outgoingQueue, sendReliableIndex;
      assert items + [] == items;
      while p'.total < bandwidth && outgoingQueue != []
        invariant Taken(queue, index, picks, outgoingQueue, sendReliableIndex)
        invariant p' == Fill(items + Senders.NumberAll(Senders.Popped(queue, picks), index), maxSizeOfPacket)
        invariant p'.total <= bandwidth
        decreases |outgoingQueue|
      {
        var top := PeekMin(outgoingQueue);
        if p'.total + outgoingQueue[top].fragment.FullSize() > bandwidth {
          return;
        }
        p' := PackTop(p', top, items, queue, index, picks);
        picks := picks + [top];
      }
      FullExhausts(outgoingQueue, p'.total, bandwidth);
    }

    /** Takes the top of the heap, numbers it if it is reliable, and packs it. */
    method PackTop(p: Packer, top: nat, ghost items: seq<Fragment>, ghost queue: seq<Outgoing>, ghost index: nat, ghost picks: seq<nat>)
      returns (p': Packer)
      requires Taken(queue, index, picks, outgoingQueue, sendReliableIndex) && IsMin(outgoingQueue, top)
      requires p == Fill(items + Senders.NumberAll(Senders.Popped(queue, picks), index), maxSizeOfPacket)
      modifies `outgoingQueue, `sendReliableIndex
      ensures |outgoingQueue| < old(|outgoingQueue|)
      ensures Taken(queue, index, picks + [top], outgoingQueue, sendReliableIndex)
      ensures p' == Fill(items + Senders.NumberAll(Senders.Popped(queue, picks + [top]), index), maxSizeOfPacket)
      ensures p'.total == p.total + old(outgoingQueue)[top].fragment.FullSize()
    {
      hide Senders.Popped, Senders.NumberAll, Senders.Left, Fill;
      ghost var packed := items + Senders.NumberAll(Senders.Popped(queue, picks), index);
      TakeOneMore(queue, index, picks, outgoingQueue, sendReliableIndex, top);
      var numbered := Senders.Number(outgoingQueue[top].fragment, sendReliableIndex);
      FillSnoc(packed, numbered, maxSizeOfPacket);
      assert items + Senders.NumberAll(Senders.Popped(queue, picks + [top]), index) == packed + [numbered];
      if outgoingQueue[top].fragment.reliability.IsReliable() {
        sendReliableIndex := sendReliableIndex + 1;
      }
      outgoingQueue := RemoveAt(outgoingQueue, top);
      p' := p.Add(numbered, maxSizeOfPacket);
    }

    method SendDatagram(d: Datagram) returns (d': Datagram)
      requires !d.Packet? ==> d.seqs != []
      modifies `wire
      ensures wire == old(wire) + [Codec.PutDatagram(d)] && d' == Codec.Arranged(d)
    {
      var replyBuf := new BytesMut();
      d' := replyBuf.PutDatagram(d);
      assert [] + Codec.PutDatagram(d) == Codec.PutDatagram(d);
      wire := wire + [replyBuf.data];
    }

    /** Sends the packets under consecutive sequence numbers and puts their reliable
        fragments in the history; stops when the history is full. */
    method SendPackets(packets: seq<seq<Fragment>>, now: nat, needsArrivalRate: bool) returns (r: Result<()>, ghost sent: nat)
      requires retransmitCache.Valid()
      modifies retransmitCache, retransmitCache.histories, `nextSeq, `wire
      ensures retransmitCache.Valid()
      ensures sent == Senders.SentCount(old(retransmitCache.View()), old(nextSeq), packets)
      ensures r.Ok? <==> |packets| <= Senders.Room(old(retransmitCache.View()), old(nextSeq))
      ensures SentSoFar(old(retransmitCache.View()), old(nextSeq), old(wire), packets[..sent], now, needsArrivalRate,
                        retransmitCache.View(), nextSeq, wire)
    {
      hide Codec.PutDatagram;
      ghost var c, n, w := retransmitCache.View(), nextSeq, wire;
      NothingSent(c, n, w, packets, now, needsArrivalRate);
      sent := 0;
      for i := 0 to |packets|
        invariant retransmitCache.Valid() && i <= Senders.Room(c, n)
        invariant HistoryTook(c, n, packets[..i], now, retransmitCache.View())
        invariant nextSeq == n + i && WireGot(n, w, packets[..i], needsArrivalRate, wire)
      {
        HistoryOneMore(c, n, packets, i, now, retransmitCache.View());
        WireOneMore(n, w, packets, i, needsArrivalRate, wire);
        r := SendPacket(packets[i], now, needsArrivalRate);
        if r.Err? {
          sent := i + 1;
          return;
        }
      }
      assert packets[..|packets|] == packets;
      return Ok(()), |packets|;
    }

    method SendPacket(fragments: seq<Fragment>, now: nat, needsArrivalRate: bool) returns (r: Result<()>)
      requires retransmitCache.Valid()
      modifies retransmitCache, retransmitCache.histories, `nextSeq, `wire
      ensures retransmitCache.Valid()
      ensures (retransmitCache.View(), r) == Insert(old(retransmitCache.View()), old(nextSeq), Senders.OnlyReliable(fragments), now)
      ensures nextSeq == old(nextSeq) + 1
      ensures wire == old(wire) + [Codec.PutDatagram(Senders.PacketDatagram(old(nextSeq), needsArrivalRate, fragments))]
    {
      var seqNumber := nextSeq;
      nextSeq := nextSeq + 1;
      var packet := SendDatagram(Senders.PacketDatagram(seqNumber, needsArrivalRate, fragments));
      r := retransmitCache.Insert(seqNumber, Senders.OnlyReliable(packet.fragments), now);
    }

    /** Fills packets, and sends them. */
    method Transmit(now: nat, rto: nat, bandwidth: nat, slowStart: bool) returns (r: Result<()>, ghost choice: Choice)
      requires SenderValid() && lastUpdate <= now
      modifies `outgoingQueue, `sendReliableIndex, `nextSeq, `wire, retransmitCache, retransmitCache.histories
      ensures retransmitCache.Valid()
      ensures Updated(old(Sending()), old(wire), now, rto, bandwidth, slowStart, choice, Sending(), wire, r.Ok?)
    {
      hide Codec.PutDatagram;
      ghost var before, w := Sending(), wire;
      ghost var sent;
      var packets;
      packets, choice := FillPackets(now, rto, bandwidth);
      r, sent := SendPackets(packets, now, slowStart);
      PacketsSent(before, w, now, rto, bandwidth, slowStart, choice, sent, Sending(), wire, r.Ok?);
    }

    /** Timed-out packets go back to the queue, and the queue and the heap fill packets. */
    method FillPackets(now: nat, rto: nat, bandwidth: nat) returns (packets: seq<seq<Fragment>>, ghost choice: Choice)
      requires SenderValid() && lastUpdate <= now
      modifies `outgoingQueue, `sendReliableIndex, retransmitCache, retransmitCache.histories
      ensures retransmitCache.Valid() && choice.packets == packets
      ensures Senders.Transmits(old(Sending()), now, rto, bandwidth, choice.taken, choice.picks, packets)
      ensures Taken(old(outgoingQueue), old(sendReliableIndex), choice.picks, outgoingQueue, sendReliableIndex)
      ensures var c := GetRetransmitFragments(old(retransmitCache.View()), now, rto);
              retransmitCache.View() == c.(queue := c.queue[choice.taken..])
    {
      ghost var before := Sending();
      SlotsInTime(before.cache, maxSizeOfPacket, lastUpdate);
      retransmitCache.GetRetransmitFragments(now, rto);
      ghost var taken, picks;
      var filled;
      filled, taken, picks := PackAll(bandwidth);
      TransmitsPacked(before, now, rto, bandwidth, lastUpdate, taken, picks);
      packets := filled.Finish().packets;
      choice := Choice(taken, picks, packets);
    }

    /** Both packing loops. */
    method PackAll(bandwidth: nat) returns (filled: Packer, ghost taken: nat, ghost picks: seq<nat>)
      requires retransmitCache.Valid()
      modifies `outgoingQueue, `sendReliableIndex, retransmitCache`retransmitFragments
      ensures var queue := old(retransmitCache.retransmitFragments);
              && taken <= |queue| && retransmitCache.retransmitFragments == queue[taken..]
              && Taken(old(outgoingQueue), old(sendReliableIndex), picks, outgoingQueue, sendReliableIndex)
              && filled == Fill(Packed(queue, taken, old(outgoingQueue), picks, old(sendReliableIndex)), maxSizeOfPacket)
              && (taken < |queue| ==> Fill(queue[..taken], maxSizeOfPacket).total + queue[taken].FullSize() > bandwidth)
      ensures filled.total <= bandwidth && Senders.Exhausts(outgoingQueue, filled.total, bandwidth)
    {
      ghost var queue := retransmitCache.retransmitFragments;
      var p;
      p, taken := PackRetransmits(bandwidth);
      filled, picks := PackOutgoing(p, queue[..taken], bandwidth);
    }

    /** Acknowledgements and naks collected since the last update. */
    method SendControl(shouldSendAck: bool, arrivalRate: Option<Bytes>)
      modifies `acks, `naks, `wire
      ensures acks == if shouldSendAck then [] else old(acks)
      ensures naks == []
      ensures wire == old(wire) + ControlBytes(old(acks), old(naks), shouldSendAck, arrivalRate)
    {
      if shouldSendAck && acks != [] {
        var _ := SendDatagram(Ack(arrivalRate, acks));
        acks := [];
      }
      ghost var between := wire;
      if naks != [] {
        var _ := SendDatagram(Nak(naks));
        naks := [];
      }
    }

    method Update(now: nat, rto: nat, bandwidth: nat, shouldSendAck: bool, arrivalRate: Option<Bytes>, slowStart: bool)
      returns (r: Result<()>, ghost choice: Choice)
      requires SenderValid() && lastUpdate <= now && timeLastDatagramRecved <= now
      modifies `lastUpdate, `isDead, `bandwidthExceeded, `acks, `naks, `outgoingQueue, `sendReliableIndex, `nextSeq, `wire
      modifies retransmitCache, retransmitCache.histories
      ensures SenderValid() && lastUpdate == now
      ensures Updated(old(Sending()), old(wire + ControlBytes(acks, naks, shouldSendAck, arrivalRate)),
                      now, rto, bandwidth, slowStart, choice, Sending(), wire, r.Ok?)
      ensures isDead == (old(isDead) || (!IsEmpty(old(retransmitCache.View())) && now - old(timeLastDatagramRecved) > timeout))
      ensures acks == (if shouldSendAck then [] else old(acks)) && naks == []
      ensures bandwidthExceeded == (if r.Ok? then outgoingQueue != [] else old(outgoingQueue) != [])
    {
      hide Codec.PutDatagram, Updated, Ready, ControlBytes;
      BeginUpdate(now, shouldSendAck, arrivalRate);
      r, choice := TransmitIfAny(now, rto, bandwidth, slowStart);
    }

    /** The timeout check, and the acknowledgements and naks. */
    method BeginUpdate(now: nat, shouldSendAck: bool, arrivalRate: Option<Bytes>)
      requires SenderValid() && lastUpdate <= now && timeLastDatagramRecved <= now
      modifies `lastUpdate, `isDead, `acks, `naks, `wire
      ensures SenderValid() && lastUpdate == now
      ensures isDead == (old(isDead) || (!IsEmpty(old(retransmitCache.View())) && now - old(timeLastDatagramRecved) > timeout))
      ensures acks == (if shouldSendAck then [] else old(acks)) && naks == []
      ensures wire == old(wire + ControlBytes(acks, naks, shouldSendAck, arrivalRate))
    {
      ReadyLater(Sending(), lastUpdate, now);
      lastUpdate := now;
      var empty := retransmitCache.IsEmpty();
      if !empty && now - timeLastDatagramRecved > timeout {
        isDead := true;
      }
      SendControl(shouldSendAck, arrivalRate);
    }

    method TransmitIfAny(now: nat, rto: nat, bandwidth: nat, slowStart: bool) returns (r: Result<()>, ghost choice: Choice)
      requires SenderValid() && lastUpdate == now
      modifies `bandwidthExceeded, `outgoingQueue, `sendReliableIndex, `nextSeq, `wire, retransmitCache, retransmitCache.histories
      ensures SenderValid()
      ensures Updated(old(Sending()), old(wire), now, rto, bandwidth, slowStart, choice, Sending(), wire, r.Ok?)
      ensures bandwidthExceeded == (if r.Ok? then outgoingQueue != [] else old(outgoingQueue) != [])
    {
      ghost var before, w := Sending(), wire;
      var empty := retransmitCache.IsEmpty();
      bandwidthExceeded := outgoingQueue != [];
      if !empty || bandwidthExceeded {
        r, choice := Transmit(now, rto, bandwidth, slowStart);
        if r.Ok? {
          bandwidthExceeded := outgoingQueue != [];
        }
      } else {
        r, choice := Ok(()), Choice(0, [], []);
        NothingToTransmit(before, w, now, rto, bandwidth, slowStart);
      }
      UpdatedReady(before, w, now, rto, bandwidth, slowStart, choice, Sending(), wire, r.Ok?);
    }

    // ---- acknowledgements ----

    method HandleAck(seqs: seq<nat>)
      requires retransmitCache.Valid()
      modifies `totalBytesAcked, retransmitCache, retransmitCache.histories
      ensures retransmitCache.Valid()
      ensures Sending() == Senders.Acked(old(Sending()), seqs)
      ensures totalBytesAcked == old(totalBytesAcked) + SizeOf(Senders.AckAll(old(retransmitCache.View()), seqs).1)
    {
      ghost var c := retransmitCache.View();
      for i := 0 to |seqs|
        invariant retransmitCache.Valid()
        invariant retransmitCache.View() == Senders.AckAll(c, seqs[..i]).0
        invariant totalBytesAcked == old(totalBytesAcked) + SizeOf(Senders.AckAll(c, seqs[..i]).1)
      {
        var marked := retransmitCache.MarkAsUsed(seqs[i]);
        AckOneMore(c, seqs, i);
        if marked.Some? {
          totalBytesAcked := totalBytesAcked + SizeOf(marked.value.0);
        }
      }
      assert seqs[..|seqs|] == seqs;
      var _ := retransmitCache.Shift();
    }

    method HandleNak(seqs: seq<nat>)
      requires retransmitCache.Valid()
      modifies retransmitCache, retransmitCache.histories
      ensures retransmitCache.Valid()
      ensures Sending() == Senders.Naked(old(Sending()), seqs)
    {
      ghost var c := retransmitCache.View();
      for i := 0 to |seqs|
        invariant retransmitCache.Valid()
        invariant retransmitCache.View() == Senders.NakAll(c, seqs[..i])
      {
        assert seqs[..i + 1][..i] == seqs[..i];
        var marked := retransmitCache.MarkAsUsed(seqs[i]);
        if marked.Some? {
          retransmitCache.ExtendRetransmitFragments(marked.value.0);
        }
      }
      assert seqs[..|seqs|] == seqs;
      var _ := retransmitCache.Shift();
    }

    // ---- receiving ----

    method BuildSplitFragment(fragment: Fragment) returns (r: Result<Option<Fragment>>)
      requires fragment.splitInfo.Some?
      modifies `splitFragments
      ensures (splitFragments, r) == Reassemble(old(splitFragments), fragment)
    {
      var info := fragment.splitInfo.value;
      if info.index >= info.size {
        return Ok(None);
      }
      if info.id in splitFragments {
        var fragments := splitFragments[info.id];
        if info.index >= |fragments| {
          return Err(Panic);
        }
        fragments := fragments[info.index := Some(fragment.data)];
        if Complete(fragments) {
          var data := Concatenate(fragments);
          splitFragments := splitFragments - {info.id};
          return Ok(Some(fragment.(data := data)));
        }
        splitFragments := splitFragments[info.id := fragments];
      } else {
        var fragments := seq(info.size, i => if i == info.index then Some(fragment.data) else None);
        splitFragments := splitFragments[info.id := fragments];
      }
      return Ok(None);
    }

    static method Concatenate(fragments: seq<Option<Bytes>>) returns (data: Bytes)
      requires Complete(fragments)
      ensures data == Assemble(fragments)
    {
      data := [];
      for i := 0 to |fragments|
        invariant data + Assemble(fragments[i..]) == Assemble(fragments)
      {
        assert fragments[i..][0] == fragments[i] && fragments[i..][1..] == fragments[i + 1..];
        ghost var rest := Assemble(fragments[i + 1..]);
        assert data + (fragments[i].value + rest) == (data + fragments[i].value) + rest;
        data := data + fragments[i].value;
      }
    }

    /** Releases what the channel has buffered, up to the first gap. */
    method DrainChannel(channel: nat)
      requires ChannelsValid() && channel < ORDERING_CHANNEL_SIZE
      modifies `recvOrderingIndex, `orderedFragments, `outputQueue
      ensures ChannelsValid()
      ensures var (c, out) := Drain(old(Channels())[channel]);
              Channels() == old(Channels())[channel := c] && outputQueue == old(outputQueue) + out
    {
      ghost var cs, c, queue := Channels(), Channels()[channel], outputQueue;
      assert cs == cs[channel := c];
      while orderedFragments[channel] != [] && orderedFragments[channel][0].Some?
        invariant ChannelsValid()
        invariant Draining(cs[channel], c, queue, outputQueue)
        invariant Channels() == cs[channel := c]
        decreases |orderedFragments[channel]|
      {
        var data := orderedFragments[channel][0].value;
        orderedFragments := orderedFragments[channel := orderedFragments[channel][1..]];
        recvOrderingIndex := recvOrderingIndex[channel := recvOrderingIndex[channel] + 1];
        DrainStep(cs[channel], c, queue, outputQueue);
        outputQueue := outputQueue + [data];
        c := Channel(c.nextOrdering + 1, c.nextSequence, c.buffered[1..]);
      }
      assert queue + [] == queue;
    }

    method ReceiveOn(channel: nat, index: nat, sequence: Option<nat>, data: Bytes)
      requires ChannelsValid() && channel < ORDERING_CHANNEL_SIZE
      modifies `recvOrderingIndex, `recvSequenceIndex, `orderedFragments, `outputQueue
      ensures ChannelsValid()
      ensures var (c, out) := Receive(old(Channels())[channel], index, sequence, data);
              Channels() == old(Channels())[channel := c] && outputQueue == old(outputQueue) + out
    {
      ghost var cs := Channels();
      assert cs == cs[channel := cs[channel]] && outputQueue == outputQueue + [];
      var current := recvOrderingIndex[channel];
      if index < current {
        return;
      }
      if index > current {
        orderedFragments := orderedFragments[channel := Store(orderedFragments[channel], index - current - 1, data)];
      } else if sequence.Some? {
        if sequence.value >= recvSequenceIndex[channel] {
          recvSequenceIndex := recvSequenceIndex[channel := sequence.value + 1];
          outputQueue := outputQueue + [data];
        }
      } else {
        recvOrderingIndex := recvOrderingIndex[channel := recvOrderingIndex[channel] + 1];
        recvSequenceIndex := recvSequenceIndex[channel := 0];
        ghost var c := Channel(cs[channel].nextOrdering + 1, 0, cs[channel].buffered);
        assert Channels() == cs[channel := c];
        ghost var queue := outputQueue;
        outputQueue := outputQueue + [data];
        DrainChannel(channel);
        assert outputQueue == queue + ([data] + Drain(c).1);
      }
    }

    method HandleComplete(fragment: Fragment) returns (r: Result<()>)
      requires ChannelsValid()
      modifies `recvOrderingIndex, `recvSequenceIndex, `orderedFragments, `outputQueue
      ensures ChannelsValid()
      ensures (Receiving(), r) == Deliver(old(Receiving()), fragment)
    {
      if fragment.orderingInfo.Some? {
        var channel: nat := fragment.orderingInfo.value.channel;
        if channel >= ORDERING_CHANNEL_SIZE {
          return Err(Panic);
        }
        ReceiveOn(channel, fragment.orderingInfo.value.index, fragment.sequenceIndex, fragment.data);
      } else {
        outputQueue := outputQueue + [fragment.data];
      }
      return Ok(());
    }

    method AdmitReliable(fragment: Fragment) returns (r: Result<bool>)
      requires reliableWindow.Valid() && reliableWindow.size == RELIABLE_WINDOW_SIZE
      modifies reliableWindow, reliableWindow.buf
      ensures reliableWindow.Valid()
      ensures (reliableWindow.View(), r) == Admit(old(reliableWindow.View()), fragment)
    {
      if fragment.reliableIndex.None? {
        return Ok(true);
      }
      r := reliableWindow.Insert(fragment.reliableIndex.value, ());
      if r != Ok(true) {
        return;
      }
      var count := reliableWindow.Shift();
      if count.Err? {
        return Err(count.error);
      }
    }

    method HandleFragment(fragment: Fragment) returns (r: Result<()>)
      requires reliableWindow.Valid() && reliableWindow.size == RELIABLE_WINDOW_SIZE && ChannelsValid()
      requires seqWindow as object != reliableWindow
      modifies reliableWindow, reliableWindow.buf
      modifies `splitFragments, `recvOrderingIndex, `recvSequenceIndex, `orderedFragments, `outputQueue
      ensures reliableWindow.Valid() && ChannelsValid()
      ensures (Receiving(), r) == Receivers.HandleFragment(old(Receiving()), fragment)
    {
      var admitted := AdmitReliable(fragment);
      if admitted.Err? {
        return Err(admitted.error);
      }
      if !admitted.value {
        return Ok(());
      }
      r := HandleAdmittedFragment(fragment);
    }

    method HandleAdmittedFragment(fragment: Fragment) returns (r: Result<()>)
      requires ChannelsValid()
      modifies `splitFragments, `recvOrderingIndex, `recvSequenceIndex, `orderedFragments, `outputQueue
      ensures ChannelsValid()
      ensures (Receiving(), r) == HandleAdmitted(old(Receiving()), fragment)
    {
      var complete := fragment;
      if fragment.splitInfo.Some? {
        var built := BuildSplitFragment(fragment);
        if built.Err? {
          return Err(built.error);
        }
        if built.value.None? {
          return Ok(());
        }
        complete := built.value.value;
      }
      r := HandleComplete(complete);
    }

    method HandleFragments(fragments: seq<Fragment>) returns (r: Result<()>)
      requires reliableWindow.Valid() && reliableWindow.size == RELIABLE_WINDOW_SIZE && ChannelsValid()
      requires seqWindow as object != reliableWindow
      modifies reliableWindow, reliableWindow.buf
      modifies `splitFragments, `recvOrderingIndex, `recvSequenceIndex, `orderedFragments, `outputQueue
      ensures reliableWindow.Valid() && ChannelsValid()
      ensures (Receiving(), r) == Receivers.HandleFragments(old(Receiving()), fragments)
    {
      for i := 0 to |fragments|
        invariant reliableWindow.Valid() && ChannelsValid()
        invariant Receivers.HandleFragments(Receiving(), fragments[i..]) == Receivers.HandleFragments(old(Receiving()), fragments)
      {
        assert fragments[i..][0] == fragments[i] && fragments[i..][1..] == fragments[i + 1..];
        r := HandleFragment(fragments[i]);
        if r.Err? {
          return;
        }
      }
      return Ok(());
    }

    method HandleSeqNumber(now: nat, rto: nat, seqNumber: nat) returns (r: Result<()>)
      requires seqWindow.Valid() && seqWindow.size == SEQ_WINDOW_SIZE && ChannelsValid()
      requires seqWindow as object != reliableWindow
      requires forall i <- seqWindow.entries :: seqWindow.entries[i] <= now
      modifies seqWindow, seqWindow.buf, `acks, `naks
      ensures seqWindow.Valid()
      ensures forall i <- seqWindow.entries :: seqWindow.entries[i] <= now
      ensures (Receiving(), r) == HandleSeq(old(Receiving()), now, rto, seqNumber)
    {
      hide HighestExpired, Holes, RunLength;
      var isNew := seqWindow.Insert(seqNumber, now);
      if isNew.Err? {
        return Err(isNew.error);
      }
      var count := seqWindow.Shift();
      if count.Err? {
        return Err(count.error);
      }
      if count.value == 0 {
        var missing := CollectMissingFrom(seqWindow, now, rto);
        naks := naks + missing;
      }
      acks := acks + [seqNumber];
      return Ok(());
    }

    method Recv() returns (messages: seq<Bytes>)
      modifies `outputQueue
      ensures messages == old(outputQueue) && outputQueue == []
    {
      messages := outputQueue;
      outputQueue := [];
    }

    method HandlePacket(now: nat, rto: nat, needsRate: bool, seqNumber: nat, fragments: seq<Fragment>) returns (r: Result<()>)
      requires ReceiverValid() && timeLastDatagramRecved == now
      modifies seqWindow, seqWindow.buf, reliableWindow, reliableWindow.buf
      modifies `acks, `naks, `needsArrivalRate, `splitFragments, `recvOrderingIndex, `recvSequenceIndex, `orderedFragments, `outputQueue
      ensures ReceiverValid()
      ensures (Receiving(), r) == Receivers.HandlePacket(old(Receiving()), now, rto, seqNumber, fragments)
      ensures needsArrivalRate == if HandleSeq(old(Receiving()), now, rto, seqNumber).1.Ok? then needsRate else old(needsArrivalRate)
    {
      hide HandleSeq, Receivers.HandleFragments;
      r := HandleSeqNumber(now, rto, seqNumber);
      if r.Err? {
        return;
      }
      needsArrivalRate := needsRate;
      r := HandleFragments(fragments);
    }

    static method Parse(bytes: Bytes) returns (parsed: Result<Datagram>)
      ensures parsed == Codec.GetDatagram(bytes)
    {
      var reader := new BytesReader(bytes);
      parsed := reader.TryGetDatagram();
    }

    method Touch(now: nat)
      requires ReceiverValid() && timeLastDatagramRecved <= now
      modifies `timeLastDatagramRecved
      ensures ReceiverValid() && timeLastDatagramRecved == now
    {
      timeLastDatagramRecved := now;
    }

    /** Bytes from the socket: acknowledgements and naks go to the sending half, packets
        to the receiving half. */
    method HandleDatagram(now: nat, rto: nat, bytes: Bytes) returns (r: Result<()>)
      requires Valid() && lastUpdate <= now && timeLastDatagramRecved <= now
      modifies retransmitCache, retransmitCache.histories, `totalBytesAcked, `timeLastDatagramRecved
      modifies seqWindow, seqWindow.buf, reliableWindow, reliableWindow.buf
      modifies `acks, `naks, `needsArrivalRate, `splitFragments, `recvOrderingIndex, `recvSequenceIndex, `orderedFragments, `outputQueue
      ensures SenderValid() && ReceiverValid()
      ensures (Receiving(), r) == HandleBytes(old(Receiving()), now, rto, bytes)
      ensures Sending() == Answered(old(Sending()), Codec.GetDatagram(bytes))
      ensures totalBytesAcked == old(totalBytesAcked) + BytesAcked(old(Sending()), Codec.GetDatagram(bytes))
      ensures needsArrivalRate == WantsRate(old(Receiving()), now, rto, Codec.GetDatagram(bytes), old(needsArrivalRate))
      ensures timeLastDatagramRecved == if Codec.GetDatagram(bytes).Ok? then now else old(timeLastDatagramRecved)
    {
      hide Codec.GetDatagram, Receivers.HandleParsed;
      var parsed := Parse(bytes);
      if parsed.Err? {
        return Err(parsed.error);
      }
      Touch(now);
      r := HandleParsed(now, rto, parsed.value);
    }

    method HandleParsed(now: nat, rto: nat, d: Datagram) returns (r: Result<()>)
      requires SenderValid() && ReceiverValid() && timeLastDatagramRecved == now
      modifies retransmitCache, retransmitCache.histories, `totalBytesAcked
      modifies seqWindow, seqWindow.buf, reliableWindow, reliableWindow.buf
      modifies `acks, `naks, `needsArrivalRate, `splitFragments, `recvOrderingIndex, `recvSequenceIndex, `orderedFragments, `outputQueue
      ensures SenderValid() && ReceiverValid()
      ensures (Receiving(), r) == Receivers.HandleParsed(old(Receiving()), now, rto, d)
      ensures Sending() == Answered(old(Sending()), Ok(d))
      ensures totalBytesAcked == old(totalBytesAcked) + BytesAcked(old(Sending()), Ok(d))
      ensures needsArrivalRate == WantsRate(old(Receiving()), now, rto, Ok(d), old(needsArrivalRate))
    {
      hide Receivers.HandlePacket, Ready, HandleSeq;
      if d.Packet? {
        r := HandlePacket(now, rto, d.needsArrivalRate, d.seqNumber, d.fragments);
      } else {
        HandleFeedback(d);
        r := Ok(());
      }
    }

    method HandleFeedback(d: Datagram)
      requires SenderValid() && !d.Packet?
      modifies retransmitCache, retransmitCache.histories, `totalBytesAcked
      ensures SenderValid()
      ensures Sending() == Answered(old(Sending()), Ok(d))
      ensures totalBytesAcked == old(totalBytesAcked) + BytesAcked(old(Sending()), Ok(d))
    {
      AnsweredReady(Sending(), Ok(d), lastUpdate);
      match d {
        case Ack(_, seqs) => HandleAck(seqs);
        case Nak(seqs) => HandleNak(seqs);
      }
    }
  }
}
