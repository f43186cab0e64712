/** What goes out: which bytes a packet starts with, which fragments a transmission takes
    and in which order, what a full history does, and how a message is cut
    (src/reliability/layer.rs:174-287 and 511-586). */
module Transmissions {
  import opened Basics
  import opened Datagrams
  import opened Retransmission
  import opened RetransmissionRuns
  import opened Scheduling
  import opened Splitting
  import opened Packing
  import opened Senders
  import opened SenderRuns
  import opened Traces
  import LayerFacts
  import Codec

  // ---- the head of a packet ----

  /** The packets of an update start with 0x8C in slow start, which asks the peer for an
      arrival rate, and with 0x88 after it; then comes the number, lowest byte first. */
  lemma PacketHeads(s: Sender, w: seq<Bytes>, now: nat, rto: nat, bandwidth: nat, slowStart: bool, choice: LayerFacts.Choice,
                    s': Sender, w': seq<Bytes>, ok: bool)
    requires LayerFacts.Updated(s, w, now, rto, bandwidth, slowStart, choice, s', w', ok)
    ensures |w| <= |w'| && s'.nextSeq == s.nextSeq + (|w'| - |w|)
    ensures forall j :: |w| <= j < |w'| ==>
                          && |w'[j]| >= 4 && w'[j][0] == (if slowStart then 0x8C else 0x88)
                          && w'[j][1] as nat + w'[j][2] as nat * 256 + w'[j][3] as nat * 65536 == (s.nextSeq + (j - |w|)) % 0x100_0000
  {
    hide Transmits, GetRetransmitFragments, InsertAll, Codec.PutDatagram, Left, OnlyReliable, Popped, SentCount;
    var sent := choice.packets[..SentCount(GetRetransmitFragments(s.cache, now, rto), s.nextSeq, choice.packets)];
    var bytes := LayerFacts.EncodedPackets(s.nextSeq, slowStart, sent);
    forall j | |w| <= j < |w'|
      ensures |w'[j]| >= 4 && w'[j][0] == (if slowStart then 0x8C else 0x88)
      ensures w'[j][1] as nat + w'[j][2] as nat * 256 + w'[j][3] as nat * 65536 == (s.nextSeq + (j - |w|)) % 0x100_0000
    {
      assert w'[j] == bytes[j - |w|];
      PacketHead(s.nextSeq + (j - |w|), slowStart, sent[j - |w|]);
    }
  }

  lemma PacketHead(n: nat, slowStart: bool, fragments: seq<Fragment>)
    ensures var b := Codec.PutDatagram(PacketDatagram(n, slowStart, fragments));
            && |b| >= 4 && b[0] == (if slowStart then 0x8C else 0x88)
            && b[1] as nat + b[2] as nat * 256 + b[3] as nat * 65536 == n % 0x100_0000
  {
    Codec.Digits24(n);
  }

  /** No packet of any run is one of a pair, and all are sent as continuous. */
  ghost predicate PlainFlags(wire: seq<Datagram>) {
    forall d <- wire :: d.Packet? && !d.isPacketPair && d.isContinuousSend
  }

  lemma {:induction false} EveryPacketIsContinuous(r: Run, actions: seq<Action>, end: Run)
    requires PlainFlags(r.wire) && IsRun(r, actions, end)
    ensures PlainFlags(end.wire)
    decreases |actions|
  {
    hide Transmits, CanPushAll, PushAll;
    if actions != [] {
      StepSends(r, actions[0]);
      EveryPacketIsContinuous(Step(r, actions[0]), actions[1..], end);
    }
  }

  /** Only an update sends anything: packets that ask for a rate if it was told to, under the
      next numbers. */
  lemma StepSends(r: Run, a: Action)
    requires Enabled(r, a)
    ensures r.wire <= Step(r, a).wire && (!a.DoUpdate? ==> Step(r, a).wire == r.wire)
    ensures forall j :: |r.wire| <= j < |Step(r, a).wire| ==>
                          var d := Step(r, a).wire[j];
                          && d.Packet? && !d.isPacketPair && d.isContinuousSend
                          && d.seqNumber == r.sender.nextSeq + (j - |r.wire|)
                          && a.DoUpdate? && d.needsArrivalRate == a.needsArrivalRate
  {
    hide Transmits, CanPushAll, PushAll, GetRetransmitFragments, InsertAll, Left, Popped, OnlyReliable;
  }

  // ---- what a transmission takes ----

  /** The entries taken from the heap, in order. */
  ghost function Taken(queue: seq<Outgoing>, picks: seq<nat>): (items: seq<Outgoing>)
    requires ValidPicks(queue, picks)
    ensures |items| == |picks|
    decreases |picks|
  {
    if picks == [] then
      []
    else
      var n := |picks| - 1;
      Taken(queue, picks[..n]) + [Left(queue, picks[..n])[picks[n]]]
  }

  predicate ByWeight(items: seq<Outgoing>, left: seq<Outgoing>) {
    && (forall i, j :: 0 <= i < j < |items| ==> items[i].weight <= items[j].weight)
    && (forall i, j :: 0 <= i < |items| && 0 <= j < |left| ==> items[i].weight <= left[j].weight)
  }

  lemma RemoveOne(queue: seq<Outgoing>, i: nat)
    requires i < |queue|
    ensures multiset(RemoveAt(queue, i)) + multiset{queue[i]} == multiset(queue)
    ensures forall x <- RemoveAt(queue, i) :: x in queue
  {
    assert queue == queue[..i] + ([queue[i]] + queue[i + 1..]);
  }

  lemma ByWeightSnoc(items: seq<Outgoing>, left: seq<Outgoing>, i: nat)
    requires ByWeight(items, left) && IsMin(left, i)
    ensures ByWeight(items + [left[i]], RemoveAt(left, i))
  {
    var left' := RemoveAt(left, i);
    forall j | 0 <= j < |left'|
      ensures left[i].weight <= left'[j].weight && forall k :: 0 <= k < |items| ==> items[k].weight <= left'[j].weight
    {
      assert left'[j] == left[if j < i then j else j + 1];
    }
  }

  /** The lightest entries are taken, in order of weight, and the others stay. */
  lemma {:induction false} TakenByWeight(queue: seq<Outgoing>, picks: seq<nat>)
    requires ValidPicks(queue, picks)
    ensures ByWeight(Taken(queue, picks), Left(queue, picks))
    ensures multiset(Taken(queue, picks)) + multiset(Left(queue, picks)) == multiset(queue)
    ensures |Popped(queue, picks)| == |picks|
    ensures forall i :: 0 <= i < |picks| ==> Popped(queue, picks)[i] == Taken(queue, picks)[i].fragment
    decreases |picks|
  {
    hide ByWeight, RemoveAt;
    if picks == [] {
      assert ByWeight([], queue) by {
        NothingTaken(queue);
      }
    } else {
      var n := |picks| - 1;
      var left := Left(queue, picks[..n]);
      TakenByWeight(queue, picks[..n]);
      ByWeightSnoc(Taken(queue, picks[..n]), left, picks[n]);
      RemoveOne(left, picks[n]);
    }
  }

  lemma NothingTaken(queue: seq<Outgoing>)
    ensures ByWeight([], queue)
  {
  }

  function Contents(wire: seq<Datagram>): seq<Fragment> {
    if wire == [] then [] else (if wire[0].Packet? then wire[0].fragments else []) + Contents(wire[1..])
  }

  lemma {:induction false} ContentsOfPackets(n: nat, rate: bool, packets: seq<seq<Fragment>>)
    ensures Contents(PacketDatagrams(n, rate, packets)) == Join(packets)
    decreases |packets|
  {
    if packets != [] {
      ContentsOfPackets(n + 1, rate, packets[1..]);
      assert PacketDatagrams(n, rate, packets)[1..] == PacketDatagrams(n + 1, rate, packets[1..]);
    }
  }

  /** The same fragments but for the reliable indices. */
  predicate SameButNumbers(numbered: seq<Fragment>, items: seq<Outgoing>) {
    && |numbered| == |items|
    && forall i :: 0 <= i < |items| ==> numbered[i] == items[i].fragment.(reliableIndex := numbered[i].reliableIndex)
  }

  lemma {:induction false} NumberingChangesNumbers(fs: seq<Fragment>, index: nat)
    ensures |NumberAll(fs, index)| == |fs|
    ensures forall i :: 0 <= i < |fs| ==> NumberAll(fs, index)[i] == fs[i].(reliableIndex := NumberAll(fs, index)[i].reliableIndex)
  {
    if fs != [] {
      NumberingChangesNumbers(fs[1..], if fs[0].reliability.IsReliable() then index + 1 else index);
    }
  }

  /** A transmission that the history has room for sends first from the retransmit queue,
      what timed out just now included, oldest first; then the lightest of the heap in order
      of weight. It stays within the bandwidth, and stops with either only where the next
      fragment would exceed it. */
  lemma UpdateSends(r: Run, a: Action) returns (again: seq<Fragment>, first: seq<Fragment>, items: seq<Outgoing>)
    requires Inv(r) && a.DoUpdate? && Enabled(r, a) && Step(r, a).alive
    ensures var r' := Step(r, a);
            var due, left := r.sender.cache.queue + AllOverdue(r.sender.cache.slots, a.now, a.rto), r'.sender.schedule.queue;
            && Contents(r'.wire[|r.wire|..]) == again + first && SizeOf(again + first) <= a.bandwidth
            && due == again + r'.sender.cache.queue
            && (r'.sender.cache.queue != [] ==> SizeOf(again) + r'.sender.cache.queue[0].FullSize() > a.bandwidth)
            && multiset(items) + multiset(left) == multiset(r.sender.schedule.queue)
            && SameButNumbers(first, items) && ByWeight(items, left)
            && (left != [] ==> exists i: nat :: IsMin(left, i) && SizeOf(again + first) + left[i].fragment.FullSize() > a.bandwidth)
  {
    hide Transmits, GetRetransmitFragments, AllOverdue, SizeOf, IsMin, Inv, NextFit, InsertAll, ByWeight, Left, Popped, NumberAll, OnlyReliable,
         Step, Enabled, Join, Contents, Taken;
    var s, c := r.sender, GetRetransmitFragments(r.sender.cache, a.now, a.rto);
    TransmitsIs(r, a);
    TransmitKeepsQueue(r, a);
    again, items := c.queue[..a.taken], Taken(s.schedule.queue, a.picks);
    first := NumberAll(Popped(s.schedule.queue, a.picks), s.reliableIndex);
    TakenByWeight(s.schedule.queue, a.picks);
    NumberingChangesNumbers(Popped(s.schedule.queue, a.picks), s.reliableIndex);
    assert c.queue == again + c.queue[a.taken..];
  }

  /** What `Transmits` asks of an action. */
  lemma TransmitsIs(r: Run, a: Action)
    requires a.DoUpdate? && Enabled(r, a)
    ensures var (s, queue) := (r.sender, GetRetransmitFragments(r.sender.cache, a.now, a.rto).queue);
            && a.taken <= |queue| && ValidPicks(s.schedule.queue, a.picks)
            && Join(a.packets) == queue[..a.taken] + NumberAll(Popped(s.schedule.queue, a.picks), s.reliableIndex)
            && SizeOf(Join(a.packets)) <= a.bandwidth
            && (a.taken < |queue| ==> SizeOf(queue[..a.taken]) + queue[a.taken].FullSize() > a.bandwidth)
            && (Left(s.schedule.queue, a.picks) != [] ==>
                  exists i: nat :: IsMin(Left(s.schedule.queue, a.picks), i)
                                   && SizeOf(Join(a.packets)) + Left(s.schedule.queue, a.picks)[i].fragment.FullSize() > a.bandwidth)
  {
    hide GetRetransmitFragments, Join, SizeOf, NumberAll, Popped, Left, IsMin, NextFit;
  }

  /** The packets and the retransmit queue after a transmission. */
  lemma TransmitKeepsQueue(r: Run, a: Action)
    requires Inv(r) && a.DoUpdate? && Enabled(r, a) && Step(r, a).alive
    ensures var r', queue := Step(r, a), GetRetransmitFragments(r.sender.cache, a.now, a.rto).queue;
            && queue == r.sender.cache.queue + AllOverdue(r.sender.cache.slots, a.now, a.rto)
            && a.taken <= |queue| && r'.sender.cache.queue == queue[a.taken..]
            && r'.sender.schedule.queue == Left(r.sender.schedule.queue, a.picks)
            && Contents(r'.wire[|r.wire|..]) == Join(a.packets)
  {
    hide GetRetransmitFragments, AllOverdue, Join, SizeOf, NumberAll, Popped, Left, InsertAll, NextFit, Conserved, InOrder, WireKnown, Shape;
    var s, r', c := r.sender, Step(r, a), GetRetransmitFragments(r.sender.cache, a.now, a.rto);
    TimedLater(s.cache.slots, r.clock, a.now);
    RetransmitMovesAllOverdue(s.cache, s.nextSeq, a.now, a.rto);
    SentAll(c, s.nextSeq, a.packets);
    ContentsOfPackets(s.nextSeq, a.needsArrivalRate, a.packets);
    assert r'.wire[|r.wire|..] == PacketDatagrams(s.nextSeq, a.needsArrivalRate, a.packets);
    InsertKeepsQueue(c.(queue := c.queue[a.taken..]), s.nextSeq, a.packets, a.now);
  }

  lemma {:induction false} InsertKeepsQueue(c: Cache, next: nat, packets: seq<seq<Fragment>>, now: nat)
    ensures InsertAll(c, next, packets, now).queue == c.queue
    decreases |packets|
  {
    if packets != [] {
      InsertKeepsQueue(c, next, packets[..|packets| - 1], now);
    }
  }

  /** The history holds 128 packets. What is too many for it fails the update, but one of
      them is sent all the same. */
  lemma FullHistory(r: Run, a: Action)
    requires Inv(r) && a.DoUpdate? && Enabled(r, a)
    ensures var r', c := Step(r, a), GetRetransmitFragments(r.sender.cache, a.now, a.rto);
            var room := c.start + 128 - r.sender.nextSeq;
            && room >= 0
            && (r'.alive <==> |a.packets| <= room)
            && |r'.wire| - |r.wire| == (if |a.packets| <= room then |a.packets| else room + 1)
  {
    hide ScanRun, InFlight, Transmits, InsertAll, NextFit, Conserved, InOrder, WireKnown, Shape;
    TimedLater(r.sender.cache.slots, r.clock, a.now);
    RetransmitExact(r.sender.cache, r.sender.nextSeq, a.now, a.rto);
  }

  // ---- how a message is cut ----

  /** The bytes of a fragment that is not split, beside its payload. */
  function HeaderOf(r: Reliability): nat {
    match r
    case Unreliable => 3
    case UnreliableSequenced => 10
    case Reliable => 6
    case ReliableOrdered => 10
    case ReliableSequenced => 13
    case UnreliableWithAckReceipt => 3
    case ReliableWithAckReceipt => 6
    case ReliableOrderedWithAckReceipt => 10
  }

  /** A message that fits a packet with its header goes out whole. A longer one is cut into
      pieces that fill a packet each, but for the last; each tells how many there are, under
      which id, and which one it is. */
  lemma CutToFill(s: Sender, a: Action)
    requires a.DoSend? && s.maxSize >= MIN_PACKET_ROOM && (a.reliability.UsesChannel() ==> a.channel < |s.orderingIndex|)
    ensures var whole := WholeSent(s, a);
            var fs, n := Outbound(s, whole), |Outbound(s, whole)|;
            if HeaderOf(a.reliability) + |a.data| <= s.maxSize then
              fs == [whole]
            else
              && n >= 2
              && (forall i :: 0 <= i < n - 1 ==> HeaderOf(a.reliability) + 10 + |fs[i].data| == s.maxSize)
              && 0 < |fs[n - 1].data| && HeaderOf(a.reliability) + 10 + |fs[n - 1].data| <= s.maxSize
              && (forall i :: 0 <= i < n ==> fs[i] == whole.(splitInfo := Some(SplitInfo(n, s.splitId, i)), data := fs[i].data))
  {
    var whole := WholeSent(s, a);
    if MustSplit(s, whole) {
      var size := AllowedSize(whole, s.maxSize);
      SplitsInTwo(whole, s.maxSize);
      ChunksFill(a.data, size);
    }
  }

  lemma {:induction false} ChunksFill(data: Bytes, size: nat)
    requires size > 0 && data != []
    ensures var cs := Chunks(data, size);
            && (forall i :: 0 <= i < |cs| - 1 ==> |cs[i]| == size)
            && 0 < |cs[|cs| - 1]| <= size
  {
    if |data| > size {
      ChunksFill(data[size..], size);
    }
  }

  /** A packet has room for the MTU less the IP and UDP headers and its own four bytes; all
      counters start at zero, on each of 32 channels. */
  lemma StartOfSender(mtu: nat)
    requires mtu >= 32
    ensures var s := NewSender(mtu);
            && s.maxSize == mtu - 32 && s.schedule.queue == [] && s.cache == EmptyCache()
            && s.splitId == s.reliableIndex == s.sequenceIndex == s.nextSeq == 0
            && |s.orderingIndex| == 32 && forall c :: 0 <= c < 32 ==> s.orderingIndex[c] == 0
  {
  }
}
