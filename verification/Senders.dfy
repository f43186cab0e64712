/** The sending half of the layer as a value: what `send`, `update`, `handle_ack` and
    `hanlde_nak` of src/reliability/layer.rs do to it. */
module Senders {
  import opened Basics
  import opened Datagrams
  import opened Retransmission
  import opened Scheduling
  import opened Splitting
  import opened Packing

  datatype Sender = Sender(
    maxSize: nat,
    schedule: Schedule,
    cache: Cache,
    splitId: nat,
    reliableIndex: nat,
    sequenceIndex: nat,
    orderingIndex: seq<nat>,
    nextSeq: nat)

  function NewSender(mtu: nat): Sender
    requires mtu >= IP_UDP_HEADER_SIZE + HEADER_SIZE + PACKET_HEADER_SIZE
  {
    Sender(mtu - IP_UDP_HEADER_SIZE - HEADER_SIZE - PACKET_HEADER_SIZE,
           Schedule([], [0, 0, 0, 0]), EmptyCache(), 0, 0, 0, seq(ORDERING_CHANNEL_SIZE, _ => 0), 0)
  }

  // ---- send ----

  /** The message as one fragment, before it is known whether it has to be split. */
  function Whole(s: Sender, reliability: Reliability, channel: byte, data: Bytes): (whole: Fragment)
    requires reliability.UsesChannel() ==> channel < |s.orderingIndex|
    ensures whole.splitInfo.None? && whole.reliableIndex.None? && whole.Shaped() && whole.data == data
  {
    if reliability.IsSequenced() then
      Fragment(reliability, None, Some(s.sequenceIndex), Some(OrderingInfo(s.orderingIndex[channel], channel)), None, data)
    else if reliability.IsOrdered() then
      Fragment(reliability, None, None, Some(OrderingInfo(s.orderingIndex[channel], channel)), None, data)
    else
      Fragment(reliability, None, None, None, None, data)
  }

  /** Sequenced messages count up; an ordered one starts the count again. */
  function NextSequence(n: nat, reliability: Reliability): nat {
    if reliability.IsSequenced() then n + 1 else if reliability.IsOrdered() then 0 else n
  }

  /** Only ordered messages take an ordering index. */
  function NextOrdering(indices: seq<nat>, reliability: Reliability, channel: byte): seq<nat>
    requires reliability.UsesChannel() ==> channel < |indices|
  {
    if !reliability.IsSequenced() && reliability.IsOrdered() then indices[channel := indices[channel] + 1] else indices
  }

  /** Room for the header of a split fragment and at least one byte. */
  const MIN_PACKET_ROOM: nat := 24

  predicate MustSplit(s: Sender, whole: Fragment) {
    whole.FullSize() > s.maxSize
  }

  /** The fragments `send` puts in the queue. */
  function Outbound(s: Sender, whole: Fragment): seq<Fragment>
    requires s.maxSize >= MIN_PACKET_ROOM && whole.splitInfo.None?
  {
    if MustSplit(s, whole) then
      Pieces(whole, s.splitId, Chunks(whole.data, AllowedSize(whole, s.maxSize)))
    else
      [whole]
  }

  /** Pushes fragments one by one; `peeks` are the tops of the heap met on the way. */
  ghost predicate CanPushAll(s: Schedule, peeks: seq<nat>, p: Priority, fs: seq<Fragment>)
    decreases |fs|, 0
  {
    && |peeks| == |fs|
    && Balanced(s)
    && (fs != [] ==>
          var n := |fs| - 1;
          && CanPushAll(s, peeks[..n], p, fs[..n])
          && Balanced(PushAll(s, peeks[..n], p, fs[..n]))
          && Peeks(PushAll(s, peeks[..n], p, fs[..n]).queue, peeks[n]))
  }

  ghost function PushAll(s: Schedule, peeks: seq<nat>, p: Priority, fs: seq<Fragment>): Schedule
    requires CanPushAll(s, peeks, p, fs)
    decreases |fs|, 1
  {
    if fs == [] then
      s
    else
      var n := |fs| - 1;
      Push(PushAll(s, peeks[..n], p, fs[..n]), peeks[n], p, fs[n])
  }

  ghost predicate CanSend(s: Sender, peeks: seq<nat>, p: Priority, reliability: Reliability, channel: byte, data: Bytes) {
    && s.maxSize >= MIN_PACKET_ROOM
    && (reliability.UsesChannel() ==> channel < |s.orderingIndex|)
    && CanPushAll(s.schedule, peeks, p, Outbound(s, Whole(s, reliability, channel, data)))
  }

  ghost function Sent(s: Sender, peeks: seq<nat>, p: Priority, reliability: Reliability, channel: byte, data: Bytes): Sender
    requires CanSend(s, peeks, p, reliability, channel, data)
  {
    var whole := Whole(s, reliability, channel, data);
    var schedule := PushAll(s.schedule, peeks, p, Outbound(s, whole));
    s.(schedule := schedule,
       splitId := if MustSplit(s, whole) then s.splitId + 1 else s.splitId,
       sequenceIndex := NextSequence(s.sequenceIndex, reliability),
       orderingIndex := NextOrdering(s.orderingIndex, reliability, channel))
  }

  // ---- update ----

  /** `picks` are the positions taken from the heap, each of minimum weight in its turn. */
  ghost predicate ValidPicks(queue: seq<Outgoing>, picks: seq<nat>)
    decreases |picks|, 0
  {
    picks != [] ==>
      var n := |picks| - 1;
      && ValidPicks(queue, picks[..n])
      && IsMin(Left(queue, picks[..n]), picks[n])
  }

  ghost function Left(queue: seq<Outgoing>, picks: seq<nat>): seq<Outgoing>
    requires ValidPicks(queue, picks)
    decreases |picks|, 1
  {
    if picks == [] then
      queue
    else
      var n := |picks| - 1;
      RemoveAt(Left(queue, picks[..n]), picks[n])
  }

  ghost function Popped(queue: seq<Outgoing>, picks: seq<nat>): seq<Fragment>
    requires ValidPicks(queue, picks)
    decreases |picks|, 1
  {
    if picks == [] then
      []
    else
      var n := |picks| - 1;
      Popped(queue, picks[..n]) + [Left(queue, picks[..n])[picks[n]].fragment]
  }

  /** A reliable fragment gets its index when it is first sent. */
  function Number(f: Fragment, index: nat): Fragment {
    if f.reliability.IsReliable() then f.(reliableIndex := Some(index)) else f
  }

  function OnlyReliable(fs: seq<Fragment>): seq<Fragment> {
    if fs == [] then [] else (if fs[0].reliability.IsReliable() then [fs[0]] else []) + OnlyReliable(fs[1..])
  }

  /** Reliable fragments get consecutive indices from `index` on. */
  function NumberAll(fs: seq<Fragment>, index: nat): seq<Fragment> {
    if fs == [] then
      []
    else
      [Number(fs[0], index)] + NumberAll(fs[1..], if fs[0].reliability.IsReliable() then index + 1 else index)
  }

  /** How many packets the history has room for. */
  function Room(c: Cache, nextSeq: nat): nat {
    if nextSeq <= c.start + PACKET_HISTORY_SIZE then c.start + PACKET_HISTORY_SIZE - nextSeq else 0
  }

  function InsertAll(c: Cache, nextSeq: nat, packets: seq<seq<Fragment>>, now: nat): Cache
    decreases |packets|
  {
    if packets == [] then
      c
    else
      var n := |packets| - 1;
      Insert(InsertAll(c, nextSeq, packets[..n], now), nextSeq + n, OnlyReliable(packets[n]), now).0
  }

  /** One packet too many is still handed to the socket before the insert fails. */
  function SentCount(c: Cache, nextSeq: nat, packets: seq<seq<Fragment>>): (n: nat)
    ensures n <= |packets|
  {
    if |packets| <= Room(c, nextSeq) then |packets| else Room(c, nextSeq) + 1
  }

  /** The part of `update` that sends packets. `taken` fragments come from the
      retransmit queue, `picks` from the heap; they fill `packets` in that order. */
  ghost predicate Transmits(s: Sender, now: nat, rto: nat, bandwidth: nat,
                            taken: nat, picks: seq<nat>, packets: seq<seq<Fragment>>)
  {
    var queue := GetRetransmitFragments(s.cache, now, rto).queue;
    && taken <= |queue|
    && ValidPicks(s.schedule.queue, picks)
    && (taken < |queue| ==> SizeOf(queue[..taken]) + queue[taken].FullSize() > bandwidth)
    && Join(packets) == queue[..taken] + NumberAll(Popped(s.schedule.queue, picks), s.reliableIndex)
    && SizeOf(Join(packets)) <= bandwidth
    && NextFit(packets, s.maxSize)
    && Exhausts(Left(s.schedule.queue, picks), SizeOf(Join(packets)), bandwidth)
  }

  /** Nothing is left in the heap, or the top of the heap no longer fits the bandwidth. */
  ghost predicate Exhausts(left: seq<Outgoing>, total: nat, bandwidth: nat) {
    left != [] ==> exists i: nat :: IsMin(left, i) && total + left[i].fragment.FullSize() > bandwidth
  }

  ghost function Transmitted(s: Sender, now: nat, rto: nat, taken: nat, picks: seq<nat>, packets: seq<seq<Fragment>>): Sender
    requires ValidPicks(s.schedule.queue, picks)
    requires taken <= |GetRetransmitFragments(s.cache, now, rto).queue|
  {
    var c := GetRetransmitFragments(s.cache, now, rto);
    var sent := packets[..SentCount(c, s.nextSeq, packets)];
    s.(schedule := s.schedule.(queue := Left(s.schedule.queue, picks)),
       cache := InsertAll(c.(queue := c.queue[taken..]), s.nextSeq, sent, now),
       reliableIndex := s.reliableIndex + |OnlyReliable(Popped(s.schedule.queue, picks))|,
       nextSeq := s.nextSeq + |sent|)
  }

  /** The history took every packet, so `update` returns without an error. */
  predicate TransmitsOk(s: Sender, now: nat, rto: nat, packets: seq<seq<Fragment>>) {
    |packets| <= Room(GetRetransmitFragments(s.cache, now, rto), s.nextSeq)
  }

  function PacketDatagram(seqNumber: nat, needsArrivalRate: bool, fragments: seq<Fragment>): Datagram {
    Packet(false, true, needsArrivalRate, seqNumber, fragments)
  }

  /** The datagrams that go out, in order, under consecutive sequence numbers. */
  function PacketDatagrams(nextSeq: nat, needsArrivalRate: bool, packets: seq<seq<Fragment>>): (r: seq<Datagram>)
    ensures |r| == |packets|
    ensures forall i :: 0 <= i < |packets| ==> r[i] == PacketDatagram(nextSeq + i, needsArrivalRate, packets[i])
  {
    seq(|packets|, i requires 0 <= i < |packets| => PacketDatagram(nextSeq + i, needsArrivalRate, packets[i]))
  }

  // ---- acknowledgements ----

  /** The cache after acknowledgements, and the fragments they covered. */
  function AckAll(c: Cache, seqs: seq<nat>): (Cache, seq<Fragment>) {
    if seqs == [] then
      (c, [])
    else
      var n := |seqs| - 1;
      var (c', acked) := AckAll(c, seqs[..n]);
      var (c'', r) := MarkAsUsed(c', seqs[n]);
      (c'', acked + if r.Some? then r.value.0 else [])
  }

  function NakAll(c: Cache, seqs: seq<nat>): Cache {
    if seqs == [] then
      c
    else
      var n := |seqs| - 1;
      var (c', r) := MarkAsUsed(NakAll(c, seqs[..n]), seqs[n]);
      if r.Some? then c'.(queue := c'.queue + r.value.0) else c'
  }

  function Acked(s: Sender, seqs: seq<nat>): Sender {
    s.(cache := Shift(AckAll(s.cache, seqs).0).0)
  }

  function Naked(s: Sender, seqs: seq<nat>): Sender {
    s.(cache := Shift(NakAll(s.cache, seqs)).0)
  }
}
