/** What the methods of `Layers.Layer` rely on from one loop round to the next. */
module LayerFacts {
  import opened Basics
  import opened Datagrams
  import opened Retransmission
  import opened Scheduling
  import opened Splitting
  import opened Ordering
  import opened Packing
  import Senders
  import SenderRuns
  import EndToEnd
  import opened Receivers
  import Codec

  /** What the sending half relies on from one call to the next. */
  ghost predicate Ready(s: Senders.Sender, clock: nat) {
    SenderRuns.Shape(s) && CacheReady(s.cache, s.maxSize, clock)
  }

  /** Nothing in the cache is too large for a packet or was sent later than `clock`. */
  ghost predicate CacheReady(c: Cache, max: nat, clock: nat) {
    Small(c.queue, max) && forall i :: 0 <= i < PACKET_HISTORY_SIZE ==> HistoryReady(c.slots[i], max, clock)
  }

  predicate HistoryReady(h: PacketHistory, max: nat, clock: nat) {
    h.Valid? ==> h.timeSent <= clock && Small(h.fragments, max)
  }

  lemma NewSenderReady(mtu: nat, clock: nat)
    requires mtu >= IP_UDP_HEADER_SIZE + HEADER_SIZE + PACKET_HEADER_SIZE
    ensures Ready(Senders.NewSender(mtu), clock) <==> mtu >= SenderRuns.MIN_MTU
  {
    hide EmptyCache;
  }

  function Zipped(ordering: seq<nat>, sequence: seq<nat>, buffered: seq<seq<Option<Bytes>>>): (cs: seq<Channel<Bytes>>)
    requires |ordering| == |sequence| == |buffered|
    ensures |cs| == |ordering|
    ensures forall i :: 0 <= i < |cs| ==> cs[i] == Channel(ordering[i], sequence[i], buffered[i])
  {
    seq(|ordering|, i requires 0 <= i < |ordering| => Channel(ordering[i], sequence[i], buffered[i]))
  }

  predicate Small(fs: seq<Fragment>, max: nat) {
    forall f <- fs :: f.FullSize() <= max
  }

  /** `picks` have been taken from the heap and numbered. */
  ghost predicate Taken(queue: seq<Outgoing>, index: nat, picks: seq<nat>, queue': seq<Outgoing>, index': nat) {
    && Senders.ValidPicks(queue, picks)
    && queue' == Senders.Left(queue, picks)
    && index' == index + |Senders.OnlyReliable(Senders.Popped(queue, picks))|
  }

  lemma FullExhausts(queue: seq<Outgoing>, total: nat, bandwidth: nat)
    requires queue == [] || total >= bandwidth
    ensures Senders.Exhausts(queue, total, bandwidth)
  {
    if queue != [] {
      var i := MinExists(queue);
      assert IsMin(queue, i) && total + queue[i].fragment.FullSize() > bandwidth;
    }
  }

  lemma {:induction false} MinExists(queue: seq<Outgoing>) returns (i: nat)
    requires queue != []
    ensures IsMin(queue, i)
  {
    if |queue| == 1 {
      i := 0;
    } else {
      var j := MinExists(queue[1..]);
      i := if queue[0].weight < queue[j + 1].weight then 0 else j + 1;
      assert forall k :: 0 < k < |queue| ==> queue[k] == queue[1..][k - 1];
    }
  }

  /** These packets have gone to the socket and into the history, under sequence
      numbers from `n` on. */
  ghost predicate SentSoFar(c: Cache, n: nat, w: seq<Bytes>, packets: seq<seq<Fragment>>, now: nat, needsArrivalRate: bool,
                            c': Cache, n': nat, w': seq<Bytes>)
  {
    && HistoryTook(c, n, packets, now, c')
    && n' == n + |packets|
    && WireGot(n, w, packets, needsArrivalRate, w')
  }

  ghost predicate HistoryTook(c: Cache, n: nat, packets: seq<seq<Fragment>>, now: nat, c': Cache) {
    c' == Senders.InsertAll(c, n, packets, now) && c'.start == c.start
  }

  ghost predicate WireGot(n: nat, w: seq<Bytes>, packets: seq<seq<Fragment>>, needsArrivalRate: bool, w': seq<Bytes>) {
    w' == w + EncodedPackets(n, needsArrivalRate, packets)
  }

  lemma NothingSent(c: Cache, n: nat, w: seq<Bytes>, packets: seq<seq<Fragment>>, now: nat, needsArrivalRate: bool)
    ensures HistoryTook(c, n, packets[..0], now, c) && WireGot(n, w, packets[..0], needsArrivalRate, w)
  {
    assert w + [] == w;
  }

  lemma HistoryOneMore(c: Cache, n: nat, packets: seq<seq<Fragment>>, i: nat, now: nat, c': Cache)
    requires i < |packets| && HistoryTook(c, n, packets[..i], now, c')
    ensures HistoryTook(c, n, packets[..i + 1], now, Insert(c', n + i, Senders.OnlyReliable(packets[i]), now).0)
  {
    assert packets[..i + 1][..i] == packets[..i];
  }

  lemma WireOneMore(n: nat, w: seq<Bytes>, packets: seq<seq<Fragment>>, i: nat, needsArrivalRate: bool, w': seq<Bytes>)
    requires i < |packets| && WireGot(n, w, packets[..i], needsArrivalRate, w')
    ensures WireGot(n, w, packets[..i + 1], needsArrivalRate,
                    w' + [Codec.PutDatagram(Senders.PacketDatagram(n + i, needsArrivalRate, packets[i]))])
  {
    EncodedOneMore(n, needsArrivalRate, packets, i);
    Regroup(w, EncodedPackets(n, needsArrivalRate, packets[..i]),
            Codec.PutDatagram(Senders.PacketDatagram(n + i, needsArrivalRate, packets[i])));
  }

  lemma Regroup<T>(a: seq<T>, b: seq<T>, x: T)
    ensures a + (b + [x]) == (a + b) + [x]
  {
  }

  lemma TakeOneMore(queue: seq<Outgoing>, index: nat, picks: seq<nat>, queue': seq<Outgoing>, index': nat, top: nat)
    requires Taken(queue, index, picks, queue', index') && IsMin(queue', top)
    ensures var f := queue'[top].fragment;
            && Taken(queue, index, picks + [top], RemoveAt(queue', top), if f.reliability.IsReliable() then index' + 1 else index')
            && Senders.NumberAll(Senders.Popped(queue, picks + [top]), index) ==
               Senders.NumberAll(Senders.Popped(queue, picks), index) + [Senders.Number(f, index')]
  {
    var f := queue'[top].fragment;
    assert (picks + [top])[..|picks|] == picks;
    assert Senders.Popped(queue, picks + [top]) == Senders.Popped(queue, picks) + [f];
    SenderRuns.OnlyReliableAppend(Senders.Popped(queue, picks), [f]);
    OneReliable(f);
    NumberAllSnoc(Senders.Popped(queue, picks), f, index);
  }

  lemma OneReliable(f: Fragment)
    ensures Senders.OnlyReliable([f]) == if f.reliability.IsReliable() then [f] else []
  {
    assert Senders.OnlyReliable([f][1..]) == [];
  }

  lemma {:induction false} NumberAllSnoc(fs: seq<Fragment>, f: Fragment, index: nat)
    ensures Senders.NumberAll(fs + [f], index) ==
            Senders.NumberAll(fs, index) + [Senders.Number(f, index + |Senders.OnlyReliable(fs)|)]
  {
    if fs == [] {
      assert [] + [f] == [f] && Senders.NumberAll([f][1..], index) == [];
    } else {
      assert (fs + [f])[0] == fs[0] && (fs + [f])[1..] == fs[1..] + [f];
      NumberAllSnoc(fs[1..], f, if fs[0].reliability.IsReliable() then index + 1 else index);
    }
  }

  /** The bytes that go out for these packets, under sequence numbers from `nextSeq` on. */
  ghost function EncodedPackets(nextSeq: nat, needsArrivalRate: bool, packets: seq<seq<Fragment>>): (bytes: seq<Bytes>)
    ensures |bytes| == |packets|
    ensures forall i :: 0 <= i < |packets| ==>
                          bytes[i] == Codec.PutDatagram(Senders.PacketDatagram(nextSeq + i, needsArrivalRate, packets[i]))
  {
    seq(|packets|, i requires 0 <= i < |packets| =>
          Codec.PutDatagram(Senders.PacketDatagram(nextSeq + i, needsArrivalRate, packets[i])))
  }

  lemma EncodedOneMore(nextSeq: nat, needsArrivalRate: bool, packets: seq<seq<Fragment>>, i: nat)
    requires i < |packets|
    ensures EncodedPackets(nextSeq, needsArrivalRate, packets[..i + 1]) ==
            EncodedPackets(nextSeq, needsArrivalRate, packets[..i])
            + [Codec.PutDatagram(Senders.PacketDatagram(nextSeq + i, needsArrivalRate, packets[i]))]
  {
  }

  /** The chunk cut off next, and what is left to cut. */
  lemma ChunkStep(data: Bytes, size: nat, chunks: seq<Bytes>, i: nat)
    requires size > 0 && i < |chunks| && Chunks(data, size) == chunks[i..]
    ensures var n := if |data| < size then |data| else size;
            && chunks[i] == data[..n]
            && (i + 1 < |chunks| ==> Chunks(data[n..], size) == chunks[i + 1..])
  {
    assert chunks[i..][0] == chunks[i];
    if |data| <= size {
      assert Chunks(data, size) == [data];
      assert |chunks[i..]| == 1;
    } else {
      assert Chunks(data, size)[1..] == Chunks(data[size..], size);
      assert chunks[i..][1..] == chunks[i + 1..];
    }
  }

  /** `after` is `before` with the fragments pushed. */
  ghost predicate Pushed(before: Schedule, peeks: seq<nat>, p: Priority, fs: seq<Fragment>, after: Schedule) {
    Senders.CanPushAll(before, peeks, p, fs) && after == Senders.PushAll(before, peeks, p, fs) && Balanced(after)
  }

  lemma NothingPushed(s: Schedule, p: Priority, fs: seq<Fragment>)
    requires Balanced(s)
    ensures Pushed(s, [], p, fs[..0], s)
  {
  }

  lemma PushOneMore(before: Schedule, peeks: seq<nat>, p: Priority, fs: seq<Fragment>, i: nat, peek: nat, s: Schedule)
    requires i < |fs| && Pushed(before, peeks, p, fs[..i], s) && Peeks(s.queue, peek)
    ensures Pushed(before, peeks + [peek], p, fs[..i + 1], Push(s, peek, p, fs[i]))
  {
    assert fs[..i + 1][..i] == fs[..i] && (peeks + [peek])[..i] == peeks;
    PushBalanced(s, peek, p, fs[i]);
  }

  // ---- transmission ----

  lemma RetransmitReady(c: Cache, max: nat, clock: nat, now: nat, rto: nat)
    requires CacheReady(c, max, clock) && clock <= now
    ensures CacheReady(GetRetransmitFragments(c, now, rto), max, now)
  {
    var count := ScanRun(c.slots, now, rto);
    SmallInFlight(c.slots, count, max, clock);
    var slots := Drop(c.slots, count);
    assert forall i :: 0 <= i < PACKET_HISTORY_SIZE ==>
                         slots[i] == if i < PACKET_HISTORY_SIZE - count then c.slots[count + i] else Invalid;
  }

  lemma {:induction false} SmallInFlight(slots: seq<PacketHistory>, count: nat, max: nat, clock: nat)
    requires count <= |slots| && forall i :: 0 <= i < |slots| ==> HistoryReady(slots[i], max, clock)
    ensures Small(InFlight(slots[..count]), max)
  {
    if count > 0 {
      SmallInFlight(slots, count - 1, max, clock);
      InFlightSnoc(slots, count - 1);
    }
  }

  lemma {:induction false} SmallNumbered(fs: seq<Fragment>, index: nat, max: nat)
    requires Small(fs, max)
    ensures Small(Senders.NumberAll(fs, index), max)
  {
    if fs != [] {
      assert fs[0] in fs;
      SmallNumbered(fs[1..], if fs[0].reliability.IsReliable() then index + 1 else index, max);
    }
  }

  lemma SmallPopped(s: Schedule, picks: seq<nat>, max: nat)
    requires Balanced(s) && Senders.ValidPicks(s.queue, picks)
    requires forall x <- s.queue :: SenderRuns.Queueable(x.fragment, max)
    ensures Small(Senders.Popped(s.queue, picks), max)
  {
    SenderRuns.LeftBalanced(s, picks, max);
  }

  /** What the two packing loops have put together. */
  lemma PackedFits(items: seq<Fragment>, max: nat)
    requires Small(items, max)
    ensures var packets := Fill(items, max).Finish().packets;
            Join(packets) == items && NextFit(packets, max) && SizeOf(items) == Fill(items, max).total
  {
    FillHolds(items, max);
    FinishHolds(Fill(items, max), items, max);
  }

  lemma {:induction false} SmallReliable(fs: seq<Fragment>, max: nat)
    requires Small(fs, max)
    ensures Small(Senders.OnlyReliable(fs), max)
  {
    if fs != [] {
      assert fs[0] in fs;
      SmallReliable(fs[1..], max);
    }
  }

  lemma {:induction false} InsertAllReady(c: Cache, n: nat, packets: seq<seq<Fragment>>, max: nat, now: nat)
    requires CacheReady(c, max, now) && forall p <- packets :: Small(p, max)
    ensures CacheReady(Senders.InsertAll(c, n, packets, now), max, now)
    decreases |packets|
  {
    if packets != [] {
      var last := |packets| - 1;
      InsertAllReady(c, n, packets[..last], max, now);
      assert packets[last] in packets;
      SmallReliable(packets[last], max);
    }
  }

  lemma {:induction false} SmallPackets(packets: seq<seq<Fragment>>, max: nat)
    requires Small(Join(packets), max)
    ensures forall p <- packets :: Small(p, max)
  {
    if packets != [] {
      SmallPackets(packets[1..], max);
    }
  }

  lemma SlotsInTime(c: Cache, max: nat, clock: nat)
    requires CacheReady(c, max, clock)
    ensures forall i :: 0 <= i < PACKET_HISTORY_SIZE && c.slots[i].Valid? ==> c.slots[i].timeSent <= clock
  {
    assert forall i :: 0 <= i < PACKET_HISTORY_SIZE ==> HistoryReady(c.slots[i], max, clock);
  }

  lemma ReadyLater(s: Senders.Sender, clock: nat, now: nat)
    requires Ready(s, clock) && clock <= now
    ensures Ready(s, now)
  {
    forall i | 0 <= i < PACKET_HISTORY_SIZE
      ensures HistoryReady(s.cache.slots[i], s.maxSize, now)
    {
      assert HistoryReady(s.cache.slots[i], s.maxSize, clock);
    }
  }

  ghost function Packed(queue: seq<Fragment>, taken: nat, outgoing: seq<Outgoing>, picks: seq<nat>, index: nat): seq<Fragment>
    requires taken <= |queue| && Senders.ValidPicks(outgoing, picks)
  {
    queue[..taken] + Senders.NumberAll(Senders.Popped(outgoing, picks), index)
  }

  ghost function PacketBytes(s: Senders.Sender, now: nat, rto: nat, needsArrivalRate: bool, packets: seq<seq<Fragment>>): seq<Bytes> {
    var sent := Senders.SentCount(GetRetransmitFragments(s.cache, now, rto), s.nextSeq, packets);
    EncodedPackets(s.nextSeq, needsArrivalRate, packets[..sent])
  }

  ghost function ControlBytes(acks: seq<nat>, naks: seq<nat>, shouldSendAck: bool, arrivalRate: Option<Bytes>): seq<Bytes> {
    (if shouldSendAck && acks != [] then [Codec.PutDatagram(Ack(arrivalRate, acks))] else [])
    + (if naks != [] then [Codec.PutDatagram(Nak(naks))] else [])
  }

  /** The control bytes are the reports of `EndToEnd`, encoded. */
  lemma ControlIsReported(r: Receiver, shouldSendAck: bool, arrivalRate: Option<Bytes>)
    ensures var bytes, reports := ControlBytes(r.acks, r.naks, shouldSendAck, arrivalRate),
                                  EndToEnd.Reported(r, shouldSendAck, arrivalRate).1;
            |bytes| == |reports| && forall i :: 0 <= i < |bytes| ==> bytes[i] == Codec.PutDatagram(reports[i])
  {
    hide Codec.PutDatagram;
  }

  lemma PackedSmall(s: Senders.Sender, now: nat, rto: nat, clock: nat, taken: nat, picks: seq<nat>)
    requires Ready(s, clock) && clock <= now && Senders.ValidPicks(s.schedule.queue, picks)
    requires taken <= |GetRetransmitFragments(s.cache, now, rto).queue|
    ensures var queue := GetRetransmitFragments(s.cache, now, rto).queue;
            Small(queue[..taken], s.maxSize) && Small(Packed(queue, taken, s.schedule.queue, picks, s.reliableIndex), s.maxSize)
  {
    RetransmitReady(s.cache, s.maxSize, clock, now, rto);
    SmallPopped(s.schedule, picks, s.maxSize);
    SmallNumbered(Senders.Popped(s.schedule.queue, picks), s.reliableIndex, s.maxSize);
  }

  /** The packing loops have done what a transmission is to do. */
  lemma TransmitsPacked(s: Senders.Sender, now: nat, rto: nat, bandwidth: nat, clock: nat, taken: nat, picks: seq<nat>)
    requires Ready(s, clock) && clock <= now && Senders.ValidPicks(s.schedule.queue, picks)
    requires var queue := GetRetransmitFragments(s.cache, now, rto).queue;
             && taken <= |queue|
             && (taken < |queue| ==> Fill(queue[..taken], s.maxSize).total + queue[taken].FullSize() > bandwidth)
             && var filled := Fill(Packed(queue, taken, s.schedule.queue, picks, s.reliableIndex), s.maxSize);
                filled.total <= bandwidth && Senders.Exhausts(Senders.Left(s.schedule.queue, picks), filled.total, bandwidth)
    ensures var items := Packed(GetRetransmitFragments(s.cache, now, rto).queue, taken, s.schedule.queue, picks, s.reliableIndex);
            Senders.Transmits(s, now, rto, bandwidth, taken, picks, Fill(items, s.maxSize).Finish().packets)
  {
    var queue := GetRetransmitFragments(s.cache, now, rto).queue;
    PackedSmall(s, now, rto, clock, taken, picks);
    PackedFits(Packed(queue, taken, s.schedule.queue, picks, s.reliableIndex), s.maxSize);
    PackedFits(queue[..taken], s.maxSize);
  }

  /** What a transmission took: how many from the retransmit queue, which from the
      heap, and the packets they fill. */
  datatype Choice = Choice(taken: nat, picks: seq<nat>, packets: seq<seq<Fragment>>)

  /** The outcome of the sending part of `update`. */
  ghost predicate Updated(s: Senders.Sender, w: seq<Bytes>, now: nat, rto: nat, bandwidth: nat, slowStart: bool, choice: Choice,
                          s': Senders.Sender, w': seq<Bytes>, ok: bool)
  {
    && Senders.Transmits(s, now, rto, bandwidth, choice.taken, choice.picks, choice.packets)
    && s' == Senders.Transmitted(s, now, rto, choice.taken, choice.picks, choice.packets)
    && w' == w + PacketBytes(s, now, rto, slowStart, choice.packets)
    && (ok <==> Senders.TransmitsOk(s, now, rto, choice.packets))
  }

  lemma PacketsSent(s: Senders.Sender, w: seq<Bytes>, now: nat, rto: nat, bandwidth: nat, slowStart: bool, choice: Choice, sent: nat,
                    s': Senders.Sender, w': seq<Bytes>, ok: bool)
    requires Senders.Transmits(s, now, rto, bandwidth, choice.taken, choice.picks, choice.packets)
    requires var c := GetRetransmitFragments(s.cache, now, rto);
             && sent == Senders.SentCount(c, s.nextSeq, choice.packets)
             && (ok <==> |choice.packets| <= Senders.Room(c, s.nextSeq))
             && SentSoFar(c.(queue := c.queue[choice.taken..]), s.nextSeq, w, choice.packets[..sent], now, slowStart,
                          s'.cache, s'.nextSeq, w')
    requires s' == s.(schedule := s'.schedule, cache := s'.cache, reliableIndex := s'.reliableIndex, nextSeq := s'.nextSeq)
    requires s'.schedule == s.schedule.(queue := s'.schedule.queue)
    requires Taken(s.schedule.queue, s.reliableIndex, choice.picks, s'.schedule.queue, s'.reliableIndex)
    ensures Updated(s, w, now, rto, bandwidth, slowStart, choice, s', w', ok)
  {
    hide Codec.PutDatagram, GetRetransmitFragments, Senders.InsertAll, Senders.Transmits, Senders.Popped, EncodedPackets, Senders.OnlyReliable, Insert;
  }

  /** What the class does in `update` is one step of the runs of `SenderRuns`, and the
      bytes handed to the socket are the datagrams of that step, encoded. */
  lemma UpdatedIsStep(r: SenderRuns.Run, w: seq<Bytes>, now: nat, rto: nat, bandwidth: nat, slowStart: bool, choice: Choice,
                      s': Senders.Sender, w': seq<Bytes>, ok: bool)
    requires r.alive && r.clock <= now
    requires Updated(r.sender, w, now, rto, bandwidth, slowStart, choice, s', w', ok)
    ensures var a := SenderRuns.DoUpdate(now, rto, bandwidth, slowStart, choice.taken, choice.picks, choice.packets);
            && SenderRuns.Enabled(r, a)
            && var r' := SenderRuns.Step(r, a);
               && r'.sender == s' && r'.alive == ok
               && |w'| - |w| == |r'.wire| - |r.wire|
               && w <= w' && r.wire <= r'.wire
               && forall j :: |w| <= j < |w'| ==> w'[j] == Codec.PutDatagram(r'.wire[j - |w| + |r.wire|])
  {
    hide Codec.PutDatagram, GetRetransmitFragments, Senders.InsertAll, Senders.Popped, Senders.Left, Senders.OnlyReliable, SenderRuns.Fresh;
  }

  lemma NothingToTransmit(s: Senders.Sender, w: seq<Bytes>, now: nat, rto: nat, bandwidth: nat, slowStart: bool)
    requires IsEmpty(s.cache) && s.schedule.queue == []
    ensures Updated(s, w, now, rto, bandwidth, slowStart, Choice(0, [], []), s, w, true)
  {
    assert Senders.Popped(s.schedule.queue, []) == [];
    assert Senders.Left(s.schedule.queue, []) == s.schedule.queue;
    assert w + [] == w;
  }

  lemma UpdatedReady(s: Senders.Sender, w: seq<Bytes>, now: nat, rto: nat, bandwidth: nat, slowStart: bool, choice: Choice,
                     s': Senders.Sender, w': seq<Bytes>, ok: bool)
    requires Ready(s, now) && Updated(s, w, now, rto, bandwidth, slowStart, choice, s', w', ok)
    ensures Ready(s', now)
  {
    var c := GetRetransmitFragments(s.cache, now, rto);
    var sent := choice.packets[..Senders.SentCount(c, s.nextSeq, choice.packets)];
    RetransmitReady(s.cache, s.maxSize, now, now, rto);
    PackedSmall(s, now, rto, now, choice.taken, choice.picks);
    SmallPackets(choice.packets, s.maxSize);
    InsertAllReady(c.(queue := c.queue[choice.taken..]), s.nextSeq, sent, s.maxSize, now);
    SenderRuns.LeftBalanced(s.schedule, choice.picks, s.maxSize);
  }

  lemma AckOneMore(c: Cache, seqs: seq<nat>, i: nat)
    requires i < |seqs|
    ensures var (c', acked) := Senders.AckAll(c, seqs[..i]);
            var (c'', r) := MarkAsUsed(c', seqs[i]);
            && Senders.AckAll(c, seqs[..i + 1]) == (c'', acked + if r.Some? then r.value.0 else [])
            && SizeOf(Senders.AckAll(c, seqs[..i + 1]).1) == SizeOf(acked) + if r.Some? then SizeOf(r.value.0) else 0
  {
    assert seqs[..i + 1][..i] == seqs[..i];
    var (c', acked) := Senders.AckAll(c, seqs[..i]);
    var r := MarkAsUsed(c', seqs[i]).1;
    SizeOfAppend(acked, if r.Some? then r.value.0 else []);
  }

  // ---- channels ----

  /** The channel has got from `c0` to `c` by releasing what was added to the output. */
  ghost predicate Draining(c0: Channel<Bytes>, c: Channel<Bytes>, queue: seq<Bytes>, queue': seq<Bytes>) {
    Drain(c0).0 == Drain(c).0 && queue + Drain(c0).1 == queue' + Drain(c).1
  }

  lemma DrainStep(c0: Channel<Bytes>, c: Channel<Bytes>, queue: seq<Bytes>, queue': seq<Bytes>)
    requires Draining(c0, c, queue, queue') && c.buffered != [] && c.buffered[0].Some?
    ensures Draining(c0, Channel(c.nextOrdering + 1, c.nextSequence, c.buffered[1..]), queue, queue' + [c.buffered[0].value])
  {
    var c' := Channel(c.nextOrdering + 1, c.nextSequence, c.buffered[1..]);
    assert queue' + ([c.buffered[0].value] + Drain(c').1) == (queue' + [c.buffered[0].value]) + Drain(c').1;
  }

  // ---- datagrams ----

  /** What an arriving datagram does to the sending half. */
  function Answered(s: Senders.Sender, parsed: Result<Datagram>): Senders.Sender {
    match parsed
    case Ok(Ack(_, seqs)) => Senders.Acked(s, seqs)
    case Ok(Nak(seqs)) => Senders.Naked(s, seqs)
    case _ => s
  }

  /** The bytes an arriving datagram acknowledges. */
  function BytesAcked(s: Senders.Sender, parsed: Result<Datagram>): nat {
    match parsed
    case Ok(Ack(_, seqs)) => SizeOf(Senders.AckAll(s.cache, seqs).1)
    case _ => 0
  }

  /** Whether the peer wants a rate: what the last packet said whose number was taken. */
  function WantsRate(r: Receiver, now: nat, rto: nat, parsed: Result<Datagram>, before: bool): bool {
    match parsed
    case Ok(Packet(_, _, needsRate, seqNumber, _)) => if HandleSeq(r, now, rto, seqNumber).1.Ok? then needsRate else before
    case _ => before
  }

  lemma MarkReady(c: Cache, seqNumber: nat, max: nat, clock: nat)
    requires CacheReady(c, max, clock)
    ensures var (c', r) := MarkAsUsed(c, seqNumber);
            CacheReady(c', max, clock) && (r.Some? ==> Small(r.value.0, max))
  {
    assert HistoryReady(c.slots[SlotOf(c, seqNumber)], max, clock);
  }

  lemma {:induction false} AckAllReady(c: Cache, seqs: seq<nat>, max: nat, clock: nat)
    requires CacheReady(c, max, clock)
    ensures CacheReady(Senders.AckAll(c, seqs).0, max, clock)
  {
    if seqs != [] {
      var n := |seqs| - 1;
      AckAllReady(c, seqs[..n], max, clock);
      MarkReady(Senders.AckAll(c, seqs[..n]).0, seqs[n], max, clock);
    }
  }

  lemma {:induction false} NakAllReady(c: Cache, seqs: seq<nat>, max: nat, clock: nat)
    requires CacheReady(c, max, clock)
    ensures CacheReady(Senders.NakAll(c, seqs), max, clock)
  {
    if seqs != [] {
      var n := |seqs| - 1;
      NakAllReady(c, seqs[..n], max, clock);
      MarkReady(Senders.NakAll(c, seqs[..n]), seqs[n], max, clock);
    }
  }

  lemma ShiftReady(c: Cache, max: nat, clock: nat)
    requires CacheReady(c, max, clock)
    ensures CacheReady(Shift(c).0, max, clock)
  {
    var count := UsedRun(c.slots);
    var slots := Drop(c.slots, count);
    assert forall i :: 0 <= i < PACKET_HISTORY_SIZE ==>
                         slots[i] == if i < PACKET_HISTORY_SIZE - count then c.slots[count + i] else Invalid;
  }

  lemma AnsweredReady(s: Senders.Sender, parsed: Result<Datagram>, clock: nat)
    requires Ready(s, clock)
    ensures Ready(Answered(s, parsed), clock)
  {
    match parsed
    case Ok(Ack(_, seqs)) =>
      AckAllReady(s.cache, seqs, s.maxSize, clock);
      ShiftReady(Senders.AckAll(s.cache, seqs).0, s.maxSize, clock);
    case Ok(Nak(seqs)) =>
      NakAllReady(s.cache, seqs, s.maxSize, clock);
      ShiftReady(Senders.NakAll(s.cache, seqs), s.maxSize, clock);
    case _ =>
  }
}
