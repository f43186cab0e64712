/** Whole runs of the sender: no reliable fragment is lost, copied or changed, and
    every packet fits the MTU (src/reliability/layer.rs). */
module SenderRuns {
  import opened Basics
  import opened Datagrams
  import opened Retransmission
  import opened RetransmissionRuns
  import opened Scheduling
  import opened Splitting
  import opened Packing
  import opened Senders
  import Codec

  /** `issued[i]` is the fragment that was given reliable index i. `acked` is what
      acknowledgements have taken out of the history, and `wire` what was sent. */
  datatype Run = Run(
    sender: Sender,
    issued: seq<Fragment>,
    acked: multiset<Fragment>,
    wire: seq<Datagram>,
    clock: nat,
    alive: bool)

  datatype Action =
    | DoSend(peeks: seq<nat>, priority: Priority, reliability: Reliability, channel: byte, data: Bytes)
    | DoUpdate(now: nat, rto: nat, bandwidth: nat, needsArrivalRate: bool, taken: nat, picks: seq<nat>, packets: seq<seq<Fragment>>)
    | DoAck(seqs: seq<nat>)
    | DoNak(seqs: seq<nat>)

  /** Acknowledgements and naks may name any sequence numbers at all. */
  ghost predicate Enabled(r: Run, a: Action) {
    r.alive &&
    match a
    case DoSend(peeks, priority, reliability, channel, data) =>
      CanSend(r.sender, peeks, priority, reliability, channel, data)
    case DoUpdate(now, rto, bandwidth, _, taken, picks, packets) =>
      r.clock <= now && Transmits(r.sender, now, rto, bandwidth, taken, picks, packets)
    case DoAck(_) => true
    case DoNak(_) => true
  }

  /** The reliable fragments a transmission sends for the first time. */
  ghost function Fresh(s: Sender, picks: seq<nat>): seq<Fragment>
    requires ValidPicks(s.schedule.queue, picks)
  {
    OnlyReliable(NumberAll(Popped(s.schedule.queue, picks), s.reliableIndex))
  }

  ghost function Step(r: Run, a: Action): Run
    requires Enabled(r, a)
  {
    match a
    case DoSend(peeks, priority, reliability, channel, data) =>
      r.(sender := Sent(r.sender, peeks, priority, reliability, channel, data))
    case DoUpdate(now, rto, _, needsArrivalRate, taken, picks, packets) =>
      var c := GetRetransmitFragments(r.sender.cache, now, rto);
      var sent := packets[..SentCount(c, r.sender.nextSeq, packets)];
      Run(Transmitted(r.sender, now, rto, taken, picks, packets),
          r.issued + Fresh(r.sender, picks),
          r.acked,
          r.wire + PacketDatagrams(r.sender.nextSeq, needsArrivalRate, sent),
          now,
          TransmitsOk(r.sender, now, rto, packets))
    case DoAck(seqs) =>
      r.(sender := Acked(r.sender, seqs), acked := r.acked + multiset(AckAll(r.sender.cache, seqs).1))
    case DoNak(seqs) =>
      r.(sender := Naked(r.sender, seqs))
  }

  function Start(mtu: nat): Run
    requires mtu >= IP_UDP_HEADER_SIZE + HEADER_SIZE + PACKET_HEADER_SIZE
  {
    Run(NewSender(mtu), [], multiset{}, [], 0, true)
  }

  // ---- what every run keeps ----

  predicate Queueable(f: Fragment, max: nat) {
    f.Shaped() && f.reliableIndex.None? && f.FullSize() <= max
  }

  ghost predicate Shape(s: Sender) {
    && s.maxSize >= MIN_PACKET_ROOM
    && |s.orderingIndex| == ORDERING_CHANNEL_SIZE
    && Balanced(s.schedule)
    && forall x <- s.schedule.queue :: Queueable(x.fragment, s.maxSize)
  }

  predicate HasIndex(f: Fragment, i: nat, max: nat) {
    f.reliability.IsReliable() && f.reliableIndex == Some(i) && f.Shaped() && f.FullSize() <= max
  }

  ghost predicate InOrder(issued: seq<Fragment>, max: nat) {
    forall i :: 0 <= i < |issued| ==> HasIndex(issued[i], i, max)
  }

  ghost predicate InOrderFrom(fs: seq<Fragment>, index: nat, max: nat) {
    forall k :: 0 <= k < |fs| ==> HasIndex(fs[k], index + k, max)
  }

  /** Every reliable fragment sent so far is acknowledged, in the history or queued
      for retransmission: in one of the three, once, and as it was first sent. */
  ghost predicate Conserved(r: Run) {
    Outstanding(r.sender.cache) + r.acked == multiset(r.issued)
  }

  ghost predicate HistorySound(s: Sender, clock: nat) {
    Exact(s.cache, s.nextSeq) && Timed(s.cache.slots, clock) && Settled(s.cache)
  }

  predicate Known(f: Fragment, issued: seq<Fragment>) {
    && f.Shaped() && f.Numbered()
    && (f.reliability.IsReliable() ==> f.reliableIndex.value < |issued| && f == issued[f.reliableIndex.value])
  }

  predicate PacketKnown(d: Datagram, issued: seq<Fragment>, max: nat, next: nat) {
    && d.Packet? && d.seqNumber < next
    && d.fragments != [] && SizeOf(d.fragments) <= max
    && forall f <- d.fragments :: Known(f, issued)
  }

  ghost predicate WireKnown(r: Run) {
    forall d <- r.wire :: PacketKnown(d, r.issued, r.sender.maxSize, r.sender.nextSeq)
  }

  ghost predicate Inv(r: Run) {
    && Shape(r.sender)
    && InOrder(r.issued, r.sender.maxSize)
    && |r.issued| == r.sender.reliableIndex
    && WireKnown(r)
    && (r.alive ==> Conserved(r) && HistorySound(r.sender, r.clock))
  }

  // ---- send ----

  ghost predicate Appended(before: Schedule, after: Schedule, fs: seq<Fragment>) {
    && Balanced(after)
    && |after.queue| == |before.queue| + |fs|
    && after.queue[..|before.queue|] == before.queue
    && forall i :: 0 <= i < |fs| ==> after.queue[|before.queue| + i].fragment == fs[i]
  }

  lemma PushAppends(before: Schedule, s: Schedule, peek: nat, p: Priority, fs: seq<Fragment>, f: Fragment)
    requires Appended(before, s, fs) && Peeks(s.queue, peek)
    ensures Appended(before, Push(s, peek, p, f), fs + [f])
  {
    PushBalanced(s, peek, p, f);
  }

  lemma {:induction false} PushAllAppends(s: Schedule, peeks: seq<nat>, p: Priority, fs: seq<Fragment>)
    requires CanPushAll(s, peeks, p, fs)
    ensures Appended(s, PushAll(s, peeks, p, fs), fs)
    decreases |fs|
  {
    if fs != [] {
      var n := |fs| - 1;
      PushAllAppends(s, peeks[..n], p, fs[..n]);
      PushAppends(s, PushAll(s, peeks[..n], p, fs[..n]), peeks[n], p, fs[..n], fs[n]);
      assert fs == fs[..n] + [fs[n]];
    }
  }

  lemma AppendedIn(before: Schedule, after: Schedule, fs: seq<Fragment>, x: Outgoing)
    requires Appended(before, after, fs) && x in after.queue
    ensures x in before.queue || x.fragment in fs
  {
    var i :| 0 <= i < |after.queue| && after.queue[i] == x;
    if i < |before.queue| {
      assert after.queue[..|before.queue|][i] == before.queue[i];
    } else {
      assert x.fragment == fs[i - |before.queue|];
    }
  }

  /** What `send` queues is ready to be packed: it never exceeds a packet. */
  lemma OutboundQueueable(s: Sender, reliability: Reliability, channel: byte, data: Bytes)
    requires s.maxSize >= MIN_PACKET_ROOM && (reliability.UsesChannel() ==> channel < |s.orderingIndex|)
    ensures forall f <- Outbound(s, Whole(s, reliability, channel, data)) :: Queueable(f, s.maxSize)
  {
    var whole := Whole(s, reliability, channel, data);
    if MustSplit(s, whole) {
      var chunks := Chunks(data, AllowedSize(whole, s.maxSize));
      ChunksJoin(data, AllowedSize(whole, s.maxSize));
      forall i | 0 <= i < |chunks|
        ensures Queueable(Piece(whole, s.splitId, chunks, i), s.maxSize)
      {
        assert chunks[i] in chunks;
      }
    }
  }

  lemma SendKeepsShape(s: Sender, peeks: seq<nat>, p: Priority, reliability: Reliability, channel: byte, data: Bytes)
    requires Shape(s) && CanSend(s, peeks, p, reliability, channel, data)
    ensures Shape(Sent(s, peeks, p, reliability, channel, data))
  {
    var fs := Outbound(s, Whole(s, reliability, channel, data));
    PushAllAppends(s.schedule, peeks, p, fs);
    OutboundQueueable(s, reliability, channel, data);
    var after := Sent(s, peeks, p, reliability, channel, data).schedule;
    forall x | x in after.queue
      ensures Queueable(x.fragment, s.maxSize)
    {
      AppendedIn(s.schedule, after, fs, x);
    }
  }

  lemma SendKeepsInv(r: Run, a: Action)
    requires Inv(r) && a.DoSend? && Enabled(r, a)
    ensures Inv(Step(r, a))
  {
    SendKeepsShape(r.sender, a.peeks, a.priority, a.reliability, a.channel, a.data);
  }

  // ---- acknowledgements ----

  lemma {:induction false} AckAllKeeps(c: Cache, next: nat, clock: nat, seqs: seq<nat>)
    requires Exact(c, next) && Timed(c.slots, clock)
    ensures var (c', acked) := AckAll(c, seqs);
            && Exact(c', next) && Timed(c'.slots, clock)
            && Outstanding(c') + multiset(acked) == Outstanding(c)
  {
    if seqs != [] {
      var n := |seqs| - 1;
      AckAllKeeps(c, next, clock, seqs[..n]);
      var (c', acked) := AckAll(c, seqs[..n]);
      MarkAsUsedKeepsExact(c', next, seqs[n], clock);
      MarkAsUsedOutstanding(c', seqs[n]);
      var (c'', mark) := MarkAsUsed(c', seqs[n]);
      var more := if mark.Some? then mark.value.0 else [];
      assert Outstanding(c'') + multiset(acked + more) == Outstanding(c') + multiset(acked);
    }
  }

  lemma {:induction false} NakAllKeeps(c: Cache, next: nat, clock: nat, seqs: seq<nat>)
    requires Exact(c, next) && Timed(c.slots, clock)
    ensures var c' := NakAll(c, seqs);
            Exact(c', next) && Timed(c'.slots, clock) && Outstanding(c') == Outstanding(c)
  {
    if seqs != [] {
      var n := |seqs| - 1;
      NakAllKeeps(c, next, clock, seqs[..n]);
      var before := NakAll(c, seqs[..n]);
      MarkAsUsedKeepsExact(before, next, seqs[n], clock);
      MarkAsUsedOutstanding(before, seqs[n]);
    }
  }

  lemma AckKeepsInv(r: Run, a: Action)
    requires Inv(r) && a.DoAck? && Enabled(r, a)
    ensures Inv(Step(r, a))
  {
    AckAllKeeps(r.sender.cache, r.sender.nextSeq, r.clock, a.seqs);
    var (c, acked) := AckAll(r.sender.cache, a.seqs);
    ShiftExact(c, r.sender.nextSeq, r.clock);
    ShiftOutstanding(c);
    assert Outstanding(c) + (r.acked + multiset(acked)) == Outstanding(r.sender.cache) + r.acked;
  }

  lemma NakKeepsInv(r: Run, a: Action)
    requires Inv(r) && a.DoNak? && Enabled(r, a)
    ensures Inv(Step(r, a))
  {
    NakAllKeeps(r.sender.cache, r.sender.nextSeq, r.clock, a.seqs);
    var c := NakAll(r.sender.cache, a.seqs);
    ShiftExact(c, r.sender.nextSeq, r.clock);
    ShiftOutstanding(c);
  }

  // ---- update ----

  lemma {:induction false} LeftBalanced(s: Schedule, picks: seq<nat>, max: nat)
    requires Balanced(s) && ValidPicks(s.queue, picks)
    requires forall x <- s.queue :: Queueable(x.fragment, max)
    ensures Balanced(s.(queue := Left(s.queue, picks)))
    ensures forall x <- Left(s.queue, picks) :: x in s.queue
    ensures forall f <- Popped(s.queue, picks) :: Queueable(f, max)
    decreases |picks|
  {
    if picks != [] {
      var n := |picks| - 1;
      LeftBalanced(s, picks[..n], max);
    }
  }

  lemma {:induction false} NumberAllLength(fs: seq<Fragment>, index: nat)
    ensures |NumberAll(fs, index)| == |fs|
    ensures |OnlyReliable(NumberAll(fs, index))| == |OnlyReliable(fs)|
  {
    if fs != [] {
      NumberAllLength(fs[1..], if fs[0].reliability.IsReliable() then index + 1 else index);
    }
  }

  lemma NumberShaped(f: Fragment, index: nat, max: nat)
    requires Queueable(f, max)
    ensures var g := Number(f, index);
            && g.Shaped() && g.Numbered() && g.reliability == f.reliability
            && (f.reliability.IsReliable() ==> HasIndex(g, index, max))
  {
  }

  /** The reliable ones among freshly numbered fragments carry consecutive indices. */
  lemma {:induction false} FreshInOrder(fs: seq<Fragment>, index: nat, max: nat)
    requires forall f <- fs :: Queueable(f, max)
    ensures InOrderFrom(OnlyReliable(NumberAll(fs, index)), index, max)
  {
    if fs != [] {
      NumberShaped(fs[0], index, max);
      var first := if fs[0].reliability.IsReliable() then 1 else 0;
      FreshInOrder(fs[1..], index + first, max);
      var rest := OnlyReliable(NumberAll(fs[1..], index + first));
      assert InOrderFrom(rest, index + first, max);
      assert OnlyReliable(NumberAll(fs, index)) == (if first == 1 then [Number(fs[0], index)] else []) + rest;
    }
  }

  /** Where a freshly numbered fragment is found among the fresh reliable ones. */
  lemma {:induction false} FreshAt(fs: seq<Fragment>, index: nat, i: nat, max: nat) returns (k: nat)
    requires i < |NumberAll(fs, index)| && forall f <- fs :: Queueable(f, max)
    ensures var g, r := NumberAll(fs, index)[i], OnlyReliable(NumberAll(fs, index));
            && g.Shaped() && g.Numbered()
            && (g.reliability.IsReliable() ==> k < |r| && r[k] == g && g.reliableIndex == Some(index + k))
  {
    NumberShaped(fs[0], index, max);
    if i == 0 {
      k := 0;
    } else {
      var first := if fs[0].reliability.IsReliable() then 1 else 0;
      k := FreshAt(fs[1..], index + first, i - 1, max);
      k := k + first;
    }
  }

  lemma KnownAppended(f: Fragment, issued: seq<Fragment>, fresh': seq<Fragment>, k: nat)
    requires f.Shaped() && f.Numbered()
    requires f.reliability.IsReliable() ==> k < |fresh'| && fresh'[k] == f && f.reliableIndex == Some(|issued| + k)
    ensures Known(f, issued + fresh')
  {
  }

  /** A freshly numbered fragment is known once the fresh ones are appended. */
  lemma FreshKnown(fs: seq<Fragment>, issued: seq<Fragment>, max: nat, i: nat, fresh': seq<Fragment>, f: Fragment)
    requires forall x <- fs :: Queueable(x, max)
    requires fresh' == OnlyReliable(NumberAll(fs, |issued|))
    requires i < |NumberAll(fs, |issued|)| && f == NumberAll(fs, |issued|)[i]
    ensures Known(f, issued + fresh')
  {
    var k := FreshAt(fs, |issued|, i, max);
    KnownAppended(f, issued, fresh', k);
  }

  lemma {:induction false} OnlyReliableAppend(a: seq<Fragment>, b: seq<Fragment>)
    ensures OnlyReliable(a + b) == OnlyReliable(a) + OnlyReliable(b)
  {
    if a == [] {
      assert a + b == b;
    } else {
      assert (a + b)[0] == a[0] && (a + b)[1..] == a[1..] + b;
      OnlyReliableAppend(a[1..], b);
    }
  }

  lemma {:induction false} AllReliable(fs: seq<Fragment>)
    requires forall f <- fs :: f.reliability.IsReliable()
    ensures OnlyReliable(fs) == fs
  {
    if fs != [] {
      AllReliable(fs[1..]);
    }
  }

  /** The history takes every packet, one after the other. */
  lemma {:induction false} InsertAllExact(c: Cache, next: nat, packets: seq<seq<Fragment>>, now: nat)
    requires Exact(c, next) && Timed(c.slots, now) && Settled(c)
    requires |packets| <= Room(c, next)
    ensures var c' := InsertAll(c, next, packets, now);
            c'.start == c.start && Exact(c', next + |packets|) && Timed(c'.slots, now) && Settled(c')
    decreases |packets|
  {
    if packets != [] {
      var n := |packets| - 1;
      InsertAllExact(c, next, packets[..n], now);
      InsertExact(InsertAll(c, next, packets[..n], now), next + n, OnlyReliable(packets[n]), now);
    }
  }

  lemma ReliableLast(packets: seq<seq<Fragment>>)
    requires packets != []
    ensures var n := |packets| - 1;
            multiset(OnlyReliable(Join(packets))) ==
            multiset(OnlyReliable(Join(packets[..n]))) + multiset(OnlyReliable(packets[n]))
  {
    var n := |packets| - 1;
    JoinLast(packets);
    OnlyReliableAppend(Join(packets[..n]), packets[n]);
  }

  lemma InsertAllLast(c: Cache, next: nat, packets: seq<seq<Fragment>>, now: nat)
    requires packets != []
    ensures var n := |packets| - 1;
            InsertAll(c, next, packets, now) ==
            Insert(InsertAll(c, next, packets[..n], now), next + n, OnlyReliable(packets[n]), now).0
  {
  }

  lemma OutstandingAfter(c: Cache, c': Cache, next: nat, fragments: seq<Fragment>, now: nat)
    requires Exact(c, next) && next < c.start + PACKET_HISTORY_SIZE && c' == Insert(c, next, fragments, now).0
    ensures Outstanding(c') == Outstanding(c) + multiset(fragments)
  {
    InsertOutstanding(c, next, fragments, now);
  }

  lemma {:induction false} InsertAllOutstanding(c: Cache, next: nat, packets: seq<seq<Fragment>>, now: nat)
    requires Exact(c, next) && Timed(c.slots, now) && Settled(c)
    requires |packets| <= Room(c, next)
    ensures Outstanding(InsertAll(c, next, packets, now)) == Outstanding(c) + multiset(OnlyReliable(Join(packets)))
    decreases |packets|
  {
    if packets == [] {
      assert Outstanding(c) + multiset(OnlyReliable(Join(packets))) == Outstanding(c);
    } else {
      var init, last := packets[..|packets| - 1], packets[|packets| - 1];
      assert Outstanding(InsertAll(c, next, packets, now)) ==
             Outstanding(InsertAll(c, next, init, now)) + multiset(OnlyReliable(last)) by {
        InsertAllExact(c, next, init, now);
        InsertAllLast(c, next, packets, now);
        OutstandingAfter(InsertAll(c, next, init, now), InsertAll(c, next, packets, now), next + |init|, OnlyReliable(last), now);
      }
      assert multiset(OnlyReliable(Join(packets))) == multiset(OnlyReliable(Join(init))) + multiset(OnlyReliable(last)) by {
        ReliableLast(packets);
      }
      InsertAllOutstanding(c, next, init, now);
    }
  }

  lemma TimedLater(slots: seq<PacketHistory>, clock: nat, now: nat)
    requires Timed(slots, clock) && clock <= now
    ensures Timed(slots, now)
  {
  }

  /** The fragments waiting for retransmission are ones that were sent before. */
  lemma OutstandingAssigned(r: Run, f: Fragment)
    requires InOrder(r.issued, r.sender.maxSize) && Conserved(r) && f in Outstanding(r.sender.cache)
    ensures Known(f, r.issued) && f.reliability.IsReliable() && f.FullSize() <= r.sender.maxSize
  {
    assert f in multiset(r.issued);
    var i :| 0 <= i < |r.issued| && r.issued[i] == f;
    assert HasIndex(r.issued[i], i, r.sender.maxSize);
  }

  lemma RetransmitQueueKnown(r: Run, now: nat, rto: nat, f: Fragment)
    requires InOrder(r.issued, r.sender.maxSize) && Conserved(r)
    requires f in GetRetransmitFragments(r.sender.cache, now, rto).queue
    ensures Known(f, r.issued) && f.reliability.IsReliable() && f.FullSize() <= r.sender.maxSize
  {
    var c := GetRetransmitFragments(r.sender.cache, now, rto);
    RetransmitOutstanding(r.sender.cache, now, rto);
    assert f in multiset(c.queue);
    assert f in Outstanding(c);
    OutstandingAssigned(r, f);
  }

  lemma KnownLater(f: Fragment, issued: seq<Fragment>, more: seq<Fragment>)
    requires Known(f, issued)
    ensures Known(f, issued + more)
  {
  }

  /** Everything a transmission packs is known afterwards. */
  lemma PackedKnown(r: Run, a: Action, f: Fragment)
    requires Inv(r) && a.DoUpdate? && Enabled(r, a) && f in Join(a.packets)
    ensures Known(f, Step(r, a).issued)
  {
    var s := r.sender;
    var queue := GetRetransmitFragments(s.cache, a.now, a.rto).queue;
    var popped := Popped(s.schedule.queue, a.picks);
    LeftBalanced(s.schedule, a.picks, s.maxSize);
    if f in queue[..a.taken] {
      RetransmitQueueKnown(r, a.now, a.rto, f);
      KnownLater(f, r.issued, Fresh(s, a.picks));
    } else {
      var i :| 0 <= i < |NumberAll(popped, |r.issued|)| && NumberAll(popped, |r.issued|)[i] == f;
      FreshKnown(popped, r.issued, s.maxSize, i, Fresh(s, a.picks), f);
    }
  }

  lemma {:induction false} InJoin(packets: seq<seq<Fragment>>, i: nat, f: Fragment)
    requires i < |packets| && f in packets[i]
    ensures f in Join(packets)
  {
    if i > 0 {
      InJoin(packets[1..], i - 1, f);
    }
  }

  lemma UpdateKeepsWire(r: Run, a: Action)
    requires Inv(r) && a.DoUpdate? && Enabled(r, a)
    ensures WireKnown(Step(r, a))
  {
    var r' := Step(r, a);
    var c := GetRetransmitFragments(r.sender.cache, a.now, a.rto);
    var sent := a.packets[..SentCount(c, r.sender.nextSeq, a.packets)];
    var added := PacketDatagrams(r.sender.nextSeq, a.needsArrivalRate, sent);
    forall d | d in r'.wire
      ensures PacketKnown(d, r'.issued, r'.sender.maxSize, r'.sender.nextSeq)
    {
      if d in r.wire {
        forall f | f in d.fragments
          ensures Known(f, r'.issued)
        {
          KnownLater(f, r.issued, Fresh(r.sender, a.picks));
        }
      } else {
        var i :| 0 <= i < |added| && added[i] == d;
        assert d.fragments == a.packets[i];
        forall f | f in d.fragments
          ensures Known(f, r'.issued)
        {
          InJoin(a.packets, i, f);
          PackedKnown(r, a, f);
        }
      }
    }
  }

  lemma UpdateKeepsOrder(r: Run, a: Action)
    requires Inv(r) && a.DoUpdate? && Enabled(r, a)
    ensures InOrder(Step(r, a).issued, r.sender.maxSize) && Shape(Step(r, a).sender)
    ensures |Step(r, a).issued| == Step(r, a).sender.reliableIndex
  {
    hide InsertAll, GetRetransmitFragments, Exhausts, PacketDatagrams, WireKnown, HistorySound, Conserved;
    var popped := Popped(r.sender.schedule.queue, a.picks);
    LeftBalanced(r.sender.schedule, a.picks, r.sender.maxSize);
    FreshInOrder(popped, r.sender.reliableIndex, r.sender.maxSize);
    NumberAllLength(popped, r.sender.reliableIndex);
  }

  lemma UpdateKeepsHistory(r: Run, a: Action)
    requires Inv(r) && a.DoUpdate? && Enabled(r, a) && Step(r, a).alive
    ensures HistorySound(Step(r, a).sender, a.now)
  {
    var s := r.sender;
    TimedLater(s.cache.slots, r.clock, a.now);
    RetransmitExact(s.cache, s.nextSeq, a.now, a.rto);
    var c := GetRetransmitFragments(s.cache, a.now, a.rto);
    SentAll(c, s.nextSeq, a.packets);
    InsertAllExact(c.(queue := c.queue[a.taken..]), s.nextSeq, a.packets, a.now);
  }

  /** What is packed is what leaves the retransmit queue and what is sent for the first time. */
  lemma PackedReliable(r: Run, a: Action)
    requires Inv(r) && a.DoUpdate? && Enabled(r, a) && r.alive
    ensures OnlyReliable(Join(a.packets)) ==
            GetRetransmitFragments(r.sender.cache, a.now, a.rto).queue[..a.taken] + Fresh(r.sender, a.picks)
  {
    var front := GetRetransmitFragments(r.sender.cache, a.now, a.rto).queue[..a.taken];
    forall f | f in front
      ensures f.reliability.IsReliable()
    {
      RetransmitQueueKnown(r, a.now, a.rto, f);
    }
    AllReliable(front);
    OnlyReliableAppend(front, NumberAll(Popped(r.sender.schedule.queue, a.picks), r.sender.reliableIndex));
  }

  lemma TakenOutstanding(c: Cache, taken: nat)
    requires taken <= |c.queue|
    ensures Outstanding(c.(queue := c.queue[taken..])) + multiset(c.queue[..taken]) == Outstanding(c)
  {
    assert c.queue == c.queue[..taken] + c.queue[taken..];
  }

  lemma SentAll(c: Cache, nextSeq: nat, packets: seq<seq<Fragment>>)
    requires |packets| <= Room(c, nextSeq)
    ensures packets[..SentCount(c, nextSeq, packets)] == packets
  {
  }

  lemma UpdateOutstanding(r: Run, a: Action)
    requires Inv(r) && a.DoUpdate? && Enabled(r, a) && Step(r, a).alive
    ensures Outstanding(Step(r, a).sender.cache) == Outstanding(r.sender.cache) + multiset(Fresh(r.sender, a.picks))
  {
    var s := r.sender;
    TimedLater(s.cache.slots, r.clock, a.now);
    RetransmitExact(s.cache, s.nextSeq, a.now, a.rto);
    RetransmitOutstanding(s.cache, a.now, a.rto);
    var c := GetRetransmitFragments(s.cache, a.now, a.rto);
    SentAll(c, s.nextSeq, a.packets);
    TakenOutstanding(c, a.taken);
    InsertAllOutstanding(c.(queue := c.queue[a.taken..]), s.nextSeq, a.packets, a.now);
    PackedReliable(r, a);
    MovedAndAdded(Outstanding(c.(queue := c.queue[a.taken..])), c.queue[..a.taken], Fresh(s, a.picks));
  }

  lemma UpdateConserves(r: Run, a: Action)
    requires Inv(r) && a.DoUpdate? && Enabled(r, a) && Step(r, a).alive
    ensures Outstanding(Step(r, a).sender.cache) + r.acked == multiset(Step(r, a).issued)
  {
    UpdateOutstanding(r, a);
    MovedAndAdded(multiset{}, r.issued, Fresh(r.sender, a.picks));
  }

  lemma MovedAndAdded(rest: multiset<Fragment>, moved: seq<Fragment>, added: seq<Fragment>)
    ensures rest + multiset(moved + added) == rest + multiset(moved) + multiset(added)
  {
  }

  lemma StepKeepsInv(r: Run, a: Action)
    requires Inv(r) && Enabled(r, a)
    ensures Inv(Step(r, a))
  {
    match a {
      case DoSend(_, _, _, _, _) => SendKeepsInv(r, a);
      case DoAck(_) => AckKeepsInv(r, a);
      case DoNak(_) => NakKeepsInv(r, a);
      case DoUpdate(_, _, _, _, _, _, _) =>
        UpdateKeepsWire(r, a);
        UpdateKeepsOrder(r, a);
        if Step(r, a).alive {
          UpdateConserves(r, a);
          UpdateKeepsHistory(r, a);
        }
    }
  }

  // ---- whole runs ----

  /** The states passed through by a list of actions, the first one included. */
  ghost predicate IsRun(r: Run, actions: seq<Action>, end: Run)
    decreases |actions|
  {
    if actions == [] then
      r == end
    else
      Enabled(r, actions[0]) && IsRun(Step(r, actions[0]), actions[1..], end)
  }

  lemma {:induction false} RunKeepsInv(r: Run, actions: seq<Action>, end: Run)
    requires Inv(r) && IsRun(r, actions, end)
    ensures Inv(end) && end.sender.maxSize == r.sender.maxSize
    decreases |actions|
  {
    if actions != [] {
      StepKeepsInv(r, actions[0]);
      RunKeepsInv(Step(r, actions[0]), actions[1..], end);
    }
  }

  const MIN_MTU: nat := IP_UDP_HEADER_SIZE + HEADER_SIZE + PACKET_HEADER_SIZE + MIN_PACKET_ROOM

  lemma StartInv(mtu: nat)
    requires mtu >= MIN_MTU
    ensures Inv(Start(mtu))
  {
    hide EmptyCache, InFlight, OnlyReliable;
    InFlightEmpty(EmptyCache().slots);
    assert Outstanding(EmptyCache()) == multiset{};
  }

  /** In every live state of every run, whatever is acknowledged, reported missing or
      timed out: each reliable index given so far names one fragment, which is
      acknowledged, in the history or in the retransmit queue, in exactly one of them
      and exactly once; and nothing else is in any of them. */
  lemma SenderConserves(mtu: nat, actions: seq<Action>, end: Run)
    requires mtu >= MIN_MTU && IsRun(Start(mtu), actions, end) && end.alive
    ensures |end.issued| == end.sender.reliableIndex
    ensures var inFlight, queued := multiset(InFlight(end.sender.cache.slots)), multiset(end.sender.cache.queue);
            && (forall i :: 0 <= i < |end.issued| ==>
                              var f := end.issued[i];
                              f.reliableIndex == Some(i) && end.acked[f] + inFlight[f] + queued[f] == 1)
            && (forall f :: f in end.acked || f in inFlight || f in queued ==> f in end.issued)
  {
    StartInv(mtu);
    RunKeepsInv(Start(mtu), actions, end);
    forall i | 0 <= i < |end.issued|
      ensures multiset(end.issued)[end.issued[i]] == 1 && end.issued[i].reliableIndex == Some(i)
    {
      assert HasIndex(end.issued[i], i, end.sender.maxSize);
      OnceOnly(end.issued, end.sender.maxSize, i);
    }
    forall f | f in Outstanding(end.sender.cache) + end.acked
      ensures f in end.issued
    {
      assert f in multiset(end.issued);
    }
  }

  lemma OnceOnly(issued: seq<Fragment>, max: nat, i: nat)
    requires InOrder(issued, max) && i < |issued|
    ensures multiset(issued)[issued[i]] == 1
  {
    var f := issued[i];
    var before, after := issued[..i], issued[i + 1..];
    assert issued == before + [f] + after;
    forall k | 0 <= k < |issued| && k != i
      ensures issued[k] != f
    {
      assert HasIndex(issued[k], k, max) && HasIndex(issued[i], i, max);
    }
    assert f !in before && f !in after;
  }

  /** Every packet of every run, encoded, fits the MTU with the IP and UDP headers. */
  lemma EveryPacketFits(mtu: nat, actions: seq<Action>, end: Run, d: Datagram)
    requires mtu >= MIN_MTU && IsRun(Start(mtu), actions, end) && d in end.wire
    ensures d.Packet? && |Codec.PutDatagram(d)| <= mtu - 28
  {
    StartInv(mtu);
    RunKeepsInv(Start(mtu), actions, end);
    Codec.PacketLength(d);
  }
}
