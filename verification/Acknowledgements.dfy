/** What an acknowledgement takes out of the history went out in a packet it names, so a
    receiver that acknowledges only what it has got loses nothing
    (src/reliability/layer.rs:258-285 and 329-355). */
module Acknowledgements {
  import opened Basics
  import opened Rings
  import opened Datagrams
  import opened Retransmission
  import opened RetransmissionRuns
  import opened Senders
  import opened SenderRuns

  /** The history holds the reliable fragments of the packets on the wire, each packet
      under its own number. */
  ghost predicate SlotsOnWire(c: Cache, wire: seq<Datagram>) {
    forall i :: 0 <= i < PACKET_HISTORY_SIZE ==> SlotOnWire(c.slots[i], c.start + i, wire)
  }

  predicate SlotOnWire(h: PacketHistory, n: nat, wire: seq<Datagram>) {
    h.Valid? ==> n < |wire| && wire[n].Packet? && h.fragments == OnlyReliable(wire[n].fragments)
  }

  ghost predicate WireNumbered(wire: seq<Datagram>) {
    forall n :: 0 <= n < |wire| ==> wire[n].Packet? && wire[n].seqNumber == n
  }

  ghost predicate OnWire(r: Run) {
    && |r.wire| == r.sender.nextSeq && WireNumbered(r.wire)
    && (r.alive ==> SlotsOnWire(r.sender.cache, r.wire))
  }

  // ---- every step keeps it ----

  lemma MarkKeepsOnWire(c: Cache, seqNumber: nat, wire: seq<Datagram>)
    requires SlotsOnWire(c, wire)
    ensures SlotsOnWire(MarkAsUsed(c, seqNumber).0, wire)
  {
  }

  lemma DropKeepsOnWire(c: Cache, count: nat, queue: seq<Fragment>, wire: seq<Datagram>)
    requires SlotsOnWire(c, wire) && count <= PACKET_HISTORY_SIZE
    ensures SlotsOnWire(CacheState(c.start + count, Drop(c.slots, count), queue), wire)
  {
    DropAt(c.slots, count);
    forall i | 0 <= i < PACKET_HISTORY_SIZE
      ensures SlotOnWire(Drop(c.slots, count)[i], c.start + count + i, wire)
    {
      if i < PACKET_HISTORY_SIZE - count {
        assert SlotOnWire(c.slots[count + i], c.start + (count + i), wire);
      }
    }
  }

  lemma ShiftKeepsOnWire(c: Cache, wire: seq<Datagram>)
    requires SlotsOnWire(c, wire)
    ensures SlotsOnWire(Shift(c).0, wire)
  {
    DropKeepsOnWire(c, UsedRun(c.slots), c.queue, wire);
  }

  lemma RetransmitKeepsOnWire(c: Cache, now: nat, rto: nat, wire: seq<Datagram>)
    requires SlotsOnWire(c, wire)
    ensures SlotsOnWire(GetRetransmitFragments(c, now, rto), wire)
  {
    if !IsEmpty(c) {
      DropKeepsOnWire(c, ScanRun(c.slots, now, rto), GetRetransmitFragments(c, now, rto).queue, wire);
    }
  }

  lemma SlotsOnLongerWire(c: Cache, wire: seq<Datagram>, more: seq<Datagram>)
    requires SlotsOnWire(c, wire)
    ensures SlotsOnWire(c, wire + more)
  {
    forall i | 0 <= i < PACKET_HISTORY_SIZE
      ensures SlotOnWire(c.slots[i], c.start + i, wire + more)
    {
      assert SlotOnWire(c.slots[i], c.start + i, wire);
    }
  }

  lemma InsertKeepsOnWire(c: Cache, d: Datagram, wire: seq<Datagram>, now: nat)
    requires SlotsOnWire(c, wire) && Exact(c, |wire|) && d.Packet?
    requires |wire| < c.start + PACKET_HISTORY_SIZE
    ensures SlotsOnWire(Insert(c, |wire|, OnlyReliable(d.fragments), now).0, wire + [d])
  {
    SlotsOnLongerWire(c, wire, [d]);
    InsertExact(c, |wire|, OnlyReliable(d.fragments), now);
    assert (wire + [d])[|wire|] == d;
  }

  lemma InsertNone(c: Cache, next: nat, now: nat)
    ensures InsertAll(c, next, [], now) == c
  {
  }

  lemma {:induction false} InsertAllKeepsOnWire(c: Cache, wire: seq<Datagram>, packets: seq<seq<Fragment>>, rate: bool, now: nat)
    requires SlotsOnWire(c, wire) && Exact(c, |wire|) && Timed(c.slots, now) && RetransmissionRuns.Settled(c)
    requires |packets| <= Room(c, |wire|)
    ensures SlotsOnWire(InsertAll(c, |wire|, packets, now), wire + PacketDatagrams(|wire|, rate, packets))
    decreases |packets|
  {
    hide SlotsOnWire, Exact, InsertAll, Insert, OnlyReliable;
    if packets == [] {
      assert wire + PacketDatagrams(|wire|, rate, packets) == wire;
      assert InsertAll(c, |wire|, packets, now) == c by {
        InsertNone(c, |wire|, now);
      }
    } else {
      var n := |packets| - 1;
      var init := packets[..n];
      var before := wire + PacketDatagrams(|wire|, rate, init);
      var d := PacketDatagram(|wire| + n, rate, packets[n]);
      InsertAllKeepsOnWire(c, wire, init, rate, now);
      InsertAllExact(c, |wire|, init, now);
      InsertAllLast(c, |wire|, packets, now);
      InsertKeepsOnWire(InsertAll(c, |wire|, init, now), d, before, now);
      assert before + [d] == wire + PacketDatagrams(|wire|, rate, packets);
    }
  }

  lemma {:induction false} AckAllKeepsOnWire(c: Cache, seqs: seq<nat>, wire: seq<Datagram>)
    requires SlotsOnWire(c, wire)
    ensures SlotsOnWire(AckAll(c, seqs).0, wire) && SlotsOnWire(NakAll(c, seqs), wire)
  {
    if seqs != [] {
      var n := |seqs| - 1;
      AckAllKeepsOnWire(c, seqs[..n], wire);
      MarkKeepsOnWire(AckAll(c, seqs[..n]).0, seqs[n], wire);
      MarkKeepsOnWire(NakAll(c, seqs[..n]), seqs[n], wire);
    }
  }

  lemma UpdateKeepsOnWire(r: Run, a: Action)
    requires Inv(r) && OnWire(r) && a.DoUpdate? && Enabled(r, a)
    ensures OnWire(Step(r, a))
  {
    hide SlotsOnWire, ScanRun, InFlight;
    var s, r' := r.sender, Step(r, a);
    var c := GetRetransmitFragments(s.cache, a.now, a.rto);
    var sent := a.packets[..SentCount(c, s.nextSeq, a.packets)];
    var added := PacketDatagrams(s.nextSeq, a.needsArrivalRate, sent);
    assert WireNumbered(r.wire + added);
    if r'.alive {
      TimedLater(s.cache.slots, r.clock, a.now);
      RetransmitExact(s.cache, s.nextSeq, a.now, a.rto);
      RetransmitKeepsOnWire(s.cache, a.now, a.rto, r.wire);
      SentAll(c, s.nextSeq, a.packets);
      var c1 := c.(queue := c.queue[a.taken..]);
      assert SlotsOnWire(c1, r.wire) by {
        QueueIsElsewhere(c, c1, r.wire);
      }
      InsertAllKeepsOnWire(c1, r.wire, a.packets, a.needsArrivalRate, a.now);
    }
  }

  lemma QueueIsElsewhere(c: Cache, c1: Cache, wire: seq<Datagram>)
    requires SlotsOnWire(c, wire) && c1 == c.(queue := c1.queue)
    ensures SlotsOnWire(c1, wire)
  {
  }

  lemma StepKeepsOnWire(r: Run, a: Action)
    requires Inv(r) && OnWire(r) && Enabled(r, a)
    ensures OnWire(Step(r, a))
    ensures r.wire <= Step(r, a).wire
  {
    hide SlotsOnWire, Transmits, Inv, CanPushAll, PushAll;
    match a
    case DoSend(_, _, _, _, _) =>
    case DoUpdate(_, _, _, _, _, _, _) => UpdateKeepsOnWire(r, a);
    case DoAck(seqs) =>
      AckAllKeepsOnWire(r.sender.cache, seqs, r.wire);
      ShiftKeepsOnWire(AckAll(r.sender.cache, seqs).0, r.wire);
    case DoNak(seqs) =>
      AckAllKeepsOnWire(r.sender.cache, seqs, r.wire);
      ShiftKeepsOnWire(NakAll(r.sender.cache, seqs), r.wire);
  }

  // ---- what is acknowledged ----

  /** If the number lands in the slot of a packet, that packet is named. */
  predicate TakesNamed(c: Cache, s: nat, named: seq<nat>) {
    c.slots[SlotOf(c, s)].Valid? ==> c.start + SlotOf(c, s) in named
  }

  ghost predicate Covers(c: Cache, seqs: seq<nat>, named: seq<nat>) {
    forall s {:trigger TakesNamed(c, s, named)} :: s in seqs ==> TakesNamed(c, s, named)
  }

  ghost predicate Rightful(c: Cache, seqs: seq<nat>) {
    Covers(c, seqs, seqs)
  }

  /** Acknowledging these numbers takes no packet from the history but those they name. */
  ghost predicate TakesOnlyNamed(c: Cache, seqs: seq<nat>) {
    var c' := AckAll(c, seqs).0;
    forall i :: 0 <= i < PACKET_HISTORY_SIZE && c.slots[i].Valid? && !c'.slots[i].Valid? ==> c.start + i in seqs
  }

  /** The slots that are taken are those the numbers land in. */
  lemma {:induction false} AckAllTakes(c: Cache, seqs: seq<nat>)
    ensures var c' := AckAll(c, seqs).0;
            && c'.start == c.start
            && (forall s <- seqs :: !c'.slots[SlotOf(c, s)].Valid?)
            && (forall i :: 0 <= i < PACKET_HISTORY_SIZE && c.slots[i].Valid? && !c'.slots[i].Valid? ==> exists s <- seqs :: SlotOf(c, s) == i)
            && (forall i :: 0 <= i < PACKET_HISTORY_SIZE && c'.slots[i].Valid? ==> c'.slots[i] == c.slots[i])
  {
    if seqs != [] {
      var n := |seqs| - 1;
      var c1, c' := AckAll(c, seqs[..n]).0, AckAll(c, seqs).0;
      AckAllTakes(c, seqs[..n]);
      forall s | s in seqs
        ensures !c'.slots[SlotOf(c, s)].Valid?
      {
        assert s in seqs[..n] || s == seqs[n];
      }
      forall i | 0 <= i < PACKET_HISTORY_SIZE && c.slots[i].Valid? && !c'.slots[i].Valid?
        ensures exists s <- seqs :: SlotOf(c, s) == i
      {
        if c1.slots[i].Valid? {
          assert seqs[n] in seqs && SlotOf(c, seqs[n]) == i;
        } else {
          var s :| s in seqs[..n] && SlotOf(c, s) == i;
          assert s in seqs;
        }
      }
    }
  }

  /** An acknowledgement takes only packets it names if and only if it is rightful. */
  lemma RightfulIff(c: Cache, seqs: seq<nat>)
    ensures TakesOnlyNamed(c, seqs) <==> Rightful(c, seqs)
  {
    hide AckAll, SlotOf;
    AckAllTakes(c, seqs);
    var c' := AckAll(c, seqs).0;
    if Rightful(c, seqs) {
      forall i | 0 <= i < PACKET_HISTORY_SIZE && c.slots[i].Valid? && !c'.slots[i].Valid?
        ensures c.start + i in seqs
      {
        var s :| s in seqs && SlotOf(c, s) == i;
        assert TakesNamed(c, s, seqs);
      }
    }
  }

  /** The numbers are among the last 128 sent. */
  predicate Recent(next: nat, seqs: seq<nat>) {
    forall i :: 0 <= i < |seqs| ==> seqs[i] < next <= seqs[i] + PACKET_HISTORY_SIZE
  }

  lemma RecentIsRightful(c: Cache, next: nat, seqs: seq<nat>)
    requires Exact(c, next) && Recent(next, seqs)
    ensures Rightful(c, seqs)
  {
    forall s | s in seqs
      ensures TakesNamed(c, s, seqs)
    {
      MarkAsUsedExact(c, next, s);
      MarkAsUsedRightIff(c, next, s);
    }
  }

  ghost predicate InPackets(f: Fragment, wire: seq<Datagram>, numbers: set<nat>) {
    exists s :: s in numbers && s < |wire| && wire[s].Packet? && f in wire[s].fragments
  }

  ghost function Numbers(seqs: seq<nat>): set<nat> {
    set s | s in seqs
  }

  lemma {:induction false} OnlyReliableIn(fs: seq<Fragment>)
    ensures forall f <- OnlyReliable(fs) :: f in fs
  {
    if fs != [] {
      OnlyReliableIn(fs[1..]);
    }
  }

  lemma {:induction false} AckedWereNamed(c: Cache, seqs: seq<nat>, named: seq<nat>, wire: seq<Datagram>)
    requires SlotsOnWire(c, wire) && Covers(c, seqs, named)
    ensures forall f <- AckAll(c, seqs).1 :: InPackets(f, wire, Numbers(named))
  {
    hide Numbers, InPackets, SlotsOnWire;
    if seqs != [] {
      var n := |seqs| - 1;
      var c1 := AckAll(c, seqs[..n]).0;
      AckedWereNamed(c, seqs[..n], named, wire);
      AckAllTakes(c, seqs[..n]);
      var i := SlotOf(c, seqs[n]);
      if c1.slots[i].Valid? {
        assert TakesNamed(c, seqs[n], named);
        SlotInPackets(c, i, wire, named);
      }
    }
  }

  lemma SlotInPackets(c: Cache, i: nat, wire: seq<Datagram>, named: seq<nat>)
    requires SlotsOnWire(c, wire) && i < PACKET_HISTORY_SIZE && c.slots[i].Valid? && c.start + i in named
    ensures forall f <- c.slots[i].fragments :: InPackets(f, wire, Numbers(named))
  {
    assert SlotOnWire(c.slots[i], c.start + i, wire);
    OnlyReliableIn(wire[c.start + i].fragments);
    forall f | f in c.slots[i].fragments
      ensures InPackets(f, wire, Numbers(named))
    {
      assert c.start + i in Numbers(named) && f in wire[c.start + i].fragments;
    }
  }

  lemma InMorePackets(f: Fragment, wire: seq<Datagram>, more: seq<Datagram>, numbers: set<nat>, numbers': set<nat>)
    requires InPackets(f, wire, numbers) && numbers <= numbers'
    ensures InPackets(f, wire + more, numbers')
    ensures more == [] ==> InPackets(f, wire, numbers')
  {
    var s :| s in numbers && s < |wire| && wire[s].Packet? && f in wire[s].fragments;
    assert (wire + more)[s] == wire[s] && s in numbers';
  }

  // ---- whole runs ----

  /** Every acknowledgement is rightful when it is handled. */
  ghost predicate RightfulRun(r: Run, actions: seq<Action>)
    decreases |actions|
  {
    actions != [] && Enabled(r, actions[0]) ==>
      && (actions[0].DoAck? ==> Rightful(r.sender.cache, actions[0].seqs))
      && RightfulRun(Step(r, actions[0]), actions[1..])
  }

  /** Every acknowledgement names only the last 128 numbers sent by then. */
  ghost predicate RecentRun(r: Run, actions: seq<Action>)
    decreases |actions|
  {
    actions != [] && Enabled(r, actions[0]) ==>
      && (actions[0].DoAck? ==> Recent(r.sender.nextSeq, actions[0].seqs))
      && RecentRun(Step(r, actions[0]), actions[1..])
  }

  lemma {:induction false} RecentRunIsRightful(r: Run, actions: seq<Action>)
    requires Inv(r) && RecentRun(r, actions)
    ensures RightfulRun(r, actions)
    decreases |actions|
  {
    if actions != [] && Enabled(r, actions[0]) {
      var a := actions[0];
      if a.DoAck? {
        RecentIsRightful(r.sender.cache, r.sender.nextSeq, a.seqs);
      }
      StepKeepsInv(r, a);
      RecentRunIsRightful(Step(r, a), actions[1..]);
    }
  }

  ghost function AckedNumbers(actions: seq<Action>): set<nat> {
    if actions == [] then
      {}
    else
      (if actions[0].DoAck? then Numbers(actions[0].seqs) else {}) + AckedNumbers(actions[1..])
  }

  ghost predicate AckedKnown(r: Run, numbers: set<nat>) {
    forall f <- r.acked :: InPackets(f, r.wire, numbers)
  }

  lemma StepKeepsAckedKnown(r: Run, a: Action, numbers: set<nat>)
    requires Inv(r) && OnWire(r) && Enabled(r, a) && AckedKnown(r, numbers)
    requires a.DoAck? ==> Rightful(r.sender.cache, a.seqs)
    ensures AckedKnown(Step(r, a), numbers + if a.DoAck? then Numbers(a.seqs) else {})
  {
    hide InPackets, SlotsOnWire, Covers, Transmits, CanPushAll, PushAll, Inv;
    var r' := Step(r, a);
    var numbers' := numbers + if a.DoAck? then Numbers(a.seqs) else {};
    StepKeepsOnWire(r, a);
    if a.DoAck? {
      AckedWereNamed(r.sender.cache, a.seqs, a.seqs, r.wire);
    }
    forall f | f in r'.acked
      ensures InPackets(f, r'.wire, numbers')
    {
      assert r'.wire == r.wire + r'.wire[|r.wire|..];
      if f in r.acked {
        InMorePackets(f, r.wire, r'.wire[|r.wire|..], numbers, numbers');
      } else {
        assert a.DoAck? && f in AckAll(r.sender.cache, a.seqs).1;
        InMorePackets(f, r.wire, r'.wire[|r.wire|..], Numbers(a.seqs), numbers');
      }
    }
  }

  lemma {:induction false} RunKeepsAckedKnown(r: Run, actions: seq<Action>, end: Run, numbers: set<nat>)
    requires Inv(r) && OnWire(r) && AckedKnown(r, numbers)
    requires IsRun(r, actions, end) && RightfulRun(r, actions)
    ensures AckedKnown(end, numbers + AckedNumbers(actions)) && OnWire(end)
    decreases |actions|
  {
    hide Inv, OnWire, AckedKnown, Rightful, Enabled, Step;
    if actions == [] {
      assert numbers + {} == numbers;
    } else {
      var a := actions[0];
      var now := if a.DoAck? then Numbers(a.seqs) else {};
      StepKeepsInv(r, a);
      StepKeepsOnWire(r, a);
      StepKeepsAckedKnown(r, a, numbers);
      RunKeepsAckedKnown(Step(r, a), actions[1..], end, numbers + now);
      assert numbers + now + AckedNumbers(actions[1..]) == numbers + (now + AckedNumbers(actions[1..]));
    }
  }

  lemma StartOnWire(mtu: nat)
    requires mtu >= MIN_MTU
    ensures Inv(Start(mtu)) && OnWire(Start(mtu)) && AckedKnown(Start(mtu), {})
  {
    StartInv(mtu);
  }

  /** Over every run in which acknowledgements are rightful: a fragment that was
      acknowledged went out in a packet whose number was acknowledged. */
  lemma AckedWereSent(mtu: nat, actions: seq<Action>, end: Run)
    requires mtu >= MIN_MTU && IsRun(Start(mtu), actions, end) && RightfulRun(Start(mtu), actions)
    ensures WireNumbered(end.wire)
    ensures forall f <- end.acked :: InPackets(f, end.wire, AckedNumbers(actions))
  {
    hide Inv, IsRun, RightfulRun, InPackets, SlotsOnWire;
    StartOnWire(mtu);
    RunKeepsAckedKnown(Start(mtu), actions, end, {});
    assert {} + AckedNumbers(actions) == AckedNumbers(actions);
  }

  /** Nothing is lost: if acknowledgements are rightful and only packets that were got are
      acknowledged, every reliable fragment given an index is on its way (in the history or
      the retransmit queue) or was in a packet that was got. */
  lemma NothingIsLost(mtu: nat, actions: seq<Action>, end: Run, got: set<nat>)
    requires mtu >= MIN_MTU && IsRun(Start(mtu), actions, end) && RightfulRun(Start(mtu), actions) && end.alive
    requires AckedNumbers(actions) <= got
    ensures forall i :: 0 <= i < |end.issued| ==>
                          end.issued[i] in Outstanding(end.sender.cache) || InPackets(end.issued[i], end.wire, got)
  {
    hide Inv, IsRun, RightfulRun, InPackets;
    AckedWereSent(mtu, actions, end);
    SenderConserves(mtu, actions, end);
    forall i | 0 <= i < |end.issued| && end.issued[i] !in Outstanding(end.sender.cache)
      ensures InPackets(end.issued[i], end.wire, got)
    {
      assert end.issued[i] in end.acked;
      InMorePackets(end.issued[i], end.wire, [], AckedNumbers(actions), got);
    }
  }

  /** So nothing is lost as long as acknowledgements come before 128 more packets are sent. */
  lemma NothingRecentIsLost(mtu: nat, actions: seq<Action>, end: Run, got: set<nat>)
    requires mtu >= MIN_MTU && IsRun(Start(mtu), actions, end) && RecentRun(Start(mtu), actions) && end.alive
    requires AckedNumbers(actions) <= got
    ensures forall i :: 0 <= i < |end.issued| ==>
                          end.issued[i] in Outstanding(end.sender.cache) || InPackets(end.issued[i], end.wire, got)
  {
    hide IsRun, RightfulRun, RecentRun, InPackets;
    StartInv(mtu);
    RecentRunIsRightful(Start(mtu), actions);
    NothingIsLost(mtu, actions, end, got);
  }
}
