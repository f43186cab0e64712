/** What the packet history keeps as packets are sent, acknowledged, reported
    missing and timed out (src/reliability/retransmit_cache.rs). */
module RetransmissionRuns {
  import opened Basics
  import opened Rings
  import opened Datagrams
  import opened Retransmission

  /** The slots in use are those of [start, next), where `next` is sent next. */
  ghost predicate Exact(c: Cache, next: nat) {
    && c.start <= next <= c.start + PACKET_HISTORY_SIZE
    && forall i :: 0 <= i < PACKET_HISTORY_SIZE ==> (c.slots[i].Invalid? <==> c.start + i >= next)
  }

  /** Send times never decrease along the ring, and none is later than `now`. */
  ghost predicate Timed(slots: seq<PacketHistory>, now: nat) {
    && (forall i :: 0 <= i < |slots| && slots[i].Valid? ==> slots[i].timeSent <= now)
    && (forall i, j :: 0 <= i < j < |slots| && slots[i].Valid? && slots[j].Valid? ==> slots[i].timeSent <= slots[j].timeSent)
  }

  /** No used slot is left at the start once `shift` has run. */
  predicate Settled(c: Cache) {
    !c.slots[0].Used?
  }

  /** The fragments whose packet is neither acknowledged nor given up, with repeats counted. */
  function Outstanding(c: Cache): multiset<Fragment> {
    multiset(InFlight(c.slots)) + multiset(c.queue)
  }

  // ---- the slots in use ----

  /** A packet with the next sequence number is never dropped silently: it is stored,
      or the insert fails. */
  lemma InsertExact(c: Cache, next: nat, fragments: seq<Fragment>, timeSent: nat)
    requires Exact(c, next)
    ensures var (c', r) := Insert(c, next, fragments, timeSent);
            && (r.Ok? <==> next < c.start + PACKET_HISTORY_SIZE)
            && (r.Ok? ==>
                  && Exact(c', next + 1)
                  && c'.slots == c.slots[next - c.start := Valid(fragments, timeSent)]
                  && (Timed(c.slots, timeSent) ==> Timed(c'.slots, timeSent))
                  && (next > c.start && Settled(c) ==> Settled(c'))
                  && (next == c.start ==> Settled(c')))
  {
  }

  /** A slot that has held a packet is not written again before it is shifted out, and as long
      as it is the first the cache does not count as empty. */
  lemma TakenSlotsStay(c: Cache, seqNumber: nat, fragments: seq<Fragment>, timeSent: nat)
    requires seqNumber < c.start + PACKET_HISTORY_SIZE && !c.slots[SlotOf(c, seqNumber)].Invalid?
    ensures Insert(c, seqNumber, fragments, timeSent) == (c, Ok(()))
    ensures seqNumber == c.start ==> !IsEmpty(c)
  {
  }

  lemma MarkAsUsedKeepsExact(c: Cache, next: nat, seqNumber: nat, now: nat)
    requires Exact(c, next) && Timed(c.slots, now)
    ensures Exact(MarkAsUsed(c, seqNumber).0, next) && Timed(MarkAsUsed(c, seqNumber).0.slots, now)
  {
  }

  lemma AliasApart(start: nat, seqNumber: nat)
    requires seqNumber < start <= seqNumber + PACKET_HISTORY_SIZE
    ensures Alias(start, PACKET_HISTORY_SIZE, seqNumber) == seqNumber + PACKET_HISTORY_SIZE
  {
    var a := Alias(start, PACKET_HISTORY_SIZE, seqNumber);
    AliasSlot(start, PACKET_HISTORY_SIZE, seqNumber);
    assert a % PACKET_HISTORY_SIZE == seqNumber % PACKET_HISTORY_SIZE;
  }

  /** What an acknowledgement should get: the fragments of that very packet, if it is
      still in the history, and nothing otherwise. */
  ghost predicate Deserves(c: Cache, next: nat, seqNumber: nat, r: Option<(seq<Fragment>, nat)>)
    requires Exact(c, next)
  {
    if c.start <= seqNumber < next && c.slots[seqNumber - c.start].Valid? then
      r == Some((c.slots[seqNumber - c.start].fragments, c.slots[seqNumber - c.start].timeSent))
    else
      r == None
  }

  /** There is no range check, so a number outside the ring answers for the packet whose
      slot it shares. For every number, sent or not: it gets what it should exactly if it
      lies in the ring, or the slot it shares holds no packet. */
  lemma MarkAsUsedRightIff(c: Cache, next: nat, seqNumber: nat)
    requires Exact(c, next)
    ensures Deserves(c, next, seqNumber, MarkAsUsed(c, seqNumber).1) <==>
            c.start <= seqNumber < c.start + PACKET_HISTORY_SIZE || !c.slots[SlotOf(c, seqNumber)].Valid?
    ensures MarkAsUsed(c, seqNumber).0 ==
            if c.slots[SlotOf(c, seqNumber)].Valid? then c.(slots := c.slots[SlotOf(c, seqNumber) := Used]) else c
  {
  }

  /** The last 128 numbers sent are always safe, shifted out or not. */
  lemma MarkAsUsedExact(c: Cache, next: nat, seqNumber: nat)
    requires Exact(c, next)
    requires seqNumber < next <= seqNumber + PACKET_HISTORY_SIZE
    ensures Deserves(c, next, seqNumber, MarkAsUsed(c, seqNumber).1)
    ensures var (c', r) := MarkAsUsed(c, seqNumber);
            if r.Some? then c' == c.(slots := c.slots[seqNumber - c.start := Used]) else c' == c
  {
    if seqNumber < c.start {
      // a number already shifted out shares its slot with one not sent yet
      AliasApart(c.start, seqNumber);
      assert c.slots[SlotOf(c, seqNumber)].Invalid?;
    }
    MarkAsUsedRightIff(c, next, seqNumber);
  }

  /** A packet sent with number `n`, acknowledged and shifted out. */
  function Round(c: Cache, n: nat, fragments: seq<Fragment>, now: nat): Cache {
    var sent := Insert(c, n, fragments, now).0;
    Shift(MarkAsUsed(sent, n).0).0
  }

  function Rounds(n: nat, fragments: seq<Fragment>): Cache {
    if n == 0 then EmptyCache() else Round(Rounds(n - 1, fragments), n - 1, fragments, n - 1)
  }

  lemma {:induction false} RoundsAreEmpty(n: nat, fragments: seq<Fragment>)
    ensures Rounds(n, fragments) == EmptyCache().(start := n)
  {
    hide Round;
    if n > 0 {
      RoundsAreEmpty(n - 1, fragments);
      OneRound(n - 1, fragments);
    }
  }

  lemma OneRound(n: nat, fragments: seq<Fragment>)
    ensures Round(EmptyCache().(start := n), n, fragments, n) == EmptyCache().(start := n + 1)
  {
    var c := EmptyCache().(start := n);
    var sent := Insert(c, n, fragments, n).0;
    var used := MarkAsUsed(sent, n).0;
    assert used.slots == c.slots[0 := Used];
    assert used.slots[1..][0] == Invalid;
    assert UsedRun(used.slots) == 1 + UsedRun(used.slots[1..]) == 1;
    assert Drop(used.slots, 1) == c.slots;
  }

  /** 128 packets are sent and acknowledged, one by one, and the next is sent. A second
      acknowledgement of number 0 then takes that packet's fragments, which nobody has
      acknowledged. */
  lemma StaleAckWitness(fragments: seq<Fragment>)
    ensures var c := Insert(Rounds(128, fragments), 128, fragments, 128).0;
            && Exact(c, 129)
            && MarkAsUsed(c, 0).1 == Some((fragments, 128))
            && MarkAsUsed(c, 0).0.slots[0] == Used
  {
    RoundsAreEmpty(128, fragments);
    AliasApart(128, 0);
    assert Exact(EmptyCache().(start := 128), 128);
    InsertExact(EmptyCache().(start := 128), 128, fragments, 128);
  }

  /** A number that was never sent can do the same: with packet 0 in flight, 128 takes it. */
  lemma UnsentAckWitness(fragments: seq<Fragment>)
    ensures var c := Insert(EmptyCache(), 0, fragments, 0).0;
            Exact(c, 1) && MarkAsUsed(c, 128).1 == Some((fragments, 0))
  {
    assert Exact(EmptyCache(), 0);
    InsertExact(EmptyCache(), 0, fragments, 0);
  }

  lemma DropExact(c: Cache, next: nat, now: nat, count: nat)
    requires Exact(c, next) && Timed(c.slots, now)
    requires count <= PACKET_HISTORY_SIZE && c.start + count <= next
    ensures Exact(CacheState(c.start + count, Drop(c.slots, count), c.queue), next)
    ensures Timed(Drop(c.slots, count), now)
  {
    var slots := Drop(c.slots, count);
    assert forall i :: 0 <= i < PACKET_HISTORY_SIZE ==>
                         slots[i] == if i < PACKET_HISTORY_SIZE - count then c.slots[count + i] else Invalid;
  }

  lemma {:induction false} RunsStopBeforeInvalid(slots: seq<PacketHistory>, now: nat, rto: nat)
    ensures forall i :: 0 <= i < UsedRun(slots) ==> slots[i].Used?
    ensures UsedRun(slots) < |slots| ==> !slots[UsedRun(slots)].Used?
    ensures forall i :: 0 <= i < ScanRun(slots, now, rto) ==> slots[i].Used? || Overdue(slots[i], now, rto)
    ensures var n := ScanRun(slots, now, rto);
            n < |slots| ==> !slots[n].Used? && !Overdue(slots[n], now, rto)
  {
    if slots != [] {
      RunsStopBeforeInvalid(slots[1..], now, rto);
    }
  }

  lemma ShiftExact(c: Cache, next: nat, now: nat)
    requires Exact(c, next) && Timed(c.slots, now)
    ensures var c' := Shift(c).0;
            && Exact(c', next) && Timed(c'.slots, now) && Settled(c')
            && forall k :: 0 <= k < Shift(c).1 ==> c.slots[k].Used?
  {
    var count := UsedRun(c.slots);
    RunsStopBeforeInvalid(c.slots, 0, 0);
    if count > 0 {
      assert c.slots[count - 1].Used?;
    }
    DropExact(c, next, now, count);
    SettledDrop(c, count);
  }

  lemma SettledDrop(c: Cache, count: nat)
    requires count <= PACKET_HISTORY_SIZE
    requires count < PACKET_HISTORY_SIZE ==> !c.slots[count].Used?
    ensures Settled(CacheState(c.start + count, Drop(c.slots, count), c.queue))
  {
    assert Drop(c.slots, count)[0] == if count < PACKET_HISTORY_SIZE then c.slots[count] else Invalid;
  }

  lemma RetransmitExact(c: Cache, next: nat, now: nat, rto: nat)
    requires Exact(c, next) && Timed(c.slots, now) && Settled(c)
    ensures var c' := GetRetransmitFragments(c, now, rto);
            Exact(c', next) && Timed(c'.slots, now) && Settled(c')
  {
    if !IsEmpty(c) {
      var count := ScanRun(c.slots, now, rto);
      RunsStopBeforeInvalid(c.slots, now, rto);
      if count > 0 {
        assert !c.slots[count - 1].Invalid?;
      }
      DropExact(c, next, now, count);
      SettledDrop(c, count);
    }
  }

  /** `is_empty` looks at one slot and the queue, and answers for the whole cache. */
  lemma EmptyIff(c: Cache, next: nat)
    requires Exact(c, next) && Settled(c)
    ensures IsEmpty(c) <==> c.queue == [] && forall i :: 0 <= i < PACKET_HISTORY_SIZE ==> !c.slots[i].Valid?
  {
  }

  // ---- the timeout scan ----

  /** The fragments of every overdue packet, by looking at all slots. */
  function AllOverdue(slots: seq<PacketHistory>, now: nat, rto: nat): seq<Fragment> {
    if slots == [] then
      []
    else
      (if Overdue(slots[0], now, rto) then slots[0].fragments else []) + AllOverdue(slots[1..], now, rto)
  }

  lemma {:induction false} NoneOverdue(slots: seq<PacketHistory>, now: nat, rto: nat)
    requires forall i :: 0 <= i < |slots| ==> !Overdue(slots[i], now, rto)
    ensures AllOverdue(slots, now, rto) == []
  {
    if slots != [] {
      NoneOverdue(slots[1..], now, rto);
    }
  }

  /** Slots in use come first; after them nothing is. */
  ghost predicate Compact(slots: seq<PacketHistory>) {
    forall i, j :: 0 <= i < j < |slots| && slots[i].Invalid? ==> slots[j].Invalid?
  }

  lemma {:induction false} PrefixScanIsFullScan(slots: seq<PacketHistory>, now: nat, rto: nat)
    requires Timed(slots, now) && Compact(slots)
    ensures InFlight(slots[..ScanRun(slots, now, rto)]) == AllOverdue(slots, now, rto)
    ensures forall i :: ScanRun(slots, now, rto) <= i < |slots| ==> !Overdue(slots[i], now, rto)
  {
    var n := ScanRun(slots, now, rto);
    if n == 0 {
      if slots != [] {
        assert forall i :: 0 <= i < |slots| ==> !Overdue(slots[i], now, rto);
      }
      NoneOverdue(slots, now, rto);
    } else {
      var rest := slots[1..];
      assert Timed(rest, now) && Compact(rest);
      PrefixScanIsFullScan(rest, now, rto);
      assert slots[..n][1..] == rest[..n - 1];
      forall i | n <= i < |slots|
        ensures !Overdue(slots[i], now, rto)
      {
        assert slots[i] == rest[i - 1];
      }
    }
  }

  /** The scan that stops at the first packet in time still moves every overdue
      packet to the queue, in the order sent, and leaves none behind. */
  lemma RetransmitMovesAllOverdue(c: Cache, next: nat, now: nat, rto: nat)
    requires Exact(c, next) && Timed(c.slots, now) && Settled(c)
    ensures var c' := GetRetransmitFragments(c, now, rto);
            && c'.queue == c.queue + AllOverdue(c.slots, now, rto)
            && (forall i :: 0 <= i < PACKET_HISTORY_SIZE && c'.slots[i].Valid? ==> now - c'.slots[i].timeSent < rto)
  {
    assert Compact(c.slots);
    PrefixScanIsFullScan(c.slots, now, rto);
    if IsEmpty(c) {
      NoneOverdue(c.slots, now, rto);
    } else {
      DropAt(c.slots, ScanRun(c.slots, now, rto));
    }
  }

  /** Packets still in time stay in the history, under their own sequence numbers. */
  lemma RetransmitKeepsTheRest(c: Cache, now: nat, rto: nat)
    ensures var c' := GetRetransmitFragments(c, now, rto);
            forall k :: 0 <= k < PACKET_HISTORY_SIZE && c.slots[k].Valid? && now - c.slots[k].timeSent < rto ==>
                          c'.start <= c.start + k && c'.slots[c.start + k - c'.start] == c.slots[k]
  {
    RunsStopBeforeInvalid(c.slots, now, rto);
    DropAt(c.slots, ScanRun(c.slots, now, rto));
  }

  lemma DropAt(slots: seq<PacketHistory>, count: nat)
    requires count <= |slots|
    ensures forall i :: 0 <= i < |slots| ==>
                          Drop(slots, count)[i] == if i < |slots| - count then slots[count + i] else Invalid
  {
  }

  // ---- nothing outstanding is lost or copied ----

  function FragmentsOf(h: PacketHistory): seq<Fragment> {
    if h.Valid? then h.fragments else []
  }

  lemma InFlightUpdate(slots: seq<PacketHistory>, i: nat, h: PacketHistory)
    requires i < |slots|
    ensures multiset(InFlight(slots[i := h])) + multiset(FragmentsOf(slots[i])) ==
            multiset(InFlight(slots)) + multiset(FragmentsOf(h))
  {
    var before, after := slots[..i], slots[i + 1..];
    assert slots == before + [slots[i]] + after;
    assert slots[i := h] == before + [h] + after;
    InFlightThree(before, slots[i], after);
    InFlightThree(before, h, after);
  }

  lemma InFlightThree(before: seq<PacketHistory>, h: PacketHistory, after: seq<PacketHistory>)
    ensures InFlight(before + [h] + after) == InFlight(before) + FragmentsOf(h) + InFlight(after)
  {
    InFlightAppend(before + [h], after);
    InFlightAppend(before, [h]);
    assert InFlight([h]) == FragmentsOf(h) + InFlight([h][1..]);
  }

  lemma {:induction false} InFlightEmpty(slots: seq<PacketHistory>)
    requires forall i :: 0 <= i < |slots| ==> !slots[i].Valid?
    ensures InFlight(slots) == []
  {
    if slots != [] {
      InFlightEmpty(slots[1..]);
    }
  }

  lemma InFlightDrop(slots: seq<PacketHistory>, count: nat)
    requires count <= |slots|
    ensures InFlight(slots[..count]) + InFlight(Drop(slots, count)) == InFlight(slots)
  {
    assert slots == slots[..count] + slots[count..];
    InFlightAppend(slots[..count], slots[count..]);
    InFlightAppend(slots[count..], seq(count, _ => Invalid));
    InFlightEmpty(seq(count, _ => Invalid));
  }

  lemma InsertOutstanding(c: Cache, next: nat, fragments: seq<Fragment>, timeSent: nat)
    requires Exact(c, next) && next < c.start + PACKET_HISTORY_SIZE
    ensures Outstanding(Insert(c, next, fragments, timeSent).0) == Outstanding(c) + multiset(fragments)
  {
    InFlightUpdate(c.slots, next - c.start, Valid(fragments, timeSent));
    assert FragmentsOf(c.slots[next - c.start]) == [];
    assert multiset(InFlight(c.slots[next - c.start := Valid(fragments, timeSent)])) ==
           multiset(InFlight(c.slots)) + multiset(fragments);
  }

  lemma MarkAsUsedOutstanding(c: Cache, seqNumber: nat)
    ensures var (c', r) := MarkAsUsed(c, seqNumber);
            Outstanding(c') + multiset(if r.Some? then r.value.0 else []) == Outstanding(c)
  {
    var i := SlotOf(c, seqNumber);
    if c.slots[i].Valid? {
      InFlightUpdate(c.slots, i, Used);
      assert FragmentsOf(Used) == [];
      assert multiset(InFlight(c.slots[i := Used])) + multiset(c.slots[i].fragments) == multiset(InFlight(c.slots));
    } else {
      var none: seq<Fragment> := [];
      assert Outstanding(c) + multiset(none) == Outstanding(c);
    }
  }

  lemma ShiftOutstanding(c: Cache)
    ensures Outstanding(Shift(c).0) == Outstanding(c)
  {
    hide UsedRun, Drop, InFlight;
    var count := UsedRun(c.slots);
    RunsStopBeforeInvalid(c.slots, 0, 0);
    InFlightDrop(c.slots, count);
    InFlightEmpty(c.slots[..count]);
  }

  lemma RetransmitOutstanding(c: Cache, now: nat, rto: nat)
    ensures Outstanding(GetRetransmitFragments(c, now, rto)) == Outstanding(c)
  {
    if !IsEmpty(c) {
      InFlightDrop(c.slots, ScanRun(c.slots, now, rto));
    }
  }
}
