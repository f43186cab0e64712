/** The ring of in-flight packets, updated in place (src/reliability/retransmit_cache.rs). */
module RetransmitCaches {
  import opened Basics
  import opened Rings
  import opened Datagrams
  import opened Retransmission

  /** Where the slot `i` past `start` lives in the ring. */
  function RingIndex(start: nat, i: nat): nat {
    (start + i) % PACKET_HISTORY_SIZE
  }

  /** The ring. `slots` is its contents read from the oldest one. */
  class RetransmitCache {
    const histories: array<PacketHistory>
    var startSeq: nat
    var retransmitFragments: seq<Fragment>
    ghost var slots: seq<PacketHistory>

    ghost predicate Valid()
      reads `startSeq, `slots, histories
    {
      && histories.Length == |slots| == PACKET_HISTORY_SIZE
      && forall i {:trigger RingIndex(startSeq, i)} ::
           0 <= i < PACKET_HISTORY_SIZE ==> slots[i] == histories[RingIndex(startSeq, i)]
    }

    ghost function View(): Cache
      reads `startSeq, `slots, `retransmitFragments, histories
      requires Valid()
    {
      CacheState(startSeq, slots, retransmitFragments)
    }

    constructor ()
      ensures Valid() && fresh(histories)
      ensures View() == EmptyCache()
    {
      histories := new PacketHistory[PACKET_HISTORY_SIZE](_ => Invalid);
      startSeq := 0;
      retransmitFragments := [];
      slots := seq(PACKET_HISTORY_SIZE, _ => Invalid);
    }

    method IsEmpty() returns (empty: bool)
      requires Valid()
      ensures empty == Retransmission.IsEmpty(View())
    {
      assert slots[0] == histories[RingIndex(startSeq, 0)];
      empty := histories[startSeq % PACKET_HISTORY_SIZE].Invalid? && retransmitFragments == [];
    }

    /** Reads the history of one sequence number of the window. */
    method Slot(i: nat) returns (h: PacketHistory)
      requires Valid() && i < PACKET_HISTORY_SIZE
      ensures h == slots[i]
    {
      h := histories[RingIndex(startSeq, i)];
    }

    /** Overwrites the history of one sequence number of the window. */
    method SetSlot(i: nat, h: PacketHistory)
      requires Valid() && i < PACKET_HISTORY_SIZE
      modifies histories, `slots
      ensures Valid() && slots == old(slots)[i := h]
    {
      histories[RingIndex(startSeq, i)] := h;
      slots := slots[i := h];
    }

    /** Moves the start past `count` slots that have been emptied. */
    method MoveStart(count: nat)
      requires Valid() && count <= PACKET_HISTORY_SIZE
      requires forall i :: 0 <= i < count ==> slots[i] == Invalid
      modifies `startSeq, `slots
      ensures Valid() && startSeq == old(startSeq) + count && slots == Drop(old(slots), count)
    {
      ghost var before := slots;
      startSeq := startSeq + count;
      slots := Drop(slots, count);
      forall i {:trigger RingIndex(startSeq, i)} | 0 <= i < PACKET_HISTORY_SIZE
        ensures slots[i] == histories[RingIndex(startSeq, i)]
      {
        if i < PACKET_HISTORY_SIZE - count {
          assert before[count + i] == histories[RingIndex(old(startSeq), count + i)];
        } else {
          assert before[count + i - PACKET_HISTORY_SIZE] ==
                 histories[RingIndex(old(startSeq), count + i - PACKET_HISTORY_SIZE)];
        }
      }
    }

    method Insert(seqNumber: nat, fragments: seq<Fragment>, timeSent: nat) returns (r: Result<()>)
      requires Valid()
      modifies this, histories
      ensures Valid()
      ensures (View(), r) == Retransmission.Insert(old(View()), seqNumber, fragments, timeSent)
    {
      if startSeq + PACKET_HISTORY_SIZE <= seqNumber {
        return Err(BufferOverflow);
      }
      AliasSlot(startSeq, PACKET_HISTORY_SIZE, seqNumber);
      ghost var i := SlotOf(View(), seqNumber);
      assert slots[i] == histories[RingIndex(startSeq, i)];
      if histories[seqNumber % PACKET_HISTORY_SIZE].Invalid? {
        histories[seqNumber % PACKET_HISTORY_SIZE] := PacketHistory.Valid(fragments, timeSent);
        slots := slots[i := PacketHistory.Valid(fragments, timeSent)];
      }
      return Ok(());
    }

    method MarkAsUsed(seqNumber: nat) returns (r: Option<(seq<Fragment>, nat)>)
      requires Valid()
      modifies this, histories
      ensures Valid()
      ensures (View(), r) == Retransmission.MarkAsUsed(old(View()), seqNumber)
    {
      AliasSlot(startSeq, PACKET_HISTORY_SIZE, seqNumber);
      ghost var i := SlotOf(View(), seqNumber);
      assert slots[i] == histories[RingIndex(startSeq, i)];
      match histories[seqNumber % PACKET_HISTORY_SIZE] {
        case Valid(fragments, timeSent) =>
          histories[seqNumber % PACKET_HISTORY_SIZE] := Used;
          slots := slots[i := Used];
          r := Some((fragments, timeSent));
        case _ =>
          r := None;
      }
    }

    method Shift() returns (count: nat)
      requires Valid()
      modifies this, histories
      ensures Valid()
      ensures (View(), count) == Retransmission.Shift(old(View()))
    {
      ghost var was := slots;
      count := 0;
      while count < PACKET_HISTORY_SIZE
        invariant 0 <= count <= PACKET_HISTORY_SIZE
        invariant Valid() && startSeq == old(startSeq) && retransmitFragments == old(retransmitFragments)
        invariant forall k :: 0 <= k < count ==> was[k].Used?
        invariant forall k :: 0 <= k < PACKET_HISTORY_SIZE ==> slots[k] == if k < count then Invalid else was[k]
      {
        var h := Slot(count);
        if !h.Used? {
          break;
        }
        SetSlot(count, Invalid);
        count := count + 1;
      }
      UsedRunIs(was, count);
      SameDrop(was, slots, count);
      MoveStart(count);
    }

    method GetRetransmitFragments(now: nat, rto: nat)
      requires Valid()
      requires forall i :: 0 <= i < PACKET_HISTORY_SIZE && slots[i].Valid? ==> slots[i].timeSent <= now
      modifies this, histories
      ensures Valid()
      ensures View() == Retransmission.GetRetransmitFragments(old(View()), now, rto)
    {
      hide InFlight, ScanRun;
      var empty := IsEmpty();
      if empty {
        return;
      }
      ghost var was := slots;
      assert InFlight(was[..0]) == [] by {
        NoneInFlight(was);
      }
      var count := 0;
      while count < PACKET_HISTORY_SIZE
        invariant 0 <= count <= PACKET_HISTORY_SIZE
        invariant Valid() && startSeq == old(startSeq)
        invariant forall k :: 0 <= k < count ==> was[k].Used? || Overdue(was[k], now, rto)
        invariant forall k :: 0 <= k < PACKET_HISTORY_SIZE ==> slots[k] == if k < count then Invalid else was[k]
        invariant retransmitFragments == old(retransmitFragments) + InFlight(was[..count])
      {
        InFlightSnoc(was, count);
        var h := Slot(count);
        match h {
          case Valid(fragments, timeSent) =>
            if now - timeSent >= rto {
              retransmitFragments := retransmitFragments + fragments;
            } else {
              break;
            }
          case Invalid => break;
          case Used =>
        }
        SetSlot(count, Invalid);
        count := count + 1;
      }
      ScanRunIs(was, now, rto, count);
      SameDrop(was, slots, count);
      MoveStart(count);
    }

    method ExtendRetransmitFragments(fragments: seq<Fragment>)
      requires Valid()
      modifies `retransmitFragments
      ensures Valid()
      ensures View() == old(View()).(queue := old(retransmitFragments) + fragments)
    {
      retransmitFragments := retransmitFragments + fragments;
    }
  }

  lemma NoneInFlight(slots: seq<PacketHistory>)
    ensures InFlight(slots[..0]) == []
  {
  }

  lemma SameDrop(a: seq<PacketHistory>, b: seq<PacketHistory>, count: nat)
    requires count <= |a| == |b|
    requires forall k :: count <= k < |a| ==> a[k] == b[k]
    ensures Drop(a, count) == Drop(b, count)
  {
    assert a[count..] == b[count..];
  }

  lemma {:induction false} UsedRunIs(slots: seq<PacketHistory>, count: nat)
    requires count <= |slots|
    requires forall k :: 0 <= k < count ==> slots[k].Used?
    requires count < |slots| ==> !slots[count].Used?
    ensures UsedRun(slots) == count
  {
    if count > 0 {
      UsedRunIs(slots[1..], count - 1);
    }
  }

  lemma {:induction false} ScanRunIs(slots: seq<PacketHistory>, now: nat, rto: nat, count: nat)
    requires count <= |slots|
    requires forall k :: 0 <= k < count ==> slots[k].Used? || Overdue(slots[k], now, rto)
    requires count < |slots| ==> !slots[count].Used? && !Overdue(slots[count], now, rto)
    ensures ScanRun(slots, now, rto) == count
  {
    if count > 0 {
      ScanRunIs(slots[1..], now, rto, count - 1);
    }
  }
}
