/** The in-flight packets and the retransmit queue of
    src/reliability/retransmit_cache.rs.

    `Cache` is the cache seen from its oldest slot and carries the meaning of each
    operation; the class `RetransmitCaches.RetransmitCache` is proved to compute it. */
module Retransmission {
  import opened Basics
  import opened Rings
  import opened Datagrams

  const PACKET_HISTORY_SIZE: nat := 128

  datatype PacketHistory =
    | Valid(fragments: seq<Fragment>, timeSent: nat)
    | Invalid
    | Used

  /** `slots[i]` is the history of sequence number `start + i`. */
  datatype CacheState = CacheState(start: nat, slots: seq<PacketHistory>, queue: seq<Fragment>)

  type Cache = c: CacheState | |c.slots| == PACKET_HISTORY_SIZE
    witness CacheState(0, seq(PACKET_HISTORY_SIZE, _ => Invalid), [])

  function EmptyCache(): (c: Cache)
    ensures c.start == 0 && c.queue == [] && forall i :: 0 <= i < PACKET_HISTORY_SIZE ==> c.slots[i].Invalid?
  {
    CacheState(0, seq(PACKET_HISTORY_SIZE, _ => Invalid), [])
  }

  function IsEmpty(c: Cache): bool {
    c.slots[0].Invalid? && c.queue == []
  }

  /** The slot a sequence number lands in; the ring has no range check. */
  function SlotOf(c: Cache, seqNumber: nat): (i: nat)
    ensures i < PACKET_HISTORY_SIZE
  {
    Alias(c.start, PACKET_HISTORY_SIZE, seqNumber) - c.start
  }

  function Insert(c: Cache, seqNumber: nat, fragments: seq<Fragment>, timeSent: nat): (Cache, Result<()>) {
    if c.start + PACKET_HISTORY_SIZE <= seqNumber then
      (c, Err(BufferOverflow))
    else
      var i := SlotOf(c, seqNumber);
      (if c.slots[i].Invalid? then c.(slots := c.slots[i := Valid(fragments, timeSent)]) else c, Ok(()))
  }

  function MarkAsUsed(c: Cache, seqNumber: nat): (Cache, Option<(seq<Fragment>, nat)>) {
    var i := SlotOf(c, seqNumber);
    match c.slots[i]
    case Valid(fragments, timeSent) => (c.(slots := c.slots[i := Used]), Some((fragments, timeSent)))
    case _ => (c, None)
  }

  function UsedRun(slots: seq<PacketHistory>): (n: nat)
    ensures n <= |slots|
  {
    if slots != [] && slots[0].Used? then 1 + UsedRun(slots[1..]) else 0
  }

  /** Gives up the oldest `count` slots and opens as many at the far end. */
  function Drop(slots: seq<PacketHistory>, count: nat): (r: seq<PacketHistory>)
    requires count <= |slots|
    ensures |r| == |slots|
  {
    slots[count..] + seq(count, _ => Invalid)
  }

  function Shift(c: Cache): (Cache, nat) {
    var count := UsedRun(c.slots);
    (CacheState(c.start + count, Drop(c.slots, count), c.queue), count)
  }

  predicate Overdue(h: PacketHistory, now: nat, rto: nat) {
    h.Valid? && now - h.timeSent >= rto
  }

  /** How far the scan for timed-out packets gets before it breaks off. */
  function ScanRun(slots: seq<PacketHistory>, now: nat, rto: nat): (n: nat)
    ensures n <= |slots|
  {
    if slots != [] && (slots[0].Used? || Overdue(slots[0], now, rto)) then 1 + ScanRun(slots[1..], now, rto) else 0
  }

  /** The fragments of the packets still in the history, oldest first. */
  function InFlight(slots: seq<PacketHistory>): seq<Fragment> {
    if slots == [] then [] else (if slots[0].Valid? then slots[0].fragments else []) + InFlight(slots[1..])
  }

  function GetRetransmitFragments(c: Cache, now: nat, rto: nat): Cache {
    if IsEmpty(c) then
      c
    else
      var count := ScanRun(c.slots, now, rto);
      CacheState(c.start + count, Drop(c.slots, count), c.queue + InFlight(c.slots[..count]))
  }

  lemma {:induction false} InFlightAppend(a: seq<PacketHistory>, b: seq<PacketHistory>)
    ensures InFlight(a + b) == InFlight(a) + InFlight(b)
  {
    if a == [] {
      assert a + b == b;
    } else {
      assert (a + b)[0] == a[0] && (a + b)[1..] == a[1..] + b;
      InFlightAppend(a[1..], b);
    }
  }

  lemma InFlightSnoc(slots: seq<PacketHistory>, count: nat)
    requires count < |slots|
    ensures InFlight(slots[..count + 1]) ==
            InFlight(slots[..count]) + if slots[count].Valid? then slots[count].fragments else []
  {
    assert slots[..count + 1] == slots[..count] + [slots[count]];
    InFlightAppend(slots[..count], [slots[count]]);
    assert InFlight([slots[count]][1..]) == [];
  }
}
