/** Datagrams, fragments and their delivery guarantees
    (src/proto/datagram.rs and src/reliability/fragment.rs). */
module Datagrams {
  import opened Basics

  datatype Reliability =
    | Unreliable
    | UnreliableSequenced
    | Reliable
    | ReliableOrdered
    | ReliableSequenced
    | UnreliableWithAckReceipt
    | ReliableWithAckReceipt
    | ReliableOrderedWithAckReceipt
  {
    predicate IsReliable() {
      Reliable? || ReliableOrdered? || ReliableSequenced? || ReliableWithAckReceipt? || ReliableOrderedWithAckReceipt?
    }

    predicate IsSequenced() {
      UnreliableSequenced? || ReliableSequenced?
    }

    predicate IsOrdered() {
      ReliableOrdered? || ReliableOrderedWithAckReceipt?
    }

    /** Only these reliabilities look at the ordering channel of a send. */
    predicate UsesChannel() {
      IsSequenced() || IsOrdered()
    }

    function ToU8(): (n: byte) {
      match this
      case Unreliable => 0
      case UnreliableSequenced => 1
      case Reliable => 2
      case ReliableOrdered => 3
      case ReliableSequenced => 4
      case UnreliableWithAckReceipt => 5
      case ReliableWithAckReceipt => 6
      case ReliableOrderedWithAckReceipt => 7
    }

    static function FromU8(n: byte): Option<Reliability> {
      match n
      case 0 => Some(Unreliable)
      case 1 => Some(UnreliableSequenced)
      case 2 => Some(Reliable)
      case 3 => Some(ReliableOrdered)
      case 4 => Some(ReliableSequenced)
      case 5 => Some(UnreliableWithAckReceipt)
      case 6 => Some(ReliableWithAckReceipt)
      case 7 => Some(ReliableOrderedWithAckReceipt)
      case _ => None
    }
  }

  datatype Priority = Immediate | High | Medium | Low {
    function Index(): (i: nat)
      ensures i < 4
    {
      match this
      case Immediate => 0
      case High => 1
      case Medium => 2
      case Low => 3
    }
  }

  const ORDERING_CHANNEL_SIZE: nat := 32

  datatype OrderingInfo = OrderingInfo(index: nat, channel: byte)

  datatype SplitInfo = SplitInfo(size: nat, id: nat, index: nat)

  const SPLIT_INFO_SIZE: nat := 10

  datatype Fragment = Fragment(
    reliability: Reliability,
    reliableIndex: Option<nat>,
    sequenceIndex: Option<nat>,
    orderingInfo: Option<OrderingInfo>,
    splitInfo: Option<SplitInfo>,
    data: Bytes)
  {
    function HeaderSize(): (size: nat)
      ensures 3 <= size <= 23
      ensures splitInfo.None? ==> size <= 13
    {
      var base := if reliability.IsReliable() then 1 + 2 + 3 else 1 + 2;
      var ordered := if reliability.IsSequenced() then 3 + 4 else if reliability.IsOrdered() then 4 else 0;
      var split := if splitInfo.Some? then 10 else 0;
      base + ordered + split
    }

    function FullSize(): (size: nat)
      ensures size > 0
    {
      HeaderSize() + |data|
    }

    /** The optional fields present are the ones the reliability asks for, except
        that the reliable index is given only when the fragment is first sent. */
    predicate Shaped() {
      && (sequenceIndex.Some? <==> reliability.IsSequenced())
      && (orderingInfo.Some? <==> reliability.IsSequenced() || reliability.IsOrdered())
    }

    predicate Numbered() {
      reliableIndex.Some? <==> reliability.IsReliable()
    }
  }

  datatype Datagram =
    | Ack(arrivalRate: Option<Bytes>, seqs: seq<nat>)
    | Nak(seqs: seq<nat>)
    | Packet(isPacketPair: bool, isContinuousSend: bool, needsArrivalRate: bool, seqNumber: nat, fragments: seq<Fragment>)

  const IP_UDP_HEADER_SIZE: nat := 28
  const HEADER_SIZE: nat := 1
  const PACKET_HEADER_SIZE: nat := 3

  /** The summed full size of a list of fragments. */
  function SizeOf(fragments: seq<Fragment>): nat {
    if fragments == [] then 0 else fragments[0].FullSize() + SizeOf(fragments[1..])
  }

  lemma {:induction false} SizeOfAppend(a: seq<Fragment>, b: seq<Fragment>)
    ensures SizeOf(a + b) == SizeOf(a) + SizeOf(b)
  {
    if a == [] {
      assert a + b == b;
    } else {
      assert (a + b)[0] == a[0] && (a + b)[1..] == a[1..] + b;
      SizeOfAppend(a[1..], b);
    }
  }
}
