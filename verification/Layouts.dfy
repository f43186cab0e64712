/** The bytes on the wire, field by field and in numbers (src/proto/bytes.rs:60-320 and
    src/reliability/fragment.rs:14-39). */
module Layouts {
  import opened Basics
  import opened Datagrams
  import opened SeqRanges
  import opened Codec

  // ---- numbers in bytes ----

  /** Three bytes from `at`, lowest first. */
  function Low3(b: Bytes, at: nat): nat
    requires at + 3 <= |b|
  {
    b[at] as nat + b[at + 1] as nat * 256 + b[at + 2] as nat * 65536
  }

  /** Two bytes from `at`, highest first. */
  function High2(b: Bytes, at: nat): nat
    requires at + 2 <= |b|
  {
    b[at] as nat * 256 + b[at + 1] as nat
  }

  function High4(b: Bytes, at: nat): nat
    requires at + 4 <= |b|
  {
    High2(b, at) * 65536 + High2(b, at + 2)
  }

  lemma Low3Is(n: nat)
    ensures Low3(U24(n), 0) == n % 0x100_0000
  {
    Digits24(n);
  }

  lemma High2Is(n: nat)
    ensures High2(U16(n), 0) == n % 0x1_0000
  {
    GetPutU16(n, []);
  }

  lemma High4Is(n: nat)
    ensures High4(U32(n), 0) == n % 0x1_0000_0000
  {
    Digits24(n);
    Digits32(n);
  }

  /** A field in the middle of a message reads as it does by itself. */
  lemma Low3At(a: Bytes, n: nat, rest: Bytes)
    ensures Low3(a + U24(n) + rest, |a|) == n % 0x100_0000
  {
    Low3Is(n);
    var b := a + U24(n) + rest;
    assert b[|a|] == U24(n)[0] && b[|a| + 1] == U24(n)[1] && b[|a| + 2] == U24(n)[2];
  }

  lemma High2At(a: Bytes, n: nat, rest: Bytes)
    ensures High2(a + U16(n) + rest, |a|) == n % 0x1_0000
  {
    High2Is(n);
    var b := a + U16(n) + rest;
    assert b[|a|] == U16(n)[0] && b[|a| + 1] == U16(n)[1];
  }

  lemma High4At(a: Bytes, n: nat, rest: Bytes)
    ensures High4(a + U32(n) + rest, |a|) == n % 0x1_0000_0000
  {
    High4Is(n);
    var b := a + U32(n) + rest;
    assert b[|a|] == U32(n)[0] && b[|a| + 1] == U32(n)[1] && b[|a| + 2] == U32(n)[2] && b[|a| + 3] == U32(n)[3];
  }

  // ---- fragments ----

  /** The code of each reliability, and back; and what each asks for. */
  lemma Codes(r: Reliability)
    ensures r.ToU8() == match r
                        case Unreliable => 0
                        case UnreliableSequenced => 1
                        case Reliable => 2
                        case ReliableOrdered => 3
                        case ReliableSequenced => 4
                        case UnreliableWithAckReceipt => 5
                        case ReliableWithAckReceipt => 6
                        case ReliableOrderedWithAckReceipt => 7
    ensures Reliability.FromU8(r.ToU8()) == Some(r)
    ensures r.IsReliable() <==> r.ToU8() in {2, 3, 4, 6, 7}
    ensures r.IsSequenced() <==> r.ToU8() in {1, 4}
    ensures r.IsOrdered() <==> r.ToU8() in {3, 7}
  {
  }

  /** The code and the split flag share the first byte; the length is in bits. */
  lemma FragmentHead(f: Fragment)
    ensures var b := PutFragment(f);
            && |b| >= 3
            && b[0] == (match f.reliability
                        case Unreliable => 0x00
                        case UnreliableSequenced => 0x20
                        case Reliable => 0x40
                        case ReliableOrdered => 0x60
                        case ReliableSequenced => 0x80
                        case UnreliableWithAckReceipt => 0xA0
                        case ReliableWithAckReceipt => 0xC0
                        case ReliableOrderedWithAckReceipt => 0xE0) + (if f.splitInfo.Some? then 0x10 else 0)
            && High2(b, 1) == |f.data| * 8 % 0x1_0000
  {
    hide PutOption, PutOrdering, PutSplit;
    PutFragmentNested(f, []);
    var b := PutFragment(f);
    assert b + [] == b;
    var rest := PutOption(f.reliableIndex) + (PutOption(f.sequenceIndex) + (PutOrdering(f.orderingInfo) + (PutSplit(f.splitInfo) + (f.data + []))));
    assert b == [Flags(f)] + U16(|f.data| * 8) + rest;
    High2At([Flags(f)], |f.data| * 8, rest);
  }

  /** Where the fields start. */
  function SequenceAt(f: Fragment): nat {
    3 + if f.reliableIndex.Some? then 3 else 0
  }

  function OrderingAt(f: Fragment): nat {
    SequenceAt(f) + if f.sequenceIndex.Some? then 3 else 0
  }

  function SplitAt(f: Fragment): nat {
    OrderingAt(f) + if f.orderingInfo.Some? then 4 else 0
  }

  function DataAt(f: Fragment): nat {
    SplitAt(f) + if f.splitInfo.Some? then 10 else 0
  }

  lemma OptionLength(n: Option<nat>)
    ensures |PutOption(n)| == if n.Some? then 3 else 0
  {
  }

  /** A fragment, taken apart at its fields. */
  lemma Fields(f: Fragment)
    ensures var (head, reliable, sequence, ordering, split) :=
              ([Flags(f)] + U16(|f.data| * 8), PutOption(f.reliableIndex), PutOption(f.sequenceIndex), PutOrdering(f.orderingInfo), PutSplit(f.splitInfo));
            var b := PutFragment(f);
            && |head| == 3 && |head + reliable| == SequenceAt(f) && |head + reliable + sequence| == OrderingAt(f)
            && |head + reliable + sequence + ordering| == SplitAt(f)
            && |head + reliable + sequence + ordering + split| == DataAt(f)
            && b == head + reliable + (sequence + ordering + split + f.data)
            && b == (head + reliable) + sequence + (ordering + split + f.data)
            && b == (head + reliable + sequence) + ordering + (split + f.data)
            && b == (head + reliable + sequence + ordering) + split + f.data
            && b[DataAt(f)..] == f.data
  {
    hide PutOption, PutSplit, PutOrdering, Flags;
    OptionLength(f.reliableIndex);
    OptionLength(f.sequenceIndex);
    OrderingLength(f.orderingInfo);
    SplitLength(f.splitInfo);
  }

  /** The fields that follow, in order, and the payload. */
  lemma FragmentFields(f: Fragment)
    ensures var b := PutFragment(f);
            && |b| == DataAt(f) + |f.data| && b[DataAt(f)..] == f.data
            && (f.reliableIndex.Some? ==> Low3(b, 3) == f.reliableIndex.value % 0x100_0000)
            && (f.sequenceIndex.Some? ==> Low3(b, SequenceAt(f)) == f.sequenceIndex.value % 0x100_0000)
            && (f.orderingInfo.Some? ==>
                  && Low3(b, OrderingAt(f)) == f.orderingInfo.value.index % 0x100_0000
                  && b[OrderingAt(f) + 3] == f.orderingInfo.value.channel)
            && (f.splitInfo.Some? ==>
                  && High4(b, SplitAt(f)) == f.splitInfo.value.size % 0x1_0000_0000
                  && High2(b, SplitAt(f) + 4) == f.splitInfo.value.id % 0x1_0000
                  && High4(b, SplitAt(f) + 6) == f.splitInfo.value.index % 0x1_0000_0000)
  {
    hide Low3, High2, High4, U24, U16, U32, Flags, PutSplit, PutFragment, PutOrdering;
    Fields(f);
    var b := PutFragment(f);
    var head, reliable, sequence := [Flags(f)] + U16(|f.data| * 8), PutOption(f.reliableIndex), PutOption(f.sequenceIndex);
    var ordering, split := PutOrdering(f.orderingInfo), PutSplit(f.splitInfo);
    if f.reliableIndex.Some? {
      Low3At(head, f.reliableIndex.value, sequence + ordering + split + f.data);
    }
    if f.sequenceIndex.Some? {
      Low3At(head + reliable, f.sequenceIndex.value, ordering + split + f.data);
    }
    if f.orderingInfo.Some? {
      OrderingFields(head + reliable + sequence, f.orderingInfo.value, split + f.data);
    }
    if f.splitInfo.Some? {
      SplitFields(head + reliable + sequence + ordering, f.splitInfo.value, f.data);
    }
  }

  lemma OrderingLength(info: Option<OrderingInfo>)
    ensures |PutOrdering(info)| == if info.Some? then 4 else 0
  {
  }

  lemma OrderingFields(a: Bytes, info: OrderingInfo, rest: Bytes)
    ensures var b := a + PutOrdering(Some(info)) + rest;
            Low3(b, |a|) == info.index % 0x100_0000 && b[|a| + 3] == info.channel
  {
    hide Low3, U24;
    var b := a + PutOrdering(Some(info)) + rest;
    assert b == a + U24(info.index) + ([info.channel] + rest);
    Low3At(a, info.index, [info.channel] + rest);
    assert b[|a| + 3] == ([info.channel] + rest)[0];
  }

  lemma SplitLength(info: Option<SplitInfo>)
    ensures |PutSplit(info)| == if info.Some? then 10 else 0
  {
  }

  lemma SplitFields(a: Bytes, s: SplitInfo, data: Bytes)
    ensures var b := a + PutSplit(Some(s)) + data;
            && High4(b, |a|) == s.size % 0x1_0000_0000
            && High2(b, |a| + 4) == s.id % 0x1_0000
            && High4(b, |a| + 6) == s.index % 0x1_0000_0000
  {
    hide Low3, High2, High4, U24, U16, U32;
    var b := a + PutSplit(Some(s)) + data;
    assert b == a + U32(s.size) + (U16(s.id) + U32(s.index) + data);
    High4At(a, s.size, U16(s.id) + U32(s.index) + data);
    assert b == (a + U32(s.size)) + U16(s.id) + (U32(s.index) + data);
    High2At(a + U32(s.size), s.id, U32(s.index) + data);
    assert b == (a + U32(s.size) + U16(s.id)) + U32(s.index) + data;
    High4At(a + U32(s.size) + U16(s.id), s.index, data);
  }

  // ---- datagrams ----

  /** The first byte tells the kind; a packet has its number next, and an acknowledgement its
      rate, if it has one. */
  lemma DatagramHead(d: Datagram)
    requires WellFormed(d)
    ensures var b := PutDatagram(d);
            match d
            case Packet(pair, continuous, needsRate, seqNumber, fragments) =>
              && |b| >= 4 && Low3(b, 1) == seqNumber % 0x100_0000
              && b[0] == 0x80 + (if pair then 0x10 else 0) + (if continuous then 0x08 else 0) + (if needsRate then 0x04 else 0)
              && b[4..] == PutFragments(fragments)
            case Ack(Some(rate), seqs) => |b| >= 7 && b[0] == 0xE0 && b[1..5] == rate && b[5..] == PutSeqs(seqs)
            case Ack(None, seqs) => |b| >= 3 && b[0] == 0xC0 && b[1..] == PutSeqs(seqs)
            case Nak(seqs) => |b| >= 3 && b[0] == 0xA0 && b[1..] == PutSeqs(seqs)
  {
    if d.Packet? {
      Low3At([PacketFlags(d.isPacketPair, d.isContinuousSend, d.needsArrivalRate)], d.seqNumber, PutFragments(d.fragments));
    } else if d.Ack? && d.arrivalRate.Some? {
      var b, seqs := PutDatagram(d), PutSeqs(d.seqs);
      assert b == [0xE0] + d.arrivalRate.value + seqs;
      assert b[1..5] == d.arrivalRate.value && b[5..] == seqs;
    }
  }

  /** A list starts with the number of its ranges. */
  lemma ListHead(seqs: seq<nat>)
    requires seqs != []
    ensures var b := PutSeqs(seqs);
            |b| >= 2 && High2(b, 0) == |Ranges(Sort(seqs))| % 0x1_0000 && b[2..] == PutRanges(Ranges(Sort(seqs)))
  {
    hide Ranges, Sort, PutRanges;
    High2At([], |Ranges(Sort(seqs))|, PutRanges(Ranges(Sort(seqs))));
    assert [] + U16(|Ranges(Sort(seqs))|) + PutRanges(Ranges(Sort(seqs))) == PutSeqs(seqs);
  }

  /** A single number is marked 1, a range 0. */
  lemma RangeIs(range: (nat, nat))
    ensures var b := PutRange(range);
            if range.0 == range.1 then
              |b| == 4 && b[0] == 1 && Low3(b, 1) == range.0 % 0x100_0000
            else
              |b| == 7 && b[0] == 0 && Low3(b, 1) == range.0 % 0x100_0000 && Low3(b, 4) == range.1 % 0x100_0000
  {
    hide Low3;
    if range.0 == range.1 {
      assert PutRange(range) == [1] + U24(range.0) + [];
      Low3At([1], range.0, []);
    } else {
      assert PutRange(range) == [0] + U24(range.0) + U24(range.1);
      Low3At([0], range.0, U24(range.1));
      assert PutRange(range) == ([0] + U24(range.0)) + U24(range.1) + [];
      Low3At([0] + U24(range.0), range.1, []);
    }
  }

  // ---- reading any bytes ----

  /** What bytes are read as is decided by the high bits of the first: without the highest
      they are refused, the next means acknowledgement, the one after it nak, or a rate. */
  lemma KindIsInTheFirstByte(b: Bytes)
    ensures var r := GetDatagram(b);
            && (b == [] ==> r == Err(NotEnoughData))
            && (b != [] && b[0] < 0x80 ==> r == Err(InvalidData))
            && (r.Ok? ==> b != [] && b[0] >= 0x80
                          && (r.value.Ack? <==> b[0] >= 0xC0) && (r.value.Nak? <==> 0xA0 <= b[0] < 0xC0))
            && (r.Ok? && r.value.Ack? ==>
                  (r.value.arrivalRate.Some? <==> b[0] >= 0xE0)
                  && (b[0] >= 0xE0 ==> |b| >= 5 && r.value.arrivalRate == Some(b[1..5])))
            && (r.Ok? && r.value.Packet? ==>
                  && |b| >= 4 && r.value.seqNumber == Low3(b, 1)
                  && (r.value.isPacketPair <==> b[0] / 16 % 2 == 1)
                  && (r.value.isContinuousSend <==> b[0] / 8 % 2 == 1)
                  && (r.value.needsArrivalRate <==> b[0] / 4 % 2 == 1))
  {
    hide GetSeqs, GetFragments;
    if b != [] {
      HighBits(b[0]);
      assert |b| >= 5 ==> b[1..][..4] == b[1..5];
    }
  }

  /** A datagram that ends before its rate, its number of ranges or its sequence number
      is too short; a packet may end right after its sequence number. */
  lemma ShortDatagram(b: Bytes)
    requires b != [] && b[0] >= 0x80
    ensures |b| < (if b[0] >= 0xE0 then 7 else if b[0] >= 0xA0 then 3 else 4) ==> GetDatagram(b) == Err(NotEnoughData)
    ensures b[0] < 0xA0 && |b| == 4 ==> GetDatagram(b).Ok? && GetDatagram(b).value.fragments == []
  {
    HighBits(b[0]);
  }

  lemma HighBits(n: byte)
    ensures IsValid(n) <==> n >= 0x80
    ensures n >= 0x80 ==> (IsAck(n) <==> n >= 0xC0)
    ensures n >= 0xC0 ==> (IsNak(n) <==> n >= 0xE0)
    ensures 0x80 <= n < 0xC0 ==> (IsNak(n) <==> n >= 0xA0)
  {
  }

  /** A range is marked 0 and read from its start up to its end, backwards as nothing; a mark
      above 1 is refused. */
  lemma AnyRange(b: Bytes)
    ensures var r := GetRange(b);
            && (b == [] ==> r == Err(NotEnoughData))
            && (b != [] && b[0] > 1 ==> r == Err(InvalidData))
            && (b != [] && b[0] == 1 ==> if |b| >= 4 then r == Ok(([Low3(b, 1)], b[4..])) else r == Err(NotEnoughData))
            && (b != [] && b[0] == 0 && |b| < 7 ==> r == Err(NotEnoughData))
            && (b != [] && b[0] == 0 && |b| >= 7 ==>
                  && r.Ok? && r.value.1 == b[7..]
                  && |r.value.0| == (if Low3(b, 1) <= Low3(b, 4) then Low3(b, 4) - Low3(b, 1) + 1 else 0)
                  && forall i :: 0 <= i < |r.value.0| ==> r.value.0[i] == Low3(b, 1) + i)
  {
    if b != [] {
      assert |b| >= 4 ==> b[1..][3..] == b[4..];
      assert |b| >= 7 ==> b[4..][3..] == b[7..];
      assert b[0] == 0 || b[0] == 1 || b[0] > 1;
    }
  }

  /** What is read as a fragment has the shape its first byte asks for. */
  lemma FragmentIsShaped(b: Bytes)
    ensures GetFragment(b).Ok? ==>
              && |b| >= 3 && |GetFragment(b).value.0.data| == High2(b, 1) / 8
              && GetFragment(b).value.0.reliability.ToU8() == b[0] / 32
              && (GetFragment(b).value.0.splitInfo.Some? <==> b[0] / 16 % 2 == 1)
              && GetFragment(b).value.0.Shaped() && GetFragment(b).value.0.Numbered()
  {
    hide GetU24, GetU32;
    if b != [] {
      AnyCode(b[0]);
    }
  }

  /** How many bytes come before the payload, told by the first byte. */
  function Preamble(flags: byte): nat {
    var code := flags / 32;
    3 + (if code in {2, 3, 4, 6, 7} then 3 else 0) + (if code in {1, 4} then 3 else 0)
    + (if code in {1, 3, 4, 7} then 4 else 0) + if flags / 16 % 2 == 1 then 10 else 0
  }

  /** Any bytes where a fragment is expected are one exactly if the fields the first byte
      announces are there, and after them as many bytes as the length says. Without the
      fields there is not enough data; without the bytes the data is invalid. */
  lemma AnyFragment(b: Bytes)
    requires b != []
    ensures var r, need := GetFragment(b), Preamble(b[0]);
            && (|b| < need ==> r == Err(NotEnoughData))
            && (need <= |b| < need + High2(b, 1) / 8 ==> r == Err(InvalidData))
            && (need <= |b| && need + High2(b, 1) / 8 <= |b| ==>
                  var end := need + High2(b, 1) / 8;
                  r.Ok? && r.value.0.data == b[need..end] && r.value.1 == b[end..])
  {
    hide GetFragment;
    var reliability := PreambleOf(b[0]);
    hide GetReliability, Preamble, Reliability.IsReliable, Reliability.IsSequenced, Reliability.IsOrdered;
    var end := AnyFields(b, reliability, b[0] / 16 % 2 != 0);
    if end <= |b| {
      var len := High2(b, 1) / 8;
      hide High2;
      assert end + len <= |b| ==> b[end..][..len] == b[end..end + len] && b[end..][len..] == b[end + len..];
    }
  }

  lemma PreambleOf(flags: byte) returns (r: Reliability)
    ensures GetReliability(flags) == Ok(r)
    ensures Preamble(flags) == 3 + (if r.IsReliable() then 3 else 0) + (if r.IsSequenced() then 3 else 0)
                               + (if r.IsSequenced() || r.IsOrdered() then 4 else 0) + if flags / 16 % 2 != 0 then 10 else 0
  {
    AnyCode(flags);
    r := Reliability.FromU8(flags / 32).value;
    Codes(r);
  }

  /** An optional number takes three bytes from position `n` on. */
  lemma AnyOption(present: bool, b: Bytes, n: nat, end: nat)
    requires n <= |b| && end == if present then n + 3 else n
    ensures if |b| < end then GetOption(present, b[n..]) == Err(NotEnoughData)
            else GetOption(present, b[n..]).Ok? && GetOption(present, b[n..]).value.1 == b[end..]
  {
    assert end <= |b| ==> b[n..][end - n..] == b[end..];
  }

  lemma AnyOrdering(present: bool, b: Bytes, n: nat, end: nat)
    requires n <= |b| && end == if present then n + 4 else n
    ensures if |b| < end then GetOrdering(present, b[n..]) == Err(NotEnoughData)
            else GetOrdering(present, b[n..]).Ok? && GetOrdering(present, b[n..]).value.1 == b[end..]
  {
    assert present && end <= |b| ==> b[n..][3..][1..] == b[end..];
  }

  lemma AnySplit(present: bool, b: Bytes, n: nat, end: nat)
    requires n <= |b| && end == if present then n + 10 else n
    ensures if |b| < end then GetSplit(present, b[n..]) == Err(NotEnoughData)
            else GetSplit(present, b[n..]).Ok? && GetSplit(present, b[n..]).value.1 == b[end..]
  {
    assert present && end <= |b| ==> b[n..][4..][2..][4..] == b[end..];
  }

  lemma AnyFields(b: Bytes, reliability: Reliability, split: bool) returns (end: nat)
    requires b != [] && GetReliability(b[0]) == Ok(reliability) && split == (b[0] / 16 % 2 != 0)
    ensures end == 3 + (if reliability.IsReliable() then 3 else 0) + (if reliability.IsSequenced() then 3 else 0)
                   + (if reliability.IsSequenced() || reliability.IsOrdered() then 4 else 0) + if split then 10 else 0
    ensures |b| < end ==> GetFragment(b) == Err(NotEnoughData)
    ensures 3 <= end <= |b| ==>
              var (r, data) := (GetFragment(b), GetData(High2(b, 1) / 8, b[end..]));
              if data.Err? then r == Err(data.error)
              else r.Ok? && r.value.0.data == data.value.0 && r.value.1 == data.value.1
  {
    hide GetOption, GetOrdering, GetSplit, GetData, GetReliability, Reliability.IsReliable, Reliability.IsSequenced, Reliability.IsOrdered;
    var reliable, sequenced := reliability.IsReliable(), reliability.IsSequenced();
    var onChannel := sequenced || reliability.IsOrdered();
    var n1 := if reliable then 6 else 3;
    var n2 := if sequenced then n1 + 3 else n1;
    var n3 := if onChannel then n2 + 4 else n2;
    end := if split then n3 + 10 else n3;
    if |b| < 3 {
      return;
    }
    assert b[1..][2..] == b[3..] && GetU16(b[1..]) == Ok((High2(b, 1), b[3..]));
    hide GetU16, High2;
    AnyOption(reliable, b, 3, n1);
    if |b| < n1 {
      return;
    }
    AnyOption(sequenced, b, n1, n2);
    if |b| < n2 {
      return;
    }
    AnyOrdering(onChannel, b, n2, n3);
    if |b| < n3 {
      return;
    }
    AnySplit(split, b, n3, end);
  }

  lemma AnyCode(n: byte)
    ensures Reliability.FromU8(n / 32).Some? && Reliability.FromU8(n / 32).value.ToU8() == n / 32
  {
    assert n / 32 < 8;
  }

  // ---- lists ----

  /** Fragments in a row are read one after another. */
  lemma {:induction false} FragmentsThen(fs: seq<Fragment>, b: Bytes)
    requires FragmentsFit(fs) && forall f <- fs :: f.Shaped() && f.Numbered()
    ensures GetFragments(PutFragments(fs) + b) ==
            match GetFragments(b) case Ok(gs) => Ok(fs + gs) case Err(error) => Err(error)
  {
    hide GetFragment, PutFragment, InRange;
    if fs == [] {
      assert PutFragments(fs) + b == b;
      assert GetFragments(b).Ok? ==> fs + GetFragments(b).value == GetFragments(b).value;
    } else {
      var f, more, rest := fs[0], fs[1..], PutFragments(fs[1..]) + b;
      assert f in fs && forall g <- more :: g in fs;
      FragmentLength(f);
      FragmentRoundTripIff(f, rest);
      assert PutFragments(fs) + b == PutFragment(f) + rest;
      FragmentsThen(more, b);
      assert GetFragments(b).Ok? ==> [f] + (more + GetFragments(b).value) == fs + GetFragments(b).value;
    }
  }

  /** One bad fragment spoils the whole packet, however many good ones come before it. */
  lemma BadFragmentSpoils(d: Datagram, b: Bytes)
    requires d.Packet? && WellFormed(d) && Fits(d) && b != [] && GetFragment(b).Err?
    ensures GetDatagram(PutDatagram(d) + b) == Err(GetFragment(b).error)
  {
    hide GetFragment, PutFragment, InRange, PutFragments;
    var flags := PacketFlags(d.isPacketPair, d.isContinuousSend, d.needsArrivalRate);
    PacketFlagKind(d.isPacketPair, d.isContinuousSend, d.needsArrivalRate);
    var rest := PutFragments(d.fragments) + b;
    assert PutDatagram(d) + b == [flags] + (U24(d.seqNumber) + rest);
    GetFlags(flags, U24(d.seqNumber) + rest);
    GetPutU24(d.seqNumber, rest);
    FragmentsThen(d.fragments, b);
    assert GetFragments(b) == Err(GetFragment(b).error);
  }

  /** Ranges in a row are read one after another, and one bad range spoils the list. */
  lemma {:induction false} RangesInTwo(n: nat, m: nat, b: Bytes)
    ensures GetRanges(0, b) == Ok(([], b))
    ensures GetRanges(1, b) == GetRange(b)
    ensures GetRanges(n + m, b) ==
            match GetRanges(n, b)
            case Err(error) => Err(error)
            case Ok((seqs, rest)) =>
              match GetRanges(m, rest) case Err(error) => Err(error) case Ok((more, rest)) => Ok((seqs + more, rest))
  {
    hide GetRange;
    var first := GetRange(b);
    assert first.Ok? ==> first.value.0 + [] == first.value.0;
    if n == 0 {
      assert GetRanges(m, b).Ok? ==> [] + GetRanges(m, b).value.0 == GetRanges(m, b).value.0;
    } else if first.Ok? {
      var (seqs, rest) := first.value;
      RangesInTwo(n - 1, m, rest);
      if GetRanges(n - 1, rest).Ok? {
        var (others, last) := GetRanges(n - 1, rest).value;
        assert GetRanges(m, last).Ok? ==>
            seqs + (others + GetRanges(m, last).value.0) == (seqs + others) + GetRanges(m, last).value.0;
      }
    }
  }

  /** What follows the ranges of an acknowledgement or a nak is not looked at. */
  lemma TheRestIsIgnored(b: Bytes, rest: Bytes)
    requires GetDatagram(b).Ok? && !GetDatagram(b).value.Packet?
    ensures GetDatagram(b + rest) == GetDatagram(b)
  {
    hide GetSeqs;
    var flags, list := b[0], if IsAck(b[0]) && IsNak(b[0]) then b[5..] else b[1..];
    assert (b + rest)[0] == flags && (b + rest)[1..] == b[1..] + rest;
    if IsAck(flags) && IsNak(flags) {
      assert (b[1..] + rest)[..4] == b[1..][..4] && (b[1..] + rest)[4..] == list + rest && b[1..][4..] == list;
    }
    SeqsThen(list, rest);
  }

  lemma SeqsThen(b: Bytes, rest: Bytes)
    requires GetSeqs(b).Ok?
    ensures GetSeqs(b + rest) == Ok((GetSeqs(b).value.0, GetSeqs(b).value.1 + rest))
  {
    hide GetRanges;
    assert (b + rest)[2..] == b[2..] + rest;
    RangesThen(GetU16(b).value.0, b[2..], rest);
  }

  lemma {:induction false} RangesThen(count: nat, b: Bytes, rest: Bytes)
    requires GetRanges(count, b).Ok?
    ensures GetRanges(count, b + rest) == Ok((GetRanges(count, b).value.0, GetRanges(count, b).value.1 + rest))
  {
    hide GetRange;
    if count > 0 {
      RangeThen(b, rest);
      RangesThen(count - 1, GetRange(b).value.1, rest);
    }
  }

  lemma RangeThen(b: Bytes, rest: Bytes)
    requires GetRange(b).Ok?
    ensures GetRange(b + rest) == Ok((GetRange(b).value.0, GetRange(b).value.1 + rest))
  {
    hide ExpandOne;
    assert (b + rest)[1..] == b[1..] + rest;
    assert (b[1..] + rest)[3..] == b[1..][3..] + rest;
    if b[0] == 0 {
      assert (b[1..][3..] + rest)[3..] == b[1..][3..][3..] + rest;
    }
  }
}
