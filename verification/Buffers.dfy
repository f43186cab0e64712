/** The writers and readers of src/proto/bytes.rs: a buffer that is appended to, and
    one that is consumed from the front. */
module Buffers {
  import opened Basics
  import opened Datagrams
  import opened SeqRanges
  import Codec

  class BytesMut {
    var data: Bytes

    constructor ()
      ensures data == []
    {
      data := [];
    }

    method PutU8(n: byte)
      modifies this
      ensures data == old(data) + [n]
    {
      data := data + [n];
    }

    method PutSlice(bytes: Bytes)
      modifies this
      ensures data == old(data) + bytes
    {
      data := data + bytes;
    }

    method PutU16(n: nat)
      modifies this
      ensures data == old(data) + Codec.U16(n)
    {
      data := data + Codec.U16(n);
    }

    method PutU24Le(n: nat)
      modifies this
      ensures data == old(data) + Codec.U24(n)
    {
      data := data + Codec.U24(n);
    }

    method PutU32(n: nat)
      modifies this
      ensures data == old(data) + Codec.U32(n)
    {
      data := data + Codec.U32(n);
    }

    /** Writes the list and leaves it sorted. The first element is read unconditionally. */
    method PutSeqs(seqs: seq<nat>) returns (sorted: seq<nat>)
      requires seqs != []
      modifies this
      ensures data == old(data) + Codec.PutSeqs(seqs) && sorted == Sort(seqs)
    {
      sorted := Sort(seqs);
      SortSorts(seqs);
      var ranges: seq<(nat, nat)> := [];
      var start, end := sorted[0], sorted[0];
      for i := 1 to |sorted|
        invariant ranges + RangesFrom(start, end, sorted[i..]) == Ranges(sorted)
      {
        var s := sorted[i];
        assert sorted[i..][0] == s && sorted[i..][1..] == sorted[i + 1..];
        if s == end + 1 {
          end := s;
        } else {
          ghost var rest := RangesFrom(s, s, sorted[i + 1..]);
          assert ranges + ([(start, end)] + rest) == (ranges + [(start, end)]) + rest;
          ranges := ranges + [(start, end)];
          start := s;
          end := s;
        }
      }
      ranges := ranges + [(start, end)];
      assert ranges == Ranges(sorted);

      PutU16(|ranges|);
      ghost var head := data;
      for i := 0 to |ranges|
        invariant data + Codec.PutRanges(ranges[i..]) == head + Codec.PutRanges(ranges)
      {
        assert ranges[i..][0] == ranges[i] && ranges[i..][1..] == ranges[i + 1..];
        ghost var before := data;
        PutRange(ranges[i]);
        Codec.Assoc(before, Codec.PutRange(ranges[i]), Codec.PutRanges(ranges[i + 1..]));
      }
      Codec.Assoc(old(data), Codec.U16(|ranges|), Codec.PutRanges(ranges));
    }

    method PutRange(range: (nat, nat))
      modifies this
      ensures data == old(data) + Codec.PutRange(range)
    {
      if range.0 == range.1 {
        PutU8(1);
        PutU24Le(range.0);
      } else {
        PutU8(0);
        PutU24Le(range.0);
        PutU24Le(range.1);
      }
    }

    method PutFragment(f: Fragment)
      modifies this
      ensures data == old(data) + Codec.PutFragment(f)
    {
      PutU8(Codec.Flags(f));
      PutU16(|f.data| * 8);
      PutIndices(f);
      PutSplit(f.splitInfo);
      PutSlice(f.data);
      FragmentAppended(old(data), f);
    }

    method PutSplit(info: Option<SplitInfo>)
      modifies this
      ensures data == old(data) + Codec.PutSplit(info)
    {
      if info.Some? {
        PutU32(info.value.size);
        PutU16(info.value.id);
        PutU32(info.value.index);
      }
    }

    method PutIndices(f: Fragment)
      modifies this
      ensures data == old(data) + Codec.PutOption(f.reliableIndex) + Codec.PutOption(f.sequenceIndex) + Codec.PutOrdering(f.orderingInfo)
    {
      if f.reliableIndex.Some? {
        PutU24Le(f.reliableIndex.value);
      }
      if f.sequenceIndex.Some? {
        PutU24Le(f.sequenceIndex.value);
      }
      if f.orderingInfo.Some? {
        PutU24Le(f.orderingInfo.value.index);
        PutU8(f.orderingInfo.value.channel);
      }
    }

    /** Writes a datagram; its list of sequence numbers, if any, is left sorted. */
    method PutDatagram(d: Datagram) returns (d': Datagram)
      requires !d.Packet? ==> d.seqs != []
      modifies this
      ensures data == old(data) + Codec.PutDatagram(d) && d' == Codec.Arranged(d)
    {
      match d {
        case Ack(rate, seqs) =>
          var sorted := PutAck(rate, seqs);
          d' := Ack(rate, sorted);
        case Nak(seqs) =>
          PutU8(0x80 + 0x20);
          var sorted := PutSeqs(seqs);
          d' := Nak(sorted);
          Codec.Assoc(old(data), [0x80 + 0x20], Codec.PutSeqs(seqs));
        case Packet(pair, continuous, needsRate, seqNumber, fragments) =>
          PutU8(Codec.PacketFlags(pair, continuous, needsRate));
          PutU24Le(seqNumber);
          PutFragments(fragments);
          d' := d;
          ThreeAppended(old(data), [Codec.PacketFlags(pair, continuous, needsRate)], Codec.U24(seqNumber), Codec.PutFragments(fragments));
      }
    }

    method PutAck(rate: Option<Bytes>, seqs: seq<nat>) returns (sorted: seq<nat>)
      requires seqs != []
      modifies this
      ensures data == old(data) + Codec.PutDatagram(Ack(rate, seqs)) && sorted == Sort(seqs)
    {
      if rate.Some? {
        PutU8(0x80 + 0x40 + 0x20);
        PutSlice(rate.value);
        sorted := PutSeqs(seqs);
        ThreeAppended(old(data), [0x80 + 0x40 + 0x20], rate.value, Codec.PutSeqs(seqs));
      } else {
        PutU8(0x80 + 0x40);
        sorted := PutSeqs(seqs);
        Codec.Assoc(old(data), [0x80 + 0x40], Codec.PutSeqs(seqs));
      }
    }

    method PutFragments(fragments: seq<Fragment>)
      modifies this
      ensures data == old(data) + Codec.PutFragments(fragments)
    {
      for i := 0 to |fragments|
        invariant data + Codec.PutFragments(fragments[i..]) == old(data) + Codec.PutFragments(fragments)
      {
        assert fragments[i..][0] == fragments[i] && fragments[i..][1..] == fragments[i + 1..];
        ghost var before := data;
        PutFragment(fragments[i]);
        Codec.Assoc(before, Codec.PutFragment(fragments[i]), Codec.PutFragments(fragments[i + 1..]));
      }
    }
  }

  lemma ThreeAppended(before: Bytes, a: Bytes, b: Bytes, c: Bytes)
    ensures before + a + b + c == before + (a + b + c)
  {
    Codec.Assoc(before, a, b);
    Codec.Assoc(before, a + b, c);
  }

  lemma FragmentAppended(before: Bytes, f: Fragment)
    ensures before + [Codec.Flags(f)] + Codec.U16(|f.data| * 8) + Codec.PutOption(f.reliableIndex) + Codec.PutOption(f.sequenceIndex)
            + Codec.PutOrdering(f.orderingInfo) + Codec.PutSplit(f.splitInfo) + f.data == before + Codec.PutFragment(f)
  {
    var a1 := [Codec.Flags(f)] + Codec.U16(|f.data| * 8);
    var a2 := a1 + Codec.PutOption(f.reliableIndex);
    var a3 := a2 + Codec.PutOption(f.sequenceIndex);
    var a4 := a3 + Codec.PutOrdering(f.orderingInfo);
    Codec.Assoc(before, [Codec.Flags(f)], Codec.U16(|f.data| * 8));
    Codec.Assoc(before, a1, Codec.PutOption(f.reliableIndex));
    Codec.Assoc(before, a2, Codec.PutOption(f.sequenceIndex));
    Codec.Assoc(before, a3, Codec.PutOrdering(f.orderingInfo));
    Codec.Assoc(before, a4, Codec.PutSplit(f.splitInfo));
    Codec.Assoc(before, a4 + Codec.PutSplit(f.splitInfo), f.data);
  }

  lemma FragmentsStep(b: Bytes, f: Fragment, b': Bytes)
    requires b != [] && Codec.GetFragment(b) == Ok((f, b'))
    ensures Codec.GetFragments(b) ==
            match Codec.GetFragments(b')
            case Ok(fs) => Ok([f] + fs)
            case Err(error) => Err(error)
  {
  }

  /** `r` and the bytes left are what the specification reads from `before`. */
  ghost predicate Reads<T(!new)>(spec: Codec.Parsed<T>, r: Result<T>, left: Bytes) {
    match spec
    case Ok((value, rest)) => r == Ok(value) && left == rest
    case Err(error) => r == Err(error)
  }

  class BytesReader {
    var data: Bytes

    constructor (bytes: Bytes)
      ensures data == bytes
    {
      data := bytes;
    }

    method TryGetU8() returns (r: Result<byte>)
      modifies this
      ensures Reads(Codec.GetU8(old(data)), r, data)
    {
      if data == [] {
        return Err(NotEnoughData);
      }
      r := Ok(data[0]);
      data := data[1..];
    }

    method TryGetU16() returns (r: Result<nat>)
      modifies this
      ensures Reads(Codec.GetU16(old(data)), r, data)
    {
      if |data| < 2 {
        return Err(NotEnoughData);
      }
      r := Ok((data[0] as nat) * 256 + data[1]);
      data := data[2..];
    }

    method TryGetU24Le() returns (r: Result<nat>)
      modifies this
      ensures Reads(Codec.GetU24(old(data)), r, data)
    {
      if |data| < 3 {
        return Err(NotEnoughData);
      }
      r := Ok(Codec.FromDigits(data[0], data[1], data[2]));
      data := data[3..];
    }

    method TryGetU32() returns (r: Result<nat>)
      modifies this
      ensures Reads(Codec.GetU32(old(data)), r, data)
    {
      if |data| < 4 {
        return Err(NotEnoughData);
      }
      r := Ok((data[0] as nat) * 0x100_0000 + Codec.FromDigits(data[3], data[2], data[1]));
      data := data[4..];
    }

    method SplitTo(n: nat) returns (bytes: Bytes)
      requires n <= |data|
      modifies this
      ensures bytes == old(data)[..n] && data == old(data)[n..]
    {
      bytes := data[..n];
      data := data[n..];
    }

    method TryGetRange() returns (r: Result<seq<nat>>)
      modifies this
      ensures Reads(Codec.GetRange(old(data)), r, data)
    {
      var tag :- TryGetU8();
      match tag {
        case 0 =>
          var start :- TryGetU24Le();
          var end :- TryGetU24Le();
          r := Ok(ExpandOne((start, end)));
        case 1 =>
          var n :- TryGetU24Le();
          r := Ok([n]);
        case _ =>
          r := Err(InvalidData);
      }
    }

    method TryGetSeqs() returns (r: Result<seq<nat>>)
      modifies this
      ensures Reads(Codec.GetSeqs(old(data)), r, data)
    {
      var size :- TryGetU16();
      var seqs: seq<nat> := [];
      ghost var body := data;
      assert Codec.GetRanges(size, body).Ok? ==> seqs + Codec.GetRanges(size, body).value.0 == Codec.GetRanges(size, body).value.0;
      for i := 0 to size
        invariant match Codec.GetRanges(size - i, data)
                  case Ok((rest, left)) => Codec.GetRanges(size, body) == Ok((seqs + rest, left))
                  case Err(error) => Codec.GetRanges(size, body) == Err(error)
      {
        ghost var before := data;
        var range := TryGetRange();
        if range.Err? {
          return Err(range.error);
        }
        assert Codec.GetRange(before) == Ok((range.value, data));
        ghost var others := Codec.GetRanges(size - i - 1, data);
        if others.Ok? {
          assert seqs + (range.value + others.value.0) == (seqs + range.value) + others.value.0;
        }
        seqs := seqs + range.value;
      }
      assert seqs + [] == seqs;
      return Ok(seqs);
    }

    method TryGetIndices(reliability: Reliability) returns (r: Result<(Option<nat>, Option<nat>, Option<OrderingInfo>)>)
      modifies this
      ensures Reads(GetIndices(reliability, old(data)), r, data)
    {
      var reliableIndex: Option<nat> := None;
      if reliability.IsReliable() {
        var n :- TryGetU24Le();
        reliableIndex := Some(n);
      }
      var sequenceIndex: Option<nat> := None;
      if reliability.IsSequenced() {
        var n :- TryGetU24Le();
        sequenceIndex := Some(n);
      }
      var orderingInfo: Option<OrderingInfo> := None;
      if reliability.IsSequenced() || reliability.IsOrdered() {
        var index :- TryGetU24Le();
        var channel :- TryGetU8();
        orderingInfo := Some(OrderingInfo(index, channel));
      }
      return Ok((reliableIndex, sequenceIndex, orderingInfo));
    }

    method TryGetSplit(isSplit: bool) returns (r: Result<Option<SplitInfo>>)
      modifies this
      ensures Reads(Codec.GetSplit(isSplit, old(data)), r, data)
    {
      if !isSplit {
        return Ok(None);
      }
      var size :- TryGetU32();
      var id :- TryGetU16();
      var index :- TryGetU32();
      return Ok(Some(SplitInfo(size, id, index)));
    }

    method TryGetFragment() returns (r: Result<Fragment>)
      modifies this
      ensures Reads(Codec.GetFragment(old(data)), r, data)
    {
      var flags :- TryGetU8();
      var reliability :- Codec.GetReliability(flags);
      var bits :- TryGetU16();
      var len := bits / 8;
      var indices :- TryGetIndices(reliability);
      var splitInfo :- TryGetSplit(flags / 16 % 2 != 0);
      if |data| < len {
        return Err(InvalidData);
      }
      var payload := SplitTo(len);
      return Ok(Fragment(reliability, indices.0, indices.1, indices.2, splitInfo, payload));
    }

    method TryGetFragments() returns (r: Result<seq<Fragment>>)
      modifies this
      ensures r == Codec.GetFragments(old(data))
    {
      var fragments: seq<Fragment> := [];
      while data != []
        invariant Continues(Codec.GetFragments(old(data)), fragments, Codec.GetFragments(data))
        decreases |data|
      {
        ghost var before := data;
        var fragment := TryGetFragment();
        if fragment.Err? {
          return Err(fragment.error);
        }
        FragmentsStep(before, fragment.value, data);
        fragments := fragments + [fragment.value];
      }
      assert fragments + [] == fragments;
      return Ok(fragments);
    }

    method TryGetDatagram() returns (r: Result<Datagram>)
      modifies this
      ensures r == Codec.GetDatagram(old(data))
    {
      var flags :- TryGetU8();
      if !Codec.IsValid(flags) {
        return Err(InvalidData);
      }
      if Codec.IsAck(flags) {
        var rate: Option<Bytes> := None;
        if Codec.IsNak(flags) {
          if |data| < 4 {
            return Err(NotEnoughData);
          }
          var bytes := SplitTo(4);
          rate := Some(bytes);
        }
        var seqs :- TryGetSeqs();
        return Ok(Ack(rate, seqs));
      }
      if Codec.IsNak(flags) {
        var seqs :- TryGetSeqs();
        return Ok(Nak(seqs));
      }
      var seqNumber :- TryGetU24Le();
      var fragments :- TryGetFragments();
      return Ok(Packet(Codec.IsPacketPair(flags), Codec.IsContinuousSend(flags), Codec.NeedsArrivalRate(flags),
                       seqNumber, fragments));
    }
  }

  /** What is read in all, when `done` has been read and `rest` is what is left to read. */
  ghost predicate Continues(all: Result<seq<Fragment>>, done: seq<Fragment>, rest: Result<seq<Fragment>>) {
    match rest
    case Ok(fs) => all.Ok? && all.value == done + fs
    case Err(error) => all == Err(error)
  }

  /** The index fields of a fragment, as `Codec.GetFragment` reads them. */
  function GetIndices(reliability: Reliability, b: Bytes): Codec.Parsed<(Option<nat>, Option<nat>, Option<OrderingInfo>)> {
    var (reliableIndex, b) :- Codec.GetOption(reliability.IsReliable(), b);
    var (sequenceIndex, b) :- Codec.GetOption(reliability.IsSequenced(), b);
    var (orderingInfo, b) :- Codec.GetOrdering(reliability.IsSequenced() || reliability.IsOrdered(), b);
    Ok(((reliableIndex, sequenceIndex, orderingInfo), b))
  }
}
