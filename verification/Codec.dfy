/** The byte form of datagrams (src/proto/bytes.rs): what the writers append, what
    the readers take, and that the second undoes the first. */
module Codec {
  import opened Basics
  import opened Datagrams
  import opened Rings
  import opened SeqRanges

  const U16_SIZE: nat := 0x1_0000
  const U24_SIZE: nat := 0x100_0000
  const U32_SIZE: nat := 0x1_0000_0000

  /** Payload lengths are sent in bits, in two bytes. */
  const MAX_PAYLOAD: nat := 8192

  /** A value read, and the bytes left. */
  type Parsed<T> = Result<(T, Bytes)>

  // ---- numbers ----

  function U16(n: nat): (b: Bytes)
    ensures |b| == 2
  {
    [n / 256 % 256, n % 256]
  }

  /** Little endian; the high bits are cut off. */
  function U24(n: nat): (b: Bytes)
    ensures |b| == 3
  {
    [n % 256, n / 256 % 256, n / 256 / 256 % 256]
  }

  function U32(n: nat): (b: Bytes)
    ensures |b| == 4
  {
    [n / 256 / 256 / 256 % 256, n / 256 / 256 % 256, n / 256 % 256, n % 256]
  }

  function FromDigits(d0: nat, d1: nat, d2: nat): nat {
    d0 + d1 * 256 + d2 * 0x1_0000
  }

  function GetU8(b: Bytes): (r: Parsed<byte>)
    ensures r.Ok? ==> |r.value.1| < |b|
  {
    if b == [] then Err(NotEnoughData) else Ok((b[0], b[1..]))
  }

  function GetU16(b: Bytes): (r: Parsed<nat>)
    ensures r.Ok? ==> |r.value.1| < |b|
  {
    if |b| < 2 then Err(NotEnoughData) else Ok(((b[0] as nat) * 256 + b[1], b[2..]))
  }

  function GetU24(b: Bytes): (r: Parsed<nat>)
    ensures r.Ok? ==> |r.value.1| < |b|
  {
    if |b| < 3 then Err(NotEnoughData) else Ok((FromDigits(b[0], b[1], b[2]), b[3..]))
  }

  function GetU32(b: Bytes): (r: Parsed<nat>)
    ensures r.Ok? ==> |r.value.1| < |b|
  {
    if |b| < 4 then
      Err(NotEnoughData)
    else
      Ok(((b[0] as nat) * 0x100_0000 + FromDigits(b[3], b[2], b[1]), b[4..]))
  }

  lemma Digits24(n: nat)
    ensures FromDigits(n % 256, n / 256 % 256, n / 256 / 256 % 256) == n % U24_SIZE
  {
    var n1 := n / 256;
    var n2 := n1 / 256;
    var d := FromDigits(n % 256, n1 % 256, n2 % 256);
    assert n == 256 * n1 + n % 256 && n1 == 256 * n2 + n1 % 256 && n2 == 256 * (n2 / 256) + n2 % 256;
    ModOf(n, U24_SIZE, n2 / 256, d);
  }

  lemma Digits32(n: nat)
    ensures n / 256 / 256 / 256 % 256 * 0x100_0000 + n % U24_SIZE == n % U32_SIZE
  {
    var n1 := n / 256;
    var n2 := n1 / 256;
    var n3 := n2 / 256;
    assert n == 256 * n1 + n % 256 && n1 == 256 * n2 + n1 % 256 && n2 == 256 * n3 + n2 % 256;
    var d := FromDigits(n % 256, n1 % 256, n2 % 256);
    ModOf(n, U24_SIZE, n3, d);
    assert n3 == 256 * (n3 / 256) + n3 % 256;
    ModOf(n, U32_SIZE, n3 / 256, n3 % 256 * 0x100_0000 + d);
  }

  lemma GetPutU16(n: nat, rest: Bytes)
    ensures GetU16(U16(n) + rest) == Ok((n % U16_SIZE, rest))
  {
    assert n / 256 % 256 * 256 + n % 256 == n % U16_SIZE;
    assert (U16(n) + rest)[2..] == rest;
  }

  lemma GetPutU24(n: nat, rest: Bytes)
    ensures GetU24(U24(n) + rest) == Ok((n % U24_SIZE, rest))
  {
    Digits24(n);
    assert (U24(n) + rest)[3..] == rest;
  }

  lemma GetPutU32(n: nat, rest: Bytes)
    ensures GetU32(U32(n) + rest) == Ok((n % U32_SIZE, rest))
  {
    Digits24(n);
    Digits32(n);
    assert (U32(n) + rest)[4..] == rest;
  }

  lemma CutIff(n: nat, size: nat)
    requires size > 0
    ensures n % size <= n
    ensures n % size == n <==> n < size
  {
  }

  lemma Assoc(a: Bytes, b: Bytes, c: Bytes)
    ensures a + b + c == a + (b + c)
  {
  }

  // ---- lists of sequence numbers ----

  function PutRange(range: (nat, nat)): Bytes {
    if range.0 == range.1 then [1] + U24(range.0) else [0] + (U24(range.0) + U24(range.1))
  }

  function PutRanges(ranges: seq<(nat, nat)>): Bytes {
    if ranges == [] then [] else PutRange(ranges[0]) + PutRanges(ranges[1..])
  }

  function PutSeqs(seqs: seq<nat>): Bytes
    requires seqs != []
  {
    var ranges := Ranges(Sort(seqs));
    U16(|ranges|) + PutRanges(ranges)
  }

  function GetRange(b: Bytes): Parsed<seq<nat>> {
    var (tag, b) :- GetU8(b);
    match tag
    case 0 =>
      var (start, b) :- GetU24(b);
      var (end, b) :- GetU24(b);
      Ok((ExpandOne((start, end)), b))
    case 1 =>
      var (n, b) :- GetU24(b);
      Ok(([n], b))
    case _ => Err(InvalidData)
  }

  function GetRanges(count: nat, b: Bytes): Parsed<seq<nat>> {
    if count == 0 then
      Ok(([], b))
    else
      var (first, b) :- GetRange(b);
      var (others, b) :- GetRanges(count - 1, b);
      Ok((first + others, b))
  }

  function GetSeqs(b: Bytes): Parsed<seq<nat>> {
    var (count, b) :- GetU16(b);
    GetRanges(count, b)
  }

  predicate Below(s: seq<nat>, bound: nat) {
    forall i :: 0 <= i < |s| ==> s[i] < bound
  }

  predicate RangesFit(ranges: seq<(nat, nat)>) {
    forall r <- ranges :: r.0 < U24_SIZE && r.1 < U24_SIZE
  }

  lemma GetPutRange(range: (nat, nat), rest: Bytes)
    requires range.0 <= range.1 < U24_SIZE
    ensures GetRange(PutRange(range) + rest) == Ok((ExpandOne(range), rest))
  {
    CutIff(range.0, U24_SIZE);
    CutIff(range.1, U24_SIZE);
    if range.0 == range.1 {
      assert ExpandOne(range) == [range.0];
      assert (PutRange(range) + rest)[1..] == U24(range.0) + rest;
      GetPutU24(range.0, rest);
    } else {
      assert (PutRange(range) + rest)[1..] == U24(range.0) + (U24(range.1) + rest);
      GetPutU24(range.0, U24(range.1) + rest);
      GetPutU24(range.1, rest);
    }
  }

  lemma GetRangesStep(count: nat, b: Bytes, first: seq<nat>, b': Bytes, others: seq<nat>, b'': Bytes)
    requires count > 0 && GetRange(b) == Ok((first, b')) && GetRanges(count - 1, b') == Ok((others, b''))
    ensures GetRanges(count, b) == Ok((first + others, b''))
  {
  }

  lemma {:induction false} GetPutRanges(count: nat, ranges: seq<(nat, nat)>, rest: Bytes)
    requires count <= |ranges| && RangesFit(ranges) && forall r <- ranges :: r.0 <= r.1
    ensures GetRanges(count, PutRanges(ranges) + rest) == Ok((Expand(ranges[..count]), PutRanges(ranges[count..]) + rest))
  {
    if count == 0 {
      assert ranges[0..] == ranges;
    } else {
      var tail := ranges[1..];
      var b := PutRanges(tail) + rest;
      Assoc(PutRange(ranges[0]), PutRanges(tail), rest);
      TakeTail(ranges, count);
      GetPutRanges(count - 1, tail, rest);
      assert ranges[0] in ranges;
      GetPutRange(ranges[0], b);
      GetRangesStep(count, PutRange(ranges[0]) + b, ExpandOne(ranges[0]), b,
                    Expand(tail[..count - 1]), PutRanges(tail[count - 1..]) + rest);
    }
  }

  lemma {:induction false} RangesOrdered(start: nat, end: nat, rest: seq<nat>)
    requires start <= end < U24_SIZE && Below(rest, U24_SIZE)
    ensures RangesFit(RangesFrom(start, end, rest))
    ensures forall r <- RangesFrom(start, end, rest) :: r.0 <= r.1
    decreases |rest|
  {
    if rest != [] {
      RangesOrdered(if rest[0] == end + 1 then start else rest[0], rest[0], rest[1..]);
    }
  }

  lemma {:induction false} ExpandLonger(ranges: seq<(nat, nat)>, count: nat)
    requires count < |ranges| && forall r <- ranges :: r.0 <= r.1
    ensures |Expand(ranges[..count])| < |Expand(ranges)|
  {
    assert ranges[0] in ranges;
    if count > 0 {
      ExpandLonger(ranges[1..], count - 1);
      assert ranges[..count][1..] == ranges[1..][..count - 1];
    }
  }

  lemma SortedRanges(seqs: seq<nat>)
    requires seqs != [] && Below(seqs, U24_SIZE)
    ensures var ranges := Ranges(Sort(seqs));
            Expand(ranges) == Sort(seqs) && RangesFit(ranges) && forall r <- ranges :: r.0 <= r.1
  {
    var sorted := Sort(seqs);
    SortSorts(seqs);
    forall i | 0 <= i < |sorted|
      ensures sorted[i] < U24_SIZE
    {
      assert sorted[i] in multiset(sorted);
      assert sorted[i] in seqs;
    }
    RangesOrdered(sorted[0], sorted[0], sorted[1..]);
    ExpandRanges(sorted);
  }

  lemma GetPutCounted(ranges: seq<(nat, nat)>, rest: Bytes)
    requires RangesFit(ranges) && forall r <- ranges :: r.0 <= r.1
    ensures var count := |ranges| % U16_SIZE;
            count <= |ranges| && GetSeqs(U16(|ranges|) + PutRanges(ranges) + rest) ==
            Ok((Expand(ranges[..count]), PutRanges(ranges[count..]) + rest))
  {
    assert U16(|ranges|) + PutRanges(ranges) + rest == U16(|ranges|) + (PutRanges(ranges) + rest);
    CutIff(|ranges|, U16_SIZE);
    GetPutU16(|ranges|, PutRanges(ranges) + rest);
    GetPutRanges(|ranges| % U16_SIZE, ranges, rest);
  }

  /** Reading back a list gives its sorted permutation, repeats kept, exactly when
      its ranges can be counted in 16 bits. */
  lemma SeqsRoundTripIff(seqs: seq<nat>, rest: Bytes)
    requires seqs != [] && Below(seqs, U24_SIZE)
    ensures GetSeqs(PutSeqs(seqs) + rest) == Ok((Sort(seqs), rest)) <==> |Ranges(Sort(seqs))| < U16_SIZE
  {
    var ranges := Ranges(Sort(seqs));
    SortedRanges(seqs);
    CutIff(|ranges|, U16_SIZE);
    GetPutCounted(ranges, rest);
    var count := |ranges| % U16_SIZE;
    if count < |ranges| {
      ExpandLonger(ranges, count);
    } else {
      assert ranges[..count] == ranges && ranges[count..] == [];
      assert [] + rest == rest;
    }
  }

  lemma GetRangeBelow(b: Bytes)
    ensures GetRange(b).Ok? ==> Below(GetRange(b).value.0, U24_SIZE)
  {
  }

  lemma {:induction false} GetRangesBelow(count: nat, b: Bytes)
    ensures GetRanges(count, b).Ok? ==> Below(GetRanges(count, b).value.0, U24_SIZE)
  {
    if count > 0 {
      GetRangeBelow(b);
      if GetRange(b).Ok? {
        GetRangesBelow(count - 1, GetRange(b).value.1);
      }
    }
  }

  /** The list read back is the sorted one exactly if its numbers fit 24 bits and its
      ranges can be counted in 16. */
  lemma SeqsReadBackIff(seqs: seq<nat>)
    requires seqs != []
    ensures var r := GetSeqs(PutSeqs(seqs)); r.Ok? && r.value.0 == Sort(seqs) <==> SeqsFit(seqs)
  {
    hide Sort, RangesFrom, PutRanges, Expand, GetRanges;
    var sorted := Sort(seqs);
    SortSorts(seqs);
    if Below(seqs, U24_SIZE) {
      SortedRanges(seqs);
      var ranges := Ranges(sorted);
      GetPutCounted(ranges, []);
      assert PutSeqs(seqs) + [] == PutSeqs(seqs);
      CutIff(|ranges|, U16_SIZE);
      var count := |ranges| % U16_SIZE;
      if count < |ranges| {
        ExpandLonger(ranges, count);
      } else {
        assert ranges[..count] == ranges;
      }
    } else {
      var i :| 0 <= i < |seqs| && seqs[i] >= U24_SIZE;
      assert seqs[i] in multiset(sorted);
      var j :| 0 <= j < |sorted| && sorted[j] == seqs[i];
      GetRangesBelow(|Ranges(sorted)| % U16_SIZE, PutSeqs(seqs)[2..]);
      GetPutU16(|Ranges(sorted)|, PutRanges(Ranges(sorted)));
    }
  }

  predicate SeqsFit(seqs: seq<nat>) {
    seqs != [] && Below(seqs, U24_SIZE) && |Ranges(Sort(seqs))| < U16_SIZE
  }

  // ---- fragments ----

  function PutOption(index: Option<nat>): Bytes {
    if index.Some? then U24(index.value) else []
  }

  function PutOrdering(info: Option<OrderingInfo>): Bytes {
    if info.Some? then U24(info.value.index) + [info.value.channel] else []
  }

  function PutSplit(info: Option<SplitInfo>): Bytes {
    if info.Some? then U32(info.value.size) + (U16(info.value.id) + U32(info.value.index)) else []
  }

  function Flags(f: Fragment): byte {
    f.reliability.ToU8() * 32 + if f.splitInfo.Some? then 16 else 0
  }

  function PutFragment(f: Fragment): Bytes {
    [Flags(f)] + U16(|f.data| * 8) + PutOption(f.reliableIndex) + PutOption(f.sequenceIndex)
    + PutOrdering(f.orderingInfo) + PutSplit(f.splitInfo) + f.data
  }

  function GetOption(present: bool, b: Bytes): (r: Parsed<Option<nat>>)
    ensures r.Ok? ==> |r.value.1| <= |b|
  {
    if present then
      var (n, b) :- GetU24(b);
      Ok((Some(n), b))
    else
      Ok((None, b))
  }

  function GetOrdering(present: bool, b: Bytes): (r: Parsed<Option<OrderingInfo>>)
    ensures r.Ok? ==> |r.value.1| <= |b|
  {
    if present then
      var (index, b) :- GetU24(b);
      var (channel, b) :- GetU8(b);
      Ok((Some(OrderingInfo(index, channel)), b))
    else
      Ok((None, b))
  }

  function GetSplit(present: bool, b: Bytes): (r: Parsed<Option<SplitInfo>>)
    ensures r.Ok? ==> |r.value.1| <= |b|
  {
    if present then
      var (size, b) :- GetU32(b);
      var (id, b) :- GetU16(b);
      var (index, b) :- GetU32(b);
      Ok((Some(SplitInfo(size, id, index)), b))
    else
      Ok((None, b))
  }

  function GetData(len: nat, b: Bytes): (r: Parsed<Bytes>)
    ensures r.Ok? ==> |r.value.1| <= |b|
  {
    if |b| < len then Err(InvalidData) else Ok((b[..len], b[len..]))
  }

  function GetReliability(flags: byte): Result<Reliability> {
    match Reliability.FromU8(flags / 32)
    case Some(reliability) => Ok(reliability)
    case None => Err(InvalidData)
  }

  function GetFragment(b: Bytes): (r: Parsed<Fragment>)
    ensures r.Ok? ==> |r.value.1| < |b|
  {
    var (flags, b) :- GetU8(b);
    var reliability :- GetReliability(flags);
    var (bits, b) :- GetU16(b);
    var (reliableIndex, b) :- GetOption(reliability.IsReliable(), b);
    var (sequenceIndex, b) :- GetOption(reliability.IsSequenced(), b);
    var (orderingInfo, b) :- GetOrdering(reliability.IsSequenced() || reliability.IsOrdered(), b);
    var (splitInfo, b) :- GetSplit(flags / 16 % 2 != 0, b);
    var (data, b) :- GetData(bits / 8, b);
    Ok((Fragment(reliability, reliableIndex, sequenceIndex, orderingInfo, splitInfo, data), b))
  }

  // ---- what a reader makes of a written fragment ----

  function Cut(n: Option<nat>, size: nat): Option<nat>
    requires size > 0
  {
    if n.Some? then Some(n.value % size) else None
  }

  function CutOrdering(info: Option<OrderingInfo>): Option<OrderingInfo> {
    if info.Some? then Some(OrderingInfo(info.value.index % U24_SIZE, info.value.channel)) else None
  }

  function CutSplit(info: Option<SplitInfo>): Option<SplitInfo> {
    if info.Some? then
      Some(SplitInfo(info.value.size % U32_SIZE, info.value.id % U16_SIZE, info.value.index % U32_SIZE))
    else
      None
  }

  /** The fields as they fit their widths on the wire. */
  function OnWire(f: Fragment): Fragment {
    Fragment(f.reliability, Cut(f.reliableIndex, U24_SIZE), Cut(f.sequenceIndex, U24_SIZE),
             CutOrdering(f.orderingInfo), CutSplit(f.splitInfo), f.data[..|f.data| % MAX_PAYLOAD])
  }

  /** Fields in the width they have on the wire. */
  predicate InRange(f: Fragment) {
    && (f.reliableIndex.Some? ==> f.reliableIndex.value < U24_SIZE)
    && (f.sequenceIndex.Some? ==> f.sequenceIndex.value < U24_SIZE)
    && (f.orderingInfo.Some? ==> f.orderingInfo.value.index < U24_SIZE)
    && (f.splitInfo.Some? ==>
          && f.splitInfo.value.size < U32_SIZE
          && f.splitInfo.value.id < U16_SIZE
          && f.splitInfo.value.index < U32_SIZE)
    && |f.data| < MAX_PAYLOAD
  }

  lemma GetPutOption(index: Option<nat>, rest: Bytes)
    ensures GetOption(index.Some?, PutOption(index) + rest) == Ok((Cut(index, U24_SIZE), rest))
  {
    if index.Some? {
      GetPutU24(index.value, rest);
    } else {
      assert [] + rest == rest;
    }
  }

  lemma GetPutOrdering(info: Option<OrderingInfo>, rest: Bytes)
    ensures GetOrdering(info.Some?, PutOrdering(info) + rest) == Ok((CutOrdering(info), rest))
  {
    if info.Some? {
      assert PutOrdering(info) + rest == U24(info.value.index) + ([info.value.channel] + rest);
      GetPutU24(info.value.index, [info.value.channel] + rest);
      assert ([info.value.channel] + rest)[1..] == rest;
    } else {
      assert [] + rest == rest;
    }
  }

  lemma GetPutSplit(info: Option<SplitInfo>, rest: Bytes)
    ensures GetSplit(info.Some?, PutSplit(info) + rest) == Ok((CutSplit(info), rest))
  {
    if info.Some? {
      var s := info.value;
      assert PutSplit(info) + rest == U32(s.size) + (U16(s.id) + (U32(s.index) + rest));
      GetPutU32(s.size, U16(s.id) + (U32(s.index) + rest));
      GetPutU16(s.id, U32(s.index) + rest);
      GetPutU32(s.index, rest);
    } else {
      assert [] + rest == rest;
    }
  }

  lemma GetPutData(data: Bytes, rest: Bytes)
    ensures var len := |data| % MAX_PAYLOAD;
            GetData(len, data + rest) == Ok((data[..len], data[len..] + rest))
  {
    var len := |data| % MAX_PAYLOAD;
    assert (data + rest)[..len] == data[..len];
    assert (data + rest)[len..] == data[len..] + rest;
  }

  lemma FlagsDecode(f: Fragment)
    ensures GetReliability(Flags(f)) == Ok(f.reliability)
    ensures Flags(f) / 16 % 2 != 0 <==> f.splitInfo.Some?
  {
  }

  lemma PutFragmentNested(f: Fragment, rest: Bytes)
    ensures PutFragment(f) + rest ==
            [Flags(f)] + (U16(|f.data| * 8) + (PutOption(f.reliableIndex) + (PutOption(f.sequenceIndex)
            + (PutOrdering(f.orderingInfo) + (PutSplit(f.splitInfo) + (f.data + rest))))))
  {
    var a1 := [Flags(f)] + U16(|f.data| * 8);
    var a2 := a1 + PutOption(f.reliableIndex);
    var a3 := a2 + PutOption(f.sequenceIndex);
    var a4 := a3 + PutOrdering(f.orderingInfo);
    var a5 := a4 + PutSplit(f.splitInfo);
    Assoc(a5, f.data, rest);
    Assoc(a4, PutSplit(f.splitInfo), f.data + rest);
    var b4 := PutSplit(f.splitInfo) + (f.data + rest);
    Assoc(a3, PutOrdering(f.orderingInfo), b4);
    var b3 := PutOrdering(f.orderingInfo) + b4;
    Assoc(a2, PutOption(f.sequenceIndex), b3);
    var b2 := PutOption(f.sequenceIndex) + b3;
    Assoc(a1, PutOption(f.reliableIndex), b2);
    Assoc([Flags(f)], U16(|f.data| * 8), PutOption(f.reliableIndex) + b2);
  }

  /** For any field values: each is read back as far as its width goes. */
  lemma GetPutFragment(f: Fragment, rest: Bytes)
    requires f.Shaped() && f.Numbered()
    ensures GetFragment(PutFragment(f) + rest) == Ok((OnWire(f), f.data[|f.data| % MAX_PAYLOAD..] + rest))
  {
    hide PutOption, PutOrdering, PutSplit, GetOption, GetOrdering, GetSplit, GetData, GetReliability, Flags, PutFragment, U16, GetU16;
    var b6 := f.data + rest;
    var b5 := PutSplit(f.splitInfo) + b6;
    var b4 := PutOrdering(f.orderingInfo) + b5;
    var b3 := PutOption(f.sequenceIndex) + b4;
    var b2 := PutOption(f.reliableIndex) + b3;
    var b1 := U16(|f.data| * 8) + b2;
    PutFragmentNested(f, rest);
    assert GetU8([Flags(f)] + b1) == Ok((Flags(f), b1));
    FlagsDecode(f);
    GetPutU16(|f.data| * 8, b2);
    assert |f.data| * 8 % U16_SIZE / 8 == |f.data| % MAX_PAYLOAD;
    GetPutOption(f.reliableIndex, b3);
    GetPutOption(f.sequenceIndex, b4);
    GetPutOrdering(f.orderingInfo, b5);
    GetPutSplit(f.splitInfo, b6);
    GetPutData(f.data, rest);
  }

  lemma OnWireIff(f: Fragment)
    ensures OnWire(f) == f <==> InRange(f)
  {
    if f.reliableIndex.Some? {
      CutIff(f.reliableIndex.value, U24_SIZE);
    }
    if f.sequenceIndex.Some? {
      CutIff(f.sequenceIndex.value, U24_SIZE);
    }
    if f.orderingInfo.Some? {
      CutIff(f.orderingInfo.value.index, U24_SIZE);
    }
    if f.splitInfo.Some? {
      CutIff(f.splitInfo.value.size, U32_SIZE);
      CutIff(f.splitInfo.value.id, U16_SIZE);
      CutIff(f.splitInfo.value.index, U32_SIZE);
    }
    CutIff(|f.data|, MAX_PAYLOAD);
    if |f.data| < MAX_PAYLOAD {
      assert f.data[..|f.data| % MAX_PAYLOAD] == f.data;
    } else {
      assert |f.data[..|f.data| % MAX_PAYLOAD]| < |f.data|;
    }
  }

  /** A fragment survives the wire exactly if its fields fit their widths. */
  lemma FragmentRoundTripIff(f: Fragment, rest: Bytes)
    requires f.Shaped() && f.Numbered()
    ensures GetFragment(PutFragment(f) + rest) == Ok((f, rest)) <==> InRange(f)
  {
    GetPutFragment(f, rest);
    OnWireIff(f);
    if |f.data| < MAX_PAYLOAD {
      CutIff(|f.data|, MAX_PAYLOAD);
      assert f.data[|f.data| % MAX_PAYLOAD..] + rest == rest;
    }
  }

  /** The sizes the packing loops count with are the encoded ones. */
  lemma FragmentLength(f: Fragment)
    requires f.Shaped() && f.Numbered()
    ensures |PutFragment(f)| == f.FullSize()
  {
  }

  // ---- datagrams ----

  function PutFragments(fs: seq<Fragment>): Bytes {
    if fs == [] then [] else PutFragment(fs[0]) + PutFragments(fs[1..])
  }

  function Bit(on: bool, value: byte): byte {
    if on then value else 0
  }

  function PutDatagram(d: Datagram): Bytes
    requires !d.Packet? ==> d.seqs != []
  {
    match d
    case Ack(rate, seqs) =>
      (if rate.Some? then [0x80 + 0x40 + 0x20] + rate.value else [0x80 + 0x40]) + PutSeqs(seqs)
    case Nak(seqs) =>
      [0x80 + 0x20] + PutSeqs(seqs)
    case Packet(pair, continuous, needsRate, seqNumber, fragments) =>
      [PacketFlags(pair, continuous, needsRate)] + U24(seqNumber) + PutFragments(fragments)
  }

  function GetFragments(b: Bytes): Result<seq<Fragment>>
    decreases |b|
  {
    if b == [] then
      Ok([])
    else
      var (f, b) :- GetFragment(b);
      var fs :- GetFragments(b);
      Ok([f] + fs)
  }

  predicate IsValid(flags: byte) { flags / 0x80 % 2 != 0 }

  predicate IsAck(flags: byte) { flags / 0x40 % 2 != 0 }

  /** The same bit says "nak" and, in an acknowledgement, "has an arrival rate". */
  predicate IsNak(flags: byte) { flags / 0x20 % 2 != 0 }

  predicate IsPacketPair(flags: byte) { flags / 0x10 % 2 != 0 }

  predicate IsContinuousSend(flags: byte) { flags / 0x08 % 2 != 0 }

  predicate NeedsArrivalRate(flags: byte) { flags / 0x04 % 2 != 0 }

  function GetDatagram(b: Bytes): Result<Datagram> {
    var (flags, b) :- GetU8(b);
    if !IsValid(flags) then
      Err(InvalidData)
    else if IsAck(flags) then
      if IsNak(flags) then
        if |b| < 4 then
          Err(NotEnoughData)
        else
          var (seqs, _) :- GetSeqs(b[4..]);
          Ok(Ack(Some(b[..4]), seqs))
      else
        var (seqs, _) :- GetSeqs(b);
        Ok(Ack(None, seqs))
    else if IsNak(flags) then
      var (seqs, _) :- GetSeqs(b);
      Ok(Nak(seqs))
    else
      var (seqNumber, b) :- GetU24(b);
      var fragments :- GetFragments(b);
      Ok(Packet(IsPacketPair(flags), IsContinuousSend(flags), NeedsArrivalRate(flags), seqNumber, fragments))
  }

  predicate FragmentsFit(fs: seq<Fragment>) {
    forall f <- fs :: InRange(f)
  }

  /** The optional fields are those the reliability asks for, a rate has four bytes,
      and a list is not empty: what every datagram the layer sends is. */
  predicate WellFormed(d: Datagram) {
    match d
    case Ack(rate, seqs) => (rate.Some? ==> |rate.value| == 4) && seqs != []
    case Nak(seqs) => seqs != []
    case Packet(_, _, _, _, fragments) => forall f <- fragments :: f.Shaped() && f.Numbered()
  }

  predicate Fits(d: Datagram) {
    match d
    case Ack(_, seqs) => SeqsFit(seqs)
    case Nak(seqs) => SeqsFit(seqs)
    case Packet(_, _, _, seqNumber, fragments) => seqNumber < U24_SIZE && FragmentsFit(fragments)
  }

  /** Lists of sequence numbers come out sorted; everything else is unchanged. */
  function Arranged(d: Datagram): Datagram {
    if d.Packet? then d else d.(seqs := Sort(d.seqs))
  }

  lemma {:induction false} FragmentsRoundTripIff(fs: seq<Fragment>)
    requires forall f <- fs :: f.Shaped() && f.Numbered()
    ensures GetFragments(PutFragments(fs)) == Ok(fs) <==> FragmentsFit(fs)
  {
    if fs != [] {
      var f, rest := fs[0], fs[1..];
      assert f in fs && fs == [f] + rest;
      FragmentLength(f);
      GetPutFragment(f, PutFragments(rest));
      OnWireIff(f);
      if InRange(f) {
        FragmentRoundTripIff(f, PutFragments(rest));
        FragmentsRoundTripIff(rest);
        assert FragmentsFit(fs) <==> FragmentsFit(rest);
      }
    }
  }

  function PacketFlags(pair: bool, continuous: bool, needsRate: bool): byte {
    0x80 + Bit(pair, 0x10) + Bit(continuous, 0x08) + Bit(needsRate, 0x04)
  }

  lemma PacketFlagKind(pair: bool, continuous: bool, needsRate: bool)
    ensures var flags := PacketFlags(pair, continuous, needsRate);
            IsValid(flags) && !IsAck(flags) && !IsNak(flags)
  {
    FlagQuotients(pair, continuous, needsRate);
  }

  lemma PacketPairBit(pair: bool, continuous: bool, needsRate: bool)
    ensures IsPacketPair(PacketFlags(pair, continuous, needsRate)) == pair
  {
    FlagQuotients(pair, continuous, needsRate);
  }

  lemma PacketContinuousBit(pair: bool, continuous: bool, needsRate: bool)
    ensures IsContinuousSend(PacketFlags(pair, continuous, needsRate)) == continuous
  {
    FlagQuotients(pair, continuous, needsRate);
  }

  lemma PacketRateBit(pair: bool, continuous: bool, needsRate: bool)
    ensures NeedsArrivalRate(PacketFlags(pair, continuous, needsRate)) == needsRate
  {
    FlagQuotients(pair, continuous, needsRate);
  }

  lemma FlagQuotients(pair: bool, continuous: bool, needsRate: bool)
    ensures var flags := PacketFlags(pair, continuous, needsRate);
            && flags / 0x80 == 1 && flags / 0x40 == 2 && flags / 0x20 == 4
            && flags / 0x10 == 8 + Bit(pair, 1)
            && flags / 0x08 == 16 + 2 * Bit(pair, 1) + Bit(continuous, 1)
            && flags / 0x04 == 32 + 4 * Bit(pair, 1) + 2 * Bit(continuous, 1) + Bit(needsRate, 1)
  {
  }

  lemma GetPacket(d: Datagram)
    requires d.Packet?
    ensures GetDatagram(PutDatagram(d)) ==
            match GetFragments(PutFragments(d.fragments))
            case Ok(fs) => Ok(Packet(d.isPacketPair, d.isContinuousSend, d.needsArrivalRate, d.seqNumber % U24_SIZE, fs))
            case Err(error) => Err(error)
  {
    var flags := PacketFlags(d.isPacketPair, d.isContinuousSend, d.needsArrivalRate);
    PacketFlagKind(d.isPacketPair, d.isContinuousSend, d.needsArrivalRate);
    PacketPairBit(d.isPacketPair, d.isContinuousSend, d.needsArrivalRate);
    PacketContinuousBit(d.isPacketPair, d.isContinuousSend, d.needsArrivalRate);
    PacketRateBit(d.isPacketPair, d.isContinuousSend, d.needsArrivalRate);
    var b := U24(d.seqNumber) + PutFragments(d.fragments);
    assert PutDatagram(d) == [flags] + b;
    assert GetU8([flags] + b) == Ok((flags, b));
    GetPutU24(d.seqNumber, PutFragments(d.fragments));
  }

  lemma PacketRoundTripIff(d: Datagram)
    requires d.Packet? && WellFormed(d)
    ensures GetDatagram(PutDatagram(d)) == Ok(d) <==> Fits(d)
  {
    GetPacket(d);
    CutIff(d.seqNumber, U24_SIZE);
    FragmentsRoundTripIff(d.fragments);
  }

  lemma ListFlags()
    ensures IsValid(0xE0) && IsAck(0xE0) && IsNak(0xE0)
    ensures IsValid(0xC0) && IsAck(0xC0) && !IsNak(0xC0)
    ensures IsValid(0xA0) && !IsAck(0xA0) && IsNak(0xA0)
  {
  }

  lemma GetFlags(flags: byte, b: Bytes)
    ensures GetU8([flags] + b) == Ok((flags, b))
  {
  }

  lemma GetAck(b: Bytes)
    ensures GetDatagram([0xC0] + b) ==
            match GetSeqs(b) case Ok((seqs, _)) => Ok(Ack(None, seqs)) case Err(error) => Err(error)
  {
    ListFlags();
    GetFlags(0xC0, b);
  }

  lemma GetAckWithRate(rate: Bytes, b: Bytes)
    requires |rate| == 4
    ensures GetDatagram([0xE0] + (rate + b)) ==
            match GetSeqs(b) case Ok((seqs, _)) => Ok(Ack(Some(rate), seqs)) case Err(error) => Err(error)
  {
    ListFlags();
    GetFlags(0xE0, rate + b);
    assert (rate + b)[..4] == rate && (rate + b)[4..] == b;
  }

  lemma GetNak(b: Bytes)
    ensures GetDatagram([0xA0] + b) ==
            match GetSeqs(b) case Ok((seqs, _)) => Ok(Nak(seqs)) case Err(error) => Err(error)
  {
    ListFlags();
    GetFlags(0xA0, b);
  }

  lemma AckRoundTripIff(d: Datagram)
    requires d.Ack? && WellFormed(d)
    ensures GetDatagram(PutDatagram(d)) == Ok(Arranged(d)) <==> Fits(d)
  {
    SeqsReadBackIff(d.seqs);
    if d.arrivalRate.Some? {
      Assoc([0xE0], d.arrivalRate.value, PutSeqs(d.seqs));
      GetAckWithRate(d.arrivalRate.value, PutSeqs(d.seqs));
    } else {
      GetAck(PutSeqs(d.seqs));
    }
  }

  lemma {:induction false} ExpandSome(ranges: seq<(nat, nat)>, count: nat)
    requires count <= |ranges|
    ensures forall s <- Expand(ranges[..count]) :: s in Expand(ranges)
  {
    if count > 0 {
      ExpandSome(ranges[1..], count - 1);
      assert ranges[..count][1..] == ranges[1..][..count - 1];
    }
  }

  /** However many ranges there are, an acknowledgement of 24-bit numbers can be read back,
      and names nothing that it did not name before. */
  lemma AckNamesNoMore(d: Datagram)
    requires d.Ack? && WellFormed(d) && Below(d.seqs, U24_SIZE)
    ensures var r := GetDatagram(PutDatagram(d));
            r.Ok? && r.value.Ack? && forall s <- r.value.seqs :: s in d.seqs
  {
    var ranges := Ranges(Sort(d.seqs));
    SortedRanges(d.seqs);
    GetPutCounted(ranges, []);
    assert U16(|ranges|) + PutRanges(ranges) + [] == PutSeqs(d.seqs);
    var count := |ranges| % U16_SIZE;
    ExpandSome(ranges, count);
    SortSorts(d.seqs);
    forall s | s in Expand(ranges[..count])
      ensures s in d.seqs
    {
      assert s in multiset(Sort(d.seqs));
    }
    if d.arrivalRate.Some? {
      Assoc([0xE0], d.arrivalRate.value, PutSeqs(d.seqs));
      GetAckWithRate(d.arrivalRate.value, PutSeqs(d.seqs));
    } else {
      GetAck(PutSeqs(d.seqs));
    }
  }

  lemma NakRoundTripIff(d: Datagram)
    requires d.Nak? && WellFormed(d)
    ensures GetDatagram(PutDatagram(d)) == Ok(Arranged(d)) <==> Fits(d)
  {
    SeqsReadBackIff(d.seqs);
    GetNak(PutSeqs(d.seqs));
  }

  /** Decoding an encoded datagram gives it back, with its lists of sequence numbers
      sorted, exactly if everything in it fits its width on the wire. */
  lemma DatagramRoundTripIff(d: Datagram)
    requires WellFormed(d)
    ensures GetDatagram(PutDatagram(d)) == Ok(Arranged(d)) <==> Fits(d)
  {
    match d
    case Ack(_, _) => AckRoundTripIff(d);
    case Nak(_) => NakRoundTripIff(d);
    case Packet(_, _, _, _, _) => PacketRoundTripIff(d);
  }

  lemma {:induction false} FragmentsLength(fs: seq<Fragment>)
    requires forall f <- fs :: f.Shaped() && f.Numbered()
    ensures |PutFragments(fs)| == SizeOf(fs)
  {
    if fs != [] {
      assert fs[0] in fs;
      FragmentLength(fs[0]);
      FragmentsLength(fs[1..]);
    }
  }

  /** An encoded packet is four bytes longer than the fragments it was filled with. */
  lemma PacketLength(d: Datagram)
    requires d.Packet? && forall f <- d.fragments :: f.Shaped() && f.Numbered()
    ensures |PutDatagram(d)| == HEADER_SIZE + PACKET_HEADER_SIZE + SizeOf(d.fragments)
  {
    FragmentsLength(d.fragments);
  }
}
