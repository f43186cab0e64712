/** How long acknowledgements and naks are, and when they fit the MTU: nothing splits them
    (src/reliability/layer.rs:147-172 and src/proto/bytes.rs:216-288). */
module ControlSizes {
  import opened Basics
  import opened Datagrams
  import opened SeqRanges
  import opened Codec
  import opened Windows
  import opened WindowRuns
  import opened Receivers
  import opened Feedback

  /** A single number takes four bytes and a range of several seven. */
  function RangesLength(ranges: seq<(nat, nat)>): nat {
    if ranges == [] then 0 else (if ranges[0].0 == ranges[0].1 then 4 else 7) + RangesLength(ranges[1..])
  }

  lemma {:induction false} PutRangesLength(ranges: seq<(nat, nat)>)
    ensures |PutRanges(ranges)| == RangesLength(ranges)
  {
    if ranges != [] {
      PutRangesLength(ranges[1..]);
    }
  }

  /** The exact length of a control datagram. */
  lemma ControlLength(d: Datagram)
    requires !d.Packet? && WellFormed(d)
    ensures |PutDatagram(d)| ==
            3 + RangesLength(Ranges(Sort(d.seqs))) + if d.Ack? && d.arrivalRate.Some? then 4 else 0
  {
    PutRangesLength(Ranges(Sort(d.seqs)));
  }

  /** No list takes more than four bytes a number. */
  lemma {:induction false} RangesFromLength(start: nat, end: nat, rest: seq<nat>)
    requires start <= end
    ensures RangesLength(RangesFrom(start, end, rest)) <= 4 * (end - start + 1) + 4 * |rest|
    decreases |rest|
  {
    if rest == [] {
      assert RangesLength([(start, end)][1..]) == 0;
    } else if rest[0] == end + 1 {
      RangesFromLength(start, rest[0], rest[1..]);
    } else {
      RangesFromLength(rest[0], rest[0], rest[1..]);
      var tail := RangesFrom(rest[0], rest[0], rest[1..]);
      assert ([(start, end)] + tail)[1..] == tail;
    }
  }

  datatype Kind = Naks | Acks | RatedAcks

  function KindOf(d: Datagram): Kind
    requires !d.Packet?
  {
    if d.Nak? then Naks else if d.arrivalRate.None? then Acks else RatedAcks
  }

  /** What a control datagram takes beside its numbers. */
  function Overhead(kind: Kind): nat {
    if kind.RatedAcks? then 7 else 3
  }

  function OfKind(kind: Kind, seqs: seq<nat>): (d: Datagram)
    ensures !d.Packet? && d.seqs == seqs && KindOf(d) == kind
    ensures seqs != [] ==> WellFormed(d)
  {
    match kind
    case Naks => Nak(seqs)
    case Acks => Ack(None, seqs)
    case RatedAcks => Ack(Some([0, 0, 0, 0]), seqs)
  }

  lemma ControlLengthBound(d: Datagram)
    requires !d.Packet? && WellFormed(d)
    ensures |PutDatagram(d)| <= Overhead(KindOf(d)) + 4 * |d.seqs|
  {
    var sorted := Sort(d.seqs);
    ControlLength(d);
    SortSorts(d.seqs);
    assert |multiset(sorted)| == |multiset(d.seqs)|;
    RangesFromLength(sorted[0], sorted[0], sorted[1..]);
  }

  /** Every second number: nothing to compress. */
  function Spaced(from: nat, k: nat): (s: seq<nat>)
    ensures |s| == k && forall i :: 0 <= i < k ==> s[i] == from + 2 * i
  {
    seq(k, i requires 0 <= i => from + 2 * i)
  }

  lemma {:induction false} SpacedRanges(from: nat, k: nat)
    ensures RangesLength(RangesFrom(from, from, Spaced(from + 2, k))) == 4 * (k + 1)
    decreases k
  {
    var rest := Spaced(from + 2, k);
    if k == 0 {
      assert RangesLength([(from, from)][1..]) == 0;
    } else {
      SpacedRanges(from + 2, k - 1);
      assert rest[1..] == Spaced(from + 4, k - 1);
      var tail := RangesFrom(rest[0], rest[0], rest[1..]);
      assert ([(from, from)] + tail)[1..] == tail;
    }
  }

  lemma {:induction false} SpacedIsSorted(from: nat, k: nat)
    ensures Sort(Spaced(from, k)) == Spaced(from, k)
    decreases k
  {
    if k > 0 {
      SpacedIsSorted(from + 2, k - 1);
      assert Spaced(from, k)[1..] == Spaced(from + 2, k - 1);
    }
  }

  lemma SpacedLength(kind: Kind, k: nat)
    requires k > 0
    ensures |PutDatagram(OfKind(kind, Spaced(0, k)))| == Overhead(kind) + 4 * k
  {
    SpacedIsSorted(0, k);
    SpacedRanges(0, k - 1);
    assert Spaced(0, k)[1..] == Spaced(2, k - 1);
    ControlLength(OfKind(kind, Spaced(0, k)));
  }

  predicate IsControl(d: Datagram, kind: Kind, k: nat) {
    !d.Packet? && WellFormed(d) && KindOf(d) == kind && |d.seqs| <= k
  }

  /** `update` sends all numbers collected in one datagram. It fits, whatever the numbers
      are, exactly as long as there are at most a quarter as many as bytes, less the three
      or seven the datagram takes beside them. */
  lemma ControlFitsIff(kind: Kind, k: nat, room: nat)
    requires k > 0
    ensures (forall d :: IsControl(d, kind, k) ==> |PutDatagram(d)| <= room) <==> Overhead(kind) + 4 * k <= room
  {
    if Overhead(kind) + 4 * k <= room {
      forall d | IsControl(d, kind, k)
        ensures |PutDatagram(d)| <= room
      {
        ControlLengthBound(d);
      }
    } else {
      SpacedLength(kind, k);
      assert IsControl(OfKind(kind, Spaced(0, k)), kind, k);
    }
  }

  // ---- an acknowledgement as long as one likes ----

  /** Datagram 1, k times over, with datagram 0 missing. */
  function Copies(k: nat): (arrivals: seq<Arrival>)
    ensures |arrivals| == k && forall i :: 0 <= i < k ==> arrivals[i] == Arrival(1, 0, 1)
  {
    seq(k, _ => Arrival(1, 0, 1))
  }

  function Ones(k: nat): (s: seq<nat>)
    ensures |s| == k && forall i :: 0 <= i < k ==> s[i] == 1
  {
    seq(k, _ => 1)
  }

  lemma {:induction false} CopiesIndices(k: nat)
    ensures Indices(Copies(k)) == Ones(k)
  {
    if k > 0 {
      CopiesIndices(k - 1);
      assert Copies(k)[1..] == Copies(k - 1);
      assert [1] + Ones(k - 1) == Ones(k);
    }
  }

  /** The first copy is kept; the others find it there, and 0 is not overdue. */
  lemma FirstCopy()
    ensures var h := Arrive(NO_HISTORY, SEQ_WINDOW_SIZE, Arrival(1, 0, 1));
            h.window == WindowState(0, Some(1), map[1 := 0]) && Survives(NO_HISTORY, SEQ_WINDOW_SIZE, [Arrival(1, 0, 1)])
  {
  }

  lemma NextCopy(h: History)
    requires h.window == WindowState(0, Some(1), map[1 := 0])
    ensures var h' := Arrive(h, SEQ_WINDOW_SIZE, Arrival(1, 0, 1));
            h'.window == h.window && Survives(h, SEQ_WINDOW_SIZE, [Arrival(1, 0, 1)])
  {
  }

  lemma {:induction false} CopiesSurvive(h: History, k: nat)
    requires h.window == WindowState(0, Some(1), map[1 := 0])
    ensures Survives(h, SEQ_WINDOW_SIZE, Copies(k))
    decreases k
  {
    hide Arrive;
    if k > 0 {
      NextCopy(h);
      CopiesSurvive(Arrive(h, SEQ_WINDOW_SIZE, Arrival(1, 0, 1)), k - 1);
      assert Copies(k)[1..] == Copies(k - 1);
    }
  }

  lemma {:induction false} OnesRanges(k: nat)
    ensures Sort(Ones(k)) == Ones(k)
    ensures RangesLength(RangesFrom(1, 1, Ones(k))) == 4 * (k + 1)
    decreases k
  {
    if k == 0 {
      assert RangesLength([(1, 1)][1..]) == 0;
    } else {
      OnesRanges(k - 1);
      assert Ones(k)[1..] == Ones(k - 1);
      var tail := RangesFrom(1, 1, Ones(k - 1));
      assert ([(1, 1)] + tail)[1..] == tail;
    }
  }

  /** Such acknowledgements do arise: as long as datagram 0 is missing, every copy of
      datagram 1 is acknowledged once more, and the acknowledgement takes all the bytes it
      may. With k large enough it exceeds any MTU. */
  lemma LongAckWitness(k: nat)
    requires k > 0
    ensures var (r, done) := Answer(NewReceiver(), Copies(k));
            && done.Ok? && r.acks == Ones(k)
            && |PutDatagram(OfKind(Acks, r.acks))| == 3 + 4 * k
            && |PutDatagram(OfKind(RatedAcks, r.acks))| == 7 + 4 * k
  {
    hide Arrive, Answer, PutDatagram, NoneTakenAgain, OnTime;
    FirstCopy();
    CopiesSurvive(Arrive(NO_HISTORY, SEQ_WINDOW_SIZE, Arrival(1, 0, 1)), k - 1);
    assert Copies(k)[1..] == Copies(k - 1);
    EveryPacketIsAnswered(Copies(k));
    CopiesIndices(k);
    OnesRanges(k);
    OnesRanges(k - 1);
    assert Ones(k)[1..] == Ones(k - 1);
    ControlLength(OfKind(Acks, Ones(k)));
    ControlLength(OfKind(RatedAcks, Ones(k)));
  }
}
