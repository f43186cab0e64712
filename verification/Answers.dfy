/** What an arriving datagram does to the two halves of a layer: an acknowledgement gives
    packets up, a nak sends them again, a packet concerns the receiving half alone
    (src/reliability/layer.rs:293-368). */
module Answers {
  import opened Basics
  import opened Datagrams
  import opened Retransmission
  import opened RetransmissionRuns
  import opened Ordering
  import opened Senders
  import opened SenderRuns
  import opened Acknowledgements
  import opened Receivers
  import opened EndToEnd
  import opened LayerFacts
  import Codec

  // ---- one dispatch ----

  /** What a layer makes of a control datagram is what the runs of `EndToEnd` say of it. */
  lemma AnsweredIsTold(r: Run, d: Control)
    requires r.alive
    ensures var parsed := Codec.GetDatagram(Codec.PutDatagram(d));
            && Told(r, d).sender == Answered(r.sender, parsed)
            && (parsed.Err? ==> Answered(r.sender, parsed) == r.sender && !Told(r, d).alive)
            && (parsed.Ok? ==> !parsed.value.Packet? && Told(r, d).alive)
  {
    hide Codec.GetDatagram, Codec.GetSeqs, Codec.PutSeqs, AckAll, NakAll, Shift, Transmits, CanSend, CanPushAll;
    match d
    case Nak(seqs) =>
      Codec.GetNak(Codec.PutSeqs(seqs));
    case Ack(None, seqs) =>
      Codec.GetAck(Codec.PutSeqs(seqs));
    case Ack(Some(rate), seqs) =>
      Codec.Assoc([0xE0], rate, Codec.PutSeqs(seqs));
      RatedAckIsControl(rate + Codec.PutSeqs(seqs));
  }

  lemma RatedAckIsControl(b: Bytes)
    ensures var parsed := Codec.GetDatagram([0xE0] + b); parsed.Ok? ==> parsed.value.Ack?
  {
    hide Codec.GetSeqs;
    Codec.ListFlags();
    Codec.GetFlags(0xE0, b);
  }

  /** A packet leaves the sending half alone, and a control datagram the receiving half. */
  lemma HalvesAreApart(s: Sender, r: Receiver, now: nat, rto: nat, bytes: Bytes)
    ensures var parsed := Codec.GetDatagram(bytes);
            && (parsed.Err? ==> HandleBytes(r, now, rto, bytes) == (r, Err(parsed.error)) && Answered(s, parsed) == s)
            && (parsed.Ok? && parsed.value.Packet? ==> Answered(s, parsed) == s)
            && (parsed.Ok? && !parsed.value.Packet? ==> HandleBytes(r, now, rto, bytes) == (r, Ok(())))
  {
    hide Codec.GetDatagram, HandlePacket, AckAll, NakAll, Shift;
  }

  // ---- which packets ----

  /** Packet `n` is in the history with these fragments. */
  predicate InHistory(c: Cache, n: nat, fragments: seq<Fragment>) {
    && c.start <= n < c.start + PACKET_HISTORY_SIZE
    && c.slots[n - c.start].Valid? && c.slots[n - c.start].fragments == fragments
  }

  predicate IsGone(c: Cache, n: nat) {
    c.start <= n < c.start + PACKET_HISTORY_SIZE ==> !c.slots[n - c.start].Valid?
  }

  /** Some number lands in the slot of packet `n`. */
  predicate Hits(c: Cache, seqs: seq<nat>, n: nat) {
    exists k :: 0 <= k < |seqs| && c.start + SlotOf(c, seqs[k]) == n
  }

  /** A nak queues what an acknowledgement of the same numbers would have taken. */
  lemma {:induction false} NakQueuesWhatAckTakes(c: Cache, seqs: seq<nat>)
    ensures AckAll(c, seqs).0.queue == c.queue
    ensures NakAll(c, seqs) == AckAll(c, seqs).0.(queue := c.queue + AckAll(c, seqs).1)
  {
    if seqs == [] {
      assert c.queue + [] == c.queue;
    } else {
      var n := |seqs| - 1;
      NakQueuesWhatAckTakes(c, seqs[..n]);
      var taken := AckAll(c, seqs[..n]).1;
      var r := MarkAsUsed(AckAll(c, seqs[..n]).0, seqs[n]).1;
      var more := if r.Some? then r.value.0 else [];
      assert c.queue + (taken + more) == (c.queue + taken) + more;
    }
  }

  lemma {:induction false} AckAllGives(c: Cache, seqs: seq<nat>, k: nat)
    requires k < |seqs| && c.slots[SlotOf(c, seqs[k])].Valid?
    ensures forall f <- c.slots[SlotOf(c, seqs[k])].fragments :: f in AckAll(c, seqs).1
    decreases |seqs|
  {
    hide SlotOf;
    var n := |seqs| - 1;
    var c1 := AckAll(c, seqs[..n]).0;
    AckAllTakes(c, seqs[..n]);
    SameSlot(c, c1, seqs[n]);
    if k < n {
      AckAllGives(c, seqs[..n], k);
    } else if !c1.slots[SlotOf(c, seqs[n])].Valid? {
      var s :| s in seqs[..n] && SlotOf(c, s) == SlotOf(c, seqs[n]);
      var j :| 0 <= j < n && seqs[..n][j] == s;
      AckAllGives(c, seqs[..n], j);
    }
  }

  lemma SameSlot(c: Cache, c1: Cache, s: nat)
    requires c1.start == c.start
    ensures SlotOf(c1, s) == SlotOf(c, s)
  {
  }

  /** A packet in the history is gone exactly if some number landed in its slot; otherwise
      it keeps its number. */
  lemma AfterAckAll(c: Cache, seqs: seq<nat>, n: nat, fragments: seq<Fragment>)
    requires InHistory(c, n, fragments)
    ensures var c' := Shift(AckAll(c, seqs).0).0;
            && (Hits(c, seqs, n) ==> IsGone(c', n))
            && (!Hits(c, seqs, n) ==> InHistory(c', n, fragments))
            && (Hits(c, seqs, n) ==> forall f <- fragments :: f in AckAll(c, seqs).1)
  {
    hide AckAll, SlotOf;
    var (c1, taken) := AckAll(c, seqs);
    var i, count := n - c.start, UsedRun(c1.slots);
    AckAllTakes(c, seqs);
    RunsStopBeforeInvalid(c1.slots, 0, 0);
    DropAt(c1.slots, count);
    if Hits(c, seqs, n) {
      var k :| 0 <= k < |seqs| && c.start + SlotOf(c, seqs[k]) == n;
      assert seqs[k] in seqs;
      assert !c1.slots[i].Valid?;
      AckAllGives(c, seqs, k);
    } else {
      NotHit(c, seqs, n);
      assert c1.slots[i].Valid?;
      assert count <= i;
    }
  }

  lemma NotHit(c: Cache, seqs: seq<nat>, n: nat)
    requires !Hits(c, seqs, n) && n >= c.start
    ensures forall s <- seqs :: SlotOf(c, s) != n - c.start
  {
    hide SlotOf;
    forall s | s in seqs
      ensures SlotOf(c, s) != n - c.start
    {
      var k :| 0 <= k < |seqs| && seqs[k] == s;
    }
  }

  /** A nak gives nothing up: what is outstanding stays so. Each packet in whose slot a number
      lands leaves the history, and its fragments stand in the retransmit queue, behind
      what was there; the other packets keep their numbers. */
  lemma NakSendsAgain(s: Sender, seqs: seq<nat>, n: nat, fragments: seq<Fragment>)
    requires InHistory(s.cache, n, fragments)
    ensures var s' := Answered(s, Ok(Nak(seqs)));
            && s' == s.(cache := s'.cache)
            && Outstanding(s'.cache) == Outstanding(s.cache)
            && s.cache.queue <= s'.cache.queue
            && (Hits(s.cache, seqs, n) ==> forall f <- fragments :: f in s'.cache.queue[|s.cache.queue|..])
            && (Hits(s.cache, seqs, n) ==> IsGone(s'.cache, n))
            && (!Hits(s.cache, seqs, n) ==> InHistory(s'.cache, n, fragments))
    ensures n in seqs ==> Hits(s.cache, seqs, n)
  {
    hide AckAll, NakAll, InFlight, Shift;
    var c := s.cache;
    NakOutstanding(c, seqs);
    NakQueuesWhatAckTakes(c, seqs);
    AfterAckAll(c, seqs, n, fragments);
    ShiftKeepsQueue(NakAll(c, seqs));
    assert (c.queue + AckAll(c, seqs).1)[|c.queue|..] == AckAll(c, seqs).1;
    ShiftIgnoresQueue(AckAll(c, seqs).0, NakAll(c, seqs));
    if n in seqs {
      var k :| 0 <= k < |seqs| && seqs[k] == n;
      assert c.start + SlotOf(c, seqs[k]) == n;
    }
  }

  lemma {:induction false} NakOutstanding(c: Cache, seqs: seq<nat>)
    ensures Outstanding(Shift(NakAll(c, seqs)).0) == Outstanding(c)
  {
    hide Shift, InFlight, MarkAsUsed;
    ShiftOutstanding(NakAll(c, seqs));
    if seqs != [] {
      var n := |seqs| - 1;
      NakOutstanding(c, seqs[..n]);
      ShiftOutstanding(NakAll(c, seqs[..n]));
      MarkAsUsedOutstanding(NakAll(c, seqs[..n]), seqs[n]);
    }
  }

  /** An acknowledgement gives up what the packets in whose slots its numbers land hold, and
      nothing else, and counts its bytes; the retransmit queue stays. */
  lemma AckGivesUp(s: Sender, rate: Option<Bytes>, seqs: seq<nat>, n: nat, fragments: seq<Fragment>) returns (acked: seq<Fragment>)
    requires InHistory(s.cache, n, fragments)
    ensures var s' := Answered(s, Ok(Ack(rate, seqs)));
            && s' == s.(cache := s'.cache) && s'.cache.queue == s.cache.queue
            && Outstanding(s'.cache) + multiset(acked) == Outstanding(s.cache)
            && BytesAcked(s, Ok(Ack(rate, seqs))) == SizeOf(acked)
            && (Hits(s.cache, seqs, n) ==> forall f <- fragments :: f in acked)
            && (Hits(s.cache, seqs, n) ==> IsGone(s'.cache, n))
            && (!Hits(s.cache, seqs, n) ==> InHistory(s'.cache, n, fragments))
  {
    hide AckAll, InFlight, Shift;
    acked := AckAll(s.cache, seqs).1;
    NakQueuesWhatAckTakes(s.cache, seqs);
    AckOutstanding(s.cache, seqs);
    AfterAckAll(s.cache, seqs, n, fragments);
    ShiftKeepsQueue(AckAll(s.cache, seqs).0);
  }

  lemma ShiftIgnoresQueue(c: Cache, c': Cache)
    requires c' == c.(queue := c'.queue)
    ensures Shift(c').0 == Shift(c).0.(queue := c'.queue)
  {
  }

  lemma ShiftKeepsQueue(c: Cache)
    ensures Shift(c).0.queue == c.queue
  {
  }

  lemma {:induction false} AckOutstanding(c: Cache, seqs: seq<nat>)
    ensures var (c', acked) := AckAll(c, seqs);
            && Outstanding(c') + multiset(acked) == Outstanding(c)
            && Outstanding(Shift(c').0) == Outstanding(c')
  {
    hide Shift, InFlight, MarkAsUsed;
    ShiftOutstanding(AckAll(c, seqs).0);
    if seqs != [] {
      var n := |seqs| - 1;
      AckOutstanding(c, seqs[..n]);
      var (c', acked) := AckAll(c, seqs[..n]);
      MarkAsUsedOutstanding(c', seqs[n]);
      var (c'', mark) := MarkAsUsed(c', seqs[n]);
      var more := if mark.Some? then mark.value.0 else [];
      assert Outstanding(c'') + multiset(acked + more) == Outstanding(c') + multiset(acked);
    }
  }

  /** Only acknowledgements count bytes. */
  lemma OnlyAcksCount(s: Sender, parsed: Result<Datagram>)
    requires parsed.Err? || !parsed.value.Ack?
    ensures BytesAcked(s, parsed) == 0
  {
  }

  /** The packet of a single reliable fragment, reported missing: it is sent again. */
  lemma NakWitness(f: Fragment, now: nat)
    ensures var s := NewSender(1400).(cache := Insert(EmptyCache(), 0, [f], now).0, nextSeq := 1);
            Answered(s, Ok(Nak([0]))).cache.queue == [f]
  {
    var c := Insert(EmptyCache(), 0, [f], now).0;
    assert [0][..0] == [];
    assert NakAll(c, [0]) == c.(slots := c.slots[0 := Used], queue := [] + [f]);
  }

  /** What a layer reports: acknowledgements when it is time, naks always, and never an empty
      list; what it reports it no longer holds, and what it does not it keeps. */
  lemma ReportsAre(r: Receiver, shouldSendAck: bool, rate: Option<Bytes>)
    ensures var (r', sent) := Reported(r, shouldSendAck, rate);
            && r' == r.(acks := r'.acks, naks := [])
            && r'.acks == (if shouldSendAck then [] else r.acks)
            && |sent| <= 2
            && (shouldSendAck && r.acks != [] ==> sent != [] && sent[0] == Ack(rate, r.acks))
            && (r.naks != [] ==> sent != [] && sent[|sent| - 1] == Nak(r.naks))
            && (forall d <- sent :: (d == Ack(rate, r.acks) && shouldSendAck && r.acks != []) || (d == Nak(r.naks) && r.naks != []))
    ensures |Reported(r, shouldSendAck, rate).1| == (if shouldSendAck && r.acks != [] then 1 else 0) + if r.naks != [] then 1 else 0
  {
  }

  /** A new receiver waits for packet 0 and reliable index 0, on each of 32 channels for
      message 0, and holds nothing. */
  lemma StartOfReceiver()
    ensures var r := NewReceiver();
            && r.seqWindow.start == r.reliable.start == 0 && r.seqWindow.entries == map[] && r.reliable.entries == map[]
            && r.acks == r.naks == [] && r.splits == map[] && r.output == []
            && |r.channels| == 32 && forall c :: 0 <= c < 32 ==> r.channels[c] == Channel(0, 0, [])
  {
  }

  /** The wish for a rate is the third lowest bit of a packet whose number is taken. */
  lemma WishIsABit(r: Receiver, now: nat, rto: nat, bytes: Bytes, before: bool)
    ensures var parsed := Codec.GetDatagram(bytes);
            var packet := parsed.Ok? && parsed.value.Packet?;
            && (packet ==> bytes != [])
            && WantsRate(r, now, rto, parsed, before) ==
               if packet && HandleSeq(r, now, rto, parsed.value.seqNumber).1.Ok? then bytes[0] / 4 % 2 == 1 else before
  {
    hide HandleSeq, Codec.GetSeqs, Codec.GetU24, Codec.GetFragments;
  }
}
