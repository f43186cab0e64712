/** The loop closed: the receiver's own acknowledgements travel back over the same network,
    lost, repeated and late, and decide what the sender gives up. Nothing that has not
    arrived is given up (src/reliability/layer.rs:147-172, 329-355 and 370-398). */
module ClosedLoop {
  import opened Basics
  import opened Datagrams
  import opened Retransmission
  import opened RetransmissionRuns
  import opened Splitting
  import opened Ordering
  import opened Senders
  import opened SenderRuns
  import opened Acknowledgements
  import opened SequencedMessages
  import opened Traces
  import opened MessageParts
  import opened Receivers
  import opened HandedUp
  import opened Delivery
  import opened EndToEnd
  import opened Provenance
  import Codec

  // ---- what is asked of a run ----

  /** The numbers the sender reads in a control datagram, if it is an acknowledgement. */
  function AcksRead(d: Control): seq<nat> {
    match Codec.GetDatagram(Codec.PutDatagram(d))
    case Ok(Ack(_, seqs)) => seqs
    case _ => []
  }

  /** The sender handles no acknowledgement but the receiver's, and it is rightful then. */
  ghost predicate Trusted(x: System, e: Event) {
    match e
    case SenderStep(action) => !action.DoAck?
    case ReportArrives(d) => Rightful(x.run.sender.cache, AcksRead(d))
    case _ => true
  }

  ghost predicate TrustedRun(x: System, events: seq<Event>)
    decreases |events|
  {
    events != [] && Possible(x, events[0]) ==> Trusted(x, events[0]) && TrustedRun(Next(x, events[0]), events[1..])
  }

  /** The same, as a sender can tell: acknowledgements name only the last 128 numbers sent. */
  ghost predicate Prompt(x: System, e: Event) {
    match e
    case SenderStep(action) => !action.DoAck?
    case ReportArrives(d) => Recent(x.run.sender.nextSeq, AcksRead(d))
    case _ => true
  }

  ghost predicate PromptRun(x: System, events: seq<Event>)
    decreases |events|
  {
    events != [] && Possible(x, events[0]) ==> Prompt(x, events[0]) && PromptRun(Next(x, events[0]), events[1..])
  }

  // ---- the invariant ----

  /** Packet `s` was handled by the receiver without an error. */
  ghost predicate Got(wire: seq<Datagram>, arrived: seq<Fragment>, s: nat) {
    s < Codec.U24_SIZE && s < |wire| && wire[s].Packet? && forall f <- wire[s].fragments :: f in arrived
  }

  ghost predicate AllGot(wire: seq<Datagram>, arrived: seq<Fragment>, seqs: seq<nat>) {
    forall s <- seqs :: Got(wire, arrived, s)
  }

  /** Whatever the receiver acknowledges or has acknowledged it has got. */
  ghost predicate Truthful(x: System) {
    && (x.receiverAlive ==> AllGot(x.run.wire, x.arrived, x.receiver.acks))
    && forall d <- x.reports :: Codec.WellFormed(d) && (d.Ack? ==> AllGot(x.run.wire, x.arrived, d.seqs))
  }

  ghost predicate AckedArrived(acked: multiset<Fragment>, arrived: seq<Fragment>) {
    forall f <- acked :: f in arrived
  }

  ghost predicate Sane(run: Run) {
    SenderRuns.Inv(run) && OnWire(run) && Everywhere(run, Fits())
  }

  ghost predicate Loop(x: System) {
    Sane(x.run) && Truthful(x) && AckedArrived(x.run.acked, x.arrived)
  }

  lemma GotLater(wire: seq<Datagram>, wire': seq<Datagram>, arrived: seq<Fragment>, more: seq<Fragment>, seqs: seq<nat>)
    requires AllGot(wire, arrived, seqs) && wire <= wire'
    ensures AllGot(wire', arrived + more, seqs)
  {
    forall s | s in seqs
      ensures Got(wire', arrived + more, s)
    {
      assert Got(wire, arrived, s);
    }
  }

  lemma TruthfulLater(x: System, x': System, more: seq<Fragment>)
    requires Truthful(x) && x.run.wire <= x'.run.wire && x'.arrived == x.arrived + more && x'.reports == x.reports
    requires x'.receiverAlive ==> AllGot(x'.run.wire, x'.arrived, x'.receiver.acks)
    ensures Truthful(x')
  {
    hide AllGot;
    forall d | d in x'.reports
      ensures Codec.WellFormed(d) && (d.Ack? ==> AllGot(x'.run.wire, x'.arrived, d.seqs))
    {
      if d.Ack? {
        GotLater(x.run.wire, x'.run.wire, x.arrived, more, d.seqs);
      }
    }
  }

  // ---- the sender ----

  lemma SenderStepKeepsLoop(x: System, e: Event)
    requires Loop(x) && e.SenderStep? && Possible(x, e) && Trusted(x, e)
    ensures Loop(Next(x, e))
  {
    hide SenderRuns.Inv, OnWire, Everywhere, Fits, AllGot, Transmits, CanPushAll, PushAll, SendFits, Enabled;
    StepKeepsInv(x.run, e.action);
    StepKeepsOnWire(x.run, e.action);
    ActionKeepsFitting(x.run, e.action);
    assert x.arrived + [] == x.arrived;
    if x.receiverAlive {
      GotLater(x.run.wire, Next(x, e).run.wire, x.arrived, [], x.receiver.acks);
    }
    TruthfulLater(x, Next(x, e), []);
  }

  /** What the sender takes an acknowledgement to name, the receiver has got. */
  lemma ReadIsGot(wire: seq<Datagram>, arrived: seq<Fragment>, d: Control)
    requires Codec.WellFormed(d) && (d.Ack? ==> AllGot(wire, arrived, d.seqs))
    requires d.Nak? ==> AcksRead(d) == []
    ensures AllGot(wire, arrived, AcksRead(d))
  {
    hide Codec.GetDatagram, Codec.PutDatagram;
    if d.Ack? {
      forall i | 0 <= i < |d.seqs|
        ensures d.seqs[i] < Codec.U24_SIZE
      {
        assert Got(wire, arrived, d.seqs[i]);
      }
      Codec.AckNamesNoMore(d);
    }
  }

  lemma NakIsNoAck(d: Control)
    requires d.Nak?
    ensures AcksRead(d) == []
  {
    hide Codec.GetSeqs;
    Codec.GetNak(Codec.PutSeqs(d.seqs));
  }

  lemma AckedAreGot(run: Run, arrived: seq<Fragment>, seqs: seq<nat>)
    requires OnWire(run) && run.alive && Rightful(run.sender.cache, seqs) && AllGot(run.wire, arrived, seqs)
    ensures AckedArrived(multiset(AckAll(run.sender.cache, seqs).1), arrived)
  {
    hide AckAll, SlotsOnWire, Covers;
    AckedWereNamed(run.sender.cache, seqs, seqs, run.wire);
    forall f | f in AckAll(run.sender.cache, seqs).1
      ensures f in arrived
    {
      var s :| s in Numbers(seqs) && s < |run.wire| && run.wire[s].Packet? && f in run.wire[s].fragments;
      assert Got(run.wire, arrived, s);
    }
  }

  lemma TellingKeepsSane(run: Run, d: Control)
    requires Sane(run) && run.alive
    ensures Sane(Told(run, d)) && Told(run, d).wire == run.wire
    ensures Told(run, d).acked == run.acked + multiset(AckAll(run.sender.cache, AcksRead(d)).1)
  {
    hide Codec.GetDatagram, Codec.PutDatagram, Everywhere, AckAll, NakAll;
    TellingKeepsFitting(run, d, Fits());
    match Codec.GetDatagram(Codec.PutDatagram(d))
    case Ok(Ack(_, seqs)) =>
      StepKeepsInv(run, DoAck(seqs));
      StepKeepsOnWire(run, DoAck(seqs));
    case Ok(Nak(seqs)) =>
      StepKeepsInv(run, DoNak(seqs));
      StepKeepsOnWire(run, DoNak(seqs));
      NothingAcked(run.sender.cache);
    case _ =>
      NothingAcked(run.sender.cache);
  }

  lemma NothingAcked(c: Cache)
    ensures AckAll(c, []).1 == []
  {
  }

  lemma ReportArrivesKeepsLoop(x: System, e: Event)
    requires Loop(x) && e.ReportArrives? && Possible(x, e) && Trusted(x, e)
    ensures Loop(Next(x, e))
  {
    hide Sane, AllGot, AcksRead, Told, Rightful;
    var d := e.report;
    if d.Nak? {
      NakIsNoAck(d);
    }
    ReadIsGot(x.run.wire, x.arrived, d);
    TellingKeepsSane(x.run, d);
    SaneIsOnWire(x.run);
    AckedAreGot(x.run, x.arrived, AcksRead(d));
    assert x.arrived + [] == x.arrived;
    TruthfulLater(x, Next(x, e), []);
  }

  lemma SaneIsOnWire(run: Run)
    requires Sane(run)
    ensures OnWire(run)
  {
  }

  // ---- the receiver ----

  lemma {:induction false} FragmentsLeaveAcks(r: Receiver, fs: seq<Fragment>)
    ensures HandleFragments(r, fs).0.acks == r.acks
    decreases |fs|
  {
    if fs != [] {
      FragmentLeavesAcks(r, fs[0]);
      if HandleFragment(r, fs[0]).1.Ok? {
        FragmentsLeaveAcks(HandleFragment(r, fs[0]).0, fs[1..]);
      }
    }
  }

  lemma FragmentLeavesAcks(r: Receiver, f: Fragment)
    ensures HandleFragment(r, f).0.acks == r.acks
  {
    hide Admit, Completed, Receive;
  }

  lemma PacketAcked(r: Receiver, now: nat, rto: nat, seqNumber: nat, fs: seq<Fragment>)
    requires HandlePacket(r, now, rto, seqNumber, fs).1.Ok?
    ensures HandlePacket(r, now, rto, seqNumber, fs).0.acks == r.acks + [seqNumber]
  {
    FragmentsLeaveAcks(HandleSeq(r, now, rto, seqNumber).0, fs);
  }

  lemma ArriveKeepsLoop(x: System, e: Event)
    requires Loop(x) && e.Arrive? && Possible(x, e)
    ensures Loop(Next(x, e))
  {
    hide Codec.GetDatagram, Codec.PutDatagram, SenderRuns.Inv, Everywhere, HandlePacket, HandedByPacket, WholeByPacket, AllGot, SlotsOnWire, WithinLimits;
    var d, x' := e.datagram, Next(x, e);
    WireIsTransparent(x.run, d);
    assert HandleBytes(x.receiver, e.now, e.rto, Codec.PutDatagram(d)) ==
           HandlePacket(x.receiver, e.now, e.rto, d.seqNumber, d.fragments);
    if x'.receiverAlive {
      PacketAcked(x.receiver, e.now, e.rto, d.seqNumber, d.fragments);
      GotLater(x.run.wire, x.run.wire, x.arrived, d.fragments, x.receiver.acks);
      NewlyGot(x.run, x.arrived, x.receiver.acks, d);
      TruthfulLater(x, x', d.fragments);
    } else {
      assert x.arrived + [] == x.arrived;
      TruthfulLater(x, x', []);
    }
  }

  lemma NewlyGot(run: Run, arrived: seq<Fragment>, acks: seq<nat>, d: Datagram)
    requires OnWire(run) && d in run.wire && d.Packet? && d.seqNumber < Codec.U24_SIZE
    requires AllGot(run.wire, arrived + d.fragments, acks)
    ensures AllGot(run.wire, arrived + d.fragments, acks + [d.seqNumber])
  {
    hide SlotsOnWire;
    var n :| 0 <= n < |run.wire| && run.wire[n] == d;
    assert Got(run.wire, arrived + d.fragments, d.seqNumber);
  }

  lemma ReportKeepsLoop(x: System, e: Event)
    requires Loop(x) && e.Report? && Possible(x, e)
    ensures Loop(Next(x, e))
  {
    hide Sane;
  }

  // ---- every run ----

  lemma EventKeepsLoop(x: System, e: Event)
    requires Loop(x) && Possible(x, e) && Trusted(x, e)
    ensures Loop(Next(x, e))
  {
    hide Trusted, Sane;
    match e
    case SenderStep(_) => SenderStepKeepsLoop(x, e);
    case Arrive(_, _, _) => ArriveKeepsLoop(x, e);
    case Report(_, _) => ReportKeepsLoop(x, e);
    case ReportArrives(_) => ReportArrivesKeepsLoop(x, e);
    case Recv =>
  }

  lemma {:induction false} RunKeepsLoop(x: System, events: seq<Event>, end: System)
    requires Loop(x) && Leads(x, events, end) && TrustedRun(x, events)
    ensures Loop(end)
    decreases |events|
  {
    hide Loop, Trusted, Possible, Next;
    if events != [] {
      EventKeepsLoop(x, events[0]);
      RunKeepsLoop(Next(x, events[0]), events[1..], end);
    }
  }

  lemma InitialLoop(mtu: nat)
    requires mtu >= MIN_MTU
    ensures Loop(Initial(mtu))
  {
    hide SenderRuns.Inv, SlotsOnWire;
    StartTraced(mtu);
    StartOnWire(mtu);
  }

  lemma InvOfLoop(x: System)
    requires Loop(x)
    ensures SenderRuns.Inv(x.run) && AckedArrived(x.run.acked, x.arrived)
  {
  }

  lemma PromptIsTrusted(x: System, e: Event)
    requires Loop(x) && Possible(x, e) && Prompt(x, e)
    ensures Trusted(x, e)
  {
    hide AcksRead, Rightful, Recent, Exact, Truthful, AckedArrived, Everywhere;
    if e.ReportArrives? {
      RecentIsRightful(x.run.sender.cache, x.run.sender.nextSeq, AcksRead(e.report));
    }
  }

  lemma {:induction false} PromptRunIsTrusted(x: System, events: seq<Event>)
    requires Loop(x) && PromptRun(x, events)
    ensures TrustedRun(x, events)
    decreases |events|
  {
    hide Loop, Trusted, Prompt, Possible, Next;
    if events != [] && Possible(x, events[0]) {
      PromptIsTrusted(x, events[0]);
      EventKeepsLoop(x, events[0]);
      PromptRunIsTrusted(Next(x, events[0]), events[1..]);
    }
  }

  /** Nothing is lost in the loop: whatever the network does to packets and to the
      receiver's acknowledgements, as long as these are rightful when they are handled,
      every fragment given a reliable index is still to be acknowledged, in the history or
      the retransmit queue, or has arrived. */
  lemma NothingIsLostInTheLoop(mtu: nat, events: seq<Event>, end: System)
    requires mtu >= MIN_MTU && Leads(Initial(mtu), events, end) && TrustedRun(Initial(mtu), events)
    requires end.run.alive
    ensures forall i :: 0 <= i < |end.run.issued| ==>
                          end.run.issued[i] in Outstanding(end.run.sender.cache) || end.run.issued[i] in end.arrived
  {
    hide Leads, TrustedRun, Loop, Exact, Timed, WireKnown, InOrder, Shape;
    InitialLoop(mtu);
    RunKeepsLoop(Initial(mtu), events, end);
    InvOfLoop(end);
    forall i | 0 <= i < |end.run.issued| && end.run.issued[i] !in end.arrived
      ensures end.run.issued[i] in Outstanding(end.run.sender.cache)
    {
      assert end.run.issued[i] in multiset(end.run.issued);
    }
  }

  /** Acknowledgements that come before 128 more packets are sent are rightful. */
  lemma NothingPromptIsLost(mtu: nat, events: seq<Event>, end: System)
    requires mtu >= MIN_MTU && Leads(Initial(mtu), events, end) && PromptRun(Initial(mtu), events)
    requires end.run.alive
    ensures forall i :: 0 <= i < |end.run.issued| ==>
                          end.run.issued[i] in Outstanding(end.run.sender.cache) || end.run.issued[i] in end.arrived
  {
    hide Leads, PromptRun, TrustedRun, Loop;
    InitialLoop(mtu);
    PromptRunIsTrusted(Initial(mtu), events);
    NothingIsLostInTheLoop(mtu, events, end);
  }

  // ---- when the sender has nothing left ----

  /** The sender is done: what `is_empty` looks at is empty, and so is the heap. */
  predicate Done(s: Sender) {
    IsEmpty(s.cache) && s.schedule.queue == []
  }

  lemma AllIssuedArrived(mtu: nat, events: seq<Event>, end: System)
    requires mtu >= MIN_MTU && Leads(Initial(mtu), events, end) && TrustedRun(Initial(mtu), events)
    requires end.run.alive && Done(end.run.sender)
    ensures forall f <- end.run.issued :: f in end.arrived
  {
    hide Leads, TrustedRun, Loop, InFlight, WireKnown, InOrder, Shape, Conserved, IsEmpty;
    InitialLoop(mtu);
    RunKeepsLoop(Initial(mtu), events, end);
    InvOfLoop(end);
    NothingIsLostInTheLoop(mtu, events, end);
    var c := end.run.sender.cache;
    EmptyIff(c, end.run.sender.nextSeq);
    InFlightEmpty(c.slots);
  }

  ghost predicate HasArrived(g: Fragment, arrived: seq<Fragment>) {
    exists f <- arrived :: f.(reliableIndex := None) == g
  }

  /** When the sender has nothing left to send or to wait for, every part of every reliable
      message, on any channel or none, has arrived. */
  lemma EverythingArrives(mtu: nat, events: seq<Event>, end: System) returns (plans: seq<Plan>)
    requires mtu >= MIN_MTU && Leads(Initial(mtu), events, end) && TrustedRun(Initial(mtu), events)
    requires end.run.alive && Done(end.run.sender)
    ensures OnChannels(Sends(events)) && WholeRequests(Sends(events), plans)
    ensures forall k :: 0 <= k < |plans| ==> PlanSound(plans[k])
    ensures forall k, i :: 0 <= k < |plans| && 0 <= i < |plans[k].chunks| && plans[k].whole.reliability.IsReliable() ==>
                             HasArrived(plans[k].Part(i), end.arrived)
  {
    hide Leads, TrustedRun, Sends, Everywhere, SenderRuns.Inv, Accounted, TableTraced, AllWhole, PlanSound, IsEmpty,
         SequenceIndex, OrderingIndices, OnChannels, WholeOf;
    assert [] + Sends(events) == Sends(events);
    InitialIsGenuine(mtu, 0);
    plans := RunIsGenuine(Initial(mtu), events, end, [], [], 0);
    AllIssuedArrived(mtu, events, end);
    forall k, i | 0 <= k < |plans| && 0 <= i < |plans[k].chunks| && plans[k].whole.reliability.IsReliable()
      ensures HasArrived(plans[k].Part(i), end.arrived)
    {
      assert OnItsWay(end.run, plans[k].Part(i));
    }
  }

  // ---- and on an ordered channel ----

  lemma {:induction false} KeyFound(fs: seq<Fragment>, channel: byte, key: (nat, nat)) returns (i: nat)
    requires Keys(fs, channel)[key] > 0
    ensures i < |fs| && OnChannel(fs[i], channel) && Key(fs[i]) == key
  {
    if OnChannel(fs[0], channel) && Key(fs[0]) == key {
      i := 0;
    } else {
      i := KeyFound(fs[1..], channel, key);
      i := i + 1;
    }
  }

  lemma AllReceived(run: Run, plans: seq<Plan>, channel: byte, arrived: seq<Fragment>)
    requires SenderSound(run, plans, channel) && run.sender.schedule.queue == []
    requires forall f <- run.issued :: f in arrived
    ensures forall k: nat :: k in CompleteMessages(arrived, plans, channel) <==> k < |plans|
  {
    hide Everywhere, SenderRuns.Inv, PlansSound;
    assert QueueKeys(run.sender.schedule.queue, channel) == multiset{};
    forall k: nat | k < |plans|
      ensures Received(arrived, plans, channel, k)
    {
      forall i | 0 <= i < |plans[k].chunks|
        ensures i in PartsIn(arrived, channel, k)
      {
        assert (Keys(run.issued, channel) + QueueKeys(run.sender.schedule.queue, channel))[(k, i)] == 1;
        var j := KeyFound(run.issued, channel, (k, i));
        assert run.issued[j] in arrived && PartIndex(run.issued[j]) == i;
      }
    }
  }

  /** When the sender has nothing left and the receiver lives, every message of an ordered
      channel is complete, and everything that was sent on it has come out if and only if
      no message completed closed the lowest gap while a higher one was open. */
  lemma EverythingIsOutIff(mtu: nat, channel: byte, events: seq<Event>, end: System)
    requires mtu >= MIN_MTU && channel < ORDERING_CHANNEL_SIZE && Leads(Initial(mtu), events, end)
    requires TrustedRun(Initial(mtu), events) && SlipFree(Initial(mtu), events) && Unmixed(events, channel)
    requires end.run.alive && Done(end.run.sender) && end.receiverAlive
    ensures var order := CompletionOrder(end.arrived, channel);
            && Distinct(order) && (forall k: nat :: k in order <==> k < |Messages(events, channel)|)
            && (Select(end.log, channel) == Messages(events, channel) <==> ClosesGaps(order))
  {
    hide Leads, TrustedRun, SlipFree, Unmixed, CompletionOrder, ClosesGaps, Messages, Select, IsEmpty;
    InitialIsSound(mtu, channel);
    var plans := RunIsSound(Initial(mtu), events, channel, end, []);
    assert Datas([]) + Messages(events, channel) == Messages(events, channel);
    AllIssuedArrived(mtu, events, end);
    var order := CompletionOrder(end.arrived, channel);
    OrderIsAll(end, plans, channel);
    ReleasedIff(end.receiver, end.log, end.arrived, end.run.issued, plans, channel, end.run.sender.splitId);
    SoundIsPrefix(end.receiver, end.log, end.arrived, end.run.issued, plans, channel, end.run.sender.splitId);
    assert |Select(end.log, channel)| in order <==> |Select(end.log, channel)| < |Messages(events, channel)|;
  }

  lemma OrderIsAll(x: System, plans: seq<Plan>, channel: byte)
    requires Sound(x, channel, plans) && x.receiverAlive && x.run.sender.schedule.queue == []
    requires forall f <- x.run.issued :: f in x.arrived
    ensures var order := CompletionOrder(x.arrived, channel);
            Distinct(order) && GapFree(SetOf(order)) && forall k: nat :: k in order <==> k < |plans|
  {
    hide SenderSound, CompleteMessages, CompletionOrder, ReleasedSoFar, TableSound, AllSent, Everywhere;
    AllReceived(x.run, plans, channel, x.arrived);
    forall k: nat
      ensures k in CompletionOrder(x.arrived, channel) <==> k < |plans|
    {
      InSetOf(CompletionOrder(x.arrived, channel), k);
    }
  }
}
