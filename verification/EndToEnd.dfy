/** A sender and a receiver joined by a network that loses, repeats and reorders
    datagrams: on every channel that carries ordered messages they come out in the order
    they were sent, byte for byte, whatever else is sent beside them
    (src/reliability/layer.rs and src/proto/bytes.rs). */
module EndToEnd {
  import opened Basics
  import opened Datagrams
  import opened Windows
  import WindowRuns
  import opened Splitting
  import opened Ordering
  import opened Senders
  import opened SenderRuns
  import opened Traces
  import opened MessageParts
  import opened Receivers
  import opened ExactlyOnce
  import opened HandedUp
  import opened Delivery
  import Codec

  /** An acknowledgement or a nak. */
  type Control = d: Datagram | !d.Packet? && d.seqs != [] witness Nak([0])

  /** `reports` are the control datagrams the receiver has sent. `handed` is what `recv` has
      given to the application so far, `log` everything that ever came out, tagged with its
      channel, `completed` the messages put together, in order, and `arrived` the fragments of
      all packets handled without an error. */
  datatype System = System(
    run: Run,
    receiver: Receiver,
    receiverAlive: bool,
    reports: seq<Control>,
    handed: seq<Bytes>,
    log: seq<Handed>,
    completed: seq<Fragment>,
    arrived: seq<Fragment>)

  /** A datagram that was ever sent, either way, may be delivered at any time, any number
      of times. */
  datatype Event =
    | SenderStep(action: Action)
    | Arrive(datagram: Datagram, now: nat, rto: nat)
    | Report(shouldSendAck: bool, arrivalRate: Option<Bytes>)
    | ReportArrives(report: Control)
    | Recv

  /** The counters given in `update` still fit the fields that carry them, and packets
      the payload length field. */
  predicate WithinLimits(s: Sender) {
    s.reliableIndex <= Codec.U24_SIZE && s.nextSeq <= Codec.U24_SIZE && s.maxSize < Codec.MAX_PAYLOAD
  }

  ghost predicate Possible(x: System, e: Event) {
    match e
    case SenderStep(action) => Enabled(x.run, action) && SendFits(x.run.sender, action)
    case Arrive(d, _, _) => x.receiverAlive && d in x.run.wire && d.Packet? && WithinLimits(x.run.sender)
    case Report(_, rate) => x.receiverAlive && (rate.Some? ==> |rate.value| == 4)
    case ReportArrives(d) => x.run.alive && d in x.reports
    case Recv => true
  }

  /** What `update` of the receiving layer sends of its lists; it drains those it sends. */
  function Reported(r: Receiver, shouldSendAck: bool, arrivalRate: Option<Bytes>): (Receiver, seq<Control>) {
    var acks: seq<Control> := if shouldSendAck && r.acks != [] then [Ack(arrivalRate, r.acks)] else [];
    var naks: seq<Control> := if r.naks != [] then [Nak(r.naks)] else [];
    (r.(acks := if shouldSendAck then [] else r.acks, naks := []), acks + naks)
  }

  /** The sending layer handles a control datagram; an unreadable one ends it. */
  ghost function Told(r: Run, d: Control): Run
    requires r.alive
  {
    match Codec.GetDatagram(Codec.PutDatagram(d))
    case Ok(Ack(_, seqs)) => Step(r, DoAck(seqs))
    case Ok(Nak(seqs)) => Step(r, DoNak(seqs))
    case _ => r.(alive := false)
  }

  ghost function Next(x: System, e: Event): System
    requires Possible(x, e)
  {
    match e
    case SenderStep(action) => x.(run := Step(x.run, action))
    case Arrive(d, now, rto) =>
      var (r, done) := HandleBytes(x.receiver, now, rto, Codec.PutDatagram(d));
      x.(receiver := r,
         receiverAlive := done.Ok?,
         log := x.log + HandedByPacket(x.receiver, now, rto, d.seqNumber, d.fragments),
         completed := x.completed + WholeByPacket(x.receiver, now, rto, d.seqNumber, d.fragments),
         arrived := if done.Ok? then x.arrived + d.fragments else x.arrived)
    case Report(shouldSendAck, rate) =>
      var (r, sent) := Reported(x.receiver, shouldSendAck, rate);
      x.(receiver := r, reports := x.reports + sent)
    case ReportArrives(d) => x.(run := Told(x.run, d))
    case Recv => x.(receiver := x.receiver.(output := []), handed := x.handed + x.receiver.output)
  }

  /** The events lead from one state to the other. */
  ghost predicate Leads(x: System, events: seq<Event>, end: System)
    decreases |events|
  {
    if events == [] then
      x == end
    else
      Possible(x, events[0]) && Leads(Next(x, events[0]), events[1..], end)
  }

  function Initial(mtu: nat): System
    requires mtu >= MIN_MTU
  {
    System(Start(mtu), NewReceiver(), true, [], [], [], [], [])
  }

  // ---- what is asked of a run ----

  ghost predicate Slipless(x: System, e: Event) {
    e.Arrive? && e.datagram.Packet? ==> NoneSlips(x.receiver, e.datagram.fragments)
  }

  /** No fragment slips through the reliable window a second time. */
  ghost predicate SlipFree(x: System, events: seq<Event>)
    decreases |events|
  {
    events != [] && Possible(x, events[0]) ==> Slipless(x, events[0]) && SlipFree(Next(x, events[0]), events[1..])
  }

  /** No sequenced message is sent on the channel. */
  predicate Unmixed(events: seq<Event>, channel: byte) {
    forall i :: 0 <= i < |events| && events[i].SenderStep? ==> Unsequenced(events[i].action, channel)
  }

  function MessageOf(e: Event, channel: byte): seq<Bytes> {
    if e.SenderStep? && SendsOn(e.action, channel) then [e.action.data] else []
  }

  /** The messages passed to `send` on the channel, in order. */
  function Messages(events: seq<Event>, channel: byte): seq<Bytes> {
    if events == [] then
      []
    else
      MessageOf(events[0], channel) + Messages(events[1..], channel)
  }

  // ---- the invariant ----

  /** Told in full while the receiver lives; afterwards only what came out matters. */
  ghost predicate Sound(x: System, channel: byte, plans: seq<Plan>) {
    && Everywhere(x.run, Fits()) && SenderSound(x.run, plans, channel)
    && Erase(x.log) == x.handed + x.receiver.output
    && Select(x.log, channel) <= Datas(plans)
    && (x.receiverAlive ==> ReceiverSound(x.receiver, x.log, x.arrived, x.run.issued, plans, channel, x.run.sender.splitId))
  }

  lemma SentOneLater(f: Fragment, issued: seq<Fragment>, more: seq<Fragment>, plans: seq<Plan>, plans': seq<Plan>,
                     channel: byte, splitId: nat, splitId': nat)
    requires SentOne(f, issued, plans, channel, splitId)
    requires splitId <= splitId' && plans <= plans'
    requires forall k :: |plans| <= k < |plans'| && plans'[k].splitId.Some? ==> plans'[k].splitId.value >= splitId
    ensures SentOne(f, issued + more, plans', channel, splitId')
  {
    assert plans' == plans + plans'[|plans|..];
    ProperLater(f, plans, plans'[|plans|..], channel, splitId, splitId');
  }

  /** Nothing of a message has arrived before it was sent. */
  lemma NothingArrived(arrived: seq<Fragment>, issued: seq<Fragment>, plans: seq<Plan>, channel: byte, splitId: nat, k: nat)
    requires AllSent(arrived, issued, plans, channel, splitId) && k >= |plans|
    ensures PartsIn(arrived, channel, k) == {}
  {
    forall f | f in arrived && OnChannel(f, channel)
      ensures Key(f).0 != k
    {
      assert SentOne(f, issued, plans, channel, splitId);
    }
  }

  lemma CompleteLater(arrived: seq<Fragment>, issued: seq<Fragment>, plans: seq<Plan>, plans': seq<Plan>, channel: byte, splitId: nat)
    requires AllSent(arrived, issued, plans, channel, splitId) && plans <= plans'
    requires forall k :: |plans| <= k < |plans'| ==> 0 < |plans'[k].chunks|
    ensures CompleteMessages(arrived, plans', channel) == CompleteMessages(arrived, plans, channel)
    ensures forall k :: |plans| <= k < |plans'| ==> !Received(arrived, plans', channel, k)
  {
    hide AllSent, PartsIn;
    forall k: nat | k < |plans'|
      ensures Received(arrived, plans', channel, k) <==> k < |plans| && Received(arrived, plans, channel, k)
    {
      if k >= |plans| {
        NothingArrived(arrived, issued, plans, channel, splitId, k);
        assert 0 !in PartsIn(arrived, channel, k);
      }
    }
  }

  lemma TableLater(table: Table, arrived: seq<Fragment>, issued: seq<Fragment>, plans: seq<Plan>, plans': seq<Plan>,
                   channel: byte, splitId: nat, splitId': nat)
    requires AllSent(arrived, issued, plans, channel, splitId) && TableSound(table, arrived, plans, channel, splitId)
    requires splitId <= splitId' && plans <= plans'
    requires forall k :: |plans| <= k < |plans'| ==>
                           0 < |plans'[k].chunks| && (plans'[k].splitId.Some? ==> plans'[k].splitId.value == splitId)
    ensures TableSound(table, arrived, plans', channel, splitId')
  {
    CompleteLater(arrived, issued, plans, plans', channel, splitId);
    forall k | 0 <= k < |plans'| && plans'[k].splitId.Some?
      ensures EntrySound(table, arrived, plans', channel, k)
    {
      if k < |plans| {
        assert EntrySound(table, arrived, plans, channel, k);
      } else {
        NothingArrived(arrived, issued, plans, channel, splitId, k);
      }
    }
  }

  lemma ReleasedLater(r: Receiver, log: seq<Handed>, order: seq<nat>, messages: seq<Bytes>, messages': seq<Bytes>, channel: byte)
    requires ReleasedSoFar(r, log, order, messages, channel) && messages <= messages'
    ensures ReleasedSoFar(r, log, order, messages', channel)
  {
    hide ReceiveAll;
    assert forall n :: 0 <= n <= |messages| ==> messages'[..n] == messages[..n];
  }

  /** Fragments and messages sent later change nothing for the receiver. */
  lemma ReceiverLater(r: Receiver, log: seq<Handed>, arrived: seq<Fragment>, issued: seq<Fragment>, more: seq<Fragment>,
                      plans: seq<Plan>, plans': seq<Plan>, channel: byte, splitId: nat, splitId': nat)
    requires ReceiverSound(r, log, arrived, issued, plans, channel, splitId)
    requires splitId <= splitId' && plans <= plans'
    requires forall k :: |plans| <= k < |plans'| ==>
                           0 < |plans'[k].chunks| && (plans'[k].splitId.Some? ==> plans'[k].splitId.value == splitId)
    ensures ReceiverSound(r, log, arrived, issued + more, plans', channel, splitId')
  {
    hide SentOne, TableSound, ReleasedSoFar, CompletionOrder, CompleteMessages, IndicesOf;
    forall f | f in arrived
      ensures SentOne(f, issued + more, plans', channel, splitId')
    {
      SentOneLater(f, issued, more, plans, plans', channel, splitId, splitId');
    }
    TableLater(r.splits, arrived, issued, plans, plans', channel, splitId, splitId');
    CompleteLater(arrived, issued, plans, plans', channel, splitId);
    assert Datas(plans) <= Datas(plans');
    ReleasedLater(r, log, CompletionOrder(arrived, channel), Datas(plans), Datas(plans'), channel);
  }

  lemma SenderStepKeepsSound(x: System, e: Event, channel: byte, plans: seq<Plan>)
    requires Sound(x, channel, plans) && e.SenderStep? && Possible(x, e) && Unsequenced(e.action, channel)
    ensures Sound(Next(x, e), channel, PlansAfter(x.run.sender, e.action, plans, channel))
    ensures Datas(PlansAfter(x.run.sender, e.action, plans, channel)) == Datas(plans) + MessageOf(e, channel)
  {
    hide ReceiverSound, Everywhere, Fits, SenderRuns.Inv, CanPushAll, PushAll, Transmits, SendFits;
    var s, s' := x.run.sender, Step(x.run, e.action).sender;
    var plans' := PlansAfter(s, e.action, plans, channel);
    ActionKeepsFitting(x.run, e.action);
    ActionKeepsSender(x.run, e.action, plans, channel);
    if e.action.DoSend? {
      PlansAfterSound(x.run, e.action, plans, channel);
    }
    var issued, issued' := x.run.issued, Step(x.run, e.action).issued;
    assert issued' == issued + issued'[|issued|..];
    assert Datas(plans) <= Datas(plans');
    if x.receiverAlive {
      ReceiverLater(x.receiver, x.log, x.arrived, issued, issued'[|issued|..], plans, plans', channel, s.splitId, s'.splitId);
    }
  }

  /** Control datagrams touch nothing but the history of the sender. */
  lemma TellingKeepsSender(run: Run, d: Control, channel: byte, plans: seq<Plan>)
    requires SenderSound(run, plans, channel) && Everywhere(run, Fits()) && run.alive
    ensures var run' := Told(run, d);
            && SenderSound(run', plans, channel) && Everywhere(run', Fits())
            && run'.issued == run.issued && run'.sender.splitId == run.sender.splitId
  {
    hide Codec.GetDatagram, Codec.PutDatagram, PlansSound, KeysOnce;
    match Codec.GetDatagram(Codec.PutDatagram(d))
    case Ok(Ack(_, seqs)) => StepKeepsInv(run, DoAck(seqs));
    case Ok(Nak(seqs)) => StepKeepsInv(run, DoNak(seqs));
    case _ =>
  }

  lemma ReportKeepsSound(x: System, e: Event, channel: byte, plans: seq<Plan>)
    requires Sound(x, channel, plans) && (e.Report? || e.ReportArrives?) && Possible(x, e)
    ensures Sound(Next(x, e), channel, plans)
  {
    hide SenderSound, Everywhere, WindowRuns.Settled, AllSent, TableSound, CompletionOrder, CompleteMessages, Told;
    if e.ReportArrives? {
      TellingKeepsSender(x.run, e.report, channel, plans);
    }
  }

  // ---- delivery ----

  lemma {:induction false} PartSize(fs: seq<Fragment>, f: Fragment)
    requires f in fs
    ensures |f.data| < SizeOf(fs)
  {
    if f != fs[0] {
      PartSize(fs[1..], f);
    }
  }

  lemma FragmentFits(run: Run, d: Datagram, f: Fragment)
    requires SenderRuns.Inv(run) && Everywhere(run, Fits()) && WithinLimits(run.sender) && d in run.wire && f in d.fragments
    ensures f.Shaped() && f.Numbered() && Codec.InRange(f)
  {
    assert PacketKnown(d, run.issued, run.sender.maxSize, run.sender.nextSeq);
    assert Known(f, run.issued);
    assert Fitting(f) by {
      assert Each(d.fragments, Fits());
    }
    PartSize(d.fragments, f);
  }

  /** Within the limits, a packet is read back just as it was written. */
  lemma WireIsTransparent(run: Run, d: Datagram)
    requires SenderRuns.Inv(run) && Everywhere(run, Fits()) && WithinLimits(run.sender) && d in run.wire
    ensures d.Packet? && Codec.GetDatagram(Codec.PutDatagram(d)) == Ok(d)
    ensures d.seqNumber < Codec.U24_SIZE
  {
    hide Codec.GetDatagram, Codec.PutDatagram, Everywhere;
    assert PacketKnown(d, run.issued, run.sender.maxSize, run.sender.nextSeq);
    forall f | f in d.fragments
      ensures f.Shaped() && f.Numbered() && Codec.InRange(f)
    {
      FragmentFits(run, d, f);
    }
    Codec.DatagramRoundTripIff(d);
  }

  lemma WireIsSent(run: Run, plans: seq<Plan>, channel: byte, d: Datagram)
    requires SenderSound(run, plans, channel) && d in run.wire && d.Packet?
    ensures AllSent(d.fragments, run.issued, plans, channel, run.sender.splitId)
  {
    hide Proper;
    assert PacketKnown(d, run.issued, run.sender.maxSize, run.sender.nextSeq);
    assert Each(d.fragments, ProperOn(plans, channel, run.sender.splitId));
    forall f | f in d.fragments
      ensures SentOne(f, run.issued, plans, channel, run.sender.splitId)
    {
      assert Known(f, run.issued) && ProperOn(plans, channel, run.sender.splitId)(f);
    }
  }

  lemma PacketKeepsSound(r: Receiver, log: seq<Handed>, arrived: seq<Fragment>, issued: seq<Fragment>, plans: seq<Plan>,
                         channel: byte, splitId: nat, d: Datagram, now: nat, rto: nat)
    requires IssuedSound(issued, channel) && PlansSound(plans, splitId)
    requires ReceiverSound(r, log, arrived, issued, plans, channel, splitId)
    requires d.Packet? && AllSent(d.fragments, issued, plans, channel, splitId) && NoneSlips(r, d.fragments)
    ensures var (r', done) := HandlePacket(r, now, rto, d.seqNumber, d.fragments);
            var log' := log + HandedByPacket(r, now, rto, d.seqNumber, d.fragments);
            && (done.Ok? ==> ReceiverSound(r', log', arrived + d.fragments, issued, plans, channel, splitId))
            && Select(log', channel) <= Datas(plans)
  {
    hide IssuedSound, PlansSound, AllSent, NoneSlips, Select, HandleFragments, HandedByFragments;
    SoundIsPrefix(r, log, arrived, issued, plans, channel, splitId);
    var (r1, done) := HandleSeq(r, now, rto, d.seqNumber);
    assert log + [] == log;
    if done.Ok? {
      SeqLeavesSound(r, r1, log, arrived, issued, plans, channel, splitId, now, rto, d.seqNumber);
      SeqLeavesFragments(r, r1, d.fragments);
      HandleAllSent(r1, log, arrived, issued, plans, channel, splitId, d.fragments);
    }
  }

  lemma SeqLeavesSound(r: Receiver, r1: Receiver, log: seq<Handed>, arrived: seq<Fragment>, issued: seq<Fragment>, plans: seq<Plan>,
                       channel: byte, splitId: nat, now: nat, rto: nat, seqNumber: nat)
    requires ReceiverSound(r, log, arrived, issued, plans, channel, splitId) && r1 == HandleSeq(r, now, rto, seqNumber).0
    ensures r1 == r.(seqWindow := r1.seqWindow, acks := r1.acks, naks := r1.naks)
    ensures ReceiverSound(r1, log, arrived, issued, plans, channel, splitId)
  {
    hide WindowRuns.Settled, AllSent, TableSound, CompletionOrder, CompleteMessages, CollectMissing;
  }

  /** Sequence numbers have no influence on what happens to fragments. */
  lemma {:induction false} SeqLeavesFragments(r: Receiver, r': Receiver, fs: seq<Fragment>)
    requires r' == r.(seqWindow := r'.seqWindow, acks := r'.acks, naks := r'.naks) && NoneSlips(r, fs)
    ensures NoneSlips(r', fs)
    decreases |fs|
  {
    if fs != [] {
      var next, next' := HandleFragment(r, fs[0]).0, HandleFragment(r', fs[0]).0;
      assert next' == next.(seqWindow := r'.seqWindow, acks := r'.acks, naks := r'.naks);
      if HandleFragment(r, fs[0]).1.Ok? {
        SeqLeavesFragments(next, next', fs[1..]);
      }
    }
  }

  lemma ArriveKeepsSound(x: System, e: Event, channel: byte, plans: seq<Plan>)
    requires Sound(x, channel, plans) && e.Arrive? && Possible(x, e) && Slipless(x, e)
    ensures Sound(Next(x, e), channel, plans)
  {
    hide Codec.GetDatagram, Codec.PutDatagram, SenderSound, ReceiverSound, IssuedSound, NoneSlips, AllSent, HandlePacket, HandedByPacket, Everywhere;
    var d := e.datagram;
    PlansAreSound(x.run, plans, channel);
    WireIsTransparent(x.run, d);
    WireIsSent(x.run, plans, channel, d);
    SenderIssues(x.run, plans, channel);
    PacketKeepsSound(x.receiver, x.log, x.arrived, x.run.issued, plans, channel, x.run.sender.splitId, d, e.now, e.rto);
    PacketHands(x.receiver, e.now, e.rto, d.seqNumber, d.fragments);
    var handed := HandedByPacket(x.receiver, e.now, e.rto, d.seqNumber, d.fragments);
    EraseAppend(x.log, handed);
    assert x.handed + (x.receiver.output + Erase(handed)) == (x.handed + x.receiver.output) + Erase(handed);
    assert HandleBytes(x.receiver, e.now, e.rto, Codec.PutDatagram(d)) ==
           HandlePacket(x.receiver, e.now, e.rto, d.seqNumber, d.fragments);
  }

  lemma PlansAreSound(run: Run, plans: seq<Plan>, channel: byte)
    requires SenderSound(run, plans, channel)
    ensures PlansSound(plans, run.sender.splitId) && SenderRuns.Inv(run)
  {
  }

  lemma RecvKeepsSound(x: System, e: Event, channel: byte, plans: seq<Plan>)
    requires Sound(x, channel, plans) && e.Recv?
    ensures Sound(Next(x, e), channel, plans)
  {
    hide SenderSound, WindowRuns.Settled, AllSent, TableSound, CompletionOrder, CompleteMessages;
    assert x.handed + x.receiver.output + [] == x.handed + x.receiver.output;
  }

  // ---- every run ----

  lemma EventKeepsSound(x: System, e: Event, channel: byte, plans: seq<Plan>) returns (plans': seq<Plan>)
    requires Sound(x, channel, plans) && Possible(x, e) && Slipless(x, e)
    requires e.SenderStep? ==> Unsequenced(e.action, channel)
    ensures Sound(Next(x, e), channel, plans')
    ensures Datas(plans') == Datas(plans) + MessageOf(e, channel)
  {
    hide Sound, Slipless, Unsequenced;
    plans' := plans;
    assert Datas(plans) + [] == Datas(plans);
    match e {
      case SenderStep(action) =>
        SenderStepKeepsSound(x, e, channel, plans);
        plans' := PlansAfter(x.run.sender, action, plans, channel);
      case Arrive(_, _, _) =>
        ArriveKeepsSound(x, e, channel, plans);
      case Recv =>
        RecvKeepsSound(x, e, channel, plans);
      case _ =>
        ReportKeepsSound(x, e, channel, plans);
    }
  }

  lemma JoinedMessages(a: seq<Bytes>, b: seq<Bytes>, c: seq<Bytes>)
    ensures (a + b) + c == a + (b + c)
  {
  }

  lemma {:induction false} RunIsSound(x: System, events: seq<Event>, channel: byte, end: System, plans: seq<Plan>)
    returns (plans': seq<Plan>)
    requires Sound(x, channel, plans) && Leads(x, events, end) && SlipFree(x, events) && Unmixed(events, channel)
    ensures Datas(plans') == Datas(plans) + Messages(events, channel)
    ensures Sound(end, channel, plans')
    decreases |events|
  {
    hide Sound, Possible, Next, Slipless, Unsequenced;
    if events == [] {
      plans' := plans;
      assert Datas(plans) + [] == Datas(plans);
    } else {
      var plans1 := EventKeepsSound(x, events[0], channel, plans);
      plans' := RunIsSound(Next(x, events[0]), events[1..], channel, end, plans1);
      JoinedMessages(Datas(plans), MessageOf(events[0], channel), Messages(events[1..], channel));
    }
  }

  lemma InitialIsSound(mtu: nat, channel: byte)
    requires mtu >= MIN_MTU && channel < ORDERING_CHANNEL_SIZE
    ensures Sound(Initial(mtu), channel, [])
  {
    hide SenderRuns.Inv;
    StartInv(mtu);
    assert SenderSound(Initial(mtu).run, [], channel);
    NothingReceived(Initial(mtu).receiver, Initial(mtu).run, channel);
  }

  lemma NothingReceived(r: Receiver, run: Run, channel: byte)
    requires r == NewReceiver() && channel < ORDERING_CHANNEL_SIZE
    ensures ReceiverSound(r, [], [], run.issued, [], channel, run.sender.splitId)
  {
    assert ReceiveAll([]).0 == Closed();
    assert CompletionOrder([], channel) == [];
    assert IndicesOf([]) == {};
  }

  /** Whatever the network loses, repeats or reorders, as long as no fragment slips through
      the reliable window a second time; whatever the sender acknowledges, retransmits or
      prioritises, and however the heap breaks its ties; whatever is sent unordered,
      unreliably or on other channels beside it: what has come out of an ordered channel
      is a prefix of the messages given to `send` on it, and the log that says so is all
      that was handed up. */
  lemma MessagesArriveInOrder(mtu: nat, channel: byte, events: seq<Event>, end: System)
    requires mtu >= MIN_MTU && channel < ORDERING_CHANNEL_SIZE
    requires Leads(Initial(mtu), events, end) && SlipFree(Initial(mtu), events) && Unmixed(events, channel)
    ensures Erase(end.log) == end.handed + end.receiver.output
    ensures Select(end.log, channel) <= Messages(events, channel)
  {
    hide SenderSound, ReceiverSound, Leads, SlipFree, Unmixed, Messages, Select;
    InitialIsSound(mtu, channel);
    var plans := RunIsSound(Initial(mtu), events, channel, end, []);
    assert Datas([]) + Messages(events, channel) == Messages(events, channel);
  }

  /** While the receiver lives, every message of the channel that is complete has come out
      if and only if no earlier one is missing, and none of those completed closed the
      lowest gap while a higher one was open. */
  lemma AllMessagesOutIff(mtu: nat, channel: byte, events: seq<Event>, end: System)
    requires mtu >= MIN_MTU && channel < ORDERING_CHANNEL_SIZE
    requires Leads(Initial(mtu), events, end) && SlipFree(Initial(mtu), events) && Unmixed(events, channel)
    requires end.receiverAlive
    ensures var order := CompletionOrder(end.arrived, channel);
            && Distinct(order)
            && ((forall k <- order :: k < |Select(end.log, channel)|) <==> GapFree(SetOf(order)) && ClosesGaps(order))
  {
    hide GapFree, ClosesGaps, CompletionOrder, Leads, SlipFree, Unmixed;
    InitialIsSound(mtu, channel);
    var plans := RunIsSound(Initial(mtu), events, channel, end, []);
    ReleasedIff(end.receiver, end.log, end.arrived, end.run.issued, plans, channel, end.run.sender.splitId);
  }
}
