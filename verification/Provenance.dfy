/** Whatever comes out was put in. Over a hostile network, every message handed up is,
    byte for byte, one that was given to `send`, on the channel it comes out of; and a
    channel of sequenced messages hands up those newer than all before them
    (src/reliability/layer.rs:400-586). */
module Provenance {
  import opened Basics
  import opened Datagrams
  import opened Splitting
  import opened Ordering
  import opened Senders
  import opened SenderRuns
  import opened SequencedMessages
  import opened Traces
  import opened Receivers
  import opened HandedUp
  import opened EndToEnd
  import Codec

  // ---- the calls of send ----

  function RequestsOf(e: Event): seq<Request> {
    if e.SenderStep? && e.action.DoSend? then
      [Request(e.action.reliability, e.action.channel, e.action.data)]
    else
      []
  }

  /** The calls of `send`, in order. */
  function Sends(events: seq<Event>): seq<Request> {
    if events == [] then [] else RequestsOf(events[0]) + Sends(events[1..])
  }

  lemma TellingKeepsTraced(run: Run, d: Control, sends: seq<Request>, plans: seq<Plan>)
    requires Traced(run, sends, plans) && run.alive
    ensures Traced(Told(run, d), sends, plans)
  {
    hide Codec.GetDatagram, Codec.PutDatagram, PlansSound, NoPartForgotten, Everywhere;
    match Codec.GetDatagram(Codec.PutDatagram(d))
    case Ok(Ack(_, seqs)) => ActionKeepsTraced(run, DoAck(seqs), sends, plans);
    case Ok(Nak(seqs)) => ActionKeepsTraced(run, DoNak(seqs), sends, plans);
    case _ =>
      SameOnItsWay(run, Told(run, d), plans);
      assert Everywhere(Told(run, d), PlannedIn(plans)) by {
        SameEverywhere(run, Told(run, d), PlannedIn(plans));
      }
  }

  lemma SameEverywhere(run: Run, run': Run, p: Fragment -> bool)
    requires Everywhere(run, p) && run' == run.(alive := run'.alive)
    ensures Everywhere(run', p)
  {
  }

  // ---- messages put together ----

  /** The message of a plan, whatever its last fragment has left on it. */
  predicate IsWhole(m: Fragment, plan: Plan) {
    m.(reliableIndex := None, splitInfo := None) == plan.whole
  }

  predicate EntryOf(slots: seq<Option<Bytes>>, plan: Plan) {
    && |slots| == |plan.chunks|
    && forall i :: 0 <= i < |slots| && slots[i].Some? ==> slots[i].value == plan.chunks[i]
  }

  predicate HasEntry(table: Table, id: nat, plan: Plan)
    requires id in table
  {
    plan.splitId == Some(id) && EntryOf(table[id], plan)
  }

  /** Every entry gathers the pieces of one message that was sent. */
  ghost predicate TableTraced(table: Table, plans: seq<Plan>) {
    forall id <- table :: exists k :: 0 <= k < |plans| && HasEntry(table, id, plans[k])
  }

  lemma AssembleWhole(slots: seq<Option<Bytes>>, plan: Plan)
    requires PlanSound(plan) && EntryOf(slots, plan) && Complete(slots)
    ensures Assemble(slots) == plan.whole.data
  {
    AssembleJoin(slots, plan.chunks);
  }

  lemma PieceTraced(table: Table, f: Fragment, plans: seq<Plan>, splitId: nat, k: nat, i: nat)
    requires PlansSound(plans, splitId) && TableTraced(table, plans)
    requires k < |plans| && IsPartOf(f, plans[k], i) && plans[k].splitId.Some?
    ensures var (table', whole) := Reassemble(table, f);
            && TableTraced(table', plans)
            && whole.Ok? && (whole.value.Some? ==> IsWhole(whole.value.value, plans[k]))
  {
    hide Assemble, Join;
    var id := plans[k].splitId.value;
    assert PlanSound(plans[k]) && f.splitInfo == Some(SplitInfo(|plans[k].chunks|, id, i));
    var (table', whole) := Reassemble(table, f);
    if id in table {
      var j :| 0 <= j < |plans| && HasEntry(table, id, plans[j]);
      assert j == k;
      var slots := table[id][i := Some(f.data)];
      assert EntryOf(slots, plans[k]);
      if Complete(slots) {
        AssembleWhole(slots, plans[k]);
      }
    }
    forall other | other in table'
      ensures exists j :: 0 <= j < |plans| && HasEntry(table', other, plans[j])
    {
      if other == id {
        assert HasEntry(table', id, plans[k]);
      } else {
        var j :| 0 <= j < |plans| && HasEntry(table, other, plans[j]);
        assert HasEntry(table', other, plans[j]);
      }
    }
  }

  ghost predicate IsOneOf(m: Fragment, plans: seq<Plan>) {
    exists k :: 0 <= k < |plans| && IsWhole(m, plans[k])
  }

  /** A fragment that was sent completes nothing but a message that was sent, and
      reassembly never fails. */
  lemma CompletedTraced(table: Table, f: Fragment, plans: seq<Plan>, splitId: nat)
    requires PlansSound(plans, splitId) && TableTraced(table, plans) && Planned(f, plans)
    ensures var (table', whole) := Completed(table, f);
            && TableTraced(table', plans)
            && whole.Ok? && (whole.value.Some? ==> IsOneOf(whole.value.value, plans))
  {
    hide TableTraced, Reassemble;
    var k, i :| 0 <= k < |plans| && IsPartOf(f, plans[k], i);
    assert PlanSound(plans[k]);
    if plans[k].splitId.Some? {
      PieceTraced(table, f, plans, splitId, k, i);
    } else {
      assert IsWhole(f, plans[k]);
    }
  }

  ghost predicate AllWhole(messages: seq<Fragment>, plans: seq<Plan>) {
    forall m <- messages :: IsOneOf(m, plans)
  }

  lemma FragmentTraced(r: Receiver, f: Fragment, plans: seq<Plan>, splitId: nat)
    requires PlansSound(plans, splitId) && TableTraced(r.splits, plans) && Planned(f, plans)
    ensures TableTraced(HandleFragment(r, f).0.splits, plans) && AllWhole(WholeByFragment(r, f), plans)
  {
    hide TableTraced, Completed, Receive;
    CompletedTraced(r.splits, f, plans, splitId);
  }

  lemma {:induction false} FragmentsTraced(r: Receiver, fs: seq<Fragment>, plans: seq<Plan>, splitId: nat)
    requires PlansSound(plans, splitId) && TableTraced(r.splits, plans) && Each(fs, PlannedIn(plans))
    ensures TableTraced(HandleFragments(r, fs).0.splits, plans) && AllWhole(WholeByFragments(r, fs), plans)
    decreases |fs|
  {
    hide TableTraced, HandleFragment, WholeByFragment, PlansSound, IsWhole;
    if fs != [] {
      assert fs[0] in fs;
      FragmentTraced(r, fs[0], plans, splitId);
      var (r', done) := HandleFragment(r, fs[0]);
      if done.Ok? {
        FragmentsTraced(r', fs[1..], plans, splitId);
      }
    }
  }

  // ---- what the completed messages bring out ----

  /** One channel run on the completed messages that belong to it. */
  function Through(completed: seq<Fragment>, channel: byte): (Channel<Bytes>, seq<Bytes>) {
    if completed == [] then
      (Closed(), [])
    else
      var n := |completed| - 1;
      var (c, out) := Through(completed[..n], channel);
      var info := completed[n].orderingInfo;
      if info.Some? && info.value.channel == channel then
        var (c', more) := Receive(c, info.value.index, completed[n].sequenceIndex, completed[n].data);
        (c', out + more)
      else
        (c, out)
  }

  /** The channel, and all that ever came out of it, are what the completed messages make
      them; and what came out of no channel is a message without one. */
  ghost predicate Accounted(r: Receiver, log: seq<Handed>, completed: seq<Fragment>, channel: byte) {
    && |r.channels| == ORDERING_CHANNEL_SIZE && channel < ORDERING_CHANNEL_SIZE
    && (r.channels[channel], Select(log, channel)) == Through(completed, channel)
    && forall h <- log :: if h.channel.None? then IsPlain(h.data, completed) else h.channel.value < ORDERING_CHANNEL_SIZE
  }

  ghost predicate IsPlain(data: Bytes, completed: seq<Fragment>) {
    exists m <- completed :: m.orderingInfo.None? && m.data == data
  }

  lemma PlainLater(data: Bytes, completed: seq<Fragment>, m: Fragment)
    requires IsPlain(data, completed)
    ensures IsPlain(data, completed + [m])
  {
    var m' :| m' in completed && m'.orderingInfo.None? && m'.data == data;
    assert m' in completed + [m];
  }

  lemma ThroughSnoc(completed: seq<Fragment>, m: Fragment, channel: byte)
    ensures var (c, out) := Through(completed, channel);
            Through(completed + [m], channel) ==
            if m.orderingInfo.Some? && m.orderingInfo.value.channel == channel then
              var (c', more) := Receive(c, m.orderingInfo.value.index, m.sequenceIndex, m.data);
              (c', out + more)
            else
              (c, out)
  {
    assert (completed + [m])[..|completed|] == completed;
  }

  lemma MessageAccounted(r: Receiver, log: seq<Handed>, completed: seq<Fragment>, channel: byte, m: Fragment)
    requires Accounted(r, log, completed, channel)
    ensures Accounted(Deliver(r, m).0, log + HandedByMessage(r, m), completed + [m], channel)
  {
    hide Receive, IsPlain, Through, Select;
    var handed := HandedByMessage(r, m);
    ThroughSnoc(completed, m, channel);
    SelectAppend(log, handed, channel);
    assert Select([], channel) == [] by {
      SelectTagged(None, [], channel);
    }
    if m.orderingInfo.None? {
      SelectTagged(None, [m.data], channel);
      assert Tagged(None, [m.data]) == handed;
      NewIsPlain(completed, m);
    } else if m.orderingInfo.value.channel as nat < |r.channels| {
      var info := m.orderingInfo.value;
      SelectTagged(Some(info.channel), Receive(r.channels[info.channel], info.index, m.sequenceIndex, m.data).1, channel);
    }
    assert Select(log, channel) + [] == Select(log, channel);
    forall h | h in log + handed
      ensures if h.channel.None? then IsPlain(h.data, completed + [m]) else h.channel.value < ORDERING_CHANNEL_SIZE
    {
      if h in log && h.channel.None? {
        PlainLater(h.data, completed, m);
      }
    }
  }

  lemma NewIsPlain(completed: seq<Fragment>, m: Fragment)
    requires m.orderingInfo.None?
    ensures IsPlain(m.data, completed + [m])
  {
    assert m in completed + [m];
  }

  lemma FragmentAccounted(r: Receiver, log: seq<Handed>, completed: seq<Fragment>, channel: byte, f: Fragment)
    requires Accounted(r, log, completed, channel)
    ensures Accounted(HandleFragment(r, f).0, log + HandedByFragment(r, f), completed + WholeByFragment(r, f), channel)
  {
    hide Through, IsPlain, Select, Deliver, HandedByMessage, Completed;
    assert log + [] == log && completed + [] == completed;
    var (w, admitted) := Admit(r.reliable, f);
    if admitted == Ok(true) {
      var (table, whole) := Completed(r.splits, f);
      if whole.Ok? && whole.value.Some? {
        var m := whole.value.value;
        var r1 := r.(reliable := w, splits := table);
        assert HandedByMessage(r1, m) == HandedByMessage(r, m) by {
          SameMessageHanded(r, r1, m);
        }
        MessageAccounted(r1, log, completed, channel, m);
      }
    }
  }

  lemma SameMessageHanded(r: Receiver, r1: Receiver, m: Fragment)
    requires r1.channels == r.channels
    ensures HandedByMessage(r1, m) == HandedByMessage(r, m)
  {
  }

  lemma {:induction false} FragmentsAccounted(r: Receiver, log: seq<Handed>, completed: seq<Fragment>, channel: byte, fs: seq<Fragment>)
    requires Accounted(r, log, completed, channel)
    ensures Accounted(HandleFragments(r, fs).0, log + HandedByFragments(r, fs), completed + WholeByFragments(r, fs), channel)
    decreases |fs|
  {
    hide Accounted, HandleFragment, HandedByFragment, WholeByFragment;
    assert log + [] == log && completed + [] == completed;
    if fs != [] {
      FragmentAccounted(r, log, completed, channel, fs[0]);
      var (r', done) := HandleFragment(r, fs[0]);
      var handed, whole := HandedByFragment(r, fs[0]), WholeByFragment(r, fs[0]);
      if done.Ok? {
        FragmentsAccounted(r', log + handed, completed + whole, channel, fs[1..]);
        assert (log + handed) + HandedByFragments(r', fs[1..]) == log + (handed + HandedByFragments(r', fs[1..]));
        assert (completed + whole) + WholeByFragments(r', fs[1..]) == completed + (whole + WholeByFragments(r', fs[1..]));
      } else {
        assert handed + [] == handed && whole + [] == whole;
      }
    }
  }

  // ---- every run ----

  ghost predicate Genuine(x: System, sends: seq<Request>, plans: seq<Plan>, channel: byte) {
    && Traced(x.run, sends, plans) && Everywhere(x.run, Fits())
    && TableTraced(x.receiver.splits, plans) && AllWhole(x.completed, plans)
    && Accounted(x.receiver, x.log, x.completed, channel)
    && Erase(x.log) == x.handed + x.receiver.output
  }

  lemma MorePlans(table: Table, completed: seq<Fragment>, plans: seq<Plan>, more: seq<Plan>)
    requires TableTraced(table, plans) && AllWhole(completed, plans)
    ensures TableTraced(table, plans + more) && AllWhole(completed, plans + more)
  {
    hide HasEntry, IsWhole;
    forall id | id in table
      ensures exists k :: 0 <= k < |plans + more| && HasEntry(table, id, (plans + more)[k])
    {
      var k :| 0 <= k < |plans| && HasEntry(table, id, plans[k]);
      assert HasEntry(table, id, (plans + more)[k]);
    }
    forall m | m in completed
      ensures IsOneOf(m, plans + more)
    {
      var k :| 0 <= k < |plans| && IsWhole(m, plans[k]);
      assert IsWhole(m, (plans + more)[k]);
    }
  }

  lemma SenderKeepsGenuine(x: System, e: Event, sends: seq<Request>, plans: seq<Plan>, channel: byte) returns (plans': seq<Plan>)
    requires Genuine(x, sends, plans, channel) && e.SenderStep? && Possible(x, e)
    ensures Genuine(Next(x, e), sends + RequestsOf(e), plans', channel)
  {
    hide Accounted, TableTraced, AllWhole, Everywhere, Traced, PlanOf, SenderRuns.Inv, Enabled, SendFits, Step, Erase;
    CanBeSent(x.run, e.action);
    assert SendsAfter(sends, e.action) == sends + RequestsOf(e);
    TracedIsInv(x.run, sends, plans);
    ActionKeepsTraced(x.run, e.action, sends, plans);
    ActionKeepsFitting(x.run, e.action);
    plans' := AllPlansAfter(x.run.sender, e.action, plans);
    MorePlans(x.receiver.splits, x.completed, plans, plans'[|plans|..]);
    assert plans' == plans + plans'[|plans|..];
  }

  lemma CanBeSent(run: Run, a: Action)
    requires Enabled(run, a)
    ensures a.DoSend? ==> run.sender.maxSize >= MIN_PACKET_ROOM && (a.reliability.UsesChannel() ==> a.channel < |run.sender.orderingIndex|)
  {
  }

  lemma TracedIsInv(run: Run, sends: seq<Request>, plans: seq<Plan>)
    requires Traced(run, sends, plans)
    ensures SenderRuns.Inv(run) && PlansSound(plans, run.sender.splitId) && Everywhere(run, PlannedIn(plans))
  {
  }

  lemma PacketKeepsGenuine(r: Receiver, log: seq<Handed>, completed: seq<Fragment>, plans: seq<Plan>, splitId: nat, channel: byte,
                           d: Datagram, now: nat, rto: nat)
    requires PlansSound(plans, splitId) && TableTraced(r.splits, plans) && AllWhole(completed, plans)
    requires Accounted(r, log, completed, channel) && d.Packet? && Each(d.fragments, PlannedIn(plans))
    ensures var r' := HandlePacket(r, now, rto, d.seqNumber, d.fragments).0;
            var completed' := completed + WholeByPacket(r, now, rto, d.seqNumber, d.fragments);
            && TableTraced(r'.splits, plans) && AllWhole(completed', plans)
            && Accounted(r', log + HandedByPacket(r, now, rto, d.seqNumber, d.fragments), completed', channel)
  {
    hide PlansSound, TableTraced, IsWhole, Through, IsPlain, Select, HandleFragments, HandedByFragments, WholeByFragments, Each;
    var (r1, done) := HandleSeq(r, now, rto, d.seqNumber);
    assert log + [] == log && completed + [] == completed;
    if done.Ok? {
      FragmentsTraced(r1, d.fragments, plans, splitId);
      FragmentsAccounted(r1, log, completed, channel, d.fragments);
    }
  }

  lemma ArriveKeepsGenuine(x: System, e: Event, sends: seq<Request>, plans: seq<Plan>, channel: byte)
    requires Genuine(x, sends, plans, channel) && e.Arrive? && Possible(x, e)
    ensures Genuine(Next(x, e), sends, plans, channel)
  {
    hide Accounted, TableTraced, AllWhole, Everywhere, Traced, HandlePacket, HandedByPacket, WholeByPacket, PlansSound,
         Codec.GetDatagram, Codec.PutDatagram, Each, SenderRuns.Inv, WithinLimits;
    var d := e.datagram;
    TracedIsInv(x.run, sends, plans);
    WireIsTransparent(x.run, d);
    OnTheWire(x.run, d, PlannedIn(plans));
    PacketKeepsGenuine(x.receiver, x.log, x.completed, plans, x.run.sender.splitId, channel, d, e.now, e.rto);
    PacketHands(x.receiver, e.now, e.rto, d.seqNumber, d.fragments);
    var handed := HandedByPacket(x.receiver, e.now, e.rto, d.seqNumber, d.fragments);
    EraseAppend(x.log, handed);
    assert x.handed + (x.receiver.output + Erase(handed)) == (x.handed + x.receiver.output) + Erase(handed);
    assert HandleBytes(x.receiver, e.now, e.rto, Codec.PutDatagram(d)) ==
           HandlePacket(x.receiver, e.now, e.rto, d.seqNumber, d.fragments);
  }

  lemma TellingKeepsFitting(run: Run, d: Control, p: Fragment -> bool)
    requires Everywhere(run, p) && run.alive
    ensures Everywhere(Told(run, d), p)
  {
    hide Codec.GetDatagram, Codec.PutDatagram, Each, AckAll, NakAll;
  }

  lemma OtherKeepsGenuine(x: System, e: Event, sends: seq<Request>, plans: seq<Plan>, channel: byte)
    requires Genuine(x, sends, plans, channel) && (e.Report? || e.ReportArrives? || e.Recv?) && Possible(x, e)
    ensures Genuine(Next(x, e), sends, plans, channel)
  {
    hide TableTraced, AllWhole, Everywhere, Traced, Told, Through, IsPlain, Select;
    if e.ReportArrives? {
      TellingKeepsTraced(x.run, e.report, sends, plans);
      TellingKeepsFitting(x.run, e.report, Fits());
    }
    assert x.handed + x.receiver.output + [] == x.handed + x.receiver.output;
  }

  lemma {:induction false} RunIsGenuine(x: System, events: seq<Event>, end: System, sends: seq<Request>, plans: seq<Plan>, channel: byte)
    returns (plans': seq<Plan>)
    requires Genuine(x, sends, plans, channel) && Leads(x, events, end)
    ensures Genuine(end, sends + Sends(events), plans', channel)
    decreases |events|
  {
    hide Genuine, Possible, Next;
    if events == [] {
      plans' := plans;
      assert sends + [] == sends;
    } else {
      var e := events[0];
      assert sends + RequestsOf(e) + Sends(events[1..]) == sends + (RequestsOf(e) + Sends(events[1..]));
      if e.SenderStep? {
        var plans1 := SenderKeepsGenuine(x, e, sends, plans, channel);
        plans' := RunIsGenuine(Next(x, e), events[1..], end, sends + RequestsOf(e), plans1, channel);
      } else {
        assert sends + [] == sends;
        if e.Arrive? {
          ArriveKeepsGenuine(x, e, sends, plans, channel);
        } else {
          OtherKeepsGenuine(x, e, sends, plans, channel);
        }
        plans' := RunIsGenuine(Next(x, e), events[1..], end, sends, plans, channel);
      }
    }
  }

  lemma InitialIsGenuine(mtu: nat, channel: byte)
    requires mtu >= MIN_MTU && channel < ORDERING_CHANNEL_SIZE
    ensures Genuine(Initial(mtu), [], [], channel)
  {
    hide Traced;
    StartTraced(mtu);
  }

  // ---- nothing is made up ----

  /** The message was given to `send`, on this channel or without one. */
  ghost predicate WasSent(h: Handed, sends: seq<Request>) {
    exists k :: 0 <= k < |sends| && IsRequest(h, sends[k])
  }

  predicate IsRequest(h: Handed, r: Request) {
    r.data == h.data && h.channel == if r.reliability.UsesChannel() then Some(r.channel) else None
  }

  predicate IsFrom(m: Fragment, channel: byte, data: Bytes) {
    m.orderingInfo.Some? && m.orderingInfo.value.channel == channel && m.data == data
  }

  ghost predicate HoldsFrom(completed: seq<Fragment>, channel: byte, data: Bytes) {
    exists i :: 0 <= i < |completed| && IsFrom(completed[i], channel, data)
  }

  ghost function HoldsIn(completed: seq<Fragment>, channel: byte): Bytes -> bool {
    (data: Bytes) => HoldsFrom(completed, channel, data)
  }

  ghost predicate EachHeld<T(!new)>(c: Channel<T>, p: T -> bool) {
    forall i :: 0 <= i < |c.buffered| && c.buffered[i].Some? ==> p(c.buffered[i].value)
  }

  lemma {:induction false} DrainEach<T(!new)>(c: Channel<T>, p: T -> bool)
    requires EachHeld(c, p)
    ensures EachHeld(Drain(c).0, p) && forall x <- Drain(c).1 :: p(x)
    decreases |c.buffered|
  {
    if c.buffered != [] && c.buffered[0].Some? {
      var c1 := Channel(c.nextOrdering + 1, c.nextSequence, c.buffered[1..]);
      assert forall i :: 0 <= i < |c1.buffered| ==> c1.buffered[i] == c.buffered[i + 1];
      DrainEach(c1, p);
    }
  }

  /** A channel holds and releases only what it was given. */
  lemma ReceiveEach<T(!new)>(c: Channel<T>, index: nat, sequence: Option<nat>, data: T, p: T -> bool)
    requires EachHeld(c, p) && p(data)
    ensures EachHeld(Receive(c, index, sequence, data).0, p)
    ensures forall x <- Receive(c, index, sequence, data).1 :: p(x)
  {
    if index == c.nextOrdering && sequence.None? {
      DrainEach(Channel(c.nextOrdering + 1, 0, c.buffered), p);
    }
  }

  lemma {:induction false} ThroughEach(completed: seq<Fragment>, channel: byte, p: Bytes -> bool)
    requires forall i :: 0 <= i < |completed| && IsFrom(completed[i], channel, completed[i].data) ==> p(completed[i].data)
    ensures EachHeld(Through(completed, channel).0, p) && forall x <- Through(completed, channel).1 :: p(x)
    decreases |completed|
  {
    hide Receive, EachHeld;
    if completed == [] {
      assert EachHeld(Closed<Bytes>(), p) by {
        NothingHeld(p);
      }
    } else {
      var n := |completed| - 1;
      ThroughEach(completed[..n], channel, p);
      var m := completed[n];
      if m.orderingInfo.Some? && m.orderingInfo.value.channel == channel {
        ReceiveEach(Through(completed[..n], channel).0, m.orderingInfo.value.index, m.sequenceIndex, m.data, p);
      }
    }
  }

  lemma NothingHeld(p: Bytes -> bool)
    ensures EachHeld(Closed<Bytes>(), p)
  {
  }

  lemma {:induction false} InSelect(log: seq<Handed>, h: Handed, channel: byte)
    requires h in log && h.channel == Some(channel)
    ensures h.data in Select(log, channel)
  {
    if h != log[0] {
      InSelect(log[1..], h, channel);
    }
  }

  lemma RequestOfWhole(sends: seq<Request>, k: nat, m: Fragment, plan: Plan)
    requires OnChannels(sends) && k < |sends| && IsWhole(m, plan) && plan.whole == WholeOf(sends, k)
    ensures m.data == sends[k].data
    ensures m.orderingInfo.Some? <==> sends[k].reliability.UsesChannel()
    ensures m.orderingInfo.Some? ==> m.orderingInfo.value.channel == sends[k].channel
  {
  }

  lemma LogWasSent(x: System, sends: seq<Request>, plans: seq<Plan>, channel: byte, h: Handed)
    requires Genuine(x, sends, plans, channel) && h in x.log && (h.channel.Some? ==> h.channel.value == channel)
    ensures WasSent(h, sends)
  {
    hide Through, WholeOf, Everywhere, Fits, SenderRuns.Inv, PlansSound, NoPartForgotten, SequenceIndex, OrderingIndices, TableTraced, IsWhole;
    if h.channel.None? {
      var m :| m in x.completed && m.orderingInfo.None? && m.data == h.data;
      var k :| 0 <= k < |plans| && IsWhole(m, plans[k]);
      RequestOfWhole(sends, k, m, plans[k]);
      assert IsRequest(h, sends[k]);
    } else {
      ThroughEach(x.completed, channel, HoldsIn(x.completed, channel));
      InSelect(x.log, h, channel);
      var i :| 0 <= i < |x.completed| && IsFrom(x.completed[i], channel, h.data);
      assert x.completed[i] in x.completed;
      var k :| 0 <= k < |plans| && IsWhole(x.completed[i], plans[k]);
      RequestOfWhole(sends, k, x.completed[i], plans[k]);
      assert IsRequest(h, sends[k]);
    }
  }

  /** In every run, with any traffic, repeats and failures: each message handed up is byte
      for byte one given to `send`, and comes out of the channel it was sent on, or of none
      if it was sent without one. */
  lemma NothingIsMadeUp(mtu: nat, events: seq<Event>, end: System)
    requires mtu >= MIN_MTU && Leads(Initial(mtu), events, end)
    ensures Erase(end.log) == end.handed + end.receiver.output
    ensures forall h <- end.log :: WasSent(h, Sends(events))
  {
    hide Leads, Sends, WasSent, Traced, TableTraced, AllWhole, Through, IsPlain, Everywhere;
    assert [] + Sends(events) == Sends(events);
    InitialIsGenuine(mtu, 0);
    var plans := RunIsGenuine(Initial(mtu), events, end, [], [], 0);
    forall h | h in end.log
      ensures WasSent(h, Sends(events))
    {
      var channel := if h.channel.Some? then h.channel.value else 0;
      InitialIsGenuine(mtu, channel);
      var plans := RunIsGenuine(Initial(mtu), events, end, [], [], channel);
      LogWasSent(end, Sends(events), plans, channel, h);
    }
  }

  // ---- channels of sequenced messages ----

  /** The completed messages of the channel. */
  function CompletedOn(completed: seq<Fragment>, channel: byte): seq<Fragment> {
    if completed == [] then
      []
    else
      var m := completed[|completed| - 1];
      CompletedOn(completed[..|completed| - 1], channel) +
      if m.orderingInfo.Some? && m.orderingInfo.value.channel == channel then [m] else []
  }

  function Payloads(sends: seq<Request>, positions: seq<nat>): (datas: seq<Bytes>)
    ensures |datas| == |positions|
  {
    seq(|positions|, i requires 0 <= i < |positions| => if positions[i] < |sends| then sends[positions[i]].data else [])
  }

  /** Message i is the one of request `positions[i]`. */
  ghost predicate Located(messages: seq<Fragment>, sends: seq<Request>, positions: seq<nat>)
    requires OnChannels(sends)
  {
    && |messages| == |positions|
    && forall i :: 0 <= i < |messages| ==>
                     positions[i] < |sends|
                     && messages[i].(reliableIndex := None, splitInfo := None) == WholeOf(sends, positions[i])
  }

  ghost predicate WholeRequests(sends: seq<Request>, plans: seq<Plan>)
    requires OnChannels(sends)
  {
    |plans| == |sends| && forall k :: 0 <= k < |plans| ==> plans[k].whole == WholeOf(sends, k)
  }

  /** A completed message of the channel is one of its sequenced requests. */
  lemma RequestSequenced(sends: seq<Request>, plans: seq<Plan>, channel: byte, m: Fragment) returns (k: nat)
    requires OnChannels(sends) && OnlySequenced(sends, channel) && WholeRequests(sends, plans)
    requires IsOneOf(m, plans)
    requires m.orderingInfo.Some? && m.orderingInfo.value.channel == channel
    ensures SequencedOn(sends, channel, k)
    ensures m.(reliableIndex := None, splitInfo := None) == WholeOf(sends, k) && m.data == sends[k].data
    ensures m.sequenceIndex == Some(SequenceIndex(sends[..k])) && m.orderingInfo == Some(OrderingInfo(0, channel))
  {
    k :| 0 <= k < |plans| && IsWhole(m, plans[k]);
    RequestOfWhole(sends, k, m, plans[k]);
    WholeIs(sends, channel, k);
  }

  /** The channel does with the completed messages what `Heard` does with their positions. */
  lemma {:induction false} ThroughIsHeard(completed: seq<Fragment>, sends: seq<Request>, plans: seq<Plan>, channel: byte)
    returns (positions: seq<nat>)
    requires OnChannels(sends) && OnlySequenced(sends, channel) && WholeRequests(sends, plans) && AllWhole(completed, plans)
    ensures Arrivals(sends, channel, positions) && Located(CompletedOn(completed, channel), sends, positions)
    ensures var (c, heard) := Heard(sends, channel, positions);
            Through(completed, channel) == (Channel(0, c.nextSequence, []), Payloads(sends, heard))
    decreases |completed|
  {
    hide WholeOf, SequenceIndex, WholeRequests, IsOneOf, OnChannels, OnlySequenced, Located, Arrivals, Receive;
    if completed == [] {
      positions := [];
      NothingLocated(sends, channel);
    } else {
      var n := |completed| - 1;
      var m := completed[n];
      assert m in completed;
      positions := ThroughIsHeard(completed[..n], sends, plans, channel);
      if m.orderingInfo.Some? && m.orderingInfo.value.channel == channel {
        var k := RequestSequenced(sends, plans, channel, m);
        OneMoreHeard(sends, channel, positions, k);
        OneMoreLocated(CompletedOn(completed[..n], channel), m, sends, positions, k);
        positions := positions + [k];
      } else {
        assert CompletedOn(completed[..n], channel) + [] == CompletedOn(completed[..n], channel);
      }
    }
  }

  lemma NothingLocated(sends: seq<Request>, channel: byte)
    requires OnChannels(sends)
    ensures Located([], sends, []) && Arrivals(sends, channel, [])
  {
  }

  lemma OneMoreLocated(messages: seq<Fragment>, m: Fragment, sends: seq<Request>, positions: seq<nat>, k: nat)
    requires OnChannels(sends) && Located(messages, sends, positions) && k < |sends|
    requires m.(reliableIndex := None, splitInfo := None) == WholeOf(sends, k)
    ensures Located(messages + [m], sends, positions + [k])
  {
    hide WholeOf;
  }

  lemma OneMoreHeard(sends: seq<Request>, channel: byte, positions: seq<nat>, k: nat)
    requires OnChannels(sends) && OnlySequenced(sends, channel) && Arrivals(sends, channel, positions)
    requires SequencedOn(sends, channel, k)
    ensures Arrivals(sends, channel, positions + [k])
    ensures var (c, heard) := Heard(sends, channel, positions);
            var here: Channel<Bytes> := Channel(0, c.nextSequence, []);
            var (here', out) := Receive(here, 0, Some(SequenceIndex(sends[..k])), sends[k].data);
            var (c1, heard1) := Heard(sends, channel, positions + [k]);
            here' == Channel(0, c1.nextSequence, []) && Payloads(sends, heard1) == Payloads(sends, heard) + out
  {
    hide WholeOf, SequenceIndex;
    var more := positions + [k];
    assert more[..|positions|] == positions;
    assert Arrivals(sends, channel, more);
    HeardState(sends, channel, positions);
    HeardSnoc(sends, channel, more);
  }

  /** In every run, if no ordered message is sent on the channel, what has come out of it is
      what `Heard` says of the messages put together, in the order in which they were. If
      the counts of the channel climb, it is those newer than all before them. */
  lemma SequencedChannelHears(mtu: nat, channel: byte, events: seq<Event>, end: System) returns (positions: seq<nat>)
    requires mtu >= MIN_MTU && channel < ORDERING_CHANNEL_SIZE && Leads(Initial(mtu), events, end)
    requires OnlySequenced(Sends(events), channel)
    ensures OnChannels(Sends(events)) && Arrivals(Sends(events), channel, positions)
    ensures Located(CompletedOn(end.completed, channel), Sends(events), positions)
    ensures Select(end.log, channel) == Payloads(Sends(events), Heard(Sends(events), channel, positions).1)
    ensures Climbs(Sends(events), channel) ==> Select(end.log, channel) == Payloads(Sends(events), Newest(positions))
  {
    hide Leads, Sends, Climbs, Through, Heard, Newest, Located, Everywhere, TableTraced, AllWhole, SenderRuns.Inv, OnlySequenced,
         NoPartForgotten, PlansSound, Arrivals, IsPlain, WholeOf;
    var sends := Sends(events);
    assert [] + sends == sends;
    InitialIsGenuine(mtu, channel);
    var plans := RunIsGenuine(Initial(mtu), events, end, [], [], channel);
    positions := ThroughIsHeard(end.completed, sends, plans, channel);
    if Climbs(sends, channel) {
      ClimbingIsHeard(sends, channel, positions);
    }
  }

  /** The counters of the sender are the counts of the calls of `send`. */
  lemma CountersOfRun(mtu: nat, events: seq<Event>, end: System)
    requires mtu >= MIN_MTU && Leads(Initial(mtu), events, end)
    ensures OnChannels(Sends(events))
    ensures end.run.sender.sequenceIndex == SequenceIndex(Sends(events))
    ensures end.run.sender.orderingIndex == OrderingIndices(Sends(events))
  {
    hide Leads, Sends, SequenceIndex, OrderingIndices, Everywhere, SenderRuns.Inv, NoPartForgotten, PlansSound, Accounted, TableTraced, AllWhole;
    assert [] + Sends(events) == Sends(events);
    InitialIsGenuine(mtu, 0);
    var _ := RunIsGenuine(Initial(mtu), events, end, [], [], 0);
  }
}
