/** Every fragment in the queue or on the wire, traced back to the message it was cut
    from, and every message to the call of `send` that brought it
    (src/reliability/layer.rs:511-586 and 186-285). */
module Traces {
  import opened Basics
  import opened Datagrams
  import opened Retransmission
  import opened Scheduling
  import opened Splitting
  import opened Senders
  import opened SenderRuns
  import opened SequencedMessages
  import Codec

  // ---- what send gives a fragment stays with it ----

  /** All fragments that are queued or were ever sent have the property. */
  ghost predicate Everywhere(run: Run, p: Fragment -> bool) {
    && (forall x <- run.sender.schedule.queue :: p(x.fragment))
    && (forall f <- run.issued :: p(f))
    && (forall d <- run.wire :: d.Packet? && Each(d.fragments, p))
  }

  ghost predicate Each(fs: seq<Fragment>, p: Fragment -> bool) {
    forall f <- fs :: p(f)
  }

  /** The reliable index has no influence on it. */
  ghost predicate Stable(p: Fragment -> bool) {
    forall f, index :: p(f) ==> p(Number(f, index))
  }

  lemma {:induction false} PoppedEach(queue: seq<Outgoing>, picks: seq<nat>, p: Fragment -> bool)
    requires ValidPicks(queue, picks) && forall x <- queue :: p(x.fragment)
    ensures forall x <- Left(queue, picks) :: p(x.fragment)
    ensures Each(Popped(queue, picks), p)
    decreases |picks|
  {
    if picks != [] {
      PoppedEach(queue, picks[..|picks| - 1], p);
    }
  }

  lemma {:induction false} NumberedEach(fs: seq<Fragment>, index: nat, p: Fragment -> bool)
    requires Each(fs, p) && Stable(p)
    ensures Each(NumberAll(fs, index), p)
  {
    if fs != [] {
      assert fs[0] in fs;
      NumberedEach(fs[1..], if fs[0].reliability.IsReliable() then index + 1 else index, p);
    }
  }

  lemma PackedEach(run: Run, a: Action, p: Fragment -> bool)
    requires Inv(run) && Everywhere(run, p) && Stable(p) && a.DoUpdate? && Enabled(run, a)
    ensures Each(Join(a.packets), p) && Each(Fresh(run.sender, a.picks), p)
    ensures forall x <- Left(run.sender.schedule.queue, a.picks) :: p(x.fragment)
  {
    hide Exhausts, Stable;
    var queue := run.sender.schedule.queue;
    var numbered := NumberAll(Popped(queue, a.picks), run.sender.reliableIndex);
    PoppedEach(queue, a.picks, p);
    NumberedEach(Popped(queue, a.picks), run.sender.reliableIndex, p);
    OnlyReliableSome(numbered);
    forall f | f in Join(a.packets)
      ensures p(f)
    {
      if f !in numbered {
        RetransmitQueueKnown(run, a.now, a.rto, f);
        assert f in run.issued;
      }
    }
  }

  lemma {:induction false} OnlyReliableSome(fs: seq<Fragment>)
    ensures forall f :: f in OnlyReliable(fs) <==> f in fs && f.reliability.IsReliable()
  {
    if fs != [] {
      OnlyReliableSome(fs[1..]);
    }
  }

  lemma NewDatagram(run: Run, a: Action, d: Datagram) returns (i: nat)
    requires a.DoUpdate? && Enabled(run, a) && d in Step(run, a).wire && d !in run.wire
    ensures i < |a.packets| && d.Packet? && d.fragments == a.packets[i]
  {
    var c := GetRetransmitFragments(run.sender.cache, a.now, a.rto);
    var sent := a.packets[..SentCount(c, run.sender.nextSeq, a.packets)];
    var added := PacketDatagrams(run.sender.nextSeq, a.needsArrivalRate, sent);
    assert d in added;
    i :| 0 <= i < |added| && added[i] == d;
  }

  lemma UpdateKeepsEverywhere(run: Run, a: Action, p: Fragment -> bool)
    requires Inv(run) && Everywhere(run, p) && Stable(p) && a.DoUpdate? && Enabled(run, a)
    ensures Everywhere(Step(run, a), p)
  {
    hide Inv, Stable, Transmits, Left, Popped, Fresh;
    PackedEach(run, a, p);
    forall d | d in Step(run, a).wire
      ensures d.Packet? && Each(d.fragments, p)
    {
      if d !in run.wire {
        var i := NewDatagram(run, a, d);
        forall f | f in d.fragments
          ensures p(f)
        {
          InJoin(a.packets, i, f);
        }
      }
    }
  }

  /** The message an action sends, as one fragment, and its fragments. */
  function WholeSent(s: Sender, a: Action): Fragment
    requires a.DoSend? && (a.reliability.UsesChannel() ==> a.channel < |s.orderingIndex|)
  {
    Whole(s, a.reliability, a.channel, a.data)
  }

  lemma SendKeepsEverywhere(run: Run, a: Action, p: Fragment -> bool)
    requires Everywhere(run, p) && a.DoSend? && Enabled(run, a)
    requires Each(Outbound(run.sender, WholeSent(run.sender, a)), p)
    ensures Everywhere(Step(run, a), p)
  {
    hide CanPushAll, PushAll, Appended, Outbound;
    var s, fs := run.sender, Outbound(run.sender, WholeSent(run.sender, a));
    PushAllAppends(s.schedule, a.peeks, a.priority, fs);
    forall x | x in Step(run, a).sender.schedule.queue
      ensures p(x.fragment)
    {
      AppendedIn(s.schedule, Step(run, a).sender.schedule, fs, x);
    }
  }

  /** A property that every message sent gives its fragments is kept by every action. */
  lemma ActionKeepsEverywhere(run: Run, a: Action, p: Fragment -> bool)
    requires Inv(run) && Everywhere(run, p) && Stable(p) && Enabled(run, a)
    requires a.DoSend? ==> Each(Outbound(run.sender, WholeSent(run.sender, a)), p)
    ensures Everywhere(Step(run, a), p)
  {
    hide Inv, Stable, Transmits, CanPushAll, PushAll, Outbound;
    match a
    case DoSend(_, _, _, _, _) => SendKeepsEverywhere(run, a, p);
    case DoUpdate(_, _, _, _, _, _, _) => UpdateKeepsEverywhere(run, a, p);
    case DoAck(_) =>
    case DoNak(_) =>
  }

  lemma WeakerEverywhere(run: Run, p: Fragment -> bool, q: Fragment -> bool)
    requires Everywhere(run, p) && forall f :: p(f) ==> q(f)
    ensures Everywhere(run, q)
  {
  }

  lemma OnTheWire(run: Run, d: Datagram, p: Fragment -> bool)
    requires Everywhere(run, p) && d in run.wire
    ensures d.Packet? && Each(d.fragments, p)
  {
  }

  // ---- how a message is cut ----

  /** One chunk if the message was not split. */
  datatype Plan = Plan(whole: Fragment, splitId: Option<nat>, chunks: seq<Bytes>) {
    /** The fragment queued for chunk `i`. */
    function Part(i: nat): Fragment
      requires i < |chunks|
    {
      if splitId.Some? then Piece(whole, splitId.value, chunks, i) else whole
    }
  }

  ghost predicate PlanSound(plan: Plan) {
    && plan.whole.splitInfo.None? && plan.whole.reliableIndex.None? && plan.whole.Shaped()
    && Join(plan.chunks) == plan.whole.data
    && (plan.splitId.None? ==> plan.chunks == [plan.whole.data])
    && (plan.splitId.Some? ==> |plan.chunks| >= 2)
  }

  /** Every message that was split has an id of its own. */
  ghost predicate PlansSound(plans: seq<Plan>, splitId: nat) {
    && (forall k :: 0 <= k < |plans| ==> PlanSound(plans[k]))
    && (forall k :: 0 <= k < |plans| && plans[k].splitId.Some? ==> plans[k].splitId.value < splitId)
    && (forall j, k :: 0 <= j < k < |plans| && plans[j].splitId.Some? ==> plans[j].splitId != plans[k].splitId)
  }

  function PlanFor(s: Sender, whole: Fragment): Plan
    requires s.maxSize >= MIN_PACKET_ROOM && whole.splitInfo.None?
  {
    if MustSplit(s, whole) then
      Plan(whole, Some(s.splitId), Chunks(whole.data, AllowedSize(whole, s.maxSize)))
    else
      Plan(whole, None, [whole.data])
  }

  /** The plan of the message an action sends. */
  function PlanOf(s: Sender, a: Action): Plan
    requires a.DoSend? && s.maxSize >= MIN_PACKET_ROOM && (a.reliability.UsesChannel() ==> a.channel < |s.orderingIndex|)
  {
    PlanFor(s, WholeSent(s, a))
  }

  lemma PlanForSound(s: Sender, whole: Fragment)
    requires s.maxSize >= MIN_PACKET_ROOM && whole.splitInfo.None? && whole.reliableIndex.None? && whole.Shaped()
    ensures PlanSound(PlanFor(s, whole)) && PlanFor(s, whole).whole == whole
    ensures var plan, fs := PlanFor(s, whole), Outbound(s, whole);
            |fs| == |plan.chunks| && forall i :: 0 <= i < |fs| ==> fs[i] == plan.Part(i)
  {
    if MustSplit(s, whole) {
      ChunksJoin(whole.data, AllowedSize(whole, s.maxSize));
      SplitsInTwo(whole, s.maxSize);
    } else {
      assert Join([whole.data]) == whole.data + Join([whole.data][1..]) == whole.data;
    }
  }

  lemma PlansGrow(plans: seq<Plan>, s: Sender, whole: Fragment)
    requires s.maxSize >= MIN_PACKET_ROOM && whole.splitInfo.None? && whole.reliableIndex.None? && whole.Shaped()
    requires PlansSound(plans, s.splitId)
    ensures PlansSound(plans + [PlanFor(s, whole)], if MustSplit(s, whole) then s.splitId + 1 else s.splitId)
  {
    PlanForSound(s, whole);
  }

  // ---- what fits the fields on the wire ----

  predicate CountersFit(s: Sender) {
    && s.sequenceIndex < Codec.U24_SIZE && s.splitId < Codec.U16_SIZE
    && forall c :: 0 <= c < |s.orderingIndex| ==> s.orderingIndex[c] < Codec.U24_SIZE
  }

  /** The counters and the length of a message sent fit their fields. */
  predicate SendFits(s: Sender, a: Action) {
    a.DoSend? ==> CountersFit(s) && |a.data| < Codec.U32_SIZE
  }

  /** What `send` has filled in fits its width on the wire. */
  predicate Fitting(f: Fragment) {
    && (f.sequenceIndex.Some? ==> f.sequenceIndex.value < Codec.U24_SIZE)
    && (f.orderingInfo.Some? ==> f.orderingInfo.value.index < Codec.U24_SIZE)
    && (f.splitInfo.Some? ==>
          && f.splitInfo.value.size < Codec.U32_SIZE
          && f.splitInfo.value.id < Codec.U16_SIZE
          && f.splitInfo.value.index < Codec.U32_SIZE)
  }

  function Fits(): Fragment -> bool {
    (f: Fragment) => Fitting(f)
  }

  lemma {:induction false} ChunkNumber(data: Bytes, size: nat)
    requires size > 0
    ensures |Chunks(data, size)| <= Max(|data|, 1)
  {
    if |data| > size {
      ChunkNumber(data[size..], size);
    }
  }

  lemma OutboundFits(s: Sender, a: Action)
    requires a.DoSend? && s.maxSize >= MIN_PACKET_ROOM && SendFits(s, a)
    requires a.reliability.UsesChannel() ==> a.channel < |s.orderingIndex|
    ensures Each(Outbound(s, WholeSent(s, a)), Fits())
  {
    var whole := WholeSent(s, a);
    if MustSplit(s, whole) {
      ChunkNumber(a.data, AllowedSize(whole, s.maxSize));
    }
  }

  lemma ActionKeepsFitting(run: Run, a: Action)
    requires Inv(run) && Everywhere(run, Fits()) && Enabled(run, a) && SendFits(run.sender, a)
    ensures Everywhere(Step(run, a), Fits())
  {
    hide Inv, Everywhere, Each, Transmits, CanPushAll, PushAll, Outbound;
    if a.DoSend? {
      OutboundFits(run.sender, a);
    }
    ActionKeepsEverywhere(run, a, Fits());
  }

  // ---- the message of a fragment ----

  predicate IsPartOf(f: Fragment, plan: Plan, i: nat) {
    i < |plan.chunks| && f.(reliableIndex := None) == plan.Part(i)
  }

  ghost predicate Planned(f: Fragment, plans: seq<Plan>) {
    exists k, i :: 0 <= k < |plans| && IsPartOf(f, plans[k], i)
  }

  ghost function PlannedIn(plans: seq<Plan>): Fragment -> bool {
    (f: Fragment) => Planned(f, plans)
  }

  /** The fragment is queued, or was sent and given a reliable index. */
  ghost predicate OnItsWay(run: Run, g: Fragment) {
    (exists x <- run.sender.schedule.queue :: x.fragment == g) || (exists f <- run.issued :: f.(reliableIndex := None) == g)
  }

  ghost predicate NoPartForgotten(run: Run, plans: seq<Plan>) {
    forall k, i :: 0 <= k < |plans| && 0 <= i < |plans[k].chunks| && plans[k].whole.reliability.IsReliable() ==>
                     OnItsWay(run, plans[k].Part(i))
  }

  /** The counters, the plans and the fragments are those of these calls of `send`. */
  ghost predicate Traced(run: Run, sends: seq<Request>, plans: seq<Plan>) {
    && Inv(run)
    && OnChannels(sends) && |plans| == |sends|
    && run.sender.sequenceIndex == SequenceIndex(sends) && run.sender.orderingIndex == OrderingIndices(sends)
    && (forall k :: 0 <= k < |plans| ==> plans[k].whole == WholeOf(sends, k))
    && PlansSound(plans, run.sender.splitId)
    && Everywhere(run, PlannedIn(plans))
    && NoPartForgotten(run, plans)
  }

  function SendsAfter(sends: seq<Request>, a: Action): seq<Request> {
    if a.DoSend? then sends + [Request(a.reliability, a.channel, a.data)] else sends
  }

  function AllPlansAfter(s: Sender, a: Action, plans: seq<Plan>): seq<Plan>
    requires a.DoSend? ==> s.maxSize >= MIN_PACKET_ROOM && (a.reliability.UsesChannel() ==> a.channel < |s.orderingIndex|)
  {
    if a.DoSend? then plans + [PlanOf(s, a)] else plans
  }

  lemma PlannedStable(plans: seq<Plan>)
    ensures Stable(PlannedIn(plans))
  {
    forall f, index | Planned(f, plans)
      ensures Planned(Number(f, index), plans)
    {
      var k, i :| 0 <= k < |plans| && IsPartOf(f, plans[k], i);
      assert Number(f, index).(reliableIndex := None) == f.(reliableIndex := None);
      assert IsPartOf(Number(f, index), plans[k], i);
    }
  }

  lemma PlannedLater(f: Fragment, plans: seq<Plan>, plan: Plan)
    requires Planned(f, plans)
    ensures Planned(f, plans + [plan])
  {
    var k, i :| 0 <= k < |plans| && IsPartOf(f, plans[k], i);
    assert IsPartOf(f, (plans + [plan])[k], i);
  }

  lemma WholeStays(sends: seq<Request>, r: Request, k: nat)
    requires OnChannels(sends) && OnChannels(sends + [r]) && k < |sends|
    ensures WholeOf(sends + [r], k) == WholeOf(sends, k)
  {
    assert (sends + [r])[..k] == sends[..k];
  }

  /** The counters after one more call. */
  lemma CountersAfter(s: Sender, sends: seq<Request>, a: Action)
    requires OnChannels(sends) && a.DoSend? && (a.reliability.UsesChannel() ==> a.channel < ORDERING_CHANNEL_SIZE)
    requires s.sequenceIndex == SequenceIndex(sends) && s.orderingIndex == OrderingIndices(sends)
    ensures OnChannels(SendsAfter(sends, a))
    ensures NextSequence(s.sequenceIndex, a.reliability) == SequenceIndex(SendsAfter(sends, a))
    ensures NextOrdering(s.orderingIndex, a.reliability, a.channel) == OrderingIndices(SendsAfter(sends, a))
    ensures WholeOf(SendsAfter(sends, a), |sends|) == WholeSent(s, a)
  {
    assert SendsAfter(sends, a)[..|sends|] == sends;
  }

  lemma SendKeepsTraced(run: Run, a: Action, sends: seq<Request>, plans: seq<Plan>)
    requires Traced(run, sends, plans) && a.DoSend? && Enabled(run, a)
    ensures Traced(Step(run, a), SendsAfter(sends, a), AllPlansAfter(run.sender, a, plans))
  {
    hide Inv, Everywhere, CanPushAll, PushAll, Outbound, PlanFor, NoPartForgotten, SequenceIndex, OrderingIndices;
    var s, plan := run.sender, PlanOf(run.sender, a);
    var plans' := plans + [plan];
    var fs := Outbound(s, WholeSent(s, a));
    StepKeepsInv(run, a);
    assert |s.orderingIndex| == ORDERING_CHANNEL_SIZE;
    CountersAfter(s, sends, a);
    forall k | 0 <= k < |sends|
      ensures plans'[k].whole == WholeOf(SendsAfter(sends, a), k)
    {
      WholeStays(sends, Request(a.reliability, a.channel, a.data), k);
    }
    PlansGrow(plans, s, WholeSent(s, a));
    PlanForSound(s, WholeSent(s, a));
    forall f | Planned(f, plans)
      ensures Planned(f, plans')
    {
      PlannedLater(f, plans, plan);
    }
    WeakerEverywhere(run, PlannedIn(plans), PlannedIn(plans'));
    forall f | f in fs
      ensures Planned(f, plans')
    {
      var i :| 0 <= i < |fs| && fs[i] == f;
      assert IsPartOf(f, plans'[|plans|], i);
    }
    SendKeepsEverywhere(run, a, PlannedIn(plans'));
    SendForgetsNone(run, a, plans);
  }

  lemma SendForgetsNone(run: Run, a: Action, plans: seq<Plan>)
    requires a.DoSend? && Enabled(run, a) && NoPartForgotten(run, plans)
    ensures NoPartForgotten(Step(run, a), plans + [PlanOf(run.sender, a)])
  {
    hide CanPushAll, PushAll, Outbound, PlanFor;
    var s, fs, run' := run.sender, Outbound(run.sender, WholeSent(run.sender, a)), Step(run, a);
    var plans' := plans + [PlanOf(s, a)];
    PlanForSound(s, WholeSent(s, a));
    PushAllAppends(s.schedule, a.peeks, a.priority, fs);
    var before, after := s.schedule.queue, run'.sender.schedule.queue;
    forall k, i | 0 <= k < |plans'| && 0 <= i < |plans'[k].chunks| && plans'[k].whole.reliability.IsReliable()
      ensures OnItsWay(run', plans'[k].Part(i))
    {
      if k < |plans| {
        var g := plans[k].Part(i);
        if x :| x in before && x.fragment == g {
          var j :| 0 <= j < |before| && before[j] == x;
          assert after[..|before|][j] == after[j];
          assert after[j] in after;
        }
      } else {
        assert after[|before| + i].fragment == fs[i] && after[|before| + i] in after;
      }
    }
  }

  lemma {:induction false} PoppedOrLeft(queue: seq<Outgoing>, picks: seq<nat>, x: Outgoing)
    requires ValidPicks(queue, picks) && x in queue
    ensures x in Left(queue, picks) || x.fragment in Popped(queue, picks)
    decreases |picks|
  {
    if picks != [] {
      var n := |picks| - 1;
      PoppedOrLeft(queue, picks[..n], x);
      var left := Left(queue, picks[..n]);
      if x in left && x != left[picks[n]] {
        var i :| 0 <= i < |left| && left[i] == x;
        assert RemoveAt(left, picks[n])[if i < picks[n] then i else i - 1] == x;
      }
    }
  }

  lemma {:induction false} NumberedIn(fs: seq<Fragment>, index: nat, f: Fragment) returns (g: Fragment)
    requires f in fs && f.reliability.IsReliable()
    ensures g in OnlyReliable(NumberAll(fs, index)) && g.(reliableIndex := None) == f.(reliableIndex := None)
  {
    var first := Number(fs[0], index);
    if f == fs[0] {
      g := first;
    } else {
      g := NumberedIn(fs[1..], if fs[0].reliability.IsReliable() then index + 1 else index, f);
    }
  }

  lemma UpdateForgetsNone(run: Run, a: Action, plans: seq<Plan>)
    requires a.DoUpdate? && Enabled(run, a) && NoPartForgotten(run, plans)
    requires forall k :: 0 <= k < |plans| ==> PlanSound(plans[k])
    ensures NoPartForgotten(Step(run, a), plans)
  {
    hide Exhausts, Left, Popped, GetRetransmitFragments, PlanSound;
    var queue, run' := run.sender.schedule.queue, Step(run, a);
    forall k, i | 0 <= k < |plans| && 0 <= i < |plans[k].chunks| && plans[k].whole.reliability.IsReliable()
      ensures OnItsWay(run', plans[k].Part(i))
    {
      var g := plans[k].Part(i);
      assert g.reliableIndex.None? by {
        assert PlanSound(plans[k]);
        PartUnnumbered(plans[k], i);
      }
      if x :| x in queue && x.fragment == g {
        PoppedOrLeft(queue, a.picks, x);
        if x !in Left(queue, a.picks) {
          var f := NumberedIn(Popped(queue, a.picks), run.sender.reliableIndex, g);
          assert f in run'.issued && f.(reliableIndex := None) == g;
        }
      } else {
        var f :| f in run.issued && f.(reliableIndex := None) == g;
        assert f in run'.issued;
      }
    }
  }

  lemma PartUnnumbered(plan: Plan, i: nat)
    requires PlanSound(plan) && i < |plan.chunks|
    ensures plan.Part(i).reliableIndex.None?
  {
  }

  /** Every action keeps fragments traced to the calls of `send`. */
  lemma ActionKeepsTraced(run: Run, a: Action, sends: seq<Request>, plans: seq<Plan>)
    requires Traced(run, sends, plans) && Enabled(run, a)
    ensures Traced(Step(run, a), SendsAfter(sends, a), AllPlansAfter(run.sender, a, plans))
  {
    hide Inv, Everywhere, PlansSound, CanPushAll, PushAll, Transmits, SequenceIndex, OrderingIndices, NoPartForgotten;
    if a.DoSend? {
      SendKeepsTraced(run, a, sends, plans);
    } else {
      StepKeepsInv(run, a);
      PlannedStable(plans);
      ActionKeepsEverywhere(run, a, PlannedIn(plans));
      if a.DoUpdate? {
        assert forall k :: 0 <= k < |plans| ==> PlanSound(plans[k]) by {
          SoundOnes(plans, run.sender.splitId);
        }
        UpdateForgetsNone(run, a, plans);
      } else {
        SameOnItsWay(run, Step(run, a), plans);
      }
    }
  }

  lemma SoundOnes(plans: seq<Plan>, splitId: nat)
    requires PlansSound(plans, splitId)
    ensures forall k :: 0 <= k < |plans| ==> PlanSound(plans[k])
  {
  }

  lemma SameOnItsWay(run: Run, run': Run, plans: seq<Plan>)
    requires NoPartForgotten(run, plans) && run'.issued == run.issued && run'.sender.schedule == run.sender.schedule
    ensures NoPartForgotten(run', plans)
  {
  }

  lemma StartTraced(mtu: nat)
    requires mtu >= MIN_MTU
    ensures Traced(Start(mtu), [], []) && Everywhere(Start(mtu), Fits())
  {
    StartInv(mtu);
  }
}
