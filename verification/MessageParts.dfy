/** The parts that the messages of one ordered channel are sent in, followed from `send`
    to the wire: each part of each message is queued or sent once, and nothing else that
    is sent can be taken for one (src/reliability/layer.rs). */
module MessageParts {
  import opened Basics
  import opened Datagrams
  import opened Retransmission
  import opened Scheduling
  import opened Splitting
  import opened Senders
  import opened SenderRuns
  import opened Traces

  /** An ordered message on the channel. */
  predicate SendsOn(a: Action, channel: byte) {
    a.DoSend? && a.reliability.IsOrdered() && a.channel == channel
  }

  /** No sequenced message on the channel. */
  predicate Unsequenced(a: Action, channel: byte) {
    a.DoSend? && a.reliability.IsSequenced() ==> a.channel != channel
  }

  // ---- the parts of each message ----

  predicate OnChannel(f: Fragment, channel: byte) {
    f.orderingInfo.Some? && f.orderingInfo.value.channel == channel
  }

  function PartIndex(f: Fragment): nat {
    if f.splitInfo.Some? then f.splitInfo.value.index else 0
  }

  /** Message number and part number. */
  function Key(f: Fragment): (nat, nat) {
    (if f.orderingInfo.Some? then f.orderingInfo.value.index else 0, PartIndex(f))
  }

  predicate IsPart(f: Fragment, plans: seq<Plan>, channel: byte) {
    && f.reliability.IsOrdered() && f.sequenceIndex.None? && OnChannel(f, channel)
    && f.orderingInfo.value.index < |plans|
    && var plan := plans[f.orderingInfo.value.index];
    && PartIndex(f) < |plan.chunks|
    && f.data == plan.chunks[PartIndex(f)]
    && f.splitInfo == if plan.splitId.Some? then Some(SplitInfo(|plan.chunks|, plan.splitId.value, PartIndex(f))) else None
  }

  /** No message of the channel was split under this id. */
  ghost predicate Foreign(id: nat, plans: seq<Plan>) {
    forall k :: 0 <= k < |plans| ==> plans[k].splitId != Some(id)
  }

  /** Traffic that has nothing to do with the channel. */
  ghost predicate IsOther(f: Fragment, plans: seq<Plan>, channel: byte, splitId: nat) {
    && !OnChannel(f, channel)
    && (f.splitInfo.Some? ==> f.splitInfo.value.id < splitId && Foreign(f.splitInfo.value.id, plans))
  }

  ghost predicate Proper(f: Fragment, plans: seq<Plan>, channel: byte, splitId: nat) {
    IsPart(f, plans, channel) || IsOther(f, plans, channel, splitId)
  }

  ghost function ProperOn(plans: seq<Plan>, channel: byte, splitId: nat): Fragment -> bool {
    (f: Fragment) => Proper(f, plans, channel, splitId)
  }

  /** The parts of the channel's messages among these fragments. */
  function Keys(fs: seq<Fragment>, channel: byte): multiset<(nat, nat)> {
    if fs == [] then
      multiset{}
    else
      (if OnChannel(fs[0], channel) then multiset{Key(fs[0])} else multiset{}) + Keys(fs[1..], channel)
  }

  function FragmentsOf(queue: seq<Outgoing>): (fs: seq<Fragment>)
    ensures |fs| == |queue|
    ensures forall i :: 0 <= i < |fs| ==> fs[i] == queue[i].fragment
  {
    seq(|queue|, i requires 0 <= i < |queue| => queue[i].fragment)
  }

  function QueueKeys(queue: seq<Outgoing>, channel: byte): multiset<(nat, nat)> {
    Keys(FragmentsOf(queue), channel)
  }

  predicate IsKey(plans: seq<Plan>, key: (nat, nat)) {
    key.0 < |plans| && key.1 < |plans[key.0].chunks|
  }

  /** Each part of each message is queued or was sent, and only once. */
  ghost predicate KeysOnce(issued: seq<Fragment>, queue: seq<Outgoing>, plans: seq<Plan>, channel: byte) {
    forall key: (nat, nat) :: (Keys(issued, channel) + QueueKeys(queue, channel))[key] == if IsKey(plans, key) then 1 else 0
  }

  /** `plans` are the plans of the channel's messages. */
  ghost predicate SenderSound(run: Run, plans: seq<Plan>, channel: byte) {
    && channel < ORDERING_CHANNEL_SIZE
    && SenderRuns.Inv(run)
    && |plans| == run.sender.orderingIndex[channel]
    && PlansSound(plans, run.sender.splitId)
    && Everywhere(run, ProperOn(plans, channel, run.sender.splitId))
    && KeysOnce(run.issued, run.sender.schedule.queue, plans, channel)
  }

  // ---- bags of keys ----

  lemma {:induction false} KeysAppend(a: seq<Fragment>, b: seq<Fragment>, channel: byte)
    ensures Keys(a + b, channel) == Keys(a, channel) + Keys(b, channel)
  {
    if a == [] {
      assert a + b == b;
    } else {
      assert (a + b)[0] == a[0] && (a + b)[1..] == a[1..] + b;
      KeysAppend(a[1..], b, channel);
    }
  }

  lemma KeysOne(f: Fragment, channel: byte)
    ensures Keys([f], channel) == if OnChannel(f, channel) then multiset{Key(f)} else multiset{}
  {
    assert Keys([f][1..], channel) == multiset{};
  }

  lemma QueueKeysRemove(queue: seq<Outgoing>, i: nat, channel: byte)
    requires i < |queue|
    ensures QueueKeys(queue, channel) == QueueKeys(RemoveAt(queue, i), channel) + Keys([queue[i].fragment], channel)
  {
    var all := FragmentsOf(queue);
    assert all == all[..i] + ([all[i]] + all[i + 1..]);
    assert FragmentsOf(RemoveAt(queue, i)) == all[..i] + all[i + 1..];
    KeysAppend(all[..i], [all[i]] + all[i + 1..], channel);
    KeysAppend([all[i]], all[i + 1..], channel);
    KeysAppend(all[..i], all[i + 1..], channel);
  }

  lemma {:induction false} PoppedKeys(queue: seq<Outgoing>, picks: seq<nat>, channel: byte)
    requires ValidPicks(queue, picks)
    ensures QueueKeys(queue, channel) == QueueKeys(Left(queue, picks), channel) + Keys(Popped(queue, picks), channel)
    decreases |picks|
  {
    if picks != [] {
      var n := |picks| - 1;
      PoppedKeys(queue, picks[..n], channel);
      var left := Left(queue, picks[..n]);
      QueueKeysRemove(left, picks[n], channel);
      KeysAppend(Popped(queue, picks[..n]), [left[picks[n]].fragment], channel);
    }
  }

  // ---- update ----

  lemma NumberProper(f: Fragment, index: nat, plans: seq<Plan>, channel: byte, splitId: nat)
    requires Proper(f, plans, channel, splitId)
    ensures Proper(Number(f, index), plans, channel, splitId)
    ensures OnChannel(Number(f, index), channel) == OnChannel(f, channel) && Key(Number(f, index)) == Key(f)
    ensures OnChannel(f, channel) ==> f.reliability.IsReliable()
    ensures Number(f, index).reliability == f.reliability
  {
  }

  lemma ProperStable(plans: seq<Plan>, channel: byte, splitId: nat)
    ensures Stable(ProperOn(plans, channel, splitId))
  {
    hide Proper;
    forall f, index | Proper(f, plans, channel, splitId)
      ensures Proper(Number(f, index), plans, channel, splitId)
    {
      NumberProper(f, index, plans, channel, splitId);
    }
  }

  /** Numbering does not change the keys, and all parts are reliable. */
  lemma {:induction false} NumberedKeys(fs: seq<Fragment>, index: nat, plans: seq<Plan>, channel: byte, splitId: nat)
    requires Each(fs, ProperOn(plans, channel, splitId))
    ensures Keys(OnlyReliable(NumberAll(fs, index)), channel) == Keys(fs, channel)
  {
    hide Proper, OnChannel, Number;
    if fs != [] {
      assert fs[0] in fs;
      var first := Number(fs[0], index);
      var next := if fs[0].reliability.IsReliable() then index + 1 else index;
      NumberProper(fs[0], index, plans, channel, splitId);
      var rest := NumberAll(fs[1..], next);
      NumberedKeys(fs[1..], next, plans, channel, splitId);
      assert NumberAll(fs, index) == [first] + rest && ([first] + rest)[1..] == rest;
      KeysOne(first, channel);
      if first.reliability.IsReliable() {
        KeysAppend([first], OnlyReliable(rest), channel);
      } else {
        assert [] + OnlyReliable(rest) == OnlyReliable(rest);
      }
    }
  }

  /** The same keys are queued or sent before and after a transmission. */
  lemma UpdateKeepsKeys(run: Run, a: Action, plans: seq<Plan>, channel: byte)
    requires SenderSound(run, plans, channel) && a.DoUpdate? && Enabled(run, a)
    ensures KeysOnce(Step(run, a).issued, Step(run, a).sender.schedule.queue, plans, channel)
  {
    hide Proper, Keys, NumberAll, OnlyReliable, Popped, Left, Exhausts, GetRetransmitFragments;
    var queue := run.sender.schedule.queue;
    var popped := Popped(queue, a.picks);
    PoppedKeys(queue, a.picks, channel);
    PoppedEach(queue, a.picks, ProperOn(plans, channel, run.sender.splitId));
    NumberedKeys(popped, run.sender.reliableIndex, plans, channel, run.sender.splitId);
    KeysAppend(run.issued, Fresh(run.sender, a.picks), channel);
    assert Keys(Step(run, a).issued, channel) + QueueKeys(Step(run, a).sender.schedule.queue, channel) ==
           Keys(run.issued, channel) + QueueKeys(queue, channel);
  }

  // ---- send ----

  lemma ProperLater(f: Fragment, plans: seq<Plan>, more: seq<Plan>, channel: byte, splitId: nat, splitId': nat)
    requires Proper(f, plans, channel, splitId) && splitId <= splitId'
    requires forall k :: 0 <= k < |more| && more[k].splitId.Some? ==> more[k].splitId.value >= splitId
    ensures Proper(f, plans + more, channel, splitId')
  {
    var plans' := plans + more;
    if !IsPart(f, plans, channel) && f.splitInfo.Some? {
      forall k | 0 <= k < |plans'|
        ensures plans'[k].splitId != Some(f.splitInfo.value.id)
      {
        if k >= |plans| {
          assert plans'[k] == more[k - |plans|];
        }
      }
    }
  }

  lemma {:induction false} KeysOfMessage(fs: seq<Fragment>, channel: byte, k: nat, from: nat)
    requires forall i :: 0 <= i < |fs| ==> OnChannel(fs[i], channel) && Key(fs[i]) == (k, from + i)
    ensures forall key: (nat, nat) :: Keys(fs, channel)[key] == if key.0 == k && from <= key.1 < from + |fs| then 1 else 0
  {
    if fs != [] {
      assert forall i :: 0 <= i < |fs[1..]| ==> fs[1..][i] == fs[i + 1];
      KeysOfMessage(fs[1..], channel, k, from + 1);
    }
  }

  lemma {:induction false} NoKeys(fs: seq<Fragment>, channel: byte)
    requires forall i :: 0 <= i < |fs| ==> !OnChannel(fs[i], channel)
    ensures Keys(fs, channel) == multiset{}
  {
    if fs != [] {
      NoKeys(fs[1..], channel);
    }
  }

  lemma AppendedKeys(before: Schedule, after: Schedule, fs: seq<Fragment>, channel: byte)
    requires Appended(before, after, fs)
    ensures QueueKeys(after.queue, channel) == QueueKeys(before.queue, channel) + Keys(fs, channel)
  {
    assert FragmentsOf(after.queue) == FragmentsOf(before.queue) + fs by {
      assert forall i :: 0 <= i < |before.queue| ==> after.queue[i] == after.queue[..|before.queue|][i];
    }
    KeysAppend(FragmentsOf(before.queue), fs, channel);
  }

  /** The plans after an action: one more after a message of the channel. */
  function PlansAfter(s: Sender, a: Action, plans: seq<Plan>, channel: byte): seq<Plan>
    requires a.DoSend? ==> s.maxSize >= MIN_PACKET_ROOM && (a.reliability.UsesChannel() ==> a.channel < |s.orderingIndex|)
  {
    if SendsOn(a, channel) then plans + [PlanOf(s, a)] else plans
  }

  lemma PartIsProper(s: Sender, a: Action, plans: seq<Plan>, channel: byte, i: nat)
    requires SendsOn(a, channel) && s.maxSize >= MIN_PACKET_ROOM && a.channel < |s.orderingIndex|
    requires |plans| == s.orderingIndex[channel] && i < |PlanOf(s, a).chunks|
    ensures IsPart(PlanOf(s, a).Part(i), plans + [PlanOf(s, a)], channel) && Key(PlanOf(s, a).Part(i)) == (|plans|, 0 + i)
  {
    PlanForSound(s, WholeSent(s, a));
  }

  lemma OtherIsProper(s: Sender, a: Action, plans: seq<Plan>, channel: byte, i: nat)
    requires a.DoSend? && !SendsOn(a, channel) && Unsequenced(a, channel)
    requires s.maxSize >= MIN_PACKET_ROOM && (a.reliability.UsesChannel() ==> a.channel < |s.orderingIndex|)
    requires PlansSound(plans, s.splitId) && i < |PlanOf(s, a).chunks|
    ensures IsOther(PlanOf(s, a).Part(i), plans, channel, if MustSplit(s, WholeSent(s, a)) then s.splitId + 1 else s.splitId)
  {
    PlanForSound(s, WholeSent(s, a));
  }

  /** The fragments of a message are parts if it is sent on the channel, and have nothing
      to do with it otherwise. */
  lemma OutboundProper(run: Run, a: Action, plans: seq<Plan>, channel: byte)
    requires SenderSound(run, plans, channel) && a.DoSend? && Enabled(run, a) && Unsequenced(a, channel)
    ensures var fs := Outbound(run.sender, WholeSent(run.sender, a));
            && Each(fs, ProperOn(PlansAfter(run.sender, a, plans, channel), channel, Step(run, a).sender.splitId))
            && forall key: (nat, nat) ::
                 Keys(fs, channel)[key] == if SendsOn(a, channel) && key.0 == |plans| && key.1 < |fs| then 1 else 0
  {
    hide Inv, KeysOnce, Everywhere, PlansSound, CanPushAll, PushAll, Outbound, PlanFor, IsPart, IsOther, Key, OnChannel;
    var s := run.sender;
    var fs := Outbound(s, WholeSent(s, a));
    PlanForSound(s, WholeSent(s, a));
    if SendsOn(a, channel) {
      forall i | 0 <= i < |fs|
        ensures Key(fs[i]) == (|plans|, 0 + i) && IsPart(fs[i], plans + [PlanOf(s, a)], channel) && OnChannel(fs[i], channel)
      {
        PartIsProper(s, a, plans, channel, i);
        PartOnChannel(fs[i], plans + [PlanOf(s, a)], channel);
      }
      KeysOfMessage(fs, channel, |plans|, 0);
    } else {
      forall i | 0 <= i < |fs|
        ensures IsOther(fs[i], plans, channel, Step(run, a).sender.splitId) && !OnChannel(fs[i], channel)
      {
        OtherIsProper(s, a, plans, channel, i);
        OtherOffChannel(fs[i], plans, channel, Step(run, a).sender.splitId);
      }
      NoKeys(fs, channel);
    }
  }

  lemma PartOnChannel(f: Fragment, plans: seq<Plan>, channel: byte)
    requires IsPart(f, plans, channel)
    ensures OnChannel(f, channel)
  {
  }

  lemma OtherOffChannel(f: Fragment, plans: seq<Plan>, channel: byte, splitId: nat)
    requires IsOther(f, plans, channel, splitId)
    ensures !OnChannel(f, channel)
  {
  }

  lemma PlansAfterSound(run: Run, a: Action, plans: seq<Plan>, channel: byte)
    requires SenderSound(run, plans, channel) && a.DoSend? && Enabled(run, a)
    ensures var plans', s' := PlansAfter(run.sender, a, plans, channel), Step(run, a).sender;
            && PlansSound(plans', s'.splitId) && run.sender.splitId <= s'.splitId
            && |plans'| == s'.orderingIndex[channel]
            && plans <= plans'
            && (forall k :: |plans| <= k < |plans'| ==>
                              && 0 < |plans'[k].chunks|
                              && (plans'[k].splitId.Some? ==> plans'[k].splitId.value == run.sender.splitId))
  {
    hide Everywhere, KeysOnce, CanPushAll, PushAll;
    PlansGrow(plans, run.sender, WholeSent(run.sender, a));
  }

  lemma SendKeepsSender(run: Run, a: Action, plans: seq<Plan>, channel: byte)
    requires SenderSound(run, plans, channel) && a.DoSend? && Enabled(run, a) && Unsequenced(a, channel)
    ensures SenderSound(Step(run, a), PlansAfter(run.sender, a, plans, channel), channel)
  {
    hide Inv, Everywhere, Each, Proper, Keys, PlansSound, CanPushAll, PushAll, Appended, Outbound, PlanFor;
    var s, s' := run.sender, Step(run, a).sender;
    var fs := Outbound(s, WholeSent(s, a));
    var plans' := PlansAfter(s, a, plans, channel);
    StepKeepsInv(run, a);
    PlansAfterSound(run, a, plans, channel);
    OutboundProper(run, a, plans, channel);
    PushAllAppends(s.schedule, a.peeks, a.priority, fs);
    assert plans' == plans + plans'[|plans|..];
    forall f | Proper(f, plans, channel, s.splitId)
      ensures Proper(f, plans', channel, s'.splitId)
    {
      ProperLater(f, plans, plans'[|plans|..], channel, s.splitId, s'.splitId);
    }
    WeakerEverywhere(run, ProperOn(plans, channel, s.splitId), ProperOn(plans', channel, s'.splitId));
    SendKeepsEverywhere(run, a, ProperOn(plans', channel, s'.splitId));
    AppendedKeys(s.schedule, s'.schedule, fs, channel);
    PlanForSound(s, WholeSent(s, a));
  }

  lemma ActionKeepsSender(run: Run, a: Action, plans: seq<Plan>, channel: byte)
    requires SenderSound(run, plans, channel) && Enabled(run, a) && Unsequenced(a, channel)
    ensures SenderSound(Step(run, a), PlansAfter(run.sender, a, plans, channel), channel)
  {
    hide Inv, Everywhere, ProperOn, KeysOnce, PlansSound, Transmits, CanPushAll, PushAll;
    if a.DoSend? {
      SendKeepsSender(run, a, plans, channel);
    } else {
      StepKeepsInv(run, a);
      ProperStable(plans, channel, run.sender.splitId);
      ActionKeepsEverywhere(run, a, ProperOn(plans, channel, run.sender.splitId));
      if a.DoUpdate? {
        UpdateKeepsKeys(run, a, plans, channel);
      }
    }
  }

  // ---- what the sent fragments look like to a receiver ----

  /** Fragment i was sent with reliable index i; no part was given two indices. */
  ghost predicate IssuedSound(issued: seq<Fragment>, channel: byte) {
    && (forall i :: 0 <= i < |issued| ==> issued[i].reliableIndex == Some(i))
    && (forall i, j :: 0 <= i < j < |issued| && OnChannel(issued[i], channel) && OnChannel(issued[j], channel) ==>
                         Key(issued[i]) != Key(issued[j]))
  }

  lemma {:induction false} KeyCounted(fs: seq<Fragment>, f: Fragment, channel: byte)
    requires f in fs && OnChannel(f, channel)
    ensures Keys(fs, channel)[Key(f)] >= 1
  {
    if f != fs[0] {
      KeyCounted(fs[1..], f, channel);
    }
  }

  lemma {:induction false} KeysOnceDiffer(fs: seq<Fragment>, channel: byte)
    requires forall key: (nat, nat) :: Keys(fs, channel)[key] <= 1
    ensures forall i, j :: 0 <= i < j < |fs| && OnChannel(fs[i], channel) && OnChannel(fs[j], channel) ==> Key(fs[i]) != Key(fs[j])
  {
    if fs != [] {
      var rest := fs[1..];
      forall key: (nat, nat)
        ensures Keys(rest, channel)[key] <= Keys(fs, channel)[key]
      {
      }
      KeysOnceDiffer(rest, channel);
      forall j | 0 < j < |fs| && OnChannel(fs[0], channel) && OnChannel(fs[j], channel)
        ensures Key(fs[0]) != Key(fs[j])
      {
        KeyCounted(rest, rest[j - 1], channel);
      }
      assert forall i, j :: 0 < i < j < |fs| ==> fs[i] == rest[i - 1] && fs[j] == rest[j - 1];
    }
  }

  lemma SenderIssues(run: Run, plans: seq<Plan>, channel: byte)
    requires SenderSound(run, plans, channel)
    ensures IssuedSound(run.issued, channel)
  {
    hide Keys, Proper;
    forall key: (nat, nat)
      ensures Keys(run.issued, channel)[key] <= 1
    {
      assert (Keys(run.issued, channel) + QueueKeys(run.sender.schedule.queue, channel))[key] <= 1;
    }
    KeysOnceDiffer(run.issued, channel);
    forall i | 0 <= i < |run.issued|
      ensures run.issued[i].reliableIndex == Some(i)
    {
      assert HasIndex(run.issued[i], i, run.sender.maxSize);
    }
  }
}
