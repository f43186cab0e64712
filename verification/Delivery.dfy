/** What the receiver makes of fragments that were sent: every message of an ordered
    channel is put together once and released in order, whatever else is in the traffic
    (`handle_fragment` of src/reliability/layer.rs). */
module Delivery {
  import opened Basics
  import opened Datagrams
  import opened Windows
  import opened WindowRuns
  import opened Splitting
  import opened Ordering
  import opened Receivers
  import opened ExactlyOnce
  import opened HandedUp
  import opened Traces
  import opened MessageParts

  function Datas(plans: seq<Plan>): (r: seq<Bytes>)
    ensures |r| == |plans| && forall k :: 0 <= k < |r| ==> r[k] == plans[k].whole.data
  {
    seq(|plans|, k requires 0 <= k < |plans| => plans[k].whole.data)
  }

  // ---- what has arrived ----

  /** The parts of message k among these fragments. */
  ghost function PartsIn(fs: seq<Fragment>, channel: byte, k: nat): set<nat> {
    set f | f in fs && OnChannel(f, channel) && Key(f).0 == k :: PartIndex(f)
  }

  /** How many parts the message of this fragment has. */
  function PartCount(f: Fragment): nat {
    if f.splitInfo.Some? then f.splitInfo.value.size else 1
  }

  /** The fragment is the last part its message was waiting for. */
  ghost predicate Completes(before: seq<Fragment>, f: Fragment, channel: byte) {
    && OnChannel(f, channel)
    && All(PartsIn(before + [f], channel, Key(f).0), PartCount(f))
    && !All(PartsIn(before, channel, Key(f).0), PartCount(f))
  }

  /** The messages of the channel in the order in which their last parts arrive. */
  ghost function CompletionOrder(arrived: seq<Fragment>, channel: byte): seq<nat> {
    if arrived == [] then
      []
    else
      var n := |arrived| - 1;
      CompletionOrder(arrived[..n], channel) + if Completes(arrived[..n], arrived[n], channel) then [Key(arrived[n]).0] else []
  }

  ghost predicate Received(arrived: seq<Fragment>, plans: seq<Plan>, channel: byte, k: nat)
    requires k < |plans|
  {
    All(PartsIn(arrived, channel, k), |plans[k].chunks|)
  }

  /** The messages of which every part has arrived. */
  ghost function CompleteMessages(arrived: seq<Fragment>, plans: seq<Plan>, channel: byte): set<nat> {
    set k: nat | k < |plans| && Received(arrived, plans, channel, k)
  }

  /** A fragment as it was sent; a reliable one is known by its index. */
  ghost predicate SentOne(f: Fragment, issued: seq<Fragment>, plans: seq<Plan>, channel: byte, splitId: nat) {
    && Proper(f, plans, channel, splitId) && f.Numbered()
    && (f.reliableIndex.Some? ==> f.reliableIndex.value < |issued| && issued[f.reliableIndex.value] == f)
  }

  ghost predicate AllSent(fs: seq<Fragment>, issued: seq<Fragment>, plans: seq<Plan>, channel: byte, splitId: nat) {
    forall f <- fs :: SentOne(f, issued, plans, channel, splitId)
  }

  /** Incomplete split messages of the channel wait in the table, each under its own id. */
  ghost predicate TableSound(table: Table, arrived: seq<Fragment>, plans: seq<Plan>, channel: byte, splitId: nat) {
    && (forall id <- table :: id < splitId)
    && forall k :: 0 <= k < |plans| && plans[k].splitId.Some? ==> EntrySound(table, arrived, plans, channel, k)
  }

  ghost predicate EntrySound(table: Table, arrived: seq<Fragment>, plans: seq<Plan>, channel: byte, k: nat)
    requires k < |plans| && plans[k].splitId.Some?
  {
    if Received(arrived, plans, channel, k) then
      plans[k].splitId.value !in table
    else
      Gathering(table, plans[k].splitId.value, plans[k].chunks, PartsIn(arrived, channel, k))
  }

  /** The channel is where its completed messages have brought it. */
  ghost predicate ChannelSound(r: Receiver, log: seq<Handed>, arrived: seq<Fragment>, plans: seq<Plan>, channel: byte) {
    var order := CompletionOrder(arrived, channel);
    && |r.channels| == ORDERING_CHANNEL_SIZE && channel < ORDERING_CHANNEL_SIZE
    && Distinct(order) && SetOf(order) == CompleteMessages(arrived, plans, channel)
    && ReleasedSoFar(r, log, order, Datas(plans), channel)
  }

  ghost predicate ReleasedSoFar(r: Receiver, log: seq<Handed>, order: seq<nat>, messages: seq<Bytes>, channel: byte) {
    var t := ReceiveAll(order).0;
    && channel as nat < |r.channels|
    && Mirrors(r.channels[channel], t, messages)
    && t.nextOrdering <= |messages|
    && Select(log, channel) == messages[..t.nextOrdering]
  }

  ghost predicate ReceiverSound(r: Receiver, log: seq<Handed>, arrived: seq<Fragment>, issued: seq<Fragment>, plans: seq<Plan>,
                                channel: byte, splitId: nat)
  {
    && Settled(r.reliable, RELIABLE_WINDOW_SIZE, IndicesOf(arrived))
    && AllSent(arrived, issued, plans, channel, splitId)
    && TableSound(r.splits, arrived, plans, channel, splitId)
    && ChannelSound(r, log, arrived, plans, channel)
  }

  // ---- one fragment more ----

  lemma PartsSnoc(arrived: seq<Fragment>, f: Fragment, channel: byte, k: nat)
    ensures PartsIn(arrived + [f], channel, k) ==
            PartsIn(arrived, channel, k) + if OnChannel(f, channel) && Key(f).0 == k then {PartIndex(f)} else {}
  {
  }

  lemma IndicesSnoc(arrived: seq<Fragment>, f: Fragment)
    ensures IndicesOf(arrived + [f]) == IndicesOf(arrived) + if f.reliableIndex.Some? then {f.reliableIndex.value} else {}
  {
  }

  lemma OrderSnoc(arrived: seq<Fragment>, f: Fragment, channel: byte)
    ensures CompletionOrder(arrived + [f], channel) ==
            CompletionOrder(arrived, channel) + if Completes(arrived, f, channel) then [Key(f).0] else []
  {
    assert (arrived + [f])[..|arrived|] == arrived;
  }

  /** A fragment that brings no new part of the channel changes nothing for it. */
  lemma NothingNew(arrived: seq<Fragment>, f: Fragment, plans: seq<Plan>, channel: byte)
    requires f in arrived || !OnChannel(f, channel)
    ensures forall k :: PartsIn(arrived + [f], channel, k) == PartsIn(arrived, channel, k)
    ensures CompletionOrder(arrived + [f], channel) == CompletionOrder(arrived, channel)
    ensures CompleteMessages(arrived + [f], plans, channel) == CompleteMessages(arrived, plans, channel)
  {
    forall k
      ensures PartsIn(arrived + [f], channel, k) == PartsIn(arrived, channel, k)
    {
      PartsSnoc(arrived, f, channel, k);
      assert f in arrived && OnChannel(f, channel) && Key(f).0 == k ==> PartIndex(f) in PartsIn(arrived, channel, k);
    }
    OrderSnoc(arrived, f, channel);
    assert CompletionOrder(arrived, channel) + [] == CompletionOrder(arrived, channel);
  }

  lemma NothingNewIsSound(r: Receiver, r': Receiver, log: seq<Handed>, log': seq<Handed>, arrived: seq<Fragment>, f: Fragment,
                          plans: seq<Plan>, channel: byte, splitId: nat)
    requires f in arrived || !OnChannel(f, channel)
    requires TableSound(r.splits, arrived, plans, channel, splitId) && ChannelSound(r, log, arrived, plans, channel)
    requires |r'.channels| == |r.channels| && r'.channels[channel] == r.channels[channel]
    requires Select(log', channel) == Select(log, channel)
    requires forall id <- r'.splits :: id < splitId
    requires forall k :: 0 <= k < |plans| && plans[k].splitId.Some? ==> SameEntry(r.splits, r'.splits, plans[k].splitId.value)
    ensures TableSound(r'.splits, arrived + [f], plans, channel, splitId) && ChannelSound(r', log', arrived + [f], plans, channel)
  {
    hide ReceiveAll, Mirrors, CompletionOrder, CompleteMessages, PartsIn;
    NothingNew(arrived, f, plans, channel);
    forall k | 0 <= k < |plans| && plans[k].splitId.Some?
      ensures EntrySound(r'.splits, arrived + [f], plans, channel, k)
    {
      assert EntrySound(r.splits, arrived, plans, channel, k);
    }
  }

  predicate SameEntry(table: Table, table': Table, id: nat) {
    (id in table' <==> id in table) && (id in table ==> table'[id] == table[id])
  }

  /** A part of the channel that has not come before. */
  lemma PartIsNew(arrived: seq<Fragment>, issued: seq<Fragment>, plans: seq<Plan>, channel: byte, splitId: nat, f: Fragment)
    requires IssuedSound(issued, channel) && PlansSound(plans, splitId) && AllSent(arrived, issued, plans, channel, splitId)
    requires SentOne(f, issued, plans, channel, splitId) && OnChannel(f, channel)
    requires f.reliableIndex.value !in IndicesOf(arrived)
    ensures PartIndex(f) !in PartsIn(arrived, channel, Key(f).0)
    ensures Key(f).0 < |plans| && PartCount(f) == |plans[Key(f).0].chunks|
    ensures !Received(arrived, plans, channel, Key(f).0)
  {
    assert IsPart(f, plans, channel) && PlanSound(plans[Key(f).0]);
    forall g | g in arrived && OnChannel(g, channel) && Key(g).0 == Key(f).0
      ensures PartIndex(g) != PartIndex(f)
    {
      assert SentOne(g, issued, plans, channel, splitId) && IsPart(g, plans, channel);
      assert g.reliableIndex.value in IndicesOf(arrived);
    }
    var k := Key(f).0;
    assert Received(arrived, plans, channel, k) ==> PartIndex(f) in PartsIn(arrived, channel, k);
  }

  /** It completes its own message or none. */
  lemma CompleteMore(arrived: seq<Fragment>, plans: seq<Plan>, channel: byte, f: Fragment)
    requires OnChannel(f, channel) && Key(f).0 < |plans| && PartCount(f) == |plans[Key(f).0].chunks|
    requires !Received(arrived, plans, channel, Key(f).0)
    ensures var done := Received(arrived + [f], plans, channel, Key(f).0);
            && (Completes(arrived, f, channel) <==> done)
            && CompleteMessages(arrived + [f], plans, channel) ==
               CompleteMessages(arrived, plans, channel) + if done then {Key(f).0} else {}
  {
    forall j: nat | j < |plans|
      ensures j != Key(f).0 ==> Received(arrived + [f], plans, channel, j) == Received(arrived, plans, channel, j)
      ensures Received(arrived, plans, channel, j) ==> Received(arrived + [f], plans, channel, j)
    {
      PartsSnoc(arrived, f, channel, j);
    }
  }

  /** The entries of other messages do not notice it. */
  lemma OtherEntries(table: Table, table': Table, arrived: seq<Fragment>, plans: seq<Plan>, channel: byte, f: Fragment, j: nat)
    requires OnChannel(f, channel) && j < |plans| && j != Key(f).0 && plans[j].splitId.Some?
    requires EntrySound(table, arrived, plans, channel, j) && SameEntry(table, table', plans[j].splitId.value)
    ensures EntrySound(table', arrived + [f], plans, channel, j)
  {
    PartsSnoc(arrived, f, channel, j);
  }

  // ---- a part of the channel ----

  /** A part goes to its entry, or is a whole message; the last one brings the message out. */
  lemma PartStored(table: Table, arrived: seq<Fragment>, plans: seq<Plan>, channel: byte, splitId: nat, f: Fragment)
    requires PlansSound(plans, splitId) && TableSound(table, arrived, plans, channel, splitId)
    requires IsPart(f, plans, channel) && PartIndex(f) !in PartsIn(arrived, channel, Key(f).0)
    requires !Received(arrived, plans, channel, Key(f).0)
    ensures var (table', whole) := Completed(table, f);
            var k := Key(f).0;
            && TableSound(table', arrived + [f], plans, channel, splitId)
            && whole == Ok(if Received(arrived + [f], plans, channel, k) then Some(f.(data := plans[k].whole.data)) else None)
  {
    var k := Key(f).0;
    assert PlanSound(plans[k]);
    PartsSnoc(arrived, f, channel, k);
    var table' := Completed(table, f).0;
    if f.splitInfo.Some? {
      assert EntrySound(table, arrived, plans, channel, k);
      OwnPiece(table, plans[k].splitId.value, plans[k].chunks, PartsIn(arrived, channel, k), f);
    } else {
      assert Received(arrived + [f], plans, channel, k);
    }
    forall j | 0 <= j < |plans| && plans[j].splitId.Some? && j != k
      ensures EntrySound(table', arrived + [f], plans, channel, j)
    {
      assert plans[j].splitId != plans[k].splitId;
      OtherEntries(table, table', arrived, plans, channel, f, j);
    }
  }

  lemma InSetOf(s: seq<nat>, k: nat)
    ensures k in SetOf(s) <==> k in s
  {
  }

  /** A message completed on the channel. */
  lemma MessageReleased(r: Receiver, log: seq<Handed>, order: seq<nat>, messages: seq<Bytes>, channel: byte, m: Fragment)
    requires Distinct(order) && ReleasedSoFar(r, log, order, messages, channel)
    requires OnChannel(m, channel) && m.sequenceIndex.None?
    requires var k := Key(m).0; k < |messages| && k !in order && m.data == messages[k]
    ensures var (r', done) := Deliver(r, m);
            && done == Ok(())
            && r' == r.(channels := r'.channels, output := r'.output) && |r'.channels| == |r.channels|
            && Distinct(order + [Key(m).0])
            && ReleasedSoFar(r', log + HandedByMessage(r, m), order + [Key(m).0], messages, channel)
  {
    hide Receive, Mirrors, Drifted, Names, ReceiveAll, SetOf, Select, Datas;
    var k := Key(m).0;
    var t := ReceiveAll(order).0;
    ReleasesInOrder(order);
    ReceiveAllSnoc(order, k);
    ImageOfReceive(r.channels[channel], t, messages, k);
    assert k !in SetOf(order) by {
      InSetOf(order, k);
    }
    ReceiveInOrder(t, SetOf(order), k);
    var (t', tags) := Receive(t, k, None, k);
    var out := Receive(r.channels[channel], k, None, messages[k]).1;
    NamesRange(out, t.nextOrdering, t'.nextOrdering, messages);
    SelectMore(log, out, messages, t.nextOrdering, t'.nextOrdering, channel);
    assert Distinct(order + [k]);
  }

  lemma SelectMore(log: seq<Handed>, out: seq<Bytes>, messages: seq<Bytes>, from: nat, to: nat, channel: byte)
    requires from <= to <= |messages| && Select(log, channel) == messages[..from] && out == messages[from..to]
    ensures Select(log + Tagged(Some(channel), out), channel) == messages[..to]
  {
    SelectAppend(log, Tagged(Some(channel), out), channel);
    SelectTagged(Some(channel), out, channel);
  }

  lemma NewPart(r: Receiver, log: seq<Handed>, arrived: seq<Fragment>, issued: seq<Fragment>, plans: seq<Plan>,
                channel: byte, splitId: nat, f: Fragment)
    requires IssuedSound(issued, channel) && PlansSound(plans, splitId)
    requires AllSent(arrived, issued, plans, channel, splitId) && SentOne(f, issued, plans, channel, splitId)
    requires TableSound(r.splits, arrived, plans, channel, splitId) && ChannelSound(r, log, arrived, plans, channel)
    requires OnChannel(f, channel) && f.reliableIndex.Some? && f.reliableIndex.value !in IndicesOf(arrived)
    ensures var (r', done) := HandleAdmitted(r, f);
            && done == Ok(()) && r'.reliable == r.reliable
            && TableSound(r'.splits, arrived + [f], plans, channel, splitId)
            && ChannelSound(r', log + HandedByAdmitted(r, f), arrived + [f], plans, channel)
  {
    hide TableSound, EntrySound, Received, PartsIn, CompletionOrder, Completed, ReleasedSoFar, Deliver, AllSent, Completes, CompleteMessages, PlansSound;
    var k := Key(f).0;
    PartIsNew(arrived, issued, plans, channel, splitId, f);
    PartStored(r.splits, arrived, plans, channel, splitId, f);
    CompleteMore(arrived, plans, channel, f);
    OrderSnoc(arrived, f, channel);
    var order := CompletionOrder(arrived, channel);
    var (table, whole) := Completed(r.splits, f);
    var r1 := r.(splits := table);
    assert log + [] == log && order + [] == order;
    assert ReleasedSoFar(r1, log, order, Datas(plans), channel) by {
      SameRelease(r, r1, log, order, Datas(plans), channel);
    }
    if whole.value.Some? {
      assert k !in order by {
        NotComplete(arrived, plans, channel, k);
        assert k !in SetOf(order);
      }
      MessageReleased(r1, log, order, Datas(plans), channel, whole.value.value);
      assert HandedByMessage(r1, whole.value.value) == HandedByAdmitted(r, f) by {
        SameHanded(r, r1, whole.value.value);
      }
      assert SetOf(order + [k]) == SetOf(order) + {k};
    }
  }

  lemma SameHanded(r: Receiver, r1: Receiver, m: Fragment)
    requires r1.channels == r.channels
    ensures HandedByMessage(r1, m) == HandedByMessage(r, m)
  {
  }

  lemma SameRelease(r: Receiver, r1: Receiver, log: seq<Handed>, order: seq<nat>, messages: seq<Bytes>, channel: byte)
    requires r1.channels == r.channels && ReleasedSoFar(r, log, order, messages, channel)
    ensures ReleasedSoFar(r1, log, order, messages, channel)
  {
  }

  lemma NotComplete(arrived: seq<Fragment>, plans: seq<Plan>, channel: byte, k: nat)
    requires k < |plans| && !Received(arrived, plans, channel, k)
    ensures k !in CompleteMessages(arrived, plans, channel)
  {
  }

  // ---- other traffic ----

  /** A fragment of something else, whatever becomes of it. */
  lemma OtherTraffic(r: Receiver, log: seq<Handed>, arrived: seq<Fragment>, plans: seq<Plan>,
                     channel: byte, splitId: nat, f: Fragment)
    requires IsOther(f, plans, channel, splitId)
    requires TableSound(r.splits, arrived, plans, channel, splitId) && ChannelSound(r, log, arrived, plans, channel)
    ensures var (r', done) := HandleAdmitted(r, f);
            && r'.reliable == r.reliable
            && TableSound(r'.splits, arrived + [f], plans, channel, splitId)
            && ChannelSound(r', log + HandedByAdmitted(r, f), arrived + [f], plans, channel)
  {
    hide ChannelSound, EntrySound, PartsIn, Receive;
    var (r', done) := HandleAdmitted(r, f);
    var handed := HandedByAdmitted(r, f);
    OtherEntriesKept(r.splits, plans, channel, splitId, f);
    ChannelCount(r, log, arrived, plans, channel);
    OtherHands(r, f, channel);
    SelectAppend(log, handed, channel);
    assert Select(log, channel) + [] == Select(log, channel);
    NothingNewIsSound(r, r', log, log + handed, arrived, f, plans, channel, splitId);
  }

  lemma ChannelCount(r: Receiver, log: seq<Handed>, arrived: seq<Fragment>, plans: seq<Plan>, channel: byte)
    requires ChannelSound(r, log, arrived, plans, channel)
    ensures |r.channels| == ORDERING_CHANNEL_SIZE && channel < ORDERING_CHANNEL_SIZE
  {
  }

  lemma OtherEntriesKept(table: Table, plans: seq<Plan>, channel: byte, splitId: nat, f: Fragment)
    requires IsOther(f, plans, channel, splitId) && forall id <- table :: id < splitId
    ensures var table' := Completed(table, f).0;
            && (forall id <- table' :: id < splitId)
            && (forall k :: 0 <= k < |plans| && plans[k].splitId.Some? ==> SameEntry(table, table', plans[k].splitId.value))
  {
  }

  lemma OtherHands(r: Receiver, f: Fragment, channel: byte)
    requires !OnChannel(f, channel) && channel as nat < |r.channels|
    ensures Select(HandedByAdmitted(r, f), channel) == []
    ensures var r' := HandleAdmitted(r, f).0;
            |r'.channels| == |r.channels| && r'.channels[channel] == r.channels[channel]
            && r'.splits == Completed(r.splits, f).0
  {
    hide Receive;
    var (table, whole) := Completed(r.splits, f);
    if whole.Ok? && whole.value.Some? {
      var m := whole.value.value;
      assert m.orderingInfo == f.orderingInfo;
      if m.orderingInfo.Some? && m.orderingInfo.value.channel as nat < |r.channels| {
        SelectTagged(Some(m.orderingInfo.value.channel),
                     Receive(r.channels[m.orderingInfo.value.channel], m.orderingInfo.value.index, m.sequenceIndex, m.data).1, channel);
      } else if m.orderingInfo.None? {
        SelectTagged(None, [m.data], channel);
        assert Tagged(None, [m.data]) == [Handed(None, m.data)];
      }
    }
  }

  // ---- any fragment ----

  /** A fragment past the reliable window. */
  lemma AdmittedSent(r: Receiver, log: seq<Handed>, arrived: seq<Fragment>, issued: seq<Fragment>, plans: seq<Plan>,
                     channel: byte, splitId: nat, f: Fragment)
    requires IssuedSound(issued, channel) && PlansSound(plans, splitId)
    requires AllSent(arrived, issued, plans, channel, splitId) && SentOne(f, issued, plans, channel, splitId)
    requires TableSound(r.splits, arrived, plans, channel, splitId) && ChannelSound(r, log, arrived, plans, channel)
    requires f.reliableIndex.Some? ==> f.reliableIndex.value !in IndicesOf(arrived)
    ensures var (r', done) := HandleAdmitted(r, f);
            && r'.reliable == r.reliable
            && TableSound(r'.splits, arrived + [f], plans, channel, splitId)
            && ChannelSound(r', log + HandedByAdmitted(r, f), arrived + [f], plans, channel)
  {
    hide TableSound, ChannelSound, AllSent, HandleAdmitted, HandedByAdmitted, IndicesOf, IssuedSound, PlansSound;
    if OnChannel(f, channel) {
      NewPart(r, log, arrived, issued, plans, channel, splitId, f);
    } else {
      OtherTraffic(r, log, arrived, plans, channel, splitId, f);
    }
  }

  lemma AllSentSnoc(arrived: seq<Fragment>, issued: seq<Fragment>, plans: seq<Plan>, channel: byte, splitId: nat, f: Fragment)
    requires AllSent(arrived, issued, plans, channel, splitId) && SentOne(f, issued, plans, channel, splitId)
    ensures AllSent(arrived + [f], issued, plans, channel, splitId)
    ensures f.reliableIndex.Some? && f.reliableIndex.value in IndicesOf(arrived) ==> f in arrived
  {
    hide Proper;
    if f.reliableIndex.Some? && f.reliableIndex.value in IndicesOf(arrived) {
      var g :| g in arrived && g.reliableIndex == f.reliableIndex;
      assert SentOne(g, issued, plans, channel, splitId);
    }
  }

  /** A repeat the window refuses. */
  lemma RefusedSent(r: Receiver, w: WindowState<()>, log: seq<Handed>, arrived: seq<Fragment>, issued: seq<Fragment>, plans: seq<Plan>,
                    channel: byte, splitId: nat, f: Fragment)
    requires ReceiverSound(r, log, arrived, issued, plans, channel, splitId) && SentOne(f, issued, plans, channel, splitId)
    requires f.reliableIndex.Some? && f.reliableIndex.value in IndicesOf(arrived)
    requires WindowRuns.Settled(w, RELIABLE_WINDOW_SIZE, IndicesOf(arrived))
    ensures ReceiverSound(r.(reliable := w), log, arrived + [f], issued, plans, channel, splitId)
  {
    hide Settled, SentOne, AllSent, TableSound, ChannelSound, CompletionOrder, PartsIn;
    AllSentSnoc(arrived, issued, plans, channel, splitId, f);
    IndicesSnoc(arrived, f);
    assert IndicesOf(arrived + [f]) == IndicesOf(arrived);
    var r' := r.(reliable := w);
    SameElsewhere(r, r', log, arrived, plans, channel, splitId);
    assert EntriesKept(r, r', plans, splitId) by {
      EntriesSame(r, r', arrived, plans, channel, splitId);
    }
    NothingNewIsSound(r, r', log, log, arrived, f, plans, channel, splitId);
  }

  predicate EntriesKept(r: Receiver, r': Receiver, plans: seq<Plan>, splitId: nat) {
    && (forall id <- r'.splits :: id < splitId)
    && forall k :: 0 <= k < |plans| && plans[k].splitId.Some? ==> SameEntry(r.splits, r'.splits, plans[k].splitId.value)
  }

  lemma EntriesSame(r: Receiver, r': Receiver, arrived: seq<Fragment>, plans: seq<Plan>, channel: byte, splitId: nat)
    requires r'.splits == r.splits && TableSound(r.splits, arrived, plans, channel, splitId)
    ensures EntriesKept(r, r', plans, splitId)
  {
  }

  lemma SameElsewhere(r: Receiver, r': Receiver, log: seq<Handed>, arrived: seq<Fragment>, plans: seq<Plan>, channel: byte, splitId: nat)
    requires r' == r.(reliable := r'.reliable) && ChannelSound(r, log, arrived, plans, channel)
    ensures channel as nat < |r.channels| == |r'.channels| && r'.channels[channel] == r.channels[channel]
  {
  }

  /** A fragment that was sent and does not slip: it is refused if it came before, and
      otherwise brings its message forward. A failure brings nothing out. */
  lemma HandleSent(r: Receiver, log: seq<Handed>, arrived: seq<Fragment>, issued: seq<Fragment>, plans: seq<Plan>,
                   channel: byte, splitId: nat, f: Fragment)
    requires IssuedSound(issued, channel) && PlansSound(plans, splitId)
    requires ReceiverSound(r, log, arrived, issued, plans, channel, splitId) && SentOne(f, issued, plans, channel, splitId)
    requires f.reliableIndex.Some? ==> !Slips(r.reliable, RELIABLE_WINDOW_SIZE, f.reliableIndex.value)
    ensures var (r', done) := HandleFragment(r, f);
            && (done.Ok? ==> ReceiverSound(r', log + HandedByFragment(r, f), arrived + [f], issued, plans, channel, splitId))
            && (done.Err? ==> HandedByFragment(r, f) == [])
  {
    hide Settled, SentOne, AllSent, TableSound, ChannelSound, HandleAdmitted, HandedByAdmitted, IndicesOf, Slips, PlansSound, IssuedSound;
    FragmentHands(r, f);
    var (w, admitted) := Admit(r.reliable, f);
    if f.reliableIndex.Some? && admitted.Ok? {
      AdmitsNew(r, f, IndicesOf(arrived));
    }
    if admitted == Ok(true) {
      AllSentSnoc(arrived, issued, plans, channel, splitId, f);
      IndicesSnoc(arrived, f);
      assert IndicesOf(arrived) + {} == IndicesOf(arrived);
      HandleAdmittedIgnoresWindow(r, w, f);
      AdmittedSent(r, log, arrived, issued, plans, channel, splitId, f);
      var r1, r' := HandleAdmitted(r, f).0, HandleFragment(r, f).0;
      assert r' == r1.(reliable := w);
      OnlyWindowDiffers(r1, r', log + HandedByAdmitted(r, f), arrived + [f], plans, channel);
    } else if admitted == Ok(false) {
      assert log + [] == log;
      assert IndicesOf(arrived) + {f.reliableIndex.value} == IndicesOf(arrived);
      RefusedSent(r, w, log, arrived, issued, plans, channel, splitId, f);
    }
  }

  lemma OnlyWindowDiffers(r: Receiver, r': Receiver, log: seq<Handed>, arrived: seq<Fragment>, plans: seq<Plan>, channel: byte)
    requires r' == r.(reliable := r'.reliable) && ChannelSound(r, log, arrived, plans, channel)
    ensures ChannelSound(r', log, arrived, plans, channel)
  {
  }

  /** A packet of such fragments. Even if it ends the connection, what came out of the
      channel by then is in order. */
  lemma {:induction false} HandleAllSent(r: Receiver, log: seq<Handed>, arrived: seq<Fragment>, issued: seq<Fragment>, plans: seq<Plan>,
                                         channel: byte, splitId: nat, fs: seq<Fragment>)
    requires IssuedSound(issued, channel) && PlansSound(plans, splitId)
    requires ReceiverSound(r, log, arrived, issued, plans, channel, splitId)
    requires AllSent(fs, issued, plans, channel, splitId) && NoneSlips(r, fs)
    ensures var (r', done) := HandleFragments(r, fs);
            var log' := log + HandedByFragments(r, fs);
            && (done.Ok? ==> ReceiverSound(r', log', arrived + fs, issued, plans, channel, splitId))
            && Select(log', channel) <= Datas(plans)
    decreases |fs|
  {
    hide ReceiverSound, SentOne, HandleFragment, HandedByFragment, IssuedSound, PlansSound, Slips, Select;
    SoundIsPrefix(r, log, arrived, issued, plans, channel, splitId);
    assert log + [] == log && arrived + [] == arrived;
    if fs != [] {
      assert fs[0] in fs;
      HandleSent(r, log, arrived, issued, plans, channel, splitId, fs[0]);
      var (r', done) := HandleFragment(r, fs[0]);
      var handed := HandedByFragment(r, fs[0]);
      if done.Ok? {
        HandleAllSent(r', log + handed, arrived + [fs[0]], issued, plans, channel, splitId, fs[1..]);
        assert (log + handed) + HandedByFragments(r', fs[1..]) == log + (handed + HandedByFragments(r', fs[1..]));
        assert (arrived + [fs[0]]) + fs[1..] == arrived + fs;
      } else {
        assert HandedByFragments(r, fs) == handed + [] == [];
      }
    }
  }

  lemma SoundIsPrefix(r: Receiver, log: seq<Handed>, arrived: seq<Fragment>, issued: seq<Fragment>, plans: seq<Plan>,
                      channel: byte, splitId: nat)
    requires ReceiverSound(r, log, arrived, issued, plans, channel, splitId)
    ensures Select(log, channel) <= Datas(plans)
  {
  }

  /** What has been released, against what has been completed. */
  lemma ReleasedIff(r: Receiver, log: seq<Handed>, arrived: seq<Fragment>, issued: seq<Fragment>, plans: seq<Plan>,
                    channel: byte, splitId: nat)
    requires ReceiverSound(r, log, arrived, issued, plans, channel, splitId)
    ensures var order := CompletionOrder(arrived, channel);
            (forall k <- order :: k < |Select(log, channel)|) <==> GapFree(SetOf(order)) && ClosesGaps(order)
  {
    hide TableSound, AllSent, Settled, GapFree, ClosesGaps;
    ReleasesEverythingIff(CompletionOrder(arrived, channel));
  }
}
