/** Messages sent without a channel, reliable or not, and unreliable fragments in general:
    what arrives is handed up (src/reliability/layer.rs:400-464). */
module LooseMessages {
  import opened Basics
  import opened Datagrams
  import opened Windows
  import opened WindowRuns
  import opened Splitting
  import opened Ordering
  import opened Senders
  import opened SenderRuns
  import opened Traces
  import opened Transmissions
  import opened Receivers
  import opened ExactlyOnce
  import opened HandedUp
  import opened EndToEnd
  import opened Provenance
  import Codec

  // ---- fragments without a reliable index ----

  predicate IsPlainFragment(f: Fragment) {
    f.reliableIndex.None? && f.splitInfo.None? && f.orderingInfo.None?
  }

  /** A whole unreliable message without a channel always goes straight to the output. */
  lemma PlainIsHandedUp(r: Receiver, f: Fragment)
    requires IsPlainFragment(f)
    ensures HandleFragment(r, f) == (r.(output := r.output + [f.data]), Ok(()))
  {
  }

  /** A whole unreliable message with a channel, which is to say a sequenced one, goes to its
      channel, and what this releases is the only thing that is added to the output. */
  lemma UnreliableIsReceived(r: Receiver, f: Fragment)
    requires f.reliableIndex.None? && f.splitInfo.None? && f.orderingInfo.Some?
    ensures var channel: nat := f.orderingInfo.value.channel;
            if channel < |r.channels| then
              var (c, out) := Receive(r.channels[channel], f.orderingInfo.value.index, f.sequenceIndex, f.data);
              HandleFragment(r, f) == (r.(channels := r.channels[channel := c], output := r.output + out), Ok(()))
            else
              HandleFragment(r, f) == (r, Err(Panic))
  {
    hide Receive;
  }

  /** Repeated or not, each arrival of a packet of such messages adds all of them, in order. */
  lemma {:induction false} PlainPacketIsHandedUp(r: Receiver, fs: seq<Fragment>)
    requires forall i :: 0 <= i < |fs| ==> IsPlainFragment(fs[i])
    ensures HandleFragments(r, fs) == (r.(output := r.output + ExactlyOnce.Payloads(fs)), Ok(()))
    decreases |fs|
  {
    hide HandleFragment;
    if fs == [] {
      assert r.output + [] == r.output;
    } else {
      PlainIsHandedUp(r, fs[0]);
      var r' := r.(output := r.output + [fs[0].data]);
      PlainPacketIsHandedUp(r', fs[1..]);
      assert r.output + ([fs[0].data] + ExactlyOnce.Payloads(fs[1..])) == r'.output + ExactlyOnce.Payloads(fs[1..]);
    }
  }

  // ---- runs ----

  /** The arrival counts: an unreliable fragment every time, a reliable one the first time. */
  ghost predicate Counts(before: seq<Fragment>, f: Fragment) {
    f.orderingInfo.None? && (f.reliableIndex.Some? ==> f.reliableIndex.value !in IndicesOf(before))
  }

  /** The messages without a channel among the arrivals that count. */
  ghost function LooseOf(arrived: seq<Fragment>): seq<Bytes> {
    if arrived == [] then
      []
    else
      var n := |arrived| - 1;
      LooseOf(arrived[..n]) + if Counts(arrived[..n], arrived[n]) then [arrived[n].data] else []
  }

  /** What came out of no channel. */
  function Untagged(log: seq<Handed>): seq<Bytes> {
    if log == [] then
      []
    else
      var n := |log| - 1;
      Untagged(log[..n]) + if log[n].channel.None? then [log[n].data] else []
  }

  lemma {:induction false} UntaggedAppend(a: seq<Handed>, b: seq<Handed>)
    ensures Untagged(a + b) == Untagged(a) + Untagged(b)
    decreases |b|
  {
    if b == [] {
      assert a + b == a;
    } else {
      var n := |b| - 1;
      assert (a + b)[..|a + b| - 1] == a + b[..n];
      UntaggedAppend(a, b[..n]);
    }
  }

  lemma {:induction false} TaggedIsNot(channel: byte, datas: seq<Bytes>)
    ensures Untagged(Tagged(Some(channel), datas)) == []
    decreases |datas|
  {
    if datas != [] {
      var n := |datas| - 1;
      assert Tagged(Some(channel), datas)[..n] == Tagged(Some(channel), datas[..n]);
      TaggedIsNot(channel, datas[..n]);
    }
  }

  predicate UnsplitIfLoose(f: Fragment) {
    f.orderingInfo.None? ==> f.splitInfo.None?
  }

  function LooseUnsplit(): Fragment -> bool {
    (f: Fragment) => UnsplitIfLoose(f)
  }

  lemma LooseHands(r: Receiver, f: Fragment)
    requires UnsplitIfLoose(f)
    ensures Untagged(HandedByAdmitted(r, f)) == if f.orderingInfo.None? then [f.data] else []
  {
    hide Receive;
    var whole := Completed(r.splits, f).1;
    assert whole.Ok? && whole.value.Some? ==> whole.value.value.orderingInfo == f.orderingInfo;
    if f.orderingInfo.None? {
      assert HandedByAdmitted(r, f) == [Handed(None, f.data)];
      assert [Handed(None, f.data)][..0] == [];
    } else if whole.Ok? && whole.value.Some? {
      var m := whole.value.value;
      if m.orderingInfo.value.channel as nat < |r.channels| {
        TaggedIsNot(m.orderingInfo.value.channel,
                    Receive(r.channels[m.orderingInfo.value.channel], m.orderingInfo.value.index, m.sequenceIndex, m.data).1);
      }
    }
  }

  /** The window has the indices that arrived, and the arrivals that count have come out. */
  ghost predicate Accounts(r: Receiver, log: seq<Handed>, arrived: seq<Fragment>) {
    WindowRuns.Settled(r.reliable, RELIABLE_WINDOW_SIZE, IndicesOf(arrived)) && Untagged(log) == LooseOf(arrived)
  }

  lemma OneMoreArrived(arrived: seq<Fragment>, f: Fragment)
    ensures IndicesOf(arrived + [f]) == IndicesOf(arrived) + if f.reliableIndex.Some? then {f.reliableIndex.value} else {}
    ensures LooseOf(arrived + [f]) == LooseOf(arrived) + if Counts(arrived, f) then [f.data] else []
  {
    assert (arrived + [f])[..|arrived|] == arrived;
  }

  lemma FragmentAccounts(r: Receiver, log: seq<Handed>, arrived: seq<Fragment>, f: Fragment)
    requires Accounts(r, log, arrived) && UnsplitIfLoose(f) && HandleFragment(r, f).1.Ok?
    requires f.reliableIndex.Some? ==> !Slips(r.reliable, RELIABLE_WINDOW_SIZE, f.reliableIndex.value)
    ensures Accounts(HandleFragment(r, f).0, log + HandedByFragment(r, f), arrived + [f])
  {
    hide WindowRuns.Settled, Admit, HandleAdmitted, HandedByAdmitted, IndicesOf, Slips, LooseOf;
    var (w, admitted) := Admit(r.reliable, f);
    OneMoreArrived(arrived, f);
    UntaggedAppend(log, HandedByFragment(r, f));
    LooseHands(r, f);
    assert Untagged(log) + [] == Untagged(log) && IndicesOf(arrived) + {} == IndicesOf(arrived);
    assert HandleFragment(r, f).0.reliable == w by {
      ReliableAfter(r, f);
    }
    if f.reliableIndex.Some? {
      AdmitsNew(r, f, IndicesOf(arrived));
    } else {
      AdmitsUnreliable(r, f);
    }
  }

  lemma AdmitsUnreliable(r: Receiver, f: Fragment)
    requires f.reliableIndex.None?
    ensures Admit(r.reliable, f) == (r.reliable, Ok(true))
  {
  }

  lemma {:induction false} FragmentsAccount(r: Receiver, log: seq<Handed>, arrived: seq<Fragment>, fs: seq<Fragment>)
    requires Accounts(r, log, arrived) && Each(fs, LooseUnsplit()) && NoneSlips(r, fs) && HandleFragments(r, fs).1.Ok?
    ensures Accounts(HandleFragments(r, fs).0, log + HandedByFragments(r, fs), arrived + fs)
    decreases |fs|
  {
    hide Accounts, HandleFragment, HandedByFragment, Slips;
    assert log + [] == log && arrived + [] == arrived;
    if fs != [] {
      assert fs[0] in fs;
      var r', handed := HandleFragment(r, fs[0]).0, HandedByFragment(r, fs[0]);
      FragmentAccounts(r, log, arrived, fs[0]);
      FragmentsAccount(r', log + handed, arrived + [fs[0]], fs[1..]);
      assert (log + handed) + HandedByFragments(r', fs[1..]) == log + (handed + HandedByFragments(r', fs[1..]));
      assert (arrived + [fs[0]]) + fs[1..] == arrived + fs;
    }
  }

  /** Messages without a channel fit a packet of this MTU. */
  predicate SmallLoose(events: seq<Event>, mtu: nat) {
    forall i :: 0 <= i < |events| && events[i].SenderStep? && events[i].action.DoSend? && !events[i].action.reliability.UsesChannel() ==>
                  HeaderOf(events[i].action.reliability) + |events[i].action.data| + 32 <= mtu
  }

  ghost predicate Kept(x: System, mtu: nat) {
    && SenderRuns.Inv(x.run) && x.run.sender.maxSize + 32 == mtu
    && Everywhere(x.run, Fits()) && Everywhere(x.run, LooseUnsplit())
    && (x.receiverAlive ==> Accounts(x.receiver, x.log, x.arrived))
  }

  lemma ActionKeepsLoose(run: Run, a: Action, mtu: nat)
    requires SenderRuns.Inv(run) && run.sender.maxSize + 32 == mtu && Everywhere(run, LooseUnsplit()) && Enabled(run, a)
    requires a.DoSend? && !a.reliability.UsesChannel() ==> HeaderOf(a.reliability) + |a.data| + 32 <= mtu
    ensures Everywhere(Step(run, a), LooseUnsplit())
  {
    hide SenderRuns.Inv, Everywhere, Transmits, CanPushAll, PushAll;
    if a.DoSend? {
      CutToFill(run.sender, a);
    }
    ActionKeepsEverywhere(run, a, LooseUnsplit());
  }

  lemma SizeStays(run: Run, a: Action)
    requires Enabled(run, a)
    ensures Step(run, a).sender.maxSize == run.sender.maxSize
  {
  }

  lemma EventKeeps(x: System, e: Event, mtu: nat)
    requires Kept(x, mtu) && Possible(x, e) && Slipless(x, e)
    requires e.SenderStep? && e.action.DoSend? && !e.action.reliability.UsesChannel() ==>
               HeaderOf(e.action.reliability) + |e.action.data| + 32 <= mtu
    ensures Kept(Next(x, e), mtu)
  {
    hide SenderRuns.Inv, Everywhere, Accounts, HandleBytes, HandedByPacket, WholeByPacket, Enabled, SendFits, Step, NoneSlips, Told;
    match e
    case SenderStep(a) =>
      StepKeepsInv(x.run, a);
      SizeStays(x.run, a);
      ActionKeepsFitting(x.run, a);
      ActionKeepsLoose(x.run, a, mtu);
    case Arrive(_, _, _) => ArriveKeeps(x, e, mtu);
    case Report(_, _) =>
      SameAccounts(x.receiver, Next(x, e).receiver, x.log, x.arrived);
    case ReportArrives(d) =>
      TellingKeepsFitting(x.run, d, Fits());
      TellingKeepsFitting(x.run, d, LooseUnsplit());
      TellingKeepsSize(x.run, d);
    case Recv =>
      SameAccounts(x.receiver, Next(x, e).receiver, x.log, x.arrived);
  }

  lemma TellingKeepsSize(run: Run, d: Control)
    requires SenderRuns.Inv(run) && run.alive
    ensures SenderRuns.Inv(Told(run, d)) && Told(run, d).sender.maxSize == run.sender.maxSize
  {
    hide Codec.GetDatagram, Codec.PutDatagram;
    match Codec.GetDatagram(Codec.PutDatagram(d))
    case Ok(Ack(_, seqs)) => StepKeepsInv(run, DoAck(seqs));
    case Ok(Nak(seqs)) => StepKeepsInv(run, DoNak(seqs));
    case _ =>
  }

  lemma SameAccounts(r: Receiver, r': Receiver, log: seq<Handed>, arrived: seq<Fragment>)
    requires r'.reliable == r.reliable
    ensures Accounts(r', log, arrived) == Accounts(r, log, arrived)
  {
  }

  lemma ArriveKeeps(x: System, e: Event, mtu: nat)
    requires Kept(x, mtu) && e.Arrive? && Possible(x, e) && Slipless(x, e)
    ensures Kept(Next(x, e), mtu)
  {
    hide SenderRuns.Inv, Everywhere, Each, Accounts, Codec.GetDatagram, Codec.PutDatagram, WholeByPacket, WithinLimits, HandleFragments,
         HandedByFragments, NoneSlips;
    var d := e.datagram;
    WireIsTransparent(x.run, d);
    OnTheWire(x.run, d, LooseUnsplit());
    var (r1, done) := HandleSeq(x.receiver, e.now, e.rto, d.seqNumber);
    assert HandleBytes(x.receiver, e.now, e.rto, Codec.PutDatagram(d)) ==
           HandlePacket(x.receiver, e.now, e.rto, d.seqNumber, d.fragments);
    if Next(x, e).receiverAlive {
      SameAccounts(x.receiver, r1, x.log, x.arrived);
      SeqLeavesFragments(x.receiver, r1, d.fragments);
      FragmentsAccount(r1, x.log, x.arrived, d.fragments);
    }
  }

  lemma {:induction false} RunKeeps(x: System, events: seq<Event>, end: System, mtu: nat)
    requires Kept(x, mtu) && Leads(x, events, end) && SlipFree(x, events) && SmallLoose(events, mtu)
    ensures Kept(end, mtu)
    decreases |events|
  {
    hide Kept, Possible, Next, Slipless;
    if events != [] {
      EventKeeps(x, events[0], mtu);
      RunKeeps(Next(x, events[0]), events[1..], end, mtu);
    }
  }

  lemma InitialKept(mtu: nat)
    requires mtu >= MIN_MTU
    ensures Kept(Initial(mtu), mtu)
  {
    hide SenderRuns.Inv;
    StartTraced(mtu);
    StartInv(mtu);
    assert IndicesOf([]) == {};
  }

  /** In every run in which no fragment slips, and messages without a channel are small
      enough to go out whole: while the receiver lives, what has come out of no channel is
      each unreliable message once per arrival of its packet and each reliable one once, in
      the order of arrival. */
  lemma LooseMessagesComeOut(mtu: nat, events: seq<Event>, end: System)
    requires mtu >= MIN_MTU && Leads(Initial(mtu), events, end) && SlipFree(Initial(mtu), events) && SmallLoose(events, mtu)
    requires end.receiverAlive
    ensures Untagged(end.log) == LooseOf(end.arrived)
    ensures Erase(end.log) == end.handed + end.receiver.output
  {
    hide Leads, SlipFree, SmallLoose, WindowRuns.Settled, SenderRuns.Inv, Everywhere;
    InitialKept(mtu);
    RunKeeps(Initial(mtu), events, end, mtu);
    NothingIsMadeUp(mtu, events, end);
  }
}
