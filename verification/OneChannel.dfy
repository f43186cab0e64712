/** The case in which one ordered channel is all there is: then everything the application
    is given, in the order it is given it, is what was sent
    (src/reliability/layer.rs:400-586). */
module OneChannel {
  import opened Basics
  import opened Datagrams
  import opened Ordering
  import opened Retransmission
  import opened Scheduling
  import opened Splitting
  import opened Senders
  import opened SenderRuns
  import opened Traces
  import opened MessageParts
  import opened Receivers
  import opened HandedUp
  import opened EndToEnd
  import Codec

  function IsOn(channel: byte): Fragment -> bool {
    (f: Fragment) => OnChannel(f, channel)
  }

  predicate LogOn(log: seq<Handed>, channel: byte) {
    forall h <- log :: h.channel == Some(channel)
  }

  /** Every message of the run is ordered and on the channel. */
  predicate OnlyOrdered(events: seq<Event>, channel: byte) {
    forall i :: 0 <= i < |events| && events[i].SenderStep? && events[i].action.DoSend? ==> SendsOn(events[i].action, channel)
  }

  lemma ActionKeepsOn(run: Run, a: Action, channel: byte)
    requires SenderRuns.Inv(run) && Everywhere(run, IsOn(channel)) && Enabled(run, a) && (a.DoSend? ==> SendsOn(a, channel))
    ensures Everywhere(Step(run, a), IsOn(channel))
  {
    hide SenderRuns.Inv, Everywhere, Transmits, CanPushAll, PushAll;
    ActionKeepsEverywhere(run, a, IsOn(channel));
  }

  lemma TellingKeepsOn(run: Run, d: Control, channel: byte)
    requires SenderRuns.Inv(run) && Everywhere(run, IsOn(channel)) && run.alive
    ensures SenderRuns.Inv(Told(run, d)) && Everywhere(Told(run, d), IsOn(channel))
  {
    hide Codec.GetDatagram, Codec.PutDatagram;
    match Codec.GetDatagram(Codec.PutDatagram(d))
    case Ok(Ack(_, seqs)) => StepKeepsInv(run, DoAck(seqs));
    case Ok(Nak(seqs)) => StepKeepsInv(run, DoNak(seqs));
    case _ =>
  }

  lemma FragmentLogOn(r: Receiver, f: Fragment, channel: byte)
    requires OnChannel(f, channel)
    ensures LogOn(HandedByFragment(r, f), channel)
  {
    hide Receive;
    var whole := Completed(r.splits, f).1;
    if whole.Ok? && whole.value.Some? {
      assert whole.value.value.orderingInfo == f.orderingInfo;
    }
  }

  lemma {:induction false} FragmentsLogOn(r: Receiver, fs: seq<Fragment>, channel: byte)
    requires Each(fs, IsOn(channel))
    ensures LogOn(HandedByFragments(r, fs), channel)
    decreases |fs|
  {
    hide HandleFragment, HandedByFragment;
    if fs != [] {
      assert fs[0] in fs;
      FragmentLogOn(r, fs[0], channel);
      FragmentsLogOn(HandleFragment(r, fs[0]).0, fs[1..], channel);
    }
  }

  lemma {:induction false} SelectAll(log: seq<Handed>, channel: byte)
    requires LogOn(log, channel)
    ensures Select(log, channel) == Erase(log)
  {
    if log != [] {
      SelectAll(log[1..], channel);
      assert log[0] in log;
      assert Erase(log) == [log[0].data] + Erase(log[1..]);
    }
  }

  lemma {:induction false} RunStaysOn(x: System, events: seq<Event>, channel: byte, end: System)
    requires SenderRuns.Inv(x.run) && Everywhere(x.run, IsOn(channel)) && LogOn(x.log, channel)
    requires Leads(x, events, end) && OnlyOrdered(events, channel)
    ensures LogOn(end.log, channel)
    decreases |events|
  {
    hide SenderRuns.Inv, Everywhere, HandleBytes, HandedByFragments, Codec.PutDatagram;
    if events != [] {
      var e := events[0];
      match e {
        case SenderStep(action) =>
          StepKeepsInv(x.run, action);
          ActionKeepsOn(x.run, action, channel);
        case Arrive(d, now, rto) =>
          OnTheWire(x.run, d, IsOn(channel));
          FragmentsLogOn(HandleSeq(x.receiver, now, rto, d.seqNumber).0, d.fragments, channel);
        case ReportArrives(d) =>
          TellingKeepsOn(x.run, d, channel);
        case _ =>
      }
      RunStaysOn(Next(x, e), events[1..], channel, end);
    }
  }

  lemma StartIsOn(mtu: nat, channel: byte)
    requires mtu >= MIN_MTU
    ensures SenderRuns.Inv(Initial(mtu).run) && Everywhere(Initial(mtu).run, IsOn(channel)) && Initial(mtu).log == []
  {
    StartInv(mtu);
  }

  /** If nothing but ordered messages of one channel is sent, what the receiver has handed
      up, together with what it holds ready, is a prefix of the messages given to `send`. */
  lemma OrderedMessagesArriveInOrder(mtu: nat, channel: byte, events: seq<Event>, end: System)
    requires mtu >= MIN_MTU && channel < ORDERING_CHANNEL_SIZE
    requires Leads(Initial(mtu), events, end) && SlipFree(Initial(mtu), events) && OnlyOrdered(events, channel)
    ensures end.handed + end.receiver.output <= Messages(events, channel)
  {
    hide Leads, SlipFree, Everywhere, SenderRuns.Inv, Messages, Select;
    StartIsOn(mtu, channel);
    MessagesArriveInOrder(mtu, channel, events, end);
    RunStaysOn(Initial(mtu), events, channel, end);
    SelectAll(end.log, channel);
  }
}
