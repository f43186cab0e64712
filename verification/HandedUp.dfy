/** What a receiver hands up, told by channel. The output itself is one queue; here each
    message in it is tagged with the ordering channel it came through, if any
    (src/reliability/layer.rs:416-463). */
module HandedUp {
  import opened Basics
  import opened Datagrams
  import opened Ordering
  import opened Receivers

  datatype Handed = Handed(channel: Option<byte>, data: Bytes)

  function Tagged(channel: Option<byte>, datas: seq<Bytes>): (log: seq<Handed>)
    ensures |log| == |datas| && forall i :: 0 <= i < |log| ==> log[i] == Handed(channel, datas[i])
  {
    seq(|datas|, i requires 0 <= i < |datas| => Handed(channel, datas[i]))
  }

  /** The messages without their tags. */
  function Erase(log: seq<Handed>): (datas: seq<Bytes>)
    ensures |datas| == |log| && forall i :: 0 <= i < |log| ==> datas[i] == log[i].data
  {
    seq(|log|, i requires 0 <= i < |log| => log[i].data)
  }

  /** The messages of one channel. */
  function Select(log: seq<Handed>, channel: byte): seq<Bytes> {
    if log == [] then
      []
    else
      (if log[0].channel == Some(channel) then [log[0].data] else []) + Select(log[1..], channel)
  }

  lemma EraseAppend(a: seq<Handed>, b: seq<Handed>)
    ensures Erase(a + b) == Erase(a) + Erase(b)
  {
  }

  lemma EraseTagged(channel: Option<byte>, datas: seq<Bytes>)
    ensures Erase(Tagged(channel, datas)) == datas
  {
  }

  lemma {:induction false} SelectAppend(a: seq<Handed>, b: seq<Handed>, channel: byte)
    ensures Select(a + b, channel) == Select(a, channel) + Select(b, channel)
  {
    if a == [] {
      assert a + b == b;
    } else {
      assert (a + b)[0] == a[0] && (a + b)[1..] == a[1..] + b;
      SelectAppend(a[1..], b, channel);
    }
  }

  lemma {:induction false} SelectTagged(tag: Option<byte>, datas: seq<Bytes>, channel: byte)
    ensures Select(Tagged(tag, datas), channel) == if tag == Some(channel) then datas else []
  {
    if datas != [] {
      SelectTagged(tag, datas[1..], channel);
      assert Tagged(tag, datas)[1..] == Tagged(tag, datas[1..]);
      assert datas == [datas[0]] + datas[1..];
    }
  }

  /** What a complete message brings out of its channel. */
  function HandedByMessage(r: Receiver, m: Fragment): seq<Handed> {
    if m.orderingInfo.None? then
      [Handed(None, m.data)]
    else
      var channel := m.orderingInfo.value.channel;
      if channel as nat >= |r.channels| then
        []
      else
        Tagged(Some(channel), Receive(r.channels[channel], m.orderingInfo.value.index, m.sequenceIndex, m.data).1)
  }

  function HandedByAdmitted(r: Receiver, f: Fragment): seq<Handed> {
    match Completed(r.splits, f).1
    case Ok(Some(message)) => HandedByMessage(r, message)
    case _ => []
  }

  function HandedByFragment(r: Receiver, f: Fragment): seq<Handed> {
    if Admit(r.reliable, f).1 == Ok(true) then HandedByAdmitted(r, f) else []
  }

  function HandedByFragments(r: Receiver, fs: seq<Fragment>): seq<Handed>
    decreases |fs|
  {
    if fs == [] then
      []
    else
      var (r', done) := HandleFragment(r, fs[0]);
      HandedByFragment(r, fs[0]) + if done.Ok? then HandedByFragments(r', fs[1..]) else []
  }

  function HandedByPacket(r: Receiver, now: nat, rto: nat, seqNumber: nat, fs: seq<Fragment>): seq<Handed> {
    var (r', done) := HandleSeq(r, now, rto, seqNumber);
    if done.Ok? then HandedByFragments(r', fs) else []
  }

  // ---- complete messages ----

  /** The message a fragment completes, if the window lets it through and it completes one. */
  function WholeByFragment(r: Receiver, f: Fragment): seq<Fragment> {
    if Admit(r.reliable, f).1 == Ok(true) then
      match Completed(r.splits, f).1
      case Ok(Some(message)) => [message]
      case _ => []
    else
      []
  }

  function WholeByFragments(r: Receiver, fs: seq<Fragment>): seq<Fragment>
    decreases |fs|
  {
    if fs == [] then
      []
    else
      var (r', done) := HandleFragment(r, fs[0]);
      WholeByFragment(r, fs[0]) + if done.Ok? then WholeByFragments(r', fs[1..]) else []
  }

  function WholeByPacket(r: Receiver, now: nat, rto: nat, seqNumber: nat, fs: seq<Fragment>): seq<Fragment> {
    var (r', done) := HandleSeq(r, now, rto, seqNumber);
    if done.Ok? then WholeByFragments(r', fs) else []
  }

  lemma MessageHands(r: Receiver, m: Fragment)
    ensures Deliver(r, m).0.output == r.output + Erase(HandedByMessage(r, m))
    ensures Deliver(r, m).1.Err? ==> HandedByMessage(r, m) == []
  {
    if m.orderingInfo.None? {
      assert Erase([Handed(None, m.data)]) == [m.data];
    } else {
      var channel: nat := m.orderingInfo.value.channel;
      if channel >= |r.channels| {
        assert r.output + Erase([]) == r.output;
      } else {
        EraseTagged(Some(m.orderingInfo.value.channel),
                    Receive(r.channels[channel], m.orderingInfo.value.index, m.sequenceIndex, m.data).1);
      }
    }
  }

  /** The tags say of the whole output where it came from, and leave nothing out; a
      fragment that fails brings out nothing. */
  lemma FragmentHands(r: Receiver, f: Fragment)
    ensures HandleFragment(r, f).0.output == r.output + Erase(HandedByFragment(r, f))
    ensures HandleFragment(r, f).1.Err? ==> HandedByFragment(r, f) == []
  {
    assert r.output + Erase([]) == r.output;
    var (w, admitted) := Admit(r.reliable, f);
    if admitted == Ok(true) {
      var r1 := r.(reliable := w);
      var (table, whole) := Completed(r.splits, f);
      if whole.Ok? && whole.value.Some? {
        MessageHands(r1.(splits := table), whole.value.value);
        assert HandedByMessage(r1.(splits := table), whole.value.value) == HandedByMessage(r, whole.value.value);
      }
    }
  }

  lemma {:induction false} FragmentsHand(r: Receiver, fs: seq<Fragment>)
    ensures HandleFragments(r, fs).0.output == r.output + Erase(HandedByFragments(r, fs))
    decreases |fs|
  {
    hide HandleFragment, HandedByFragment;
    if fs == [] {
      assert r.output + Erase([]) == r.output;
    } else {
      var (r', done) := HandleFragment(r, fs[0]);
      var first := HandedByFragment(r, fs[0]);
      FragmentHands(r, fs[0]);
      if done.Ok? {
        FragmentsHand(r', fs[1..]);
        EraseAppend(first, HandedByFragments(r', fs[1..]));
        assert r.output + (Erase(first) + Erase(HandedByFragments(r', fs[1..]))) == r'.output + Erase(HandedByFragments(r', fs[1..]));
      } else {
        assert first + [] == first;
      }
    }
  }

  lemma PacketHands(r: Receiver, now: nat, rto: nat, seqNumber: nat, fs: seq<Fragment>)
    ensures HandlePacket(r, now, rto, seqNumber, fs).0.output ==
            r.output + Erase(HandedByPacket(r, now, rto, seqNumber, fs))
  {
    var (r', done) := HandleSeq(r, now, rto, seqNumber);
    if done.Ok? {
      FragmentsHand(r', fs);
    } else {
      assert r.output + Erase([]) == r.output;
    }
  }
}
