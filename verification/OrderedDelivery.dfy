/** Exactly when a receiver hands up every ordered message that has reached it
    (`handle_fragment` of src/reliability/layer.rs). */
module OrderedDelivery {
  import opened Basics
  import opened Datagrams
  import opened Ordering
  import opened Splitting
  import opened Windows
  import opened WindowRuns
  import opened Rings
  import opened Receivers
  import opened ExactlyOnce

  /** The messages the fragments complete, in the order in which they do. */
  function Completions(splits: Table, fs: seq<Fragment>): seq<Fragment>
    decreases |fs|
  {
    if fs == [] then
      []
    else
      match Completed(splits, fs[0])
      case (_, Err(_)) => []
      case (table, Ok(None)) => Completions(table, fs[1..])
      case (table, Ok(Some(message))) => [message] + Completions(table, fs[1..])
  }

  /** Messages of one channel, each under its ordering index. */
  predicate Carries(fs: seq<Fragment>, channel: byte, messages: seq<Bytes>) {
    forall i :: 0 <= i < |fs| ==> CarriesOne(fs[i], channel, messages)
  }

  predicate CarriesOne(f: Fragment, channel: byte, messages: seq<Bytes>) {
    && f.sequenceIndex.None? && f.orderingInfo.Some?
    && f.orderingInfo.value.channel == channel
    && f.orderingInfo.value.index < |messages| && f.data == messages[f.orderingInfo.value.index]
  }

  function OrderOf(fs: seq<Fragment>): seq<nat> {
    if fs == [] then
      []
    else
      (if fs[0].orderingInfo.Some? then [fs[0].orderingInfo.value.index] else []) + OrderOf(fs[1..])
  }

  /** `ReceiveAll`, from any state of the channel on. */
  function ReceiveFrom(t: Tags, arrivals: seq<nat>): (Tags, seq<nat>)
    decreases |arrivals|
  {
    if arrivals == [] then
      (t, [])
    else
      var (t1, out) := Receive(t, arrivals[0], None, arrivals[0]);
      var (t2, more) := ReceiveFrom(t1, arrivals[1..]);
      (t2, out + more)
  }

  lemma {:induction false} ReceiveFromSnoc(t: Tags, arrivals: seq<nat>, k: nat)
    ensures var (t1, released) := ReceiveFrom(t, arrivals);
            var (t2, out) := Receive(t1, k, None, k);
            ReceiveFrom(t, arrivals + [k]) == (t2, released + out)
    decreases |arrivals|
  {
    hide Receive;
    if arrivals == [] {
      assert [] + [k] == [k] && [k][1..] == [];
      var out := Receive(t, k, None, k).1;
      assert out + [] == out == [] + out;
    } else {
      assert (arrivals + [k])[1..] == arrivals[1..] + [k];
      var (t1, out) := Receive(t, arrivals[0], None, arrivals[0]);
      ReceiveFromSnoc(t1, arrivals[1..], k);
      var (t2, more) := ReceiveFrom(t1, arrivals[1..]);
      var last := Receive(t2, k, None, k).1;
      assert out + (more + last) == (out + more) + last;
    }
  }

  lemma {:induction false} ReceiveFromStart(arrivals: seq<nat>)
    ensures ReceiveFrom(Closed(), arrivals) == ReceiveAll(arrivals)
  {
    hide Receive;
    if arrivals != [] {
      var n := |arrivals| - 1;
      ReceiveFromStart(arrivals[..n]);
      ReceiveFromSnoc(Closed(), arrivals[..n], arrivals[n]);
      assert arrivals == arrivals[..n] + [arrivals[n]];
    }
  }

  lemma NamesNothing(messages: seq<Bytes>)
    ensures Names([], [], messages)
  {
  }

  lemma DeliverOrdered(r: Receiver, f: Fragment, channel: byte, messages: seq<Bytes>)
    requires CarriesOne(f, channel, messages) && channel < |r.channels|
    ensures var (c, out) := Receive(r.channels[channel], f.orderingInfo.value.index, None, f.data);
            Deliver(r, f) == (r.(channels := r.channels[channel := c], output := r.output + out), Ok(()))
  {
  }

  /** Processing the fragments is running their channel on the ordering indices of the
      messages they complete. */
  lemma {:induction false} ProcessOrdered(r: Receiver, t: Tags, fs: seq<Fragment>, channel: byte, messages: seq<Bytes>)
    returns (out: seq<Bytes>)
    requires Process(r, fs).1.Ok? && Carries(Completions(r.splits, fs), channel, messages) && channel < |r.channels|
    requires Mirrors(r.channels[channel], t, messages)
    ensures Process(r, fs).0.output == r.output + out
    ensures Names(out, ReceiveFrom(t, OrderOf(Completions(r.splits, fs))).1, messages)
    decreases |fs|
  {
    hide Receive, Mirrors, Names, Completed, Deliver;
    if fs == [] {
      out := [];
      assert Names(out, [], messages) by {
        NamesNothing(messages);
      }
    } else {
      var (table, whole) := Completed(r.splits, fs[0]);
      var r0 := r.(splits := table);
      var all := Completions(r.splits, fs);
      if whole.value.None? {
        out := ProcessOrdered(r0, t, fs[1..], channel, messages);
      } else {
        var f := whole.value.value;
        assert all[0] == f && all[1..] == Completions(table, fs[1..]);
        assert CarriesOne(f, channel, messages);
        var k := f.orderingInfo.value.index;
        var (c, first) := Receive(r.channels[channel], k, None, f.data);
        ImageOfReceive(r.channels[channel], t, messages, k);
        DeliverOrdered(r0, f, channel, messages);
        var r1 := Deliver(r0, f).0;
        var rest := ProcessOrdered(r1, Receive(t, k, None, k).0, fs[1..], channel, messages);
        out := first + rest;
        var order := OrderOf(all);
        assert order[0] == k && order[1..] == OrderOf(all[1..]);
        var (t1, tags) := Receive(t, k, None, k);
        NamesAppend(first, rest, tags, ReceiveFrom(t1, order[1..]).1, messages);
        assert (r.output + first) + rest == r.output + out;
      }
    }
  }

  /** A receiver that gets the messages of an ordered channel, whole or split, in any order
      and with any repeats, hands up a prefix of them; and all that it completed, if and
      only if no message up to the last is missing and none closed the lowest gap while a
      higher one was open. */
  lemma AllHandedUpIff(fs: seq<Fragment>, channel: byte, messages: seq<Bytes>)
    requires AllReliable(fs) && channel < ORDERING_CHANNEL_SIZE
    requires NoneSlips(NewReceiver(), fs) && HandleFragments(NewReceiver(), fs).1.Ok?
    requires Carries(Completions(map[], Firsts(fs, {})), channel, messages)
    requires Distinct(OrderOf(Completions(map[], Firsts(fs, {}))))
    ensures var order := OrderOf(Completions(map[], Firsts(fs, {})));
            var output := HandleFragments(NewReceiver(), fs).0.output;
            && output <= messages
            && ((forall k <- order :: k < |output|) <==> GapFree(SetOf(order)) && ClosesGaps(order))
  {
    hide GapFree, ClosesGaps, HandleAdmitted, Admit, Receive, Completions;
    var start, firsts := NewReceiver(), Firsts(fs, {});
    var order := OrderOf(Completions(map[], firsts));
    RepeatsAreInvisible(start, fs, {});
    var out := ProcessOrdered(start, Closed(), firsts, channel, messages);
    assert HandleFragments(start, fs).0.output == [] + out == out;
    ReceiveFromStart(order);
    ReleasesInOrder(order);
    NamesRange(out, 0, ReceiveAll(order).0.nextOrdering, messages);
    ReleasesEverythingIff(order);
  }

  // ---- a repeat that slips ----

  function Single(reliableIndex: nat, orderingIndex: nat, data: Bytes): Fragment {
    Fragment(ReliableOrdered, Some(reliableIndex), None, Some(OrderingInfo(orderingIndex, 0)), None, data)
  }

  lemma HandleSingle(r: Receiver, index: nat, k: nat, data: Bytes, w: WindowState<()>, c: Channel<Bytes>, out: seq<Bytes>)
    requires r.channels != []
    requires Admit(r.reliable, Single(index, k, data)) == (w, Ok(true))
    requires Receive(r.channels[0], k, None, data) == (c, out)
    ensures HandleFragment(r, Single(index, k, data)) ==
            (r.(reliable := w, channels := r.channels[0 := c], output := r.output + out), Ok(()))
  {
  }

  lemma AdmitNext(n: nat, f: Fragment)
    requires f.reliableIndex == Some(n)
    ensures Admit(WindowState(n, None, map[]), f) == (WindowState(n + 1, None, map[]), Ok(true))
  {
    var w := WindowState(n, Some(n), map[n := ()]);
    RunLengthUnique(w.entries.Keys, n, 1, 1);
    assert w.Advance(1) == map[];
  }

  lemma AdmitThree(f: Fragment)
    requires f.reliableIndex == Some(3)
    ensures Admit(WindowState(2, None, map[]), f) == (WindowState(2, Some(3), map[3 := ()]), Ok(true))
  {
    var w := WindowState(2, Some(3), map[3 := ()]);
    RunLengthUnique(w.entries.Keys, 2, 2, 0);
    assert w.Advance(0) == w.entries;
  }

  lemma AdmitZeroAgain(f: Fragment)
    requires f.reliableIndex == Some(0)
    ensures var w := WindowState(2, Some(3), map[3 := ()]);
            && Slips(w, RELIABLE_WINDOW_SIZE, 0)
            && Admit(w, f) == (WindowState(2, Some(3), map[3 := (), 512 := ()]), Ok(true))
  {
    var before := WindowState(2, Some(3), map[3 := ()]);
    var w := WindowState(2, Some(3), map[3 := (), 512 := ()]);
    assert Alias(2, RELIABLE_WINDOW_SIZE, 0) == 512;
    assert 3 in before.entries.Keys;
    assert before.Insert(RELIABLE_WINDOW_SIZE, 0, ()).0.entries == w.entries;
    RunLengthUnique(w.entries.Keys, 2, 2, 0);
    assert w.Advance(0) == w.entries;
  }

  lemma AdmitTwo(f: Fragment)
    requires f.reliableIndex == Some(2)
    ensures Admit(WindowState(2, Some(3), map[3 := (), 512 := ()]), f) == (WindowState(4, None, map[512 := ()]), Ok(true))
  {
    var w := WindowState(2, Some(3), map[3 := (), 512 := (), 2 := ()]);
    RunLengthUnique(w.entries.Keys, 2, 2, 2);
    assert w.Advance(2) == map[512 := ()];
  }

  function Waiting(first: Option<Bytes>, c: Bytes, d: Bytes): seq<Option<Bytes>> {
    [first, Some(c), None, None, None, None, None, Some(d)]
  }

  /** What the channel does with ordering indices 2, 0, 9, 2 and 1. */
  lemma ChannelSteps(a: Bytes, b: Bytes, c: Bytes, d: Bytes)
    ensures Receive(Closed(), 2, None, c) == (Channel(0, 0, [None, Some(c)]), [])
    ensures Receive(Channel(0, 0, [None, Some(c)]), 0, None, a) == (Channel(1, 0, [None, Some(c)]), [a])
    ensures Receive(Channel(1, 0, [None, Some(c)]), 9, None, d) == (Channel(1, 0, Waiting(None, c, d)), [])
    ensures Receive(Channel(1, 0, Waiting(None, c, d)), 2, None, c) == (Channel(1, 0, Waiting(Some(c), c, d)), [])
    ensures Receive(Channel(1, 0, Waiting(Some(c), c, d)), 1, None, b) == (Channel(4, 0, Waiting(None, c, d)[2..] ), [b, c, c])
  {
    assert Store([], 1, c) == [None, Some(c)];
    assert Store([None, Some(c)], 7, d) == Waiting(None, c, d);
    assert Store(Waiting(None, c, d), 0, c) == Waiting(Some(c), c, d);
    assert [a] + [] == [a];
    var rest := Waiting(None, c, d)[2..];
    assert Waiting(Some(c), c, d)[1..][1..] == rest && Waiting(Some(c), c, d)[1..][0] == Some(c);
    assert Drain(Channel(4, 0, rest)) == (Channel(4, 0, rest), []);
    assert Drain(Channel(3, 0, Waiting(Some(c), c, d)[1..])) == (Channel(4, 0, rest), [c] + []);
    assert Drain(Channel(2, 0, Waiting(Some(c), c, d))) == (Channel(4, 0, rest), [c] + ([c] + []));
    assert [b] + ([c] + ([c] + [])) == [b, c, c];
  }

  /** No error, no panic, and yet a message comes out twice: reliable indices 0, 1, 3, 0
      again, and 2 carry ordering indices 2, 0, 9, 2 and 1. */
  lemma RepeatSlipsWitness(a: Bytes, b: Bytes, c: Bytes, d: Bytes)
    ensures var fs := [Single(0, 2, c), Single(1, 0, a), Single(3, 9, d), Single(0, 2, c), Single(2, 1, b)];
            && !NoneSlips(NewReceiver(), fs)
            && HandleFragments(NewReceiver(), fs).1 == Ok(())
            && HandleFragments(NewReceiver(), fs).0.output == [a, b, c, c]
  {
    hide HandleFragment, Admit, Receive, Slips;
    var f0, f1, f3, f2 := Single(0, 2, c), Single(1, 0, a), Single(3, 9, d), Single(2, 1, b);
    ChannelSteps(a, b, c, d);
    var r0 := NewReceiver();
    AdmitNext(0, f0);
    HandleSingle(r0, 0, 2, c, WindowState(1, None, map[]), Channel(0, 0, [None, Some(c)]), []);
    var r1 := HandleFragment(r0, f0).0;
    AdmitNext(1, f1);
    HandleSingle(r1, 1, 0, a, WindowState(2, None, map[]), Channel(1, 0, [None, Some(c)]), [a]);
    var r2 := HandleFragment(r1, f1).0;
    AdmitThree(f3);
    HandleSingle(r2, 3, 9, d, WindowState(2, Some(3), map[3 := ()]), Channel(1, 0, Waiting(None, c, d)), []);
    var r3 := HandleFragment(r2, f3).0;
    AdmitZeroAgain(f0);
    HandleSingle(r3, 0, 2, c, WindowState(2, Some(3), map[3 := (), 512 := ()]), Channel(1, 0, Waiting(Some(c), c, d)), []);
    var r4 := HandleFragment(r3, f0).0;
    AdmitTwo(f2);
    HandleSingle(r4, 2, 1, b, WindowState(4, None, map[512 := ()]), Channel(4, 0, Waiting(None, c, d)[2..]), [b, c, c]);
    var r5 := HandleFragment(r4, f2).0;
    assert r5.output == [a, b, c, c];
    FiveFragments(r0, [f0, f1, f3, f0, f2], r1, r2, r3, r4, r5);
  }

  lemma FiveFragments(r0: Receiver, fs: seq<Fragment>, r1: Receiver, r2: Receiver, r3: Receiver, r4: Receiver, r5: Receiver)
    requires |fs| == 5
    requires HandleFragment(r0, fs[0]) == (r1, Ok(())) && HandleFragment(r1, fs[1]) == (r2, Ok(()))
    requires HandleFragment(r2, fs[2]) == (r3, Ok(())) && HandleFragment(r3, fs[3]) == (r4, Ok(()))
    requires HandleFragment(r4, fs[4]) == (r5, Ok(()))
    ensures HandleFragments(r0, fs) == (r5, Ok(()))
    ensures NoneSlips(r0, fs) ==> fs[3].reliableIndex.Some? ==> !Slips(r3.reliable, RELIABLE_WINDOW_SIZE, fs[3].reliableIndex.value)
  {
    hide HandleFragment, Slips;
    assert fs[1..][0] == fs[1] && fs[2..][0] == fs[2] && fs[3..][0] == fs[3] && fs[4..][0] == fs[4];
    assert fs[1..][1..] == fs[2..] && fs[2..][1..] == fs[3..] && fs[3..][1..] == fs[4..] && fs[4..][1..] == [];
    assert HandleFragments(r4, fs[4..]) == (r5, Ok(()));
    assert HandleFragments(r3, fs[3..]) == (r5, Ok(()));
    assert HandleFragments(r2, fs[2..]) == (r5, Ok(()));
    assert HandleFragments(r1, fs[1..]) == (r5, Ok(()));
    assert NoneSlips(r0, fs) ==> NoneSlips(r1, fs[1..]);
    assert NoneSlips(r1, fs[1..]) ==> NoneSlips(r2, fs[2..]);
    assert NoneSlips(r2, fs[2..]) ==> NoneSlips(r3, fs[3..]);
  }
}
