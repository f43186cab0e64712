/** The receiving half of the layer as a value: what `handle_packet`, `handle_fragment`
    and `recv` of src/reliability/layer.rs do to it. */
module Receivers {
  import opened Basics
  import opened Datagrams
  import opened Windows
  import WindowRuns
  import opened Splitting
  import opened Ordering
  import Codec

  const SEQ_WINDOW_SIZE: nat := 128
  const RELIABLE_WINDOW_SIZE: nat := 512

  datatype Receiver = Receiver(
    seqWindow: WindowState<nat>,
    acks: seq<nat>,
    naks: seq<nat>,
    reliable: WindowState<()>,
    splits: Table,
    channels: seq<Channel<Bytes>>,
    output: seq<Bytes>)

  function NewReceiver(): Receiver {
    Receiver(WindowState(0, None, map[]), [], [], WindowState(0, None, map[]), map[], seq(ORDERING_CHANNEL_SIZE, _ => Closed()), [])
  }

  /** The reliable window: whether the fragment goes on, and an error ends the connection. */
  function Admit(w: WindowState<()>, f: Fragment): (WindowState<()>, Result<bool>) {
    if f.reliableIndex.None? then
      (w, Ok(true))
    else
      var (w', isNew) := w.Insert(RELIABLE_WINDOW_SIZE, f.reliableIndex.value, ());
      if isNew != Ok(true) then
        (w', isNew)
      else
        var (w'', count) := w'.Shift(RELIABLE_WINDOW_SIZE);
        (w'', if count.Err? then Err(count.error) else Ok(true))
  }

  /** Handing a complete message to its channel, or straight to the output. */
  function Deliver(r: Receiver, f: Fragment): (Receiver, Result<()>) {
    if f.orderingInfo.None? then
      (r.(output := r.output + [f.data]), Ok(()))
    else
      var channel: nat := f.orderingInfo.value.channel;
      if channel >= |r.channels| then
        (r, Err(Panic))
      else
        var (c, out) := Receive(r.channels[channel], f.orderingInfo.value.index, f.sequenceIndex, f.data);
        (r.(channels := r.channels[channel := c], output := r.output + out), Ok(()))
  }

  /** The message a fragment completes, if it does. */
  function Completed(splits: Table, f: Fragment): (Table, Result<Option<Fragment>>) {
    if f.splitInfo.None? then (splits, Ok(Some(f))) else Reassemble(splits, f)
  }

  /** What follows the reliable window: reassembly, then the channel. */
  function HandleAdmitted(r: Receiver, f: Fragment): (Receiver, Result<()>) {
    var (table, whole) := Completed(r.splits, f);
    var r' := r.(splits := table);
    match whole
    case Err(error) => (r', Err(error))
    case Ok(None) => (r', Ok(()))
    case Ok(Some(message)) => Deliver(r', message)
  }

  function HandleFragment(r: Receiver, f: Fragment): (Receiver, Result<()>) {
    var (w, admitted) := Admit(r.reliable, f);
    var r' := r.(reliable := w);
    match admitted
    case Err(error) => (r', Err(error))
    case Ok(false) => (r', Ok(()))
    case Ok(true) => HandleAdmitted(r', f)
  }

  function HandleFragments(r: Receiver, fs: seq<Fragment>): (Receiver, Result<()>)
    decreases |fs|
  {
    if fs == [] then
      (r, Ok(()))
    else
      var (r', done) := HandleFragment(r, fs[0]);
      if done.Err? then (r', done) else HandleFragments(r', fs[1..])
  }

  /** The sequence number of a packet: acknowledged, and holes before it reported. */
  function HandleSeq(r: Receiver, now: nat, rto: nat, seqNumber: nat): (Receiver, Result<()>) {
    var (w, isNew) := r.seqWindow.Insert(SEQ_WINDOW_SIZE, seqNumber, now);
    var r' := r.(seqWindow := w);
    if isNew.Err? then
      (r', Err(isNew.error))
    else
      var (w', count) := w.Shift(SEQ_WINDOW_SIZE);
      var r'' := r'.(seqWindow := w');
      match count
      case Err(error) => (r'', Err(error))
      case Ok(n) =>
        if n == 0 then
          var (w'', missing) := CollectMissing(w', SEQ_WINDOW_SIZE, now, rto);
          (r''.(seqWindow := w'', naks := r''.naks + missing, acks := r''.acks + [seqNumber]), Ok(()))
        else
          (r''.(acks := r''.acks + [seqNumber]), Ok(()))
  }

  function HandlePacket(r: Receiver, now: nat, rto: nat, seqNumber: nat, fs: seq<Fragment>): (Receiver, Result<()>) {
    var (r', done) := HandleSeq(r, now, rto, seqNumber);
    if done.Err? then (r', done) else HandleFragments(r', fs)
  }

  /** A packet can be handled in two parts; the first fragment that fails is the last one
      looked at. */
  lemma {:induction false} HandleInTwo(r: Receiver, a: seq<Fragment>, b: seq<Fragment>)
    ensures var (r', done) := HandleFragments(r, a);
            HandleFragments(r, a + b) == if done.Err? then (r', done) else HandleFragments(r', b)
    decreases |a|
  {
    hide HandleFragment;
    if a == [] {
      assert a + b == b;
    } else {
      assert (a + b)[0] == a[0] && (a + b)[1..] == a[1..] + b;
      HandleInTwo(HandleFragment(r, a[0]).0, a[1..], b);
    }
  }

  /** The receiving side of `handle_datagram`. */
  function HandleBytes(r: Receiver, now: nat, rto: nat, bytes: Bytes): (Receiver, Result<()>) {
    match Codec.GetDatagram(bytes)
    case Err(error) => (r, Err(error))
    case Ok(d) => HandleParsed(r, now, rto, d)
  }

  function HandleParsed(r: Receiver, now: nat, rto: nat, d: Datagram): (Receiver, Result<()>) {
    if d.Packet? then HandlePacket(r, now, rto, d.seqNumber, d.fragments) else (r, Ok(()))
  }

  /** No fragment that the window has passed goes through it again: each finds its slot
      taken, or the window empty. */
  predicate NoneSlips(r: Receiver, fs: seq<Fragment>)
    decreases |fs|
  {
    fs != [] ==>
      && (fs[0].reliableIndex.Some? ==> !WindowRuns.Slips(r.reliable, RELIABLE_WINDOW_SIZE, fs[0].reliableIndex.value))
      && (HandleFragment(r, fs[0]).1.Ok? ==> NoneSlips(HandleFragment(r, fs[0]).0, fs[1..]))
  }
}
