/** Reliable fragments take effect once, however often they arrive
    (`handle_fragment` of src/reliability/layer.rs). */
module ExactlyOnce {
  import opened Basics
  import opened Datagrams
  import opened Windows
  import opened WindowRuns
  import opened Rings
  import opened Receivers

  predicate AllReliable(fs: seq<Fragment>) {
    forall i :: 0 <= i < |fs| ==> fs[i].reliableIndex.Some?
  }

  /** The first copy of each fragment that was not accepted before. */
  function Firsts(fs: seq<Fragment>, accepted: set<nat>): seq<Fragment>
    requires AllReliable(fs)
  {
    if fs == [] then
      []
    else
      var index := fs[0].reliableIndex.value;
      if index in accepted then Firsts(fs[1..], accepted) else [fs[0]] + Firsts(fs[1..], accepted + {index})
  }

  ghost function IndicesOf(fs: seq<Fragment>): set<nat> {
    set f | f in fs && f.reliableIndex.Some? :: f.reliableIndex.value
  }

  /** What the fragments do when there is no reliable window in the way. */
  function Process(r: Receiver, fs: seq<Fragment>): (Receiver, Result<()>)
    decreases |fs|
  {
    if fs == [] then
      (r, Ok(()))
    else
      var (r', done) := HandleAdmitted(r, fs[0]);
      if done.Err? then (r', done) else Process(r', fs[1..])
  }

  lemma HandleAdmittedIgnoresWindow(r: Receiver, w: WindowState<()>, f: Fragment)
    ensures var (r', done) := HandleAdmitted(r, f);
            HandleAdmitted(r.(reliable := w), f) == (r'.(reliable := w), done)
  {
  }

  lemma {:induction false} ProcessIgnoresWindow(r: Receiver, w: WindowState<()>, fs: seq<Fragment>)
    ensures var (r', done) := Process(r, fs);
            Process(r.(reliable := w), fs) == (r'.(reliable := w), done)
    decreases |fs|
  {
    hide HandleAdmitted;
    if fs != [] {
      HandleAdmittedIgnoresWindow(r, w, fs[0]);
      ProcessIgnoresWindow(HandleAdmitted(r, fs[0]).0, w, fs[1..]);
    }
  }

  /** What the window does with any fragment. One past its end is refused with an error;
      one in it goes through exactly if its index is new; and one the window has passed
      goes through again exactly if it slips. */
  lemma AdmitsFirsts(r: Receiver, f: Fragment, accepted: set<nat>)
    requires Settled(r.reliable, RELIABLE_WINDOW_SIZE, accepted) && f.reliableIndex.Some?
    ensures var (w, admitted) := Admit(r.reliable, f);
            var index := f.reliableIndex.value;
            if index >= r.reliable.start + 512 then
              admitted == Err(BufferOverflow) && index !in accepted
            else if index >= r.reliable.start then
              admitted == Ok(index !in accepted) && Settled(w, RELIABLE_WINDOW_SIZE, accepted + {index})
            else
              && index in accepted
              && (admitted == Ok(true) <==> Slips(r.reliable, RELIABLE_WINDOW_SIZE, index))
              && (admitted == Ok(false) <==> Alias(r.reliable.start, RELIABLE_WINDOW_SIZE, index) in r.reliable.entries)
              && (admitted == Ok(false) ==> w == r.reliable)
  {
    var index := f.reliableIndex.value;
    if index < r.reliable.start {
      StaleIff(r.reliable, RELIABLE_WINDOW_SIZE, index, (), accepted);
    } else if index < r.reliable.start + RELIABLE_WINDOW_SIZE {
      InsertThenShift(r.reliable, RELIABLE_WINDOW_SIZE, index, (), accepted);
      assert index in accepted ==> accepted + {index} == accepted;
    }
  }

  /** A fragment that does not slip goes through exactly if its index is new. */
  lemma AdmitsNew(r: Receiver, f: Fragment, accepted: set<nat>)
    requires Settled(r.reliable, RELIABLE_WINDOW_SIZE, accepted) && f.reliableIndex.Some?
    requires !Slips(r.reliable, RELIABLE_WINDOW_SIZE, f.reliableIndex.value) && Admit(r.reliable, f).1.Ok?
    ensures var (w, admitted) := Admit(r.reliable, f);
            && admitted == Ok(f.reliableIndex.value !in accepted)
            && Settled(w, RELIABLE_WINDOW_SIZE, accepted + {f.reliableIndex.value})
  {
    AdmitsFirsts(r, f, accepted);
    assert f.reliableIndex.value in accepted ==> accepted + {f.reliableIndex.value} == accepted;
  }

  /** Reliable fragments of any kind (split, ordered, sequenced or plain), repeated as
      the network likes: as long as none is refused with an error, and none slips, they do
      what their first copies do without any window, and the window has accepted exactly
      their indices. */
  lemma {:induction false} RepeatsAreInvisible(r: Receiver, fs: seq<Fragment>, accepted: set<nat>)
    requires Settled(r.reliable, RELIABLE_WINDOW_SIZE, accepted)
    requires AllReliable(fs) && NoneSlips(r, fs) && HandleFragments(r, fs).1.Ok?
    ensures var (r', _) := HandleFragments(r, fs);
            var (p, done) := Process(r, Firsts(fs, accepted));
            && done.Ok?
            && r' == p.(reliable := r'.reliable)
            && Settled(r'.reliable, RELIABLE_WINDOW_SIZE, accepted + IndicesOf(fs))
    decreases |fs|
  {
    hide HandleAdmitted, Settled, Admit, Slips;
    if fs == [] {
      assert accepted + IndicesOf(fs) == accepted;
    } else {
      var f, rest := fs[0], fs[1..];
      var index := f.reliableIndex.value;
      var w := Admit(r.reliable, f).0;
      AdmitsNew(r, f, accepted);
      assert accepted + {index} + IndicesOf(rest) == accepted + IndicesOf(fs) by {
        assert fs == [f] + rest;
      }
      if index in accepted {
        assert accepted + {index} == accepted;
        RepeatsAreInvisible(r.(reliable := w), rest, accepted);
        ProcessIgnoresWindow(r, w, Firsts(rest, accepted));
      } else {
        HandleAdmittedIgnoresWindow(r, w, f);
        var (r1, _) := HandleAdmitted(r, f);
        RepeatsAreInvisible(r1.(reliable := w), rest, accepted + {index});
        ProcessIgnoresWindow(r1, w, Firsts(rest, accepted + {index}));
        var firsts := Firsts(fs, accepted);
        assert firsts[0] == f && firsts[1..] == Firsts(rest, accepted + {index});
      }
    }
  }

  /** The fragments the window lets through. */
  function Passed(r: Receiver, fs: seq<Fragment>): seq<Fragment>
    decreases |fs|
  {
    if fs == [] then
      []
    else
      var (r', done) := HandleFragment(r, fs[0]);
      (if Admit(r.reliable, fs[0]).1 == Ok(true) then [fs[0]] else []) + (if done.Ok? then Passed(r', fs[1..]) else [])
  }

  lemma {:induction false} FirstsAreNew(fs: seq<Fragment>, accepted: set<nat>)
    requires AllReliable(fs)
    ensures forall f <- Firsts(fs, accepted) :: f.reliableIndex.Some? && f.reliableIndex.value !in accepted
    decreases |fs|
  {
    if fs != [] {
      FirstsAreNew(fs[1..], accepted);
      FirstsAreNew(fs[1..], accepted + {fs[0].reliableIndex.value});
    }
  }

  /** Each reliable fragment goes through exactly once if and only if none slips: every
      copy that comes after the window has passed it finds its slot taken. */
  lemma {:induction false} ExactlyOnceIff(r: Receiver, fs: seq<Fragment>, accepted: set<nat>)
    requires Settled(r.reliable, RELIABLE_WINDOW_SIZE, accepted)
    requires AllReliable(fs) && HandleFragments(r, fs).1.Ok?
    ensures Passed(r, fs) == Firsts(fs, accepted) <==> NoneSlips(r, fs)
    decreases |fs|
  {
    hide HandleAdmitted, Settled, Admit, Slips;
    if fs != [] {
      var f, rest := fs[0], fs[1..];
      var index := f.reliableIndex.value;
      var (r', _) := HandleFragment(r, f);
      AdmitsFirsts(r, f, accepted);
      if Slips(r.reliable, RELIABLE_WINDOW_SIZE, index) {
        SlipsArePassed(r, f, accepted);
        FirstsAreNew(rest, accepted);
        assert Passed(r, fs)[0] == f && f !in Firsts(fs, accepted);
      } else {
        AdmitsNew(r, f, accepted);
        ReliableAfter(r, f);
        if index in accepted {
          assert accepted + {index} == accepted;
          ExactlyOnceIff(r', rest, accepted);
          assert Passed(r, fs) == [] + Passed(r', rest) == Passed(r', rest);
        } else {
          ExactlyOnceIff(r', rest, accepted + {index});
          var passed, firsts := Passed(r, fs), Firsts(fs, accepted);
          assert passed[0] == firsts[0] && passed[1..] == Passed(r', rest) && firsts[1..] == Firsts(rest, accepted + {index});
        }
      }
    }
  }

  lemma SlipsArePassed(r: Receiver, f: Fragment, accepted: set<nat>)
    requires Settled(r.reliable, RELIABLE_WINDOW_SIZE, accepted) && f.reliableIndex.Some?
    requires Slips(r.reliable, RELIABLE_WINDOW_SIZE, f.reliableIndex.value)
    ensures Admit(r.reliable, f).1 == Ok(true) && f.reliableIndex.value in accepted
  {
    AdmitsFirsts(r, f, accepted);
  }

  lemma ReliableAfter(r: Receiver, f: Fragment)
    ensures HandleFragment(r, f).0.reliable == Admit(r.reliable, f).0
  {
  }

  // ---- plain reliable messages ----

  predicate Plain(fs: seq<Fragment>) {
    forall i :: 0 <= i < |fs| ==> fs[i].splitInfo.None? && fs[i].orderingInfo.None?
  }

  function Payloads(fs: seq<Fragment>): seq<Bytes> {
    if fs == [] then [] else [fs[0].data] + Payloads(fs[1..])
  }

  lemma {:induction false} ProcessPlain(r: Receiver, fs: seq<Fragment>)
    requires Plain(fs)
    ensures Process(r, fs) == (r.(output := r.output + Payloads(fs)), Ok(()))
    decreases |fs|
  {
    if fs == [] {
      assert r.output + [] == r.output;
    } else {
      var r' := r.(output := r.output + [fs[0].data]);
      ProcessPlain(r', fs[1..]);
      assert r.output + ([fs[0].data] + Payloads(fs[1..])) == r'.output + Payloads(fs[1..]);
    }
  }

  lemma {:induction false} FirstsPlain(fs: seq<Fragment>, accepted: set<nat>)
    requires AllReliable(fs) && Plain(fs)
    ensures Plain(Firsts(fs, accepted))
    decreases |fs|
  {
    if fs != [] {
      FirstsPlain(fs[1..], accepted);
      FirstsPlain(fs[1..], accepted + {fs[0].reliableIndex.value});
    }
  }

  /** Messages sent reliably but unordered are handed up exactly once each, in the order
      in which their first copies arrive. */
  lemma PlainMessagesOnce(fs: seq<Fragment>)
    requires AllReliable(fs) && Plain(fs)
    requires NoneSlips(NewReceiver(), fs) && HandleFragments(NewReceiver(), fs).1.Ok?
    ensures HandleFragments(NewReceiver(), fs).0.output == Payloads(Firsts(fs, {}))
  {
    RepeatsAreInvisible(NewReceiver(), fs, {});
    FirstsPlain(fs, {});
    ProcessPlain(NewReceiver(), Firsts(fs, {}));
  }
}
