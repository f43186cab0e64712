/** What the receiver tells the sender: which sequence numbers it acknowledges and which
    it reports missing, over whole runs (src/reliability/layer.rs:370-393). */
module Feedback {
  import opened Basics
  import opened Windows
  import opened WindowRuns
  import opened Receivers

  /** The receiver after packets with these sequence numbers, as far as none fails. */
  function Answer(r: Receiver, arrivals: seq<Arrival>): (Receiver, Result<()>)
    decreases |arrivals|
  {
    if arrivals == [] then
      (r, Ok(()))
    else
      var (r', done) := HandleSeq(r, arrivals[0].now, arrivals[0].rto, arrivals[0].index);
      if done.Err? then (r', done) else Answer(r', arrivals[1..])
  }

  function Indices(arrivals: seq<Arrival>): seq<nat> {
    if arrivals == [] then [] else [arrivals[0].index] + Indices(arrivals[1..])
  }

  /** No datagram arrives after the window has passed it. */
  predicate OnTime(h: History, arrivals: seq<Arrival>)
    decreases |arrivals|
  {
    arrivals != [] ==>
      h.window.start <= arrivals[0].index && OnTime(Arrive(h, SEQ_WINDOW_SIZE, arrivals[0]), arrivals[1..])
  }

  /** The receiver has seen what the history tells, and acknowledged all of it. */
  ghost predicate Reflects(r: Receiver, h: History) {
    && r.seqWindow == h.window
    && r.naks == h.reported
    && (forall i <- h.received :: i in r.acks)
  }

  lemma HandleSeqReflects(r: Receiver, h: History, a: Arrival)
    requires Reflects(r, h) && a.index < h.window.start + SEQ_WINDOW_SIZE
    requires !h.window.Insert(SEQ_WINDOW_SIZE, a.index, a.now).0.Underflows()
    ensures var (r', done) := HandleSeq(r, a.now, a.rto, a.index);
            && done.Ok?
            && r'.acks == r.acks + [a.index]
            && Reflects(r', Arrive(h, SEQ_WINDOW_SIZE, a))
  {
  }

  lemma {:induction false} AnswerReflects(r: Receiver, h: History, arrivals: seq<Arrival>)
    requires Reflects(r, h) && Survives(h, SEQ_WINDOW_SIZE, arrivals)
    ensures var (r', done) := Answer(r, arrivals);
            && done.Ok?
            && r'.acks == r.acks + Indices(arrivals)
            && Reflects(r', ArriveAll(h, SEQ_WINDOW_SIZE, arrivals))
    decreases |arrivals|
  {
    hide HandleSeq, Arrive;
    if arrivals == [] {
      assert r.acks + [] == r.acks;
    } else {
      var a := arrivals[0];
      var r' := HandleSeq(r, a.now, a.rto, a.index).0;
      HandleSeqReflects(r, h, a);
      AnswerReflects(r', Arrive(h, SEQ_WINDOW_SIZE, a), arrivals[1..]);
      assert r.acks + ([a.index] + Indices(arrivals[1..])) == (r.acks + [a.index]) + Indices(arrivals[1..]);
    }
  }

  /** What the window makes of a number in it. */
  lemma NumberInserted(w: WindowState<nat>, now: nat, seqNumber: nat)
    requires w.WellFormed(128) && !w.Underflows() && w.start !in w.entries && w.start <= seqNumber < w.start + 128
    ensures var (w1, isNew) := w.Insert(SEQ_WINDOW_SIZE, seqNumber, now);
            var (w2, count) := w1.Shift(SEQ_WINDOW_SIZE);
            && isNew.Ok? && count.Ok? && !w2.Underflows() && w2.WellFormed(128) && w2.start == w.start + count.value
            && w1.entries == (if seqNumber in w.entries then w.entries else w.entries[seqNumber := now])
            && (seqNumber == w.start ==> count.value > 0)
            && (seqNumber > w.start ==> count.value == 0 && w2.entries == w1.entries)
            && (forall i :: w.start < i < w2.start ==> i in w.entries) && w2.start !in w1.entries
  {
    var w1 := w.Insert(SEQ_WINDOW_SIZE, seqNumber, now).0;
    InsertTracks(w, 128, seqNumber, now, w.entries.Keys);
    assert w1.WellFormed(128) && !w1.Underflows();
    ShiftExact(w1, 128);
  }

  /** One packet number at or above the first missing one. It is acknowledged unless it is 128
      or more above. The first missing one itself never reports anything; any other reports
      the holes below the highest packet that has waited for longer than the timeout, the
      highest hole first, and gives up on them. */
  lemma NumberIsAnswered(r: Receiver, now: nat, rto: nat, seqNumber: nat)
    requires r.seqWindow.WellFormed(128) && !r.seqWindow.Underflows()
    requires r.seqWindow.start !in r.seqWindow.entries && r.seqWindow.start <= seqNumber
    ensures var (w, (r', done)) := (r.seqWindow, HandleSeq(r, now, rto, seqNumber));
            if seqNumber >= w.start + 128 then
              r' == r && done == Err(BufferOverflow)
            else
              && done.Ok? && r' == r.(seqWindow := r'.seqWindow, naks := r'.naks, acks := r.acks + [seqNumber])
              && |r.naks| <= |r'.naks| && r'.naks[..|r.naks|] == r.naks && w.start <= r'.seqWindow.start
              && (if seqNumber == w.start then
                    r'.naks == r.naks && r'.seqWindow.start !in w.entries && forall i :: w.start < i < r'.seqWindow.start ==> i in w.entries
                  else
                    GivesUp(w, r'.seqWindow.start, r'.naks[|r.naks|..], now, rto, seqNumber))
  {
    hide CollectMissing, RunLength, GivesUp;
    var w := r.seqWindow;
    if seqNumber < w.start + 128 {
      NumberInserted(w, now, seqNumber);
      var w2 := w.Insert(SEQ_WINDOW_SIZE, seqNumber, now).0.Shift(SEQ_WINDOW_SIZE).0;
      if seqNumber > w.start {
        HolesGivenUp(w, w2, now, rto, seqNumber);
        var missing := CollectMissing(w2, SEQ_WINDOW_SIZE, now, rto).1;
        assert (r.naks + missing)[|r.naks|..] == missing;
      }
    }
  }

  /** The holes below `start` are missing, and the packet below it was the last to wait too long. */
  ghost predicate GivesUp(w: WindowState<nat>, start: nat, missing: seq<nat>, now: nat, rto: nat, seqNumber: nat) {
    && Descending(missing)
    && (forall i :: i in missing <==> w.start <= i < start && i != seqNumber && i !in w.entries)
    && (w.start < start ==> start - 1 in w.entries && now - w.entries[start - 1] > rto)
    && (forall i <- w.entries :: start <= i ==> now - w.entries[i] <= rto)
  }

  lemma HolesGivenUp(w: WindowState<nat>, w2: WindowState<nat>, now: nat, rto: nat, seqNumber: nat)
    requires w2.WellFormed(128) && !w2.Underflows() && w2.start == w.start
    requires w2.entries == if seqNumber in w.entries then w.entries else w.entries[seqNumber := now]
    ensures var (w', missing) := CollectMissing(w2, SEQ_WINDOW_SIZE, now, rto);
            w.start <= w'.start && GivesUp(w, w'.start, missing, now, rto, seqNumber)
  {
    hide CollectMissing;
    CollectMissingExact(w2, 128, now, rto);
    var (w', missing) := CollectMissing(w2, SEQ_WINDOW_SIZE, now, rto);
    forall i | i in w.entries && w'.start <= i
      ensures now - w.entries[i] <= rto
    {
      assert i in w'.entries && w'.entries[i] == w.entries[i];
    }
  }

  /** Without late arrivals, what is received is what arrived. */
  lemma {:induction false} OnTimeIsReceived(h: History, arrivals: seq<Arrival>)
    requires OneFate(h, SEQ_WINDOW_SIZE) && Survives(h, SEQ_WINDOW_SIZE, arrivals) && OnTime(h, arrivals)
    ensures NoneTakenAgain(h, SEQ_WINDOW_SIZE, arrivals)
    ensures forall i :: i in ArriveAll(h, SEQ_WINDOW_SIZE, arrivals).received <==> i in h.received || i in Indices(arrivals)
    decreases |arrivals|
  {
    hide OneFate;
    if arrivals != [] {
      var a := arrivals[0];
      ArriveOneFate(h, SEQ_WINDOW_SIZE, a);
      ArriveReceives(h, a);
      OnTimeIsReceived(Arrive(h, SEQ_WINDOW_SIZE, a), arrivals[1..]);
    }
  }

  lemma ArriveReceives(h: History, a: Arrival)
    requires OneFate(h, SEQ_WINDOW_SIZE) && h.window.start <= a.index < h.window.start + SEQ_WINDOW_SIZE
    ensures Arrive(h, SEQ_WINDOW_SIZE, a).received == h.received + {a.index}
  {
    assert a.index in h.received ==> h.received + {a.index} == h.received;
  }

  /** In any run that does not end the connection, every packet is acknowledged, repeats
      included, in the order of arrival. If no packet below the window is taken again,
      every number below it has been acknowledged or reported missing, and none is
      reported twice; and if none comes late, no number is both. */
  lemma EveryPacketIsAnswered(arrivals: seq<Arrival>)
    requires Survives(NO_HISTORY, SEQ_WINDOW_SIZE, arrivals)
    ensures var (r, done) := Answer(NewReceiver(), arrivals);
            && done.Ok?
            && r.acks == Indices(arrivals)
            && (NoneTakenAgain(NO_HISTORY, SEQ_WINDOW_SIZE, arrivals) ==>
                  && Distinct(r.naks)
                  && (forall i <- r.naks :: i < r.seqWindow.start)
                  && (forall i :: 0 <= i < r.seqWindow.start ==> i in r.acks || i in r.naks))
            && (OnTime(NO_HISTORY, arrivals) ==>
                  && NoneTakenAgain(NO_HISTORY, SEQ_WINDOW_SIZE, arrivals)
                  && forall i :: 0 <= i < r.seqWindow.start ==> i !in r.acks || i !in r.naks)
  {
    hide Answer, ArriveAll, Survives, NoneTakenAgain, OnTime;
    AnswerReflects(NewReceiver(), NO_HISTORY, arrivals);
    EveryRunHasOneFateIff(SEQ_WINDOW_SIZE, arrivals);
    if OnTime(NO_HISTORY, arrivals) {
      OnTimeIsReceived(NO_HISTORY, arrivals);
    }
    assert [] + Indices(arrivals) == Indices(arrivals);
  }
}
