/** Whole runs of a receive window: which indices it has taken, and what became of
    the others (src/reliability/window.rs, driven by src/reliability/layer.rs). */
module WindowRuns {
  import opened Basics
  import opened Rings
  import opened Windows

  /** `accepted` is every index for which `insert` has answered "new". */
  ghost predicate Tracks<T>(w: WindowState<T>, size: nat, accepted: set<nat>) {
    && w.WellFormed(size)
    && w.entries.Keys <= accepted
    && (forall i <- accepted :: w.start <= i ==> i in w.entries)
  }

  function Accept<T>(w: WindowState<T>, size: nat, index: nat, value: T, accepted: set<nat>): set<nat>
    requires size > 0
  {
    if w.Insert(size, index, value).1 == Ok(true) then accepted + {index} else accepted
  }

  lemma InsertTracks<T>(w: WindowState<T>, size: nat, index: nat, value: T, accepted: set<nat>)
    requires Tracks(w, size, accepted) && w.start <= index
    ensures Tracks(w.Insert(size, index, value).0, size, Accept(w, size, index, value, accepted))
  {
  }

  /** For an index the window has room for, the answer "new" is right exactly when
      the index is not below the start, or its alias inside the window is taken. */
  lemma InsertRightIff<T>(w: WindowState<T>, size: nat, index: nat, value: T, accepted: set<nat>)
    requires Tracks(w, size, accepted)
    requires index < w.start + size
    requires forall i :: 0 <= i < w.start ==> i in accepted
    ensures (w.Insert(size, index, value).1 == Ok(true) <==> index !in accepted) <==>
            (w.start <= index || Alias(w.start, size, index) in w.entries)
  {
  }

  /** Reliable index 0 is taken and passed; the same index is then taken as new, and
      the next shift subtracts past zero. */
  lemma StaleDuplicateWitness(size: nat)
    requires size > 1
    ensures var start: WindowState<()> := WindowState(0, None, map[]);
            var (w1, first) := start.Insert(size, 0, ());
            var (w2, one) := w1.Shift(size);
            var (w3, again) := w2.Insert(size, 0, ());
            && first == again == Ok(true)
            && one == Ok(1)
            && w3.Shift(size).1 == Err(Panic)
  {
    var start: WindowState<()> := WindowState(0, None, map[]);
    var (w1, _) := start.Insert(size, 0, ());
    RunLengthUnique(w1.entries.Keys, 0, 1, 1);
  }

  /** `shift` removes exactly the filled run at the start: it stops at an index that
      is not stored, and everything above stays. */
  lemma ShiftExact<T>(w: WindowState<T>, size: nat)
    requires w.WellFormed(size) && !w.Underflows()
    ensures var (w', r) := w.Shift(size);
            && r.Ok? && w'.start == w.start + r.value
            && (forall i :: w.start <= i < w'.start ==> i in w.entries)
            && w'.start !in w.entries
            && w'.entries == (map i | i in w.entries && w'.start <= i :: w.entries[i])
            && w'.WellFormed(size)
            && !w'.Underflows()
  {
    var count := RunLength(w.entries.Keys, w.start, w.ScanRange(size));
    assert w.entries.Keys != {} ==> w.furthest.value + 1 !in w.entries;
    var w' := w.Shift(size).0;
    assert w.entries.Keys != {} && w'.start <= w.furthest.value ==> w.furthest.value in w'.entries.Keys;
    if w'.entries.Keys != {} {
      var i :| i in w'.entries.Keys;
      assert w.furthest.value in w'.entries;
    }
  }

  // ---- windows without hole collection (reliable indices) ----

  /** The state between fragments: the start is the least index never accepted. */
  ghost predicate Settled<T>(w: WindowState<T>, size: nat, accepted: set<nat>) {
    && Tracks(w, size, accepted)
    && !w.Underflows()
    && (forall i :: 0 <= i < w.start ==> i in accepted)
    && w.start !in accepted
  }

  /** An insert at or above the start, and the shift that follows a "new". */
  lemma InsertThenShift<T>(w: WindowState<T>, size: nat, index: nat, value: T, accepted: set<nat>)
    requires Settled(w, size, accepted) && w.start <= index < w.start + size
    ensures var (w1, isNew) := w.Insert(size, index, value);
            && isNew == Ok(index !in accepted)
            && (index in accepted ==> w1 == w)
            && (index !in accepted ==> w1.Shift(size).1.Ok? && Settled(w1.Shift(size).0, size, accepted + {index}))
  {
    InsertTracks(w, size, index, value, accepted);
    var w1 := w.Insert(size, index, value).0;
    if index !in accepted {
      ShiftExact(w1, size);
    }
  }

  /** An index the window has passed, whose slot is free while another index waits. */
  predicate Slips<T>(w: WindowState<T>, size: nat, index: nat)
    requires size > 0
  {
    index < w.start && Alias(w.start, size, index) !in w.entries && w.entries.Keys != {}
  }

  /** What becomes of an index the window has passed. It is refused if its slot is taken.
      If its slot is free it is taken for new, and then the shift fails exactly if nothing
      else is stored. So a repeat goes through unnoticed exactly if it slips. */
  lemma StaleIff<T>(w: WindowState<T>, size: nat, index: nat, value: T, accepted: set<nat>)
    requires Settled(w, size, accepted) && index < w.start
    ensures var (w1, isNew) := w.Insert(size, index, value);
            && isNew == Ok(Alias(w.start, size, index) !in w.entries)
            && (isNew == Ok(false) ==> w1 == w)
            && (isNew == Ok(true) ==> (w1.Shift(size).1.Err? <==> w.entries.Keys == {}))
            && (isNew == Ok(true) && w1.Shift(size).1.Ok? <==> Slips(w, size, index))
  {
    if w.entries.Keys != {} {
      assert w.furthest.value in w.entries;
    }
  }

  // ---- windows with hole collection (datagram sequence numbers) ----

  datatype Arrival = Arrival(index: nat, now: nat, rto: nat)

  datatype History = History(window: WindowState<nat>, received: set<nat>, reported: seq<nat>)

  const NO_HISTORY := History(WindowState(0, None, map[]), {}, [])

  /** What the receiver does with the sequence number of an arriving datagram. */
  function Arrive(h: History, size: nat, a: Arrival): History
    requires size > 0
  {
    var (w, _) := h.window.Insert(size, a.index, a.now);
    var received := Accept(h.window, size, a.index, a.now, h.received);
    var (w', count) := w.Shift(size);
    if count == Ok(0) then
      var (w'', missing) := CollectMissing(w', size, a.now, a.rto);
      History(w'', received, h.reported + missing)
    else
      History(w', received, h.reported)
  }

  function ArriveAll(h: History, size: nat, arrivals: seq<Arrival>): History
    requires size > 0
    decreases |arrivals|
  {
    if arrivals == [] then h else ArriveAll(Arrive(h, size, arrivals[0]), size, arrivals[1..])
  }

  /** No datagram ends the connection: none arrives past the window, and no shift fails. */
  predicate Survives(h: History, size: nat, arrivals: seq<Arrival>)
    requires size > 0
    decreases |arrivals|
  {
    arrivals != [] ==>
      && arrivals[0].index < h.window.start + size
      && !h.window.Insert(size, arrivals[0].index, arrivals[0].now).0.Underflows()
      && Survives(Arrive(h, size, arrivals[0]), size, arrivals[1..])
  }

  /** Every datagram below the window finds its slot taken. */
  predicate NoneTakenAgain(h: History, size: nat, arrivals: seq<Arrival>)
    requires size > 0
    decreases |arrivals|
  {
    arrivals != [] ==>
      && (h.window.start <= arrivals[0].index || Alias(h.window.start, size, arrivals[0].index) in h.window.entries)
      && NoneTakenAgain(Arrive(h, size, arrivals[0]), size, arrivals[1..])
  }

  /** Every index below the window was received or reported missing, never both and
      never reported twice; an index inside it is stored exactly if it was received. */
  ghost predicate OneFate(h: History, size: nat) {
    && Tracks(h.window, size, h.received)
    && (forall i :: 0 <= i < h.window.start ==> (i in h.received <==> i !in h.reported))
    && (forall i <- h.reported :: i < h.window.start)
    && Distinct(h.reported)
  }

  /** What `collect_missing` gives up on, reports and keeps. */
  lemma CollectMissingExact(w: WindowState<nat>, size: nat, now: nat, rto: nat)
    requires w.WellFormed(size) && !w.Underflows()
    ensures var (w', missing) := CollectMissing(w, size, now, rto);
            && w.start <= w'.start
            && (w.start < w'.start ==> w'.start - 1 in w.entries && now - w.entries[w'.start - 1] > rto)
            && (forall i :: i in missing <==> w.start <= i < w'.start && i !in w.entries)
            && Descending(missing)
            && w'.entries == (map i | i in w.entries && w'.start <= i :: w.entries[i])
            && (forall i <- w'.entries :: now - w'.entries[i] <= rto)
  {
    var range := w.ScanRange(size);
    var cut := HighestExpired(w.entries, w.start, range, now, rto);
    HighestExpiredIs(w.entries, w.start, range, now, rto, cut);
    var (w', missing) := CollectMissing(w, size, now, rto);
    if cut.Some? {
      HolesExact(w.entries.Keys, w.start, cut.value);
      assert NoneExpired(w.entries, cut.value + 1, w.start + range, now, rto);
    } else {
      assert w'.entries == (map i | i in w.entries && w'.start <= i :: w.entries[i]);
    }
  }

  lemma CollectMissingWellFormed(w: WindowState<nat>, size: nat, now: nat, rto: nat)
    requires w.WellFormed(size) && !w.Underflows()
    ensures CollectMissing(w, size, now, rto).0.WellFormed(size)
  {
    CollectMissingExact(w, size, now, rto);
    var w' := CollectMissing(w, size, now, rto).0;
    if w'.entries.Keys != {} {
      var i :| i in w'.entries.Keys;
      assert i in w.entries && i <= w.furthest.value;
      assert w.furthest.value in w'.entries;
    } else {
      assert w.start < w'.start ==> w'.start - 1 in w.entries && w'.start - 1 <= w.furthest.value;
      assert w.start < w'.start ==> w.furthest.value !in w'.entries;
    }
  }

  lemma ShiftOneFate(h: History, size: nat)
    requires OneFate(h, size) && !h.window.Underflows()
    ensures OneFate(h.(window := h.window.Shift(size).0), size)
  {
    ShiftExact(h.window, size);
  }

  lemma CollectOneFate(h: History, size: nat, now: nat, rto: nat)
    requires OneFate(h, size) && !h.window.Underflows()
    ensures var (w, missing) := CollectMissing(h.window, size, now, rto);
            OneFate(History(w, h.received, h.reported + missing), size)
  {
    CollectMissingExact(h.window, size, now, rto);
    CollectMissingWellFormed(h.window, size, now, rto);
    var (w, missing) := CollectMissing(h.window, size, now, rto);
    forall i | 0 <= i < |missing|
      ensures missing[i] !in h.reported
    {
      assert missing[i] in missing;
    }
    forall i, j | 0 <= i < |h.reported| && 0 <= j < |missing|
      ensures h.reported[i] != missing[j]
    {
      assert h.reported[i] in h.reported;
    }
  }

  lemma ArriveOneFate(h: History, size: nat, a: Arrival)
    requires OneFate(h, size) && a.index < h.window.start + size
    requires h.window.start <= a.index || Alias(h.window.start, size, a.index) in h.window.entries
    ensures OneFate(Arrive(h, size, a), size)
  {
    var (w, _) := h.window.Insert(size, a.index, a.now);
    var h1 := History(w, Accept(h.window, size, a.index, a.now, h.received), h.reported);
    if h.window.start <= a.index {
      InsertTracks(h.window, size, a.index, a.now, h.received);
    } else {
      assert h1 == h;
    }
    assert OneFate(h1, size);
    ShiftOneFate(h1, size);
    ShiftExact(w, size);
    if w.Shift(size).1 == Ok(0) {
      CollectOneFate(h1.(window := w.Shift(size).0), size, a.now, a.rto);
    }
  }

  // ---- a datagram taken again spoils the account for good ----

  /** Index `j` is stored or passed, although it was neither received nor reported. */
  ghost predicate Spoiled(h: History, j: nat) {
    && (forall i <- h.window.entries :: h.window.start <= i)
    && (forall i <- h.received :: h.window.start <= i ==> i in h.window.entries)
    && (forall i <- h.reported :: i < h.window.start)
    && j !in h.received && j !in h.reported
    && (j in h.window.entries || j < h.window.start)
  }

  lemma SpoiledHasNoFate(h: History, size: nat, j: nat)
    requires Spoiled(h, j)
    ensures !OneFate(h, size)
  {
  }

  lemma SlipSpoils(h: History, size: nat, a: Arrival) returns (j: nat)
    requires size > 0 && a.index < h.window.start
    requires forall i <- h.window.entries :: h.window.start <= i
    requires forall i <- h.received :: h.window.start <= i ==> i in h.window.entries
    requires forall i <- h.reported :: i < h.window.start
    requires Alias(h.window.start, size, a.index) !in h.window.entries
    requires !h.window.Insert(size, a.index, a.now).0.Underflows()
    ensures Spoiled(Arrive(h, size, a), j)
  {
    j := Alias(h.window.start, size, a.index);
    var h1 := History(h.window.Insert(size, a.index, a.now).0, Accept(h.window, size, a.index, a.now, h.received), h.reported);
    assert Spoiled(h1, j);
    CleanUpKeepsSpoiled(h1, size, a, j);
  }

  /** The shift and the collection after an insert. */
  lemma CleanUpKeepsSpoiled(h: History, size: nat, a: Arrival, j: nat)
    requires Spoiled(h, j) && !h.window.Underflows()
    ensures var (w', count) := h.window.Shift(size);
            && count.Ok?
            && Spoiled(h.(window := w'), j)
            && (count == Ok(0) ==>
                  && !w'.Underflows()
                  && var (w'', missing) := CollectMissing(w', size, a.now, a.rto);
                     Spoiled(History(w'', h.received, h.reported + missing), j))
  {
    var (w', count) := h.window.Shift(size);
    if count == Ok(0) {
      assert w'.entries == h.window.entries;
      var cut := HighestExpired(w'.entries, w'.start, w'.ScanRange(size), a.now, a.rto);
      if cut.Some? {
        HolesExact(w'.entries.Keys, w'.start, cut.value);
      } else {
        assert h.reported + [] == h.reported;
      }
    }
  }

  lemma ArriveKeepsSpoiled(h: History, size: nat, a: Arrival, j: nat) returns (j': nat)
    requires Spoiled(h, j) && size > 0 && a.index < h.window.start + size
    requires !h.window.Insert(size, a.index, a.now).0.Underflows()
    ensures Spoiled(Arrive(h, size, a), j')
  {
    if a.index < h.window.start && Alias(h.window.start, size, a.index) !in h.window.entries {
      j' := SlipSpoils(h, size, a);
    } else {
      j' := j;
      var h1 := History(h.window.Insert(size, a.index, a.now).0, Accept(h.window, size, a.index, a.now, h.received), h.reported);
      assert Spoiled(h1, j);
      CleanUpKeepsSpoiled(h1, size, a, j);
    }
  }

  lemma {:induction false} RunKeepsSpoiled(h: History, size: nat, arrivals: seq<Arrival>, j: nat) returns (j': nat)
    requires size > 0 && Spoiled(h, j) && Survives(h, size, arrivals)
    ensures Spoiled(ArriveAll(h, size, arrivals), j')
    decreases |arrivals|
  {
    if arrivals == [] {
      j' := j;
    } else {
      hide Arrive, Spoiled;
      var j1 := ArriveKeepsSpoiled(h, size, arrivals[0], j);
      j' := RunKeepsSpoiled(Arrive(h, size, arrivals[0]), size, arrivals[1..], j1);
    }
  }

  // ---- every run ----

  lemma {:induction false} RunsHaveOneFateIff(h: History, size: nat, arrivals: seq<Arrival>)
    requires size > 0
    requires OneFate(h, size) && Survives(h, size, arrivals)
    ensures OneFate(ArriveAll(h, size, arrivals), size) <==> NoneTakenAgain(h, size, arrivals)
    decreases |arrivals|
  {
    hide Arrive, Spoiled;
    if arrivals != [] {
      var a := arrivals[0];
      var h' := Arrive(h, size, a);
      if h.window.start <= a.index || Alias(h.window.start, size, a.index) in h.window.entries {
        ArriveOneFate(h, size, a);
        RunsHaveOneFateIff(h', size, arrivals[1..]);
      } else {
        var j := SlipSpoils(h, size, a);
        var j' := RunKeepsSpoiled(h', size, arrivals[1..], j);
        SpoiledHasNoFate(ArriveAll(h, size, arrivals), size, j');
      }
    }
  }

  /** Over any run that does not end the connection: every index has one fate, exactly if
      each datagram that came below the window found its slot taken. */
  lemma EveryRunHasOneFateIff(size: nat, arrivals: seq<Arrival>)
    requires size > 0 && Survives(NO_HISTORY, size, arrivals)
    ensures OneFate(ArriveAll(NO_HISTORY, size, arrivals), size) <==> NoneTakenAgain(NO_HISTORY, size, arrivals)
  {
    RunsHaveOneFateIff(NO_HISTORY, size, arrivals);
  }
}
