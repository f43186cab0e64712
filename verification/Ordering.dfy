/** One ordering channel of the receiver (the second half of `handle_fragment` in
    src/reliability/layer.rs).

    A channel is modelled over any payload type. The theorems run it on payloads
    that are their own ordering index; `ImageOfReceive` carries them over to bytes. */
module Ordering {
  import opened Basics

  /** `buffered[p]` was meant for ordering index `nextOrdering + 1 + p`. */
  datatype Channel<T> = Channel(nextOrdering: nat, nextSequence: nat, buffered: seq<Option<T>>)

  function Closed<T>(): Channel<T> {
    Channel(0, 0, [])
  }

  /** `resize_with` and store. */
  function Store<T>(buffered: seq<Option<T>>, p: nat, data: T): (r: seq<Option<T>>)
    ensures |r| == Max(|buffered|, p + 1)
    ensures forall i :: 0 <= i < |r| ==>
                          r[i] == if i == p then Some(data) else if i < |buffered| then buffered[i] else None
  {
    if p < |buffered| then
      buffered[p := Some(data)]
    else
      buffered + seq(p - |buffered|, _ => None) + [Some(data)]
  }

  /** Releases from the front as long as it is filled. The slot at which this stops is
      left in place, although it stands for the index now awaited. */
  function Drain<T>(c: Channel<T>): (Channel<T>, seq<T>)
    decreases |c.buffered|
  {
    if c.buffered != [] && c.buffered[0].Some? then
      var (c', out) := Drain(Channel(c.nextOrdering + 1, c.nextSequence, c.buffered[1..]));
      (c', [c.buffered[0].value] + out)
    else
      (c, [])
  }

  function Receive<T>(c: Channel<T>, index: nat, sequence: Option<nat>, data: T): (Channel<T>, seq<T>) {
    if index < c.nextOrdering then
      (c, [])
    else if index > c.nextOrdering then
      (c.(buffered := Store(c.buffered, index - c.nextOrdering - 1, data)), [])
    else
      match sequence
      case Some(s) => if s >= c.nextSequence then (c.(nextSequence := s + 1), [data]) else (c, [])
      case None =>
        var (c', out) := Drain(Channel(c.nextOrdering + 1, 0, c.buffered));
        (c', [data] + out)
  }

  // ---- payloads as indices ----

  type Tags = Channel<nat>

  /** `c` holds the messages named by the tags of `t`. */
  ghost predicate Mirrors<T>(c: Channel<T>, t: Tags, messages: seq<T>) {
    && c.nextOrdering == t.nextOrdering && c.nextSequence == t.nextSequence
    && |c.buffered| == |t.buffered|
    && forall i :: 0 <= i < |c.buffered| ==>
                     match t.buffered[i]
                     case None => c.buffered[i] == None
                     case Some(k) => k < |messages| && c.buffered[i] == Some(messages[k])
  }

  ghost predicate Names<T>(out: seq<T>, tags: seq<nat>, messages: seq<T>) {
    && |out| == |tags|
    && forall i :: 0 <= i < |out| ==> tags[i] < |messages| && out[i] == messages[tags[i]]
  }

  lemma NamesRange<T>(out: seq<T>, from: nat, to: nat, messages: seq<T>)
    requires from <= to && from <= |messages| && Names(out, Range(from, to), messages)
    ensures to <= |messages| && out == messages[from..to]
  {
    if from < to {
      assert Range(from, to)[to - from - 1] == to - 1;
    }
  }

  lemma NamesAppend<T>(a: seq<T>, b: seq<T>, tagsA: seq<nat>, tagsB: seq<nat>, messages: seq<T>)
    requires Names(a, tagsA, messages) && Names(b, tagsB, messages)
    ensures Names(a + b, tagsA + tagsB, messages)
  {
  }

  lemma {:induction false} MirrorsDrain<T>(c: Channel<T>, t: Tags, messages: seq<T>)
    requires Mirrors(c, t, messages)
    ensures Mirrors(Drain(c).0, Drain(t).0, messages) && Names(Drain(c).1, Drain(t).1, messages)
    decreases |c.buffered|
  {
    if c.buffered != [] && c.buffered[0].Some? {
      var c1 := Channel(c.nextOrdering + 1, c.nextSequence, c.buffered[1..]);
      var t1 := Channel(t.nextOrdering + 1, t.nextSequence, t.buffered[1..]);
      MirrorsDrain(c1, t1, messages);
    }
  }

  /** Running a channel on messages is running it on their indices and looking them up. */
  lemma ImageOfReceive<T>(c: Channel<T>, t: Tags, messages: seq<T>, k: nat)
    requires Mirrors(c, t, messages) && k < |messages|
    ensures var (c', out) := Receive(c, k, None, messages[k]);
            var (t', tags) := Receive(t, k, None, k);
            Mirrors(c', t', messages) && Names(out, tags, messages)
  {
    if k == c.nextOrdering {
      MirrorsDrain(Channel(c.nextOrdering + 1, 0, c.buffered), Channel(t.nextOrdering + 1, 0, t.buffered), messages);
    }
  }

  // ---- safety: what is released is always 0, 1, 2, ... ----

  /** Every buffered index lies within `slack` of its slot, none is there twice, and
      all of them have arrived. */
  ghost predicate Drifted(t: Tags, arrived: set<nat>, slack: nat) {
    && (forall p :: 0 <= p < |t.buffered| && t.buffered[p].Some? ==>
                      && t.nextOrdering <= t.buffered[p].value <= t.nextOrdering + slack + p
                      && t.buffered[p].value in arrived)
    && (forall p, q :: 0 <= p < q < |t.buffered| && t.buffered[p].Some? ==> t.buffered[p] != t.buffered[q])
  }

  lemma {:induction false} DrainInOrder(t: Tags, arrived: set<nat>)
    requires Drifted(t, arrived, 0)
    ensures var (t', out) := Drain(t);
            && Drifted(t', arrived, 0)
            && t.nextOrdering <= t'.nextOrdering
            && out == Range(t.nextOrdering, t'.nextOrdering)
    decreases |t.buffered|
  {
    if t.buffered != [] && t.buffered[0].Some? {
      var t1 := Channel(t.nextOrdering + 1, t.nextSequence, t.buffered[1..]);
      forall p | 0 <= p < |t1.buffered| && t1.buffered[p].Some?
        ensures t1.nextOrdering <= t1.buffered[p].value <= t1.nextOrdering + p && t1.buffered[p].value in arrived
      {
        assert t1.buffered[p] == t.buffered[p + 1];
        assert t.buffered[0] != t.buffered[p + 1];
      }
      DrainInOrder(t1, arrived);
    }
  }

  /** One arrival of an index that has not arrived before. */
  lemma ReceiveInOrder(t: Tags, arrived: set<nat>, k: nat)
    requires Drifted(t, arrived, 1) && k !in arrived
    ensures var (t', out) := Receive(t, k, None, k);
            && Drifted(t', arrived + {k}, 1)
            && t.nextOrdering <= t'.nextOrdering
            && out == Range(t.nextOrdering, t'.nextOrdering)
  {
    if k == t.nextOrdering {
      var t1 := Channel(t.nextOrdering + 1, 0, t.buffered);
      assert Drifted(t1, arrived, 0);
      DrainInOrder(t1, arrived);
    }
  }

  /** The channel after ordering indices have arrived, and all it has released. */
  function ReceiveAll(arrivals: seq<nat>): (Tags, seq<nat>) {
    if arrivals == [] then
      (Closed(), [])
    else
      var n := |arrivals| - 1;
      var (t, released) := ReceiveAll(arrivals[..n]);
      var (t', out) := Receive(t, arrivals[n], None, arrivals[n]);
      (t', released + out)
  }

  ghost function SetOf(s: seq<nat>): set<nat> {
    set x | x in s
  }

  lemma SetOfSnoc(s: seq<nat>)
    requires s != []
    ensures SetOf(s) == SetOf(s[..|s| - 1]) + {s[|s| - 1]}
    ensures Distinct(s) ==> Distinct(s[..|s| - 1]) && s[|s| - 1] !in SetOf(s[..|s| - 1])
  {
    assert s == s[..|s| - 1] + [s[|s| - 1]];
  }

  /** Whatever order distinct indices arrive in, the releases are exactly 0, 1, 2, ...
      up to the index the channel waits for. */
  lemma {:induction false} ReleasesInOrder(arrivals: seq<nat>)
    requires Distinct(arrivals)
    ensures var (t, released) := ReceiveAll(arrivals);
            released == Range(0, t.nextOrdering) && Drifted(t, SetOf(arrivals), 1)
  {
    if arrivals != [] {
      var n := |arrivals| - 1;
      SetOfSnoc(arrivals);
      ReleasesInOrder(arrivals[..n]);
      ReceiveInOrder(ReceiveAll(arrivals[..n]).0, SetOf(arrivals[..n]), arrivals[n]);
    }
  }

  // ---- completeness: exactly when everything is released ----

  /** The buffer without drift: a slot is filled exactly if its index has arrived. */
  ghost predicate Aligned(t: Tags, arrived: set<nat>) {
    && (forall k :: 0 <= k < t.nextOrdering ==> k in arrived)
    && t.nextOrdering !in arrived
    && (forall k <- arrived :: k <= t.nextOrdering + |t.buffered|)
    && (forall p :: 0 <= p < |t.buffered| ==>
                      t.buffered[p] == if t.nextOrdering + 1 + p in arrived then Some(t.nextOrdering + 1 + p) else None)
    && (t.buffered != [] ==> t.buffered[|t.buffered| - 1].Some?)
  }

  /** Index `j` has arrived, and no copy of it left in the buffer can come to the
      front while the channel waits for it. With `d` = 1 this is about to be so: it
      takes the next arrival of the awaited index. */
  ghost predicate Stuck(t: Tags, arrived: set<nat>, j: nat, d: nat) {
    && j in arrived
    && t.nextOrdering + d <= j
    && forall p :: 0 <= p < |t.buffered| && t.buffered[p] == Some(j) ==> j < t.nextOrdering + d + p
  }

  lemma {:induction false} DrainKeepsStuck(t: Tags, arrived: set<nat>, j: nat)
    requires Drifted(t, arrived, 0) && Stuck(t, arrived, j, 0)
    ensures Stuck(Drain(t).0, arrived, j, 0)
    decreases |t.buffered|
  {
    if t.buffered != [] && t.buffered[0].Some? {
      var t1 := Channel(t.nextOrdering + 1, t.nextSequence, t.buffered[1..]);
      forall p | 0 <= p < |t1.buffered|
        ensures t1.buffered[p].Some? ==>
                  && t1.nextOrdering <= t1.buffered[p].value <= t1.nextOrdering + p && t1.buffered[p].value in arrived
        ensures t1.buffered[p] == Some(j) ==> j < t1.nextOrdering + p
      {
        assert t1.buffered[p] == t.buffered[p + 1];
        assert t.buffered[0] != t.buffered[p + 1];
      }
      assert Drifted(t1, arrived, 0);
      DrainKeepsStuck(t1, arrived, j);
    }
  }

  lemma ReceiveKeepsStuck(t: Tags, arrived: set<nat>, k: nat, j: nat, d: nat)
    requires Drifted(t, arrived, 1) && k !in arrived && Stuck(t, arrived, j, d) && d <= 1
    ensures Stuck(Receive(t, k, None, k).0, arrived + {k}, j, if k == t.nextOrdering then 0 else d)
  {
    if k == t.nextOrdering {
      var t1 := Channel(t.nextOrdering + 1, 0, t.buffered);
      assert Drifted(t1, arrived, 0);
      DrainKeepsStuck(t1, arrived, j);
    }
  }

  /** The buffer right after the awaited index has come: slot p is for index next + p. */
  ghost predicate Flush(t: Tags, arrived: set<nat>) {
    && (forall k :: 0 <= k < t.nextOrdering ==> k in arrived)
    && (forall k <- arrived :: k < t.nextOrdering + |t.buffered|)
    && (forall p :: 0 <= p < |t.buffered| ==>
                      t.buffered[p] == if t.nextOrdering + p in arrived then Some(t.nextOrdering + p) else None)
    && (t.buffered != [] ==> t.buffered[|t.buffered| - 1].Some?)
  }

  /** The drain empties a buffer exactly if it leaves no gap; otherwise the last
      index in the buffer is out of reach from now on. */
  lemma {:induction false} DrainFlush(t: Tags, arrived: set<nat>)
    requires Flush(t, arrived)
    ensures var t' := Drain(t).0;
            && (GapFree(arrived) ==> Aligned(t', arrived) && t'.buffered == [])
            && (!GapFree(arrived) ==> t'.buffered != [] && Stuck(t', arrived, t'.nextOrdering + |t'.buffered| - 1, 1))
    decreases |t.buffered|
  {
    if t.buffered == [] {
    } else if t.buffered[0].Some? {
      DrainFlush(Channel(t.nextOrdering + 1, t.nextSequence, t.buffered[1..]), arrived);
    } else {
      var last := |t.buffered| - 1;
      assert t.nextOrdering !in arrived && t.nextOrdering + last in arrived;
    }
  }

  ghost predicate GapFree(arrived: set<nat>) {
    forall x, y :: x in arrived && 0 <= y < x ==> y in arrived
  }

  /** Arrival `m` is the least index that was missing before it. */
  ghost predicate FillsGap(arrivals: seq<nat>, m: nat)
    requires m < |arrivals|
  {
    && arrivals[m] !in SetOf(arrivals[..m])
    && forall y :: 0 <= y < arrivals[m] ==> y in SetOf(arrivals[..m])
  }

  /** No arrival closes the lowest gap while a higher one is open. */
  ghost predicate ClosesGaps(arrivals: seq<nat>) {
    forall m :: 0 <= m < |arrivals| && FillsGap(arrivals, m) ==> GapFree(SetOf(arrivals[..m + 1]))
  }

  lemma ClosesGapsPrefix(arrivals: seq<nat>, n: nat)
    requires n < |arrivals|
    ensures ClosesGaps(arrivals[..n + 1]) <==>
            ClosesGaps(arrivals[..n]) && (FillsGap(arrivals, n) ==> GapFree(SetOf(arrivals[..n + 1])))
  {
    var longer, shorter := arrivals[..n + 1], arrivals[..n];
    assert longer[..n] == shorter && longer[..n + 1] == longer;
    assert FillsGap(longer, n) == FillsGap(arrivals, n);
    forall m | 0 <= m < n
      ensures FillsGap(longer, m) == FillsGap(shorter, m) && longer[..m + 1] == shorter[..m + 1]
    {
      assert longer[..m] == shorter[..m];
    }
  }

  lemma ReceiveAligned(t: Tags, arrived: set<nat>, k: nat)
    requires Aligned(t, arrived) && k !in arrived
    ensures k > t.nextOrdering ==> Aligned(Receive(t, k, None, k).0, arrived + {k})
    ensures k == t.nextOrdering ==>
              Flush(Channel(k + 1, 0, t.buffered), arrived + {k})
    ensures k >= t.nextOrdering
  {
  }

  lemma {:induction false} AlignedWhileGapsClose(arrivals: seq<nat>)
    requires Distinct(arrivals) && ClosesGaps(arrivals)
    ensures Aligned(ReceiveAll(arrivals).0, SetOf(arrivals))
  {
    if arrivals != [] {
      var n := |arrivals| - 1;
      assert arrivals[..n + 1] == arrivals;
      SetOfSnoc(arrivals);
      ClosesGapsPrefix(arrivals, n);
      AlignedWhileGapsClose(arrivals[..n]);
      var t, k := ReceiveAll(arrivals[..n]).0, arrivals[n];
      ReceiveAligned(t, SetOf(arrivals[..n]), k);
      if k == t.nextOrdering {
        assert FillsGap(arrivals, n);
        DrainFlush(Channel(k + 1, 0, t.buffered), SetOf(arrivals));
      }
    }
  }

  lemma NothingCloses()
    ensures ClosesGaps([])
  {
  }

  /** The arrival that closed the lowest gap while a higher one was open. */
  lemma JustStuck(arrivals: seq<nat>) returns (j: nat)
    requires arrivals != [] && Distinct(arrivals)
    requires ClosesGaps(arrivals[..|arrivals| - 1]) && !ClosesGaps(arrivals)
    ensures Stuck(ReceiveAll(arrivals).0, SetOf(arrivals), j, 1)
  {
    hide ClosesGaps, GapFree, Flush, Drain, Stuck;
    var n := |arrivals| - 1;
    assert arrivals[..n + 1] == arrivals;
    SetOfSnoc(arrivals);
    ClosesGapsPrefix(arrivals, n);
    var t, k := ReceiveAll(arrivals[..n]).0, arrivals[n];
    AlignedWhileGapsClose(arrivals[..n]);
    ReceiveAligned(t, SetOf(arrivals[..n]), k);
    assert k == t.nextOrdering;
    var t1 := Channel(k + 1, 0, t.buffered);
    DrainFlush(t1, SetOf(arrivals));
    j := Drain(t1).0.nextOrdering + |Drain(t1).0.buffered| - 1;
  }

  lemma {:induction false} StuckOnceAGapIsLeft(arrivals: seq<nat>) returns (j: nat, d: nat)
    requires Distinct(arrivals) && !ClosesGaps(arrivals)
    ensures d <= 1 && Stuck(ReceiveAll(arrivals).0, SetOf(arrivals), j, d)
  {
    hide ClosesGaps, Drifted, Stuck, Receive;
    NothingCloses();
    var n := |arrivals| - 1;
    SetOfSnoc(arrivals);
    if ClosesGaps(arrivals[..n]) {
      d := 1;
      j := JustStuck(arrivals);
    } else {
      var t, k := ReceiveAll(arrivals[..n]).0, arrivals[n];
      j, d := StuckOnceAGapIsLeft(arrivals[..n]);
      ReleasesInOrder(arrivals[..n]);
      ReceiveKeepsStuck(t, SetOf(arrivals[..n]), k, j, d);
      d := if k == t.nextOrdering then 0 else d;
    }
  }

  /** Everything that arrived has been released exactly if all indices up to the
      highest arrived, and no arrival closed the lowest gap while a higher one was open. */
  lemma ReleasesEverythingIff(arrivals: seq<nat>)
    requires Distinct(arrivals)
    ensures (forall k <- arrivals :: k < ReceiveAll(arrivals).0.nextOrdering) <==>
            GapFree(SetOf(arrivals)) && ClosesGaps(arrivals)
  {
    var t := ReceiveAll(arrivals).0;
    if ClosesGaps(arrivals) {
      AlignedWhileGapsClose(arrivals);
      var arrived := SetOf(arrivals);
      if GapFree(arrived) {
        forall k | k in arrivals
          ensures k < t.nextOrdering
        {
          assert k in arrived;
          assert t.nextOrdering < k ==> t.nextOrdering in arrived;
        }
      } else {
        var x, y :| x in arrived && 0 <= y < x && y !in arrived;
        assert x in arrivals && t.nextOrdering <= x;
      }
    } else {
      var j, d := StuckOnceAGapIsLeft(arrivals);
      assert j in arrivals && j >= t.nextOrdering;
    }
  }

  /** Arrivals 2, 0, 1: message 2 is never released. */
  lemma TwoZeroOneWitness()
    ensures ReceiveAll([2, 0, 1]) == (TwoWaits(2), [0, 1]) && TwoWaits(2) == Channel(2, 0, [None, Some(2)])
  {
    hide Receive, ReceiveAll;
    var none: seq<nat> := [];
    TwoZeroOneSteps();
    assert ReceiveAll(none) == (Closed(), none) by {
      ReceiveNothing();
    }
    ReceiveAllSnoc(none, 2);
    assert none + [2] == [2] && none + none == none;
    ReceiveAllSnoc([2], 0);
    assert [2] + [0] == [2, 0] && none + [0] == [0];
    ReceiveAllSnoc([2, 0], 1);
    assert [2, 0] + [1] == [2, 0, 1] && [0] + [1] == [0, 1];
  }

  lemma ReceiveNothing()
    ensures ReceiveAll([]) == (Closed(), [])
  {
  }

  function TwoWaits(next: nat): Tags {
    Channel(next, 0, [None, Some(2)])
  }

  lemma TwoZeroOneSteps()
    ensures Receive<nat>(Closed(), 2, None, 2) == (TwoWaits(0), [])
    ensures Receive(TwoWaits(0), 0, None, 0) == (TwoWaits(1), [0])
    ensures Receive(TwoWaits(1), 1, None, 1) == (TwoWaits(2), [1])
  {
    assert Store<nat>([], 1, 2) == [None, Some(2)];
    assert [0] + [] == [0] && [1] + [] == [1];
  }

  lemma ReceiveAllSnoc(arrivals: seq<nat>, k: nat)
    ensures var (t, released) := ReceiveAll(arrivals);
            var (t', out) := Receive(t, k, None, k);
            ReceiveAll(arrivals + [k]) == (t', released + out)
  {
    assert (arrivals + [k])[..|arrivals|] == arrivals;
  }

  // ---- channels that carry only sequenced messages ----

  /** Sequence numbers released by a channel whose ordering index never moves. */
  function ReceiveSequenced(c: Channel<nat>, index: nat, sequences: seq<nat>): (Channel<nat>, seq<nat>) {
    if sequences == [] then
      (c, [])
    else
      var n := |sequences| - 1;
      var (c1, released) := ReceiveSequenced(c, index, sequences[..n]);
      var (c2, out) := Receive(c1, index, Some(sequences[n]), sequences[n]);
      (c2, released + out)
  }

  /** Old messages are dropped: what is released only gets newer, up to the newest received. */
  lemma {:induction false} SequencedOnlyGetsNewer(sequences: seq<nat>)
    ensures var (c, released) := ReceiveSequenced(Closed(), 0, sequences);
            && c.nextOrdering == 0 && c.buffered == []
            && (forall i, j :: 0 <= i < j < |released| ==> released[i] < released[j])
            && (forall s <- released :: s < c.nextSequence && s in sequences)
            && (forall s <- sequences :: s < c.nextSequence)
            && (sequences != [] ==> c.nextSequence > 0 && c.nextSequence - 1 in released)
  {
    if sequences != [] {
      var n := |sequences| - 1;
      assert sequences == sequences[..n] + [sequences[n]];
      SequencedOnlyGetsNewer(sequences[..n]);
      var (c, released) := ReceiveSequenced(Closed(), 0, sequences[..n]);
      assert forall i :: 0 <= i < |released| ==> released[i] in released;
    }
  }
}
