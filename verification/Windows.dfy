/** The receive window of src/reliability/window.rs: a ring of optional values
    that stands for the indices [start, start + size).

    `WindowState` is the window seen as a map on unbounded indices and carries the
    meaning of each operation; the class `Window` is the ring itself, proved to
    compute exactly those functions. */
module Windows {
  import opened Basics
  import opened Rings

  datatype WindowState<T> = WindowState(start: nat, furthest: Option<nat>, entries: map<nat, T>) {

    /** Indices past the end of the window are an error. An index below `start` is
        not refused: it takes the slot of its alias inside the window. */
    function Insert(size: nat, index: nat, value: T): (WindowState<T>, Result<bool>)
      requires size > 0
    {
      if start + size <= index then
        (this, Err(BufferOverflow))
      else
        var slot := Alias(start, size, index);
        if slot in entries then
          (this, Ok(false))
        else
          var far := if furthest.Some? then Max(furthest.value, index) else index;
          (WindowState(start, Some(far), entries[slot := value]), Ok(true))
    }

    /** The unsigned subtraction `furthest - start` goes below zero. */
    predicate Underflows() {
      furthest.Some? && furthest.value < start
    }

    /** How many slots the scans of `shift` and `collect_missing` visit. */
    function ScanRange(size: nat): nat
      requires !Underflows()
    {
      if furthest.Some? then furthest.value - start + 1 else size
    }

    /** Drops everything below `start + count`. */
    function Advance(count: nat): map<nat, T> {
      map i | i in entries && start + count <= i :: entries[i]
    }

    function Shift(size: nat): (WindowState<T>, Result<nat>) {
      if Underflows() then
        (this, Err(Panic))
      else
        var count := RunLength(entries.Keys, start, ScanRange(size));
        var far := if count > 0 && furthest == Some(start + count - 1) then None else furthest;
        (WindowState(start + count, far, Advance(count)), Ok(count))
    }

    /** What every sequence of inserts at or above `start` keeps. */
    ghost predicate WellFormed(size: nat) {
      && size > 0
      && (forall i <- entries :: start <= i < start + size)
      && (entries.Keys == {} ==> furthest.None? || furthest.value + 1 == start)
      && (entries.Keys != {} ==>
            furthest.Some? && furthest.value in entries && forall i <- entries :: i <= furthest.value)
    }
  }

  /** The length of the filled run that begins at `from`, cut off at `limit`. */
  function RunLength(filled: set<nat>, from: nat, limit: nat): (n: nat)
    ensures n <= limit
    ensures forall i :: from <= i < from + n ==> i in filled
    ensures n < limit ==> from + n !in filled
    decreases limit
  {
    if limit == 0 || from !in filled then 0 else 1 + RunLength(filled, from + 1, limit - 1)
  }

  lemma RunLengthUnique(filled: set<nat>, from: nat, limit: nat, n: nat)
    requires n <= limit
    requires forall i :: from <= i < from + n ==> i in filled
    requires n < limit ==> from + n !in filled
    ensures RunLength(filled, from, limit) == n
  {
    var r := RunLength(filled, from, limit);
    assert r < n ==> from + r in filled;
    assert n < r ==> from + n in filled;
  }

  predicate Expired(now: nat, rto: nat, received: nat) {
    now - received > rto
  }

  /** The highest expired index of [low, low + count), if there is one. */
  function HighestExpired(entries: map<nat, nat>, low: nat, count: nat, now: nat, rto: nat): (cut: Option<nat>)
    ensures cut.Some? ==> low <= cut.value < low + count
    decreases count
  {
    if count == 0 then
      None
    else
      var top := low + count - 1;
      if top in entries && Expired(now, rto, entries[top]) then
        Some(top)
      else
        HighestExpired(entries, low, count - 1, now, rto)
  }

  predicate NoneExpired(entries: map<nat, nat>, low: nat, high: nat, now: nat, rto: nat) {
    forall i <- entries :: low <= i < high ==> !Expired(now, rto, entries[i])
  }

  lemma {:induction false} HighestExpiredIs(entries: map<nat, nat>, low: nat, count: nat, now: nat, rto: nat, cut: Option<nat>)
    ensures HighestExpired(entries, low, count, now, rto) == cut <==>
            match cut
            case None => NoneExpired(entries, low, low + count, now, rto)
            case Some(c) =>
              && low <= c < low + count && c in entries && Expired(now, rto, entries[c])
              && NoneExpired(entries, c + 1, low + count, now, rto)
    decreases count
  {
    if count > 0 {
      HighestExpiredIs(entries, low, count - 1, now, rto, cut);
    }
  }

  /** The holes of [low, high), highest first. */
  function Holes(filled: set<nat>, low: nat, high: nat): seq<nat>
    requires low <= high
    decreases high
  {
    if low == high then
      []
    else if high - 1 in filled then
      Holes(filled, low, high - 1)
    else
      [high - 1] + Holes(filled, low, high - 1)
  }

  predicate Descending(s: seq<nat>) {
    forall i, j :: 0 <= i < j < |s| ==> s[j] < s[i]
  }

  lemma {:induction false} HolesExact(filled: set<nat>, low: nat, high: nat)
    requires low <= high
    ensures forall i :: i in Holes(filled, low, high) <==> low <= i < high && i !in filled
    ensures Descending(Holes(filled, low, high))
    decreases high
  {
    if low < high {
      HolesExact(filled, low, high - 1);
      var rest := Holes(filled, low, high - 1);
      forall j | 0 <= j < |rest|
        ensures rest[j] < high - 1
      {
        assert rest[j] in rest;
      }
      assert Descending([high - 1] + rest);
    }
  }

  /** The meaning of `collect_missing`: give up on everything up to the highest
      entry that has waited longer than `rto`, and report the holes below it. */
  function CollectMissing(w: WindowState<nat>, size: nat, now: nat, rto: nat): (WindowState<nat>, seq<nat>)
    requires !w.Underflows()
  {
    match HighestExpired(w.entries, w.start, w.ScanRange(size), now, rto)
    case None => (w, [])
    case Some(cut) =>
      (WindowState(cut + 1, w.furthest, w.Advance(cut + 1 - w.start)), Holes(w.entries.Keys, w.start, cut))
  }

  /** The ring. `entries` is what it means: the slots read as a map on indices. */
  class Window<T> {
    const size: nat
    const buf: array<Option<T>>
    var startIndex: nat
    var furthestIndex: Option<nat>
    ghost var entries: map<nat, T>

    ghost predicate Valid()
      reads this, buf
    {
      && size > 0
      && buf.Length == size
      && (furthestIndex.Some? ==> furthestIndex.value < startIndex + size)
      && (forall i <- entries :: startIndex <= i < startIndex + size)
      && (forall i {:trigger i % size} :: startIndex <= i < startIndex + size ==> buf[i % size] == Lookup(entries, i))
    }

    ghost function View(): WindowState<T>
      reads this
    {
      WindowState(startIndex, furthestIndex, entries)
    }

    constructor (size: nat)
      requires size > 0
      ensures Valid() && fresh(buf) && this.size == size
      ensures View() == WindowState(0, None, map[])
    {
      this.size := size;
      buf := new Option<T>[size](_ => None);
      startIndex := 0;
      furthestIndex := None;
      entries := map[];
    }

    method Insert(index: nat, value: T) returns (r: Result<bool>)
      requires Valid()
      modifies this, buf
      ensures Valid()
      ensures (View(), r) == old(View()).Insert(size, index, value)
    {
      if startIndex + size <= index {
        return Err(BufferOverflow);
      }
      var relative := index % size;
      ghost var slot := Alias(startIndex, size, index);
      AliasSlot(startIndex, size, index);
      if buf[relative].Some? {
        return Ok(false);
      }
      SlotsDiffer(startIndex, size);
      buf[relative] := Some(value);
      entries := entries[slot := value];
      if furthestIndex.Some? {
        if index > furthestIndex.value {
          furthestIndex := Some(index);
        }
      } else {
        furthestIndex := Some(index);
      }
      return Ok(true);
    }

    method Shift() returns (r: Result<nat>)
      requires Valid()
      modifies this, buf
      ensures Valid()
      ensures (View(), r) == old(View()).Shift(size)
    {
      if furthestIndex.Some? && furthestIndex.value < startIndex {
        return Err(Panic);
      }
      var range := if furthestIndex.Some? then furthestIndex.value - startIndex + 1 else size;
      var count := ClearRun(range);
      RunLengthUnique(old(entries).Keys, startIndex, range, count);
      if furthestIndex.Some? && count > 0 && startIndex + count - 1 == furthestIndex.value {
        furthestIndex := None;
      }
      MoveStart(count);
      return Ok(count);
    }

    /** Clears the filled slots at the start, up to `range` of them. */
    method ClearRun(range: nat) returns (count: nat)
      requires Valid() && range <= size
      modifies buf, `entries
      ensures Valid() && count <= range && entries == old(View()).Advance(count)
      ensures forall i :: startIndex <= i < startIndex + count ==> i in old(entries)
      ensures count < range ==> startIndex + count !in old(entries)
    {
      count := 0;
      while count < range
        invariant 0 <= count <= range
        invariant Valid()
        invariant forall i :: startIndex <= i < startIndex + count ==> i in old(entries)
        invariant entries == old(View()).Advance(count)
      {
        var slot := Get(startIndex + count);
        if slot.None? {
          return;
        }
        Clear(startIndex + count);
        count := count + 1;
      }
    }

    /** Reads the slot of an index of the window. */
    method Get(index: nat) returns (slot: Option<T>)
      requires Valid() && startIndex <= index < startIndex + size
      ensures slot == Lookup(entries, index)
    {
      slot := buf[index % size];
    }

    method Clear(index: nat)
      requires Valid() && startIndex <= index < startIndex + size
      modifies buf, `entries
      ensures Valid() && entries == old(entries) - {index}
    {
      SlotsDiffer(startIndex, size);
      buf[index % size] := None;
      entries := entries - {index};
    }

    /** Moves the start past `count` empty slots. */
    method MoveStart(count: nat)
      requires Valid() && count <= size
      requires forall i <- entries :: startIndex + count <= i
      modifies `startIndex
      ensures Valid() && startIndex == old(startIndex) + count
    {
      forall i {:trigger i % size} | startIndex + size <= i < startIndex + count + size
        ensures buf[i % size].None?
      {
        ModShift(i - size, size, 1);
        assert buf[(i - size) % size] == Lookup(entries, i - size);
      }
      startIndex := startIndex + count;
    }
  }

  function Lookup<T>(entries: map<nat, T>, index: nat): Option<T> {
    if index in entries then Some(entries[index]) else None
  }

  /** What `collect_missing` has established once the slots from `start + i` up are scanned. */
  ghost predicate Scanned(was: map<nat, nat>, entries: map<nat, nat>, start: nat, i: nat, range: nat, now: nat, rto: nat,
                          timeoutIndex: Option<nat>, missing: seq<nat>)
  {
    match timeoutIndex
    case None =>
      entries == was && missing == [] && NoneExpired(was, start + i, start + range, now, rto)
    case Some(index) =>
      && i <= index < range
      && HighestExpired(was, start, range, now, rto) == Some(start + index)
      && Holes(was.Keys, start, start + index) == missing + Holes(was.Keys, start, start + i)
      && entries == Without(was, start + i, start + index)
  }

  /** What scanning one slot establishes, whatever is in it. */
  lemma ScanStep(was: map<nat, nat>, entries: map<nat, nat>, start: nat, i: nat, range: nat, now: nat, rto: nat,
                 timeoutIndex: Option<nat>, missing: seq<nat>)
    requires i < range && Scanned(was, entries, start, i + 1, range, now, rto, timeoutIndex, missing)
    ensures start + i in entries && timeoutIndex.Some? ==>
              Scanned(was, entries - {start + i}, start, i, range, now, rto, timeoutIndex, missing)
    ensures start + i in entries && timeoutIndex.None? && Expired(now, rto, entries[start + i]) ==>
              Scanned(was, entries - {start + i}, start, i, range, now, rto, Some(i), missing)
    ensures start + i in entries && timeoutIndex.None? && !Expired(now, rto, entries[start + i]) ==>
              Scanned(was, entries, start, i, range, now, rto, None, missing)
    ensures start + i !in entries ==>
              Scanned(was, entries, start, i, range, now, rto, timeoutIndex,
                      missing + if timeoutIndex.Some? then [start + i] else [])
    ensures missing + [] == missing
  {
    if timeoutIndex.Some? {
      WithoutStep(was, start + i, start + timeoutIndex.value);
      assert Holes(was.Keys, start, start + i + 1) ==
             (if start + i in was then [] else [start + i]) + Holes(was.Keys, start, start + i);
    } else if start + i in entries && Expired(now, rto, entries[start + i]) {
      HighestExpiredIs(was, start, range, now, rto, Some(start + i));
      WithoutStep(was, start + i, start + i);
    }
  }

  method ScanSlot(w: Window<nat>, start: nat, i: nat, range: nat, now: nat, rto: nat,
                  timeoutIndex: Option<nat>, missing: seq<nat>, ghost was: map<nat, nat>)
    returns (timeoutIndex': Option<nat>, missing': seq<nat>)
    requires w.Valid() && start == w.startIndex && i < range <= w.size
    requires forall k <- w.entries :: w.entries[k] <= now
    requires Scanned(was, w.entries, start, i + 1, range, now, rto, timeoutIndex, missing)
    modifies w.buf, w`entries
    ensures w.Valid()
    ensures forall k <- w.entries :: w.entries[k] <= now
    ensures Scanned(was, w.entries, start, i, range, now, rto, timeoutIndex', missing')
  {
    hide Scanned;
    timeoutIndex', missing' := timeoutIndex, missing;
    ScanStep(was, w.entries, start, i, range, now, rto, timeoutIndex, missing);
    var slot := w.Get(start + i);
    if slot.Some? {
      if timeoutIndex.Some? {
        w.Clear(start + i);
      } else if now - slot.value > rto {
        timeoutIndex' := Some(i);
        w.Clear(start + i);
      }
    } else if timeoutIndex.Some? {
      missing' := missing + [start + i];
    }
  }

  /** `collect_missing` exists only for windows of arrival times. The caller's clock
      is monotone, so no entry is newer than `now`. */
  method CollectMissingFrom(w: Window<nat>, now: nat, rto: nat) returns (missing: seq<nat>)
    requires w.Valid() && !w.View().Underflows()
    requires forall i <- w.entries :: w.entries[i] <= now
    modifies w, w.buf
    ensures w.Valid()
    ensures (w.View(), missing) == CollectMissing(old(w.View()), w.size, now, rto)
  {
    missing := [];
    var timeoutIndex: Option<nat> := None;
    var start := w.startIndex;
    var range := if w.furthestIndex.Some? then w.furthestIndex.value - start + 1 else w.size;
    ghost var was := w.entries;
    var i := range;
    while i > 0
      invariant 0 <= i <= range && w.Valid()
      invariant w.startIndex == start && w.furthestIndex == old(w.furthestIndex)
      invariant forall k <- w.entries :: w.entries[k] <= now
      invariant Scanned(was, w.entries, start, i, range, now, rto, timeoutIndex, missing)
    {
      i := i - 1;
      timeoutIndex, missing := ScanSlot(w, start, i, range, now, rto, timeoutIndex, missing, was);
    }
    if timeoutIndex.Some? {
      assert w.entries == old(w.View()).Advance(timeoutIndex.value + 1);
      assert missing + [] == missing;
      w.MoveStart(timeoutIndex.value + 1);
    } else {
      HighestExpiredIs(was, start, range, now, rto, None);
    }
  }

  lemma WithoutStep<T>(entries: map<nat, T>, low: nat, high: nat)
    ensures low <= high ==> Without(entries, low + 1, high) - {low} == Without(entries, low, high)
    ensures low <= high && low !in entries ==> Without(entries, low + 1, high) == Without(entries, low, high)
    ensures entries - {low} == Without(entries, low, low)
  {
  }

  function Without<T>(entries: map<nat, T>, low: nat, high: nat): map<nat, T> {
    map i | i in entries && !(low <= i <= high) :: entries[i]
  }
}
