/** Cutting a large message into fragments and putting it together again
    (`split_fragment` and `build_split_fragment` of src/reliability/layer.rs). */
module Splitting {
  import opened Basics
  import opened Datagrams
  import opened Rings

  /** The payloads `split_to` hands out, front to back. */
  function Chunks(data: Bytes, size: nat): (cs: seq<Bytes>)
    requires size > 0
    ensures |cs| > 0
  {
    if |data| <= size then [data] else [data[..size]] + Chunks(data[size..], size)
  }

  lemma {:induction false} ChunksJoin(data: Bytes, size: nat)
    requires size > 0
    ensures Join(Chunks(data, size)) == data
    ensures forall c <- Chunks(data, size) :: |c| <= size
  {
    if |data| <= size {
      assert Join([data]) == data + Join([data][1..]) == data;
    } else {
      ChunksJoin(data[size..], size);
      assert Chunks(data, size)[1..] == Chunks(data[size..], size);
      assert data == data[..size] + data[size..];
    }
  }

  /** The number of pieces the sender announces is the number it makes. */
  lemma {:induction false} ChunkCount(data: Bytes, size: nat)
    requires size > 0 && |data| > 0
    ensures |Chunks(data, size)| == (|data| - 1) / size + 1
  {
    var n := |data| - 1;
    if |data| <= size {
      assert n / size == 0 by {
        MultipleApart(size, n / size);
        assert n == size * (n / size) + n % size;
      }
    } else {
      ChunkCount(data[size..], size);
      DivStep(n - size, size);
    }
  }

  /** A message is cut only when it does not fit one packet; then it makes two pieces or more. */
  lemma SplitsInTwo(base: Fragment, max: nat)
    requires base.splitInfo.None? && base.FullSize() > max > base.HeaderSize() + SPLIT_INFO_SIZE
    ensures |Chunks(base.data, AllowedSize(base, max))| >= 2
  {
  }

  /** Payload room of one piece. */
  function AllowedSize(base: Fragment, max: nat): (size: nat)
    requires max > base.HeaderSize() + SPLIT_INFO_SIZE
    ensures size > 0
  {
    max - base.HeaderSize() - SPLIT_INFO_SIZE
  }

  function Piece(base: Fragment, id: nat, chunks: seq<Bytes>, i: nat): Fragment
    requires i < |chunks|
  {
    base.(splitInfo := Some(SplitInfo(|chunks|, id, i)), data := chunks[i])
  }

  function Pieces(base: Fragment, id: nat, chunks: seq<Bytes>): (pieces: seq<Fragment>)
    ensures |pieces| == |chunks|
    ensures forall i :: 0 <= i < |chunks| ==> pieces[i] == Piece(base, id, chunks, i)
  {
    seq(|chunks|, i requires 0 <= i < |chunks| => Piece(base, id, chunks, i))
  }

  // ---- reassembly ----

  /** Split id to the payloads that have arrived. */
  type Table = map<nat, seq<Option<Bytes>>>

  predicate Complete(slots: seq<Option<Bytes>>) {
    forall i :: 0 <= i < |slots| ==> slots[i].Some?
  }

  function Assemble(slots: seq<Option<Bytes>>): Bytes
    requires Complete(slots)
  {
    if slots == [] then [] else slots[0].value + Assemble(slots[1..])
  }

  /** The first piece of a message opens its entry and is never checked for
      completeness; a piece whose index the entry has no room for aborts. */
  function Reassemble(table: Table, fragment: Fragment): (Table, Result<Option<Fragment>>)
    requires fragment.splitInfo.Some?
  {
    var info := fragment.splitInfo.value;
    if info.index >= info.size then
      (table, Ok(None))
    else if info.id in table then
      if info.index >= |table[info.id]| then
        (table, Err(Panic))
      else
        var slots := table[info.id][info.index := Some(fragment.data)];
        if Complete(slots) then
          (table - {info.id}, Ok(Some(fragment.(data := Assemble(slots)))))
        else
          (table[info.id := slots], Ok(None))
    else
      (table[info.id := seq(info.size, i => if i == info.index then Some(fragment.data) else None)], Ok(None))
  }

  /** Pieces as no sender makes them. One beyond its own count is ignored, and one beyond the
      count of those before it aborts. A message of a single piece waits for a second. */
  lemma StrangePieces(table: Table, f: Fragment)
    requires f.splitInfo.Some?
    ensures var (table', r) := Reassemble(table, f);
            var (id, size, index) := (f.splitInfo.value.id, f.splitInfo.value.size, f.splitInfo.value.index);
            && (index >= size ==> table' == table && r == Ok(None))
            && (index < size && id !in table ==>
                  && r == Ok(None) && table'.Keys == table.Keys + {id} && |table'[id]| == size
                  && (forall i :: 0 <= i < size ==> table'[id][i] == if i == index then Some(f.data) else None)
                  && (size == 1 ==> Reassemble(table', f).1 == Ok(Some(f))))
            && (index < size && id in table && index >= |table[id]| ==> table' == table && r == Err(Panic))
            && forall other <- table :: other != id ==> other in table' && table'[other] == table[other]
  {
    var (table', r) := Reassemble(table, f);
    var (id, size, index) := (f.splitInfo.value.id, f.splitInfo.value.size, f.splitInfo.value.index);
    if index < size && id !in table && size == 1 {
      var slots := table'[id][0 := Some(f.data)];
      assert slots == [Some(f.data)] && Complete(slots);
      assert Assemble(slots) == f.data + Assemble(slots[1..]) == f.data;
    }
  }

  /** The pieces `seen` of a message wait under its id; none of it does at first. */
  ghost predicate Gathering(table: Table, id: nat, chunks: seq<Bytes>, seen: set<nat>) {
    if seen == {} then
      id !in table
    else
      && id in table && |table[id]| == |chunks|
      && forall i :: 0 <= i < |chunks| ==> table[id][i] == if i in seen then Some(chunks[i]) else None
  }

  predicate IsPiece(f: Fragment, id: nat, chunks: seq<Bytes>) {
    && f.splitInfo.Some? && f.splitInfo.value.id == id
    && f.splitInfo.value.size == |chunks| && f.splitInfo.value.index < |chunks|
    && f.data == chunks[f.splitInfo.value.index]
  }

  predicate IsForeign(f: Fragment, id: nat) {
    f.splitInfo.Some? && f.splitInfo.value.id != id
  }

  ghost predicate All(seen: set<nat>, n: nat) {
    forall i :: 0 <= i < n ==> i in seen
  }

  lemma {:induction false} AssembleJoin(slots: seq<Option<Bytes>>, chunks: seq<Bytes>)
    requires |slots| == |chunks| && forall i :: 0 <= i < |chunks| ==> slots[i] == Some(chunks[i])
    ensures Assemble(slots) == Join(chunks)
  {
    if slots != [] {
      AssembleJoin(slots[1..], chunks[1..]);
    }
  }

  lemma FirstPiece(table: Table, id: nat, chunks: seq<Bytes>, f: Fragment)
    requires id !in table && |chunks| >= 2 && IsPiece(f, id, chunks)
    ensures var (table', r) := Reassemble(table, f);
            && r == Ok(None) && table' == table[id := table'[id]] && Gathering(table', id, chunks, {f.splitInfo.value.index})
  {
    hide Assemble, Join;
  }

  lemma NextPiece(table: Table, id: nat, chunks: seq<Bytes>, seen: set<nat>, f: Fragment)
    requires seen != {} && Gathering(table, id, chunks, seen) && |chunks| >= 2 && IsPiece(f, id, chunks)
    ensures var k := f.splitInfo.value.index;
            var slots := table[id][k := Some(f.data)];
            && |slots| == |chunks|
            && (forall i :: 0 <= i < |chunks| ==> slots[i] == if i in seen + {k} then Some(chunks[i]) else None)
            && (Complete(slots) <==> All(seen + {k}, |chunks|))
            && Reassemble(table, f) ==
               if Complete(slots) then (table - {id}, Ok(Some(f.(data := Assemble(slots))))) else (table[id := slots], Ok(None))
  {
    hide Assemble, Join;
    var k := f.splitInfo.value.index;
    var slots := table[id][k := Some(f.data)];
    forall i | 0 <= i < |chunks|
      ensures slots[i] == if i in seen + {k} then Some(chunks[i]) else None
    {
    }
    if Complete(slots) {
      forall i | 0 <= i < |chunks|
        ensures i in seen + {k}
      {
        assert slots[i].Some?;
      }
    } else {
      var i :| 0 <= i < |slots| && slots[i].None?;
      assert i !in seen + {k};
    }
  }

  lemma OwnPiece(table: Table, id: nat, chunks: seq<Bytes>, seen: set<nat>, f: Fragment)
    requires Gathering(table, id, chunks, seen) && !All(seen, |chunks|)
    requires |chunks| >= 2 && IsPiece(f, id, chunks)
    ensures var (table', r) := Reassemble(table, f);
            var seen' := seen + {f.splitInfo.value.index};
            && (All(seen', |chunks|) ==> r == Ok(Some(f.(data := Join(chunks)))) && table' == table - {id})
            && (!All(seen', |chunks|) ==> r == Ok(None) && Gathering(table', id, chunks, seen'))
            && (forall other :: other != id ==> (other in table' <==> other in table))
            && (forall other <- table' :: other != id ==> table'[other] == table[other])
  {
    var k := f.splitInfo.value.index;
    if seen == {} {
      hide Reassemble, Assemble, Join;
      FirstPiece(table, id, chunks, f);
      var other := if k == 0 then 1 else 0;
      assert seen + {k} == {k} && other !in seen + {k};
    } else {
      hide Reassemble, Assemble, Join, Complete, All;
      NextPiece(table, id, chunks, seen, f);
      var slots := table[id][k := Some(f.data)];
      if All(seen + {k}, |chunks|) {
        AllAre(slots, chunks, seen + {k});
        AssembleJoin(slots, chunks);
      }
    }
  }

  lemma AllAre(slots: seq<Option<Bytes>>, chunks: seq<Bytes>, seen: set<nat>)
    requires |slots| == |chunks| && All(seen, |chunks|)
    requires forall i :: 0 <= i < |chunks| ==> slots[i] == if i in seen then Some(chunks[i]) else None
    ensures forall i :: 0 <= i < |chunks| ==> slots[i] == Some(chunks[i])
  {
  }

  lemma ForeignPiece(table: Table, id: nat, chunks: seq<Bytes>, seen: set<nat>, f: Fragment)
    requires Gathering(table, id, chunks, seen) && IsForeign(f, id)
    ensures Gathering(Reassemble(table, f).0, id, chunks, seen)
  {
  }

  /** The table after a list of pieces has arrived. */
  function Arrived(table: Table, fs: seq<Fragment>): Table
    requires forall f <- fs :: f.splitInfo.Some?
  {
    if fs == [] then table else Reassemble(Arrived(table, fs[..|fs| - 1]), fs[|fs| - 1]).0
  }

  /** The pieces of message `id` among the arrivals. */
  function Seen(fs: seq<Fragment>, id: nat): set<nat>
    requires forall f <- fs :: f.splitInfo.Some?
  {
    set f <- fs | f.splitInfo.value.id == id :: f.splitInfo.value.index
  }

  lemma SeenSnoc(fs: seq<Fragment>, id: nat)
    requires fs != [] && forall f <- fs :: f.splitInfo.Some?
    ensures Seen(fs, id) ==
            Seen(fs[..|fs| - 1], id) + if fs[|fs| - 1].splitInfo.value.id == id then {fs[|fs| - 1].splitInfo.value.index} else {}
  {
    assert fs == fs[..|fs| - 1] + [fs[|fs| - 1]];
  }

  ghost predicate Interleaved(fs: seq<Fragment>, id: nat, chunks: seq<Bytes>) {
    forall f <- fs :: IsPiece(f, id, chunks) || IsForeign(f, id)
  }

  lemma {:induction false} StillGathering(table: Table, id: nat, chunks: seq<Bytes>, fs: seq<Fragment>)
    requires id !in table && |chunks| >= 2 && Interleaved(fs, id, chunks)
    requires !All(Seen(fs, id), |chunks|)
    ensures Gathering(Arrived(table, fs), id, chunks, Seen(fs, id))
  {
    if fs != [] {
      var n := |fs| - 1;
      SeenSnoc(fs, id);
      StillGathering(table, id, chunks, fs[..n]);
      if fs[n].splitInfo.value.id == id {
        OwnPiece(Arrived(table, fs[..n]), id, chunks, Seen(fs[..n], id), fs[n]);
      } else {
        ForeignPiece(Arrived(table, fs[..n]), id, chunks, Seen(fs[..n], id), fs[n]);
      }
    }
  }

  /** The pieces of a payload arrive in any order, repeated and mixed with other
      messages. Nothing comes out before the last missing piece; that piece brings
      the payload back whole, and nothing is left under its id. */
  lemma SplitRoundTrip(table: Table, id: nat, data: Bytes, size: nat, fs: seq<Fragment>, last: Fragment)
    requires size > 0 && id !in table
    requires var chunks := Chunks(data, size);
             && |chunks| >= 2 && Interleaved(fs, id, chunks) && IsPiece(last, id, chunks)
             && !All(Seen(fs, id), |chunks|)
    ensures var (table', r) := Reassemble(Arrived(table, fs), last);
            if All(Seen(fs, id) + {last.splitInfo.value.index}, |Chunks(data, size)|) then
              r == Ok(Some(last.(data := data))) && id !in table'
            else
              r == Ok(None)
  {
    var chunks := Chunks(data, size);
    StillGathering(table, id, chunks, fs);
    OwnPiece(Arrived(table, fs), id, chunks, Seen(fs, id), last);
    ChunksJoin(data, size);
  }
}
