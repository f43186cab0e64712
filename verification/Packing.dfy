/** Filling packets with fragments in order (the packing loops of `update` in
    src/reliability/layer.rs). */
module Packing {
  import opened Basics
  import opened Datagrams

  /** The local variables of the loops. */
  datatype Packer = Packer(
    packets: seq<seq<Fragment>>,
    packetSizes: seq<nat>,
    current: seq<Fragment>,
    currentSize: nat,
    total: nat)
  {
    function Close(): Packer {
      Packer(packets + [current], packetSizes + [currentSize], [], 0, total)
    }

    function Add(f: Fragment, max: nat): Packer {
      var p := if currentSize + f.FullSize() > max then Close() else this;
      Packer(p.packets, p.packetSizes, p.current + [f], p.currentSize + f.FullSize(), p.total + f.FullSize())
    }

    function Finish(): Packer {
      if current == [] then this else Close()
    }

    /** All packets, counting the one being filled. */
    function Filled(): seq<seq<Fragment>> {
      if current == [] then packets else packets + [current]
    }

    /** The packets hold exactly `items`, in order, as full as they can be. */
    ghost predicate Holds(items: seq<Fragment>, max: nat) {
      && Join(packets) + current == items
      && total == SizeOf(items)
      && currentSize == SizeOf(current)
      && |packetSizes| == |packets|
      && (forall i :: 0 <= i < |packets| ==> packetSizes[i] == SizeOf(packets[i]))
      && (current == [] ==> packets == [])
      && NextFit(Filled(), max)
    }
  }

  const EMPTY_PACKER := Packer([], [], [], 0, 0)

  /** No packet is empty or too large, and none could have taken the first fragment of the next. */
  ghost predicate NextFit(packets: seq<seq<Fragment>>, max: nat) {
    && (forall i :: 0 <= i < |packets| ==> packets[i] != [] && SizeOf(packets[i]) <= max)
    && (forall i :: 0 <= i < |packets| - 1 ==> SizeOf(packets[i]) + packets[i + 1][0].FullSize() > max)
  }

  lemma SizeOfSnoc(fs: seq<Fragment>, f: Fragment)
    ensures SizeOf(fs + [f]) == SizeOf(fs) + f.FullSize()
  {
    SizeOfAppend(fs, [f]);
    assert SizeOf([f]) == f.FullSize() + SizeOf([f][1..]);
  }

  lemma SizeOfNothing()
    ensures SizeOf([]) == 0
  {
  }

  lemma AddHolds(p: Packer, items: seq<Fragment>, f: Fragment, max: nat)
    requires p.Holds(items, max) && f.FullSize() <= max
    ensures p.Add(f, max).Holds(items + [f], max)
  {
    hide SizeOf, Join;
    var p' := p.Add(f, max);
    SizeOfSnoc(items, f);
    SizeOfSnoc(p.current, f);
    if p.currentSize + f.FullSize() > max {
      SizeOfNothing();
      assert p.current != [];
      JoinSnoc(p.packets, p.current);
      SizeOfSnoc([], f);
      assert p'.current == [f] && [] + [f] == [f];
      assert Join(p'.packets) + [f] == items + [f];
      assert p'.Filled() == p.Filled() + [[f]];
    } else {
      assert p'.current == p.current + [f];
      Refilled(p.packets, p.current, f, max);
    }
  }

  /** Adding to the last packet, or starting the first one. */
  lemma Refilled(packets: seq<seq<Fragment>>, current: seq<Fragment>, f: Fragment, max: nat)
    requires if current == [] then packets == [] else NextFit(packets + [current], max)
    requires SizeOf(current + [f]) <= max
    ensures NextFit(packets + [current + [f]], max)
  {
    var before, after := packets + [current], packets + [current + [f]];
    assert forall i :: 0 <= i < |packets| ==> after[i] == before[i];
    assert current != [] ==> after[|packets|][0] == before[|packets|][0];
  }

  /** The packer after these fragments. */
  function Fill(items: seq<Fragment>, max: nat): Packer {
    if items == [] then EMPTY_PACKER else Fill(items[..|items| - 1], max).Add(items[|items| - 1], max)
  }

  lemma FillSnoc(items: seq<Fragment>, f: Fragment, max: nat)
    ensures Fill(items + [f], max) == Fill(items, max).Add(f, max)
  {
    assert (items + [f])[..|items|] == items;
  }

  lemma EmptyHolds(max: nat)
    ensures EMPTY_PACKER.Holds([], max)
  {
  }

  /** Greedy filling keeps the packets in order, within the limit and as full as can be. */
  lemma {:induction false} FillHolds(items: seq<Fragment>, max: nat)
    requires forall f <- items :: f.FullSize() <= max
    ensures Fill(items, max).Holds(items, max)
  {
    hide SizeOf, Join, NextFit;
    if items == [] {
      EmptyHolds(max);
    } else {
      var n := |items| - 1;
      FillHolds(items[..n], max);
      assert items[n] in items;
      AddHolds(Fill(items[..n], max), items[..n], items[n], max);
      assert items == items[..n] + [items[n]];
    }
  }

  lemma FinishHolds(p: Packer, items: seq<Fragment>, max: nat)
    requires p.Holds(items, max)
    ensures var p' := p.Finish();
            && p'.packets == p.Filled() && Join(p'.packets) == items && NextFit(p'.packets, max)
            && |p'.packetSizes| == |p'.packets|
            && forall i :: 0 <= i < |p'.packets| ==> p'.packetSizes[i] == SizeOf(p'.packets[i])
  {
    if p.current != [] {
      JoinSnoc(p.packets, p.current);
    } else {
      assert Join(p.packets) + [] == Join(p.packets);
    }
  }

  // ---- what greedy filling is worth ----

  lemma SizeOfFirst(packet: seq<Fragment>)
    requires packet != []
    ensures packet[0].FullSize() <= SizeOf(packet)
  {
  }

  lemma AdjacentExceed(packets: seq<seq<Fragment>>, max: nat, i: nat)
    requires NextFit(packets, max) && i + 1 < |packets|
    ensures SizeOf(packets[i]) + SizeOf(packets[i + 1]) > max
  {
    SizeOfFirst(packets[i + 1]);
  }

  lemma JoinTwo(packets: seq<seq<Fragment>>)
    requires |packets| >= 2
    ensures SizeOf(Join(packets)) == SizeOf(packets[0]) + SizeOf(packets[1]) + SizeOf(Join(packets[2..]))
  {
    assert packets[1..][1..] == packets[2..];
    SizeOfAppend(packets[0], Join(packets[1..]));
    SizeOfAppend(packets[1], Join(packets[2..]));
  }

  /** Any two adjacent packets together exceed the limit, so k packets carry more
      than half of what k full ones would (rounding k down to even). */
  lemma {:induction false} PackingIsDense(packets: seq<seq<Fragment>>, max: nat)
    requires NextFit(packets, max)
    ensures forall i :: 0 <= i < |packets| - 1 ==> SizeOf(packets[i]) + SizeOf(packets[i + 1]) > max
    ensures |packets| >= 2 ==> SizeOf(Join(packets)) > |packets| / 2 * max
  {
    forall i | 0 <= i < |packets| - 1
      ensures SizeOf(packets[i]) + SizeOf(packets[i + 1]) > max
    {
      AdjacentExceed(packets, max, i);
    }
    if |packets| >= 2 {
      TailNextFit(packets, max);
      TailNextFit(packets[1..], max);
      assert packets[1..][1..] == packets[2..];
      PackingIsDense(packets[2..], max);
      JoinTwo(packets);
      HalfStep(|packets|, max);
    }
  }

  lemma HalfStep(k: nat, max: nat)
    requires k >= 2
    ensures k / 2 * max == (k - 2) / 2 * max + max
  {
    var h := (k - 2) / 2;
    assert k / 2 == h + 1;
  }

  /** There is only one such packing of given fragments: the order and the limit
      decide every packet boundary. */
  lemma {:induction false} PackingIsUnique(a: seq<seq<Fragment>>, b: seq<seq<Fragment>>, max: nat)
    requires NextFit(a, max) && NextFit(b, max) && Join(a) == Join(b)
    ensures a == b
  {
    if a == [] || b == [] {
      JoinNonEmpty(a, max);
      JoinNonEmpty(b, max);
    } else {
      if |a[0]| < |b[0]| {
        FirstPacketNotShorter(a, b, max);
      } else if |b[0]| < |a[0]| {
        FirstPacketNotShorter(b, a, max);
      }
      assert a[0] == Join(a)[..|a[0]|] == Join(b)[..|b[0]|] == b[0];
      assert Join(a[1..]) == Join(a)[|a[0]|..] == Join(b[1..]);
      TailNextFit(a, max);
      TailNextFit(b, max);
      PackingIsUnique(a[1..], b[1..], max);
      assert a == [a[0]] + a[1..] && b == [b[0]] + b[1..];
    }
  }

  lemma JoinNonEmpty(packets: seq<seq<Fragment>>, max: nat)
    requires NextFit(packets, max)
    ensures Join(packets) == [] <==> packets == []
  {
    if packets != [] {
      assert packets[0] != [];
    }
  }

  lemma TailNextFit(packets: seq<seq<Fragment>>, max: nat)
    requires packets != [] && NextFit(packets, max)
    ensures NextFit(packets[1..], max)
  {
    var rest := packets[1..];
    assert forall i :: 0 <= i < |rest| ==> rest[i] == packets[i + 1];
  }

  /** The shorter first packet would have had room for its successor's first fragment. */
  lemma FirstPacketNotShorter(a: seq<seq<Fragment>>, b: seq<seq<Fragment>>, max: nat)
    requires a != [] && b != [] && NextFit(a, max) && NextFit(b, max) && Join(a) == Join(b)
    ensures |a[0]| >= |b[0]|
  {
    if |a[0]| < |b[0]| {
      var k := |a[0]|;
      assert b[0] == Join(a)[..|b[0]|];
      assert a[0] == Join(a)[..k];
      TailNextFit(a, max);
      JoinNonEmpty(a[1..], max);
      assert Join(a[1..]) == Join(a)[k..];
      assert a[1..][0] == a[1];
      var f := a[1][0];
      assert f == Join(a[1..])[0] == Join(a)[k] == b[0][k];
      assert b[0] == a[0] + ([f] + b[0][k + 1..]);
      SizeOfAppend(a[0], [f] + b[0][k + 1..]);
      SizeOfFirst([f] + b[0][k + 1..]);
      assert false;
    }
  }
}
