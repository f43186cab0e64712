/** In which order the heap serves the four priorities, and how it shares the pops out
    among them (`get_next_weight` and `init_next_weight` of src/reliability/layer.rs:592-620). */
module Fairness {
  import opened Basics
  import opened Datagrams
  import opened Scheduling
  import Senders
  import SenderRuns

  /** The weight of the first fragment of each priority. */
  function First(p: nat): nat
    requires p < 4
  {
    match p
    case 0 => 0
    case 1 => 3
    case 2 => 10
    case 3 => 27
  }

  /** How far apart the weights of one priority are. */
  function Stride(p: nat): (n: nat)
    requires p < 4
    ensures n > 0
  {
    match p
    case 0 => 3
    case 1 => 10
    case 2 => 27
    case 3 => 68
  }

  /** The weight a fragment gets, in numbers. With nothing waiting it is the first of its
      priority. Otherwise it is the one kept for it, unless that has fallen behind the top of
      the heap: then it is as far above what the top is above its own first. */
  lemma WeightIs(s: Schedule, peek: nat, p: Priority)
    requires Balanced(s) && Peeks(s.queue, peek)
    ensures var (weight, next) := NextWeight(s, peek, p);
            if s.queue == [] then
              next == [0, 3, 10, 27] && weight == match p case Immediate => 0 case High => 3 case Medium => 10 case Low => 27
            else
              var top := s.queue[peek];
              && First(top.priority.Index()) <= top.weight
              && (var behind := top.weight - First(top.priority.Index());
                  weight == if s.nextWeight[p.Index()] < behind then behind + First(p.Index()) else s.nextWeight[p.Index()])
              && next == s.nextWeight[p.Index() := weight + Stride(p.Index())]
  {
    PriorityFactors();
  }

  // ---- lanes ----

  /** The weights of the fragments of one priority, in the order they were pushed. */
  function Lane(queue: seq<Outgoing>, p: nat): seq<nat> {
    if queue == [] then
      []
    else
      var x := queue[|queue| - 1];
      Lane(queue[..|queue| - 1], p) + if x.priority.Index() == p then [x.weight] else []
  }

  /** Where each lane is: the weight in front, and whether the first two are still to tie,
      as they do for the one fragment that was pushed on an empty queue. */
  datatype Lanes = Lanes(front: seq<nat>, tied: seq<nat>)

  /** The weights of the lane are a stride apart. */
  predicate InLane(s: Schedule, l: Lanes, p: nat)
    requires p < 4 && |l.front| == |l.tied| == |s.nextWeight| == 4
  {
    var lane := Lane(s.queue, p);
    && l.tied[p] <= 1 && l.tied[p] <= |lane|
    && (forall i :: 0 <= i < |lane| ==>
                      lane[i] == l.front[p] + (if i >= l.tied[p] then i - l.tied[p] else 0) * Stride(p))
    && s.nextWeight[p] == l.front[p] + (|lane| - l.tied[p]) * Stride(p)
  }

  predicate InLanes(s: Schedule, l: Lanes) {
    && |l.front| == |l.tied| == |s.nextWeight| == 4
    && forall p :: 0 <= p < 4 ==> InLane(s, l, p)
  }

  lemma {:induction false} LaneAppend(a: seq<Outgoing>, b: seq<Outgoing>, p: nat)
    ensures Lane(a + b, p) == Lane(a, p) + Lane(b, p)
    decreases |b|
  {
    if b == [] {
      assert a + b == a && Lane(a, p) + [] == Lane(a, p);
    } else {
      var n := |b| - 1;
      assert (a + b)[..|a + b| - 1] == a + b[..n];
      LaneAppend(a, b[..n], p);
    }
  }

  lemma LaneOne(x: Outgoing, p: nat)
    ensures Lane([x], p) == if x.priority.Index() == p then [x.weight] else []
  {
    assert [x][..0] == [];
  }

  lemma {:induction false} InLaneOf(queue: seq<Outgoing>, p: nat)
    ensures forall x <- queue :: x.priority.Index() == p ==> x.weight in Lane(queue, p)
    ensures forall w <- Lane(queue, p) :: exists x <- queue :: x.priority.Index() == p && x.weight == w
    decreases |queue|
  {
    if queue != [] {
      var n := |queue| - 1;
      InLaneOf(queue[..n], p);
      assert queue == queue[..n] + [queue[n]];
      forall w | w in Lane(queue, p)
        ensures exists x <- queue :: x.priority.Index() == p && x.weight == w
      {
        if w in Lane(queue[..n], p) {
          var x :| x in queue[..n] && x.priority.Index() == p && x.weight == w;
          assert x in queue;
        } else {
          assert queue[n] in queue;
        }
      }
    }
  }

  /** The front is the least weight of its lane. */
  lemma FrontIsLeast(s: Schedule, l: Lanes, x: Outgoing)
    requires InLanes(s, l) && x in s.queue
    ensures l.front[x.priority.Index()] <= x.weight
    ensures Lane(s.queue, x.priority.Index()) != []
  {
    var p := x.priority.Index();
    InLaneOf(s.queue, p);
    assert InLane(s, l, p);
    var i :| 0 <= i < |Lane(s.queue, p)| && Lane(s.queue, p)[i] == x.weight;
    assert (if i >= l.tied[p] then i - l.tied[p] else 0) * Stride(p) >= 0;
  }

  /** So the top of the heap is the front of its lane, and no front is below it. */
  lemma TopIsFront(s: Schedule, l: Lanes, i: nat)
    requires InLanes(s, l) && IsMin(s.queue, i)
    ensures s.queue[i].weight == l.front[s.queue[i].priority.Index()]
    ensures forall p :: 0 <= p < 4 && Lane(s.queue, p) != [] ==> s.queue[i].weight <= l.front[p]
  {
    var top := s.queue[i];
    assert top in s.queue;
    FrontIsLeast(s, l, top);
    forall p | 0 <= p < 4 && Lane(s.queue, p) != []
      ensures top.weight <= l.front[p]
    {
      InLaneOf(s.queue, p);
      assert InLane(s, l, p) && Lane(s.queue, p)[0] == l.front[p];
      assert Lane(s.queue, p)[0] in Lane(s.queue, p);
      var x :| x in s.queue && x.priority.Index() == p && x.weight == l.front[p];
    }
  }

  lemma LaneGrows(front: nat, tied: nat, stride: nat, lane: seq<nat>, next: nat)
    requires tied <= 1 && tied <= |lane|
    requires forall i :: 0 <= i < |lane| ==> lane[i] == front + (if i >= tied then i - tied else 0) * stride
    requires next == front + (|lane| - tied) * stride
    ensures forall i :: 0 <= i < |lane| + 1 ==> (lane + [next])[i] == front + (if i >= tied then i - tied else 0) * stride
    ensures next + stride == front + (|lane| + 1 - tied) * stride
  {
    assert (|lane| + 1 - tied) * stride == (|lane| - tied) * stride + stride;
  }

  lemma PushLanes(s: Schedule, peek: nat, p: Priority, fragment: Fragment, q: nat)
    requires Balanced(s) && IsMin(s.queue, peek) && q < 4
    requires s.queue[peek].weight <= s.nextWeight[p.Index()] + First(s.queue[peek].priority.Index())
    ensures var (s', next) := (Push(s, peek, p, fragment), s.nextWeight[p.Index()]);
            && |s.nextWeight| == |s'.nextWeight| == 4
            && Lane(s'.queue, q) == Lane(s.queue, q) + (if q == p.Index() then [next] else [])
            && s'.nextWeight[q] == if q == p.Index() then next + Stride(q) else s.nextWeight[q]
  {
    hide Balanced, NextWeight, Lane;
    var s' := Push(s, peek, p, fragment);
    BalancedHasFour(s);
    WeightIs(s, peek, p);
    var x := s'.queue[|s.queue|];
    assert s'.queue == s.queue + [x];
    LaneAppend(s.queue, [x], q);
    LaneOne(x, q);
  }

  lemma BalancedHasFour(s: Schedule)
    requires Balanced(s)
    ensures |s.nextWeight| == 4
  {
  }

  /** A push to a lane that has not fallen behind keeps the lanes. */
  lemma PushInLanes(s: Schedule, l: Lanes, peek: nat, p: Priority, fragment: Fragment)
    requires Balanced(s) && InLanes(s, l) && IsMin(s.queue, peek)
    requires s.queue[peek].weight <= s.nextWeight[p.Index()] + First(s.queue[peek].priority.Index())
    ensures InLanes(Push(s, peek, p, fragment), l)
  {
    hide Balanced, NextWeight, Lane, Push;
    var s' := Push(s, peek, p, fragment);
    forall q | 0 <= q < 4
      ensures |s'.nextWeight| == 4 && InLane(s', l, q)
    {
      assert InLane(s, l, q);
      PushLanes(s, peek, p, fragment, q);
      if q == p.Index() {
        LaneGrows(l.front[q], l.tied[q], Stride(q), Lane(s.queue, q), s.nextWeight[q]);
      } else {
        assert Lane(s.queue, q) + [] == Lane(s.queue, q);
      }
    }
    PushLanes(s, peek, p, fragment, 0);
  }

  // ---- after the queue has been empty ----

  /** Every lane starts at its first weight. */
  function Fresh(tied: seq<nat>): Lanes {
    Lanes([0, 3, 10, 27], tied)
  }

  lemma PushOnEmpty(s: Schedule, peek: nat, p: Priority, fragment: Fragment)
    requires Balanced(s) && s.queue == []
    ensures var tied: seq<nat> := [0, 0, 0, 0]; InLanes(Push(s, peek, p, fragment), Fresh(tied[p.Index() := 1]))
  {
    hide Balanced, NextWeight;
    var s' := Push(s, peek, p, fragment);
    WeightIs(s, peek, p);
    forall q | 0 <= q < 4
      ensures Lane(s'.queue, q) == if q == p.Index() then [First(q)] else []
    {
      LaneOne(s'.queue[0], q);
      assert s'.queue == [s'.queue[0]];
    }
  }

  lemma PushOnFresh(s: Schedule, tied: seq<nat>, peek: nat, p: Priority, fragment: Fragment)
    requires Balanced(s) && InLanes(s, Fresh(tied)) && IsMin(s.queue, peek)
    ensures InLanes(Push(s, peek, p, fragment), Fresh(tied))
  {
    TopIsFront(s, Fresh(tied), peek);
    PushInLanes(s, Fresh(tied), peek, p, fragment);
  }

  /** What a queue that was empty holds after any pushes. */
  ghost predicate Pushed(s: Schedule, ops: seq<Op>, end: Schedule)
    requires Balanced(s)
    decreases |ops|
  {
    if ops == [] then
      s == end
    else
      ops[0].DoPush? && Allowed(s, ops[0]) && (ApplyBalanced(s, ops[0]); Pushed(Apply(s, ops[0]), ops[1..], end))
  }

  lemma {:induction false} PushesOnFresh(s: Schedule, tied: seq<nat>, ops: seq<Op>, end: Schedule)
    requires Balanced(s) && s.queue != [] && InLanes(s, Fresh(tied)) && Pushed(s, ops, end)
    ensures Balanced(end) && end.queue != [] && InLanes(end, Fresh(tied))
    decreases |ops|
  {
    hide InLanes, Balanced, NextWeight;
    if ops != [] {
      ApplyBalanced(s, ops[0]);
      PushOnFresh(s, tied, ops[0].peek, ops[0].priority, ops[0].fragment);
      PushesOnFresh(Apply(s, ops[0]), tied, ops[1..], end);
    }
  }

  /** Whatever is pushed after the queue has been empty, in whatever order: what is taken
      next is of the highest priority waiting. */
  lemma HighestPriorityFirst(s: Schedule, ops: seq<Op>, end: Schedule, i: nat)
    requires Balanced(s) && s.queue == [] && Pushed(s, ops, end) && IsMin(end.queue, i)
    ensures forall x <- end.queue :: end.queue[i].priority.Index() <= x.priority.Index()
    ensures end.queue[i].priority.Low? ==> forall x <- end.queue :: x.priority.Low?
    ensures (exists x <- end.queue :: x.priority.Immediate?) ==> end.queue[i].priority.Immediate?
  {
    hide InLanes, Balanced, NextWeight;
    assert ops != [];
    var tied := FreshAfter(s, ops, end);
    TopIsFront(end, Fresh(tied), i);
    forall x | x in end.queue
      ensures end.queue[i].priority.Index() <= x.priority.Index()
    {
      FrontIsLeast(end, Fresh(tied), x);
      assert First(end.queue[i].priority.Index()) <= First(x.priority.Index());
    }
  }

  lemma FreshAfter(s: Schedule, ops: seq<Op>, end: Schedule) returns (tied: seq<nat>)
    requires Balanced(s) && s.queue == [] && ops != [] && Pushed(s, ops, end)
    ensures Balanced(end) && InLanes(end, Fresh(tied))
  {
    hide InLanes, Balanced, NextWeight;
    tied := [0, 0, 0, 0];
    tied := tied[ops[0].priority.Index() := 1];
    ApplyBalanced(s, ops[0]);
    PushOnEmpty(s, ops[0].peek, ops[0].priority, ops[0].fragment);
    PushesOnFresh(Apply(s, ops[0]), tied, ops[1..], end);
  }

  // ---- shares ----

  /** Fragments of every priority are waiting. */
  predicate AllWaiting(s: Schedule) {
    forall p :: 0 <= p < 4 ==> Lane(s.queue, p) != []
  }

  lemma {:induction false} LaneRemove(queue: seq<Outgoing>, i: nat, p: nat)
    requires i < |queue|
    ensures var lane, j := Lane(queue, p), |Lane(queue[..i], p)|;
            if queue[i].priority.Index() == p then
              j < |lane| && lane[j] == queue[i].weight && Lane(RemoveAt(queue, i), p) == lane[..j] + lane[j + 1..]
            else
              Lane(RemoveAt(queue, i), p) == lane
  {
    var before, after := queue[..i], queue[i + 1..];
    assert queue == before + ([queue[i]] + after);
    LaneAppend(before, [queue[i]] + after, p);
    LaneAppend([queue[i]], after, p);
    LaneAppend(before, after, p);
    LaneOne(queue[i], p);
    assert Lane([queue[i]], p) + Lane(after, p) == if queue[i].priority.Index() == p then [queue[i].weight] + Lane(after, p) else Lane(after, p);
  }

  /** Where the lanes are after one more pop from lane `p`. */
  function Popped(l: Lanes, p: nat): Lanes
    requires p < 4 && |l.front| == |l.tied| == 4
  {
    if l.tied[p] > 0 then
      l.(tied := l.tied[p := 0])
    else
      l.(front := l.front[p := l.front[p] + Stride(p)])
  }

  lemma PopInLanes(s: Schedule, l: Lanes, i: nat)
    requires Balanced(s) && InLanes(s, l) && IsMin(s.queue, i) && AllWaiting(Pop(s, i))
    ensures InLanes(Pop(s, i), Popped(l, s.queue[i].priority.Index()))
  {
    hide Balanced, Lane, InLane;
    var p, s' := s.queue[i].priority.Index(), Pop(s, i);
    TopIsFront(s, l, i);
    forall q | 0 <= q < 4
      ensures InLane(s', Popped(l, p), q)
    {
      assert InLane(s, l, q);
      LaneRemove(s.queue, i, q);
      if q == p {
        PopInLane(s, l, i);
      } else {
        OtherInLane(s, s', l, Popped(l, p), q);
      }
    }
  }

  lemma OtherInLane(s: Schedule, s': Schedule, l: Lanes, l': Lanes, q: nat)
    requires q < 4 && |l.front| == |l.tied| == |l'.front| == |l'.tied| == |s.nextWeight| == 4 && InLane(s, l, q)
    requires Lane(s'.queue, q) == Lane(s.queue, q) && s'.nextWeight == s.nextWeight
    requires l'.front[q] == l.front[q] && l'.tied[q] == l.tied[q]
    ensures InLane(s', l', q)
  {
  }

  lemma PopInLane(s: Schedule, l: Lanes, i: nat)
    requires InLanes(s, l) && i < |s.queue| && s.queue[i].weight == l.front[s.queue[i].priority.Index()]
    requires AllWaiting(Pop(s, i))
    ensures var p := s.queue[i].priority.Index(); InLane(Pop(s, i), Popped(l, p), p)
  {
    hide Lane;
    var p, s' := s.queue[i].priority.Index(), Pop(s, i);
    var lane, j := Lane(s.queue, p), |Lane(s.queue[..i], p)|;
    assert InLane(s, l, p);
    LaneRemove(s.queue, i, p);
    FirstOrTied(l.front[p], l.tied[p], Stride(p), lane, j);
    assert Lane(s'.queue, p) == lane[1..] && Lane(s'.queue, p) != [];
    NextInLane(l.front[p], l.tied[p], Stride(p), lane, s.nextWeight[p]);
  }

  /** The least weight stands first, or second where the first two tie. */
  lemma FirstOrTied(front: nat, tied: nat, stride: nat, lane: seq<nat>, j: nat)
    requires stride > 0 && tied <= 1 && j < |lane| && lane[j] == front
    requires forall i :: 0 <= i < |lane| ==> lane[i] == front + (if i >= tied then i - tied else 0) * stride
    ensures lane[..j] + lane[j + 1..] == lane[1..]
  {
    assert j > tied ==> (j - tied) * stride >= stride;
  }

  lemma NextInLane(front: nat, tied: nat, stride: nat, lane: seq<nat>, next: nat)
    requires tied <= 1 && lane != [] && |lane| > 1
    requires forall i :: 0 <= i < |lane| ==> lane[i] == front + (if i >= tied then i - tied else 0) * stride
    requires next == front + (|lane| - tied) * stride
    ensures var front' := if tied > 0 then front else front + stride;
            && (forall i :: 0 <= i < |lane| - 1 ==> lane[1..][i] == front' + i * stride)
            && next == front' + (|lane| - 1) * stride
  {
    forall i | 0 <= i < |lane| - 1
      ensures lane[1..][i] == (if tied > 0 then front else front + stride) + i * stride
    {
      assert lane[1..][i] == lane[i + 1];
      assert (i + 1) * stride == i * stride + stride;
    }
    assert |lane| * stride == (|lane| - 1) * stride + stride;
  }

  /** A run of pushes and pops in which no priority ever runs dry. */
  ghost predicate Busy(s: Schedule, ops: seq<Op>, end: Schedule)
    requires Balanced(s)
    decreases |ops|
  {
    && AllWaiting(s)
    && if ops == [] then
         s == end
       else
         Allowed(s, ops[0]) && (ApplyBalanced(s, ops[0]); Busy(Apply(s, ops[0]), ops[1..], end))
  }

  /** How many of the pops took a fragment of this priority. */
  ghost function PopsOf(s: Schedule, ops: seq<Op>, p: nat): nat
    requires Balanced(s)
    decreases |ops|
  {
    if ops == [] || !Allowed(s, ops[0]) then
      0
    else
      (if ops[0].DoPop? && s.queue[ops[0].i].priority.Index() == p then 1 else 0)
      + (ApplyBalanced(s, ops[0]); PopsOf(Apply(s, ops[0]), ops[1..], p))
  }

  function After(s: Schedule, l: Lanes, op: Op): Lanes
    requires |l.front| == |l.tied| == 4 && Allowed(s, op)
  {
    if op.DoPop? then Popped(l, s.queue[op.i].priority.Index()) else l
  }

  lemma OpInLanes(s: Schedule, l: Lanes, op: Op)
    requires Balanced(s) && InLanes(s, l) && Allowed(s, op) && AllWaiting(s) && AllWaiting(Apply(s, op))
    ensures InLanes(Apply(s, op), After(s, l, op))
  {
    match op
    case DoPush(peek, p, fragment) =>
      SomethingWaits(s);
      TopIsFront(s, l, peek);
      assert InLane(s, l, p.Index());
      assert (|Lane(s.queue, p.Index())| - l.tied[p.Index()]) * Stride(p.Index()) >= 0;
      PushInLanes(s, l, peek, p, fragment);
    case DoPop(i) =>
      PopInLanes(s, l, i);
  }

  lemma SomethingWaits(s: Schedule)
    requires AllWaiting(s)
    ensures s.queue != []
  {
    assert Lane([], 0) == [];
    assert Lane(s.queue, 0) != [];
  }

  /** The front of each lane moves up a stride with each pop, but for one pop if two tie;
      and none gets more than a stride ahead of another, if it was not to begin with. */
  lemma {:induction false} LanesMove(s: Schedule, l: Lanes, ops: seq<Op>, end: Schedule, p: nat, q: nat, lead: nat) returns (l': Lanes)
    requires Balanced(s) && InLanes(s, l) && Busy(s, ops, end) && p < 4 && q < 4
    requires lead >= Stride(p) && l.front[p] <= l.front[q] + lead
    ensures |l'.front| == |l'.tied| == 4
    ensures l'.front[p] <= l'.front[q] + lead
    ensures l'.front[p] + l.tied[p] * Stride(p) >= l.front[p] + PopsOf(s, ops, p) * Stride(p)
    ensures l'.front[q] <= l.front[q] + PopsOf(s, ops, q) * Stride(q)
    decreases |ops|
  {
    hide InLanes, Balanced, NextWeight, AllWaiting;
    InLanesHasFour(s, l);
    if ops == [] {
      l' := l;
      assert l.tied[p] * Stride(p) >= 0;
    } else {
      var op := ops[0];
      ApplyBalanced(s, op);
      BusyWaits(s, ops, end);
      OpInLanes(s, l, op);
      var l1 := After(s, l, op);
      OneMove(s, l, op, p, q, lead);
      l' := LanesMove(Apply(s, op), l1, ops[1..], end, p, q, lead);
      Moves(l, l1, l', op.DoPop? && s.queue[op.i].priority.Index() == p, p, PopsOf(Apply(s, op), ops[1..], p));
      Shifts(l, l1, l', op.DoPop? && s.queue[op.i].priority.Index() == q, q, PopsOf(Apply(s, op), ops[1..], q));
    }
  }

  lemma InLanesHasFour(s: Schedule, l: Lanes)
    requires InLanes(s, l)
    ensures |l.front| == |l.tied| == 4 && forall p :: 0 <= p < 4 ==> l.tied[p] <= 1
  {
    forall p | 0 <= p < 4
      ensures l.tied[p] <= 1
    {
      assert InLane(s, l, p);
    }
  }

  lemma BusyWaits(s: Schedule, ops: seq<Op>, end: Schedule)
    requires Balanced(s) && Busy(s, ops, end) && ops != []
    ensures Allowed(s, ops[0]) && AllWaiting(s) && AllWaiting(Apply(s, ops[0]))
  {
    ApplyBalanced(s, ops[0]);
  }

  lemma OneMove(s: Schedule, l: Lanes, op: Op, p: nat, q: nat, lead: nat)
    requires InLanes(s, l) && Allowed(s, op) && AllWaiting(s) && p < 4 && q < 4
    requires lead >= Stride(p) && l.front[p] <= l.front[q] + lead
    ensures var l' := After(s, l, op);
            && l'.front[p] <= l'.front[q] + lead
            && (var hit := op.DoPop? && s.queue[op.i].priority.Index() == p;
                && (if hit && l.tied[p] == 0 then l'.front[p] == l.front[p] + Stride(p) else l'.front[p] == l.front[p])
                && l'.tied[p] == if hit then 0 else l.tied[p])
            && (var hit := op.DoPop? && s.queue[op.i].priority.Index() == q;
                if hit && l.tied[q] == 0 then l'.front[q] == l.front[q] + Stride(q) else l'.front[q] == l.front[q])
  {
    InLanesHasFour(s, l);
    if op.DoPop? {
      TopIsFront(s, l, op.i);
      assert Lane(s.queue, q) != [];
    }
  }

  lemma Moves(l: Lanes, l1: Lanes, l': Lanes, hit: bool, p: nat, pops: nat)
    requires p < 4 && |l.front| == |l.tied| == |l1.front| == |l1.tied| == |l'.front| == |l'.tied| == 4 && l.tied[p] <= 1
    requires if hit && l.tied[p] == 0 then l1.front[p] == l.front[p] + Stride(p) else l1.front[p] == l.front[p]
    requires l1.tied[p] == if hit then 0 else l.tied[p]
    requires l'.front[p] + l1.tied[p] * Stride(p) >= l1.front[p] + pops * Stride(p)
    ensures l'.front[p] + l.tied[p] * Stride(p) >= l.front[p] + (pops + if hit then 1 else 0) * Stride(p)
  {
    assert (pops + 1) * Stride(p) == pops * Stride(p) + Stride(p);
  }

  lemma Shifts(l: Lanes, l1: Lanes, l': Lanes, hit: bool, q: nat, pops: nat)
    requires q < 4 && |l.front| == |l1.front| == |l'.front| == |l.tied| == 4
    requires if hit && l.tied[q] == 0 then l1.front[q] == l.front[q] + Stride(q) else l1.front[q] == l.front[q]
    requires l'.front[q] <= l1.front[q] + pops * Stride(q)
    ensures l'.front[q] <= l.front[q] + (pops + if hit then 1 else 0) * Stride(q)
  {
    assert (pops + 1) * Stride(q) == pops * Stride(q) + Stride(q);
  }

  /** From an empty queue on, as soon as fragments of every priority wait and for as long as
      none runs dry, the pops are shared out as 1/3 to 1/10 to 1/27 to 1/68, up to a
      constant: counted in strides, no priority gets more than two ahead of another. */
  lemma FairShares(empty: Schedule, pushes: seq<Op>, s: Schedule, ops: seq<Op>, end: Schedule, p: nat, q: nat)
    requires Balanced(empty) && empty.queue == [] && Pushed(empty, pushes, s)
    requires Balanced(s) && Busy(s, ops, end) && p < 4 && q < 4
    ensures PopsOf(s, ops, p) * Stride(p) + First(p) <= PopsOf(s, ops, q) * Stride(q) + First(q) + 2 * Stride(p)
  {
    hide InLanes, Balanced, NextWeight;
    SomethingWaits(s);
    assert pushes != [];
    var tied := FreshAfter(empty, pushes, s);
    InLanesHasFour(s, Fresh(tied));
    var l := LanesMove(s, Fresh(tied), ops, end, p, q, Stride(p));
    assert tied[p] * Stride(p) <= Stride(p);
  }

  // ---- what send and update do to the heap ----

  lemma {:induction false} PushedBalanced(s: Schedule, ops: seq<Op>, end: Schedule)
    requires Balanced(s) && Pushed(s, ops, end)
    ensures Balanced(end)
    decreases |ops|
  {
    hide Balanced, Push;
    if ops != [] {
      ApplyBalanced(s, ops[0]);
      PushedBalanced(Apply(s, ops[0]), ops[1..], end);
    }
  }

  lemma {:induction false} PushedSnoc(s: Schedule, ops: seq<Op>, mid: Schedule, op: Op)
    requires Balanced(s) && Pushed(s, ops, mid) && op.DoPush? && Balanced(mid) && Allowed(mid, op)
    ensures Pushed(s, ops + [op], Apply(mid, op))
    decreases |ops|
  {
    hide Balanced, Push;
    ApplyBalanced(mid, op);
    if ops == [] {
      assert (ops + [op])[1..] == [];
    } else {
      ApplyBalanced(s, ops[0]);
      PushedSnoc(Apply(s, ops[0]), ops[1..], mid, op);
      assert (ops + [op])[1..] == ops[1..] + [op];
    }
  }

  function PushOps(peeks: seq<nat>, p: Priority, fs: seq<Fragment>): (ops: seq<Op>)
    requires |peeks| == |fs|
    ensures |ops| == |fs|
  {
    seq(|fs|, i requires 0 <= i < |fs| => DoPush(peeks[i], p, fs[i]))
  }

  lemma {:induction false} PushAllIsPushes(s: Schedule, peeks: seq<nat>, p: Priority, fs: seq<Fragment>)
    requires Senders.CanPushAll(s, peeks, p, fs)
    ensures |peeks| == |fs| && Balanced(s) && Pushed(s, PushOps(peeks, p, fs), Senders.PushAll(s, peeks, p, fs))
    decreases |fs|
  {
    hide Balanced, Push;
    if fs != [] {
      var n := |fs| - 1;
      PushAllIsPushes(s, peeks[..n], p, fs[..n]);
      PushedSnoc(s, PushOps(peeks[..n], p, fs[..n]), Senders.PushAll(s, peeks[..n], p, fs[..n]), DoPush(peeks[n], p, fs[n]));
      assert PushOps(peeks, p, fs) == PushOps(peeks[..n], p, fs[..n]) + [DoPush(peeks[n], p, fs[n])];
    }
  }

  /** What `send` does to the heap: it pushes the fragments of the message one by one, all
      with the priority it was given. */
  lemma SendIsPushes(s: Senders.Sender, peeks: seq<nat>, p: Priority, reliability: Reliability, channel: byte, data: Bytes)
    requires Senders.CanSend(s, peeks, p, reliability, channel, data)
    ensures var fs := Senders.Outbound(s, Senders.Whole(s, reliability, channel, data));
            && |peeks| == |fs| && Balanced(s.schedule)
            && Pushed(s.schedule, PushOps(peeks, p, fs), Senders.Sent(s, peeks, p, reliability, channel, data).schedule)
  {
    hide Senders.PushAll, Senders.Outbound, Balanced;
    PushAllIsPushes(s.schedule, peeks, p, Senders.Outbound(s, Senders.Whole(s, reliability, channel, data)));
  }

  /** A run of pushes and pops. */
  ghost predicate Ran(s: Schedule, ops: seq<Op>, end: Schedule)
    requires Balanced(s)
    decreases |ops|
  {
    if ops == [] then
      s == end
    else
      Allowed(s, ops[0]) && (ApplyBalanced(s, ops[0]); Ran(Apply(s, ops[0]), ops[1..], end))
  }

  lemma {:induction false} RanSnoc(s: Schedule, ops: seq<Op>, mid: Schedule, op: Op)
    requires Balanced(s) && Ran(s, ops, mid) && Balanced(mid) && Allowed(mid, op)
    ensures Ran(s, ops + [op], Apply(mid, op))
    decreases |ops|
  {
    hide Balanced, Push;
    ApplyBalanced(mid, op);
    if ops == [] {
      assert (ops + [op])[1..] == [];
    } else {
      ApplyBalanced(s, ops[0]);
      RanSnoc(Apply(s, ops[0]), ops[1..], mid, op);
      assert (ops + [op])[1..] == ops[1..] + [op];
    }
  }

  function PopOps(picks: seq<nat>): (ops: seq<Op>)
    ensures |ops| == |picks|
  {
    seq(|picks|, i requires 0 <= i < |picks| => DoPop(picks[i]))
  }

  /** What a transmission does to the heap: it pops the lightest, again and again. */
  lemma {:induction false} PicksArePops(s: Schedule, picks: seq<nat>)
    requires Balanced(s) && Senders.ValidPicks(s.queue, picks)
    ensures Balanced(s.(queue := Senders.Left(s.queue, picks)))
    ensures Ran(s, PopOps(picks), s.(queue := Senders.Left(s.queue, picks)))
    decreases |picks|
  {
    hide Balanced, RemoveAt;
    if picks == [] {
      assert s.(queue := s.queue) == s;
    } else {
      var n := |picks| - 1;
      var mid := s.(queue := Senders.Left(s.queue, picks[..n]));
      PicksArePops(s, picks[..n]);
      ApplyBalanced(mid, DoPop(picks[n]));
      RanSnoc(s, PopOps(picks[..n]), mid, DoPop(picks[n]));
      assert PopOps(picks) == PopOps(picks[..n]) + [DoPop(picks[n])];
    }
  }

  lemma UpdateIsPops(r: SenderRuns.Run, a: SenderRuns.Action)
    requires Balanced(r.sender.schedule) && a.DoUpdate? && SenderRuns.Enabled(r, a)
    ensures Ran(r.sender.schedule, PopOps(a.picks), SenderRuns.Step(r, a).sender.schedule)
  {
    hide Senders.Left, Senders.Popped, Balanced;
    PicksArePops(r.sender.schedule, a.picks);
  }
}
