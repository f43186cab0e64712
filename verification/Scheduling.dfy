/** The weighted priority queue of outgoing fragments (src/reliability/layer.rs).

    The heap is a bag: taking from it removes any element of minimum weight, so
    what is proved holds for every way of breaking ties. */
module Scheduling {
  import opened Basics
  import opened Datagrams
  import opened Rings

  datatype Outgoing = Outgoing(weight: nat, priority: Priority, fragment: Fragment)

  function Shl1(p: nat): nat {
    if p == 0 then 1 else 2 * Shl1(p - 1)
  }

  function PriorityFactor(p: nat): nat {
    Shl1(p) * p + p
  }

  lemma PriorityFactors()
    ensures PriorityFactor(0) == 0 && PriorityFactor(1) == 3 && PriorityFactor(2) == 10
    ensures PriorityFactor(3) == 27 && PriorityFactor(4) == 68
  {
    assert Shl1(1) == 2 && Shl1(2) == 4;
    assert Shl1(3) == 8 && Shl1(4) == 16;
  }

  const PRIORITY_COUNT: nat := 4

  datatype Schedule = Schedule(queue: seq<Outgoing>, nextWeight: seq<nat>)

  predicate IsMin(queue: seq<Outgoing>, i: nat) {
    i < |queue| && forall j :: 0 <= j < |queue| ==> queue[i].weight <= queue[j].weight
  }

  function RemoveAt(queue: seq<Outgoing>, i: nat): seq<Outgoing>
    requires i < |queue|
  {
    queue[..i] + queue[i + 1..]
  }

  function InitWeights(): (w: seq<nat>)
    ensures |w| == PRIORITY_COUNT
  {
    [PriorityFactor(0), PriorityFactor(1), PriorityFactor(2), PriorityFactor(3)]
  }

  /** What every run keeps: no weight is below its priority's factor, which is why the
      subtraction in `NextWeight` does not go below zero, and the next weight of a
      priority is not below any weight it has in the queue. */
  ghost predicate Balanced(s: Schedule) {
    && |s.nextWeight| == PRIORITY_COUNT
    && (forall x <- s.queue :: PriorityFactor(x.priority.Index()) <= x.weight <= s.nextWeight[x.priority.Index()])
    && (s.queue != [] ==> forall q :: 0 <= q < PRIORITY_COUNT ==> PriorityFactor(q) <= s.nextWeight[q])
  }

  /** The weight given to the next fragment of priority `p`, and the weights kept for
      later. `peek` is the element at the top of the heap. */
  function NextWeight(s: Schedule, peek: nat, p: Priority): (nat, seq<nat>)
    requires |s.nextWeight| == PRIORITY_COUNT
    requires s.queue != [] ==>
               peek < |s.queue| && PriorityFactor(s.queue[peek].priority.Index()) <= s.queue[peek].weight
  {
    if s.queue == [] then
      (InitWeights()[p.Index()], InitWeights())
    else
      var current := s.nextWeight[p.Index()];
      var top := s.queue[peek];
      var minWeight := top.weight - PriorityFactor(top.priority.Index());
      var weight := if current < minWeight then minWeight + PriorityFactor(p.Index()) else current;
      (weight, s.nextWeight[p.Index() := weight + PriorityFactor(p.Index() + 1)])
  }

  /** Whether `peek` may be the top of the heap (anything, when the heap is empty). */
  predicate Peeks(queue: seq<Outgoing>, peek: nat) {
    queue != [] ==> IsMin(queue, peek)
  }

  function Push(s: Schedule, peek: nat, p: Priority, fragment: Fragment): Schedule
    requires Balanced(s) && Peeks(s.queue, peek)
  {
    var (weight, nextWeight) := NextWeight(s, peek, p);
    Schedule(s.queue + [Outgoing(weight, p, fragment)], nextWeight)
  }

  function Pop(s: Schedule, i: nat): Schedule
    requires i < |s.queue|
  {
    s.(queue := RemoveAt(s.queue, i))
  }

  lemma PushBalanced(s: Schedule, peek: nat, p: Priority, fragment: Fragment)
    requires Balanced(s) && Peeks(s.queue, peek)
    ensures Balanced(Push(s, peek, p, fragment))
  {
    PriorityFactors();
    var s' := Push(s, peek, p, fragment);
    forall x | x in s'.queue
      ensures PriorityFactor(x.priority.Index()) <= x.weight <= s'.nextWeight[x.priority.Index()]
    {
      if x !in s.queue {
        assert x == s'.queue[|s.queue|];
      }
    }
  }

  /** While the queue is not empty, a new fragment never gets a lower weight than one
      of its own priority that is already waiting. */
  lemma WeightsNeverDecrease(s: Schedule, peek: nat, p: Priority, fragment: Fragment)
    requires Balanced(s) && IsMin(s.queue, peek)
    ensures var weight := NextWeight(s, peek, p).0;
            && s.queue[peek].weight - PriorityFactor(s.queue[peek].priority.Index()) <= weight
            && forall x <- s.queue :: x.priority == p ==> x.weight <= weight
    ensures forall q: Priority :: s.nextWeight[q.Index()] <= Push(s, peek, p, fragment).nextWeight[q.Index()]
  {
    PriorityFactors();
  }

  lemma PopBalanced(s: Schedule, i: nat)
    requires Balanced(s) && i < |s.queue|
    ensures Balanced(Pop(s, i))
  {
  }

  // ---- no starvation ----

  /** How many weights a priority can still hand out at or below `w`. */
  function Available(next: nat, step: nat, w: nat): nat
    requires step > 0
  {
    if next <= w then (w - next) / step + 1 else 0
  }

  /** How many queued fragments have weight at most `w`. */
  function CountUpTo(queue: seq<Outgoing>, w: nat): nat {
    if queue == [] then 0 else (if queue[0].weight <= w then 1 else 0) + CountUpTo(queue[1..], w)
  }

  lemma {:induction false} CountAppend(a: seq<Outgoing>, b: seq<Outgoing>, w: nat)
    ensures CountUpTo(a + b, w) == CountUpTo(a, w) + CountUpTo(b, w)
  {
    if a == [] {
      assert a + b == b;
    } else {
      assert (a + b)[0] == a[0] && (a + b)[1..] == a[1..] + b;
      CountAppend(a[1..], b, w);
    }
  }

  lemma CountRemove(queue: seq<Outgoing>, i: nat, w: nat)
    requires i < |queue|
    ensures CountUpTo(queue, w) == CountUpTo(RemoveAt(queue, i), w) + if queue[i].weight <= w then 1 else 0
  {
    var before, after := queue[..i], queue[i + 1..];
    assert queue == before + ([queue[i]] + after);
    CountAppend(before, [queue[i]] + after, w);
    CountAppend([queue[i]], after, w);
    CountAppend(before, after, w);
    assert CountUpTo([queue[i]][1..], w) == 0;
  }

  /** What can still be taken before a fragment of weight `w` has to be: everything
      queued at or below `w`, and all that may yet be pushed at or below it. */
  function Ahead(s: Schedule, w: nat): nat
    requires |s.nextWeight| == PRIORITY_COUNT
  {
    CountUpTo(s.queue, w)
    + Available(s.nextWeight[0], 3, w) + Available(s.nextWeight[1], 10, w)
    + Available(s.nextWeight[2], 27, w) + Available(s.nextWeight[3], 68, w)
  }

  lemma AvailableFalls(next: nat, weight: nat, step: nat, w: nat)
    requires step > 0 && next <= weight
    ensures Available(weight + step, step, w) + (if weight <= w then 1 else 0) <= Available(next, step, w)
  {
    if weight <= w {
      DivMonotone(w - weight, w - next, step);
      if weight + step <= w {
        DivStep(w - weight - step, step);
      }
    }
  }

  /** A push while something waits never adds to what is ahead. */
  lemma PushAhead(s: Schedule, peek: nat, p: Priority, fragment: Fragment, w: nat)
    requires Balanced(s) && IsMin(s.queue, peek)
    ensures |Push(s, peek, p, fragment).nextWeight| == PRIORITY_COUNT
    ensures Ahead(Push(s, peek, p, fragment), w) <= Ahead(s, w)
  {
    PriorityFactors();
    var (weight, _) := NextWeight(s, peek, p);
    var item := Outgoing(weight, p, fragment);
    CountAppend(s.queue, [item], w);
    assert CountUpTo([item][1..], w) == 0;
    AvailableFalls(s.nextWeight[p.Index()], weight, PriorityFactor(p.Index() + 1), w);
  }

  /** A pop takes exactly one fragment from what is ahead. */
  lemma PopAhead(s: Schedule, i: nat, x: nat)
    requires Balanced(s) && IsMin(s.queue, i) && x < |s.queue|
    ensures var w := s.queue[x].weight; Ahead(Pop(s, i), w) + 1 == Ahead(s, w)
  {
    CountRemove(s.queue, i, s.queue[x].weight);
  }

  datatype Op = DoPush(peek: nat, priority: Priority, fragment: Fragment) | DoPop(i: nat)

  predicate Allowed(s: Schedule, op: Op) {
    match op
    case DoPush(peek, _, _) => Peeks(s.queue, peek)
    case DoPop(i) => IsMin(s.queue, i)
  }

  function Apply(s: Schedule, op: Op): Schedule
    requires Balanced(s) && Allowed(s, op)
  {
    match op
    case DoPush(peek, p, fragment) => Push(s, peek, p, fragment)
    case DoPop(i) => Pop(s, i)
  }

  lemma ApplyBalanced(s: Schedule, op: Op)
    requires Balanced(s) && Allowed(s, op)
    ensures Balanced(Apply(s, op))
  {
    match op
    case DoPush(peek, p, fragment) => PushBalanced(s, peek, p, fragment);
    case DoPop(i) => PopBalanced(s, i);
  }

  /** Where the fragment at position `x` is after one operation that does not take it. */
  function Moved(x: nat, op: Op): nat {
    if op.DoPop? && op.i < x then x - 1 else x
  }

  /** A run of operations during which the fragment at position `x` keeps waiting. */
  ghost predicate Waits(s: Schedule, x: nat, ops: seq<Op>)
    requires Balanced(s)
    decreases |ops|
  {
    && x < |s.queue|
    && (ops != [] ==>
          && Allowed(s, ops[0])
          && ops[0] != DoPop(x)
          && (ApplyBalanced(s, ops[0]); Waits(Apply(s, ops[0]), Moved(x, ops[0]), ops[1..])))
  }

  function Pops(ops: seq<Op>): nat {
    if ops == [] then 0 else (if ops[0].DoPop? then 1 else 0) + Pops(ops[1..])
  }

  /** However fragments of any priority keep arriving, a waiting fragment is overtaken
      fewer times than the bound fixed when one starts counting. */
  lemma {:induction false} NoStarvation(s: Schedule, x: nat, ops: seq<Op>)
    requires Balanced(s) && Waits(s, x, ops)
    ensures Pops(ops) < Ahead(s, s.queue[x].weight)
    decreases |ops|
  {
    var w := s.queue[x].weight;
    if ops == [] {
      CountRemove(s.queue, x, w);
    } else {
      match ops[0] {
        case DoPush(peek, p, fragment) => PushAhead(s, peek, p, fragment, w);
        case DoPop(i) => PopAhead(s, i, x);
      }
      ApplyBalanced(s, ops[0]);
      var s', x' := Apply(s, ops[0]), Moved(x, ops[0]);
      assert s'.queue[x'] == s.queue[x];
      NoStarvation(s', x', ops[1..]);
    }
  }
}
