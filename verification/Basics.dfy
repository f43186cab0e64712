/** Types and arithmetic shared by the model of the reliability layer. */
module Basics {
  type byte = x: int | 0 <= x < 256

  /** A payload or an encoded datagram. */
  type Bytes = seq<byte>

  datatype Option<+T> = None | Some(value: T)

  /** `Panic` stands for an arithmetic overflow or an index out of bounds, which
      abort the overflow-checked build; the other three are the crate's own errors. */
  datatype Error = BufferOverflow | InvalidData | NotEnoughData | Panic

  datatype Result<+T> = Ok(value: T) | Err(error: Error) {
    predicate IsFailure() {
      Err?
    }

    function PropagateFailure<U>(): Result<U>
      requires Err?
    {
      Err(error)
    }

    function Extract(): T
      requires Ok?
    {
      value
    }
  }

  function Max(a: nat, b: nat): nat {
    if a < b then b else a
  }

  /** The numbers lo, lo + 1, ..., hi - 1. */
  function Range(lo: nat, hi: nat): (r: seq<nat>)
    requires lo <= hi
    ensures |r| == hi - lo && forall i :: 0 <= i < |r| ==> r[i] == lo + i
  {
    seq(hi - lo, i requires 0 <= i => lo + i)
  }

  predicate Distinct<T(==)>(s: seq<T>) {
    forall i, j :: 0 <= i < j < |s| ==> s[i] != s[j]
  }

  lemma TakeTail<T>(s: seq<T>, count: nat)
    requires 0 < count <= |s|
    ensures s[..count] == [s[0]] + s[1..][..count - 1]
    ensures s[..count][1..] == s[1..][..count - 1]
    ensures s[count..] == s[1..][count - 1..]
  {
  }

  function Join<T>(parts: seq<seq<T>>): seq<T> {
    if parts == [] then [] else parts[0] + Join(parts[1..])
  }

  lemma {:induction false} JoinAppend<T>(a: seq<seq<T>>, b: seq<seq<T>>)
    ensures Join(a + b) == Join(a) + Join(b)
  {
    if a == [] {
      assert a + b == b;
    } else {
      assert (a + b)[0] == a[0] && (a + b)[1..] == a[1..] + b;
      JoinAppend(a[1..], b);
    }
  }

  lemma JoinLast<T>(parts: seq<seq<T>>)
    requires parts != []
    ensures Join(parts) == Join(parts[..|parts| - 1]) + parts[|parts| - 1]
  {
    JoinSnoc(parts[..|parts| - 1], parts[|parts| - 1]);
    assert parts == parts[..|parts| - 1] + [parts[|parts| - 1]];
  }

  lemma JoinSnoc<T>(a: seq<seq<T>>, last: seq<T>)
    ensures Join(a + [last]) == Join(a) + last
  {
    JoinAppend(a, [last]);
    assert Join([last]) == last + Join([last][1..]) == last;
  }
}

/** A ring of `size` slots standing for the index range [start, start + size). */
module Rings {
  /** The index in [start, start + size) that shares a ring slot with `index`. */
  function Alias(start: nat, size: nat, index: nat): (a: nat)
    requires size > 0
    ensures start <= a < start + size
    ensures start <= index < start + size ==> a == index
  {
    if start <= index < start + size then
      index
    else
      start + (index - start) % size
  }

  lemma MultipleApart(size: nat, q: int)
    ensures q >= 1 ==> size * q >= size
    ensures q <= -1 ==> size * q <= -(size as int)
  {
  }

  lemma ModOf(n: nat, size: nat, q: nat, r: nat)
    requires n == size * q + r && r < size
    ensures n % size == r
  {
    var d := n / size - q;
    assert n == size * (n / size) + n % size;
    assert r - n % size == size * d;
    MultipleApart(size, d);
  }

  lemma SameSlotApart(a: nat, b: nat, size: nat)
    requires size > 0 && a % size == b % size && a <= b < a + size
    ensures a == b
  {
    var q := b / size - a / size;
    assert b - a == size * q;
    MultipleApart(size, q);
  }

  lemma ModShift(a: int, size: nat, k: int)
    requires size > 0
    ensures (a + size * k) % size == a % size
  {
    var q, r := a / size, a % size;
    var q', r' := (a + size * k) / size, (a + size * k) % size;
    assert r' - r == size * (q + k - q');
    var d := q + k - q';
    MultipleApart(size, d);
  }

  lemma AliasSlot(start: nat, size: nat, index: nat)
    requires size > 0
    ensures Alias(start, size, index) % size == index % size
  {
    var q := (index - start) / size;
    assert start + (index - start) % size == index + size * (-q);
    ModShift(index, size, -q);
  }

  /** Distinct indices of one window never share a slot. */
  lemma SlotsDiffer(start: nat, size: nat)
    requires size > 0
    ensures forall i, j :: start <= i < start + size && start <= j < start + size && i % size == j % size ==> i == j
  {
    forall i, j | start <= i < start + size && start <= j < start + size && i % size == j % size
      ensures i == j
    {
      if i <= j {
        SameSlotApart(i, j, size);
      } else {
        SameSlotApart(j, i, size);
      }
    }
  }

  lemma DivMonotone(a: nat, b: nat, step: nat)
    requires step > 0 && a <= b
    ensures a / step <= b / step
  {
    var q := a / step - b / step;
    assert a - b == step * q + (a % step - b % step);
    MultipleApart(step, q);
  }

  lemma DivStep(a: nat, step: nat)
    requires step > 0
    ensures (a + step) / step == a / step + 1
  {
    var q := (a + step) / step - a / step - 1;
    assert a + step - step * ((a + step) / step) == (a + step) % step;
    assert step * q == step * ((a + step) / step) - step * (a / step) - step;
    MultipleApart(step, q);
  }
}
