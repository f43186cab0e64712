/** Finding the k-th smallest of a list, and the arrival rate it is for
    (src/reliability/congestion_controller/udt.rs:203-262), over reals. */
module Medians {
  import opened Basics

  // ---- the k-th smallest ----

  function CountLess(list: seq<real>, x: real): nat {
    if list == [] then 0 else CountLess(list[..|list| - 1], x) + if list[|list| - 1] < x then 1 else 0
  }

  function CountAtMost(list: seq<real>, x: real): nat {
    if list == [] then 0 else CountAtMost(list[..|list| - 1], x) + if list[|list| - 1] <= x then 1 else 0
  }

  /** At most `k` elements are smaller than `x`, and more than `k` are no larger. */
  predicate IsKth(list: seq<real>, k: nat, x: real) {
    CountLess(list, x) <= k < CountAtMost(list, x)
  }

  lemma {:induction false} CountsGrow(list: seq<real>, x: real, y: real)
    requires x < y
    ensures CountAtMost(list, x) <= CountLess(list, y)
  {
    if list != [] {
      CountsGrow(list[..|list| - 1], x, y);
    }
  }

  lemma KthIsUnique(list: seq<real>, k: nat, x: real, y: real)
    requires IsKth(list, k, x) && IsKth(list, k, y)
    ensures x == y
  {
    if x < y {
      CountsGrow(list, x, y);
    } else if y < x {
      CountsGrow(list, y, x);
    }
  }

  lemma {:induction false} CountsAppend(a: seq<real>, b: seq<real>, x: real)
    ensures CountLess(a + b, x) == CountLess(a, x) + CountLess(b, x)
    ensures CountAtMost(a + b, x) == CountAtMost(a, x) + CountAtMost(b, x)
  {
    if b == [] {
      assert a + b == a;
    } else {
      CountsAppend(a, b[..|b| - 1], x);
      assert (a + b)[..|a + b| - 1] == a + b[..|b| - 1];
    }
  }

  lemma CountsRemove(b: seq<real>, i: nat, x: real)
    requires i < |b|
    ensures var rest := b[..i] + b[i + 1..];
            && multiset(rest) == multiset(b) - multiset{b[i]}
            && CountLess(b, x) == CountLess(rest, x) + CountLess([b[i]], x)
            && CountAtMost(b, x) == CountAtMost(rest, x) + CountAtMost([b[i]], x)
  {
    assert b == b[..i] + ([b[i]] + b[i + 1..]);
    CountsAppend(b[..i], [b[i]] + b[i + 1..], x);
    CountsAppend([b[i]], b[i + 1..], x);
    CountsAppend(b[..i], b[i + 1..], x);
  }

  lemma {:induction false} CountsPermute(a: seq<real>, b: seq<real>, x: real)
    requires multiset(a) == multiset(b)
    ensures CountLess(a, x) == CountLess(b, x) && CountAtMost(a, x) == CountAtMost(b, x)
    decreases |a|
  {
    hide CountLess, CountAtMost;
    if a == [] {
      assert |b| == |multiset(b)| == |multiset(a)|;
    } else {
      assert a[0] in multiset(b);
      var i: nat :| i < |b| && b[i] == a[0];
      CountsRemove(a, 0, x);
      CountsRemove(b, i, x);
      CountsPermute(a[..0] + a[1..], b[..i] + b[i + 1..], x);
    }
  }

  predicate Sorted(list: seq<real>) {
    forall i, j :: 0 <= i < j < |list| ==> list[i] <= list[j]
  }

  lemma {:induction false} CountBounds(list: seq<real>, x: real)
    ensures (forall i :: 0 <= i < |list| ==> x <= list[i]) ==> CountLess(list, x) == 0
    ensures (forall i :: 0 <= i < |list| ==> list[i] <= x) ==> CountAtMost(list, x) == |list|
    ensures CountLess(list, x) <= |list|
  {
    if list != [] {
      CountBounds(list[..|list| - 1], x);
      assert forall i :: 0 <= i < |list| - 1 ==> list[i] == list[..|list| - 1][i];
    }
  }

  lemma FewBefore(sorted: seq<real>, k: nat)
    requires Sorted(sorted) && k < |sorted|
    ensures CountLess(sorted, sorted[k]) <= k
  {
    hide CountLess, CountAtMost;
    assert sorted == sorted[..k] + sorted[k..];
    CountsAppend(sorted[..k], sorted[k..], sorted[k]);
    CountBounds(sorted[..k], sorted[k]);
    CountBounds(sorted[k..], sorted[k]);
  }

  lemma EnoughUpTo(sorted: seq<real>, k: nat)
    requires Sorted(sorted) && k < |sorted|
    ensures k < CountAtMost(sorted, sorted[k])
  {
    hide CountLess, CountAtMost;
    assert sorted == sorted[..k + 1] + sorted[k + 1..];
    CountsAppend(sorted[..k + 1], sorted[k + 1..], sorted[k]);
    CountBounds(sorted[..k + 1], sorted[k]);
  }

  /** The k-th element is the one a sort would leave at position `k`, and no other. */
  lemma KthOfSorted(list: seq<real>, sorted: seq<real>, k: nat, x: real)
    requires multiset(list) == multiset(sorted) && Sorted(sorted) && k < |sorted|
    ensures IsKth(list, k, x) <==> x == sorted[k]
  {
    FewBefore(sorted, k);
    EnoughUpTo(sorted, k);
    CountsPermute(list, sorted, sorted[k]);
    if IsKth(list, k, x) {
      KthIsUnique(list, k, x, sorted[k]);
    }
  }

  // ---- partition ----

  function Below(list: seq<real>, pivot: real): (r: seq<real>)
    ensures |r| == CountLess(list, pivot)
  {
    if list == [] then [] else
      var n := |list| - 1;
      Below(list[..n], pivot) + if list[n] < pivot then [list[n]] else []
  }

  function Above(list: seq<real>, pivot: real): (r: seq<real>)
    ensures |r| + CountAtMost(list, pivot) == |list|
  {
    if list == [] then [] else
      var n := |list| - 1;
      Above(list[..n], pivot) + if list[n] > pivot then [list[n]] else []
  }

  lemma CountsSnoc(list: seq<real>, y: real, x: real)
    ensures CountLess(list + [y], x) == CountLess(list, x) + if y < x then 1 else 0
    ensures CountAtMost(list + [y], x) == CountAtMost(list, x) + if y <= x then 1 else 0
  {
    assert (list + [y])[..|list|] == list;
  }

  lemma {:induction false} CountsBelow(list: seq<real>, pivot: real, x: real)
    requires x < pivot
    ensures CountLess(Below(list, pivot), x) == CountLess(list, x)
    ensures CountAtMost(Below(list, pivot), x) == CountAtMost(list, x)
  {
    if list != [] {
      var n := |list| - 1;
      CountsBelow(list[..n], pivot, x);
      if list[n] < pivot {
        assert Below(list, pivot) == Below(list[..n], pivot) + [list[n]];
        CountsSnoc(Below(list[..n], pivot), list[n], x);
      } else {
        assert Below(list, pivot) == Below(list[..n], pivot);
      }
    }
  }

  lemma {:induction false} CountsAbove(list: seq<real>, pivot: real, x: real)
    requires x > pivot
    ensures CountLess(Above(list, pivot), x) + CountAtMost(list, pivot) == CountLess(list, x)
    ensures CountAtMost(Above(list, pivot), x) + CountAtMost(list, pivot) == CountAtMost(list, x)
  {
    if list != [] {
      var n := |list| - 1;
      CountsAbove(list[..n], pivot, x);
      if list[n] > pivot {
        assert Above(list, pivot) == Above(list[..n], pivot) + [list[n]];
        CountsSnoc(Above(list[..n], pivot), list[n], x);
      } else {
        assert Above(list, pivot) == Above(list[..n], pivot);
      }
    }
  }

  lemma {:induction false} PartsAreFromList(list: seq<real>, pivot: real)
    ensures forall x <- Below(list, pivot) :: x in list && x < pivot
    ensures forall x <- Above(list, pivot) :: x in list && x > pivot
    ensures pivot in list ==> CountLess(list, pivot) < CountAtMost(list, pivot)
    ensures CountLess(list, pivot) <= CountAtMost(list, pivot)
  {
    if list != [] {
      PartsAreFromList(list[..|list| - 1], pivot);
    }
  }

  method Partition(list: seq<real>, pivot: real) returns (less: seq<real>, equal: seq<real>, greater: seq<real>)
    ensures less == Below(list, pivot) && greater == Above(list, pivot)
    ensures |less| + |equal| == CountAtMost(list, pivot)
  {
    less, equal, greater := [], [], [];
    for i := 0 to |list|
      invariant less == Below(list[..i], pivot) && greater == Above(list[..i], pivot)
      invariant |less| + |equal| == CountAtMost(list[..i], pivot)
    {
      assert list[..i + 1][..i] == list[..i];
      if list[i] < pivot {
        less := less + [list[i]];
      } else if list[i] == pivot {
        equal := equal + [list[i]];
      } else {
        greater := greater + [list[i]];
      }
    }
    assert list[..|list|] == list;
  }

  method FindKthElementRecursive(list: seq<real>, k: nat) returns (e: real)
    requires k < |list|
    ensures IsKth(list, k, e) && e in list
    decreases |list|
  {
    if |list| == 1 {
      return list[0];
    }
    var pivot := list[|list| / 2];
    var less, equal, greater := Partition(list, pivot);
    PartsAreFromList(list, pivot);
    if k < |less| {
      e := FindKthElementRecursive(less, k);
      CountsBelow(list, pivot, e);
    } else if k < |less| + |equal| {
      e := pivot;
    } else {
      e := FindKthElementRecursive(greater, k - |less| - |equal|);
      CountsAbove(list, pivot, e);
    }
  }

  // ---- the arrival rate ----

  const PACKET_ARRIVAL_HISTORY_SIZE: nat := 64

  /** The rates near the median: from an eighth of it up to eight times it. */
  function Near(rates: seq<real>, median: real): seq<real> {
    if rates == [] then [] else
      var n := |rates| - 1;
      Near(rates[..n], median) + if median / 8.0 <= rates[n] < median * 8.0 then [rates[n]] else []
  }

  function Sum(rates: seq<real>): real {
    if rates == [] then 0.0 else Sum(rates[..|rates| - 1]) + rates[|rates| - 1]
  }

  function Mean(rates: seq<real>): Option<real> {
    if rates == [] then None else Some(Sum(rates) / |rates| as real)
  }

  lemma SumSnoc(rates: seq<real>, x: real)
    ensures Sum(rates + [x]) == Sum(rates) + x
  {
    assert (rates + [x])[..|rates|] == rates;
  }

  lemma {:induction false} NearIsNear(rates: seq<real>, median: real)
    ensures forall x :: x in Near(rates, median) <==> x in rates && median / 8.0 <= x < median * 8.0
  {
    if rates != [] {
      NearIsNear(rates[..|rates| - 1], median);
      assert forall x :: x in rates <==> x in rates[..|rates| - 1] || x == rates[|rates| - 1];
    }
  }

  lemma {:induction false} SumBounds(rates: seq<real>, lo: real, hi: real)
    requires forall i :: 0 <= i < |rates| ==> lo <= rates[i] < hi
    ensures |rates| as real * lo <= Sum(rates)
    ensures rates != [] ==> Sum(rates) < |rates| as real * hi
  {
    if rates != [] {
      var n := |rates| - 1;
      SumBounds(rates[..n], lo, hi);
      assert (n + 1) as real * lo == n as real * lo + lo;
      assert (n + 1) as real * hi == n as real * hi + hi;
    }
  }

  lemma Scale(x: real, y: real, n: real)
    requires n > 0.0
    ensures x < y ==> n * x < n * y
    ensures x <= y ==> n * x <= n * y
  {
  }

  lemma DivBounds(sum: real, n: real, lo: real, hi: real)
    requires n > 0.0 && n * lo <= sum < n * hi
    ensures lo <= sum / n < hi
  {
    var q := sum / n;
    Scale(q, lo, n);
    Scale(hi, q, n);
  }

  lemma MeanBounds(rates: seq<real>, lo: real, hi: real)
    requires rates != [] && forall i :: 0 <= i < |rates| ==> lo <= rates[i] < hi
    ensures lo <= Mean(rates).value < hi
  {
    SumBounds(rates, lo, hi);
    DivBounds(Sum(rates), |rates| as real, lo, hi);
  }

  /** `median` is the middle element, and `rate` the mean of the rates near it. */
  predicate IsRateFor(history: seq<real>, median: real, rate: Option<real>) {
    && IsKth(history, |history| / 2, median)
    && rate == Mean(Near(history, median))
    && (rate.Some? <==> median > 0.0)
    && (rate.Some? ==> median / 8.0 <= rate.value < median * 8.0)
  }

  /** The mean of the rates near their median exists exactly when the median is positive,
      and then it is itself near the median. */
  lemma MeanIsNearMedian(rates: seq<real>, median: real)
    requires median in rates
    ensures var mean := Mean(Near(rates, median));
            && (mean.Some? <==> median > 0.0)
            && (mean.Some? ==> median / 8.0 <= mean.value < median * 8.0)
  {
    var near := Near(rates, median);
    NearIsNear(rates, median);
    assert forall i :: 0 <= i < |near| ==> near[i] in near;
    assert median > 0.0 ==> median in near;
    if near != [] {
      MeanBounds(near, median / 8.0, median * 8.0);
    }
  }

  lemma {:induction false} SumJoin(a: seq<real>, b: seq<real>)
    ensures Sum(a + b) == Sum(a) + Sum(b)
  {
    if b == [] {
      assert a + b == a;
    } else {
      SumJoin(a, b[..|b| - 1]);
      assert (a + b)[..|a + b| - 1] == a + b[..|b| - 1];
    }
  }

  /** Two non-empty lists together weigh their means by their lengths, and one rate is its
      own mean. */
  lemma MeanIs(a: seq<real>, b: seq<real>, x: real)
    requires a != [] && b != []
    ensures var mean := Mean(a + b);
            && Mean([x]) == Some(x) && Mean(a).Some? && Mean(b).Some? && mean.Some?
            && mean.value * (|a| + |b|) as real == Mean(a).value * |a| as real + Mean(b).value * |b| as real
  {
    SumJoin(a, b);
    SumSnoc([], x);
    assert [] + [x] == [x];
    Undo(Sum(a), |a| as real);
    Undo(Sum(b), |b| as real);
    Undo(Sum(a + b), |a + b| as real);
  }

  lemma Undo(x: real, n: real)
    requires n != 0.0
    ensures x / n * n == x
  {
  }

  /** Every rate counts as often as it was recorded, if it is at least an eighth of the
      median and less than eight times it. */
  lemma {:induction false} NearCounts(rates: seq<real>, median: real, x: real)
    ensures multiset(Near(rates, median))[x]
            == if median <= 8.0 * x < 64.0 * median then multiset(rates)[x] else 0
  {
    if rates != [] {
      var n := |rates| - 1;
      NearCounts(rates[..n], median, x);
      assert rates == rates[..n] + [rates[n]];
    }
  }

  /** With less than a full history there is no rate; with a full one there is a rate
      exactly if the median is positive, and the rate is near it. */
  method CalcArrivalRate(history: seq<real>, index: nat) returns (rate: Option<real>)
    requires |history| == PACKET_ARRIVAL_HISTORY_SIZE
    ensures index < 64 ==> rate == None
    ensures index >= 64 ==>
              exists median :: median in history && IsRateFor(history, median, rate)
  {
    if index < PACKET_ARRIVAL_HISTORY_SIZE {
      return None;
    }
    var median := FindKthElementRecursive(history, |history| / 2);
    MeanIsNearMedian(history, median);
    var sum, count := 0.0, 0;
    for i := 0 to |history|
      invariant sum == Sum(Near(history[..i], median)) && count == |Near(history[..i], median)|
    {
      assert history[..i + 1][..i] == history[..i];
      if median / 8.0 <= history[i] < median * 8.0 {
        SumSnoc(Near(history[..i], median), history[i]);
        assert Near(history[..i + 1], median) == Near(history[..i], median) + [history[i]];
        sum := sum + history[i];
        count := count + 1;
      } else {
        assert Near(history[..i + 1], median) == Near(history[..i], median);
      }
    }
    assert history[..|history|] == history;
    rate := if count > 0 then Some(sum / count as real) else None;
    assert IsRateFor(history, median, rate);
  }
}
