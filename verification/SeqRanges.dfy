/** Lists of sequence numbers as ranges (`put_seqs` and `try_get_seqs` of
    src/proto/bytes.rs, before they are turned into bytes). */
module SeqRanges {
  import opened Basics

  predicate Sorted(s: seq<nat>) {
    forall i, j :: 0 <= i < j < |s| ==> s[i] <= s[j]
  }

  function InsertSorted(s: seq<nat>, x: nat): seq<nat> {
    if s == [] || x <= s[0] then [x] + s else [s[0]] + InsertSorted(s[1..], x)
  }

  /** The library's `sort_unstable`. */
  function Sort(s: seq<nat>): seq<nat> {
    if s == [] then [] else InsertSorted(Sort(s[1..]), s[0])
  }

  predicate AtLeast(s: seq<nat>, low: nat) {
    forall i :: 0 <= i < |s| ==> low <= s[i]
  }

  lemma {:induction false} InsertKeepsSorted(s: seq<nat>, x: nat, low: nat)
    requires Sorted(s) && AtLeast(s, low) && low <= x
    ensures Sorted(InsertSorted(s, x)) && AtLeast(InsertSorted(s, x), low)
  {
    if s != [] && x > s[0] {
      InsertKeepsSorted(s[1..], x, s[0]);
    }
  }

  lemma {:induction false} InsertPermutes(s: seq<nat>, x: nat)
    ensures multiset(InsertSorted(s, x)) == multiset(s) + multiset{x}
  {
    if s != [] && x > s[0] {
      InsertPermutes(s[1..], x);
      assert s == [s[0]] + s[1..];
    }
  }

  /** Sorting gives the sorted permutation. */
  lemma {:induction false} SortSorts(s: seq<nat>)
    ensures Sorted(Sort(s)) && multiset(Sort(s)) == multiset(s)
    ensures s != [] ==> Sort(s) != []
  {
    if s != [] {
      SortSorts(s[1..]);
      InsertKeepsSorted(Sort(s[1..]), s[0], 0);
      InsertPermutes(Sort(s[1..]), s[0]);
      assert s == [s[0]] + s[1..];
    }
  }

  /** The loop of `put_seqs`, from the range it is building on. A value equal to the
      last one starts a range of its own, so repeats are kept. */
  function RangesFrom(start: nat, end: nat, rest: seq<nat>): (ranges: seq<(nat, nat)>)
    ensures |ranges| > 0
    decreases |rest|
  {
    if rest == [] then
      [(start, end)]
    else if rest[0] == end + 1 then
      RangesFrom(start, rest[0], rest[1..])
    else
      [(start, end)] + RangesFrom(rest[0], rest[0], rest[1..])
  }

  function Ranges(s: seq<nat>): seq<(nat, nat)> {
    if s == [] then [] else RangesFrom(s[0], s[0], s[1..])
  }

  function ExpandOne(range: (nat, nat)): seq<nat> {
    if range.0 <= range.1 then Range(range.0, range.1 + 1) else []
  }

  function Expand(ranges: seq<(nat, nat)>): seq<nat> {
    if ranges == [] then [] else ExpandOne(ranges[0]) + Expand(ranges[1..])
  }

  lemma {:induction false} ExpandRangesFrom(start: nat, end: nat, rest: seq<nat>)
    requires start <= end
    ensures Expand(RangesFrom(start, end, rest)) == Range(start, end + 1) + rest
    decreases |rest|
  {
    if rest == [] {
      assert Expand([(start, end)][1..]) == [];
    } else if rest[0] == end + 1 {
      ExpandRangesFrom(start, rest[0], rest[1..]);
      assert Range(start, rest[0] + 1) == Range(start, end + 1) + [rest[0]];
      assert rest == [rest[0]] + rest[1..];
    } else {
      ExpandRangesFrom(rest[0], rest[0], rest[1..]);
      var tail := RangesFrom(rest[0], rest[0], rest[1..]);
      assert ([(start, end)] + tail)[1..] == tail;
      assert rest == Range(rest[0], rest[0] + 1) + rest[1..];
    }
  }

  /** Compressing loses nothing, repeats included. */
  lemma ExpandRanges(s: seq<nat>)
    requires s != []
    ensures Expand(Ranges(s)) == s
  {
    ExpandRangesFrom(s[0], s[0], s[1..]);
    assert s == Range(s[0], s[0] + 1) + s[1..];
  }

  /** Ascending ranges, with at least one missing value between neighbours. */
  ghost predicate Separated(ranges: seq<(nat, nat)>) {
    && (forall i :: 0 <= i < |ranges| ==> ranges[i].0 <= ranges[i].1)
    && (forall i, j :: 0 <= i < j < |ranges| ==> ranges[i].1 + 1 < ranges[j].0)
  }

  lemma {:induction false} RangesFromSeparated(start: nat, end: nat, rest: seq<nat>)
    requires start <= end && Sorted(rest) && Distinct(rest) && forall x <- rest :: end < x
    ensures Separated(RangesFrom(start, end, rest))
    ensures RangesFrom(start, end, rest)[0].0 == start
    decreases |rest|
  {
    if rest == [] {
    } else {
      assert forall i :: 0 < i < |rest| ==> rest[0] < rest[i];
      if rest[0] == end + 1 {
        RangesFromSeparated(start, rest[0], rest[1..]);
      } else {
        RangesFromSeparated(rest[0], rest[0], rest[1..]);
        var tail := RangesFrom(rest[0], rest[0], rest[1..]);
        assert rest[0] in rest && end + 1 < tail[0].0;
        forall i | 0 <= i < |tail|
          ensures end + 1 < tail[i].0
        {
          assert i > 0 ==> tail[0].1 + 1 < tail[i].0;
        }
        assert Separated([(start, end)] + tail);
      }
    }
  }

  ghost predicate Covers(ranges: seq<(nat, nat)>, x: nat) {
    exists i :: 0 <= i < |ranges| && ranges[i].0 <= x <= ranges[i].1
  }

  lemma {:induction false} CoversIff(ranges: seq<(nat, nat)>, x: nat)
    ensures Covers(ranges, x) <==> x in Expand(ranges)
  {
    if ranges != [] {
      CoversIff(ranges[1..], x);
      if Covers(ranges[1..], x) {
        var i :| 0 <= i < |ranges[1..]| && ranges[1..][i].0 <= x <= ranges[1..][i].1;
        assert ranges[i + 1] == ranges[1..][i];
      }
      if Covers(ranges, x) && !(ranges[0].0 <= x <= ranges[0].1) {
        var i :| 0 <= i < |ranges| && ranges[i].0 <= x <= ranges[i].1;
        assert ranges[1..][i - 1] == ranges[i];
      }
      if ranges[0].0 <= x <= ranges[0].1 {
        assert ExpandOne(ranges[0])[x - ranges[0].0] == x;
      }
    }
  }

  ghost function Starts(ranges: seq<(nat, nat)>): set<nat> {
    set r <- ranges :: r.0
  }

  lemma {:induction false} StartsCount(ranges: seq<(nat, nat)>)
    ensures |Starts(ranges)| <= |ranges|
    ensures Separated(ranges) ==> |Starts(ranges)| == |ranges|
  {
    if ranges != [] {
      var n := |ranges| - 1;
      var before := ranges[..n];
      StartsCount(before);
      assert ranges == before + [ranges[n]];
      assert Starts(ranges) == Starts(before) + {ranges[n].0};
      if Separated(ranges) {
        forall r | r in before
          ensures r.0 != ranges[n].0
        {
          var i :| 0 <= i < n && ranges[i] == r;
        }
        assert ranges[n].0 !in Starts(before);
        assert Separated(before);
      }
    }
  }

  lemma SubsetCount(a: set<nat>, b: set<nat>)
    requires a <= b
    ensures |a| <= |b|
  {
    assert b == a + (b - a);
  }

  lemma StartIsNew(ranges: seq<(nat, nat)>, i: nat)
    requires Separated(ranges) && i < |ranges| && ranges[i].0 > 0
    ensures !Covers(ranges, ranges[i].0 - 1)
  {
    forall k | 0 <= k < |ranges|
      ensures !(ranges[k].0 <= ranges[i].0 - 1 <= ranges[k].1)
    {
      assert k < i || k == i || i < k;
    }
  }

  lemma StartIsShared(ranges: seq<(nat, nat)>, other: seq<(nat, nat)>, i: nat)
    requires Separated(ranges) && i < |ranges|
    requires forall x :: Covers(ranges, x) <==> Covers(other, x)
    ensures ranges[i].0 in Starts(other)
  {
    var x := ranges[i].0;
    assert Covers(ranges, x);
    var j :| 0 <= j < |other| && other[j].0 <= x <= other[j].1;
    assert other[j] in other;
    if x > 0 {
      StartIsNew(ranges, i);
      assert !Covers(other, x - 1);
    }
  }

  /** No list of ranges for the same values is shorter: each of our ranges begins after
      a missing value, so any cover has to begin a range there too. */
  lemma SeparatedIsMinimal(ranges: seq<(nat, nat)>, other: seq<(nat, nat)>)
    requires Separated(ranges)
    requires forall x :: Covers(ranges, x) <==> Covers(other, x)
    ensures |ranges| <= |other|
  {
    forall x | x in Starts(ranges)
      ensures x in Starts(other)
    {
      var i :| 0 <= i < |ranges| && ranges[i].0 == x;
      StartIsShared(ranges, other, i);
    }
    StartsCount(ranges);
    StartsCount(other);
    SubsetCount(Starts(ranges), Starts(other));
  }

  lemma SortedSeparated(s: seq<nat>)
    requires s != [] && Distinct(s)
    ensures Separated(Ranges(Sort(s)))
  {
    var sorted := Sort(s);
    SortSorts(s);
    SortDistinct(s);
    assert forall i :: 0 < i < |sorted| ==> sorted[0] < sorted[i];
    RangesFromSeparated(sorted[0], sorted[0], sorted[1..]);
  }

  lemma RangesCover(s: seq<nat>, x: nat)
    requires s != []
    ensures Covers(Ranges(Sort(s)), x) <==> x in s
  {
    SortSorts(s);
    ExpandRanges(Sort(s));
    CoversIff(Ranges(Sort(s)), x);
    assert x in Sort(s) <==> x in multiset(Sort(s));
    assert x in s <==> x in multiset(s);
  }

  /** For distinct values, the ranges are ascending, apart from each other, and as few
      as any list of ranges that stands for the same values. */
  lemma RangesAreMinimal(s: seq<nat>, other: seq<(nat, nat)>)
    requires s != [] && Distinct(s)
    requires forall x :: x in s <==> x in Expand(other)
    ensures Separated(Ranges(Sort(s))) && |Ranges(Sort(s))| <= |other|
  {
    SortedSeparated(s);
    forall x
      ensures Covers(Ranges(Sort(s)), x) <==> Covers(other, x)
    {
      RangesCover(s, x);
      CoversIff(other, x);
    }
    SeparatedIsMinimal(Ranges(Sort(s)), other);
  }

  lemma {:induction false} DistinctCounts(s: seq<nat>)
    requires Distinct(s)
    ensures forall x :: multiset(s)[x] <= 1
  {
    if s != [] {
      assert s == [s[0]] + s[1..];
      DistinctCounts(s[1..]);
      assert s[0] !in multiset(s[1..]);
    }
  }

  lemma RepeatCounts(s: seq<nat>, i: nat, j: nat)
    requires i < j < |s| && s[i] == s[j]
    ensures multiset(s)[s[i]] >= 2
  {
    assert s == s[..j] + ([s[j]] + s[j + 1..]);
    assert s[..j][i] in multiset(s[..j]);
  }

  lemma SortDistinct(s: seq<nat>)
    requires Distinct(s)
    ensures Distinct(Sort(s))
  {
    var sorted := Sort(s);
    SortSorts(s);
    DistinctCounts(s);
    forall i, j | 0 <= i < j < |sorted|
      ensures sorted[i] != sorted[j]
    {
      if sorted[i] == sorted[j] {
        RepeatCounts(sorted, i, j);
      }
    }
  }
}
