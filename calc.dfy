/**
 * The trimmed-mean core of the statistics (`apps/web/src/lib/calc.ts`):
 * `mean` of a list of results, and the WCA-style `average`, which sorts its
 * argument in place with DNFs last, drops `removeCount` results from each end
 * and takes the mean of what is left.
 */
module Calc {
  import opened Basics

  /** One attempt as the statistics see it: a time in whole milliseconds, or a DNF. */
  datatype SolveResult = Timed(time: nat) | Dnf

  /**
   * What `mean` and `average` return: DNF, or a time kept exactly as the total
   * of the timed results over their count.
   */
  datatype Aggregate = AggTime(total: nat, count: nat) | AggDnf {
    /** The number the source's `time` field holds: `total / count`, and 0 when nothing was averaged (`0 / 0 || 0`). */
    function Ms(): (r: real)
      requires AggTime?
      ensures r >= 0.0
    {
      if count == 0 then 0.0 else total as real / count as real
    }
  }

  // ---------------------------------------------------------------------------
  // mean
  // ---------------------------------------------------------------------------

  /** `values.some((v) => v.dnf)` */
  predicate HasDnf(values: seq<SolveResult>) {
    exists i :: 0 <= i < |values| && values[i].Dnf?
  }

  /** The time a result contributes to a sum; DNFs are filtered out and contribute nothing. */
  function TimeOf(v: SolveResult): nat {
    match v
    case Timed(t) => t
    case Dnf => 0
  }

  /** The `filter` + `reduce` of `mean`: the sum of the timed results. */
  function SumTimes(values: seq<SolveResult>): nat {
    if values == [] then 0 else TimeOf(values[0]) + SumTimes(values[1..])
  }

  /** Number of DNFs in a list of results. */
  function CountDnf(values: seq<SolveResult>): nat {
    if values == [] then 0 else (if values[0].Dnf? then 1 else 0) + CountDnf(values[1..])
  }

  /**
   * `mean`: DNF as soon as one input is DNF; otherwise `sum / length`, where
   * `0 / 0 || 0` makes the mean of no results 0.
   */
  function Mean(values: seq<SolveResult>): (r: Aggregate)
    ensures HasDnf(values) <==> r == AggDnf
    ensures r.AggTime? ==> r.count == |values|
  {
    if HasDnf(values) then AggDnf
    else AggTime(SumTimes(values), |values|)
  }

  /** `mean([])` is a time of 0, not an error: `0 / 0` is `NaN` and `NaN || 0` is 0. */
  lemma MeanOfNone()
    ensures Mean([]).AggTime? && Mean([]).Ms() == 0.0
  {
  }

  /** A DNF-free mean, multiplied back by the number of results, gives their total time. */
  lemma MeanTimesLength(values: seq<SolveResult>)
    requires !HasDnf(values) && |values| > 0
    ensures Mean(values).AggTime?
    ensures Mean(values).Ms() * (|values| as real) == SumTimes(values) as real
  {
    var n := |values| as real;
    var sum := SumTimes(values) as real;
    assert Mean(values).Ms() == sum / n;
  }

  lemma {:induction false} SumTimesConcat(a: seq<SolveResult>, b: seq<SolveResult>)
    ensures SumTimes(a + b) == SumTimes(a) + SumTimes(b)
  {
    if a == [] {
      assert a + b == b;
    } else {
      assert (a + b)[1..] == a[1..] + b;
      SumTimesConcat(a[1..], b);
    }
  }

  /** The sum of the times depends only on which results there are, not on their order. */
  lemma {:induction false} SumTimesPermutation(a: seq<SolveResult>, b: seq<SolveResult>)
    requires multiset(a) == multiset(b)
    ensures SumTimes(a) == SumTimes(b)
    decreases |a|
  {
    if a != [] {
      assert a[0] in multiset(b);
      var k :| 0 <= k < |b| && b[k] == a[0];
      var rest := b[..k] + b[k + 1..];
      assert b == b[..k] + ([b[k]] + b[k + 1..]);
      assert a == [a[0]] + a[1..];
      calc {
        multiset(a[1..]);
        multiset(a) - multiset{a[0]};
        multiset(b) - multiset{b[k]};
        multiset(rest);
      }
      SumTimesPermutation(a[1..], rest);
      SumTimesConcat(b[..k], [b[k]] + b[k + 1..]);
      SumTimesConcat([b[k]], b[k + 1..]);
      SumTimesConcat(b[..k], b[k + 1..]);
    } else {
      assert |b| == |multiset(b)| == 0;
    }
  }

  /** `CountDnf` is the multiplicity of DNF in the multiset of results. */
  lemma {:induction false} CountDnfMultiset(a: seq<SolveResult>)
    ensures CountDnf(a) == multiset(a)[Dnf]
  {
    if a != [] {
      assert a == [a[0]] + a[1..];
      assert multiset(a) == multiset{a[0]} + multiset(a[1..]);
      CountDnfMultiset(a[1..]);
    }
  }

  lemma HasDnfMultiset(a: seq<SolveResult>)
    ensures HasDnf(a) <==> Dnf in multiset(a)
  {
    if Dnf in multiset(a) {
      var i :| 0 <= i < |a| && a[i] == Dnf;
      assert a[i].Dnf?;
    }
  }

  /** `mean` does not depend on the order of its input. */
  lemma MeanOrderIndependent(a: seq<SolveResult>, b: seq<SolveResult>)
    requires multiset(a) == multiset(b)
    ensures Mean(a) == Mean(b)
  {
    HasDnfMultiset(a);
    HasDnfMultiset(b);
    SumTimesPermutation(a, b);
    assert |a| == |multiset(a)| == |multiset(b)| == |b|;
  }

  lemma {:induction false} SumTimesBounds(values: seq<SolveResult>, lo: nat, hi: nat)
    requires forall i :: 0 <= i < |values| ==> values[i].Timed? && lo <= values[i].time <= hi
    ensures |values| * lo <= SumTimes(values) <= |values| * hi
  {
    if values != [] {
      var rest := values[1..];
      assert forall i :: 0 <= i < |rest| ==> rest[i] == values[i + 1];
      SumTimesBounds(rest, lo, hi);
      MulSucc(|rest|, lo);
      MulSucc(|rest|, hi);
    }
  }

  lemma MulSucc(n: nat, x: nat)
    ensures (n + 1) * x == n * x + x
  {
  }

  lemma QuotientBounds(sum: real, n: real, lo: real, hi: real)
    requires n > 0.0
    requires lo * n <= sum <= hi * n
    ensures lo <= sum / n <= hi
  {
    assert sum / n - lo == (sum - lo * n) / n;
    assert hi - sum / n == (hi * n - sum) / n;
  }

  /** The mean of timed results lies between their smallest and their largest time. */
  lemma MeanBounds(values: seq<SolveResult>, lo: nat, hi: nat)
    requires |values| > 0
    requires forall i :: 0 <= i < |values| ==> values[i].Timed? && lo <= values[i].time <= hi
    ensures Mean(values).AggTime?
    ensures lo as real <= Mean(values).Ms() <= hi as real
  {
    SumTimesBounds(values, lo, hi);
    var n := |values|;
    var sum := SumTimes(values);
    assert !HasDnf(values);
    var m := Mean(values);
    assert m == AggTime(sum, n);
    LiftBounds(n, sum, lo, hi);
    QuotientBounds(sum as real, n as real, lo as real, hi as real);
  }

  lemma LiftBounds(n: nat, sum: nat, lo: nat, hi: nat)
    requires n * lo <= sum <= n * hi
    ensures (lo as real) * (n as real) <= sum as real <= (hi as real) * (n as real)
  {
  }

  // ---------------------------------------------------------------------------
  // The sort inside average
  // ---------------------------------------------------------------------------

  /** The comparator handed to `values.sort`: a DNF compares above everything, times ascend. */
  function Compare(a: SolveResult, b: SolveResult): int {
    if a.Dnf? then 1 else if b.Dnf? then -1 else a.time - b.time
  }

  /** `a` may stand before `b` in a sorted list: every time before every DNF, times ascending. */
  predicate Le(a: SolveResult, b: SolveResult) {
    b.Dnf? || (a.Timed? && a.time <= b.time)
  }

  predicate Sorted(s: seq<SolveResult>) {
    forall i, j :: 0 <= i < j < |s| ==> Le(s[i], s[j])
  }

  /** Insert `x` into a sorted list (a reference definition of sorting). */
  function Insert(x: SolveResult, s: seq<SolveResult>): (r: seq<SolveResult>)
    ensures |r| == |s| + 1
  {
    if s == [] then [x]
    else if Le(x, s[0]) then [x] + s
    else [s[0]] + Insert(x, s[1..])
  }

  /** Inserting adds exactly `x` to the multiset of results. */
  lemma {:induction false} InsertMultiset(x: SolveResult, s: seq<SolveResult>)
    ensures multiset(Insert(x, s)) == multiset(s) + multiset{x}
  {
    if s != [] && !Le(x, s[0]) {
      InsertMultiset(x, s[1..]);
      assert s == [s[0]] + s[1..];
    }
  }

  lemma LeTransitive(a: SolveResult, b: SolveResult, c: SolveResult)
    requires Le(a, b) && Le(b, c)
    ensures Le(a, c)
  {
  }

  /** Putting `h` in front of a sorted list that it does not exceed keeps it sorted. */
  lemma ConsSorted(h: SolveResult, tail: seq<SolveResult>)
    requires Sorted(tail)
    requires forall j :: 0 <= j < |tail| ==> Le(h, tail[j])
    ensures Sorted([h] + tail)
  {
    var r := [h] + tail;
    forall i, j | 0 <= i < j < |r| ensures Le(r[i], r[j]) {
      assert r[j] == tail[j - 1];
      if i > 0 {
        assert r[i] == tail[i - 1];
      }
    }
  }

  /** A lower bound of `x` and of every element of `s` is a lower bound of `Insert(x, s)`. */
  lemma {:induction false} InsertAbove(h: SolveResult, x: SolveResult, s: seq<SolveResult>)
    requires Le(h, x)
    requires forall j :: 0 <= j < |s| ==> Le(h, s[j])
    ensures forall j :: 0 <= j < |Insert(x, s)| ==> Le(h, Insert(x, s)[j])
  {
    if s != [] && !Le(x, s[0]) {
      InsertAbove(h, x, s[1..]);
      var r := Insert(x, s);
      forall j | 0 <= j < |r| ensures Le(h, r[j]) {
        if j > 0 {
          assert r[j] == Insert(x, s[1..])[j - 1];
        }
      }
    }
  }

  lemma {:induction false} InsertSorted(x: SolveResult, s: seq<SolveResult>)
    requires Sorted(s)
    ensures Sorted(Insert(x, s))
  {
    if s == [] {
    } else if Le(x, s[0]) {
      forall j | 0 <= j < |s| ensures Le(x, s[j]) {
        if j > 0 {
          LeTransitive(x, s[0], s[j]);
        }
      }
      ConsSorted(x, s);
    } else {
      var rest := s[1..];
      assert Sorted(rest) by {
        forall i, j | 0 <= i < j < |rest| ensures Le(rest[i], rest[j]) {
          assert rest[i] == s[i + 1] && rest[j] == s[j + 1];
        }
      }
      InsertSorted(x, rest);
      forall j | 0 <= j < |rest| ensures Le(s[0], rest[j]) {
        assert rest[j] == s[j + 1];
      }
      InsertAbove(s[0], x, rest);
      ConsSorted(s[0], Insert(x, rest));
    }
  }

  /** The list of results in the order the sort leaves them in. */
  function SortResults(s: seq<SolveResult>): (r: seq<SolveResult>)
    ensures |r| == |s|
  {
    if s == [] then [] else Insert(s[0], SortResults(s[1..]))
  }

  /** The sort only rearranges: it keeps the multiset of results. */
  lemma {:induction false} SortResultsMultiset(s: seq<SolveResult>)
    ensures multiset(SortResults(s)) == multiset(s)
  {
    if s != [] {
      SortResultsMultiset(s[1..]);
      InsertMultiset(s[0], SortResults(s[1..]));
      assert s == [s[0]] + s[1..];
    }
  }

  /** The sort's arrangement is sorted: times ascending, DNFs last. */
  lemma {:induction false} SortResultsSorted(s: seq<SolveResult>)
    ensures Sorted(SortResults(s))
  {
    if s != [] {
      SortResultsSorted(s[1..]);
      InsertSorted(s[0], SortResults(s[1..]));
    }
  }

  /** Two sorted arrangements of one multiset start with the same result. */
  lemma SortedHeads(a: seq<SolveResult>, b: seq<SolveResult>)
    requires Sorted(a) && Sorted(b)
    requires multiset(a) == multiset(b)
    requires a != [] && b != []
    ensures a[0] == b[0]
  {
    assert a[0] in multiset(b);
    assert b[0] in multiset(a);
    var k :| 0 <= k < |b| && b[k] == a[0];
    var l :| 0 <= l < |a| && a[l] == b[0];
    assert Le(b[0], a[0]) by { if k != 0 { assert Le(b[0], b[k]); } }
    assert Le(a[0], b[0]) by { if l != 0 { assert Le(a[0], a[l]); } }
  }

  /** There is only one sorted arrangement of a multiset of results. */
  lemma {:induction false} SortedUnique(a: seq<SolveResult>, b: seq<SolveResult>)
    requires Sorted(a) && Sorted(b)
    requires multiset(a) == multiset(b)
    ensures a == b
    decreases |a|
  {
    assert |a| == |multiset(a)| == |multiset(b)| == |b|;
    if a != [] {
      SortedHeads(a, b);
      assert a == [a[0]] + a[1..];
      assert b == [b[0]] + b[1..];
      assert multiset(a[1..]) == multiset(a) - multiset{a[0]};
      assert multiset(b[1..]) == multiset(b) - multiset{b[0]};
      SortedUnique(a[1..], b[1..]);
    }
  }

  /** In a sorted list the DNFs are exactly the last `CountDnf` positions. */
  lemma {:induction false} SortedDnfSuffix(t: seq<SolveResult>)
    requires Sorted(t)
    ensures CountDnf(t) <= |t|
    ensures forall k :: 0 <= k < |t| ==> (t[k].Dnf? <==> k >= |t| - CountDnf(t))
  {
    if t != [] {
      SortedDnfSuffix(t[1..]);
      if t[0].Dnf? {
        assert forall k :: 0 <= k < |t| ==> t[k].Dnf? by {
          forall k | 0 < k < |t| ensures t[k].Dnf? { assert Le(t[0], t[k]); }
        }
        assert forall k :: 0 <= k < |t| - 1 ==> t[1..][k].Dnf?;
      }
    }
  }

  /** Swap two elements of an array, keeping its multiset of elements. */
  method Swap(a: array<SolveResult>, i: nat, j: nat)
    requires i < a.Length && j < a.Length
    modifies a
    ensures a[..] == old(a[..])[i := old(a[j])][j := old(a[i])]
    ensures multiset(a[..]) == old(multiset(a[..]))
  {
    a[i], a[j] := a[j], a[i];
  }

  /**
   * One step of the sort: with `a[..i]` sorted, move `a[i]` down past every
   * result the comparator ranks above it, leaving `a[..i + 1]` sorted.
   */
  method InsertDown(a: array<SolveResult>, i: nat)
    requires i < a.Length
    requires forall k, l :: 0 <= k < l < i ==> Le(a[k], a[l])
    modifies a
    ensures forall k, l :: 0 <= k < l <= i ==> Le(a[k], a[l])
    ensures multiset(a[..]) == old(multiset(a[..]))
  {
    var j := i;
    while j > 0 && Compare(a[j - 1], a[j]) > 0
      invariant 0 <= j <= i
      invariant forall k, l :: 0 <= k < l <= i && l != j ==> Le(a[k], a[l])
      invariant multiset(a[..]) == old(multiset(a[..]))
    {
      Swap(a, j - 1, j);
      j := j - 1;
    }
  }

  /** `values.sort(Compare)`, in place: afterwards timed results ascend and DNFs come last. */
  method SortInPlace(a: array<SolveResult>)
    modifies a
    ensures Sorted(a[..])
    ensures multiset(a[..]) == old(multiset(a[..]))
    ensures a[..] == SortResults(old(a[..]))
  {
    var i := 0;
    while i < a.Length
      invariant 0 <= i <= a.Length
      invariant forall k, l :: 0 <= k < l < i ==> Le(a[k], a[l])
      invariant multiset(a[..]) == old(multiset(a[..]))
    {
      InsertDown(a, i);
      i := i + 1;
    }
    SortResultsSorted(old(a[..]));
    SortResultsMultiset(old(a[..]));
    SortedUnique(a[..], SortResults(old(a[..])));
  }

  // ---------------------------------------------------------------------------
  // average
  // ---------------------------------------------------------------------------

  /**
   * `Math.max(1, Math.floor(n * 0.05))`. The double nearest 0.05 lies just
   * above 0.05, so the floor of the product is `n / 20` for every list length.
   */
  function RemoveCount(n: nat): (r: nat)
    ensures r >= 1
    ensures n < 40 ==> r == 1
  {
    Max(1, n / 20)
  }

  /** From 20 results on, `removeCount` is one in every twenty, rounded down. */
  lemma RemoveCountBounds(n: nat)
    requires n >= 20
    ensures RemoveCount(n) * 20 <= n < RemoveCount(n) * 20 + 20
  {
  }

  /** `Array.prototype.slice(start, end)`: negative bounds count from the end; both clamp to the length. */
  function Slice<T>(s: seq<T>, start: int, end: int): (r: seq<T>)
    ensures 0 <= start <= end <= |s| ==> r == s[start..end]
    ensures 0 <= end <= start ==> r == []
  {
    var from := if start < 0 then Max(|s| + start, 0) else Min(start, |s|);
    var to := if end < 0 then Max(|s| + end, 0) else Min(end, |s|);
    if from < to then s[from..to] else []
  }

  /** `values.slice(removeCount, values.length - removeCount)` */
  function Trimmed(sorted: seq<SolveResult>): seq<SolveResult> {
    var n := |sorted|;
    Slice(sorted, RemoveCount(n), n - RemoveCount(n))
  }

  /** The trimmed slice has `max(0, n - 2 * removeCount)` results: the middle of the list when that is positive. */
  lemma TrimmedShape(sorted: seq<SolveResult>)
    ensures var n := |sorted|;
            |Trimmed(sorted)| == Max(0, n - 2 * RemoveCount(n))
    ensures var n := |sorted|;
            n > 2 * RemoveCount(n) ==> Trimmed(sorted) == sorted[RemoveCount(n)..n - RemoveCount(n)]
  {
    var n := |sorted|;
    var rc := RemoveCount(n);
    if n > 2 * rc {
      assert Slice(sorted, rc, n - rc) == sorted[rc..n - rc];
    } else {
      assert Slice(sorted, rc, n - rc) == [];
    }
  }

  /** The value `average` computes for a list of results. */
  function AverageOf(values: seq<SolveResult>): Aggregate {
    Mean(Trimmed(SortResults(values)))
  }

  /**
   * `average(values)`: sorts `values` in place, then takes the mean of the
   * middle part. Afterwards the array holds the sorted permutation of its old
   * contents.
   */
  method Average(values: array<SolveResult>) returns (r: Aggregate)
    modifies values
    ensures Sorted(values[..])
    ensures multiset(values[..]) == old(multiset(values[..]))
    ensures values[..] == SortResults(old(values[..]))
    ensures r == AverageOf(old(values[..]))
  {
    SortInPlace(values);
    var removeCount := RemoveCount(values.Length);
    var trimmed := Slice(values[..], removeCount, values.Length - removeCount);
    r := Mean(trimmed);
    AverageOfSorted(old(values[..]), values[..]);
  }

  /** `AverageOf` is the mean of the slice `average` takes of the sorted list. */
  lemma AverageOfSorted(values: seq<SolveResult>, sorted: seq<SolveResult>)
    requires sorted == SortResults(values)
    ensures AverageOf(values) == Mean(Slice(sorted, RemoveCount(|sorted|), |sorted| - RemoveCount(|sorted|)))
  {
  }

  /** A non-empty window `t[lo..hi]` of a sorted list holds a DNF exactly when its last position does. */
  lemma WindowHasDnf(t: seq<SolveResult>, lo: nat, hi: nat)
    requires Sorted(t)
    requires lo < hi <= |t|
    ensures HasDnf(t[lo..hi]) <==> CountDnf(t) >= |t| - hi + 1
  {
    SortedDnfSuffix(t);
    var w := t[lo..hi];
    if CountDnf(t) >= |t| - hi + 1 {
      assert w[hi - lo - 1] == t[hi - 1];
    } else {
      forall i | 0 <= i < |w| ensures w[i].Timed? {
        assert w[i] == t[lo + i];
      }
    }
  }

  /** Cutting `k` results from each end of a sorted list keeps a DNF exactly when more than `k` are DNFs. */
  lemma MiddleHasDnf(t: seq<SolveResult>, k: nat)
    requires Sorted(t)
    requires |t| > 2 * k
    ensures HasDnf(t[k..|t| - k]) <==> CountDnf(t) > k
  {
    WindowHasDnf(t, k, |t| - k);
  }

  /** In a sorted list, a DNF survives the trimming exactly when there are more than `removeCount` of them. */
  lemma TrimmedHasDnf(t: seq<SolveResult>)
    requires Sorted(t)
    ensures var n := |t|;
            HasDnf(Trimmed(t)) <==> n > 2 * RemoveCount(n) && CountDnf(t) > RemoveCount(n)
  {
    var rc := RemoveCount(|t|);
    if |t| > 2 * rc {
      MiddleHasDnf(t, rc);
    }
    TrimmedCut(t, rc);
  }

  /** `Trimmed` keeps a DNF exactly when the middle does, for any list, sorted or not. */
  lemma TrimmedCut(t: seq<SolveResult>, k: nat)
    requires k == RemoveCount(|t|)
    requires |t| > 2 * k ==> (HasDnf(t[k..|t| - k]) <==> CountDnf(t) > k)
    ensures HasDnf(Trimmed(t)) <==> |t| > 2 * k && CountDnf(t) > k
  {
    SliceHasDnf(t, k);
    TrimmedIsSlice(t);
    SameHasDnf(Trimmed(t), Slice(t, k, |t| - k));
  }

  /**
   * Equal lists agree on `HasDnf`. This step and `TrimmedIsSlice` are kept as
   * lemmas of their own so that `TrimmedCut` stays a short, cheap proof.
   */
  lemma SameHasDnf(a: seq<SolveResult>, b: seq<SolveResult>)
    requires a == b
    ensures HasDnf(a) == HasDnf(b)
  {
  }

  /** `Trimmed` is the slice that cuts `removeCount` results from each end. */
  lemma TrimmedIsSlice(t: seq<SolveResult>)
    ensures Trimmed(t) == Slice(t, RemoveCount(|t|), |t| - RemoveCount(|t|))
  {
  }

  /**
   * Cutting `k` results from each end keeps a DNF exactly when more than `k`
   * are DNFs, given that the middle holds a DNF exactly when that many exist
   * (which `WindowHasDnf` shows for sorted lists).
   */
  lemma SliceHasDnf(t: seq<SolveResult>, k: nat)
    requires |t| > 2 * k ==> (HasDnf(t[k..|t| - k]) <==> CountDnf(t) > k)
    ensures HasDnf(Slice(t, k, |t| - k)) <==> |t| > 2 * k && CountDnf(t) > k
  {
    var n := |t|;
    if n > 2 * k {
      assert Slice(t, k, n - k) == t[k..n - k];
    } else {
      assert Slice(t, k, n - k) == [];
    }
  }

  /** `average` is DNF exactly when some DNF survives the trimming. */
  lemma AverageDnfIff(values: seq<SolveResult>)
    ensures var n := |values|;
            AverageOf(values) == AggDnf <==> n > 2 * RemoveCount(n) && CountDnf(values) > RemoveCount(n)
  {
    var t := SortResults(values);
    SortResultsSorted(values);
    SortResultsMultiset(values);
    assert |t| == |multiset(t)| == |multiset(values)| == |values|;
    CountDnfMultiset(t);
    CountDnfMultiset(values);
    TrimmedHasDnf(t);
  }

  /** The result of `average` does not depend on the order of its input. */
  lemma AverageOrderIndependent(a: seq<SolveResult>, b: seq<SolveResult>)
    requires multiset(a) == multiset(b)
    ensures AverageOf(a) == AverageOf(b)
  {
    SortResultsSorted(a);
    SortResultsMultiset(a);
    SortResultsSorted(b);
    SortResultsMultiset(b);
    SortedUnique(SortResults(a), SortResults(b));
  }

  /** With two results or fewer nothing is left after trimming, so the average is 0, DNFs or not. */
  lemma AverageOfFewIsZero(values: seq<SolveResult>)
    requires |values| <= 2
    ensures AverageOf(values) == AggTime(0, 0)
    ensures AverageOf(values).Ms() == 0.0
  {
  }

  /** Any sorted rearrangement of the input is what the sort produces. */
  lemma SortResultsIs(s: seq<SolveResult>, t: seq<SolveResult>)
    requires Sorted(t) && multiset(t) == multiset(s)
    ensures SortResults(s) == t
  {
    SortResultsSorted(s);
    SortResultsMultiset(s);
    SortedUnique(SortResults(s), t);
  }

  lemma ExampleTrimmedMean()
    ensures Mean(Trimmed([Timed(11000), Timed(12000), Timed(13000), Timed(14000), Dnf])) == AggTime(39000, 3)
  {
    var sorted := [Timed(11000), Timed(12000), Timed(13000), Timed(14000), Dnf];
    var middle := [Timed(12000), Timed(13000), Timed(14000)];
    assert RemoveCount(|sorted|) == 1;
    assert sorted[1..4] == middle;
    assert SumTimes(middle) == 39000;
    assert !HasDnf(middle);
  }

  /** `[12000, 13000, 11000, DNF, 14000]` averages to 13000: 11000 and the DNF are dropped. */
  lemma AverageExample()
    ensures AverageOf([Timed(12000), Timed(13000), Timed(11000), Dnf, Timed(14000)]) == AggTime(39000, 3)
    ensures AverageOf([Timed(12000), Timed(13000), Timed(11000), Dnf, Timed(14000)]).Ms() == 13000.0
  {
    ExampleSort();
    ExampleTrimmedMean();
    assert AggTime(39000, 3).Ms() == 13000.0;
  }

  /** The sort puts the times in ascending order and the DNF last. */
  lemma ExampleSort()
    ensures SortResults([Timed(12000), Timed(13000), Timed(11000), Dnf, Timed(14000)])
         == [Timed(11000), Timed(12000), Timed(13000), Timed(14000), Dnf]
  {
  }
}
