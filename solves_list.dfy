/**
 * The statistics side of the solves list (`apps/web/src/components/solves-list.tsx`):
 * solves projected to results, the current mo3/ao5/ao12/ao-all panel, the rolling
 * ao5/ao12 columns filled by a window loop, the row-selection handlers and the
 * row numbering.
 */
module SolvesList {
  import opened Wrappers
  import opened Basics
  import opened Calc
  import opened TimeFormat

  /** A stored solve as the list sees it: its id and its time in ms, absent for a DNF. */
  datatype Solve = Solve(id: string, time: Option<nat>)

  /** What an undefined statistic shows: an em dash. */
  const Placeholder: string := "\U{2014}"

  // ---------------------------------------------------------------------------
  // solveResults
  // ---------------------------------------------------------------------------

  function ToResult(solve: Solve): SolveResult {
    match solve.time
    case Some(t) => Timed(t)
    case None => Dnf
  }

  /** `solveResults`: no data yet gives no results; otherwise one result per solve, in order. */
  function SolveResults(data: Option<seq<Solve>>): (r: seq<SolveResult>)
    ensures data.None? ==> r == []
    ensures data.Some? ==> |r| == |data.value|
    ensures data.Some? ==> forall i :: 0 <= i < |r| ==>
              (r[i].Dnf? <==> data.value[i].time.None?) &&
              (data.value[i].time.Some? ==> r[i].time == data.value[i].time.value)
  {
    match data
    case None => []
    case Some(solves) => seq(|solves|, i requires 0 <= i < |solves| => ToResult(solves[i]))
  }

  // ---------------------------------------------------------------------------
  // formatResult and currentStats
  // ---------------------------------------------------------------------------

  /**
   * `formatResult`: a DNF aggregate shows `"DNF"`, any other the formatted mean
   * time; the two are never confused, and neither is the placeholder.
   */
  function FormatResult(a: Aggregate): (r: string)
    ensures r == "DNF" <==> a.AggDnf?
    ensures r != Placeholder
  {
    if a.AggDnf? then "DNF"
    else
      FormatTimeOfParses(a.Ms());
      FormatTimeOf(a.Ms())
  }

  /** A shown mean reads back to its rounded value less the last digit; `"DNF"` reads as no time. */
  lemma FormatResultParses(a: Aggregate)
    ensures a.AggDnf? ==> ParseTime(FormatResult(a)).None?
    ensures a.AggTime? ==>
              var k := RoundMs(a.Ms());
              ParseTime(FormatResult(a)).Some? && ClockMs(ParseTime(FormatResult(a)).value) == k - k % 10
  {
    if a.AggTime? {
      FormatTimeOfParses(a.Ms());
    }
  }

  /** The panel above the list. */
  datatype Stats = Stats(mo3: string, ao5: string, ao12: string, aoAll: string, totalCount: nat)

  /**
   * `currentStats`: each statistic is shown once enough results exist, over the
   * newest ones (the list is ordered newest first).
   */
  function CurrentStats(results: seq<SolveResult>): (st: Stats)
    ensures st.mo3 == Placeholder <==> |results| < 3
    ensures st.ao5 == Placeholder <==> |results| < 5
    ensures st.ao12 == Placeholder <==> |results| < 12
    ensures st.aoAll == Placeholder <==> |results| == 0
    ensures |results| >= 3 ==> st.mo3 == FormatResult(Mean(results[..3]))
    ensures |results| >= 5 ==> st.ao5 == FormatResult(AverageOf(results[..5]))
    ensures |results| >= 12 ==> st.ao12 == FormatResult(AverageOf(results[..12]))
    ensures |results| > 0 ==> st.aoAll == FormatResult(AverageOf(results))
    ensures st.totalCount == |results|
  {
    var n := |results|;
    var mo3 := if n >= 3 then FormatResult(Mean(Slice(results, 0, 3))) else Placeholder;
    var ao5 := if n >= 5 then FormatResult(AverageOf(Slice(results, 0, 5))) else Placeholder;
    var ao12 := if n >= 12 then FormatResult(AverageOf(Slice(results, 0, 12))) else Placeholder;
    var aoAll := if n > 0 then FormatResult(AverageOf(results)) else Placeholder;
    Stats(mo3, ao5, ao12, aoAll, n)
  }

  /** The mo3 shows DNF exactly when one of the newest three is a DNF. */
  lemma Mo3Dnf(results: seq<SolveResult>)
    requires |results| >= 3
    ensures CurrentStats(results).mo3 == "DNF" <==> HasDnf(results[..3])
  {
  }

  /** The ao5 and ao12 tolerate one DNF: they show DNF exactly when two or more of their results are DNFs. */
  lemma AverageWindowDnf(results: seq<SolveResult>)
    ensures |results| >= 5 ==> (CurrentStats(results).ao5 == "DNF" <==> CountDnf(results[..5]) >= 2)
    ensures |results| >= 12 ==> (CurrentStats(results).ao12 == "DNF" <==> CountDnf(results[..12]) >= 2)
  {
    if |results| >= 5 {
      AverageDnfIff(results[..5]);
    }
    if |results| >= 12 {
      AverageDnfIff(results[..12]);
    }
  }

  /** With one or two results the ao-all shows `00.00`, even when they are DNFs. */
  lemma AoAllOfFew(results: seq<SolveResult>)
    requires 0 < |results| <= 2
    ensures CurrentStats(results).aoAll == "00.00"
  {
    AverageOfFewIsZero(results);
    FormatTimeOfWhole(0);
    FormatExampleZero();
  }

  // ---------------------------------------------------------------------------
  // rollingAverages
  // ---------------------------------------------------------------------------

  /**
   * The column `compute(windowSize)` returns: one entry per result; where a
   * full window of width `w` starts at `i`, the formatted `average` of that
   * window, and the placeholder everywhere else.
   */
  function RollingSeries(rs: seq<SolveResult>, w: nat): seq<string> {
    seq(|rs|, i requires 0 <= i < |rs| => RollingCell(rs, w, i))
  }

  /** Entry `i` of the rolling column. */
  function RollingCell(rs: seq<SolveResult>, w: nat, i: nat): string
    requires i < |rs|
  {
    if w > 0 && i + w <= |rs| then FormatResult(AverageOf(rs[i..i + w])) else Placeholder
  }

  /**
   * An entry of the rolling column is the placeholder exactly where no full
   * window starts: all of it when the window is 0 or longer than the list,
   * otherwise the last `w - 1` entries. Every other entry is the formatted
   * `average` of its window.
   */
  lemma RollingSeriesAt(rs: seq<SolveResult>, w: nat, s: nat)
    requires s < |rs|
    ensures |RollingSeries(rs, w)| == |rs|
    ensures RollingSeries(rs, w)[s] == Placeholder <==> w == 0 || s + w > |rs|
    ensures w > 0 && s + w <= |rs| ==> RollingSeries(rs, w)[s] == FormatResult(AverageOf(rs[s..s + w]))
  {
    if w > 0 && s + w <= |rs| {
      var shown := FormatResult(AverageOf(rs[s..s + w]));
      assert shown != Placeholder;
    }
  }

  /** Where a full window starts at `s`, the entry is the formatted `average` of that window. */
  lemma CellAt(rs: seq<SolveResult>, w: nat, s: nat)
    requires 0 < w && s + w <= |rs|
    ensures RollingSeries(rs, w)[s] == FormatResult(AverageOf(rs[s..s + w]))
  {
  }

  lemma CellText(rs: seq<SolveResult>, w: nat, s: nat, a: Aggregate)
    requires 0 < w && s + w <= |rs|
    requires a == AverageOf(rs[s..s + w])
    ensures FormatResult(a) == RollingSeries(rs, w)[s]
  {
    CellAt(rs, w, s);
  }

  lemma RollingTail(rs: seq<SolveResult>, w: nat)
    ensures forall i :: 0 <= i < |rs| && (w == 0 || i + w > |rs|) ==> RollingSeries(rs, w)[i] == Placeholder
  {
  }

  /** The column `full` as far as the first `k` entries have been written over the placeholders. */
  ghost function Filled(full: seq<string>, k: nat): (r: seq<string>)
    ensures |r| == |full|
  {
    seq(|full|, i requires 0 <= i < |full| => if i < k then full[i] else Placeholder)
  }

  lemma FillStep(full: seq<string>, k: nat)
    requires k < |full|
    ensures Filled(full, k)[k := full[k]] == Filled(full, k + 1)
  {
  }

  lemma FillDone(full: seq<string>, k: nat)
    requires forall i :: k <= i < |full| ==> full[i] == Placeholder
    ensures Filled(full, k) == full
  {
  }

  /**
   * `compute(windowSize)`. `results` itself is never sorted: only the reused
   * `buffer` reaches `Average`, and the method may not modify `results`.
   */
  method ComputeRolling(results: array<SolveResult>, windowSize: nat) returns (series: seq<string>)
    ensures series == RollingSeries(results[..], windowSize)
  {
    var n := results.Length;
    var formatted := new string[n](_ => Placeholder);
    ghost var rs := results[..];
    ghost var full := RollingSeries(rs, windowSize);
    RollingTail(rs, windowSize);
    assert formatted[..] == Filled(full, 0);
    if windowSize == 0 || n < windowSize {
      FillDone(full, 0);
      return formatted[..];
    }
    var buffer := new SolveResult[windowSize](_ => Dnf);
    var start := 0;
    while start + windowSize <= n
      invariant start <= n - windowSize + 1
      invariant results[..] == rs
      invariant formatted[..] == Filled(full, start)
    {
      var text := WindowCell(buffer, results, start, rs);
      FillStep(full, start);
      formatted[start] := text;
      start := start + 1;
    }
    FillDone(full, start);
    series := formatted[..];
  }

  /** The text `compute` writes for the window starting at `start`: its `average`, formatted. */
  method WindowCell(buffer: array<SolveResult>, results: array<SolveResult>, start: nat, ghost rs: seq<SolveResult>)
    returns (text: string)
    requires 0 < buffer.Length && start + buffer.Length <= results.Length
    requires buffer != results
    requires results[..] == rs
    modifies buffer
    ensures text == RollingSeries(rs, buffer.Length)[start]
  {
    var result := WindowAverage(buffer, results, start, rs);
    text := FormatResult(result);
    CellText(rs, buffer.Length, start, result);
  }

  /**
   * One pass of the outer loop of `compute`: the inner loop copies the window
   * starting at `start` into `buffer`, then `average` sorts the buffer and
   * trims it.
   */
  method WindowAverage(buffer: array<SolveResult>, results: array<SolveResult>, start: nat, ghost rs: seq<SolveResult>)
    returns (result: Aggregate)
    requires start + buffer.Length <= results.Length
    requires buffer != results
    requires results[..] == rs
    modifies buffer
    ensures result == AverageOf(rs[start..start + buffer.Length])
  {
    var offset := 0;
    while offset < buffer.Length
      invariant offset <= buffer.Length
      invariant buffer[..offset] == results[start..start + offset]
    {
      buffer[offset] := results[start + offset];
      offset := offset + 1;
      assert buffer[..offset] == buffer[..offset - 1] + [buffer[offset - 1]];
    }
    assert buffer[..] == rs[start..start + buffer.Length];
    result := Average(buffer);
  }

  /**
   * `rollingAverages`: the ao5 and ao12 columns. Their first entries (the newest
   * solve) agree with the current ao5 and ao12.
   */
  method RollingAverages(results: array<SolveResult>) returns (ao5: seq<string>, ao12: seq<string>)
    ensures ao5 == RollingSeries(results[..], 5)
    ensures ao12 == RollingSeries(results[..], 12)
    ensures results.Length >= 5 ==> ao5[0] == CurrentStats(results[..]).ao5
    ensures results.Length >= 12 ==> ao12[0] == CurrentStats(results[..]).ao12
  {
    ao5 := ComputeRolling(results, 5);
    ao12 := ComputeRolling(results, 12);
    if results.Length >= 5 {
      RollingSeriesAt(results[..], 5, 0);
      assert results[..][0..5] == results[..][..5];
    }
    if results.Length >= 12 {
      RollingSeriesAt(results[..], 12, 0);
      assert results[..][0..12] == results[..][..12];
    }
  }

  // ---------------------------------------------------------------------------
  // Row selection and numbering
  // ---------------------------------------------------------------------------

  /** The row checkbox: flips the membership of `id` and of nothing else. */
  method ToggleRow(prev: set<string>, id: string) returns (next: set<string>)
    ensures id in next <==> id !in prev
    ensures next - {id} == prev - {id}
  {
    next := prev;
    if id in next {
      next := next - {id};
    } else {
      next := next + {id};
    }
  }

  /** Clicking a row checkbox twice gives back the selection it started from. */
  method ToggleTwice(prev: set<string>, id: string) returns (next: set<string>)
    ensures next == prev
  {
    var once := ToggleRow(prev, id);
    next := ToggleRow(once, id);
    assert next - {id} == prev - {id};
    assert id in next <==> id in prev;
    assert next == (next - {id}) + (next * {id});
    assert prev == (prev - {id}) + (prev * {id});
  }

  function IdSet(ids: seq<string>): set<string> {
    set i | 0 <= i < |ids| :: ids[i]
  }

  /** Adding a row adds its id. */
  lemma IdSetSnoc(ids: seq<string>, x: string)
    ensures IdSet(ids + [x]) == IdSet(ids) + {x}
  {
    var s := ids + [x];
    forall y | y in IdSet(s) ensures y in IdSet(ids) + {x} {
      var i :| 0 <= i < |s| && s[i] == y;
      if i < |ids| {
        assert ids[i] == y;
      }
    }
    forall y | y in IdSet(ids) ensures y in IdSet(s) {
      var i :| 0 <= i < |ids| && ids[i] == y;
      assert s[i] == y;
    }
    assert s[|ids|] == x;
  }

  /**
   * The header checkbox: clears the selection when it has as many ids as there
   * are rows, and otherwise adds the id of every row.
   */
  method SelectAll(prev: set<string>, rowIds: seq<string>) returns (next: set<string>)
    ensures |prev| == |rowIds| ==> next == {}
    ensures |prev| != |rowIds| ==> next == prev + IdSet(rowIds)
  {
    next := prev;
    if |next| == |rowIds| {
      next := {};
    } else {
      var i := 0;
      while i < |rowIds|
        invariant i <= |rowIds|
        invariant next == prev + IdSet(rowIds[..i])
      {
        assert rowIds[..i + 1] == rowIds[..i] + [rowIds[i]];
        IdSetSnoc(rowIds[..i], rowIds[i]);
        next := next + {rowIds[i]};
        i := i + 1;
      }
      assert rowIds[..i] == rowIds;
    }
  }

  /** Distinct ids make a set with one member per row. */
  lemma {:induction false} DistinctCard(ids: seq<string>)
    requires Distinct(ids)
    ensures |IdSet(ids)| == |ids|
  {
    if ids != [] {
      var init := ids[..|ids| - 1];
      assert Distinct(init);
      DistinctCard(init);
      assert IdSet(ids) == IdSet(init) + {ids[|ids| - 1]};
      assert ids[|ids| - 1] !in IdSet(init);
    }
  }

  /**
   * When the selection holds only ids of the (distinct) rows, the header's
   * size test means "every row is selected": select-all then clears, and
   * otherwise it leaves every row selected.
   */
  lemma SelectAllMeansAll(prev: set<string>, rowIds: seq<string>)
    requires Distinct(rowIds)
    requires prev <= IdSet(rowIds)
    ensures |prev| == |rowIds| <==> prev == IdSet(rowIds)
  {
    DistinctCard(rowIds);
    if |prev| == |rowIds| && prev != IdSet(rowIds) {
      var x :| x in IdSet(rowIds) && x !in prev;
      assert prev <= IdSet(rowIds) - {x};
      SubsetCard(prev, IdSet(rowIds) - {x});
    }
  }

  lemma SubsetCard(a: set<string>, b: set<string>)
    requires a <= b
    ensures |a| <= |b|
  {
    assert b == a + (b - a);
  }

  /** `displayIndex`: the newest solve (row 0) is numbered `n`, the oldest 1. */
  function DisplayIndex(count: nat, row: nat): (r: nat)
    requires row < count
    ensures 1 <= r <= count
    ensures row == 0 ==> r == count
    ensures row == count - 1 ==> r == 1
  {
    count - row
  }

  /** Different rows get different numbers. */
  lemma DisplayIndexInjective(count: nat, i: nat, j: nat)
    requires i < count && j < count && i != j
    ensures DisplayIndex(count, i) != DisplayIndex(count, j)
  {
  }
}
