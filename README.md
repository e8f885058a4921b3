# speedcube timer core, modelled in Dafny

This project models the sequential logic of the speedcube web timer and proves what that logic promises. It covers five parts.

- **Solve statistics** (`calc.dfy`, `solves_list.dfy`).
  - `mean` is DNF as soon as one result is a DNF.
  - `average` is the WCA-style trimmed mean. It sorts its array in place with DNFs last, drops `removeCount = max(1, ⌊n/20⌋)` results from each end, and takes the `mean` of the rest.
  - The solves list projects solves to results and shows the current mo3/ao5/ao12/ao-all.
  - It fills the rolling ao5/ao12 columns with a window loop over a reused buffer.
  - It keeps the set of selected rows and numbers the rows.
- **Time formatting** (`time_format.dfy`). `formatTime` turns milliseconds into `SS.cc`, `MM:SS.cc` or `HH:MM:SS.cc`. The reader function `ParseTime` shows that every display can be read back. Its fields are in range, and together they give the rounded time less its last digit.
- **Timer state machine** (`timer_controller.dfy`). This is a class whose fields are the hook's refs and state. The hold timeout and the animation frame are explicit pending state with their own callbacks. The field `attached` says whether `timerEl.current` is the mounted `<p>` of the timer display. The page calling the hook shows a spinner instead of the display while its session loads, always on its first render (apps/web/src/routes/index.tsx:30-36). So the listeners can be live with no element, and the element mounts and unmounts in steps of its own (`Attach`, `Detach`). A `render` without the element throws at its write, so a stop then records no solve.
- **Scramble history** (`scramble_history.dfy`). A class holds the scrambles of one event and the index being shown.
- **Current-event store** (`event_store.dfy`, with the event list in `scramble.dfy`). A class holds the module-level current event, its listeners, and `localStorage` as a map.

How values are represented:

- A result is `Timed(ms)` or `Dnf`.
- An aggregate is `AggTime(total, count)` or `AggDnf`. Its `Ms()` is the exact quotient `total / count`, and `0 / 0` is 0.
- A solve keeps only its id and its optional time.
- The formatter is modelled on non-negative inputs. `Math.round` is `⌊x + 1/2⌋`. `formatResult` rounds the exact mean and then formats it.

One behaviour of the scramble history is shown rather than hidden. `goToPrevious` on an empty history moves the index from -1 to 0, one past the end. The next generated scramble then lands at index 0 while the index moves to 1. `PreviousBeforeFirstScramble` proves that no current scramble is shown afterwards. So the class invariant is `-1 <= index <= |history|`, not `index < |history|`. No caller in the source shows how "previous" is gated: the only call of the navigation in the routes is `goToNext`.

## Model

| member | source | states |
|---|---|---|
| Calc.Aggregate.Ms | apps/web/src/lib/calc.ts:22 | the time of a non-DNF aggregate is never negative |
| Calc.Mean | apps/web/src/lib/calc.ts:11-27 | the mean is DNF exactly when some input is a DNF; a timed mean averages over all the inputs |
| Calc.MeanOfNone | apps/web/src/lib/calc.ts:22 | the mean of no results is a time of 0, not an error |
| Calc.HasDnf | apps/web/src/lib/calc.ts:12 | definition, not a proved property: `values.some((v) => v.dnf)` |
| Calc.SumTimes | apps/web/src/lib/calc.ts:19-21 | definition, not a proved property: the times of the non-DNF results, summed from 0 |
| Calc.MeanTimesLength | apps/web/src/lib/calc.ts:19-27 | a DNF-free non-empty mean times the number of results is the sum of their times |
| Calc.MeanBounds | apps/web/src/lib/calc.ts:19-27 | the mean of times between `lo` and `hi` lies between `lo` and `hi` |
| Calc.SumTimesPermutation | apps/web/src/lib/calc.ts:19-21 | the summed time depends only on the multiset of results |
| Calc.MeanOrderIndependent | apps/web/src/lib/calc.ts:11-27 | `mean` gives the same result for any rearrangement of its input |
| Calc.InsertDown | apps/web/src/lib/calc.ts:31-35 | one insertion step with the source's comparator extends the sorted prefix by one element and keeps the multiset |
| Calc.Compare | apps/web/src/lib/calc.ts:31-35 | definition, not a proved property: the comparator handed to `sort`, 1 when the first is a DNF, otherwise -1 when the second is, otherwise the difference of the times |
| Calc.SortResults | apps/web/src/lib/calc.ts:31-35 | the reference sort keeps the length; `SortResultsSorted`, `SortResultsMultiset` and `SortResultsIs` state what it is |
| Calc.SortInPlace | apps/web/src/lib/calc.ts:31-35 | after the in-place sort the array is sorted (times ascending, DNFs last), is a permutation of its old contents, and equals the reference sort `SortResults` |
| Calc.SortResultsSorted | apps/web/src/lib/calc.ts:31-35 | the reference sort's output is sorted |
| Calc.SortResultsMultiset | apps/web/src/lib/calc.ts:31-35 | the reference sort's output is a permutation of its input |
| Calc.SortedUnique | apps/web/src/lib/calc.ts:31-35 | two sorted arrangements of the same results are equal, so any correct sort leaves the same array |
| Calc.SortedDnfSuffix | apps/web/src/lib/calc.ts:31-35 | in a sorted list the DNFs occupy exactly the last `CountDnf` positions |
| Calc.RemoveCount | apps/web/src/lib/calc.ts:37 | at least one result is dropped from each end, and exactly one below 40 results |
| Calc.RemoveCountBounds | apps/web/src/lib/calc.ts:37 | from 20 results on, `removeCount` is `⌊n/20⌋`: one in every twenty, rounded down |
| Calc.Slice | apps/web/src/lib/calc.ts:38 | `slice` with in-range bounds is the subsequence, and an empty or inverted range gives nothing |
| Calc.Trimmed | apps/web/src/lib/calc.ts:37-38 | definition, not a proved property: `slice(removeCount, length - removeCount)` of the sorted list; `TrimmedShape` states its shape |
| Calc.TrimmedShape | apps/web/src/lib/calc.ts:37-38 | the trimmed slice has length `max(0, n - 2·removeCount)` and is the middle of the sorted list |
| Calc.Average | apps/web/src/lib/calc.ts:30-40 | `average` leaves its array sorted and permuted and returns the mean of the trimmed sorted input |
| Calc.AverageOf | apps/web/src/lib/calc.ts:30-40 | definition, not a proved property: the mean of the trimmed reference-sorted input, which `Average` returns |
| Calc.TrimmedHasDnf | apps/web/src/lib/calc.ts:37-39 | a DNF survives trimming of a sorted list exactly when `n > 2·removeCount` and more than `removeCount` results are DNFs |
| Calc.AverageDnfIff | apps/web/src/lib/calc.ts:30-40 | `average` is DNF if and only if `n > 2·removeCount` and the number of DNFs exceeds `removeCount` |
| Calc.AverageOrderIndependent | apps/web/src/lib/calc.ts:30-40 | `average` does not depend on the order of its input |
| Calc.AverageOfFewIsZero | apps/web/src/lib/calc.ts:37-39 | with at most two results the average is a time of 0 (`mean([])`), whatever the results are |
| Calc.SortResultsIs | apps/web/src/lib/calc.ts:31-35 | any sorted permutation of the input is what the sort produces |
| Calc.ExampleTrimmedMean | apps/web/src/lib/calc.ts:37-39 | trimming `[11000, 12000, 13000, 14000, DNF]` leaves a mean of 39000 over 3 |
| Calc.ExampleSort | apps/web/src/lib/calc.ts:31-35 | `[12000, 13000, 11000, DNF, 14000]` sorts to `[11000, 12000, 13000, 14000, DNF]` |
| Calc.AverageExample | apps/web/src/lib/calc.ts:30-40 | `[12000, 13000, 11000, DNF, 14000]` averages to 13000: 11000 and the DNF are dropped |
| TimeFormat.RoundMs | apps/web/src/lib/index.ts:8 | `Math.round` of a non-negative time is the whole number within half a millisecond of it |
| TimeFormat.MathRound | apps/web/src/lib/index.ts:8 | definition, not a proved property: `Math.round` as `⌊x + 1/2⌋` |
| TimeFormat.NatToString | apps/web/src/lib/index.ts:15 | definition, not a proved property: `String(n)`, the decimal digits without leading zeros; `NatToStringDigits` states what they denote |
| TimeFormat.PadStart2 | apps/web/src/lib/index.ts:15-16 | definition, not a proved property: `padStart(2, "0")` |
| TimeFormat.FormatTime | apps/web/src/lib/index.ts:9-33 | definition, not a proved property: `formatTime` on a whole number of milliseconds, in its three layouts; `FormatParses` and `FormatLayout` state what it shows |
| TimeFormat.FormatTimeOf | apps/web/src/lib/index.ts:7-8 | definition, not a proved property: `formatTime` on any non-negative time, rounded first; `FormatTimeOfParses` states what it shows |
| TimeFormat.FormatTimeOfWhole | apps/web/src/lib/index.ts:8 | rounding leaves a whole number of milliseconds unchanged |
| TimeFormat.NatToStringDigits | apps/web/src/lib/index.ts:15 | `String(n)` is a digit string denoting `n`, with one digit below 10 and two below 100 |
| TimeFormat.TwoDigitField | apps/web/src/lib/index.ts:15-16 | a field below 100, padded to two characters, is two digits denoting the field |
| TimeFormat.HoursField | apps/web/src/lib/index.ts:28 | the hours field has at least two digits and denotes the full number of hours, never wrapped |
| TimeFormat.ExpectedClockFields | apps/web/src/lib/index.ts:9-12 | minutes and seconds are below 60, centiseconds below 100, and the fields recombine to `ms - ms % 10` |
| TimeFormat.Recombine | apps/web/src/lib/index.ts:9-10 | splitting the milliseconds into hours, minutes, seconds and centiseconds loses only `ms % 10` |
| TimeFormat.FormatParses | apps/web/src/lib/index.ts:7-33 | every display reads back; its minutes and seconds are below 60; its centiseconds are the truncated `(ms mod 1000)/10`; its hours are `ms / 3600000` in full; together the fields give `ms - ms mod 10` |
| TimeFormat.FormatLayout | apps/web/src/lib/index.ts:14-32 | the layout is `SS.cc` (5 characters) below 60 s, `MM:SS.cc` (8 characters) below an hour, and `HH:MM:SS.cc` (at least 11) from an hour on |
| TimeFormat.FormatTimeOfParses | apps/web/src/lib/index.ts:7-33 | a rounded display reads back to the rounded time less its last digit |
| TimeFormat.FormatExampleHours | apps/web/src/lib/index.ts:27-32 | `formatTime(7265432)` is `"02:01:05.43"` |
| TimeFormat.FormatExampleZero | apps/web/src/lib/index.ts:14-18 | `formatTime(0)` is `"00.00"` |
| SolvesList.SolveResults | apps/web/src/components/solves-list.tsx:237-244 | no data gives no results; otherwise there is one result per solve, in order; a result is DNF exactly when the solve has no time, and a timed one keeps its time |
| SolvesList.ToResult | apps/web/src/components/solves-list.tsx:239-243 | definition, not a proved property: a solve with a time is that time, one without is a DNF |
| SolvesList.FormatResult | apps/web/src/components/solves-list.tsx:247-251 | a display is `"DNF"` exactly for a DNF aggregate, and is never the placeholder |
| SolvesList.FormatResultParses | apps/web/src/components/solves-list.tsx:247-251 | a shown mean reads back to its rounded value less the last digit, and `"DNF"` reads as no time |
| SolvesList.CurrentStats | apps/web/src/components/solves-list.tsx:253-268 | mo3, ao5 and ao12 are the placeholder exactly below 3, 5 and 12 results, and otherwise the formatted mean or average of the newest 3, 5 or 12; ao-all is the placeholder only for no results; the count is the number of results |
| SolvesList.Mo3Dnf | apps/web/src/components/solves-list.tsx:253-256 | the mo3 shows DNF exactly when one of the newest three results is a DNF |
| SolvesList.AverageWindowDnf | apps/web/src/components/solves-list.tsx:257-264 | the ao5 and ao12 show DNF exactly when two or more of their results are DNFs |
| SolvesList.AoAllOfFew | apps/web/src/components/solves-list.tsx:265-266 | with one or two results the ao-all shows `00.00`, even for DNFs |
| SolvesList.RollingSeriesAt | apps/web/src/components/solves-list.tsx:273-293 | the column has one entry per result; an entry is the placeholder exactly where no full window starts (all of them when `w = 0` or `n < w`, otherwise the last `w - 1`), and every other entry is the formatted average of `results[s..s+w)` |
| SolvesList.RollingSeries | apps/web/src/components/solves-list.tsx:272-296 | definition, not a proved property: the column `compute(windowSize)` returns, one `RollingCell` per result; `RollingSeriesAt` states its entries |
| SolvesList.RollingCell | apps/web/src/components/solves-list.tsx:283-292 | definition, not a proved property: the formatted average of the window starting at an index where a full window fits, the placeholder elsewhere |
| SolvesList.WindowAverage | apps/web/src/components/solves-list.tsx:283-287 | copying a window into the reused buffer and averaging it gives the average of that window of `results` |
| SolvesList.WindowCell | apps/web/src/components/solves-list.tsx:283-292 | the text one pass of the outer loop writes for the window starting at `start` is the rolling column's entry at `start` |
| SolvesList.ComputeRolling | apps/web/src/components/solves-list.tsx:272-296 | the loop fills exactly the rolling column `RollingSeries`; `results` is never modified, since only the buffer is sorted |
| SolvesList.RollingAverages | apps/web/src/components/solves-list.tsx:271-302 | the ao5 and ao12 columns are the rolling columns of width 5 and 12, and their first entries equal the current ao5 and ao12 |
| SolvesList.ToggleRow | apps/web/src/components/solves-list.tsx:546-554 | a row checkbox flips the membership of its id and of no other id |
| SolvesList.ToggleTwice | apps/web/src/components/solves-list.tsx:546-554 | toggling a row twice restores the selection |
| SolvesList.SelectAll | apps/web/src/components/solves-list.tsx:441-451 | the header checkbox clears the selection when its size equals the row count, and otherwise adds every row id |
| SolvesList.DistinctCard | apps/web/src/components/solves-list.tsx:441-451 | distinct row ids form a set with one member per row |
| SolvesList.SelectAllMeansAll | apps/web/src/components/solves-list.tsx:441-451 | for a selection of row ids, the size test means every row is selected |
| SolvesList.DisplayIndex | apps/web/src/components/solves-list.tsx:526 | row numbers run from `n` for the newest solve down to 1 for the oldest |
| SolvesList.DisplayIndexInjective | apps/web/src/components/solves-list.tsx:526 | different rows get different numbers |
| TimerController.Controller.constructor | apps/web/src/hooks/useTimerController.ts:67-75 | the timer starts idle, with nothing pending and the listeners attached, but with no element yet, since the page first renders its spinner; `display` holds `formatTime(0)`, the `00.00` the element is created with |
| TimerController.Controller.ClearTimer | apps/web/src/hooks/useTimerController.ts:86-91 | `clearTimer` cancels the pending hold timeout and changes nothing else |
| TimerController.Controller.Elapsed | apps/web/src/hooks/useTimerController.ts:78-80 | definition, not a proved property: the shown time is the stored time, plus the running stretch while running |
| TimerController.Controller.Render | apps/web/src/hooks/useTimerController.ts:77-84 | on the mounted element, `render` shows the formatted elapsed time and requests a frame only while running; without one it throws at line 81 and changes nothing |
| TimerController.Controller.HandleStart | apps/web/src/hooks/useTimerController.ts:93-99 | `handleStart` does nothing while running; otherwise it starts from 0 at `now` with a frame requested |
| TimerController.Controller.HandleStop | apps/web/src/hooks/useTimerController.ts:101-116 | `handleStop` does nothing when stopped; otherwise it adds the running stretch, stops and cancels the frame; with the element mounted it then shows the final time and records one measurement (no time for a DNF, event `"333"`); without one the render throws, nothing is shown and no solve is recorded |
| TimerController.Controller.OnKeyDown | apps/web/src/hooks/useTimerController.ts:118-136 | an ignored key changes no state; while running, any key stops the timer (Escape as a DNF) and starts no hold, and the solve is recorded exactly when the element is mounted, the listener throwing otherwise; a fresh Space while stopped cancels the old timeout, shows the hold and schedules one timeout `HoldMs` later; the timer invariant is kept |
| TimerController.Controller.OnKeyUp | apps/web/src/hooks/useTimerController.ts:138-147 | an ignored or non-Space release changes no state; a Space release cancels the timeout and the hold, starts the timer only if the hold had completed, and clears the ready state |
| TimerController.Controller.TimeoutFires | apps/web/src/hooks/useTimerController.ts:131-134 | the hold timeout ends the hold and makes the timer ready |
| TimerController.Controller.FrameFires | apps/web/src/hooks/useTimerController.ts:77-84 | on the mounted element an animation frame shows the running time and requests the next frame; on a detached one it throws at the write of line 81, shows nothing and requests no frame |
| TimerController.Controller.Attach | apps/web/src/components/timer-display.tsx:49-57 | the display's `<p>` mounts showing `formatTime(0)`, and nothing else changes |
| TimerController.Controller.Detach | apps/web/src/routes/index.tsx:30-36 | the page replaces the display by its spinner: the element is gone and nothing else changes |
| TimerController.Controller.Teardown | apps/web/src/hooks/useTimerController.ts:156-159 | unmounting detaches the element and the listeners and cancels the hold timeout, and leaves a requested frame pending |
| TimerController.HoldAndSolve | apps/web/src/hooks/useTimerController.ts:118-147 | holding Space past the timeout, releasing, and pressing Space `solve` ms later records exactly one solve of `solve` ms and shows it; the following Space release does not restart the timer |
| TimerController.EarlyRelease | apps/web/src/hooks/useTimerController.ts:127-146 | a release before the hold timeout never starts the timer and leaves no timeout pending |
| TimerController.EscapeIsDnf | apps/web/src/hooks/useTimerController.ts:121-123 | stopping with Escape records a measurement without a time |
| TimerController.IgnoredKeyKeepsRunning | apps/web/src/hooks/useTimerController.ts:119 | a key press the DOM check ignores does not stop a running timer |
| TimerController.Controller.TeardownCancellingFrame | apps/web/src/hooks/useTimerController.ts:156-159 | the cleanup with the frame cancelled as `handleStop` cancels it: listeners detached and no timeout and no frame left pending, every other field kept |
| TimerController.UnmountWhileRunning | apps/web/src/hooks/useTimerController.ts:77-84 | after unmounting a running timer with the cleanup as written, a frame is still pending, and when it fires it writes through the null element reference and throws, with the display untouched |
| TimerController.StopWhileDisplayHidden | apps/web/src/hooks/useTimerController.ts:101-116 | a stop while the spinner replaces the display stops the timer, but the listener throws and no solve is recorded |
| TimerController.UnmountWhileRunningCancelled | apps/web/src/hooks/useTimerController.ts:156-159 | after unmounting a running timer with the frame cancelled, nothing is left pending |
| ScrambleHistory.PreviousIndex | apps/web/src/hooks/useScrambleHistory.ts:72 | stepping back moves one down and never below 0 |
| ScrambleHistory.NextIndex | apps/web/src/hooks/useScrambleHistory.ts:67 | stepping forward moves one up and never past the last scramble |
| ScrambleHistory.StepsStayInRange | apps/web/src/hooks/useScrambleHistory.ts:67-72 | inside a non-empty history both steps stay inside it |
| ScrambleHistory.NextThenPrevious | apps/web/src/hooks/useScrambleHistory.ts:67-72 | below the last scramble, forward then back returns to the same index |
| ScrambleHistory.History.constructor | apps/web/src/hooks/useScrambleHistory.ts:22-26 | the hook starts with no scrambles, index -1, and not initialized |
| ScrambleHistory.History.CurrentScramble | apps/web/src/hooks/useScrambleHistory.ts:75 | definition, not a proved property: there is a current scramble exactly when the index is inside the history, and it is the scramble at the index |
| ScrambleHistory.History.CanGoPrevious | apps/web/src/hooks/useScrambleHistory.ts:76 | definition, not a proved property: "previous" is offered exactly when the index is above 0 |
| ScrambleHistory.History.CanGoNext | apps/web/src/hooks/useScrambleHistory.ts:77 | definition, not a proved property: "next" is always offered |
| ScrambleHistory.History.OnEventChange | apps/web/src/hooks/useScrambleHistory.ts:28-35 | a new event empties the history, sets the index to -1 and clears the initialized flag; the same event changes nothing |
| ScrambleHistory.History.GenerateScramble | apps/web/src/hooks/useScrambleHistory.ts:37-54 | a success appends exactly one scramble, increments the index and returns it; a failure changes nothing and returns none; `isGenerating` is false afterwards; an index inside the history stays inside it |
| ScrambleHistory.History.Initialize | apps/web/src/hooks/useScrambleHistory.ts:56-61 | the initial generation runs only when the event is not yet initialized |
| ScrambleHistory.History.GoToNext | apps/web/src/hooks/useScrambleHistory.ts:63-69 | at the last scramble it generates; otherwise it steps forward within the history; an index inside the history stays inside it |
| ScrambleHistory.History.GoToPrevious | apps/web/src/hooks/useScrambleHistory.ts:71-73 | the index becomes `max(index - 1, 0)`, never negative, and stays inside the history if it was |
| ScrambleHistory.MountGeneratesOnce | apps/web/src/hooks/useScrambleHistory.ts:56-61 | a second run of the initial effect generates nothing, and the first scramble is current |
| ScrambleHistory.ForwardThenBack | apps/web/src/hooks/useScrambleHistory.ts:63-73 | forward from the newest scramble generates a new one; back then shows the first again |
| ScrambleHistory.SwitchEvent | apps/web/src/hooks/useScrambleHistory.ts:28-61 | switching events drops the history, and the initial generation runs again for the new event |
| ScrambleHistory.PreviousBeforeFirstScramble | apps/web/src/hooks/useScrambleHistory.ts:44-75 | `goToPrevious` on an empty history and then a generate leave the index past the end, with no current scramble |
| EventStore.StoredEvent | apps/web/src/hooks/useEvent.ts:7-14 | the stored value is used only when it is a listed event; otherwise, and on the server, the result is `"333"` |
| EventStore.Remove | apps/web/src/hooks/useEvent.ts:31 | deleting a listener removes that listener and keeps every other |
| EventStore.RemoveDistinct | apps/web/src/hooks/useEvent.ts:31 | the listeners stay free of duplicates after a delete |
| EventStore.RemoveAbsent | apps/web/src/hooks/useEvent.ts:31 | deleting an absent listener changes nothing |
| EventStore.Store.constructor | apps/web/src/hooks/useEvent.ts:16-17 | the current event starts as the validated stored event, with no listeners |
| EventStore.Store.Snapshot | apps/web/src/hooks/useEvent.ts:47 | definition, not a proved property: the client snapshot is the current event, which is always a listed one |
| EventStore.Store.ServerSnapshot | apps/web/src/hooks/useEvent.ts:48 | definition, not a proved property: the server snapshot is `"333"` |
| EventStore.Store.SetEventValue | apps/web/src/hooks/useEvent.ts:19-26 | setting the current event again writes nothing and calls nobody; a new event becomes current, is written under the storage key (not on the server), and every listener is called exactly once, in subscription order |
| EventStore.Store.Subscribe | apps/web/src/hooks/useEvent.ts:28-30 | subscribing adds the listener once |
| EventStore.Store.Unsubscribe | apps/web/src/hooks/useEvent.ts:30-32 | the returned function removes that listener and no other |
| EventStore.Store.OnStorage | apps/web/src/hooks/useEvent.ts:35-42 | the storage shows the other tab's write (a set key, a removed key, or everything cleared); then other keys, a removed or empty value and a value that is not an event leave the event and the listeners alone, and a listed event is set as by `setEventValue` |
| EventStore.OtherTabRemovesEvent | apps/web/src/hooks/useEvent.ts:35-42 | when another tab removes the stored event, this tab's storage no longer holds it, and the current event stays and nobody is called |
| EventStore.NotifyRemaining | apps/web/src/hooks/useEvent.ts:19-33 | after one of two listeners unsubscribes, a change calls the other exactly once and stores the event, and setting the same event again calls nobody |

## Left out

- `shouldIgnoreForTimer` (apps/web/src/hooks/useTimerController.ts:13-49) queries the DOM. It is replaced by the boolean `ignored` argument of the key handlers.
- `e.preventDefault()` on a fresh Space press (apps/web/src/hooks/useTimerController.ts:128) only keeps the browser from scrolling. The model has no page to scroll, so it leaves the call out.
- Teardown: the unmount of the component is one step, in which React clears `timerEl.current` and the effect's cleanup runs. The model does not capture the moment between React's detaching of the ref and its later run of the passive cleanup. `FrameFires` records the throw of `render` on a detached element as `threw`; how the browser reports the uncaught error is not modelled.
- Browser timing primitives are not modelled.
  - `setTimeout`, `clearTimeout`, `requestAnimationFrame` and `cancelAnimationFrame` become the pending state `timeoutDue` and `framePending`, plus the callbacks `TimeoutFires` and `FrameFires`.
  - The hook keeps the id of a timeout even after it fires. Cancelling that id later does nothing, so the model does not keep it.
- `performance.now()` returns a float. The model takes an integer `now` that never decreases, so elapsed times are whole milliseconds.
- React batches and defers state updates, and callbacks can see state from an older render. The model applies each update at once, as if every event ran after the previous event's render.
- The engine's sort algorithm is not modelled. `SortInPlace` is an insertion sort with the same comparator. `SortedUnique` proves that only one sorted arrangement exists, so any correct sort leaves the same array.
- The comparator's answer for two DNFs is inconsistent (each ranks above the other). That does not change the result, because all DNFs are equal values.
- Floating point is not modelled.
  - `Math.floor(n * 0.05)` is taken as `n / 20`.
  - The mean is the exact quotient `total / count`, and `formatResult` rounds that exact value, not a rounded double.
- `formatTime` on negative input is not modelled. Every caller passes a non-negative time.
- The `onSolve` callback and the database behind it (`db.ts`, `session-provider.tsx`) are not modelled. The model records each call's argument in `solves`.
- GenerateScramble, GoToNext and Initialize: `generateScramble` is asynchronous. It awaits the scrambler twice and then applies functional updates (apps/web/src/hooks/useScrambleHistory.ts:38-53). The model runs each generation as one atomic step. It does not capture a second `goToNext` or an event switch while a generation is in flight, where the old event's scramble can land in the new event's emptied history. It also does not capture that `isGenerating` is observable as true in between.
- The scrambler is not modelled: the dynamic import of `cubing`, `randomScrambleForEvent`, the cached loader and `console.error`. Each generating operation is given its outcome as an `Option<string>`.
- `useSyncExternalStore` is not modelled. Listeners are identified by numbers, and `notified` records every call in order.
- UI and rendering are not modelled: JSX, the virtualizer, dialogs and menus, clipboard writes and `formatSolveSummary`. The `cn` class-name helper, the server adapter in `apps/web/api/index.ts` and the label table in `apps/web/src/lib/scramble.ts` are also left out.

## Findings

| source | as written | input that shows it | evidently intended | confidence | as-written member | corrected member |
|---|---|---|---|---|---|---|
| apps/web/src/hooks/useTimerController.ts:156-159 | the effect cleanup aborts the listeners and clears the hold timeout, but never cancels the animation frame that a running timer has requested; when that frame fires after the unmount, `render` writes through `timerEl.current`, which React has set to null, and throws an uncaught TypeError at line 81 | start the timer (hold Space for 500 ms, release), then unmount the component | the cleanup also cancels the pending frame, as `handleStop` does (lines 106-108) | not executed | TimerController.UnmountWhileRunning | TimerController.Controller.TeardownCancellingFrame |
