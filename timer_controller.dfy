/**
 * The keyboard timer of `useTimerController`: hold Space for half a second,
 * release to start, press any key to stop (Escape records a DNF).
 *
 * The refs and the two pieces of React state become fields of one object. The
 * browser's timing primitives become explicit state: `timeoutDue` is the hold
 * timeout that has been scheduled and has not fired, `framePending` the
 * requested animation frame. Their callbacks are the methods `TimeoutFires` and
 * `FrameFires`. `performance.now()` becomes the argument `now`, which never
 * goes backwards; `ignored` stands for the DOM check `shouldIgnoreForTimer`.
 */
module TimerController {
  import opened Wrappers
  import TimeFormat

  /** How long Space must be held before a release starts the timer, in milliseconds. */
  const HoldMs: nat := 500

  /** The only event this timer records. */
  const Event333: string := "333"

  /** The argument of `onSolve`: a time in milliseconds, or none for a DNF. */
  datatype Measurement = Measurement(time: Option<nat>, event: string)

  class Controller {
    var running: bool
    var startTime: int
    var timerMilliseconds: nat
    /** An animation frame has been requested and has not yet fired. */
    var framePending: bool
    /** When the scheduled hold timeout fires, if one is scheduled and has not fired. */
    var timeoutDue: Option<int>
    var holdingReady: bool
    var startReady: bool
    /** The keydown and keyup listeners are attached (between mount and cleanup). */
    var listening: bool
    /**
     * `timerEl.current` is the mounted `<p>` of the timer display. It starts
     * as null, and React sets and clears it as that element mounts and
     * unmounts, which need not happen together with the listeners: the page
     * shows a spinner instead of the display while its session loads.
     */
    var attached: bool
    /** The text of the timer element, while one is mounted. */
    var display: string
    /** Every call of `onSolve`, in order. */
    var solves: seq<Measurement>
    /** The latest `now` any operation has seen. */
    ghost var clock: int

    /**
     * While the timer runs there is no hold in progress, nothing is ready and
     * no hold timeout is pending; a frame is only requested while running; a
     * pending timeout always belongs to a hold that is showing, and while the
     * listeners are attached a showing hold always has its timeout pending.
     */
    ghost predicate Valid()
      reads this
    {
      && (running ==> !holdingReady && !startReady && timeoutDue.None? && startTime <= clock)
      && (framePending ==> running)
      && (timeoutDue.Some? ==> holdingReady)
      && (listening && holdingReady ==> timeoutDue.Some?)
    }

    /**
     * Mounting the component that calls the hook: everything idle and the
     * listeners attached, but no timer element yet, since the page first
     * renders its spinner. `display` holds the text the element is created
     * with, the format of zero milliseconds.
     */
    constructor(now: int)
      ensures Valid() && clock == now
      ensures !running && startTime == 0 && timerMilliseconds == 0 && !framePending
      ensures timeoutDue.None? && !holdingReady && !startReady && listening && !attached
      ensures display == TimeFormat.FormatTime(0) && solves == []
    {
      running := false;
      startTime := 0;
      timerMilliseconds := 0;
      framePending := false;
      timeoutDue := None;
      holdingReady := false;
      startReady := false;
      listening := true;
      attached := false;
      TimeFormat.FormatExampleZero();
      display := "00.00";
      solves := [];
      clock := now;
    }

    /** `clearTimer`: cancel the hold timeout, if one is pending. */
    method ClearTimer()
      modifies this
      ensures timeoutDue.None?
      ensures running == old(running) && startTime == old(startTime)
      ensures timerMilliseconds == old(timerMilliseconds) && framePending == old(framePending)
      ensures holdingReady == old(holdingReady) && startReady == old(startReady)
      ensures listening == old(listening) && attached == old(attached) && display == old(display) && solves == old(solves)
      ensures clock == old(clock)
    {
      timeoutDue := None;
    }

    /** The milliseconds `render` shows: the stored time, plus the running stretch. */
    function Elapsed(now: int): nat
      requires running ==> startTime <= now
      reads this
    {
      timerMilliseconds + (if running then now - startTime else 0)
    }

    /**
     * `render`: show the elapsed time, and request the next frame while
     * running. Without a mounted element the write through the null
     * `timerEl.current` throws before anything is shown or requested.
     */
    method Render(now: int) returns (threw: bool)
      requires running ==> startTime <= now
      modifies this
      ensures threw == !attached
      ensures attached ==> display == TimeFormat.FormatTime(old(Elapsed(now)))
      ensures attached ==> framePending == (old(framePending) || running)
      ensures !attached ==> display == old(display) && framePending == old(framePending)
      ensures running == old(running) && startTime == old(startTime)
      ensures timerMilliseconds == old(timerMilliseconds) && timeoutDue == old(timeoutDue)
      ensures holdingReady == old(holdingReady) && startReady == old(startReady)
      ensures listening == old(listening) && attached == old(attached) && solves == old(solves) && clock == old(clock)
    {
      if !attached {
        return true;
      }
      threw := false;
      display := TimeFormat.FormatTime(Elapsed(now));
      if running {
        framePending := true;
      }
    }

    /** `handleStart`: a no-op while running; otherwise start from zero at `now`. */
    method HandleStart(now: int)
      requires now >= clock
      modifies this
      ensures clock == now
      ensures old(running) ==> startTime == old(startTime) && timerMilliseconds == old(timerMilliseconds)
                                && framePending == old(framePending)
      ensures !old(running) ==> startTime == now && timerMilliseconds == 0 && framePending
      ensures running
      ensures timeoutDue == old(timeoutDue) && holdingReady == old(holdingReady) && startReady == old(startReady)
      ensures listening == old(listening) && attached == old(attached) && display == old(display) && solves == old(solves)
    {
      clock := now;
      if running {
        return;
      }
      running := true;
      timerMilliseconds := 0;
      startTime := now;
      framePending := true;
    }

    /**
     * `handleStop(dnf)`: a no-op when not running. Otherwise add the running
     * stretch to the stored time, stop, cancel the frame, render once and hand
     * the measurement — no time for a DNF — to `onSolve`. Without a mounted
     * element the render throws, so `onSolve` is never called and the solve
     * is lost.
     */
    method HandleStop(now: int, dnf: bool) returns (threw: bool)
      requires running ==> startTime <= now
      requires now >= clock
      modifies this
      ensures clock == now
      ensures threw == (old(running) && !attached)
      ensures !old(running) ==> timerMilliseconds == old(timerMilliseconds) && framePending == old(framePending)
                                 && display == old(display) && solves == old(solves)
      ensures old(running) ==> timerMilliseconds == old(timerMilliseconds) + (now - old(startTime)) && !framePending
      ensures old(running) && attached ==> display == TimeFormat.FormatTime(timerMilliseconds)
      ensures old(running) && attached ==>
                solves == old(solves) + [Measurement(if dnf then None else Some(timerMilliseconds), Event333)]
      ensures old(running) && !attached ==> display == old(display) && solves == old(solves)
      ensures !running && startTime == old(startTime)
      ensures timeoutDue == old(timeoutDue) && holdingReady == old(holdingReady) && startReady == old(startReady)
      ensures listening == old(listening) && attached == old(attached)
    {
      clock := now;
      if !running {
        return false;
      }
      timerMilliseconds := timerMilliseconds + (now - startTime);
      running := false;
      framePending := false;
      threw := Render(now);
      if !threw {
        solves := solves + [Measurement(if dnf then None else Some(timerMilliseconds), Event333)];
      }
    }

    /**
     * The keydown listener. An ignored event, or one after cleanup, does
     * nothing. While running, Escape stops with a DNF and any other key stops
     * with a time; without a mounted element that stop throws and records
     * nothing. Otherwise a fresh (non-repeat) Space press restarts the hold:
     * the old timeout is cancelled, the hold shows, and one timeout is
     * scheduled `HoldMs` later.
     */
    method OnKeyDown(now: int, ignored: bool, key: string, code: string, repeat: bool) returns (threw: bool)
      requires Valid() && now >= clock
      modifies this
      ensures Valid() && clock == now
      ensures threw == (old(listening) && !ignored && old(running) && !attached)
      ensures !old(listening) || ignored ==>
                running == old(running) && startTime == old(startTime) && timerMilliseconds == old(timerMilliseconds)
                && framePending == old(framePending) && timeoutDue == old(timeoutDue)
                && holdingReady == old(holdingReady) && startReady == old(startReady)
                && display == old(display) && solves == old(solves)
      ensures old(listening) && !ignored && old(running) ==>
                !running && startTime == old(startTime) && !framePending && timeoutDue.None? && !holdingReady && !startReady
                && timerMilliseconds == old(timerMilliseconds) + (now - old(startTime))
      ensures old(listening) && !ignored && old(running) && attached ==>
                display == TimeFormat.FormatTime(timerMilliseconds)
                && solves == old(solves) + [Measurement(if key == "Escape" then None else Some(timerMilliseconds), Event333)]
      ensures old(listening) && !ignored && old(running) && !attached ==>
                display == old(display) && solves == old(solves)
      ensures old(listening) && !ignored && !old(running) && code == "Space" && !repeat ==>
                !running && startTime == old(startTime) && framePending == old(framePending) && timeoutDue == Some(now + HoldMs)
                && holdingReady && startReady == old(startReady)
                && timerMilliseconds == old(timerMilliseconds) && display == old(display) && solves == old(solves)
      ensures old(listening) && !ignored && !old(running) && (code != "Space" || repeat) ==>
                !running && startTime == old(startTime) && framePending == old(framePending) && timeoutDue == old(timeoutDue)
                && holdingReady == old(holdingReady) && startReady == old(startReady)
                && timerMilliseconds == old(timerMilliseconds) && display == old(display) && solves == old(solves)
      ensures listening == old(listening) && attached == old(attached)
    {
      if !listening || ignored {
        clock := now;
        return false;
      }
      if running {
        threw := HandleStop(now, key == "Escape");
        return;
      }
      threw := false;
      clock := now;
      if code == "Space" && !repeat {
        ClearTimer();
        holdingReady := true;
        timeoutDue := Some(now + HoldMs);
      }
    }

    /**
     * The keyup listener. An ignored event, or one after cleanup, does
     * nothing. Releasing Space cancels the hold timeout and the hold, starts
     * the timer only if the hold had completed, and clears the ready state.
     */
    method OnKeyUp(now: int, ignored: bool, code: string)
      requires Valid() && now >= clock
      modifies this
      ensures Valid() && clock == now
      ensures !old(listening) || ignored || code != "Space" ==>
                running == old(running) && startTime == old(startTime) && timerMilliseconds == old(timerMilliseconds)
                && framePending == old(framePending) && timeoutDue == old(timeoutDue)
                && holdingReady == old(holdingReady) && startReady == old(startReady)
                && display == old(display) && solves == old(solves)
      ensures old(listening) && !ignored && code == "Space" ==>
                timeoutDue.None? && !holdingReady && !startReady
                && running == (old(running) || old(startReady))
                && display == old(display) && solves == old(solves)
      ensures old(listening) && !ignored && code == "Space" && old(startReady) && !old(running) ==>
                startTime == now && timerMilliseconds == 0 && framePending
      ensures old(listening) && !ignored && code == "Space" && !(old(startReady) && !old(running)) ==>
                startTime == old(startTime) && timerMilliseconds == old(timerMilliseconds)
                && framePending == old(framePending)
      ensures listening == old(listening) && attached == old(attached)
    {
      if !listening || ignored || code != "Space" {
        clock := now;
        return;
      }
      ClearTimer();
      holdingReady := false;
      if startReady {
        HandleStart(now);
      } else {
        clock := now;
      }
      startReady := false;
    }

    /** The hold timeout's callback: the hold is over and a release will start the timer. */
    method TimeoutFires(now: int)
      requires Valid() && now >= clock
      requires timeoutDue.Some? && timeoutDue.value <= now
      modifies this
      ensures Valid() && clock == now
      ensures !holdingReady && startReady && timeoutDue.None?
      ensures running == old(running) && startTime == old(startTime) && timerMilliseconds == old(timerMilliseconds)
      ensures framePending == old(framePending) && listening == old(listening) && attached == old(attached)
      ensures display == old(display) && solves == old(solves)
    {
      clock := now;
      holdingReady := false;
      startReady := true;
      timeoutDue := None;
    }

    /**
     * The animation frame's callback, `render`. On the mounted element it
     * shows the running time and requests the next frame. On a detached one
     * the write through the null `timerEl.current` throws before anything is
     * shown or requested: `threw` is set, and no frame is pending any more.
     */
    method FrameFires(now: int) returns (threw: bool)
      requires Valid() && now >= clock
      requires framePending
      modifies this
      ensures Valid() && clock == now
      ensures threw == !attached
      ensures attached ==> framePending && display == TimeFormat.FormatTime(timerMilliseconds + (now - startTime))
      ensures !attached ==> !framePending && display == old(display)
      ensures running && startTime == old(startTime) && timerMilliseconds == old(timerMilliseconds)
      ensures timeoutDue == old(timeoutDue) && holdingReady == old(holdingReady) && startReady == old(startReady)
      ensures listening == old(listening) && attached == old(attached) && solves == old(solves)
    {
      clock := now;
      framePending := false;
      threw := Render(now);
    }

    /**
     * The timer display's `<p>` mounts (the page leaves its spinner): React
     * sets `timerEl.current` to the new element, whose text is the format of
     * zero milliseconds.
     */
    method Attach()
      modifies this
      ensures attached && display == TimeFormat.FormatTime(0)
      ensures running == old(running) && startTime == old(startTime) && timerMilliseconds == old(timerMilliseconds)
      ensures framePending == old(framePending) && timeoutDue == old(timeoutDue)
      ensures holdingReady == old(holdingReady) && startReady == old(startReady)
      ensures listening == old(listening) && solves == old(solves) && clock == old(clock)
    {
      TimeFormat.FormatExampleZero();
      attached := true;
      display := "00.00";
    }

    /**
     * The timer display's `<p>` unmounts while the component stays (the page
     * shows its spinner again): React sets `timerEl.current` to null.
     */
    method Detach()
      modifies this
      ensures !attached
      ensures running == old(running) && startTime == old(startTime) && timerMilliseconds == old(timerMilliseconds)
      ensures framePending == old(framePending) && timeoutDue == old(timeoutDue)
      ensures holdingReady == old(holdingReady) && startReady == old(startReady)
      ensures listening == old(listening) && display == old(display) && solves == old(solves) && clock == old(clock)
    {
      attached := false;
    }

    /**
     * Unmounting the component: React sets `timerEl.current` to null as a
     * mounted `<p>` goes, and the effect's cleanup detaches the listeners and cancels
     * the hold timeout. A requested animation frame stays pending.
     */
    method Teardown()
      requires Valid()
      modifies this
      ensures Valid()
      ensures !listening && !attached && timeoutDue.None?
      ensures running == old(running) && startTime == old(startTime) && timerMilliseconds == old(timerMilliseconds)
      ensures framePending == old(framePending) && holdingReady == old(holdingReady) && startReady == old(startReady)
      ensures display == old(display) && solves == old(solves) && clock == old(clock)
    {
      attached := false;
      listening := false;
      ClearTimer();
    }

    /**
     * The cleanup as evidently intended: `Teardown`, and also
     * `cancelAnimationFrame` of the pending frame, so that no frame fires
     * after the component is gone.
     */
    method TeardownCancellingFrame()
      requires Valid()
      modifies this
      ensures Valid()
      ensures !listening && !attached && timeoutDue.None? && !framePending
      ensures running == old(running) && startTime == old(startTime) && timerMilliseconds == old(timerMilliseconds)
      ensures holdingReady == old(holdingReady) && startReady == old(startReady)
      ensures display == old(display) && solves == old(solves) && clock == old(clock)
    {
      Teardown();
      framePending := false;
    }
  }

  /**
   * Holding Space for at least `HoldMs`, releasing it, and pressing Space
   * `solve` milliseconds later records exactly one solve of `solve`
   * milliseconds, shows it, and the release of that Space does not start the
   * timer again.
   */
  method HoldAndSolve(t0: int, hold: nat, solve: nat) returns (solves: seq<Measurement>, shown: string, runningAfter: bool)
    requires hold >= HoldMs
    ensures solves == [Measurement(Some(solve), Event333)]
    ensures shown == TimeFormat.FormatTime(solve)
    ensures !runningAfter
  {
    var c := new Controller(t0);
    c.Attach();
    var threw := c.OnKeyDown(t0, false, " ", "Space", false);
    c.TimeoutFires(t0 + hold);
    c.OnKeyUp(t0 + hold, false, "Space");
    threw := c.OnKeyDown(t0 + hold + solve, false, " ", "Space", false);
    c.OnKeyUp(t0 + hold + solve, false, "Space");
    solves, shown, runningAfter := c.solves, c.display, c.running;
  }

  /**
   * Releasing Space before the hold timeout fires never starts the timer, and
   * leaves no timeout behind that could make a later release start it.
   */
  method EarlyRelease(t0: int, hold: nat) returns (runningAfter: bool, readyAfter: bool, timeoutAfter: Option<int>)
    requires hold < HoldMs
    ensures !runningAfter && !readyAfter && timeoutAfter.None?
  {
    var c := new Controller(t0);
    c.Attach();
    var threw := c.OnKeyDown(t0, false, " ", "Space", false);
    c.OnKeyUp(t0 + hold, false, "Space");
    runningAfter, readyAfter, timeoutAfter := c.running, c.startReady, c.timeoutDue;
  }

  /** Stopping with Escape records a DNF: a measurement without a time. */
  method EscapeIsDnf(t0: int, solve: nat) returns (solves: seq<Measurement>)
    ensures solves == [Measurement(None, Event333)]
  {
    var c := new Controller(t0);
    c.Attach();
    var threw := c.OnKeyDown(t0, false, " ", "Space", false);
    c.TimeoutFires(t0 + HoldMs);
    c.OnKeyUp(t0 + HoldMs, false, "Space");
    threw := c.OnKeyDown(t0 + HoldMs + solve, false, "Escape", "Escape", false);
    solves := c.solves;
  }

  /** A key press the DOM check ignores does not stop a running timer. */
  method IgnoredKeyKeepsRunning(t0: int, later: nat) returns (runningAfter: bool, solves: seq<Measurement>)
    ensures runningAfter && solves == []
  {
    var c := new Controller(t0);
    c.Attach();
    var threw := c.OnKeyDown(t0, false, " ", "Space", false);
    c.TimeoutFires(t0 + HoldMs);
    c.OnKeyUp(t0 + HoldMs, false, "Space");
    threw := c.OnKeyDown(t0 + HoldMs + later, true, "a", "KeyA", false);
    runningAfter, solves := c.running, c.solves;
  }

  /**
   * Unmounting while the timer runs, with the cleanup as written: the frame
   * requested by the start is still pending after the cleanup, and when it
   * fires it writes through the null element reference and throws, leaving
   * the last text shown untouched.
   */
  method UnmountWhileRunning(t0: int, later: nat)
    returns (listeningAfter: bool, pendingAfterCleanup: bool, threw: bool, shown: string)
    ensures !listeningAfter && pendingAfterCleanup && threw
    ensures shown == TimeFormat.FormatTime(0)
  {
    var c := new Controller(t0);
    c.Attach();
    threw := c.OnKeyDown(t0, false, " ", "Space", false);
    c.TimeoutFires(t0 + HoldMs);
    c.OnKeyUp(t0 + HoldMs, false, "Space");
    c.Teardown();
    listeningAfter, pendingAfterCleanup := c.listening, c.framePending;
    threw := c.FrameFires(t0 + HoldMs + later);
    shown := c.display;
  }

  /** Unmounting while the timer runs, with the frame cancelled: nothing is left pending. */
  method UnmountWhileRunningCancelled(t0: int) returns (listeningAfter: bool, framePendingAfter: bool, timeoutAfter: Option<int>)
    ensures !listeningAfter && !framePendingAfter && timeoutAfter.None?
  {
    var c := new Controller(t0);
    c.Attach();
    var threw := c.OnKeyDown(t0, false, " ", "Space", false);
    c.TimeoutFires(t0 + HoldMs);
    c.OnKeyUp(t0 + HoldMs, false, "Space");
    c.TeardownCancellingFrame();
    listeningAfter, framePendingAfter, timeoutAfter := c.listening, c.framePending, c.timeoutDue;
  }

  /**
   * The display is replaced by the spinner while the timer runs, with the
   * listeners still attached: the stopping key press stops the timer, but its
   * render throws, so no solve is recorded.
   */
  method StopWhileDisplayHidden(t0: int, solve: nat) returns (threw: bool, runningAfter: bool, solves: seq<Measurement>)
    ensures threw && !runningAfter && solves == []
  {
    var c := new Controller(t0);
    c.Attach();
    threw := c.OnKeyDown(t0, false, " ", "Space", false);
    c.TimeoutFires(t0 + HoldMs);
    c.OnKeyUp(t0 + HoldMs, false, "Space");
    c.Detach();
    threw := c.OnKeyDown(t0 + HoldMs + solve, false, " ", "Space", false);
    runningAfter, solves := c.running, c.solves;
  }
}
