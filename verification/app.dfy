/**
 * The terminal application's event loop (src/main.rs): the `App` state,
 * the per-tick poll timeout, the key dispatch of `handle_events` and the
 * `run` loop. Terminal I/O is an input: every loop iteration is described
 * by a `Step` saying how long after the start of `run` the events are
 * handled, whether drawing the frame failed, and what the poll produced.
 */
module TerminalApp {
  import opened Wrappers

  // ---------------------------------------------------------------------
  // Events and terminal outcomes
  // ---------------------------------------------------------------------

  /** The key codes the dispatch tells apart; every other code is `OtherKey`. */
  datatype KeyCode = Char(c: char) | Enter | OtherKey

  /** A terminal event: a key press, or anything else (mouse, resize, focus, paste). */
  datatype Event = Key(code: KeyCode) | NonKey

  /** An I/O failure of the terminal, kept abstract. */
  datatype IoError = IoError(code: int)

  /** What polling (and reading) produced within the timeout. */
  datatype Poll = Quiet | Arrived(event: Event) | PollFailed(error: IoError)

  /** One iteration of `run`, as seen from outside. */
  datatype Step = Step(elapsedMs: nat, drawError: Option<IoError>, poll: Poll)

  /** How `run` ended: after the quit key, on an I/O error, or not within the given steps. */
  datatype Status = Exited | Failed(error: IoError) | StillRunning

  /** The observable result of running the loop: its status, the frames drawn, the poll timeouts used. */
  datatype Trace = Trace(status: Status, draws: nat, timeouts: seq<nat>)

  const QuitKey: Event := Key(Char('q'))

  // ---------------------------------------------------------------------
  // The poll timeout
  // ---------------------------------------------------------------------

  /** The target length of one tick, in milliseconds. */
  const TickMs: nat := 50

  /** The tick length less the elapsed time, or zero once that has run out (`checked_sub`). */
  function Timeout(elapsedMs: nat): (r: nat)
    ensures r <= TickMs
    ensures elapsedMs < TickMs ==> r == TickMs - elapsedMs
    ensures elapsedMs >= TickMs ==> r == 0
  {
    if elapsedMs <= TickMs then TickMs - elapsedMs else 0
  }

  /** More elapsed time never gives a longer timeout. */
  lemma TimeoutAntitone(e1: nat, e2: nat)
    requires e1 <= e2
    ensures Timeout(e2) <= Timeout(e1)
  {
  }

  // ---------------------------------------------------------------------
  // The loop, as a function of its steps
  // ---------------------------------------------------------------------

  /** `rest`, preceded by `draws` frames and the timeouts `timeouts`. */
  function Prefix(draws: nat, timeouts: seq<nat>, rest: Trace): Trace
  {
    Trace(rest.status, draws + rest.draws, timeouts + rest.timeouts)
  }

  /**
   * What `run` does from a given exit flag over the given steps: it stops
   * as soon as the flag is set, draws one frame per iteration, polls with
   * `Timeout` of the step's elapsed time, and stops on the first I/O error.
   */
  function Drive(shouldExit: bool, steps: seq<Step>): (t: Trace)
    ensures t.draws <= |steps| && |t.timeouts| <= t.draws
    ensures t.status.StillRunning? ==> !shouldExit && t.draws == |steps| == |t.timeouts|
    decreases |steps|
  {
    if shouldExit then Trace(Exited, 0, [])
    else if steps == [] then Trace(StillRunning, 0, [])
    else
      var step := steps[0];
      if step.drawError.Some? then Trace(Failed(step.drawError.value), 1, [])
      else
        var timeout := Timeout(step.elapsedMs);
        match step.poll
        case PollFailed(e) => Trace(Failed(e), 1, [timeout])
        case Quiet => Prefix(1, [timeout], Drive(false, steps[1..]))
        case Arrived(event) => Prefix(1, [timeout], Drive(event == QuitKey, steps[1..]))
  }

  // ---------------------------------------------------------------------
  // The application object
  // ---------------------------------------------------------------------

  class App {
    var shouldExit: bool
    /** The text of the input field. */
    var input: string

    /** The application as `main` creates it: not exiting, with an empty input field. */
    constructor ()
      ensures !shouldExit && input == ""
    {
      shouldExit := false;
      input := "";
    }

    method Exit()
      modifies this
      ensures shouldExit && input == old(input)
    {
      shouldExit := true;
    }

    /** Submitting the input does nothing yet and always succeeds. */
    method SubmitInput(prompt: string) returns (r: Result<(), IoError>)
      ensures r == Ok(())
    {
      r := Ok(());
    }

    /**
     * One round of event handling: the timeout it polls with, and the key
     * dispatch — 'q' sets the exit flag, Enter submits (to no effect), all
     * else is ignored. A failed poll or read is returned as the error.
     */
    method HandleEvents(elapsedMs: nat, poll: Poll) returns (timeout: nat, r: Result<(), IoError>)
      modifies this
      ensures timeout == Timeout(elapsedMs)
      ensures r == if poll.PollFailed? then Err(poll.error) else Ok(())
      ensures shouldExit == (old(shouldExit) || poll == Arrived(QuitKey))
      ensures input == old(input)
    {
      timeout := Timeout(elapsedMs);
      match poll {
        case PollFailed(e) =>
          return timeout, Err(e);
        case Quiet =>
        case Arrived(event) =>
          if event.Key? {
            match event.code {
              case Char(c) =>
                if c == 'q' {
                  Exit();
                }
              case Enter =>
                var _ := SubmitInput(input);
              case OtherKey =>
            }
          }
      }
      r := Ok(());
    }

    /**
     * The main loop over the given iterations: check the exit flag, draw,
     * handle events. It ends with `Drive`'s trace, and the exit flag is set
     * exactly when it ended through the quit key.
     */
    method Run(steps: seq<Step>) returns (status: Status, draws: nat, timeouts: seq<nat>)
      modifies this
      ensures Trace(status, draws, timeouts) == Drive(old(shouldExit), steps)
      ensures shouldExit == status.Exited?
      ensures input == old(input)
    {
      ghost var start := shouldExit;
      var i := 0;
      draws, timeouts := 0, [];
      while true
        invariant i <= |steps|
        invariant input == old(input)
        invariant Drive(start, steps) == Prefix(draws, timeouts, Drive(shouldExit, steps[i..]))
        decreases |steps| - i
      {
        if shouldExit {
          return Exited, draws, timeouts;
        }
        if i == |steps| {
          return StillRunning, draws, timeouts;
        }
        var step := steps[i];
        draws := draws + 1;
        if step.drawError.Some? {
          return Failed(step.drawError.value), draws, timeouts;
        }
        var timeout, r := HandleEvents(step.elapsedMs, step.poll);
        if r.Err? {
          timeouts := timeouts + [timeout];
          return Failed(r.error), draws, timeouts;
        }
        DriveStep(steps[i..]);
        assert steps[i..][1..] == steps[i + 1..];
        PrefixPrefix(draws - 1, timeouts, 1, [timeout], Drive(shouldExit, steps[i + 1..]));
        timeouts := timeouts + [timeout];
        i := i + 1;
      }
    }
  }

  /** One iteration that draws and polls without error, then the rest of the loop. */
  lemma DriveStep(steps: seq<Step>)
    requires steps != [] && steps[0].drawError.None? && !steps[0].poll.PollFailed?
    ensures Drive(false, steps)
         == Prefix(1, [Timeout(steps[0].elapsedMs)], Drive(steps[0].poll == Arrived(QuitKey), steps[1..]))
  {
  }

  lemma PrefixPrefix(d1: nat, ts1: seq<nat>, d2: nat, ts2: seq<nat>, rest: Trace)
    ensures Prefix(d1, ts1, Prefix(d2, ts2, rest)) == Prefix(d1 + d2, ts1 + ts2, rest)
  {
    assert ts1 + (ts2 + rest.timeouts) == (ts1 + ts2) + rest.timeouts;
  }

  /** `main`: a fresh application run over the given iterations. */
  method Launch(steps: seq<Step>) returns (app: App, status: Status, draws: nat, timeouts: seq<nat>)
    ensures Trace(status, draws, timeouts) == Drive(false, steps)
    ensures app.input == ""
    ensures app.shouldExit == status.Exited?
  {
    app := new App();
    status, draws, timeouts := app.Run(steps);
  }

  // ---------------------------------------------------------------------
  // Properties of the loop
  // ---------------------------------------------------------------------

  predicate ElapsedNondecreasing(steps: seq<Step>)
  {
    forall i, j :: 0 <= i <= j < |steps| ==> steps[i].elapsedMs <= steps[j].elapsedMs
  }

  predicate NonIncreasing(xs: seq<nat>)
  {
    forall i, j :: 0 <= i <= j < |xs| ==> xs[j] <= xs[i]
  }

  /** Iteration `k` polls with the timeout of its own elapsed time. */
  lemma {:induction false} TimeoutsOfSteps(shouldExit: bool, steps: seq<Step>)
    ensures var ts := Drive(shouldExit, steps).timeouts;
            forall k :: 0 <= k < |ts| ==> ts[k] == Timeout(steps[k].elapsedMs)
    decreases |steps|
  {
    if !shouldExit && steps != [] && steps[0].drawError.None? {
      match steps[0].poll
      case PollFailed(_) =>
      case Quiet =>
        TimeoutsOfSteps(false, steps[1..]);
      case Arrived(event) =>
        TimeoutsOfSteps(event == QuitKey, steps[1..]);
    }
  }

  /** The tick start is fixed, so as the clock advances the timeouts only shrink. */
  lemma TimeoutsShrink(shouldExit: bool, steps: seq<Step>)
    requires ElapsedNondecreasing(steps)
    ensures NonIncreasing(Drive(shouldExit, steps).timeouts)
  {
    var ts := Drive(shouldExit, steps).timeouts;
    TimeoutsOfSteps(shouldExit, steps);
    forall i, j | 0 <= i <= j < |ts|
      ensures ts[j] <= ts[i]
    {
      TimeoutAntitone(steps[i].elapsedMs, steps[j].elapsedMs);
    }
  }

  /** An iteration that neither fails nor quits. */
  predicate Uneventful(step: Step)
  {
    step.drawError.None? && !step.poll.PollFailed? && step.poll != Arrived(QuitKey)
  }

  /**
   * The loop ends at the start of the iteration after the first 'q': if
   * the iterations before `k` are uneventful and iteration `k` draws and
   * reads 'q', the loop exits having drawn `k + 1` frames.
   */
  lemma {:induction false} ExitsAfterFirstQuit(steps: seq<Step>, k: nat)
    requires k < |steps|
    requires forall j :: 0 <= j < k ==> Uneventful(steps[j])
    requires steps[k].drawError.None? && steps[k].poll == Arrived(QuitKey)
    ensures Drive(false, steps).status == Exited
    ensures Drive(false, steps).draws == k + 1
    ensures |Drive(false, steps).timeouts| == k + 1
  {
    if k > 0 {
      assert Uneventful(steps[0]);
      ExitsAfterFirstQuit(steps[1..], k - 1);
    }
  }

  /** Without errors and without 'q' the loop consumes every iteration and never exits. */
  lemma {:induction false} RunsOnWithoutQuit(steps: seq<Step>)
    requires forall j :: 0 <= j < |steps| ==> Uneventful(steps[j])
    ensures Drive(false, steps) == Trace(StillRunning, |steps|, Drive(false, steps).timeouts)
  {
    if steps != [] {
      assert Uneventful(steps[0]);
      RunsOnWithoutQuit(steps[1..]);
    }
  }

  /** Only the quit key ends the loop normally: without a 'q' it never reports `Exited`. */
  lemma {:induction false} ExitNeedsQuit(steps: seq<Step>)
    requires forall j :: 0 <= j < |steps| ==> steps[j].poll != Arrived(QuitKey)
    ensures Drive(false, steps).status != Exited
  {
    if steps != [] && steps[0].drawError.None? && !steps[0].poll.PollFailed? {
      ExitNeedsQuit(steps[1..]);
    }
  }

  /**
   * Conversely, an exit always comes from the first 'q': the last frame
   * drawn is the iteration that read it, and every earlier iteration was
   * uneventful.
   */
  lemma {:induction false} ExitComesFromFirstQuit(steps: seq<Step>)
    requires Drive(false, steps).status == Exited
    ensures var k := Drive(false, steps).draws - 1;
            && 0 <= k < |steps|
            && steps[k].drawError.None? && steps[k].poll == Arrived(QuitKey)
            && forall j :: 0 <= j < k ==> Uneventful(steps[j])
  {
    if steps[0].poll != Arrived(QuitKey) {
      var rest := steps[1..];
      ExitComesFromFirstQuit(rest);
      var k := Drive(false, rest).draws - 1;
      assert Drive(false, steps).draws == k + 2;
      assert steps[k + 1] == rest[k];
      forall j | 0 <= j < k + 1
        ensures Uneventful(steps[j])
      {
        if j > 0 { assert steps[j] == rest[j - 1]; }
      }
    }
  }
}
