/** `Runner` of grizzly/common/runner.py: one trial against the target, the
    launch retry loop and the wait predicate handed to the content server.
    The server, the target and the clock are not modelled; what they report
    during a trial arrives as a `Trial` value. */
module Runner {
  import opened Wrappers
  import Idle
  import Includes

  /** What the content server reports about delivery. */
  datatype DeliveryStatus = ServedAll | ServedNone | ServedRequest | ServedTimeout

  /** What the target reports when asked for a failure. */
  datatype FailureSignal = ResultNone | ResultFailure | ResultIgnored

  datatype Status = Complete | Error | Failed | Ignored

  /** `RunResult`: the outcome of one trial. */
  datatype RunResult = RunResult(status: Status, served: seq<string>, duration: int, timeout: bool)

  /** What the collaborators report during one trial: the test case's
      landing page, the server's delivery status and served files, the
      target's failure signal, and the two clock reads around delivery. */
  datatype Trial = Trial(
    landingPage: string,
    delivery: DeliveryStatus,
    served: seq<string>,
    signal: FailureSignal,
    start: int,
    end: int)

  /** The caller's arguments to `run`: the include map, the directory the
      test case already sits in (if any), and whether to dump coverage. */
  datatype Request = Request(includes: seq<Includes.Include>, testPath: Option<string>, coverage: bool)

  /** How often `run` called each side effect. */
  datatype Effects = Effects(closes: nat, dumps: nat, coverageDumps: nat)

  /** Everything one `run` produces: the result, the side effects and the
      include names recorded against the test case. */
  datatype Outcome = Outcome(result: RunResult, effects: Effects, consumed: set<string>)

  /** The trial's status. A failure signal decides first, whether or not the
      landing page was served; otherwise a missing landing page is an error,
      and a served one is ignored or complete as the target says. */
  function Classify(landingServed: bool, signal: FailureSignal): (s: Status)
    ensures s == Failed <==> signal == ResultFailure
    ensures s == Error <==> signal != ResultFailure && !landingServed
    ensures s == Ignored <==> signal == ResultIgnored && landingServed
    ensures s == Complete <==> signal == ResultNone && landingServed
  {
    match signal
    case ResultFailure => Failed
    case ResultIgnored => if landingServed then Ignored else Error
    case ResultNone => if landingServed then Complete else Error
  }

  /** `run`: classifies the trial, closes the target unless the trial
      completed, dumps the test case unless it already has a path, dumps
      coverage when asked, and records the include files that were served. */
  function Run(trial: Trial, request: Request): (o: Outcome)
    ensures o.result.status == Classify(trial.landingPage in trial.served, trial.signal)
    ensures o.result.served == trial.served
    ensures o.result.timeout <==> trial.delivery == ServedTimeout
    ensures o.result.duration == trial.end - trial.start
    ensures o.result.status == Complete ==> o.effects.closes == 0
    ensures o.result.status == Error ==> o.effects.closes == 1
    ensures o.effects.closes <= 1
    ensures o.effects.dumps <= 1 && (o.effects.dumps == 1 <==> request.testPath.None?)
    ensures o.effects.coverageDumps <= 1 && (o.effects.coverageDumps == 1 <==> request.coverage)
    ensures forall name :: name in o.consumed <==> Includes.Maps(trial.served, request.includes, name)
  {
    var status := Classify(trial.landingPage in trial.served, trial.signal);
    Outcome(
      RunResult(status, trial.served, trial.end - trial.start, trial.delivery == ServedTimeout),
      Effects(
        if status == Complete then 0 else 1,
        if request.testPath.None? then 1 else 0,
        if request.coverage then 1 else 0),
      Includes.Consumed(trial.served, request.includes))
  }

  /** With a monotonic clock the duration is never negative. */
  lemma DurationNonNegative(trial: Trial, request: Request)
    requires trial.start <= trial.end
    ensures Run(trial, request).result.duration >= 0
  {
  }

  /** Whatever the server and the target report, a trial ends in exactly one
      status, and it is `Complete` only when the landing page was served and
      the target reported nothing. */
  lemma CompleteOnlyWhenDelivered(trial: Trial, request: Request)
    ensures Run(trial, request).result.status == Complete
            <==> trial.landingPage in trial.served && trial.signal == ResultNone
  {
  }

  /** The first trial test: all files served. */
  lemma ServedAllExample(files: seq<string>)
    requires files == ["a.bin", "/another/file.bin"]
    ensures var o := Run(Trial("a.bin", ServedAll, files, ResultNone, 1, 2), Request([], None, false));
      && o.result == RunResult(Complete, files, 1, false)
      && o.effects == Effects(0, 1, 0)
  {
    assert files[0] == "a.bin";
  }

  /** The first trial test: some files served, with coverage. */
  lemma ServedRequestExample(files: seq<string>)
    requires files == ["a.bin", "/another/file.bin"]
    ensures var o := Run(Trial("a.bin", ServedRequest, files, ResultNone, 1, 2), Request([], None, true));
      && o.result == RunResult(Complete, files, 1, false)
      && o.effects == Effects(0, 1, 1)
  {
    assert files[0] == "a.bin";
  }

  /** The first trial test: the test case already has a path. */
  lemma TestPathExample(files: seq<string>)
    requires files == ["a.bin", "/another/file.bin"]
    ensures var o := Run(Trial("a.bin", ServedAll, files, ResultNone, 1, 2), Request([], Some("tc"), false));
      o.result.status == Complete && o.effects.closes == 0 && o.effects.dumps == 0
  {
    assert files[0] == "a.bin";
  }

  /** The error tests: nothing served, and the landing page not served. */
  lemma ErrorExamples()
    ensures var o := Run(Trial("x", ServedNone, [], ResultNone, 0, 0), Request([], None, false));
      o.result.status == Error && o.result.served == [] && !o.result.timeout && o.effects.closes == 1
    ensures var o := Run(Trial("x", ServedRequest, ["harness"], ResultNone, 0, 0), Request([], None, false));
      o.result.status == Error && o.result.served != [] && o.effects.closes == 1
  {
    assert "x" !in ["harness"];
  }

  /** The timeout test: delivery timed out and the target failed. */
  lemma TimeoutExample(files: seq<string>)
    requires files == ["a.bin", "/another/file.bin"]
    ensures var o := Run(Trial("x", ServedTimeout, files, ResultFailure, 0, 0), Request([], None, false));
      o.result.status == Failed && o.result.served == files && o.result.timeout
  {
  }

  /** The failure-reporting tests: failure and ignored results with the
      landing page served, and a failure before it was served. */
  lemma FailureExamples()
    ensures var o := Run(Trial("file.bin", ServedRequest, ["file.bin"], ResultFailure, 0, 0), Request([], None, false));
      o.result.status == Failed && o.result.served == ["file.bin"] && !o.result.timeout
    ensures var o := Run(Trial("file.bin", ServedRequest, ["file.bin"], ResultIgnored, 0, 0), Request([], None, false));
      o.result.status == Ignored && o.result.served == ["file.bin"] && !o.result.timeout
    ensures var o := Run(Trial("file.bin", ServedRequest, ["harness"], ResultFailure, 0, 0), Request([], None, false));
      o.result.status == Failed && o.result.served != [] && !o.result.timeout
  {
  }

  // ----- launching the target -----

  /** What one `target.launch()` call does. */
  datatype Attempt = Launched | LaunchError | LaunchTimeout

  /** The exception `launch` lets through: `TargetLaunchError` or
      `TargetLaunchTimeout`. */
  datatype LaunchFailure = Fatal | TimedOut

  /** `calls` attempts were made and `failure` was raised (or nothing, on
      success), given the target's behaviour on each attempt. */
  ghost predicate LaunchedAs(attempt: nat -> Attempt, maxRetries: nat, failure: Option<LaunchFailure>, calls: nat) {
    && 1 <= calls <= maxRetries
    && (forall i :: 0 <= i < calls - 1 ==> attempt(i) == LaunchTimeout)
    && (attempt(calls - 1) == Launched ==> failure == None)
    && (attempt(calls - 1) == LaunchError ==> failure == Some(Fatal))
    && (attempt(calls - 1) == LaunchTimeout ==> calls == maxRetries && failure == Some(TimedOut))
  }

  /** `launch(location, max_retries)`: a launch error is raised at once, a
      launch timeout is retried until `maxRetries` attempts have been made
      and then raised. `attempt(i)` is what the target does on attempt `i`. */
  method Launch(attempt: nat -> Attempt, maxRetries: nat) returns (failure: Option<LaunchFailure>, calls: nat)
    requires maxRetries >= 1
    ensures LaunchedAs(attempt, maxRetries, failure, calls)
  {
    calls := 0;
    failure := None;
    var done := false;
    while !done
      invariant 0 <= calls <= maxRetries
      invariant forall i :: 0 <= i < calls - 1 ==> attempt(i) == LaunchTimeout
      invariant !done ==> failure == None && forall i :: 0 <= i < calls ==> attempt(i) == LaunchTimeout
      invariant !done ==> calls < maxRetries
      invariant done ==> LaunchedAs(attempt, maxRetries, failure, calls)
      decreases maxRetries - calls, if done then 0 else 1
    {
      var outcome := attempt(calls);
      calls := calls + 1;
      match outcome {
        case Launched =>
          done := true;
        case LaunchError =>
          failure := Some(Fatal);
          done := true;
        case LaunchTimeout =>
          if calls == maxRetries {
            failure := Some(TimedOut);
            done := true;
          }
      }
    }
  }

  /** The launch tests, whatever the number of retries allowed: a target
      that starts on the first attempt is launched once, a launch error on
      the first attempt is raised at once, and a target that always times out
      is tried exactly three times with three retries allowed. */
  lemma LaunchExamples(attempt: nat -> Attempt, maxRetries: nat, failure: Option<LaunchFailure>, calls: nat)
    ensures attempt(0) == Launched && LaunchedAs(attempt, maxRetries, failure, calls) ==> calls == 1 && failure == None
    ensures attempt(0) == LaunchError && LaunchedAs(attempt, maxRetries, failure, calls) ==> calls == 1 && failure == Some(Fatal)
    ensures LaunchedAs(_ => LaunchTimeout, 3, failure, calls) ==> calls == 3 && failure == Some(TimedOut)
  {
  }

  // ----- the wait predicate -----

  /** What one call of the wait predicate answers and leaves behind. */
  datatype Wait = Wait(keep: bool, idle: Option<Idle.IdleChecker>)

  /** `_keep_waiting()`: keep waiting while the target is healthy and, when
      an idle checker is configured, it does not report the target idle.
      `verdict` is what the idle probe would answer at `now`. */
  function KeepWaiting(healthy: bool, idle: Option<Idle.IdleChecker>, now: nat, verdict: bool): (w: Wait)
    ensures idle.None? ==> (w.keep <==> healthy) && w.idle.None?
    ensures idle.Some? && healthy ==>
      var poll := Idle.IsIdle(idle.value, now, verdict);
      (w.keep <==> !poll.idle) && w.idle == Some(poll.checker)
    ensures !healthy ==> !w.keep
    ensures idle.Some? <==> w.idle.Some?
  {
    if !healthy then Wait(false, idle)
    else match idle
      case None => Wait(true, None)
      case Some(c) =>
        var poll := Idle.IsIdle(c, now, verdict);
        Wait(!poll.idle, Some(poll.checker))
  }

  /** Before the scheduled poll the idle checker cannot end delivery: the
      predicate answers exactly the target's health and the checker keeps
      its schedule. */
  lemma HealthDecidesBeforePoll(healthy: bool, c: Idle.IdleChecker, now: nat, verdict: bool)
    requires !Idle.Due(c, now)
    ensures KeepWaiting(healthy, Some(c), now, verdict) == Wait(healthy, Some(c))
  {
  }

  /** The wait predicate's tests: with no idle checker it answers the
      target's health; with a checker whose poll is due it keeps waiting
      only while the target is healthy and the probe does not report idle. */
  lemma KeepWaitingExamples(c: Idle.IdleChecker)
    requires c.nextPoll == Some(0)
    ensures KeepWaiting(true, None, 0, false).keep
    ensures !KeepWaiting(false, None, 0, false).keep
    ensures KeepWaiting(true, Some(c), 0, false).keep
    ensures !KeepWaiting(true, Some(c), 0, true).keep
    ensures !KeepWaiting(false, Some(c), 0, false).keep
  {
  }
}
