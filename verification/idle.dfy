/** `_IdleChecker` of grizzly/common/runner.py: a rate-limited poll of an
    activity probe. The clock is the `now` argument and the probe's answer
    is the `verdict` argument; the probe counts as called exactly when the
    result says `probed`. */
module Idle {
  import opened Wrappers

  /** `threshold` is handed over to the probe's owner and never compared
      here; `nextPoll` is unset until the first `SchedulePoll`. */
  datatype IdleChecker = IdleChecker(threshold: nat, initDelay: nat, pollDelay: nat, nextPoll: Option<nat>)

  /** What one `is_idle()` call returns and leaves behind. */
  datatype Poll = Poll(idle: bool, checker: IdleChecker, probed: bool)

  /** A fresh checker: nothing is scheduled. */
  function Create(threshold: nat, initDelay: nat, pollDelay: nat): (c: IdleChecker)
    ensures c.nextPoll.None?
    ensures c.threshold == threshold && c.initDelay == initDelay && c.pollDelay == pollDelay
  {
    IdleChecker(threshold, initDelay, pollDelay, None)
  }

  /** Two checkers with the same configuration. */
  predicate SameConfig(a: IdleChecker, b: IdleChecker) {
    a.threshold == b.threshold && a.initDelay == b.initDelay && a.pollDelay == b.pollDelay
  }

  /** `schedule_poll(initial)`: the next poll is allowed after the initial
      delay or after the poll delay. */
  function SchedulePoll(c: IdleChecker, now: nat, initial: bool): (c': IdleChecker)
    ensures SameConfig(c, c')
    ensures c'.nextPoll.Some? && c'.nextPoll.value >= now
    ensures c'.nextPoll.value - now == if initial then c.initDelay else c.pollDelay
  {
    c.(nextPoll := Some(now + if initial then c.initDelay else c.pollDelay))
  }

  /** Whether the schedule allows a probe at `now` (the scheduled time itself
      included). */
  predicate Due(c: IdleChecker, now: nat) {
    c.nextPoll.Some? && c.nextPoll.value <= now
  }

  /** `is_idle()`: before the scheduled time the answer is "not idle" and the
      probe is not called; from then on the probe is called once, its verdict
      is returned unchanged and the next poll moves `pollDelay` past `now`. */
  function IsIdle(c: IdleChecker, now: nat, verdict: bool): (r: Poll)
    ensures r.probed <==> Due(c, now)
    ensures !r.probed ==> !r.idle && r.checker == c
    ensures r.probed ==> r.idle == verdict && r.checker == SchedulePoll(c, now, false)
  {
    if Due(c, now) then Poll(verdict, SchedulePoll(c, now, false), true)
    else Poll(false, c, false)
  }

  /** The times at which the probe is called when `is_idle()` is asked at
      each of `times` in turn. */
  function ProbeTimes(c: IdleChecker, times: seq<nat>): (p: seq<nat>)
    decreases |times|
  {
    if |times| == 0 then []
    else
      var r := IsIdle(c, times[0], false);
      (if r.probed then [times[0]] else []) + ProbeTimes(r.checker, times[1..])
  }

  predicate Ascending(times: seq<nat>) {
    forall i, j :: 0 <= i < j < |times| ==> times[i] <= times[j]
  }

  /** Rate limiting: asked at ascending times, the checker calls the probe
      never before the scheduled time and never twice within `pollDelay`;
      with nothing scheduled it never calls the probe at all. */
  lemma {:induction false} RateLimited(c: IdleChecker, times: seq<nat>)
    requires Ascending(times)
    ensures var p := ProbeTimes(c, times);
      && |p| <= |times|
      && (c.nextPoll.None? ==> p == [])
      && (forall i :: 0 <= i < |p| ==> c.nextPoll.Some? && c.nextPoll.value <= p[i])
      && (forall i, j :: 0 <= i < j < |p| ==> p[i] + c.pollDelay <= p[j])
      && (forall i :: 0 <= i < |p| ==> p[i] in times)
    decreases |times|
  {
    if |times| > 0 {
      var r := IsIdle(c, times[0], false);
      var rest := ProbeTimes(r.checker, times[1..]);
      RateLimited(r.checker, times[1..]);
      assert forall i :: 0 <= i < |rest| ==> rest[i] in times;
      if !r.probed {
        assert ProbeTimes(c, times) == rest;
      } else {
        var p := ProbeTimes(c, times);
        assert p == [times[0]] + rest;
        assert forall i :: 0 <= i < |rest| ==> times[0] + c.pollDelay <= rest[i];
      }
    }
  }

  /** A fresh checker never calls the probe and never reports idle, however
      often it is asked, until a poll has been scheduled. */
  lemma {:induction false} FreshCheckerWaits(threshold: nat, initDelay: nat, pollDelay: nat, times: seq<nat>)
    ensures ProbeTimes(Create(threshold, initDelay, pollDelay), times) == []
    ensures forall t, verdict :: !IsIdle(Create(threshold, initDelay, pollDelay), t, verdict).idle
    decreases |times|
  {
    if |times| > 0 {
      FreshCheckerWaits(threshold, initDelay, pollDelay, times[1..]);
    }
  }

  /** Grace period: after `schedule_poll`, the probe is first called at the
      first check made once the chosen delay has elapsed. */
  lemma GracePeriod(c: IdleChecker, t0: nat, initial: bool, t: nat, verdict: bool)
    ensures var delay := if initial then c.initDelay else c.pollDelay;
      var r := IsIdle(SchedulePoll(c, t0, initial), t, verdict);
      && (t < t0 + delay ==> !r.probed && !r.idle)
      && (t >= t0 + delay ==> r.probed && r.idle == verdict && r.checker.nextPoll == Some(t + c.pollDelay))
  {
  }

  /** The checker's tests: construction and both kinds of scheduling at time
      0, then a too-early check, a check at 10 and a check exactly at the
      rescheduled time 11. */
  lemma CheckerExamples()
    ensures Create(95, 10, 1).nextPoll == None
    ensures SchedulePoll(Create(95, 10, 1), 0, true).nextPoll == Some(10)
    ensures SchedulePoll(SchedulePoll(Create(95, 10, 1), 0, true), 0, false).nextPoll == Some(1)
    ensures var c := SchedulePoll(Create(99, 10, 1), 0, false);
      var early := IsIdle(c, 0, false);
      var busy := IsIdle(early.checker, 10, false);
      var idle := IsIdle(busy.checker, 11, true);
      && !early.idle && !early.probed
      && !busy.idle && busy.probed && busy.checker.nextPoll == Some(11)
      && idle.idle && idle.probed
  {
  }
}
