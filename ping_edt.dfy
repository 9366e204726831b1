/** PingEDT: coalesces many "something changed" pings into at most one
    pending update on the UI thread, and runs the ping action in a loop
    bounded by a time budget while the action keeps re-pinging.

    The UI event queue is the counter `queued` of update runnables handed
    to invokeLater and not yet started; the host starts one with
    `RunUpdate`. What the ping action and the clock do during an update is
    given to `RunUpdate` as a sequence of steps. */
module Scheduler {

  /** One run of the ping action inside an update: whether the action
      pinged again, and the milliseconds elapsed since the update started,
      read right after it. */
  datatype Step = Step(repings: bool, elapsedMs: int)

  /** The threshold that means "no time limit". */
  const INDEFINITE := -1

  /** The work loop stops after this step: the action did not re-ping, or
      (with a time limit) the budget is exceeded. */
  predicate EndsLoop(threshold: int, s: Step)
  {
    !s.repings || (threshold != INDEFINITE && s.elapsedMs > threshold)
  }

  /** The supplied steps describe a loop that stops. */
  predicate Ends(threshold: int, steps: seq<Step>)
  {
    exists k :: 0 <= k < |steps| && EndsLoop(threshold, steps[k])
  }

  /** How many times the work loop runs the action: at least once, and
      never beyond the supplied steps. */
  function Runs(threshold: int, steps: seq<Step>): (n: nat)
    ensures Ends(threshold, steps) ==> 1 <= n <= |steps|
  {
    if steps == [] then 0
    else if EndsLoop(threshold, steps[0]) then 1
    else
      EndsTail(threshold, steps);
      1 + Runs(threshold, steps[1..])
  }

  lemma EndsTail(threshold: int, steps: seq<Step>)
    requires steps != [] && !EndsLoop(threshold, steps[0])
    ensures Ends(threshold, steps) ==> Ends(threshold, steps[1..])
  {
    if Ends(threshold, steps) {
      var k :| 0 <= k < |steps| && EndsLoop(threshold, steps[k]);
      assert EndsLoop(threshold, steps[1..][k - 1]);
    }
  }

  /** The loop runs the action at least once, stops at the first step
      that ends it, and not before. */
  lemma {:induction false} RunsStopsAtFirstEnd(threshold: int, steps: seq<Step>)
    requires Ends(threshold, steps)
    ensures 1 <= Runs(threshold, steps) <= |steps|
    ensures EndsLoop(threshold, steps[Runs(threshold, steps) - 1])
    ensures forall j :: 0 <= j < Runs(threshold, steps) - 1 ==> !EndsLoop(threshold, steps[j])
  {
    if !EndsLoop(threshold, steps[0]) {
      EndsTail(threshold, steps);
      RunsStopsAtFirstEnd(threshold, steps[1..]);
      forall j | 1 <= j < Runs(threshold, steps) - 1
        ensures !EndsLoop(threshold, steps[j])
      {
        assert steps[j] == steps[1..][j - 1];
      }
    }
  }

  /** The action pinged during one of the update's first `n` runs. */
  predicate RepingedWithin(steps: seq<Step>, n: nat)
  {
    exists j :: 0 <= j < n && j < |steps| && steps[j].repings
  }

  /** With no time limit the loop ends exactly when the action stops
      re-pinging. */
  lemma UnboundedLoopUntilQuiet(steps: seq<Step>)
    requires Ends(INDEFINITE, steps)
    ensures var n := Runs(INDEFINITE, steps);
            !steps[n - 1].repings && forall j :: 0 <= j < n - 1 ==> steps[j].repings
  {
    RunsStopsAtFirstEnd(INDEFINITE, steps);
  }

  /** An update whose action re-pinged at its last run was cut by the time
      budget, and a follow-up update is then pending. */
  lemma CutByBudget(threshold: int, steps: seq<Step>)
    requires Ends(threshold, steps)
    requires steps[Runs(threshold, steps) - 1].repings
    ensures threshold != INDEFINITE
    ensures steps[Runs(threshold, steps) - 1].elapsedMs > threshold
    ensures RepingedWithin(steps, Runs(threshold, steps))
  {
    RunsStopsAtFirstEnd(threshold, steps);
  }

  /** A ping made by the action, within the budget, both runs the action
      again in this update and leaves a follow-up update pending. */
  lemma RepingExtendsAndSchedules(threshold: int, steps: seq<Step>)
    requires Ends(threshold, steps)
    requires steps[0].repings
    requires threshold == INDEFINITE || steps[0].elapsedMs <= threshold
    ensures Runs(threshold, steps) >= 2
    ensures RepingedWithin(steps, Runs(threshold, steps))
  {
    RunsStopsAtFirstEnd(threshold, steps);
  }

  /** A follow-up update can be pending although the action did not
      re-ping at its last run: that update will run the action once more. */
  lemma FollowUpWithoutFinalPing()
    ensures var steps := [Step(true, 0), Step(false, 0)];
            Ends(100, steps) && Runs(100, steps) == 2
            && RepingedWithin(steps, 2) && !steps[1].repings
  {
    var steps := [Step(true, 0), Step(false, 0)];
    assert EndsLoop(100, steps[1]);
    assert steps[1..] == [Step(false, 0)];
    assert steps[0].repings;
  }

  class PingEDT {
    /** myMaxUnitOfWorkThresholdMs; INDEFINITE means no limit. */
    const threshold: int
    var stopped: bool
    var pinged: bool
    var invokeLaterScheduled: bool
    /** Update runnables in the UI event queue. */
    var queued: nat

    /** An update is queued exactly when the flag says so; hence at most
        one is pending. */
    ghost predicate Valid()
      reads this
      ensures Valid() ==> queued <= 1
    {
      queued == (if invokeLaterScheduled then 1 else 0)
    }

    constructor (threshold: int)
      ensures Valid() && this.threshold == threshold
      ensures !stopped && !pinged && !invokeLaterScheduled && queued == 0
    {
      this.threshold := threshold;
      stopped, pinged, invokeLaterScheduled, queued := false, false, false, 0;
    }

    /** Queues an update unless stopped or one is already pending; the
        compare-and-set keeps it to one. Returns whether it queued. */
    method ScheduleUpdate() returns (r: bool)
      requires Valid()
      modifies this
      ensures Valid()
      ensures r <==> !old(stopped) && !old(invokeLaterScheduled)
      ensures invokeLaterScheduled == (old(invokeLaterScheduled) || r)
      ensures queued == old(queued) + (if r then 1 else 0)
      ensures stopped == old(stopped) && pinged == old(pinged)
    {
      if !stopped && !invokeLaterScheduled {
        invokeLaterScheduled := true;
        queued := queued + 1;
        return true;
      }
      return false;
    }

    /** Always marks the scheduler pinged; returns whether this ping queued
        a new update. Pings while an update is pending, or after `Stop`,
        queue nothing. */
    method Ping() returns (r: bool)
      requires Valid()
      modifies this
      ensures Valid() && pinged
      ensures r <==> !old(stopped) && !old(invokeLaterScheduled)
      ensures invokeLaterScheduled == (old(invokeLaterScheduled) || r)
      ensures queued == old(queued) + (if r then 1 else 0)
      ensures stopped == old(stopped)
    {
      pinged := true;
      r := ScheduleUpdate();
    }

    /** Final: nothing ever clears `stopped`. */
    method Stop()
      requires Valid()
      modifies this
      ensures Valid() && stopped
      ensures pinged == old(pinged) && invokeLaterScheduled == old(invokeLaterScheduled)
      ensures queued == old(queued)
    {
      stopped := true;
    }

    /** Clears `pinged`, runs the action, and tells whether the action
        pinged again. */
    method ProcessNext(repings: bool) returns (r: bool)
      requires Valid()
      modifies this
      ensures Valid() && r == pinged && pinged == repings
      ensures stopped == old(stopped)
      ensures invokeLaterScheduled == (old(invokeLaterScheduled) || (repings && !old(stopped)))
      ensures queued == (if invokeLaterScheduled then 1 else 0)
    {
      pinged := false;
      if repings {
        var _ := Ping();
      }
      r := pinged;
    }

    /** The update runnable, started by the host from the queue. `shutUp`
        is the shut-up condition's value; `steps` say what each run of the
        action does and how much time has passed after it. */
    method RunUpdate(shutUp: bool, steps: seq<Step>) returns (processed: nat)
      requires Valid() && queued == 1
      requires Ends(threshold, steps)
      modifies this
      ensures Valid()
      ensures old(stopped) || shutUp ==>
                stopped && pinged == old(pinged) && queued == 0 && processed == 0
      ensures !old(stopped) && !shutUp ==>
                var n := Runs(threshold, steps);
                && !stopped
                && pinged == steps[n - 1].repings
                && processed == (if steps[n - 1].repings then n else n - 1)
                && (invokeLaterScheduled <==> RepingedWithin(steps, n))
    {
      queued := queued - 1;
      // compareAndSet(true, false), and the assertion on its result
      var b := invokeLaterScheduled;
      invokeLaterScheduled := false;
      assert b;
      if stopped || shutUp {
        Stop();
        return 0;
      }
      RunsStopsAtFirstEnd(threshold, steps);
      ghost var n := Runs(threshold, steps);
      processed := 0;
      var k := 0;
      while true
        invariant Valid() && !stopped
        invariant k < n && processed == k
        invariant forall j :: 0 <= j < k ==> steps[j].repings
        invariant invokeLaterScheduled == (k > 0) && (k > 0 ==> pinged)
        decreases n - k
      {
        var more := ProcessNext(steps[k].repings);
        if more {
          processed := processed + 1;
        } else {
          break;
        }
        if threshold != INDEFINITE && steps[k].elapsedMs > threshold {
          break;
        }
        k := k + 1;
      }
      assert k == n - 1;
      if pinged {
        // the action's own ping has already queued the follow-up
        var again := ScheduleUpdate();
        assert !again;
      }
    }
  }
}
