/**
  Which guarantees of the tick queue hold for which schedulers: when a failure is certain to abort
  what is queued behind it, and that joining the worker never hangs.
 */
module TickGuarantees {
  import opened Common
  import opened TickLifecycle

  // ----- Aborting behind a failure ------------------------------------------------------------

  ghost predicate Returns(run: seq<State>) {
    Run(run) && run[|run| - 1].poller.Returned?
  }

  ghost predicate AbortsBehindFailures(log: seq<Entry>) {
    forall p :: 0 <= p < |log| && log[p].status == Failed ==> AbortedAfter(log, p)
  }

  /** Whether a stop event is shared is settled when the scheduler is built. */
  lemma {:induction false} RunKeepsSetting(run: seq<State>)
    requires Run(run)
    ensures run[|run| - 1].hasEvent == run[0].hasEvent
  {
    for n := 1 to |run|
      invariant run[n - 1].hasEvent == run[0].hasEvent
    {
      assert Next(run[n - 1], run[n]);
    }
  }

  /** Without a shared stop event, every failure aborts all that is settled after it. */
  lemma NoEventAborts(run: seq<State>)
    requires Returns(run) && !run[0].hasEvent
    ensures AbortsBehindFailures(run[|run| - 1].log)
  {
    RunKeepsSetting(run);
    var s := run[|run| - 1];
    forall p | 0 <= p < |s.log| && s.log[p].status == Failed ensures AbortedAfter(s.log, p) {
      FailureAbortsTheRest(run, p);
    }
  }

  /**
    The promise, exactly: a failure in a run nobody stops from outside is certain to abort all that
    is settled after it if and only if the scheduler was built without a shared stop event.
   */
  lemma UnstoppedRunsAbortExactlyWhen(hasEvent: bool)
    ensures (forall run: seq<State> :: Returns(run) && run[0].hasEvent == hasEvent && !run[|run| - 1].external
               ==> AbortsBehindFailures(run[|run| - 1].log))
       <==> !hasEvent
  {
    if hasEvent {
      var run := PollerErrorLetsWorkerContinue();
      RunKeepsSetting(run);
      NotAborted(run[|run| - 1].log);
    } else {
      forall run: seq<State> | Returns(run) && run[0].hasEvent == hasEvent && !run[|run| - 1].external
        ensures AbortsBehindFailures(run[|run| - 1].log)
      {
        NoEventAborts(run);
      }
    }
  }

  /** The same holds of runs in which the polling thread does not fail, stopped from outside or not. */
  lemma HealthyPollerAbortsExactlyWhen(hasEvent: bool)
    ensures (forall run: seq<State> :: Returns(run) && run[0].hasEvent == hasEvent && !run[|run| - 1].pollerRaised
               ==> AbortsBehindFailures(run[|run| - 1].log))
       <==> !hasEvent
  {
    if hasEvent {
      var run := ExternalStopLetsWorkerContinue();
      NotAborted(run[|run| - 1].log);
    } else {
      forall run: seq<State> | Returns(run) && run[0].hasEvent == hasEvent && !run[|run| - 1].pollerRaised
        ensures AbortsBehindFailures(run[|run| - 1].log)
      {
        NoEventAborts(run);
      }
    }
  }

  lemma NotAborted(log: seq<Entry>)
    requires log == [Entry(1, Failed), Entry(2, Completed)]
    ensures !AbortsBehindFailures(log)
  {
    assert log[0].status == Failed && log[1].status == Completed;
    assert !AbortedAfter(log, 0);
  }

  /** Tick 1 fails, a stop comes from outside before the worker looks again, and tick 2 is still completed. */
  lemma ExternalStopLetsWorkerContinue() returns (run: seq<State>)
    ensures Returns(run) && run[0].hasEvent
    ensures !run[|run| - 1].pollerRaised && run[|run| - 1].external
    ensures run[|run| - 1].log == [Entry(1, Failed), Entry(2, Completed)]
  {
    var s := State(true, [], 0, None, false, false, false, 1, None, None, Waiting, Polling, [], false, false, None);
    var failed := FirstTickFails(s);
    var stopped := StopInBetween(failed[|failed| - 1]);
    var closed := SecondTickCompletesQuietly(stopped[|stopped| - 1]);
    Joined(failed, stopped);
    Joined(failed + stopped[1..], closed);
    run := failed + stopped[1..] + closed[1..];
  }

  lemma StopInBetween(s: State) returns (run: seq<State>)
    requires s.hasEvent && s.poller.Polling? && s.pollerIdx.None? && s.worker.Recorded?
    ensures Chain(run) && run[0] == s
    ensures run[|run| - 1] == s.(event := true, external := true, worker := Waiting, stop := true, poller := Leaving)
  {
    var s1 := s.(event := true, external := true);
    var s2 := s1.(worker := Waiting);
    var s3 := s2.(stop := true);
    var s4 := s3.(poller := Leaving);
    assert ExternalStop(s, s1) && WorkerResumes(s1, s2) && StopRequested(s2, s3) && PollerSeesStop(s3, s4);
    Link([s], s1); Link([s, s1], s2); Link([s, s1, s2], s3); Link([s, s1, s2, s3], s4);
    run := [s, s1, s2, s3, s4];
  }

  lemma SecondTickCompletesQuietly(s: State) returns (run: seq<State>)
    requires s.put == [Tick(1), Tick(2)] && s.head == 1 && !s.fatal && s.poller.Leaving? && s.worker.Waiting?
    ensures Chain(run) && run[0] == s
    ensures var t := run[|run| - 1];
      t.poller.Returned? && t.external == s.external && t.pollerRaised == s.pollerRaised &&
        t.log == s.log + [Entry(2, Completed)]
  {
    var s1 := s.(head := 2, worker := Processing(2));
    var s2 := s1.(log := s.log + [Entry(2, Completed)], worker := Waiting);
    var s3 := s2.(put := s.put + [Sentinel], sentinelAt := Some(2), poller := Joining);
    var s4 := s3.(head := 3, worker := WorkerDone);
    var s5 := s4.(poller := Returned);
    assert WorkerGets(s, s1) && WorkerSucceeds(s1, s2) && PollerPutsSentinel(s2, s3);
    assert WorkerGets(s3, s4) && PollerJoins(s4, s5);
    Link([s], s1); Link([s, s1], s2); Link([s, s1, s2], s3); Link([s, s1, s2, s3], s4); Link([s, s1, s2, s3, s4], s5);
    run := [s, s1, s2, s3, s4, s5];
  }

  // ----- Joining the worker ---------------------------------------------------------------------

  /** The polling thread has put the sentinel and has yet to return. */
  ghost predicate Closing(s: State) {
    s.poller.Joining? || s.poller.FinalDrain?
  }

  ghost predicate Moves(s: State, s': State) {
    PollerSteps(s, s') || WorkerSteps(s, s')
  }

  lemma DrainCanMove(s: State) returns (t: State)
    requires Inv(s) && s.worker.Draining?
    ensures WorkerAborts(s, t) || WorkerBreaks(s, t)
  {
    if DrainEnds(s) {
      t := s.(head := HeadAfterDrain(s), worker := WorkerDone);
    } else {
      t := s.(head := s.head + 1, log := s.log + [Entry(s.put[s.head].idx, Aborted)]);
    }
  }

  lemma FatalCanMove(s: State) returns (t: State)
    requires s.worker.RaisingFatal?
    ensures WorkerSetsError(s, t) || WorkerSetsStop(s, t) || WorkerSetsEvent(s, t)
  {
    match s.worker.stage {
      case SetError => t := s.(fatal := true, worker := RaisingFatal(SetStop));
      case SetStop => t := s.(stop := true, worker := RaisingFatal(SetEvent));
      case SetEvent => t := s.(event := s.hasEvent || s.event, worker := Draining);
    }
  }

  lemma TickCanMove(s: State) returns (t: State)
    requires Inv(s) && s.poller.Joining? && (s.worker.Waiting? || s.worker.Processing? || s.worker.Recorded?)
    ensures WorkerGets(s, t) || WorkerSucceeds(s, t) || WorkerResumes(s, t) || WorkerGivesUp(s, t)
  {
    match s.worker {
      case Waiting =>
        t := s.(head := s.head + 1,
                worker := match s.put[s.head] case Sentinel => WorkerDone case Tick(idx) => Processing(idx));
      case Processing(idx) =>
        t := s.(log := s.log + [Entry(idx, Completed)], worker := Waiting);
      case Recorded(idx) =>
        t := if s.ShuttingDown() then s.(worker := Waiting)
             else s.(worker := RaisingFatal(SetError), fatalAt := Some(|s.log| - 1));
    }
  }

  lemma WorkerCanMove(s: State) returns (t: State)
    requires Inv(s) && s.poller.Joining? && !s.worker.WorkerDone?
    ensures WorkerSteps(s, t)
  {
    if s.worker.Draining? {
      t := DrainCanMove(s);
    } else if s.worker.RaisingFatal? {
      t := FatalCanMove(s);
    } else {
      t := TickCanMove(s);
    }
  }

  lemma PollerCanMove(s: State) returns (t: State)
    requires Inv(s) && (s.poller.FinalDrain? || (s.poller.Joining? && s.worker.WorkerDone?))
    ensures PollerJoins(s, t) || PollerReturns(s, t) || PollerAborts(s, t)
  {
    if s.poller.Joining? {
      t := s.(poller := if s.fatal then FinalDrain else Returned);
    } else if DrainEnds(s) {
      t := s.(head := HeadAfterDrain(s), poller := Returned);
    } else {
      t := s.(head := s.head + 1, log := s.log + [Entry(s.put[s.head].idx, Aborted)]);
    }
  }

  /** How many steps of the two threads can follow at most, unless another tick is queued. */
  ghost function StepsLeft(s: State): int {
    var worker := match s.worker
      case Processing(_) => 7
      case Recorded(_) => 6
      case RaisingFatal(stage) => (match stage case SetError => 5 case SetStop => 4 case SetEvent => 3)
      case Draining => 2
      case Waiting => 1
      case WorkerDone => 0;
    var poller := match s.poller case Joining => 2 case FinalDrain => 1 case _ => 0;
    8 * (|s.put| - s.head) + worker + poller
  }

  lemma JoinCounts(s: State, s': State)
    requires Closing(s) && PollerJoins(s, s')
    ensures StepsLeft(s') < StepsLeft(s) && (Closing(s') || s'.poller.Returned?)
  {}

  lemma AbortCounts(s: State, s': State)
    requires Closing(s) && PollerAborts(s, s')
    ensures StepsLeft(s') < StepsLeft(s) && Closing(s')
  {}

  lemma ReturnCounts(s: State, s': State)
    requires Closing(s) && PollerReturns(s, s')
    ensures StepsLeft(s') < StepsLeft(s) && s'.poller.Returned?
  {}

  lemma WorkerGetsCounts(s: State, s': State)
    requires Inv(s) && Closing(s) && WorkerGets(s, s')
    ensures StepsLeft(s') < StepsLeft(s) && Closing(s')
  {}

  lemma WorkerAbortsCounts(s: State, s': State)
    requires Inv(s) && Closing(s) && WorkerAborts(s, s')
    ensures StepsLeft(s') < StepsLeft(s) && Closing(s')
  {}

  lemma WorkerBreaksCounts(s: State, s': State)
    requires Inv(s) && Closing(s) && WorkerBreaks(s, s')
    ensures StepsLeft(s') < StepsLeft(s) && Closing(s')
  {}

  lemma WorkerSucceedsCounts(s: State, s': State)
    requires Closing(s) && WorkerSucceeds(s, s')
    ensures StepsLeft(s') < StepsLeft(s) && Closing(s')
  {}

  lemma WorkerFailsCounts(s: State, s': State)
    requires Closing(s) && WorkerFails(s, s')
    ensures StepsLeft(s') < StepsLeft(s) && Closing(s')
  {}

  lemma WorkerResumesCounts(s: State, s': State)
    requires Closing(s) && WorkerResumes(s, s')
    ensures StepsLeft(s') < StepsLeft(s) && Closing(s')
  {}

  lemma WorkerGivesUpCounts(s: State, s': State)
    requires Closing(s) && WorkerGivesUp(s, s')
    ensures StepsLeft(s') < StepsLeft(s) && Closing(s')
  {}

  lemma WorkerSetsErrorCounts(s: State, s': State)
    requires Closing(s) && WorkerSetsError(s, s')
    ensures StepsLeft(s') < StepsLeft(s) && Closing(s')
  {}

  lemma WorkerSetsStopCounts(s: State, s': State)
    requires Closing(s) && WorkerSetsStop(s, s')
    ensures StepsLeft(s') < StepsLeft(s) && Closing(s')
  {}

  lemma WorkerSetsEventCounts(s: State, s': State)
    requires Closing(s) && WorkerSetsEvent(s, s')
    ensures StepsLeft(s') < StepsLeft(s) && Closing(s')
  {}

  lemma PollerMoveCounts(s: State, s': State)
    requires Inv(s) && Closing(s) && PollerSteps(s, s')
    ensures StepsLeft(s') < StepsLeft(s) && (Closing(s') || s'.poller.Returned?)
  {
    if PollerJoins(s, s') {
      JoinCounts(s, s');
    } else if PollerAborts(s, s') {
      AbortCounts(s, s');
    } else {
      ReturnCounts(s, s');
    }
  }

  lemma WorkerMoveCounts(s: State, s': State)
    requires Inv(s) && Closing(s) && WorkerSteps(s, s')
    ensures StepsLeft(s') < StepsLeft(s) && Closing(s')
  {
    if WorkerGets(s, s') { WorkerGetsCounts(s, s'); }
    else if WorkerSucceeds(s, s') { WorkerSucceedsCounts(s, s'); }
    else if WorkerFails(s, s') { WorkerFailsCounts(s, s'); }
    else if WorkerResumes(s, s') { WorkerResumesCounts(s, s'); }
    else if WorkerGivesUp(s, s') { WorkerGivesUpCounts(s, s'); }
    else if WorkerSetsError(s, s') { WorkerSetsErrorCounts(s, s'); }
    else if WorkerSetsStop(s, s') { WorkerSetsStopCounts(s, s'); }
    else if WorkerSetsEvent(s, s') { WorkerSetsEventCounts(s, s'); }
    else if WorkerAborts(s, s') { WorkerAbortsCounts(s, s'); }
    else { WorkerBreaksCounts(s, s'); }
  }

  /** In every reachable state after the sentinel was put, until the poller returns, a thread can move. */
  lemma JoinNeverStuck(run: seq<State>) returns (t: State)
    requires Run(run) && Closing(run[|run| - 1])
    ensures Moves(run[|run| - 1], t)
  {
    RunInv(run);
    var s := run[|run| - 1];
    if s.poller.Joining? && !s.worker.WorkerDone? {
      t := WorkerCanMove(s);
    } else {
      t := PollerCanMove(s);
    }
  }

  lemma MoveCounts(run: seq<State>, s': State)
    requires Run(run) && Closing(run[|run| - 1]) && Moves(run[|run| - 1], s')
    ensures StepsLeft(s') < StepsLeft(run[|run| - 1]) && (Closing(s') || s'.poller.Returned?)
  {
    RunInv(run);
    if PollerSteps(run[|run| - 1], s') {
      PollerMoveCounts(run[|run| - 1], s');
    } else {
      WorkerMoveCounts(run[|run| - 1], s');
    }
  }

  lemma StepsLeftNatural(run: seq<State>)
    requires Run(run)
    ensures StepsLeft(run[|run| - 1]) >= 0
  {
    RunInv(run);
  }

  /** Step `j` of the run is one of the two threads', taken before the polling thread returned. */
  ghost predicate OwnStep(run: seq<State>, j: nat)
    requires 0 < j < |run|
  {
    Closing(run[j - 1]) && Moves(run[j - 1], run[j])
  }

  lemma RunPrefix(run: seq<State>)
    requires Run(run) && |run| > 1
    ensures Run(run[..|run| - 1])
  {
    var front := run[..|run| - 1];
    forall i | 0 < i < |front| ensures Next(front[i - 1], front[i]) {
      assert front[i - 1] == run[i - 1] && front[i] == run[i];
    }
  }

  ghost predicate OwnStepsFrom(run: seq<State>, i: nat) {
    forall j :: i < j < |run| ==> OwnStep(run, j)
  }

  lemma OwnStepsPrefix(run: seq<State>, i: nat)
    requires OwnStepsFrom(run, i) && i < |run| - 1
    ensures OwnStepsFrom(run[..|run| - 1], i) && OwnStep(run, |run| - 1)
  {
    var front := run[..|run| - 1];
    forall j | i < j < |front| ensures OwnStep(front, j) {
      assert OwnStep(run, j);
    }
  }

  lemma OwnStepCounts(run: seq<State>)
    requires Run(run) && |run| > 1 && OwnStep(run, |run| - 1)
    ensures StepsLeft(run[|run| - 1]) < StepsLeft(run[|run| - 2])
  {
    RunPrefix(run);
    MoveCounts(run[..|run| - 1], run[|run| - 1]);
  }

  /**
    The join never hangs: from when the sentinel was put, with no further tick queued, at most
    `StepsLeft` steps of the two threads follow, and until the polling thread has returned one of
    them can move.
   */
  lemma {:induction false} ReturnsWithin(run: seq<State>, i: nat)
    requires Run(run) && i < |run| && OwnStepsFrom(run, i)
    ensures |run| - 1 - i <= StepsLeft(run[i]) - StepsLeft(run[|run| - 1]) <= StepsLeft(run[i])
    decreases |run|
  {
    if i < |run| - 1 {
      var front := run[..|run| - 1];
      RunPrefix(run);
      OwnStepsPrefix(run, i);
      assert front[i] == run[i] && front[|front| - 1] == run[|run| - 2];
      ReturnsWithin(front, i);
      OwnStepCounts(run);
    }
    StepsLeftNatural(run);
  }
}
