/**
  How an error or a stop gets around: a fatal error reaches the error field, the stop flag and the
  shared event, nothing else sets the error field, and a stopped polling thread can leave.
 */
module TickShutdown {
  import opened Common
  import opened TickLifecycle

  /** The worker has given up and made its three assignments. */
  ghost predicate WorkerGaveUp(s: State) {
    s.worker.Draining? || (s.worker.WorkerDone? && s.fatalAt.Some?)
  }

  ghost predicate WorkerSpreads(s: State) {
    && (WorkerGaveUp(s) || s.worker == RaisingFatal(SetStop) || s.worker == RaisingFatal(SetEvent) ==> s.fatal)
    && (WorkerGaveUp(s) || s.worker == RaisingFatal(SetEvent) ==> s.stop)
    && (WorkerGaveUp(s) && s.hasEvent ==> s.event)
  }

  ghost predicate PollerSpreads(s: State) {
    && (s.pollerRaised ==> !s.poller.Polling?)
    && (s.pollerRaised && s.poller != PollerFatal(SetError) ==> s.fatal)
    && (s.pollerRaised && (s.poller == PollerFatal(SetEvent) || !s.poller.PollerFatal?) ==> s.stop)
    && (s.pollerRaised && !s.poller.PollerFatal? && s.hasEvent ==> s.event)
    && (!s.poller.Polling? && !s.poller.PollerFatal? ==> s.stop)
  }

  ghost predicate ErrorHasCause(s: State) {
    s.fatal ==> s.fatalAt.Some? || s.pollerRaised
  }

  ghost predicate Spreads(s: State) {
    WorkerSpreads(s) && PollerSpreads(s) && ErrorHasCause(s)
  }

  /** Nothing is taken back, and the step concerns neither the threads nor the causes. */
  ghost predicate LeavesThreads(s: State, s': State) {
    && s'.worker == s.worker && s'.poller == s.poller && s'.fatalAt == s.fatalAt && s'.pollerRaised == s.pollerRaised
    && s'.hasEvent == s.hasEvent && s'.fatal == s.fatal && (s.stop ==> s'.stop) && (s.event ==> s'.event)
  }

  lemma QueueStep(s: State, s': State)
    requires PollerAllocates(s, s') || PollerQueues(s, s')
    ensures LeavesThreads(s, s')
  {}

  lemma DrainStep(s: State, s': State)
    requires PollerAborts(s, s') || WorkerAborts(s, s')
    ensures LeavesThreads(s, s')
  {}

  lemma FinalTickStep(s: State, s': State)
    requires FinalAllocates(s, s') || FinalQueues(s, s')
    ensures LeavesThreads(s, s')
  {}

  lemma StopStep(s: State, s': State)
    requires StopRequested(s, s') || ExternalStop(s, s')
    ensures LeavesThreads(s, s')
  {}

  lemma OtherStepSpreads(s: State, s': State)
    requires Spreads(s) && LeavesThreads(s, s')
    ensures Spreads(s')
  {}

  /** Who is on the way to report an error has a cause. */
  ghost predicate Causes(s: State) {
    && (s.worker.RaisingFatal? || s.worker.Draining? ==> s.fatalAt.Some?)
    && (s.fatalAt.Some? ==> FatalPath(s.worker))
    && (s.poller.PollerFatal? ==> s.pollerRaised)
  }

  lemma PollerFailsSpreads(s: State, s': State)
    requires Causes(s) && Spreads(s) && (PollerRaises(s, s') || PollerSetsError(s, s'))
    ensures Spreads(s')
  {}

  lemma PollerStopsSpreads(s: State, s': State)
    requires Causes(s) && Spreads(s) && (PollerSetsStop(s, s') || PollerSetsEvent(s, s'))
    ensures Spreads(s')
  {}

  lemma PollerLeavesSpreads(s: State, s': State)
    requires Causes(s) && Spreads(s) && (PollerSeesStop(s, s') || PollerPutsSentinel(s, s'))
    ensures Spreads(s')
  {}

  lemma PollerEndsSpreads(s: State, s': State)
    requires Causes(s) && Spreads(s) && (PollerJoins(s, s') || PollerReturns(s, s'))
    ensures Spreads(s')
  {}

  lemma PollerStepSpreads(s: State, s': State)
    requires Causes(s) && Spreads(s) && PollerSteps(s, s')
    ensures Spreads(s')
  {
    if PollerAllocates(s, s') { QueueStep(s, s'); OtherStepSpreads(s, s'); }
    else if PollerQueues(s, s') { QueueStep(s, s'); OtherStepSpreads(s, s'); }
    else if PollerAborts(s, s') { DrainStep(s, s'); OtherStepSpreads(s, s'); }
    else if PollerRaises(s, s') { PollerFailsSpreads(s, s'); }
    else if PollerSetsError(s, s') { PollerFailsSpreads(s, s'); }
    else if PollerSetsStop(s, s') { PollerStopsSpreads(s, s'); }
    else if PollerSetsEvent(s, s') { PollerStopsSpreads(s, s'); }
    else if PollerSeesStop(s, s') { PollerLeavesSpreads(s, s'); }
    else if PollerPutsSentinel(s, s') { PollerLeavesSpreads(s, s'); }
    else { PollerEndsSpreads(s, s'); }
  }

  lemma WorkerGetsSpreads(s: State, s': State)
    requires Causes(s) && Spreads(s) && WorkerGets(s, s')
    ensures Spreads(s')
  {}

  lemma WorkerMeasuresSpreads(s: State, s': State)
    requires Causes(s) && Spreads(s) && (WorkerSucceeds(s, s') || WorkerFails(s, s'))
    ensures Spreads(s')
  {}

  lemma WorkerDecidesSpreads(s: State, s': State)
    requires Causes(s) && Spreads(s) && (WorkerResumes(s, s') || WorkerGivesUp(s, s'))
    ensures Spreads(s')
  {}

  lemma WorkerFatalSpreads(s: State, s': State)
    requires Causes(s) && Spreads(s) && (WorkerSetsError(s, s') || WorkerSetsStop(s, s'))
    ensures Spreads(s')
  {}

  lemma WorkerEndsSpreads(s: State, s': State)
    requires Causes(s) && Spreads(s) && (WorkerSetsEvent(s, s') || WorkerBreaks(s, s'))
    ensures Spreads(s')
  {}

  lemma WorkerStepSpreads(s: State, s': State)
    requires Causes(s) && Spreads(s) && WorkerSteps(s, s')
    ensures Spreads(s')
  {
    if WorkerAborts(s, s') { DrainStep(s, s'); OtherStepSpreads(s, s'); }
    else if WorkerGets(s, s') { WorkerGetsSpreads(s, s'); }
    else if WorkerSucceeds(s, s') { WorkerMeasuresSpreads(s, s'); }
    else if WorkerFails(s, s') { WorkerMeasuresSpreads(s, s'); }
    else if WorkerResumes(s, s') { WorkerDecidesSpreads(s, s'); }
    else if WorkerGivesUp(s, s') { WorkerDecidesSpreads(s, s'); }
    else if WorkerSetsError(s, s') { WorkerFatalSpreads(s, s'); }
    else if WorkerSetsStop(s, s') { WorkerFatalSpreads(s, s'); }
    else { WorkerEndsSpreads(s, s'); }
  }

  lemma StepSpreads(s: State, s': State)
    requires Inv(s) && Spreads(s) && Next(s, s')
    ensures Spreads(s')
  {
    if PollerSteps(s, s') {
      PollerStepSpreads(s, s');
    } else if WorkerSteps(s, s') {
      WorkerStepSpreads(s, s');
    } else {
      if FinalAllocates(s, s') || FinalQueues(s, s') { FinalTickStep(s, s'); } else { StopStep(s, s'); }
      OtherStepSpreads(s, s');
    }
  }

  lemma {:induction false} RunSpreads(run: seq<State>)
    requires Run(run)
    ensures Spreads(run[|run| - 1])
  {
    RunInv(run);
    for n := 1 to |run|
      invariant Spreads(run[n - 1])
    {
      StepSpreads(run[n - 1], run[n]);
    }
  }

  /**
    When the loop returns, an error is on record exactly if a failed tick made the worker give up or
    the polling thread failed; then the scheduler is stopped, and so is everybody on the shared event.
   */
  lemma ErrorIsReported(run: seq<State>)
    requires Run(run) && run[|run| - 1].poller.Returned?
    ensures var s := run[|run| - 1];
      && (s.fatal <==> s.fatalAt.Some? || s.pollerRaised)
      && (s.fatal && s.hasEvent ==> s.event)
      && s.stop
  {
    RunInv(run);
    RunSpreads(run);
  }

  /** Once stopped, the polling thread queues at most the tick it has begun, and then the sentinel. */
  lemma StoppedPollerLeaves(s: State) returns (run: seq<State>)
    requires s.stop && s.poller.Polling?
    ensures Chain(run) && run[0] == s && |run| <= 4
    ensures var put := s.put + if s.pollerIdx.Some? then [Tick(s.pollerIdx.value)] else [];
      run[|run| - 1] == s.(put := put + [Sentinel], pollerIdx := None, sentinelAt := Some(|put|), poller := Joining)
  {
    run := [s];
    var queued := s;
    if s.pollerIdx.Some? {
      queued := s.(put := s.put + [Tick(s.pollerIdx.value)], pollerIdx := None);
      assert PollerQueues(s, queued);
      Link(run, queued);
      run := run + [queued];
    }
    var leaving := queued.(poller := TickLifecycle.Poller.Leaving);
    assert PollerSeesStop(queued, leaving);
    Link(run, leaving);
    run := run + [leaving];
    var joining := leaving.(put := leaving.put + [Sentinel], sentinelAt := Some(|leaving.put|), poller := Joining);
    assert PollerPutsSentinel(leaving, joining);
    Link(run, joining);
    run := run + [joining];
  }
}
