/**
  Why a queued tick has the status it has: what each entry of the log says about the step that
  made it, over every run.
 */
module TickStatuses {
  import opened TickLifecycle

  /**
    Completed: the worker had the tick and goes on. Failed or aborted: measuring it failed, and the
    shared stop event tells which; or it was drained from the queue, and never failed.
   */
  ghost predicate Justified(s: State, s': State, e: Entry) {
    match e.status
    case Completed => s.worker == Processing(e.idx) && s'.worker.Waiting?
    case Failed => s.worker == Processing(e.idx) && s'.worker == Recorded(e.idx) && !(s.hasEvent && s.event)
    case Aborted =>
      || (s.worker == Processing(e.idx) && s'.worker == Recorded(e.idx) && s.hasEvent && s.event)
      || ((s.worker.Draining? || s.poller.FinalDrain?) && s.head < |s.put| && s.put[s.head] == Tick(e.idx) &&
          s'.head == s.head + 1)
  }

  /** The step adds one entry, and the entry is right. */
  ghost predicate Logs(s: State, s': State) {
    |s'.log| == |s.log| + 1 && s'.log[..|s.log|] == s.log && Justified(s, s', s'.log[|s.log|])
  }

  lemma DrainLogs(s: State, s': State)
    requires PollerAborts(s, s') || WorkerAborts(s, s')
    ensures Logs(s, s')
  {
    assert s'.log[..|s.log|] == s.log;
  }

  lemma MeasuringLogs(s: State, s': State)
    requires WorkerSucceeds(s, s') || WorkerFails(s, s')
    ensures Logs(s, s')
  {
    assert s'.log[..|s.log|] == s.log;
  }

  lemma PollerStepLogs(s: State, s': State)
    requires PollerSteps(s, s')
    ensures s'.log == s.log || Logs(s, s')
  {
    if PollerAborts(s, s') {
      DrainLogs(s, s');
    } else if PollerReturns(s, s') {
    } else if PollerPutsSentinel(s, s') {
    } else if s.poller.Polling? {
      QuietPollingStep(s, s');
    } else {
      QuietClosingStep(s, s');
    }
  }

  lemma WorkerStepLogs(s: State, s': State)
    requires WorkerSteps(s, s')
    ensures s'.log == s.log || Logs(s, s')
  {
    if WorkerAborts(s, s') { DrainLogs(s, s'); }
    else if WorkerSucceeds(s, s') { MeasuringLogs(s, s'); }
    else if WorkerFails(s, s') { MeasuringLogs(s, s'); }
    else if WorkerBreaks(s, s') {}
    else if WorkerGets(s, s') {}
    else { QuietWorkerStep(s, s'); }
  }

  /** A step leaves the log alone, or adds one justified entry. */
  lemma StepLogs(s: State, s': State)
    requires Next(s, s')
    ensures s'.log == s.log || Logs(s, s')
  {
    if PollerSteps(s, s') { PollerStepLogs(s, s'); }
    else if WorkerSteps(s, s') { WorkerStepLogs(s, s'); }
    else { QuietOutsideStep(s, s'); }
  }

  ghost predicate KeptOrAdded(s: State, s': State) {
    s'.log == s.log || Logs(s, s')
  }

  /** The step that logged entry `j`. */
  ghost predicate LoggedBy(run: seq<State>, n: nat, j: nat)
    requires n + 1 < |run|
  {
    |run[n].log| == j && |run[n + 1].log| == j + 1 && Logs(run[n], run[n + 1])
  }

  lemma {:induction false} FindEntry(run: seq<State>, k: nat, j: nat) returns (n: nat)
    requires k < |run| && run[0].log == [] && j < |run[k].log|
    requires forall i :: 0 < i < |run| ==> KeptOrAdded(run[i - 1], run[i])
    ensures n < k && LoggedBy(run, n, j) && run[n + 1].log[j] == run[k].log[j]
    decreases k
  {
    n := 0;
    if k > 0 {
      var s, s' := run[k - 1], run[k];
      assert KeptOrAdded(s, s');
      if j < |s.log| {
        n := FindEntry(run, k - 1, j);
        assert Logs(s, s') ==> s'.log[..|s.log|][j] == s'.log[j];
      } else {
        n := k - 1;
      }
    }
  }

  /**
    In every run, each entry was added by one step that justifies its status; so a tick that is not
    completed failed to be measured or was drained, and one that is was measured.
   */
  lemma EveryStatusJustified(run: seq<State>, k: nat, j: nat) returns (n: nat)
    requires Run(run) && k < |run| && j < |run[k].log|
    ensures n < k && LoggedBy(run, n, j) && run[n + 1].log[j] == run[k].log[j]
  {
    forall i | 0 < i < |run| ensures KeptOrAdded(run[i - 1], run[i]) {
      StepLogs(run[i - 1], run[i]);
    }
    n := FindEntry(run, k, j);
  }

  /** A tick being measured can always be completed, and can always fail; the run goes on from there. */
  lemma MeasuringMayEnd(s: State)
    requires s.worker.Processing?
    ensures Next(s, s.(log := s.log + [Entry(s.worker.idx, Completed)], worker := Waiting))
    ensures Next(s, s.(log := s.log + [Entry(s.worker.idx, if s.hasEvent && s.event then Aborted else Failed)],
                       worker := Recorded(s.worker.idx)))
  {
    var done := s.(log := s.log + [Entry(s.worker.idx, Completed)], worker := Waiting);
    assert WorkerSucceeds(s, done);
    var failed := s.(log := s.log + [Entry(s.worker.idx, if s.hasEvent && s.event then Aborted else Failed)],
                     worker := Recorded(s.worker.idx));
    assert WorkerFails(s, failed);
  }
}
