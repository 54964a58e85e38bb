/**
  The tick queue between the polling thread, the worker thread and everybody who may stop the
  run, as a state machine over the atomic steps of the threads.

  Database writes and queue operations are single steps that succeed; measuring a tick may
  fail. A tick row exists before its tick is queued, so all claims are about queued ticks.
 */
module TickLifecycle {
  import opened Common

  datatype Status = Completed | Failed | Aborted

  datatype Item = Tick(idx: nat) | Sentinel

  datatype Entry = Entry(idx: nat, status: Status)

  /** Where the three assignments of `_set_fatal_error` stand. */
  datatype FatalStage = SetError | SetStop | SetEvent

  datatype Worker =
    | Waiting
    | Processing(idx: nat)
    | Recorded(idx: nat)
    | RaisingFatal(stage: FatalStage)
    | Draining
    | WorkerDone

  datatype Poller =
    | Polling
    | PollerFatal(pollerStage: FatalStage)
    | Leaving
    | Joining
    | FinalDrain
    | Returned

  /**
    The queue is what was put from position `head` on. `hasEvent` says whether a shared stop
    event was passed; `sentinelAt` and the last three fields only record history.
   */
  datatype State = State(
    hasEvent: bool,
    put: seq<Item>,
    head: nat,
    sentinelAt: Option<nat>,
    stop: bool,
    event: bool,
    fatal: bool,
    nextIdx: nat,
    pollerIdx: Option<nat>,
    finalIdx: Option<nat>,
    worker: Worker,
    poller: Poller,
    log: seq<Entry>,
    external: bool,
    pollerRaised: bool,
    fatalAt: Option<nat>)
  {
    /** `_shutting_down`. */
    ghost predicate ShuttingDown() { hasEvent && event }

    ghost predicate Empty() { head >= |put| }

    ghost predicate SentinelTaken() { sentinelAt.Some? && sentinelAt.value < head }

    /** Where the item logged as entry `j` was put. */
    ghost function Position(j: nat): nat {
      if SentinelTaken() && sentinelAt.value <= j then j + 1 else j
    }
  }

  ghost predicate Init(s: State) {
    && s.put == [] && s.head == 0 && s.sentinelAt.None?
    && !s.stop && !s.event && !s.fatal
    && s.pollerIdx.None? && s.finalIdx.None?
    && s.worker == Waiting && s.poller == Polling
    && s.log == []
    && !s.external && !s.pollerRaised && s.fatalAt.None?
  }

  // ----- Steps ---------------------------------------------------------------------------

  // The polling thread (`run_loop`).

  ghost predicate PollerAllocates(s: State, s': State) {
    s.poller.Polling? && s.pollerIdx.None? && s' == s.(pollerIdx := Some(s.nextIdx), nextIdx := s.nextIdx + 1)
  }

  ghost predicate PollerQueues(s: State, s': State) {
    && s.poller.Polling? && s.pollerIdx.Some?
    && s' == s.(put := s.put + [Tick(s.pollerIdx.value)], pollerIdx := None)
  }

  ghost predicate PollerRaises(s: State, s': State) {
    s.poller.Polling? && s' == s.(poller := PollerFatal(SetError), pollerIdx := None, pollerRaised := true)
  }

  ghost predicate PollerSetsError(s: State, s': State) {
    s.poller == PollerFatal(SetError) && s' == s.(fatal := true, poller := PollerFatal(SetStop))
  }

  ghost predicate PollerSetsStop(s: State, s': State) {
    s.poller == PollerFatal(SetStop) && s' == s.(stop := true, poller := PollerFatal(SetEvent))
  }

  ghost predicate PollerSetsEvent(s: State, s': State) {
    s.poller == PollerFatal(SetEvent) && s' == s.(event := s.hasEvent || s.event, poller := Leaving)
  }

  ghost predicate PollerSeesStop(s: State, s': State) {
    s.poller.Polling? && s.pollerIdx.None? && s.stop && s' == s.(poller := Leaving)
  }

  ghost predicate PollerPutsSentinel(s: State, s': State) {
    s.poller.Leaving? && s' == s.(put := s.put + [Sentinel], sentinelAt := Some(|s.put|), poller := Joining)
  }

  ghost predicate PollerJoins(s: State, s': State) {
    s.poller.Joining? && s.worker.WorkerDone? && s' == s.(poller := if s.fatal then FinalDrain else Returned)
  }

  /** `_abort_pending_ticks` returns on an empty queue, and after taking the sentinel. */
  ghost predicate DrainEnds(s: State) {
    s.Empty() || s.put[s.head].Sentinel?
  }

  ghost function HeadAfterDrain(s: State): nat {
    if s.Empty() then s.head else s.head + 1
  }

  /** `_abort_pending_ticks` marks one queued tick. */
  ghost predicate DrainAborts(s: State, s': State) {
    && !s.Empty() && s.put[s.head].Tick?
    && s' == s.(head := s.head + 1, log := s.log + [Entry(s.put[s.head].idx, Aborted)])
  }

  ghost predicate PollerAborts(s: State, s': State) {
    s.poller.FinalDrain? && DrainAborts(s, s')
  }

  ghost predicate PollerReturns(s: State, s': State) {
    s.poller.FinalDrain? && DrainEnds(s) && s' == s.(head := HeadAfterDrain(s), poller := Returned)
  }

  // The coordinator (`schedule_final_tick`, `stop`) and the signal handler.

  ghost predicate FinalAllocates(s: State, s': State) {
    s.finalIdx.None? && s' == s.(finalIdx := Some(s.nextIdx), nextIdx := s.nextIdx + 1)
  }

  ghost predicate FinalQueues(s: State, s': State) {
    s.finalIdx.Some? && s' == s.(put := s.put + [Tick(s.finalIdx.value)], finalIdx := None)
  }

  ghost predicate StopRequested(s: State, s': State) {
    s' == s.(stop := true)
  }

  ghost predicate ExternalStop(s: State, s': State) {
    s.hasEvent && s' == s.(event := true, external := true)
  }

  // The worker thread (`_tick_worker_loop`).

  ghost predicate WorkerGets(s: State, s': State) {
    && s.worker.Waiting? && !s.Empty()
    && s' == s.(head := s.head + 1,
                worker := match s.put[s.head] case Sentinel => WorkerDone case Tick(idx) => Processing(idx))
  }

  ghost predicate WorkerSucceeds(s: State, s': State) {
    s.worker.Processing? && s' == s.(log := s.log + [Entry(s.worker.idx, Completed)], worker := Waiting)
  }

  ghost predicate WorkerFails(s: State, s': State) {
    && s.worker.Processing?
    && s' == s.(log := s.log + [Entry(s.worker.idx, if s.ShuttingDown() then Aborted else Failed)],
                worker := Recorded(s.worker.idx))
  }

  /** The second look at the stop event, after the error was recorded. */
  ghost predicate WorkerResumes(s: State, s': State) {
    s.worker.Recorded? && s.ShuttingDown() && s' == s.(worker := Waiting)
  }

  ghost predicate WorkerGivesUp(s: State, s': State) {
    && s.worker.Recorded? && !s.ShuttingDown() && s.log != []
    && s' == s.(worker := RaisingFatal(SetError), fatalAt := Some(|s.log| - 1))
  }

  ghost predicate WorkerSetsError(s: State, s': State) {
    s.worker == RaisingFatal(SetError) && s' == s.(fatal := true, worker := RaisingFatal(SetStop))
  }

  ghost predicate WorkerSetsStop(s: State, s': State) {
    s.worker == RaisingFatal(SetStop) && s' == s.(stop := true, worker := RaisingFatal(SetEvent))
  }

  ghost predicate WorkerSetsEvent(s: State, s': State) {
    s.worker == RaisingFatal(SetEvent) && s' == s.(event := s.hasEvent || s.event, worker := Draining)
  }

  ghost predicate WorkerAborts(s: State, s': State) {
    s.worker.Draining? && DrainAborts(s, s')
  }

  ghost predicate WorkerBreaks(s: State, s': State) {
    s.worker.Draining? && DrainEnds(s) && s' == s.(head := HeadAfterDrain(s), worker := WorkerDone)
  }

  ghost predicate PollerSteps(s: State, s': State) {
    || PollerAllocates(s, s') || PollerQueues(s, s') || PollerRaises(s, s') || PollerSetsError(s, s')
    || PollerSetsStop(s, s') || PollerSetsEvent(s, s')
    || PollerSeesStop(s, s') || PollerPutsSentinel(s, s') || PollerJoins(s, s')
    || PollerAborts(s, s') || PollerReturns(s, s')
  }

  ghost predicate OutsideSteps(s: State, s': State) {
    FinalAllocates(s, s') || FinalQueues(s, s') || StopRequested(s, s') || ExternalStop(s, s')
  }

  ghost predicate WorkerSteps(s: State, s': State) {
    || WorkerGets(s, s') || WorkerSucceeds(s, s') || WorkerFails(s, s') || WorkerResumes(s, s') || WorkerGivesUp(s, s')
    || WorkerSetsError(s, s') || WorkerSetsStop(s, s') || WorkerSetsEvent(s, s')
    || WorkerAborts(s, s') || WorkerBreaks(s, s')
  }

  /** Some thread takes a step; whether a stop event is shared never changes. */
  ghost predicate Next(s: State, s': State) {
    s'.hasEvent == s.hasEvent && (PollerSteps(s, s') || OutsideSteps(s, s') || WorkerSteps(s, s'))
  }

  /** A run is a sequence of states from an initial one, each following from the one before. */
  ghost predicate Run(run: seq<State>) {
    && run != [] && Init(run[0])
    && forall i :: 0 < i < |run| ==> Next(run[i - 1], run[i])
  }

  // ----- Invariants ------------------------------------------------------------------------

  ghost predicate AbortedAfter(log: seq<Entry>, p: nat) {
    forall i :: p < i < |log| ==> log[i].status == Aborted
  }

  ghost predicate AtMostOneFailure(log: seq<Entry>) {
    forall i, j :: 0 <= i < j < |log| ==> log[i].status != Failed || log[j].status != Failed
  }

  ghost predicate NoFailure(log: seq<Entry>) {
    forall i :: 0 <= i < |log| ==> log[i].status != Failed
  }

  /** Every tick taken off the queue is logged once, in queue order, but for the one in flight. */
  ghost predicate Accounted(s: State) {
    && s.head <= |s.put|
    && |s.log| + (if s.worker.Processing? then 1 else 0) + (if s.SentinelTaken() then 1 else 0) == s.head
    && (forall j :: 0 <= j < |s.log| ==> s.put[s.Position(j)] == Tick(s.log[j].idx))
    && (s.worker.Processing? ==> s.put[s.head - 1] == Tick(s.worker.idx))
    && (s.SentinelTaken() ==> s.worker.WorkerDone?)
  }

  ghost predicate Held(idx: Option<nat>, s: State) {
    idx.Some? ==> idx.value < s.nextIdx && Tick(idx.value) !in s.put
  }

  /** Tick indices are handed out once. */
  ghost predicate FreshIndices(s: State) {
    && (forall i, j :: 0 <= i < j < |s.put| && s.put[i].Tick? ==> s.put[i] != s.put[j])
    && (forall i :: 0 <= i < |s.put| && s.put[i].Tick? ==> s.put[i].idx < s.nextIdx)
    && Held(s.pollerIdx, s) && Held(s.finalIdx, s)
    && (s.pollerIdx.Some? && s.finalIdx.Some? ==> s.pollerIdx != s.finalIdx)
  }

  ghost predicate SentinelPut(p: Poller) { p.Joining? || p.FinalDrain? || p.Returned? }

  /** The sentinel is put once, and nobody stops looking before it was taken. */
  ghost predicate SentinelDiscipline(s: State) {
    && (SentinelPut(s.poller) <==> s.sentinelAt.Some?)
    && (s.sentinelAt.Some? ==> s.sentinelAt.value < |s.put|)
    && (forall i :: 0 <= i < |s.put| ==> (s.put[i] == Sentinel <==> s.sentinelAt == Some(i)))
    && (s.worker.Draining? || (s.worker.RaisingFatal? && s.worker.stage != SetError) ==> s.fatal)
    && (s.worker.WorkerDone? ==> s.fatal || s.SentinelTaken())
    && (s.poller.FinalDrain? || s.poller.Returned? ==> s.worker.WorkerDone?)
    && (s.poller.Returned? ==> s.SentinelTaken())
  }

  ghost predicate FatalPath(w: Worker) { w.RaisingFatal? || w.Draining? || w.WorkerDone? }

  /** The entry that made the worker give up is followed by aborted entries only. */
  ghost predicate FailureDiscipline(s: State) {
    && AtMostOneFailure(s.log)
    && (!NoFailure(s.log) ==> s.ShuttingDown() || s.worker.Recorded? || s.fatalAt.Some?)
    && (s.worker.Recorded? ==> s.log != [] && (s.ShuttingDown() || s.log[|s.log| - 1].status == Failed))
    && (s.worker.RaisingFatal? || s.worker.Draining? ==> s.fatalAt.Some?)
    && (s.fatalAt.Some? ==> FatalPath(s.worker))
    && (s.fatalAt.Some? ==>
        s.fatalAt.value < |s.log| && s.log[s.fatalAt.value].status == Failed && AbortedAfter(s.log, s.fatalAt.value))
    && (s.ShuttingDown() && s.fatalAt.None? ==> s.external || s.pollerRaised)
    && (s.poller.PollerFatal? ==> s.pollerRaised)
  }

  ghost predicate Inv(s: State) {
    Accounted(s) && FreshIndices(s) && SentinelDiscipline(s) && FailureDiscipline(s)
  }

  lemma InitInv(s: State)
    requires Init(s)
    ensures Inv(s)
  {}

  // Marking one queued tick, on either thread.

  ghost predicate MayDrain(s: State) { s.poller.FinalDrain? || s.worker.Draining? }

  lemma DrainAccounted(s: State, s': State)
    requires Inv(s) && MayDrain(s) && DrainAborts(s, s')
    ensures Accounted(s')
  {}

  lemma DrainFresh(s: State, s': State)
    requires Inv(s) && MayDrain(s) && DrainAborts(s, s')
    ensures FreshIndices(s')
  {}

  lemma DrainSentinel(s: State, s': State)
    requires Inv(s) && MayDrain(s) && DrainAborts(s, s')
    ensures SentinelDiscipline(s')
  {}

  lemma DrainFailure(s: State, s': State)
    requires Inv(s) && MayDrain(s) && DrainAborts(s, s')
    ensures FailureDiscipline(s')
  {}

  lemma FinalKeepsDiscipline(s: State, s': State)
    requires Accounted(s) && SentinelDiscipline(s) && FailureDiscipline(s) && FinalAllocates(s, s')
    ensures Accounted(s') && SentinelDiscipline(s') && FailureDiscipline(s')
  {}

  lemma FinalAllocatesFresh(s: State, s': State)
    requires FreshIndices(s) && FinalAllocates(s, s')
    ensures FreshIndices(s')
  {}

  // Requesting a stop.

  lemma StopKeepsQueue(s: State, s': State)
    requires Accounted(s) && FreshIndices(s) && StopRequested(s, s')
    ensures Accounted(s') && FreshIndices(s')
  {}

  lemma StopKeepsSentinel(s: State, s': State)
    requires SentinelDiscipline(s) && StopRequested(s, s')
    ensures SentinelDiscipline(s')
  {}

  lemma StopKeepsFailure(s: State, s': State)
    requires FailureDiscipline(s) && StopRequested(s, s')
    ensures FailureDiscipline(s')
  {}

  // Queuing a tick.

  lemma PollerQueuesFresh(s: State, s': State)
    requires FreshIndices(s) && PollerQueues(s, s')
    ensures FreshIndices(s')
  {}

  lemma PollerQueuesKeepsRest(s: State, s': State)
    requires Accounted(s) && SentinelDiscipline(s) && FailureDiscipline(s) && PollerQueues(s, s')
    ensures Accounted(s') && SentinelDiscipline(s') && FailureDiscipline(s')
  {}

  lemma FinalQueuesFresh(s: State, s': State)
    requires FreshIndices(s) && FinalQueues(s, s')
    ensures FreshIndices(s')
  {}

  lemma FinalQueuesKeepsRest(s: State, s': State)
    requires Accounted(s) && SentinelDiscipline(s) && FailureDiscipline(s) && FinalQueues(s, s')
    ensures Accounted(s') && SentinelDiscipline(s') && FailureDiscipline(s')
  {}

  // Putting the sentinel.

  lemma SentinelKeepsQueue(s: State, s': State)
    requires Accounted(s) && SentinelDiscipline(s) && PollerPutsSentinel(s, s')
    ensures Accounted(s')
  {}

  lemma SentinelKeepsFresh(s: State, s': State)
    requires FreshIndices(s) && PollerPutsSentinel(s, s')
    ensures FreshIndices(s')
  {}

  // One lemma a step: each preserves the invariant.

  lemma PollerAllocatesInv(s: State, s': State)
    requires Inv(s) && PollerAllocates(s, s')
    ensures Inv(s')
  {}

  lemma PollerQueuesInv(s: State, s': State)
    requires Inv(s) && PollerQueues(s, s')
    ensures Inv(s')
  {
    PollerQueuesFresh(s, s');
    PollerQueuesKeepsRest(s, s');
  }

  lemma PollerRaisesInv(s: State, s': State)
    requires Inv(s) && PollerRaises(s, s')
    ensures Inv(s')
  {}

  lemma PollerSetsErrorInv(s: State, s': State)
    requires Inv(s) && PollerSetsError(s, s')
    ensures Inv(s')
  {}

  lemma PollerSetsStopInv(s: State, s': State)
    requires Inv(s) && PollerSetsStop(s, s')
    ensures Inv(s')
  {}

  lemma PollerSetsEventInv(s: State, s': State)
    requires Inv(s) && PollerSetsEvent(s, s')
    ensures Inv(s')
  {}

  lemma PollerSeesStopInv(s: State, s': State)
    requires Inv(s) && PollerSeesStop(s, s')
    ensures Inv(s')
  {}

  lemma PollerPutsSentinelInv(s: State, s': State)
    requires Inv(s) && PollerPutsSentinel(s, s')
    ensures Inv(s')
  {
    SentinelKeepsQueue(s, s');
    SentinelKeepsFresh(s, s');
  }

  lemma PollerJoinsInv(s: State, s': State)
    requires Inv(s) && PollerJoins(s, s')
    ensures Inv(s')
  {}

  lemma PollerAbortsInv(s: State, s': State)
    requires Inv(s) && PollerAborts(s, s')
    ensures Inv(s')
  {
    DrainAccounted(s, s');
    DrainFresh(s, s');
    DrainSentinel(s, s');
    DrainFailure(s, s');
  }

  lemma PollerReturnsInv(s: State, s': State)
    requires Inv(s) && PollerReturns(s, s')
    ensures Inv(s')
  {}

  lemma FinalAllocatesInv(s: State, s': State)
    requires Inv(s) && FinalAllocates(s, s')
    ensures Inv(s')
  {
    FinalAllocatesFresh(s, s');
    FinalKeepsDiscipline(s, s');
  }

  lemma FinalQueuesInv(s: State, s': State)
    requires Inv(s) && FinalQueues(s, s')
    ensures Inv(s')
  {
    FinalQueuesFresh(s, s');
    FinalQueuesKeepsRest(s, s');
  }

  lemma StopRequestedInv(s: State, s': State)
    requires Inv(s) && StopRequested(s, s')
    ensures Inv(s')
  {
    StopKeepsQueue(s, s');
    StopKeepsSentinel(s, s');
    StopKeepsFailure(s, s');
  }

  lemma ExternalStopInv(s: State, s': State)
    requires Inv(s) && ExternalStop(s, s')
    ensures Inv(s')
  {}

  lemma WorkerGetsInv(s: State, s': State)
    requires Inv(s) && WorkerGets(s, s')
    ensures Inv(s')
  {}

  lemma WorkerSucceedsInv(s: State, s': State)
    requires Inv(s) && WorkerSucceeds(s, s')
    ensures Inv(s')
  {
    assert s'.Position(|s.log|) == s.head - 1;
  }

  lemma WorkerFailsInv(s: State, s': State)
    requires Inv(s) && WorkerFails(s, s')
    ensures Inv(s')
  {
    assert s'.Position(|s.log|) == s.head - 1;
  }

  lemma WorkerResumesInv(s: State, s': State)
    requires Inv(s) && WorkerResumes(s, s')
    ensures Inv(s')
  {}

  lemma WorkerGivesUpInv(s: State, s': State)
    requires Inv(s) && WorkerGivesUp(s, s')
    ensures Inv(s')
  {}

  lemma WorkerSetsErrorInv(s: State, s': State)
    requires Inv(s) && WorkerSetsError(s, s')
    ensures Inv(s')
  {}

  lemma WorkerSetsStopInv(s: State, s': State)
    requires Inv(s) && WorkerSetsStop(s, s')
    ensures Inv(s')
  {}

  lemma WorkerSetsEventInv(s: State, s': State)
    requires Inv(s) && WorkerSetsEvent(s, s')
    ensures Inv(s')
  {}

  lemma WorkerAbortsInv(s: State, s': State)
    requires Inv(s) && WorkerAborts(s, s')
    ensures Inv(s')
  {
    DrainAccounted(s, s');
    DrainFresh(s, s');
    DrainSentinel(s, s');
    DrainFailure(s, s');
  }

  lemma WorkerBreaksInv(s: State, s': State)
    requires Inv(s) && WorkerBreaks(s, s')
    ensures Inv(s')
  {}

  lemma StepInv(s: State, s': State)
    requires Inv(s) && Next(s, s')
    ensures Inv(s')
  {
    if PollerAllocates(s, s') { PollerAllocatesInv(s, s'); }
    else if PollerQueues(s, s') { PollerQueuesInv(s, s'); }
    else if PollerRaises(s, s') { PollerRaisesInv(s, s'); }
    else if PollerSetsError(s, s') { PollerSetsErrorInv(s, s'); }
    else if PollerSetsStop(s, s') { PollerSetsStopInv(s, s'); }
    else if PollerSetsEvent(s, s') { PollerSetsEventInv(s, s'); }
    else if PollerSeesStop(s, s') { PollerSeesStopInv(s, s'); }
    else if PollerPutsSentinel(s, s') { PollerPutsSentinelInv(s, s'); }
    else if PollerJoins(s, s') { PollerJoinsInv(s, s'); }
    else if PollerAborts(s, s') { PollerAbortsInv(s, s'); }
    else if PollerReturns(s, s') { PollerReturnsInv(s, s'); }
    else if FinalAllocates(s, s') { FinalAllocatesInv(s, s'); }
    else if FinalQueues(s, s') { FinalQueuesInv(s, s'); }
    else if StopRequested(s, s') { StopRequestedInv(s, s'); }
    else if ExternalStop(s, s') { ExternalStopInv(s, s'); }
    else if WorkerGets(s, s') { WorkerGetsInv(s, s'); }
    else if WorkerSucceeds(s, s') { WorkerSucceedsInv(s, s'); }
    else if WorkerFails(s, s') { WorkerFailsInv(s, s'); }
    else if WorkerResumes(s, s') { WorkerResumesInv(s, s'); }
    else if WorkerGivesUp(s, s') { WorkerGivesUpInv(s, s'); }
    else if WorkerSetsError(s, s') { WorkerSetsErrorInv(s, s'); }
    else if WorkerSetsStop(s, s') { WorkerSetsStopInv(s, s'); }
    else if WorkerSetsEvent(s, s') { WorkerSetsEventInv(s, s'); }
    else if WorkerAborts(s, s') { WorkerAbortsInv(s, s'); }
    else { WorkerBreaksInv(s, s'); }
  }

  lemma {:induction false} RunInv(run: seq<State>)
    requires Run(run)
    ensures forall i :: 0 <= i < |run| ==> Inv(run[i])
  {
    InitInv(run[0]);
    for n := 1 to |run|
      invariant forall i :: 0 <= i < n ==> Inv(run[i])
    {
      StepInv(run[n - 1], run[n]);
    }
  }

  /** Behind the sentinel only the final drain assigns a status. */
  ghost predicate LateOnesAborted(s: State) {
    s.SentinelTaken() ==> forall j :: s.sentinelAt.value <= j < |s.log| ==> s.log[j].status == Aborted
  }

  ghost predicate SameHistory(s: State, s': State) {
    s'.log == s.log && s'.head == s.head && s'.sentinelAt == s.sentinelAt
  }

  lemma QuietPollingStep(s: State, s': State)
    requires PollerAllocates(s, s') || PollerQueues(s, s') || PollerRaises(s, s') || PollerSeesStop(s, s')
    ensures SameHistory(s, s')
  {}

  lemma QuietClosingStep(s: State, s': State)
    requires PollerSetsError(s, s') || PollerSetsStop(s, s') || PollerSetsEvent(s, s') || PollerJoins(s, s')
    ensures SameHistory(s, s')
  {}

  lemma QuietFinalStep(s: State, s': State)
    requires FinalAllocates(s, s') || FinalQueues(s, s')
    ensures SameHistory(s, s')
  {}

  lemma QuietStopStep(s: State, s': State)
    requires StopRequested(s, s') || ExternalStop(s, s')
    ensures SameHistory(s, s')
  {}

  lemma QuietOutsideStep(s: State, s': State)
    requires OutsideSteps(s, s')
    ensures SameHistory(s, s')
  {
    if FinalAllocates(s, s') || FinalQueues(s, s') { QuietFinalStep(s, s'); } else { QuietStopStep(s, s'); }
  }

  lemma QuietWorkerStep(s: State, s': State)
    requires WorkerResumes(s, s') || WorkerGivesUp(s, s') || WorkerSetsError(s, s') || WorkerSetsStop(s, s') ||
      WorkerSetsEvent(s, s')
    ensures SameHistory(s, s')
  {}

  lemma DrainAbortsLate(s: State, s': State)
    requires LateOnesAborted(s) && Accounted(s) && DrainAborts(s, s') && SentinelDiscipline(s)
    ensures LateOnesAborted(s')
  {}

  lemma DrainEndsLate(s: State, s': State)
    requires LateOnesAborted(s) && Accounted(s) && !s.worker.Processing?
    requires DrainEnds(s) && s'.head == HeadAfterDrain(s) && s'.log == s.log && s'.sentinelAt == s.sentinelAt
    ensures LateOnesAborted(s')
  {}

  lemma WorkerLate(s: State, s': State)
    requires LateOnesAborted(s) && Accounted(s) && (WorkerGets(s, s') || WorkerSucceeds(s, s') || WorkerFails(s, s'))
    ensures LateOnesAborted(s')
  {}

  lemma SentinelLate(s: State, s': State)
    requires LateOnesAborted(s) && Accounted(s) && PollerPutsSentinel(s, s')
    ensures LateOnesAborted(s')
  {}

  lemma QuietLate(s: State, s': State)
    requires LateOnesAborted(s) && SameHistory(s, s')
    ensures LateOnesAborted(s')
  {}

  lemma PollerStepLate(s: State, s': State)
    requires Accounted(s) && SentinelDiscipline(s) && LateOnesAborted(s) && PollerSteps(s, s')
    ensures LateOnesAborted(s')
  {
    if PollerAborts(s, s') {
      DrainAbortsLate(s, s');
    } else if PollerReturns(s, s') {
      DrainEndsLate(s, s');
    } else if PollerPutsSentinel(s, s') {
      SentinelLate(s, s');
    } else {
      if s.poller.Polling? { QuietPollingStep(s, s'); } else { QuietClosingStep(s, s'); }
      QuietLate(s, s');
    }
  }

  lemma WorkerStepLate(s: State, s': State)
    requires Inv(s) && LateOnesAborted(s) && WorkerSteps(s, s')
    ensures LateOnesAborted(s')
  {
    if WorkerAborts(s, s') { DrainAbortsLate(s, s'); }
    else if WorkerBreaks(s, s') { DrainEndsLate(s, s'); }
    else if WorkerGets(s, s') { WorkerLate(s, s'); }
    else if WorkerSucceeds(s, s') { WorkerLate(s, s'); }
    else if WorkerFails(s, s') { WorkerLate(s, s'); }
    else if WorkerResumes(s, s') { QuietWorkerStep(s, s'); }
    else if WorkerGivesUp(s, s') { QuietWorkerStep(s, s'); }
    else { QuietWorkerStep(s, s'); }
  }

  lemma StepLate(s: State, s': State)
    requires Inv(s) && LateOnesAborted(s) && Next(s, s')
    ensures LateOnesAborted(s')
  {
    if PollerSteps(s, s') { PollerStepLate(s, s'); }
    else if WorkerSteps(s, s') { WorkerStepLate(s, s'); }
    else { QuietOutsideStep(s, s'); }
  }

  lemma {:induction false} RunLate(run: seq<State>)
    requires Run(run)
    ensures LateOnesAborted(run[|run| - 1])
  {
    RunInv(run);
    for n := 1 to |run|
      invariant LateOnesAborted(run[n - 1])
    {
      StepLate(run[n - 1], run[n]);
    }
  }

  // ----- What holds when `run_loop` returns ---------------------------------------------------

  /** The log settles exactly the ticks put ahead of position `k`, first and in order. */
  ghost predicate SettledUpTo(s: State, k: nat) {
    && k <= |s.put| && k <= |s.log|
    && (forall j :: 0 <= j < k ==> s.put[j] == Tick(s.log[j].idx))
    && (forall i, j :: 0 <= i < j < |s.log| ==> s.log[i].idx != s.log[j].idx)
  }

  /**
    Every tick queued ahead of the sentinel has exactly one terminal status, assigned in queue
    order; whatever else got a status was queued behind the sentinel and is aborted. At most one
    tick failed.
   */
  lemma EveryQueuedTickSettled(run: seq<State>)
    requires Run(run) && run[|run| - 1].poller.Returned?
    ensures var s := run[|run| - 1];
      && s.sentinelAt.Some?
      && SettledUpTo(s, s.sentinelAt.value)
      && (forall j :: s.sentinelAt.value <= j < |s.log| ==> s.log[j].status == Aborted)
      && AtMostOneFailure(s.log)
  {
    RunInv(run);
    RunLate(run);
    var s := run[|run| - 1];
    forall i, j | 0 <= i < j < |s.log| ensures s.log[i].idx != s.log[j].idx {
      assert s.put[s.Position(i)] != s.put[s.Position(j)];
    }
  }

  /**
    A failed tick either made the worker give up, and then every tick settled after it is
    aborted; or the stop event was set between the worker's two looks at it, which takes an
    external stop or an error of the polling thread.
   */
  lemma FailureAbortsTheRest(run: seq<State>, p: nat)
    requires Run(run) && run[|run| - 1].poller.Returned?
    requires p < |run[|run| - 1].log| && run[|run| - 1].log[p].status == Failed
    ensures var s := run[|run| - 1];
      if s.fatalAt.Some? then s.fatalAt.value == p && AbortedAfter(s.log, p)
      else s.ShuttingDown() && (s.external || s.pollerRaised)
  {
    RunInv(run);
  }

  /** Without a stop from outside and without an error of the poller, a failure aborts what is behind it. */
  lemma FailureAloneAbortsTheRest(run: seq<State>, p: nat)
    requires Run(run) && run[|run| - 1].poller.Returned?
    requires p < |run[|run| - 1].log| && run[|run| - 1].log[p].status == Failed
    requires !run[|run| - 1].external && !run[|run| - 1].pollerRaised
    ensures AbortedAfter(run[|run| - 1].log, p)
  {
    FailureAbortsTheRest(run, p);
  }

  /** Consecutive pairs of states, to build concrete runs from named steps. */
  ghost predicate Chain(run: seq<State>) {
    run != [] && forall i :: 0 < i < |run| ==> Next(run[i - 1], run[i])
  }

  lemma Link(run: seq<State>, s: State)
    requires Chain(run) && Next(run[|run| - 1], s)
    ensures Chain(run + [s])
  {}

  /**
    The promise that ticks behind a failure are aborted does not survive an error of the polling
    thread alone: here tick 1 fails, the poller's own error sets the stop event before the
    worker looks again, and tick 2 is still measured and completed.
   */
  lemma PollerErrorLetsWorkerContinue() returns (run: seq<State>)
    ensures Run(run) && run[0].hasEvent
    ensures var s := run[|run| - 1];
      && s.poller.Returned? && !s.external
      && s.log == [Entry(1, Failed), Entry(2, Completed)]
  {
    var s := State(true, [], 0, None, false, false, false, 1, None, None, Waiting, Polling, [], false, false, None);
    var failed := FirstTickFails(s);
    var raced := PollerErrorInBetween(failed[|failed| - 1]);
    var closed := SecondTickCompletes(raced[|raced| - 1]);
    Joined(failed, raced);
    Joined(failed + raced[1..], closed);
    run := failed + raced[1..] + closed[1..];
  }

  /** Two chains that share a state make one. */
  lemma Joined(a: seq<State>, b: seq<State>)
    requires Chain(a) && Chain(b) && a[|a| - 1] == b[0]
    ensures Chain(a + b[1..])
    ensures (a + b[1..])[0] == a[0] && (a + b[1..])[|a + b[1..]| - 1] == b[|b| - 1]
  {
    var run := a + b[1..];
    forall i | 0 < i < |run| ensures Next(run[i - 1], run[i]) {
      if i >= |a| {
        assert run[i] == b[i - |a| + 1] && run[i - 1] == b[i - |a| + 1 - 1];
      }
    }
  }

  lemma TwoTicksQueued(s: State) returns (run: seq<State>)
    requires s == State(true, [], 0, None, false, false, false, 1, None, None, Waiting, Polling, [], false, false, None)
    ensures Chain(run) && run[0] == s
    ensures run[|run| - 1] == s.(put := [Tick(1), Tick(2)], nextIdx := 3)
  {
    var s1 := s.(pollerIdx := Some(1), nextIdx := 2);
    var s2 := s1.(put := [Tick(1)], pollerIdx := None);
    var s3 := s2.(pollerIdx := Some(2), nextIdx := 3);
    var s4 := s3.(put := [Tick(1), Tick(2)], pollerIdx := None);
    assert PollerAllocates(s, s1) && PollerQueues(s1, s2) && PollerAllocates(s2, s3) && PollerQueues(s3, s4);
    Link([s], s1); Link([s, s1], s2); Link([s, s1, s2], s3); Link([s, s1, s2, s3], s4);
    run := [s, s1, s2, s3, s4];
  }

  lemma FirstTickFails(s: State) returns (run: seq<State>)
    requires s == State(true, [], 0, None, false, false, false, 1, None, None, Waiting, Polling, [], false, false, None)
    ensures Chain(run) && run[0] == s
    ensures run[|run| - 1] == s.(put := [Tick(1), Tick(2)], head := 1, nextIdx := 3, worker := Recorded(1),
                                 log := [Entry(1, Failed)])
  {
    var queued := TwoTicksQueued(s);
    var s4 := queued[|queued| - 1];
    var s5 := s4.(head := 1, worker := Processing(1));
    var s6 := s5.(log := [Entry(1, Failed)], worker := Recorded(1));
    assert WorkerGets(s4, s5) && WorkerFails(s5, s6);
    Link([s4], s5); Link([s4, s5], s6);
    Joined(queued, [s4, s5, s6]);
    run := queued + [s4, s5, s6][1..];
  }

  lemma PollerErrorInBetween(s: State) returns (run: seq<State>)
    requires s.hasEvent && s.poller.Polling? && s.pollerIdx.None? && s.worker.Recorded?
    ensures Chain(run) && run[0] == s
    ensures run[|run| - 1] == s.(fatal := true, stop := true, event := true, pollerRaised := true, poller := Leaving,
                                 worker := Waiting)
  {
    var s1 := s.(poller := PollerFatal(SetError), pollerRaised := true);
    var s2 := s1.(fatal := true, poller := PollerFatal(SetStop));
    var s3 := s2.(stop := true, poller := PollerFatal(SetEvent));
    var s4 := s3.(event := true, poller := Leaving);
    var s5 := s4.(worker := Waiting);
    assert PollerRaises(s, s1) && PollerSetsError(s1, s2) && PollerSetsStop(s2, s3);
    assert PollerSetsEvent(s3, s4) && WorkerResumes(s4, s5);
    Link([s], s1); Link([s, s1], s2); Link([s, s1, s2], s3);
    Link([s, s1, s2, s3], s4); Link([s, s1, s2, s3, s4], s5);
    run := [s, s1, s2, s3, s4, s5];
  }

  lemma SecondTickCompletes(s: State) returns (run: seq<State>)
    requires s.put == [Tick(1), Tick(2)] && s.head == 1 && s.fatal && s.poller.Leaving? && s.worker.Waiting?
    ensures Chain(run) && run[0] == s
    ensures var t := run[|run| - 1];
      t.poller.Returned? && t.external == s.external && t.log == s.log + [Entry(2, Completed)]
  {
    var s1 := s.(head := 2, worker := Processing(2));
    var s2 := s1.(log := s.log + [Entry(2, Completed)], worker := Waiting);
    assert WorkerGets(s, s1) && WorkerSucceeds(s1, s2);
    Link([s], s1); Link([s, s1], s2);
    var closing := ClosesAfterError(s2);
    Joined([s, s1, s2], closing);
    run := [s, s1, s2] + closing[1..];
  }

  lemma ClosesAfterError(s: State) returns (run: seq<State>)
    requires s.put == [Tick(1), Tick(2)] && s.head == 2 && s.fatal && s.poller.Leaving? && s.worker.Waiting?
    ensures Chain(run) && run[0] == s
    ensures var t := run[|run| - 1];
      t.poller.Returned? && t.external == s.external && t.log == s.log
  {
    var s1 := s.(put := s.put + [Sentinel], sentinelAt := Some(2), poller := Joining);
    var s2 := s1.(head := 3, worker := WorkerDone);
    var s3 := s2.(poller := FinalDrain);
    var s4 := s3.(poller := Returned);
    assert PollerPutsSentinel(s, s1) && WorkerGets(s1, s2) && PollerJoins(s2, s3) && PollerReturns(s3, s4);
    Link([s], s1); Link([s, s1], s2); Link([s, s1, s2], s3); Link([s, s1, s2, s3], s4);
    run := [s, s1, s2, s3, s4];
  }
}
