/**
  The split of the parallel jobs between trial workers and snapshot jobs, and the job budget of
  each tick while trials come and go. Every trial registers at most once.
 */
module WorkerBudget {
  import opened Common

  datatype Plan = Plan(trialWorkers: nat, snapshotJobs: nat)

  datatype PlanError = SnapshotsExhaustParallelism

  /** `_live_resource_plan`; a requested job count of zero counts as none. */
  function LiveResourcePlan(total: nat, requested: Option<nat>): (r: Result<Plan, PlanError>)
    requires total >= 1
    ensures r.Err? <==> total > 1 && requested.Some? && requested.value >= total
    ensures r.Ok? ==> r.value.trialWorkers + r.value.snapshotJobs == total && r.value.trialWorkers >= 1
    ensures r.Ok? ==> (r.value.snapshotJobs == 0 <==> total == 1)
    ensures r.Ok? && total > 1 && requested.Some? && requested.value > 0 ==> r.value.snapshotJobs == requested.value
    ensures r.Ok? && total > 2 && (requested.None? || requested.value == 0) ==>
      2 * r.value.snapshotJobs <= r.value.trialWorkers < 2 * r.value.snapshotJobs + 3
  {
    if total == 1 then Ok(Plan(1, 0))
    else if requested.Some? && requested.value > 0 then
      if requested.value >= total then Err(SnapshotsExhaustParallelism)
      else Ok(Plan(total - requested.value, requested.value))
    else if total == 2 then Ok(Plan(1, 1))
    else Ok(Plan(total - total / 3, total / 3))
  }

  // ----- The run as a state machine -----------------------------------------------------------

  type Trial = nat

  datatype Config = Config(trials: set<Trial>, parallelJobs: nat, plan: Plan)

  ghost predicate Planned(c: Config) {
    c.parallelJobs > 1 && exists requested :: LiveResourcePlan(c.parallelJobs, requested) == Ok(c.plan)
  }

  /**
    `working` are the trials on an executor thread, `registered` those ever registered,
    `active` those registered now, `containers` those whose container runs, and `tickJobs` is
    the budget of the tick in flight.
   */
  datatype State = State(
    waiting: set<Trial>,
    working: set<Trial>,
    registered: set<Trial>,
    active: set<Trial>,
    containers: set<Trial>,
    tickJobs: Option<nat>
  )

  ghost predicate Init(c: Config, s: State) {
    s == State(c.trials, {}, {}, {}, {}, None)
  }

  function Max(a: int, b: int): int {
    if a < b then b else a
  }

  /** `_tick_jobs`: in the last wave the slots of finished trials go to the tick. */
  function TickJobs(c: Config, s: State): nat {
    if |c.trials| > 0 && |s.registered| == |c.trials|
    then Max(c.plan.snapshotJobs, c.parallelJobs - |s.active|)
    else c.plan.snapshotJobs
  }

  datatype Action =
    | Begin(t: Trial) | Register(t: Trial) | StartContainer(t: Trial) | EndContainer(t: Trial)
    | Unregister(t: Trial) | Finish(t: Trial) | Cancel(t: Trial) | BeginTick | EndTick

  ghost predicate Step(c: Config, s: State, s': State, a: Action) {
    match a
    case Begin(t) =>
      t in s.waiting && |s.working| < c.plan.trialWorkers &&
        s' == s.(waiting := s.waiting - {t}, working := s.working + {t})
    case Register(t) =>
      t in s.working && t !in s.registered && s' == s.(registered := s.registered + {t}, active := s.active + {t})
    case StartContainer(t) => t in s.active && s' == s.(containers := s.containers + {t})
    case EndContainer(t) => t in s.containers && s' == s.(containers := s.containers - {t})
    case Unregister(t) => t in s.active && t !in s.containers && s' == s.(active := s.active - {t})
    case Finish(t) => t in s.working && t !in s.active && s' == s.(working := s.working - {t})
    case Cancel(t) => t in s.waiting && s' == s.(waiting := s.waiting - {t})
    case BeginTick => s.tickJobs.None? && s' == s.(tickJobs := Some(TickJobs(c, s)))
    case EndTick => s.tickJobs.Some? && s' == s.(tickJobs := None)
  }

  /** A tick beyond its planned share runs only once no further trial can register. */
  ghost predicate TickOk(c: Config, s: State) {
    s.tickJobs.Some? && s.tickJobs.value > c.plan.snapshotJobs ==>
      s.registered == c.trials && |s.active| + s.tickJobs.value <= c.parallelJobs
  }

  ghost predicate Inv(c: Config, s: State) {
    && |s.working| <= c.plan.trialWorkers && s.waiting + s.working <= c.trials
    && s.containers <= s.active <= s.working && s.active <= s.registered <= c.trials
    && TickOk(c, s)
  }

  lemma StepKeepsSets(c: Config, s: State, s': State, a: Action)
    requires Inv(c, s) && Step(c, s, s', a)
    ensures |s'.working| <= c.plan.trialWorkers && s'.waiting + s'.working <= c.trials
    ensures s'.containers <= s'.active <= s'.working && s'.active <= s'.registered <= c.trials
  {
  }

  lemma StepKeepsTick(c: Config, s: State, s': State, a: Action)
    requires Planned(c) && Inv(c, s) && Step(c, s, s', a)
    ensures TickOk(c, s')
  {
    SubsetCardinality(s.active, s.working);
    if a.BeginTick? {
      SubsetCardinality(s.registered, c.trials);
    }
    if a.Unregister? {
      SubsetCardinality(s'.active, s.active);
    }
  }

  ghost predicate IsRun(c: Config, states: seq<State>, actions: seq<Action>) {
    && |states| == |actions| + 1 && Init(c, states[0])
    && forall i :: 0 <= i < |actions| ==> Step(c, states[i], states[i + 1], actions[i])
  }

  lemma {:induction false} RunInv(c: Config, states: seq<State>, actions: seq<Action>, k: nat)
    requires Planned(c) && IsRun(c, states, actions) && k < |states|
    ensures Inv(c, states[k])
    decreases k
  {
    if k > 0 {
      RunInv(c, states, actions, k - 1);
      assert Step(c, states[k - 1], states[k - 1 + 1], actions[k - 1]);
      StepKeepsSets(c, states[k - 1], states[k], actions[k - 1]);
      StepKeepsTick(c, states[k - 1], states[k], actions[k - 1]);
    }
  }

  /**
    The main result: in every reachable state the registered trials, and so the running
    containers, together with the jobs of the tick in flight stay within the parallel jobs.
   */
  lemma BudgetNeverExceeded(c: Config, states: seq<State>, actions: seq<Action>, k: nat)
    requires Planned(c) && IsRun(c, states, actions) && k < |states|
    ensures var jobs := if states[k].tickJobs.Some? then states[k].tickJobs.value else 0;
      |states[k].containers| <= |states[k].active| && |states[k].active| + jobs <= c.parallelJobs
  {
    RunInv(c, states, actions, k);
    SubsetCardinality(states[k].active, states[k].working);
    SubsetCardinality(states[k].containers, states[k].active);
  }

  /**
    A tick that begins in the last wave takes every free slot, and never less than its share; any
    other tick gets its share alone.
   */
  lemma LastWaveUsesAll(c: Config, states: seq<State>, actions: seq<Action>, k: nat)
    requires Planned(c) && IsRun(c, states, actions) && k < |actions| && actions[k] == BeginTick
    ensures states[k + 1].tickJobs.Some? && states[k + 1].tickJobs.value >= c.plan.snapshotJobs >= 1
    ensures c.trials != {} && states[k].registered == c.trials ==>
      |states[k].active| + states[k + 1].tickJobs.value == c.parallelJobs
    ensures c.trials == {} || states[k].registered != c.trials ==>
      states[k + 1].tickJobs == Some(c.plan.snapshotJobs)
  {
    RunInv(c, states, actions, k);
    assert Step(c, states[k], states[k + 1], actions[k]);
    SubsetCardinality(states[k].active, states[k].working);
    SubsetCardinality(states[k].registered, c.trials);
  }
}
