/**
  The periodic side of the snapshot scheduler: trials register and leave, and the polling
  thread collects what is due. Each method is one critical section of the scheduler's lock.
 */
module PeriodicTicks {
  import opened Common

  datatype Trial = Trial(key: string, startTs: int)

  /** The timestamps a trial gets when polled at `now`, starting from its next scheduled one. */
  function DueFrom(scheduled: int, now: int, end: int, every: int): seq<int>
    requires every > 0
    decreases end - scheduled
  {
    if scheduled <= now && scheduled < end then [scheduled] + DueFrom(scheduled + every, now, end, every) else []
  }

  /** What remains scheduled after that. */
  function ScheduledAfter(scheduled: int, now: int, end: int, every: int): int
    requires every > 0
    decreases end - scheduled
  {
    if scheduled <= now && scheduled < end then ScheduledAfter(scheduled + every, now, end, every) else scheduled
  }

  lemma {:induction false} DueShape(scheduled: int, now: int, end: int, every: int)
    requires every > 0
    ensures var due := DueFrom(scheduled, now, end, every);
      && (forall i :: 0 <= i < |due| ==> scheduled <= due[i] <= now && due[i] < end)
      && (due != [] ==> due[0] == scheduled)
      && (forall i :: 0 < i < |due| ==> due[i] == due[i - 1] + every)
      && ScheduledAfter(scheduled, now, end, every) == (if due == [] then scheduled else due[|due| - 1] + every)
    ensures var next := ScheduledAfter(scheduled, now, end, every); next > now || next >= end
    decreases end - scheduled
  {
    if scheduled <= now && scheduled < end {
      DueShape(scheduled + every, now, end, every);
    }
  }

  /** `start + every, start + 2*every, ...` without gap or repeat, all before the campaign end. */
  ghost predicate OnGrid(emitted: seq<int>, start: int, every: int, end: int) {
    && (emitted != [] ==> emitted[0] == start + every)
    && (forall i :: 0 < i < |emitted| ==> emitted[i] == emitted[i - 1] + every)
    && (forall i :: 0 <= i < |emitted| ==> emitted[i] < end)
  }

  /** The grid point after the emitted ones. */
  ghost function Upcoming(emitted: seq<int>, start: int, every: int): int {
    if emitted == [] then start + every else emitted[|emitted| - 1] + every
  }

  lemma {:induction false} GridPoints(emitted: seq<int>, start: int, every: int, end: int, i: nat)
    requires OnGrid(emitted, start, every, end) && i < |emitted|
    ensures emitted[i] == start + (i + 1) * every
  {
    if i > 0 { GridPoints(emitted, start, every, end, i - 1); }
  }

  lemma GridExtends(emitted: seq<int>, due: seq<int>, start: int, every: int, end: int, now: int)
    requires every > 0 && OnGrid(emitted, start, every, end)
    requires due == DueFrom(Upcoming(emitted, start, every), now, end, every)
    ensures OnGrid(emitted + due, start, every, end)
    ensures Upcoming(emitted + due, start, every) == ScheduledAfter(Upcoming(emitted, start, every), now, end, every)
  {
    DueShape(Upcoming(emitted, start, every), now, end, every);
    var all := emitted + due;
    forall i | 0 < i < |all| ensures all[i] == all[i - 1] + every {
      if i < |emitted| {
        assert all[i] == emitted[i] && all[i - 1] == emitted[i - 1];
      } else if i == |emitted| {
        assert all[i] == due[0] && all[i - 1] == emitted[i - 1];
      } else {
        assert all[i] == due[i - |emitted|] && all[i - 1] == due[i - |emitted| - 1];
      }
    }
  }

  function TrialsAt(due: map<int, seq<string>>, ts: int): seq<string> {
    if ts in due then due[ts] else []
  }

  // ----- The plan a poll works on ---------------------------------------------------------------

  /** The settings and tables a poll reads. */
  datatype Plan = Plan(scheduled: map<string, int>, active: map<string, Trial>, campaign: int, every: int) {
    predicate Known(key: string) { key in scheduled && key in active }

    function End(key: string): int
      requires Known(key)
    {
      active[key].startTs + campaign
    }

    function Due(key: string, now: int): seq<int>
      requires every > 0
    {
      if Known(key) then DueFrom(scheduled[key], now, End(key), every) else []
    }

    /** Whether the trial stays scheduled after a poll. */
    predicate Remains(key: string, now: int)
      requires every > 0
    {
      Known(key) && ScheduledAfter(scheduled[key], now, End(key), every) < End(key)
    }

    /** The due lists hold exactly what the visited trials are owed, each trial once per timestamp. */
    ghost predicate Lists(due: map<int, seq<string>>, visited: set<string>, now: int)
      requires every > 0
    {
      && (forall ts, key :: key in TrialsAt(due, ts) <==> key in visited && ts in Due(key, now))
      && (forall ts :: Distinct(TrialsAt(due, ts)))
      && (forall ts :: ts in due ==> due[ts] != [])
    }

    /** The schedule once the trials of `rest` are the only ones not yet visited. */
    ghost predicate Advanced(next: map<string, int>, rest: set<string>, now: int)
      requires every > 0
    {
      && (forall key :: key in next <==> key in scheduled && (key in rest || Remains(key, now)))
      && (forall key :: key in next ==>
          next[key] == if key in rest then scheduled[key] else ScheduledAfter(scheduled[key], now, End(key), every))
    }
  }

  // ----- What the tables keep ------------------------------------------------------------------

  /** What was emitted to one trial since it registered, and what is scheduled next if it is active. */
  ghost predicate OnSchedule(p: Plan, t: Trial, emitted: seq<int>, key: string) {
    var upcoming, end := Upcoming(emitted, t.startTs, p.every), t.startTs + p.campaign;
    && OnGrid(emitted, t.startTs, p.every, end)
    && (key in p.scheduled ==> p.scheduled[key] == upcoming && upcoming < end)
    && (key in p.active && key !in p.scheduled ==> upcoming >= end)
  }

  lemma KnownPolled(p: Plan, next: map<string, int>, t: Trial, emitted: seq<int>, key: string, now: int)
    requires p.every > 0 && p.Known(key) && p.active[key] == t
    requires OnSchedule(p, t, emitted, key) && p.Advanced(next, {}, now)
    ensures OnSchedule(p.(scheduled := next), t, emitted + p.Due(key, now), key)
  {
    GridExtends(emitted, p.Due(key, now), t.startTs, p.every, t.startTs + p.campaign, now);
    assert key in next <==> p.Remains(key, now);
  }

  lemma UnknownPolled(p: Plan, next: map<string, int>, t: Trial, emitted: seq<int>, key: string, now: int)
    requires p.every > 0 && !p.Known(key) && p.scheduled.Keys <= p.active.Keys
    requires OnSchedule(p, t, emitted, key) && p.Advanced(next, {}, now)
    ensures OnSchedule(p.(scheduled := next), t, emitted + p.Due(key, now), key)
  {
    assert emitted + p.Due(key, now) == emitted;
    assert key !in next;
  }

  lemma PolledOnSchedule(p: Plan, next: map<string, int>, t: Trial, emitted: seq<int>, key: string, now: int)
    requires p.every > 0 && p.scheduled.Keys <= p.active.Keys && (key in p.active ==> p.active[key] == t)
    requires OnSchedule(p, t, emitted, key)
    requires p.Advanced(next, {}, now)
    ensures OnSchedule(p.(scheduled := next), t, emitted + p.Due(key, now), key)
  {
    if p.Known(key) {
      KnownPolled(p, next, t, emitted, key, now);
    } else {
      UnknownPolled(p, next, t, emitted, key, now);
    }
  }

  /** The tables agree with each other and every registered trial is on schedule. */
  ghost predicate Consistent(p: Plan, trials: map<string, Trial>, emitted: map<string, seq<int>>) {
    && p.every > 0
    && emitted.Keys == trials.Keys
    && p.scheduled.Keys <= p.active.Keys <= trials.Keys
    && (forall key :: key in p.active ==> p.active[key] == trials[key])
    && (forall key :: key in trials ==> OnSchedule(p, trials[key], emitted[key], key))
  }

  ghost function EmittedAfter(p: Plan, emitted: map<string, seq<int>>, now: int): map<string, seq<int>>
    requires p.every > 0
  {
    map key | key in emitted :: emitted[key] + p.Due(key, now)
  }

  lemma PolledConsistent(p: Plan, next: map<string, int>, trials: map<string, Trial>, emitted: map<string, seq<int>>,
                         now: int)
    requires Consistent(p, trials, emitted) && p.Advanced(next, {}, now)
    ensures Consistent(p.(scheduled := next), trials, EmittedAfter(p, emitted, now))
  {
    forall key | key in trials
      ensures OnSchedule(p.(scheduled := next), trials[key], EmittedAfter(p, emitted, now)[key], key)
    {
      PolledOnSchedule(p, next, trials[key], emitted[key], key, now);
    }
  }

  /** The plan after a trial registers: its first tick is scheduled unless it falls at or after the end. */
  function RegisteredPlan(p: Plan, t: Trial): Plan {
    p.(active := p.active[t.key := t],
       scheduled := if p.every < p.campaign then p.scheduled[t.key := t.startTs + p.every] else p.scheduled - {t.key})
  }

  lemma RegisteredConsistent(p: Plan, trials: map<string, Trial>, emitted: map<string, seq<int>>, t: Trial)
    requires Consistent(p, trials, emitted)
    ensures Consistent(RegisteredPlan(p, t), trials[t.key := t], emitted[t.key := []])
  {
    var p' := RegisteredPlan(p, t);
    var trials', emitted' := trials[t.key := t], emitted[t.key := []];
    forall key | key in trials' ensures OnSchedule(p', trials'[key], emitted'[key], key) {
      assert key != t.key ==> OnSchedule(p, trials[key], emitted[key], key);
    }
  }

  lemma UnregisteredConsistent(p: Plan, trials: map<string, Trial>, emitted: map<string, seq<int>>, key: string)
    requires Consistent(p, trials, emitted)
    ensures Consistent(p.(active := p.active - {key}, scheduled := p.scheduled - {key}), trials, emitted)
  {
    var p' := p.(active := p.active - {key}, scheduled := p.scheduled - {key});
    forall k | k in trials ensures OnSchedule(p', trials[k], emitted[k], k) {
      assert OnSchedule(p, trials[k], emitted[k], k);
    }
  }

  /** Whatever stays scheduled after a poll is due later than the poll. */
  lemma AdvancedIsLater(p: Plan, next: map<string, int>, now: int)
    requires p.every > 0 && p.Advanced(next, {}, now)
    ensures forall key :: key in next ==> next[key] > now
  {
    forall key | key in next ensures next[key] > now {
      DueShape(p.scheduled[key], now, p.End(key), p.every);
    }
  }

  ghost predicate Earliest(next: map<string, int>, due: Option<int>) {
    && (due.None? <==> next == map[])
    && (due.Some? ==> due.value in next.Values && forall key :: key in next ==> due.value <= next[key])
  }

  /** Appends the trial to the list of each of the timestamps. */
  function AddDue(due: map<int, seq<string>>, tss: seq<int>, key: string): map<int, seq<string>>
    decreases |tss|
  {
    if tss == [] then due else AddDue(due[tss[0] := TrialsAt(due, tss[0]) + [key]], tss[1..], key)
  }

  lemma {:induction false} AddDueMeaning(due: map<int, seq<string>>, tss: seq<int>, key: string, ts: int)
    requires StrictlyAscending(tss)
    ensures TrialsAt(AddDue(due, tss, key), ts) == TrialsAt(due, ts) + if ts in tss then [key] else []
    ensures ts in AddDue(due, tss, key) <==> ts in due || ts in tss
    decreases |tss|
  {
    if tss != [] {
      assert tss == [tss[0]] + tss[1..];
      AddDueMeaning(due[tss[0] := TrialsAt(due, tss[0]) + [key]], tss[1..], key, ts);
    }
  }

  /** The inner `while`: one trial's due timestamps are added under their keys. */
  method Collect(due0: map<int, seq<string>>, key: string, scheduled: int, now: int, end: int, every: int)
    returns (due: map<int, seq<string>>, next: int)
    requires every > 0
    ensures next == ScheduledAfter(scheduled, now, end, every)
    ensures due == AddDue(due0, DueFrom(scheduled, now, end, every), key)
  {
    due, next := due0, scheduled;
    while next <= now && next < end
      invariant AddDue(due, DueFrom(next, now, end, every), key)
             == AddDue(due0, DueFrom(scheduled, now, end, every), key)
      invariant ScheduledAfter(scheduled, now, end, every) == ScheduledAfter(next, now, end, every)
      decreases end - next
    {
      assert DueFrom(next, now, end, every)[1..] == DueFrom(next + every, now, end, every);
      due := due[next := TrialsAt(due, next) + [key]];
      next := next + every;
    }
  }

  // ----- One poll ---------------------------------------------------------------------------------

  lemma ListsGrow(p: Plan, due: map<int, seq<string>>, due': map<int, seq<string>>, visited: set<string>, key: string,
                  now: int)
    requires p.every > 0 && p.Lists(due, visited, now) && key !in visited
    requires due' == AddDue(due, p.Due(key, now), key)
    ensures p.Lists(due', visited + {key}, now)
  {
    DueAscends(p, key, now);
    forall ts
      ensures forall k :: k in TrialsAt(due', ts) <==> k in visited + {key} && ts in p.Due(k, now)
      ensures Distinct(TrialsAt(due', ts))
      ensures ts in due' ==> due'[ts] != []
    {
      AddDueMeaning(due, p.Due(key, now), key, ts);
      assert key !in TrialsAt(due, ts);
    }
  }

  lemma DueAscends(p: Plan, key: string, now: int)
    requires p.every > 0
    ensures StrictlyAscending(p.Due(key, now))
  {
    if p.Known(key) {
      DueShape(p.scheduled[key], now, p.End(key), p.every);
      EvenSteps(p.Due(key, now), p.every);
    }
  }

  lemma {:induction false} EvenSteps(s: seq<int>, every: int)
    requires every > 0 && forall i :: 0 < i < |s| ==> s[i] == s[i - 1] + every
    ensures StrictlyAscending(s)
  {
    if |s| > 1 {
      var front := s[..|s| - 1];
      EvenSteps(front, every);
      forall i | 0 <= i < |front| ensures s[i] < s[|s| - 1] {
        assert front[i] <= front[|front| - 1];
      }
      assert forall i, j :: 0 <= i < j < |front| ==> s[i] == front[i] && s[j] == front[j];
    }
  }

  /** One trial of the outer loop. */
  method Visit(p: Plan, due0: map<int, seq<string>>, next0: map<string, int>, ghost rest: set<string>, key: string,
               now: int)
    returns (due: map<int, seq<string>>, next: map<string, int>)
    requires p.every > 0 && key in p.scheduled && key in rest && rest <= p.scheduled.Keys
    requires p.Lists(due0, p.scheduled.Keys - rest, now) && p.Advanced(next0, rest, now)
    ensures p.Lists(due, p.scheduled.Keys - (rest - {key}), now) && p.Advanced(next, rest - {key}, now)
  {
    assert p.scheduled.Keys - (rest - {key}) == p.scheduled.Keys - rest + {key};
    if key !in p.active {
      due, next := due0, next0 - {key};
    } else {
      var after;
      due, after := Collect(due0, key, p.scheduled[key], now, p.End(key), p.every);
      next := if after < p.End(key) then next0[key := after] else next0 - {key};
    }
    ListsGrow(p, due0, due, p.scheduled.Keys - rest, key, now);
  }

  /** The outer loop of `_due_periodic_snapshots` over the scheduled trials. */
  method VisitAll(p: Plan, now: int) returns (due: map<int, seq<string>>, next: map<string, int>)
    requires p.every > 0
    ensures p.Lists(due, p.scheduled.Keys, now) && p.Advanced(next, {}, now)
  {
    due, next := map[], p.scheduled;
    var rest := p.scheduled.Keys;
    while rest != {}
      invariant rest <= p.scheduled.Keys
      invariant p.Lists(due, p.scheduled.Keys - rest, now) && p.Advanced(next, rest, now)
      decreases rest
    {
      var key :| key in rest;
      due, next := Visit(p, due, next, rest, key, now);
      rest := rest - {key};
    }
    assert p.scheduled.Keys - rest == p.scheduled.Keys;
  }

  /** The snapshots of one poll: ascending timestamps, each with the trials it is due for. */
  ghost predicate Announces(p: Plan, snapshots: seq<(int, seq<string>)>, now: int)
    requires p.every > 0
  {
    && (forall i, j :: 0 <= i < j < |snapshots| ==> snapshots[i].0 < snapshots[j].0)
    && (forall i :: 0 <= i < |snapshots| ==> snapshots[i].1 != [] && Distinct(snapshots[i].1))
    && (forall i, key :: 0 <= i < |snapshots| ==>
        (key in snapshots[i].1 <==> key in p.scheduled && snapshots[i].0 in p.Due(key, now)))
    && (forall key, ts :: key in p.scheduled && ts in p.Due(key, now) ==>
        exists i :: 0 <= i < |snapshots| && snapshots[i].0 == ts)
  }

  method InOrder(p: Plan, due: map<int, seq<string>>, now: int) returns (snapshots: seq<(int, seq<string>)>)
    requires p.every > 0 && p.Lists(due, p.scheduled.Keys, now)
    ensures Announces(p, snapshots, now)
  {
    var order := Sorted(due.Keys);
    snapshots := [];
    for i := 0 to |order|
      invariant |snapshots| == i
      invariant forall k :: 0 <= k < i ==> order[k] in due && snapshots[k] == (order[k], due[order[k]])
    {
      assert order[i] in order;
      snapshots := snapshots + [(order[i], due[order[i]])];
    }
    forall i, key | 0 <= i < |snapshots|
      ensures key in snapshots[i].1 <==> key in p.scheduled && snapshots[i].0 in p.Due(key, now)
    {
      assert TrialsAt(due, order[i]) == snapshots[i].1;
    }
    forall i | 0 <= i < |snapshots| ensures snapshots[i].1 != [] && Distinct(snapshots[i].1) {
      assert TrialsAt(due, order[i]) == snapshots[i].1;
    }
    forall key, ts | key in p.scheduled && ts in p.Due(key, now)
      ensures exists i :: 0 <= i < |snapshots| && snapshots[i].0 == ts
    {
      assert key in TrialsAt(due, ts);
      assert ts in order;
      var i :| 0 <= i < |order| && order[i] == ts;
      assert snapshots[i].0 == ts;
    }
  }

  method EarliestDue(next: map<string, int>) returns (due: Option<int>)
    ensures Earliest(next, due)
  {
    if next == map[] {
      return None;
    }
    var key :| key in next;
    assert next[key] in next.Values;
    var earliest := Minimum(next.Values);
    forall k | k in next ensures earliest <= next[k] { assert next[k] in next.Values; }
    due := Some(earliest);
  }

  /** Everything a poll computes from the tables it reads. */
  method PollPlan(p: Plan, now: int)
    returns (snapshots: seq<(int, seq<string>)>, next: map<string, int>, nextDue: Option<int>)
    requires p.every > 0
    ensures Announces(p, snapshots, now)
    ensures p.Advanced(next, {}, now)
    ensures forall key :: key in next ==> next[key] > now
    ensures Earliest(next, nextDue)
  {
    var due;
    due, next := VisitAll(p, now);
    snapshots := InOrder(p, due, now);
    AdvancedIsLater(p, next, now);
    nextDue := EarliestDue(next);
  }

  class SnapshotScheduler {
    const campaignSeconds: int
    const everySeconds: int
    var active: map<string, Trial>
    var campaignTrials: map<string, Trial>
    var nextPeriodicTs: map<string, int>

    /** Timestamps handed out to each trial since it registered. */
    ghost var emitted: map<string, seq<int>>

    ghost function CurrentPlan(): Plan
      reads this
    {
      Plan(nextPeriodicTs, active, campaignSeconds, everySeconds)
    }

    ghost predicate Valid()
      reads this
    {
      Consistent(CurrentPlan(), campaignTrials, emitted)
    }

    constructor (campaignSeconds: int, everySeconds: int)
      requires everySeconds > 0
      ensures Valid() && active == campaignTrials == map[] && nextPeriodicTs == map[]
      ensures this.campaignSeconds == campaignSeconds && this.everySeconds == everySeconds
    {
      this.campaignSeconds := campaignSeconds;
      this.everySeconds := everySeconds;
      active, campaignTrials, nextPeriodicTs, emitted := map[], map[], map[], map[];
    }

    method Register(trial: Trial)
      requires Valid()
      modifies this
      ensures Valid()
      ensures CurrentPlan() == RegisteredPlan(old(CurrentPlan()), trial)
      ensures campaignTrials == old(campaignTrials)[trial.key := trial] && emitted == old(emitted)[trial.key := []]
    {
      ghost var plan := RegisteredPlan(CurrentPlan(), trial);
      ghost var given := emitted[trial.key := []];
      var trials := campaignTrials[trial.key := trial];
      RegisteredConsistent(CurrentPlan(), campaignTrials, emitted, trial);
      var due := trial.startTs + everySeconds;
      var inTime := due < trial.startTs + campaignSeconds;
      var scheduled := if inTime then nextPeriodicTs[trial.key := due] else nextPeriodicTs - {trial.key};
      Enter(active[trial.key := trial], trials, scheduled, given, plan);
    }

    /** Writes the tables, which then are those of the given plan. */
    method Enter(active: map<string, Trial>, trials: map<string, Trial>, scheduled: map<string, int>,
                 ghost given: map<string, seq<int>>, ghost plan: Plan)
      requires plan == Plan(scheduled, active, campaignSeconds, everySeconds) && Consistent(plan, trials, given)
      modifies this
      ensures Valid() && CurrentPlan() == plan && campaignTrials == trials && emitted == given
    {
      this.active, campaignTrials := active, trials;
      nextPeriodicTs, emitted := scheduled, given;
    }

    method Unregister(key: string)
      requires Valid()
      modifies this`active, this`nextPeriodicTs
      ensures Valid()
      ensures active == old(active) - {key} && nextPeriodicTs == old(nextPeriodicTs) - {key}
    {
      UnregisteredConsistent(CurrentPlan(), campaignTrials, emitted, key);
      active := active - {key};
      nextPeriodicTs := nextPeriodicTs - {key};
    }

    /** Collects everything due at the given time. */
    method Poll(now: int) returns (snapshots: seq<(int, seq<string>)>, nextDue: Option<int>)
      requires Valid()
      modifies this`nextPeriodicTs, this`emitted
      ensures Valid()
      ensures Announces(old(CurrentPlan()), snapshots, now)
      ensures emitted == EmittedAfter(old(CurrentPlan()), old(emitted), now)
      ensures old(CurrentPlan()).Advanced(nextPeriodicTs, {}, now)
      ensures forall key :: key in nextPeriodicTs ==> nextPeriodicTs[key] > now
      ensures Earliest(nextPeriodicTs, nextDue)
    {
      ghost var p, before := CurrentPlan(), emitted;
      var next;
      snapshots, next, nextDue := PollPlan(Plan(nextPeriodicTs, active, campaignSeconds, everySeconds), now);
      PolledConsistent(p, next, campaignTrials, emitted, now);
      nextPeriodicTs := next;
      emitted := EmittedAfter(p, before, now);
    }

    /** Once an active trial has nothing scheduled left, its emission is the whole grid. */
    lemma NothingLeftMeansAllEmitted(key: string, ts: int, n: nat)
      requires Valid() && key in active && key !in nextPeriodicTs
      requires n > 0 && ts == active[key].startTs + n * everySeconds && ts < active[key].startTs + campaignSeconds
      ensures n <= |emitted[key]| && emitted[key][n - 1] == ts
    {
      var t, e := campaignTrials[key], emitted[key];
      assert OnSchedule(CurrentPlan(), t, e, key);
      WholeGrid(e, t.startTs, everySeconds, t.startTs + campaignSeconds, ts, n);
    }

    /** The timestamps emitted to a registered trial are start + every, start + 2*every, ... */
    lemma EmittedExactly(key: string, i: nat)
      requires Valid() && key in campaignTrials && i < |emitted[key]|
      ensures emitted[key][i] == campaignTrials[key].startTs + (i + 1) * everySeconds
      ensures emitted[key][i] < campaignTrials[key].startTs + campaignSeconds
    {
      var t := campaignTrials[key];
      assert OnSchedule(CurrentPlan(), t, emitted[key], key);
      GridPoints(emitted[key], t.startTs, everySeconds, t.startTs + campaignSeconds, i);
    }
  }

  lemma WholeGrid(e: seq<int>, start: int, every: int, end: int, ts: int, n: nat)
    requires every > 0 && OnGrid(e, start, every, end) && Upcoming(e, start, every) >= end
    requires n > 0 && ts == start + n * every && ts < end
    ensures n <= |e| && e[n - 1] == ts
  {
    if n > |e| {
      UpcomingPoint(e, start, every, end);
      ProductOrder(|e| + 1, n, every);
      assert false;
    }
    GridPoints(e, start, every, end, n - 1);
  }

  lemma UpcomingPoint(emitted: seq<int>, start: int, every: int, end: int)
    requires OnGrid(emitted, start, every, end)
    ensures Upcoming(emitted, start, every) == start + (|emitted| + 1) * every
  {
    if emitted != [] { GridPoints(emitted, start, every, end, |emitted| - 1); }
  }
}
