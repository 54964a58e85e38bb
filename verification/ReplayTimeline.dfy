/**
  Replay mode: file times are clamped to the start of the recorded run, ticks are planned over
  all trials together, and every tick ingests what appeared since the trial's last snapshot.
  The loop may be cut short by a stop or a failing tick; timeline files are taken to exist.
 */
module ReplayTimeline {
  import opened Common

  const SECOND_NS := 1_000_000_000

  datatype Kind = Corpus | Crashes

  datatype File = File(kind: Kind, path: string, ns: int)

  datatype ReplayTrial = ReplayTrial(key: string, startTs: int, endTs: int, timeline: seq<File>)

  /** The snapshot row a tick leaves behind; `sinceTs` is the exclusive start of its interval. */
  datatype Snapshot = Snapshot(sinceTs: int, ts: int, corpusFiles: nat, detected: seq<File>)

  // ----- Preparation of one trial -----------------------------------------------------------

  ghost predicate ClampedTo(timeline: seq<File>, recorded: seq<File>, startNs: int) {
    && |timeline| == |recorded|
    && (forall i :: 0 <= i < |timeline| ==>
        timeline[i] == recorded[i].(ns := if recorded[i].ns < startNs then startNs else recorded[i].ns))
  }

  /** The latest time of the timeline, or the default when there is none. */
  ghost predicate IsLatest(latest: int, timeline: seq<File>, default: int) {
    if timeline == [] then latest == default
    else
      && (exists i :: 0 <= i < |timeline| && timeline[i].ns == latest)
      && (forall i :: 0 <= i < |timeline| ==> timeline[i].ns <= latest)
  }

  /** `prepare_replay_trial`: both ends of the range are floored to seconds. */
  method Prepare(key: string, startNs: int, recorded: seq<File>) returns (t: ReplayTrial, ghost latest: int)
    ensures t.key == key && ClampedTo(t.timeline, recorded, startNs) && IsLatest(latest, t.timeline, startNs)
    ensures t.startTs == startNs / SECOND_NS && t.endTs == latest / SECOND_NS
    ensures t.startTs <= t.endTs && forall i :: 0 <= i < |t.timeline| ==> startNs <= t.timeline[i].ns
  {
    var timeline: seq<File> := [];
    var end := startNs;
    for i := 0 to |recorded|
      invariant ClampedTo(timeline, recorded[..i], startNs)
      invariant IsLatest(end, timeline, startNs) && startNs <= end
      invariant forall k :: 0 <= k < i ==> startNs <= timeline[k].ns
    {
      var f := recorded[i].(ns := if recorded[i].ns < startNs then startNs else recorded[i].ns);
      ghost var before := timeline;
      timeline := timeline + [f];
      assert timeline[i] == f;
      assert forall k :: 0 <= k < |before| ==> timeline[k] == before[k];
      end := if f.ns > end then f.ns else end;
    }
    assert recorded[..|recorded|] == recorded;
    latest := end;
    t := ReplayTrial(key, startNs / SECOND_NS, end / SECOND_NS, timeline);
  }

  // ----- The tick schedule over all trials ----------------------------------------------------

  /** The grid points of one trial strictly before its end. */
  ghost predicate GridTick(t: ReplayTrial, every: int, ts: int) {
    every > 0 && t.startTs < ts < t.endTs && (ts - t.startTs) % every == 0
  }

  ghost predicate Scheduled(trials: seq<ReplayTrial>, every: int, ts: int) {
    exists i :: 0 <= i < |trials| && (GridTick(trials[i], every, ts) || ts == End(trials[i]))
  }

  function End(t: ReplayTrial): int {
    if t.endTs < t.startTs then t.startTs else t.endTs
  }

  /** The `while` of `_build_tick_schedule` for one trial. */
  method TrialTicks(t: ReplayTrial, every: int) returns (ticks: set<int>)
    ensures forall ts :: ts in ticks <==> GridTick(t, every, ts) || ts == End(t)
  {
    ticks := {};
    if every > 0 {
      var next := t.startTs + every;
      ghost var k := 1;
      forall ts | GridTick(t, every, ts) ensures next <= ts {
        GridGap(t, every, 0, ts);
      }
      while next < End(t)
        invariant next == t.startTs + k * every && t.startTs < next
        invariant forall ts :: ts in ticks <==> GridTick(t, every, ts) && ts < next
        decreases End(t) - next
      {
        MultipleModulo(k, every);
        FactorOrder(k, k + 1, every);
        forall ts | GridTick(t, every, ts) && next < ts ensures next + every <= ts {
          GridGap(t, every, k, ts);
        }
        ticks := ticks + {next};
        next := next + every;
        k := k + 1;
      }
    }
    ticks := ticks + {End(t)};
  }

  lemma FactorOrder(a: int, b: int, every: int)
    requires a < b && every > 0
    ensures (a + 1) * every <= b * every && (a + 1) * every == a * every + every
  {
    ProductOrder(a + 1, b, every);
  }

  lemma MultipleModulo(k: int, every: int)
    requires every > 0
    ensures (k * every) % every == 0
  {
    var q, r := (k * every) / every, (k * every) % every;
    assert k * every == q * every + r;
    if k < q {
      FactorOrder(k, q, every);
    } else if q < k {
      FactorOrder(q, k, every);
    }
  }

  /** No grid point lies strictly between the k-th one and the next. */
  lemma GridGap(t: ReplayTrial, every: int, k: int, ts: int)
    requires GridTick(t, every, ts) && t.startTs + k * every < ts
    ensures t.startTs + (k + 1) * every <= ts
  {
    var d := ts - t.startTs;
    assert d == d / every * every;
    if d / every < k {
      FactorOrder(d / every, k, every);
    } else if k < d / every {
      FactorOrder(k, d / every, every);
    }
  }

  method BuildSchedule(trials: seq<ReplayTrial>, every: int) returns (schedule: seq<int>)
    ensures StrictlyAscending(schedule)
    ensures forall ts :: ts in schedule <==> Scheduled(trials, every, ts)
  {
    var ticks: set<int> := {};
    for i := 0 to |trials|
      invariant forall ts :: ts in ticks <==> Scheduled(trials[..i], every, ts)
    {
      var own := TrialTicks(trials[i], every);
      forall ts ensures Scheduled(trials[..i + 1], every, ts) <==> Scheduled(trials[..i], every, ts) || ts in own {
        if Scheduled(trials[..i + 1], every, ts) {
          var k :| 0 <= k < i + 1 && (GridTick(trials[..i + 1][k], every, ts) || ts == End(trials[..i + 1][k]));
          assert k < i ==> trials[..i][k] == trials[k];
        }
        if k :| 0 <= k < i && (GridTick(trials[..i][k], every, ts) || ts == End(trials[..i][k])) {
          assert trials[..i + 1][k] == trials[k];
        }
        assert trials[..i + 1][i] == trials[i];
      }
      ticks := ticks + own;
    }
    assert trials[..|trials|] == trials;
    schedule := Sorted(ticks);
  }

  // ----- Ingestion ---------------------------------------------------------------------------

  predicate InInterval(f: File, sinceTs: int, ts: int) {
    sinceTs * SECOND_NS < f.ns <= ts * SECOND_NS
  }

  /** `_detect_replay_files` for both kinds. */
  function Detect(timeline: seq<File>, sinceTs: int, ts: int): (r: seq<File>)
    ensures forall f :: f in r <==> f in timeline && InInterval(f, sinceTs, ts)
  {
    if timeline == [] then []
    else (if InInterval(timeline[0], sinceTs, ts) then [timeline[0]] else []) + Detect(timeline[1..], sinceTs, ts)
  }

  function CorpusCount(files: seq<File>): nat {
    if files == [] then 0 else (if files[0].kind == Corpus then 1 else 0) + CorpusCount(files[1..])
  }

  /** The snapshot saved for a trial at one tick, given its previous ones. */
  function Save(t: ReplayTrial, previous: seq<Snapshot>, ts: int): Snapshot {
    var sinceTs := if previous == [] then t.startTs - 1 else previous[|previous| - 1].ts;
    var count := if previous == [] then 0 else previous[|previous| - 1].corpusFiles;
    var detected := Detect(t.timeline, sinceTs, ts);
    Snapshot(sinceTs, ts, count + CorpusCount(detected), detected)
  }

  predicate Selected(t: ReplayTrial, ts: int) {
    t.startTs <= ts <= t.endTs
  }

  /** The snapshots of a trial after the given ticks, whoever else they were planned for. */
  ghost function History(t: ReplayTrial, ticks: seq<int>): seq<Snapshot> {
    if ticks == [] then []
    else
      var before, ts := History(t, ticks[..|ticks| - 1]), ticks[|ticks| - 1];
      if Selected(t, ts) then before + [Save(t, before, ts)] else before
  }

  /** One tick: every selected trial collects and saves, but for those a failure came before. */
  method ProcessTick(trials: seq<ReplayTrial>, store: seq<seq<Snapshot>>, ts: int, missed: set<nat>,
                     ghost ticks: seq<int>)
    returns (next: seq<seq<Snapshot>>)
    requires |store| == |trials| && forall i :: 0 <= i < |trials| ==> store[i] == History(trials[i], ticks)
    ensures |next| == |trials|
    ensures forall i :: 0 <= i < |trials| ==> next[i] == History(trials[i], if i in missed then ticks else ticks + [ts])
  {
    next := [];
    assert (ticks + [ts])[..|ticks|] == ticks;
    for i := 0 to |trials|
      invariant |next| == i
      invariant forall k :: 0 <= k < i ==> next[k] == History(trials[k], if k in missed then ticks else ticks + [ts])
    {
      var saves := i !in missed && Selected(trials[i], ts);
      next := next + [if saves then store[i] + [Save(trials[i], store[i], ts)] else store[i]];
    }
  }

  /** What may cut the loop short: a stop seen before a tick, or a tick that fails before some trials are saved. */
  datatype Cut = Uncut | StopAt(tick: nat) | FailAt(tick: nat, missed: set<nat>)

  datatype ReplayError = NothingToReplay | EmptyRange

  /** The snapshots of every trial in order, as far as the loop came. */
  datatype Outcome =
    | Rejected(error: ReplayError)
    | Replayed(store: seq<seq<Snapshot>>)
    | Failed(store: seq<seq<Snapshot>>)

  /** The ticks a trial took part in, or was passed over by. */
  ghost function TicksSeen(schedule: seq<int>, cut: Cut, i: nat): seq<int> {
    if cut.Uncut? || cut.tick >= |schedule| then schedule
    else if cut.FailAt? && i !in cut.missed then schedule[..cut.tick + 1]
    else schedule[..cut.tick]
  }

  ghost predicate StoresHistories(store: seq<seq<Snapshot>>, trials: seq<ReplayTrial>, schedule: seq<int>, cut: Cut) {
    && |store| == |trials|
    && forall i: nat :: i < |trials| ==> store[i] == History(trials[i], TicksSeen(schedule, cut, i))
  }

  /** Preparation checks and the replay loop. */
  method RunReplay(trials: seq<ReplayTrial>, every: int, cut: Cut) returns (r: Outcome, ghost schedule: seq<int>)
    ensures r.Rejected? <==> trials == [] || exists i :: 0 <= i < |trials| && trials[i].endTs <= trials[i].startTs
    ensures StrictlyAscending(schedule) &&
      (!r.Rejected? ==> forall ts :: ts in schedule <==> Scheduled(trials, every, ts))
    ensures !r.Rejected? ==> (r.Failed? <==> cut.FailAt? && cut.tick < |schedule|)
    ensures !r.Rejected? ==> StoresHistories(r.store, trials, schedule, cut)
  {
    schedule := [];
    if trials == [] {
      return Rejected(NothingToReplay), schedule;
    }
    for i := 0 to |trials|
      invariant forall k :: 0 <= k < i ==> trials[k].endTs > trials[k].startTs
    {
      if trials[i].endTs - trials[i].startTs <= 0 {
        return Rejected(EmptyRange), schedule;
      }
    }
    var ticks := BuildSchedule(trials, every);
    var store;
    var failed;
    store, failed := RunTicks(trials, ticks, cut);
    schedule := ticks;
    r := if failed then Failed(store) else Replayed(store);
  }

  /** The loop over the schedule. */
  method RunTicks(trials: seq<ReplayTrial>, ticks: seq<int>, cut: Cut) returns (store: seq<seq<Snapshot>>, failed: bool)
    ensures StoresHistories(store, trials, ticks, cut) && (failed <==> cut.FailAt? && cut.tick < |ticks|)
  {
    store := seq(|trials|, _ => []);
    for n := 0 to |ticks|
      invariant |store| == |trials| && forall i :: 0 <= i < |trials| ==> store[i] == History(trials[i], ticks[..n])
      invariant !cut.Uncut? ==> n <= cut.tick
    {
      assert ticks[..n] + [ticks[n]] == ticks[..n + 1];
      if cut == StopAt(n) {
        return store, false;
      }
      if cut.FailAt? && cut.tick == n {
        store := ProcessTick(trials, store, ticks[n], cut.missed, ticks[..n]);
        return store, true;
      }
      store := ProcessTick(trials, store, ticks[n], {}, ticks[..n]);
    }
    assert ticks[..|ticks|] == ticks;
    failed := false;
  }

  // ----- Exactly once --------------------------------------------------------------------------

  /** Consecutive snapshots chain their intervals, starting right before the first second. */
  ghost predicate Chained(t: ReplayTrial, history: seq<Snapshot>) {
    && (history != [] ==> history[0].sinceTs == t.startTs - 1)
    && (forall i :: 0 < i < |history| ==> history[i].sinceTs == history[i - 1].ts)
    && (forall i :: 0 <= i < |history| ==>
        history[i].sinceTs < history[i].ts &&
          history[i].detected == Detect(t.timeline, history[i].sinceTs, history[i].ts))
  }

  /** The exclusive end of what the snapshots cover. */
  ghost function Covered(t: ReplayTrial, history: seq<Snapshot>): int {
    if history == [] then t.startTs - 1 else history[|history| - 1].ts
  }

  /** The covered end is the last tick the trial was selected for. */
  ghost predicate EndsAtLastSelected(t: ReplayTrial, history: seq<Snapshot>, ticks: seq<int>) {
    if history == [] then forall i :: 0 <= i < |ticks| ==> !Selected(t, ticks[i])
    else exists i :: 0 <= i < |ticks| && LastSelected(t, ticks, i) && ticks[i] == Covered(t, history)
  }

  ghost predicate LastSelected(t: ReplayTrial, ticks: seq<int>, i: nat)
    requires i < |ticks|
  {
    Selected(t, ticks[i]) && forall j :: i < j < |ticks| ==> !Selected(t, ticks[j])
  }

  lemma {:induction false} HistoryEnd(t: ReplayTrial, ticks: seq<int>)
    ensures EndsAtLastSelected(t, History(t, ticks), ticks)
    decreases |ticks|
  {
    if ticks != [] {
      var front, last := ticks[..|ticks| - 1], |ticks| - 1;
      HistoryEnd(t, front);
      var before := History(t, front);
      if Selected(t, ticks[last]) {
        assert LastSelected(t, ticks, last);
      } else if before != [] {
        var i :| 0 <= i < |front| && LastSelected(t, front, i) && front[i] == Covered(t, before);
        assert LastSelected(t, ticks, i);
      } else {
        assert forall i :: 0 <= i < |front| ==> front[i] == ticks[i];
      }
    }
  }

  lemma {:induction false} HistoryChains(t: ReplayTrial, ticks: seq<int>)
    requires StrictlyAscending(ticks)
    ensures Chained(t, History(t, ticks))
    decreases |ticks|
  {
    if ticks != [] {
      var front, ts := ticks[..|ticks| - 1], ticks[|ticks| - 1];
      HistoryChains(t, front);
      HistoryEnd(t, front);
      if Selected(t, ts) {
        CoveredBefore(t, ticks);
        ChainExtends(t, History(t, front), ts);
      }
    }
  }

  lemma CoveredBefore(t: ReplayTrial, ticks: seq<int>)
    requires StrictlyAscending(ticks) && ticks != [] && Selected(t, ticks[|ticks| - 1])
    ensures Covered(t, History(t, ticks[..|ticks| - 1])) < ticks[|ticks| - 1]
  {
    var front := ticks[..|ticks| - 1];
    HistoryEnd(t, front);
    if History(t, front) != [] {
      var i :| 0 <= i < |front| && LastSelected(t, front, i) && front[i] == Covered(t, History(t, front));
      assert ticks[i] < ticks[|ticks| - 1];
    }
  }

  lemma ChainExtends(t: ReplayTrial, history: seq<Snapshot>, ts: int)
    requires Chained(t, history) && Covered(t, history) < ts
    ensures Chained(t, history + [Save(t, history, ts)])
  {
    var h := history + [Save(t, history, ts)];
    assert forall i :: 0 <= i < |history| ==> h[i] == history[i];
  }

  ghost predicate CountsCovered(t: ReplayTrial, history: seq<Snapshot>) {
    history != [] ==>
      history[|history| - 1].corpusFiles == CorpusCount(Detect(t.timeline, t.startTs - 1, Covered(t, history)))
  }

  /** The running count is the count over everything covered so far. */
  lemma {:induction false} HistoryCounts(t: ReplayTrial, ticks: seq<int>)
    requires StrictlyAscending(ticks)
    ensures CountsCovered(t, History(t, ticks))
    decreases |ticks|
  {
    if ticks != [] {
      var front, ts := ticks[..|ticks| - 1], ticks[|ticks| - 1];
      HistoryCounts(t, front);
      if Selected(t, ts) {
        CoveredBefore(t, ticks);
        HistoryChains(t, front);
        CountStep(t, History(t, front), ts);
      }
    }
  }

  lemma CountStep(t: ReplayTrial, history: seq<Snapshot>, ts: int)
    requires Chained(t, history) && Covered(t, history) < ts && CountsCovered(t, history)
    ensures CountsCovered(t, history + [Save(t, history, ts)])
  {
    CoveredGrows(t, history);
    CountsAdd(t.timeline, t.startTs - 1, Covered(t, history), ts);
    NothingDetected(t.timeline, t.startTs - 1);
    var h := history + [Save(t, history, ts)];
    assert h[|h| - 1] == Save(t, history, ts);
  }

  lemma {:induction false} NothingDetected(timeline: seq<File>, at: int)
    ensures Detect(timeline, at, at) == []
  {
    if timeline != [] {
      NothingDetected(timeline[1..], at);
    }
  }

  /** Adjacent intervals count separately and add up. */
  lemma {:induction false} CountsAdd(timeline: seq<File>, a: int, b: int, c: int)
    requires a <= b <= c
    ensures CorpusCount(Detect(timeline, a, b)) + CorpusCount(Detect(timeline, b, c))
         == CorpusCount(Detect(timeline, a, c))
  {
    if timeline == [] {
    } else {
      CountsAdd(timeline[1..], a, b, c);
      var f := timeline[0];
      ConsCount(f, InInterval(f, a, b), Detect(timeline[1..], a, b));
      ConsCount(f, InInterval(f, b, c), Detect(timeline[1..], b, c));
      ConsCount(f, InInterval(f, a, c), Detect(timeline[1..], a, c));
    }
  }

  lemma ConsCount(f: File, hit: bool, rest: seq<File>)
    ensures CorpusCount((if hit then [f] else []) + rest)
         == (if hit && f.kind == Corpus then 1 else 0) + CorpusCount(rest)
  {
    if hit {
      assert ([f] + rest)[1..] == rest;
    } else {
      assert [] + rest == rest;
    }
  }

  lemma ChainPrefix(t: ReplayTrial, history: seq<Snapshot>)
    requires Chained(t, history) && history != []
    ensures Chained(t, history[..|history| - 1])
    ensures history[|history| - 1].sinceTs == Covered(t, history[..|history| - 1])
  {
    var front := history[..|history| - 1];
    assert forall i :: 0 <= i < |front| ==> front[i] == history[i];
  }

  lemma CoveredStep(t: ReplayTrial, history: seq<Snapshot>, f: File)
    requires Chained(t, history) && history != [] && f in t.timeline
    ensures InInterval(f, t.startTs - 1, Covered(t, history)) <==>
      InInterval(f, t.startTs - 1, Covered(t, history[..|history| - 1])) || f in history[|history| - 1].detected
  {
    ChainPrefix(t, history);
    CoveredGrows(t, history[..|history| - 1]);
  }

  ghost predicate DetectedSomewhere(history: seq<Snapshot>, f: File) {
    exists i :: 0 <= i < |history| && f in history[i].detected
  }

  lemma DetectedStep(history: seq<Snapshot>, f: File)
    requires history != []
    ensures DetectedSomewhere(history, f) <==>
      DetectedSomewhere(history[..|history| - 1], f) || f in history[|history| - 1].detected
  {
    var front := history[..|history| - 1];
    assert forall i :: 0 <= i < |front| ==> front[i] == history[i];
    if i :| 0 <= i < |front| && f in front[i].detected {
      assert f in history[i].detected;
    }
    if i :| 0 <= i < |history| && f in history[i].detected {
      assert i < |front| ==> f in front[i].detected;
    }
  }

  /** In a chain of intervals, some interval holds the file exactly when the whole stretch does. */
  lemma {:induction false} ChainCovers(t: ReplayTrial, history: seq<Snapshot>, f: File)
    requires Chained(t, history) && f in t.timeline
    ensures DetectedSomewhere(history, f) <==> InInterval(f, t.startTs - 1, Covered(t, history))
    decreases |history|
  {
    if history != [] {
      ChainPrefix(t, history);
      ChainCovers(t, history[..|history| - 1], f);
      CoveredStep(t, history, f);
      DetectedStep(history, f);
    }
  }

  lemma {:induction false} ChainOrder(t: ReplayTrial, history: seq<Snapshot>, i: nat, j: nat)
    requires Chained(t, history) && i < j < |history|
    ensures history[i].ts <= history[j].sinceTs
    decreases j
  {
    if i < j - 1 {
      ChainOrder(t, history, i, j - 1);
    }
  }

  /** In a chain of intervals, a covered file falls into exactly one of them. */
  lemma ExactlyOneInterval(t: ReplayTrial, history: seq<Snapshot>, f: File)
    requires Chained(t, history) && f in t.timeline
    ensures DetectedSomewhere(history, f) <==> InInterval(f, t.startTs - 1, Covered(t, history))
    ensures forall i, j :: 0 <= i < j < |history| && f in history[i].detected ==> f !in history[j].detected
  {
    ChainCovers(t, history, f);
    forall i, j | 0 <= i < j < |history| && f in history[i].detected ensures f !in history[j].detected {
      ChainOrder(t, history, i, j);
    }
  }

  lemma {:induction false} CoveredGrows(t: ReplayTrial, history: seq<Snapshot>)
    requires Chained(t, history)
    ensures t.startTs - 1 <= Covered(t, history)
    decreases |history|
  {
    if history != [] {
      ChainPrefix(t, history);
      CoveredGrows(t, history[..|history| - 1]);
    }
  }

  /**
    However the loop was cut short: a trial's files are detected in one snapshot or none, exactly
    those up to its last snapshot are, and its last count is the number of corpus files up to there.
   */
  lemma CutReplayIngestsOnce(trials: seq<ReplayTrial>, schedule: seq<int>, cut: Cut, store: seq<seq<Snapshot>>,
                             n: nat, f: File)
    requires StrictlyAscending(schedule) && StoresHistories(store, trials, schedule, cut)
    requires n < |trials| && f in trials[n].timeline
    ensures var t, h := trials[n], store[n];
      && (DetectedSomewhere(h, f) <==> InInterval(f, t.startTs - 1, Covered(t, h)))
      && (forall i, j :: 0 <= i < j < |h| && f in h[i].detected ==> f !in h[j].detected)
      && CountsCovered(t, h)
  {
    var ticks := TicksSeen(schedule, cut, n);
    HistoryChains(trials[n], ticks);
    HistoryCounts(trials[n], ticks);
    ExactlyOneInterval(trials[n], store[n], f);
  }

  /** The trial's own end is always its last snapshot. */
  lemma LastTickIsEnd(trials: seq<ReplayTrial>, every: int, schedule: seq<int>, n: nat)
    requires n < |trials| && trials[n].startTs < trials[n].endTs
    requires StrictlyAscending(schedule) && forall ts :: ts in schedule <==> Scheduled(trials, every, ts)
    ensures History(trials[n], schedule) != [] && Covered(trials[n], History(trials[n], schedule)) == trials[n].endTs
  {
    var t, h := trials[n], History(trials[n], schedule);
    HistoryEnd(t, schedule);
    assert t.endTs in schedule by { assert t.endTs == End(trials[n]); }
    var e :| 0 <= e < |schedule| && schedule[e] == t.endTs;
    assert Selected(t, schedule[e]);
    var i :| 0 <= i < |schedule| && LastSelected(t, schedule, i) && schedule[i] == Covered(t, h);
    assert e <= i;
  }

  /**
    The main result: whatever ticks the other trials add, each file up to the floored end of a
    replayed trial is detected in exactly one of its snapshots, no later file in any, and the
    last snapshot counts every corpus file up to that end.
   */
  lemma IngestedExactlyOnce(trials: seq<ReplayTrial>, every: int, schedule: seq<int>, n: nat, f: File)
    requires n < |trials| && trials[n].startTs < trials[n].endTs && f in trials[n].timeline
    requires (trials[n].startTs - 1) * SECOND_NS < f.ns
    requires StrictlyAscending(schedule) && forall ts :: ts in schedule <==> Scheduled(trials, every, ts)
    ensures var t, h := trials[n], History(trials[n], schedule);
      && (DetectedSomewhere(h, f) <==> f.ns <= t.endTs * SECOND_NS)
      && (forall i, j :: 0 <= i < j < |h| && f in h[i].detected ==> f !in h[j].detected)
      && h != [] && h[|h| - 1].ts == t.endTs
      && h[|h| - 1].corpusFiles == CorpusCount(Detect(t.timeline, t.startTs - 1, t.endTs))
  {
    var t, h := trials[n], History(trials[n], schedule);
    HistoryChains(t, schedule);
    HistoryCounts(t, schedule);
    LastTickIsEnd(trials, every, schedule, n);
    ExactlyOneInterval(t, h, f);
  }

  /** A file at or before the floored end of a prepared trial, and every file exactly when the latest is. */
  lemma AllWithinExactlyWhen(t: ReplayTrial, startNs: int, latest: int)
    requires IsLatest(latest, t.timeline, startNs) && t.endTs == latest / SECOND_NS && t.timeline != []
    ensures (forall f :: f in t.timeline ==> f.ns <= t.endTs * SECOND_NS) <==> latest % SECOND_NS == 0
  {
    var i :| 0 <= i < |t.timeline| && t.timeline[i].ns == latest;
    assert latest == latest / SECOND_NS * SECOND_NS + latest % SECOND_NS;
    if latest % SECOND_NS != 0 {
      assert t.timeline[i] in t.timeline;
    }
  }

  /**
    Replaying every recorded file is not guaranteed: the end is floored to seconds, so every file
    is detected in some snapshot exactly when the latest one lies on a whole second.
   */
  lemma AllIngestedExactlyWhen(trials: seq<ReplayTrial>, every: int, schedule: seq<int>, n: nat, startNs: int,
                               latest: int)
    requires n < |trials| && trials[n].startTs < trials[n].endTs && trials[n].timeline != []
    requires trials[n].startTs == startNs / SECOND_NS && trials[n].endTs == latest / SECOND_NS
    requires IsLatest(latest, trials[n].timeline, startNs)
    requires forall f :: f in trials[n].timeline ==> startNs <= f.ns
    requires StrictlyAscending(schedule) && forall ts :: ts in schedule <==> Scheduled(trials, every, ts)
    ensures (forall f :: f in trials[n].timeline ==> DetectedSomewhere(History(trials[n], schedule), f))
       <==> latest % SECOND_NS == 0
  {
    var t, h := trials[n], History(trials[n], schedule);
    forall f | f in t.timeline ensures DetectedSomewhere(h, f) <==> f.ns <= t.endTs * SECOND_NS {
      IngestedExactlyOnce(trials, every, schedule, n, f);
    }
    AllWithinExactlyWhen(t, startNs, latest);
  }

  /** A crash recorded one nanosecond into the last second appears in no snapshot. */
  lemma LateFileIsLost(every: int, schedule: seq<int>)
    requires var t := ReplayTrial("t", 0, 60, [File(Crashes, "late", 60_000_000_001)]);
      StrictlyAscending(schedule) && forall ts :: ts in schedule <==> Scheduled([t], every, ts)
    ensures var t := ReplayTrial("t", 0, 60, [File(Crashes, "late", 60_000_000_001)]);
      && t.endTs == t.timeline[0].ns / SECOND_NS
      && forall i :: 0 <= i < |History(t, schedule)| ==> t.timeline[0] !in History(t, schedule)[i].detected
  {
    var t := ReplayTrial("t", 0, 60, [File(Crashes, "late", 60_000_000_001)]);
    IngestedExactlyOnce([t], every, schedule, 0, t.timeline[0]);
  }
}
