/**
  What a replay leaves behind, in terms of the recorded data alone: which ticks are planned, which
  snapshots a trial has, and what each of them holds and counts.
 */
module ReplayContents {
  import opened Common
  import opened ReplayTimeline

  // ----- The planned ticks ----------------------------------------------------------------------

  ghost predicate PlannedFor(t: ReplayTrial, every: int, ts: int) {
    || ts == t.endTs
    || (every > 0 && ts < t.endTs && exists k: nat :: k >= 1 && ts == t.startTs + k * every)
  }

  /** A grid point before the end is a whole number of intervals after the start. */
  lemma GridPoint(t: ReplayTrial, every: int, ts: int)
    requires every > 0
    ensures GridTick(t, every, ts) <==> ts < t.endTs && exists k: nat :: k >= 1 && ts == t.startTs + k * every
  {
    var d := ts - t.startTs;
    if GridTick(t, every, ts) {
      var k := d / every;
      assert d == k * every;
      if k <= 0 {
        ProductOrder(k, 0, every);
      }
      assert k >= 1 && ts == t.startTs + k * every;
    }
    if k: nat :| k >= 1 && ts == t.startTs + k * every {
      MultipleModulo(k, every);
      ProductOrder(1, k, every);
    }
  }

  /** The schedule holds exactly the whole intervals before each trial's end, and the ends. */
  lemma PlannedTicks(trials: seq<ReplayTrial>, every: int, schedule: seq<int>, ts: int)
    requires forall n :: 0 <= n < |trials| ==> trials[n].startTs <= trials[n].endTs
    requires forall t :: t in schedule <==> Scheduled(trials, every, t)
    ensures ts in schedule <==> exists n :: 0 <= n < |trials| && PlannedFor(trials[n], every, ts)
  {
    forall n | 0 <= n < |trials|
      ensures PlannedFor(trials[n], every, ts) <==> GridTick(trials[n], every, ts) || ts == End(trials[n])
    {
      if every > 0 {
        GridPoint(trials[n], every, ts);
      }
    }
  }

  // ----- The snapshots of one trial ----------------------------------------------------------------

  ghost predicate HasSnapshot(h: seq<Snapshot>, ts: int) {
    exists i :: 0 <= i < |h| && h[i].ts == ts
  }

  lemma HasSnapshotAppend(h: seq<Snapshot>, s: Snapshot, ts: int)
    ensures HasSnapshot(h + [s], ts) <==> HasSnapshot(h, ts) || s.ts == ts
  {
    var all := h + [s];
    if i :| 0 <= i < |h| && h[i].ts == ts {
      assert all[i].ts == ts;
    }
    assert all[|h|].ts == s.ts;
  }

  /** A trial has a snapshot at exactly the ticks within its range. */
  lemma {:induction false} SnapshotsAtTicks(t: ReplayTrial, ticks: seq<int>, ts: int)
    ensures HasSnapshot(History(t, ticks), ts) <==> ts in ticks && t.startTs <= ts <= t.endTs
    decreases |ticks|
  {
    if ticks != [] {
      var front, last := ticks[..|ticks| - 1], ticks[|ticks| - 1];
      var before := History(t, front);
      SnapshotsAtTicks(t, front, ts);
      assert ts in ticks <==> ts in front || ts == last by {
        assert ticks == front + [last];
      }
      HasSnapshotAppend(before, Save(t, before, last), ts);
    }
  }

  /**
    A replay that is not cut short leaves a trial with a snapshot at exactly those planned ticks,
    its own or another trial's, that lie within its range.
   */
  lemma SnapshotsOfReplay(trials: seq<ReplayTrial>, every: int, schedule: seq<int>, store: seq<seq<Snapshot>>,
                          i: nat, ts: int)
    requires i < |trials| && forall n :: 0 <= n < |trials| ==> trials[n].startTs <= trials[n].endTs
    requires forall t :: t in schedule <==> Scheduled(trials, every, t)
    requires StoresHistories(store, trials, schedule, Uncut)
    ensures HasSnapshot(store[i], ts) <==>
      trials[i].startTs <= ts <= trials[i].endTs && exists n :: 0 <= n < |trials| && PlannedFor(trials[n], every, ts)
  {
    PlannedTicks(trials, every, schedule, ts);
    SnapshotsAtTicks(trials[i], schedule, ts);
    assert store[i] == History(trials[i], schedule);
  }

  lemma {:induction false} DetectedTimes(timeline: seq<File>, a: int, b: int, f: File)
    ensures multiset(Detect(timeline, a, b))[f]
         == if a * 1_000_000_000 < f.ns <= b * 1_000_000_000 then multiset(timeline)[f] else 0
  {
    if timeline != [] {
      DetectedTimes(timeline[1..], a, b, f);
      assert timeline == [timeline[0]] + timeline[1..];
      assert multiset(timeline) == multiset{timeline[0]} + multiset(timeline[1..]);
    }
  }

  /**
    Snapshots come in ascending order, and each holds what appeared since the one before, as often
    as it was recorded.
   */
  lemma SnapshotContents(t: ReplayTrial, ticks: seq<int>, i: nat, f: File)
    requires StrictlyAscending(ticks) && i < |History(t, ticks)|
    ensures var h := History(t, ticks);
      var since := if i == 0 then t.startTs - 1 else h[i - 1].ts;
      since < h[i].ts && multiset(h[i].detected)[f] ==
        if since * 1_000_000_000 < f.ns <= h[i].ts * 1_000_000_000 then multiset(t.timeline)[f] else 0
  {
    HistoryChains(t, ticks);
    var s := History(t, ticks)[i];
    DetectedTimes(t.timeline, s.sinceTs, s.ts, f);
  }

  // ----- Counting corpus files -------------------------------------------------------------------

  /** The positions of the corpus files of an interval in the recorded timeline. */
  ghost function CorpusPositions(timeline: seq<File>, since: int, until: int): set<int> {
    set i | 0 <= i < |timeline| && timeline[i].kind == Corpus &&
      since * 1_000_000_000 < timeline[i].ns <= until * 1_000_000_000
  }

  lemma {:induction false} DetectAppend(timeline: seq<File>, f: File, a: int, b: int)
    ensures Detect(timeline + [f], a, b) == Detect(timeline, a, b) + if InInterval(f, a, b) then [f] else []
  {
    if timeline == [] {
      assert timeline + [f] == [f] && [f][1..] == [];
    } else {
      assert (timeline + [f])[1..] == timeline[1..] + [f];
      DetectAppend(timeline[1..], f, a, b);
    }
  }

  lemma {:induction false} CorpusCountAppend(files: seq<File>, more: seq<File>)
    ensures CorpusCount(files + more) == CorpusCount(files) + CorpusCount(more)
  {
    if files == [] {
      assert files + more == more;
    } else {
      assert (files + more)[1..] == files[1..] + more;
      CorpusCountAppend(files[1..], more);
    }
  }

  lemma PositionsAppend(timeline: seq<File>, f: File, a: int, b: int)
    ensures |CorpusPositions(timeline + [f], a, b)|
         == |CorpusPositions(timeline, a, b)| + if InInterval(f, a, b) && f.kind == Corpus then 1 else 0
  {
    var n := |timeline|;
    assert forall i :: 0 <= i < n ==> (timeline + [f])[i] == timeline[i];
    AddOne(CorpusPositions(timeline, a, b), CorpusPositions(timeline + [f], a, b), n,
           InInterval(f, a, b) && f.kind == Corpus);
  }

  lemma CountOfOne(f: File)
    ensures CorpusCount([f]) == if f.kind == Corpus then 1 else 0
  {
    assert [f][1..] == [];
  }

  /** What is detected counts every position of the timeline once. */
  lemma {:induction false} DetectedCountsPositions(timeline: seq<File>, a: int, b: int)
    ensures CorpusCount(Detect(timeline, a, b)) == |CorpusPositions(timeline, a, b)|
    decreases |timeline|
  {
    if timeline == [] {
      assert CorpusPositions(timeline, a, b) == {};
    } else {
      var n := |timeline| - 1;
      var front, f := timeline[..n], timeline[n];
      assert timeline == front + [f];
      DetectedCountsPositions(front, a, b);
      CountsAppend(front, f, a, b);
      PositionsAppend(front, f, a, b);
    }
  }

  lemma CountsAppend(timeline: seq<File>, f: File, a: int, b: int)
    ensures CorpusCount(Detect(timeline + [f], a, b))
         == CorpusCount(Detect(timeline, a, b)) + if InInterval(f, a, b) && f.kind == Corpus then 1 else 0
  {
    DetectAppend(timeline, f, a, b);
    CorpusCountAppend(Detect(timeline, a, b), if InInterval(f, a, b) then [f] else []);
    CountOfOne(f);
  }

  /** Each snapshot counts the corpus files up to its tick, every position of the timeline once. */
  lemma {:induction false} CountsArePositions(t: ReplayTrial, ticks: seq<int>, i: nat)
    requires StrictlyAscending(ticks) && i < |History(t, ticks)|
    ensures var s := History(t, ticks)[i];
      s.corpusFiles == |CorpusPositions(t.timeline, t.startTs - 1, s.ts)|
    decreases |ticks|
  {
    var h := History(t, ticks);
    if i == |h| - 1 {
      HistoryCounts(t, ticks);
      DetectedCountsPositions(t.timeline, t.startTs - 1, h[i].ts);
    } else {
      CountsArePositions(t, ticks[..|ticks| - 1], i);
    }
  }

  /** A finished replay ends with a snapshot that counts the corpus files up to the trial's end. */
  lemma LastCountIsPositions(trials: seq<ReplayTrial>, every: int, schedule: seq<int>, n: nat)
    requires n < |trials| && trials[n].startTs < trials[n].endTs
    requires StrictlyAscending(schedule) && forall ts :: ts in schedule <==> Scheduled(trials, every, ts)
    ensures var t, h := trials[n], History(trials[n], schedule);
      h != [] && h[|h| - 1].ts == t.endTs
      && h[|h| - 1].corpusFiles == |CorpusPositions(t.timeline, t.startTs - 1, t.endTs)|
  {
    var h := History(trials[n], schedule);
    LastTickIsEnd(trials, every, schedule, n);
    CountsArePositions(trials[n], schedule, |h| - 1);
  }
}
