/**
  Accumulation of a trial's coverage profile. A profile stands for the multiset of the executions
  merged into it; merging adds multisets. Tool and file failures are chosen by an oracle.
 */
module ProfileMerge {
  import opened Common

  const ATTEMPTS := 3
  const CHUNK_SIZE := 512
  const UNUSABLE_SIZE := 64

  type RunId = nat

  datatype Profile = Profile(runs: multiset<RunId>, size: nat)

  predicate Usable(p: Option<Profile>) {
    p.Some? && p.value.size > UNUSABLE_SIZE
  }

  /** `_usable_profiles`: missing and empty files are skipped. */
  function UsableRuns(files: seq<Option<Profile>>): (r: seq<multiset<RunId>>)
    ensures r == [] <==> forall i :: 0 <= i < |files| ==> !Usable(files[i])
  {
    if files == [] then []
    else (if Usable(files[0]) then [files[0].value.runs] else []) + UsableRuns(files[1..])
  }

  function Flat(profiles: seq<multiset<RunId>>): multiset<RunId> {
    if profiles == [] then multiset{} else profiles[0] + Flat(profiles[1..])
  }

  lemma {:induction false} FlatConcat(a: seq<multiset<RunId>>, b: seq<multiset<RunId>>)
    ensures Flat(a + b) == Flat(a) + Flat(b)
  {
    if a == [] {
      assert a + b == b;
    } else {
      assert (a + b)[1..] == a[1..] + b;
      FlatConcat(a[1..], b);
    }
  }

  lemma FlatAppend(a: seq<multiset<RunId>>, p: multiset<RunId>)
    ensures Flat(a + [p]) == Flat(a) + p
  {
    FlatConcat(a, [p]);
  }

  // ----- The worker's multi-round merge ---------------------------------------------------------

  /** One invocation of the merge tool; `calls` records how many inputs each one got. */
  method ToolMerge(inputs: seq<multiset<RunId>>, ghost calls: seq<nat>)
    returns (output: multiset<RunId>, ghost calls': seq<nat>)
    ensures output == Flat(inputs) && calls' == calls + [|inputs|]
  {
    output := multiset{};
    for i := 0 to |inputs|
      invariant output == Flat(inputs[..i])
    {
      FlatAppend(inputs[..i], inputs[i]);
      assert inputs[..i] + [inputs[i]] == inputs[..i + 1];
      output := output + inputs[i];
    }
    assert inputs[..|inputs|] == inputs;
    calls' := calls + [|inputs|];
  }

  ghost predicate CallsWithin(calls: seq<nat>, chunk: nat) {
    forall i :: 0 <= i < |calls| ==> 1 <= calls[i] <= chunk
  }

  lemma FlatSlice(inputs: seq<multiset<RunId>>, start: nat, stop: nat)
    requires start <= stop <= |inputs|
    ensures Flat(inputs[..stop]) == Flat(inputs[..start]) + Flat(inputs[start..stop])
  {
    FlatConcat(inputs[..start], inputs[start..stop]);
    assert inputs[..start] + inputs[start..stop] == inputs[..stop];
  }

  /** One round: every slice of `chunk` inputs becomes one output. */
  method MergeRound(inputs: seq<multiset<RunId>>, chunk: nat, ghost calls: seq<nat>)
    returns (outputs: seq<multiset<RunId>>, ghost calls': seq<nat>)
    requires 2 <= chunk < |inputs| && CallsWithin(calls, chunk)
    ensures Flat(outputs) == Flat(inputs) && 0 < |outputs| < |inputs|
    ensures CallsWithin(calls', chunk)
  {
    outputs, calls' := [], calls;
    var start := 0;
    while start < |inputs|
      invariant 0 <= start <= |inputs| && Flat(outputs) == Flat(inputs[..start])
      invariant if start == 0 then outputs == [] else 0 < |outputs| < start
      invariant CallsWithin(calls', chunk)
      decreases |inputs| - start
    {
      var stop := if start + chunk < |inputs| then start + chunk else |inputs|;
      var output;
      output, calls' := ToolMerge(inputs[start..stop], calls');
      FlatSlice(inputs, start, stop);
      FlatAppend(outputs, output);
      outputs := outputs + [output];
      start := stop;
    }
    assert inputs[..|inputs|] == inputs;
  }

  /**
    `_merge_profiles`: rounds of chunked merges end and give the merge of all inputs at once,
    and no invocation of the tool gets more than `chunk` files.
   */
  method MergeProfiles(inputs: seq<multiset<RunId>>, chunk: nat)
    returns (output: multiset<RunId>, ghost calls: seq<nat>)
    requires 2 <= chunk && inputs != []
    ensures output == Flat(inputs)
    ensures CallsWithin(calls, chunk)
  {
    var current := inputs;
    calls := [];
    while |current| > chunk
      invariant current != [] && Flat(current) == Flat(inputs) && CallsWithin(calls, chunk)
      decreases |current|
    {
      current, calls := MergeRound(current, chunk, calls);
    }
    output, calls := ToolMerge(current, calls);
  }

  // ----- One merge with retries -------------------------------------------------------------------

  datatype Step = Worker | Artifacts | CopyCandidate | Publish | Commit | Nowhere

  /** How one attempt goes: where it fails, what a broken copy leaves, and the size of the merged file. */
  datatype Fate = Fate(failsAt: Step, leftover: Option<Profile>, outputSize: nat)

  function Inputs(merged: Option<Profile>, batches: seq<Option<Profile>>): seq<multiset<RunId>> {
    UsableRuns([merged] + batches)
  }

  predicate Succeeds(merged: Option<Profile>, batches: seq<Option<Profile>>, fate: Fate) {
    Inputs(merged, batches) != [] && fate.failsAt == Nowhere && fate.outputSize > UNUSABLE_SIZE
  }

  predicate SomeSucceeds(merged: Option<Profile>, batches: seq<Option<Profile>>, fates: seq<Fate>) {
    exists k :: 0 <= k < |fates| && Succeeds(merged, batches, fates[k])
  }

  /**
    The output root is published before the state is committed, so a failing commit leaves the
    root ahead of the state.
   */
  predicate Publishes(merged: Option<Profile>, batches: seq<Option<Profile>>, fate: Fate) {
    Inputs(merged, batches) != [] && fate.failsAt in {Commit, Nowhere} && fate.outputSize > UNUSABLE_SIZE
  }

  predicate SomePublishes(merged: Option<Profile>, batches: seq<Option<Profile>>, fates: seq<Fate>) {
    exists k :: 0 <= k < |fates| && Publishes(merged, batches, fates[k])
  }

  lemma PublishesNext(merged: Option<Profile>, batches: seq<Option<Profile>>, fates: seq<Fate>, k: nat)
    requires k < |fates|
    ensures SomePublishes(merged, batches, fates[..k + 1]) <==>
      SomePublishes(merged, batches, fates[..k]) || Publishes(merged, batches, fates[k])
    ensures Publishes(merged, batches, fates[k]) ==> SomePublishes(merged, batches, fates)
  {
    var longer, shorter := fates[..k + 1], fates[..k];
    if j :| 0 <= j < |shorter| && Publishes(merged, batches, shorter[j]) {
      assert longer[j] == shorter[j];
    }
    if j :| 0 <= j < |longer| && Publishes(merged, batches, longer[j]) {
      assert j < k ==> shorter[j] == longer[j];
    }
    assert longer[k] == fates[k];
  }

  /** What the usable inputs are: the present files of more than 64 bytes, in order. */
  lemma {:induction false} UsableRunsMeaning(files: seq<Option<Profile>>, file: Option<Profile>)
    ensures UsableRuns([]) == []
    ensures UsableRuns(files + [file])
         == UsableRuns(files) + if file.Some? && file.value.size > 64 then [file.value.runs] else []
  {
    if files == [] {
      assert files + [file] == [file] && [file][1..] == [];
    } else {
      assert (files + [file])[1..] == files[1..] + [file];
      UsableRunsMeaning(files[1..], file);
      var first := if Usable(files[0]) then [files[0].value.runs] else [];
      var last := if file.Some? && file.value.size > 64 then [file.value.runs] else [];
      ListsAssociate(first, UsableRuns(files[1..]), last);
    }
  }

  lemma ListsAssociate(a: seq<multiset<RunId>>, b: seq<multiset<RunId>>, c: seq<multiset<RunId>>)
    ensures a + b + c == a + (b + c)
  {
  }

  /** The old profile or some batch is a present file of more than 64 bytes. */
  ghost predicate SomethingToMerge(merged: Option<Profile>, batches: seq<Option<Profile>>) {
    || (merged.Some? && merged.value.size > 64)
    || exists i :: 0 <= i < |batches| && batches[i].Some? && batches[i].value.size > 64
  }

  lemma InputsMeaning(merged: Option<Profile>, batches: seq<Option<Profile>>)
    ensures Inputs(merged, batches) != [] <==> SomethingToMerge(merged, batches)
  {
    var all := [merged] + batches;
    if i :| 0 <= i < |batches| && batches[i].Some? && batches[i].value.size > 64 {
      assert Usable(all[i + 1]);
    }
    if merged.Some? && merged.value.size > 64 {
      assert Usable(all[0]);
    }
    if i :| 0 <= i < |all| && Usable(all[i]) {
      assert i > 0 ==> all[i] == batches[i - 1];
    }
  }

  /** An attempt merges when it has something to merge, no step fails, and the output is usable. */
  lemma SucceedsMeaning(merged: Option<Profile>, batches: seq<Option<Profile>>, fate: Fate)
    ensures Succeeds(merged, batches, fate) <==>
      SomethingToMerge(merged, batches) && fate.failsAt == Nowhere && fate.outputSize > 64
    ensures Publishes(merged, batches, fate) <==>
      SomethingToMerge(merged, batches) && (fate.failsAt == Nowhere || fate.failsAt == Commit) && fate.outputSize > 64
  {
    InputsMeaning(merged, batches);
  }

  function Total(merged: Option<Profile>, batches: seq<Option<Profile>>): multiset<RunId> {
    Flat(Inputs(merged, batches))
  }

  /** What a retried merge does to the cumulative profile. */
  ghost predicate MergeEffect(before: Option<Profile>, batches: seq<Option<Profile>>, ok: bool, after: Option<Profile>)
  {
    if ok then Usable(after) && after.value.runs == Total(before, batches) else after == before
  }

  /** How copying the seed profile goes, if it comes to that: a copy that breaks off may leave a file. */
  datatype Copy = Whole | Broken(left: Option<Profile>)

  /** What happens after the bootstrap. */
  datatype Work = NoInputs | BatchFailed | Measured(batches: seq<Option<Profile>>, fates: seq<Fate>)

  /** One tick of one trial. */
  datatype Tick = Tick(copy: Copy, work: Work)

  /** The seed baseline counts only when it was completed. */
  datatype Baseline = Baseline(complete: bool, profile: Option<Profile>)

  predicate Copyable(baseline: Baseline) {
    baseline.complete && baseline.profile.Some?
  }

  /** The file a copy attempt leaves. */
  function CopyLeft(baseline: Baseline, copy: Copy): Option<Profile> {
    if copy.Whole? then baseline.profile else copy.left
  }

  function Bootstrapped(merged: Option<Profile>, baseline: Baseline, copy: Copy): Option<Profile> {
    if merged.None? && Copyable(baseline) then CopyLeft(baseline, copy) else merged
  }

  /** A copy that breaks off raises, and the tick ends there. */
  predicate CopyRaises(merged: Option<Profile>, baseline: Baseline, copy: Copy) {
    merged.None? && Copyable(baseline) && copy.Broken?
  }

  ghost predicate TickEffect(before: Option<Profile>, baseline: Baseline, tick: Tick, ok: bool, after: Option<Profile>)
  {
    var start := Bootstrapped(before, baseline, tick.copy);
    if tick.work.Measured? && !CopyRaises(before, baseline, tick.copy) then
      && ok == SomeSucceeds(start, tick.work.batches, tick.work.fates)
      && MergeEffect(start, tick.work.batches, ok, after)
    else
      !ok && after == start
  }

  /** A published root shows the total of the merge that published it. */
  ghost function RootAfter(root: Option<multiset<RunId>>, merged: Option<Profile>, batches: seq<Option<Profile>>,
                           fates: seq<Fate>): Option<multiset<RunId>>
  {
    if SomePublishes(merged, batches, fates) then Some(Total(merged, batches)) else root
  }

  /** The files of one trial's coverage state: `merged.profdata`, its candidate, and the published root. */
  class CoverageState {
    var merged: Option<Profile>
    var candidate: Option<Profile>
    var published: Option<multiset<RunId>>

    constructor ()
      ensures merged == None && candidate == None && published == None
    {
      merged, candidate, published := None, None, None;
    }

    /** `bootstrap_from_seed_baseline`; a file left by a broken copy passes for a finished bootstrap later. */
    method Bootstrap(baseline: Baseline, copy: Copy) returns (ok: bool)
      modifies `merged
      ensures merged == Bootstrapped(old(merged), baseline, copy)
      ensures ok == !CopyRaises(old(merged), baseline, copy)
    {
      if !baseline.complete {
        return true;
      }
      if merged.None? && baseline.profile.Some? {
        if copy.Broken? {
          merged := copy.left;
          return false;
        }
        merged := baseline.profile;
      }
      ok := true;
    }

    /** `_merge_coverage_outputs_once`: the commit of the state file is the last step. */
    method MergeOnce(batches: seq<Option<Profile>>, fate: Fate) returns (ok: bool)
      modifies this
      ensures ok == Succeeds(old(merged), batches, fate)
      ensures ok <==> SomethingToMerge(old(merged), batches) && fate.failsAt == Nowhere && fate.outputSize > 64
      ensures ok ==> merged == Some(Profile(Total(old(merged), batches), fate.outputSize))
      ensures !ok ==> merged == old(merged)
      ensures published ==
        (if Publishes(old(merged), batches, fate) then Some(Total(old(merged), batches)) else old(published))
    {
      SucceedsMeaning(merged, batches, fate);
      var inputs := UsableRuns([merged] + batches);
      if fate.failsAt == Worker || inputs == [] {
        return false;
      }
      var output, _ := MergeProfiles(inputs, CHUNK_SIZE);
      var produced := Some(Profile(output, fate.outputSize));
      if !Usable(produced) || fate.failsAt == Artifacts {
        return false;
      }
      if fate.failsAt == CopyCandidate {
        candidate := fate.leftover;
        return false;
      }
      candidate := produced;
      if fate.failsAt == Publish {
        return false;
      }
      published := Some(output);
      if fate.failsAt == Commit {
        return false;
      }
      merged, candidate := candidate, None;
      ok := true;
    }

    /** `merge_coverage_outputs`: up to three attempts, and the candidate never stays behind. */
    method Merge(batches: seq<Option<Profile>>, fates: seq<Fate>) returns (ok: bool)
      requires |fates| == ATTEMPTS
      modifies this
      ensures ok == SomeSucceeds(old(merged), batches, fates)
      ensures ok <==>
        && SomethingToMerge(old(merged), batches)
        && exists k :: 0 <= k < 3 && fates[k].failsAt == Nowhere && fates[k].outputSize > 64
      ensures MergeEffect(old(merged), batches, ok, merged)
      ensures candidate == None
      ensures published == RootAfter(old(published), old(merged), batches, fates)
    {
      ok := false;
      for attempt := 0 to ATTEMPTS
        invariant !ok && merged == old(merged)
        invariant published == RootAfter(old(published), old(merged), batches, fates[..attempt])
        invariant forall k :: 0 <= k < attempt ==> !Succeeds(old(merged), batches, fates[k])
      {
        ok := MergeOnce(batches, fates[attempt]);
        PublishesNext(old(merged), batches, fates, attempt);
        if ok {
          candidate := None;
          return;
        }
      }
      assert fates[..ATTEMPTS] == fates;
      candidate := None;
    }

    /** One tick of one trial: bootstrap, then merge the batches measured from new inputs. */
    method MeasureTick(baseline: Baseline, tick: Tick) returns (ok: bool)
      requires tick.work.Measured? ==> |tick.work.fates| == ATTEMPTS
      modifies this
      ensures TickEffect(old(merged), baseline, tick, ok, merged)
    {
      ok := Bootstrap(baseline, tick.copy);
      if !ok {
        return;
      }
      match tick.work {
        case NoInputs => ok := false;
        case BatchFailed => ok := false;
        case Measured(batches, fates) => ok := Merge(batches, fates);
      }
    }
  }

  // ----- Whole runs ---------------------------------------------------------------------------------

  /** Consecutive states of `merged.profdata` over a run of ticks. */
  ghost predicate IsRun(states: seq<Option<Profile>>, baseline: Baseline, ticks: seq<Tick>, merges: seq<bool>) {
    && |states| == |ticks| + 1 == |merges| + 1
    && forall i :: 0 <= i < |ticks| ==> TickEffect(states[i], baseline, ticks[i], merges[i], states[i + 1])
  }

  function ProfileRuns(p: Option<Profile>): multiset<RunId> {
    if Usable(p) then p.value.runs else multiset{}
  }

  function BatchRuns(tick: Tick): multiset<RunId> {
    if tick.work.Measured? then Flat(UsableRuns(tick.work.batches)) else multiset{}
  }

  /** The usable batches of the ticks whose merge succeeded, each once. */
  function Merged(ticks: seq<Tick>, merges: seq<bool>): multiset<RunId>
    requires |ticks| == |merges|
  {
    if ticks == [] then multiset{}
    else
      var n := |ticks| - 1;
      Merged(ticks[..n], merges[..n]) + if merges[n] then BatchRuns(ticks[n]) else multiset{}
  }

  /** The file left by the first copy of the seed profile that leaves one. */
  function SeedLeft(baseline: Baseline, ticks: seq<Tick>): Option<Profile> {
    if ticks == [] || !Copyable(baseline) then None
    else
      var earlier := SeedLeft(baseline, ticks[..|ticks| - 1]);
      if earlier.Some? then earlier else CopyLeft(baseline, ticks[|ticks| - 1].copy)
  }

  lemma TotalSplits(merged: Option<Profile>, batches: seq<Option<Profile>>)
    ensures Total(merged, batches) == ProfileRuns(merged) + Flat(UsableRuns(batches))
  {
    var all := [merged] + batches;
    assert all[1..] == batches;
    if Usable(merged) {
      FlatConcat([merged.value.runs], UsableRuns(batches));
      assert Flat([merged.value.runs]) == merged.value.runs;
    } else {
      assert UsableRuns(all) == UsableRuns(batches);
    }
  }

  /** A tick adds its usable batches when its merge succeeds, and nothing otherwise. */
  lemma TickAdds(before: Option<Profile>, baseline: Baseline, tick: Tick, ok: bool, after: Option<Profile>)
    requires TickEffect(before, baseline, tick, ok, after)
    ensures ProfileRuns(after)
         == ProfileRuns(Bootstrapped(before, baseline, tick.copy)) + if ok then BatchRuns(tick) else multiset{}
  {
    if ok {
      TotalSplits(Bootstrapped(before, baseline, tick.copy), tick.work.batches);
    }
  }

  /** A fresh trial with a seed profile has a file exactly once some copy has left one. */
  lemma {:induction false} FileExistsOnceLeft(states: seq<Option<Profile>>, baseline: Baseline, ticks: seq<Tick>,
                                              merges: seq<bool>)
    requires IsRun(states, baseline, ticks, merges) && states[0].None? && Copyable(baseline)
    ensures states[|ticks|].None? <==> SeedLeft(baseline, ticks).None?
    decreases |ticks|
  {
    if ticks != [] {
      var n := |ticks| - 1;
      FileExistsOnceLeft(states[..n + 1], baseline, ticks[..n], merges[..n]);
      assert TickEffect(states[n], baseline, ticks[n], merges[n], states[n + 1]);
    }
  }

  /** One more tick of a run. */
  lemma RunAdds(first: Option<Profile>, before: Option<Profile>, after: Option<Profile>, baseline: Baseline,
                tick: Tick, ok: bool,
                seed: Option<Profile>, merged: multiset<RunId>)
    requires TickEffect(before, baseline, tick, ok, after)
    requires ProfileRuns(before) == ProfileRuns(if first.Some? then first else seed) + merged
    requires first.Some? ==> before.Some?
    requires first.None? && Copyable(baseline) ==> (before.None? <==> seed.None?)
    requires !Copyable(baseline) ==> seed.None?
    ensures first.Some? ==> after.Some?
    ensures var left := if !Copyable(baseline) || seed.Some? then seed else CopyLeft(baseline, tick.copy);
      var added := if ok then BatchRuns(tick) else multiset{};
      ProfileRuns(after) == ProfileRuns(if first.Some? then first else left) + (merged + added)
  {
    TickAdds(before, baseline, tick, ok, after);
    if before.None? {
      assert ProfileRuns(before) == multiset{};
      assert merged == multiset{} by {
        assert merged == ProfileRuns(if first.Some? then first else seed) + merged;
        assert forall r :: merged[r] == 0;
      }
    }
  }

  /**
    The main result: whatever fails on the way, the cumulative profile is what it began as (for a
    fresh trial, the first file a copy of the seed profile left) merged with the usable batches of
    every successfully merged tick, each exactly once.
   */
  lemma {:induction false} AccumulatesExactlyOnce(states: seq<Option<Profile>>, baseline: Baseline, ticks: seq<Tick>,
                                                  merges: seq<bool>)
    requires IsRun(states, baseline, ticks, merges)
    ensures ProfileRuns(states[|ticks|])
         == ProfileRuns(if states[0].Some? then states[0] else SeedLeft(baseline, ticks)) + Merged(ticks, merges)
    ensures states[0].Some? ==> states[|ticks|].Some?
    decreases |ticks|
  {
    if ticks != [] {
      var n := |ticks| - 1;
      var seed, before := SeedLeft(baseline, ticks[..n]), Merged(ticks[..n], merges[..n]);
      AccumulatesExactlyOnce(states[..n + 1], baseline, ticks[..n], merges[..n]);
      if states[0].None? && Copyable(baseline) {
        FileExistsOnceLeft(states[..n + 1], baseline, ticks[..n], merges[..n]);
      }
      assert TickEffect(states[n], baseline, ticks[n], merges[n], states[n + 1]);
      RunAdds(states[0], states[n], states[n + 1], baseline, ticks[n], merges[n], seed, before);
    }
  }

  /**
    The seed profile is part of a fresh trial's profile exactly when the first copy that left a
    file left the seed's own content; no later tick copies it again.
   */
  lemma SeedKeptExactlyWhen(states: seq<Option<Profile>>, baseline: Baseline, ticks: seq<Tick>, merges: seq<bool>)
    requires IsRun(states, baseline, ticks, merges) && states[0].None? && Copyable(baseline)
    ensures ProfileRuns(states[|ticks|]) == ProfileRuns(baseline.profile) + Merged(ticks, merges)
       <==> ProfileRuns(SeedLeft(baseline, ticks)) == ProfileRuns(baseline.profile)
  {
    AccumulatesExactlyOnce(states, baseline, ticks, merges);
    CancelSummand(ProfileRuns(SeedLeft(baseline, ticks)), ProfileRuns(baseline.profile), Merged(ticks, merges));
  }

  lemma {:induction false} WholeCopyLeavesSeed(baseline: Baseline, ticks: seq<Tick>)
    requires ticks != [] && forall i :: 0 <= i < |ticks| ==> ticks[i].copy.Whole?
    ensures SeedLeft(baseline, ticks) == if baseline.complete then baseline.profile else None
    decreases |ticks|
  {
    if |ticks| > 1 {
      WholeCopyLeavesSeed(baseline, ticks[..|ticks| - 1]);
    }
  }

  /** For a fresh trial whose seed copies do not break off: the seed profile and the merged batches. */
  lemma FreshTrialProfile(states: seq<Option<Profile>>, baseline: Baseline, ticks: seq<Tick>, merges: seq<bool>)
    requires IsRun(states, baseline, ticks, merges) && states[0].None? && ticks != []
    requires forall i :: 0 <= i < |ticks| ==> ticks[i].copy.Whole?
    ensures ProfileRuns(states[|ticks|])
         == (if baseline.complete then ProfileRuns(baseline.profile) else multiset{}) + Merged(ticks, merges)
  {
    AccumulatesExactlyOnce(states, baseline, ticks, merges);
    WholeCopyLeavesSeed(baseline, ticks);
  }

  lemma CancelSummand(a: multiset<RunId>, b: multiset<RunId>, c: multiset<RunId>)
    ensures a + c == b + c <==> a == b
  {
    assert (a + c) - c == a && (b + c) - c == b;
  }

  /** A copy that breaks off at an empty file loses the seed for good: the next tick merges without it. */
  lemma BrokenCopyLosesSeed()
    returns (states: seq<Option<Profile>>, baseline: Baseline, ticks: seq<Tick>, merges: seq<bool>)
    ensures IsRun(states, baseline, ticks, merges) && states[0] == None && |ticks| == 2
    ensures baseline == Baseline(true, Some(Profile(multiset{1}, 100)))
    ensures merges == [false, true] && ProfileRuns(states[2]) == multiset{7}
  {
    baseline := Baseline(true, Some(Profile(multiset{1}, 100)));
    var batches, fate := [Some(Profile(multiset{7}, 100))], Fate(Nowhere, None, 100);
    var stub := Some(Profile(multiset{}, 0));
    ticks := [Tick(Broken(stub), NoInputs), Tick(Whole, Measured(batches, [fate, fate, fate]))];
    merges := [false, true];
    states := [None, stub, Some(Profile(multiset{7}, 100))];
    TotalSplits(stub, batches);
    assert Succeeds(stub, batches, [fate, fate, fate][0]);
  }

  // ----- The published root --------------------------------------------------------------------------

  /**
    A merge that starts with the root showing the cumulative profile keeps the two in step exactly
    when it succeeds, or no attempt publishes, or there is nothing usable to add.
   */
  lemma RootInStepExactlyWhen(before: Option<Profile>, batches: seq<Option<Profile>>, fates: seq<Fate>, ok: bool,
                              after: Option<Profile>, root: Option<multiset<RunId>>)
    requires ok == SomeSucceeds(before, batches, fates) && MergeEffect(before, batches, ok, after)
    requires root == Some(ProfileRuns(before))
    ensures RootAfter(root, before, batches, fates) == Some(ProfileRuns(after))
       <==> ok || !SomePublishes(before, batches, fates) || Flat(UsableRuns(batches)) == multiset{}
  {
    TotalSplits(before, batches);
    var added, was := Flat(UsableRuns(batches)), ProfileRuns(before);
    CancelSummand(added, multiset{}, was);
    assert Total(before, batches) == added + was && multiset{} + was == was;
    if ok {
      var k :| 0 <= k < |fates| && Succeeds(before, batches, fates[k]);
      assert Publishes(before, batches, fates[k]);
    }
  }

  /** The first attempt publishes and fails at the commit, the others fail earlier: the root runs ahead. */
  lemma RootRunsAhead() returns (before: Option<Profile>, batches: seq<Option<Profile>>, fates: seq<Fate>)
    ensures |fates| == ATTEMPTS && !SomeSucceeds(before, batches, fates)
    ensures forall after :: MergeEffect(before, batches, false, after) ==> ProfileRuns(after) == multiset{1}
    ensures RootAfter(Some(multiset{1}), before, batches, fates) == Some(multiset{1, 7})
  {
    before, batches := Some(Profile(multiset{1}, 100)), [Some(Profile(multiset{7}, 100))];
    fates := [Fate(Commit, None, 100), Fate(Worker, None, 100), Fate(Worker, None, 100)];
    TotalSplits(before, batches);
    assert batches[1..] == [] && UsableRuns(batches) == [multiset{7}];
    assert Flat([multiset{7}]) == multiset{7} + Flat([multiset{7}][1..]);
    assert Total(before, batches) == multiset{1, 7};
    assert Publishes(before, batches, fates[0]);
  }
}
