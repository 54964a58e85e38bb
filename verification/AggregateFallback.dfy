/**
  A label without any usable trial set is represented by its aggregate set, as if that were its
  one trial. The comparison then withholds the all-trials counts of such labels.
 */
module AggregateFallback {
  import opened Common
  import opened SetComparison
  import opened TrialSetCounts
  import opened TrialSetReport

  predicate Replaced(trials: map<string, TrialSets>, aggregates: map<string, set<string>>, l: string) {
    Usable(SetsOf(trials, l)) == [] && l in aggregates
  }

  function MergedSets(trials: map<string, TrialSets>, aggregates: map<string, set<string>>, l: string): TrialSets {
    if Replaced(trials, aggregates, l) then [Some(aggregates[l])] else SetsOf(trials, l)
  }

  /** A label keeps its trials when one is usable or it has no aggregate, and else gets the aggregate alone. */
  ghost predicate Represents(before: TrialSets, aggregates: map<string, set<string>>, l: string, after: TrialSets,
                             replaced: bool)
  {
    if (exists i :: 0 <= i < |before| && before[i].Some?) || l !in aggregates
    then after == before && !replaced
    else after == [Some(aggregates[l])] && replaced
  }

  lemma MergedRepresents(trials: map<string, TrialSets>, aggregates: map<string, set<string>>, l: string)
    ensures Represents(SetsOf(trials, l), aggregates, l, MergedSets(trials, aggregates, l),
                       Replaced(trials, aggregates, l))
    ensures l in aggregates ==> HasUsable(MergedSets(trials, aggregates, l))
  {
    UsableRecorded(SetsOf(trials, l));
    if Replaced(trials, aggregates, l) {
      assert MergedSets(trials, aggregates, l)[0].Some?;
    }
  }

  /** The loop of `with_aggregate_trial_fallback` for one metric. */
  method WithFallback(labels: seq<string>, trials: map<string, TrialSets>, aggregates: map<string, set<string>>)
    returns (merged: map<string, TrialSets>, fallback: set<string>)
    ensures forall l :: l in labels ==> SetsOf(merged, l) == MergedSets(trials, aggregates, l)
    ensures forall l :: l !in labels ==> SetsOf(merged, l) == SetsOf(trials, l)
    ensures forall l :: l in fallback <==> l in labels && Replaced(trials, aggregates, l)
    ensures forall l :: l in labels ==>
      Represents(SetsOf(trials, l), aggregates, l, SetsOf(merged, l), l in fallback)
    ensures forall l :: l in labels && l in aggregates ==> HasUsable(SetsOf(merged, l))
  {
    merged, fallback := trials, {};
    for i := 0 to |labels|
      invariant forall l ::
        SetsOf(merged, l) == (if l in labels[..i] then MergedSets(trials, aggregates, l) else SetsOf(trials, l))
      invariant forall l :: l in fallback <==> l in labels[..i] && Replaced(trials, aggregates, l)
    {
      var l := labels[i];
      assert labels[..i + 1] == labels[..i] + [l];
      UsableOfOne(aggregates, l);
      if Usable(SetsOf(merged, l)) == [] && l in aggregates {
        merged, fallback := merged[l := [Some(aggregates[l])]], fallback + {l};
      }
    }
    assert labels[..|labels|] == labels;
    forall l | l in labels
      ensures Represents(SetsOf(trials, l), aggregates, l, SetsOf(merged, l), l in fallback)
      ensures l in aggregates ==> HasUsable(SetsOf(merged, l))
    {
      MergedRepresents(trials, aggregates, l);
    }
  }

  lemma UsableOfOne(aggregates: map<string, set<string>>, l: string)
    ensures l in aggregates ==> Usable([Some(aggregates[l])]) == [aggregates[l]]
  {
    assert l in aggregates ==> [Some(aggregates[l])][1..] == [];
  }

  /**
    The complete data fill the gaps of every label that keeps its trials. What the trials of a
    replaced label would have shown is left open; there may be no entry for them at all.
   */
  ghost predicate CompletesKept(labels: seq<string>, trials: map<string, TrialSets>,
                                aggregates: map<string, set<string>>,
                                full: map<string, TrialSets>)
  {
    forall l :: l in labels && !Replaced(trials, aggregates, l) ==> Completes(SetsOf(trials, l), SetsOf(full, l))
  }

  /** The aggregates are the unions of what the trials really reached. */
  ghost predicate Truthful(labels: seq<string>, trials: map<string, TrialSets>, aggregates: map<string, set<string>>,
                           full: map<string, TrialSets>)
  {
    forall l :: l in labels && Replaced(trials, aggregates, l) ==> aggregates[l] == Seen(full, l)
  }

  /** The complete data as the comparison sees them. */
  ghost function Condensed(labels: seq<string>, trials: map<string, TrialSets>, aggregates: map<string, set<string>>,
                           full: map<string, TrialSets>): map<string, TrialSets>
  {
    map l | l in labels :: if Replaced(trials, aggregates, l) then [Some(aggregates[l])] else SetsOf(full, l)
  }

  lemma CondensedSeen(labels: seq<string>, trials: map<string, TrialSets>, aggregates: map<string, set<string>>,
                      full: map<string, TrialSets>, l: string)
    requires l in labels && Truthful(labels, trials, aggregates, full)
    ensures Seen(Condensed(labels, trials, aggregates, full), l) == Seen(full, l)
    ensures !Replaced(trials, aggregates, l) ==>
      Always(Condensed(labels, trials, aggregates, full), l) == Always(full, l)
  {
    UsableOfOne(aggregates, l);
    if Replaced(trials, aggregates, l) {
      assert Union([aggregates[l]]) == aggregates[l] + Union([]);
    }
  }

  lemma CondensedElsewhere(labels: seq<string>, trials: map<string, TrialSets>, aggregates: map<string, set<string>>,
                           full: map<string, TrialSets>, r: string)
    requires Truthful(labels, trials, aggregates, full)
    ensures Elsewhere(labels, Condensed(labels, trials, aggregates, full), r) == Elsewhere(labels, full, r)
  {
    var condensed := Condensed(labels, trials, aggregates, full);
    forall l | l in labels ensures Seen(condensed, l) == Seen(full, l) {
      CondensedSeen(labels, trials, aggregates, full, l);
    }
    forall v ensures v in Elsewhere(labels, condensed, r) <==> v in Elsewhere(labels, full, r) {
      ElsewhereMeaning(labels, condensed, r, v);
      ElsewhereMeaning(labels, full, r, v);
    }
  }

  lemma CondensedCompletes(labels: seq<string>, trials: map<string, TrialSets>, aggregates: map<string, set<string>>,
                           merged: map<string, TrialSets>, full: map<string, TrialSets>)
    requires CompletesKept(labels, trials, aggregates, full)
    requires forall l :: l in labels ==> SetsOf(merged, l) == MergedSets(trials, aggregates, l)
    ensures Completion(labels, merged, Condensed(labels, trials, aggregates, full))
  {
    var condensed := Condensed(labels, trials, aggregates, full);
    forall l | l in labels ensures Completes(SetsOf(merged, l), SetsOf(condensed, l)) {
      assert !Replaced(trials, aggregates, l) ==> Completes(SetsOf(trials, l), SetsOf(full, l));
    }
  }

  /**
    With truthful aggregates the fallback keeps every pairwise bound right: for each way the
    missing trial sets could have turned out, and whatever trials stand behind an aggregate, the
    cells bound the counts over those sets.
   */
  lemma FallbackPairwiseSound(c: Comparison, labels: seq<string>, trials: map<string, TrialSets>,
                              aggregates: map<string, set<string>>, merged: map<string, TrialSets>,
                              fallback: set<string>,
                              full: map<string, TrialSets>, i: nat, j: nat)
    requires forall l :: l in labels ==> SetsOf(merged, l) == MergedSets(trials, aggregates, l)
    requires forall l :: l in fallback <==> l in labels && Replaced(trials, aggregates, l)
    requires PairwiseReported(c, labels, merged, fallback) && i < |labels| && j < |labels|
    requires CompletesKept(labels, trials, aggregates, full) && Truthful(labels, trials, aggregates, full)
    ensures Sound(c.pairwiseAny[i][j], |AnyDifference(full, labels[i], labels[j])|)
    ensures Sound(c.pairwiseAll[i][j], |AllDifference(full, labels[i], labels[j])|)
  {
    var condensed := Condensed(labels, trials, aggregates, full);
    CondensedCompletes(labels, trials, aggregates, merged, full);
    PairwiseBoundsSound(c, labels, merged, fallback, condensed, i, j);
    CondensedSeen(labels, trials, aggregates, full, labels[i]);
    CondensedSeen(labels, trials, aggregates, full, labels[j]);
    assert RowReported(c.pairwiseAny[i], c.pairwiseAll[i], labels, merged, fallback, labels[i]);
    assert PairReported(c.pairwiseAny[i][j], c.pairwiseAll[i][j], merged, fallback, labels[i], labels[j]);
  }

  /** The same for the exclusive counts. */
  lemma FallbackExclusiveSound(c: Comparison, labels: seq<string>, trials: map<string, TrialSets>,
                               aggregates: map<string, set<string>>, merged: map<string, TrialSets>,
                               fallback: set<string>,
                               full: map<string, TrialSets>, i: nat)
    requires forall l :: l in labels ==> SetsOf(merged, l) == MergedSets(trials, aggregates, l)
    requires forall l :: l in fallback <==> l in labels && Replaced(trials, aggregates, l)
    requires ExclusiveReported(c, labels, merged, fallback) && i < |labels|
    requires CompletesKept(labels, trials, aggregates, full) && Truthful(labels, trials, aggregates, full)
    ensures Sound(c.exclusiveAny[i], |AnyExclusive(labels, full, labels[i])|)
    ensures Sound(c.exclusiveAll[i], |AllExclusive(labels, full, labels[i])|)
  {
    var condensed := Condensed(labels, trials, aggregates, full);
    CondensedCompletes(labels, trials, aggregates, merged, full);
    ExclusiveBoundsSound(c, labels, merged, fallback, condensed, i);
    CondensedSeen(labels, trials, aggregates, full, labels[i]);
    CondensedElsewhere(labels, trials, aggregates, full, labels[i]);
    assert SoleReported(c.exclusiveAny[i], c.exclusiveAll[i], labels, merged, fallback, labels[i]);
  }

  /** Also labels without any trial entry have complete data to speak of: say, the aggregate as a single trial. */
  lemma NoEntriesAreCovered(labels: seq<string>, aggregates: map<string, set<string>>)
    requires forall l :: l in labels ==> l in aggregates
    ensures exists full :: CompletesKept(labels, map[], aggregates, full) && Truthful(labels, map[], aggregates, full)
  {
    var full: map<string, TrialSets> := map l | l in aggregates :: [Some(aggregates[l])];
    forall l | l in labels ensures Replaced(map[], aggregates, l) && aggregates[l] == Seen(full, l) {
      UsableOfOne(aggregates, l);
      assert Union([aggregates[l]]) == aggregates[l] + Union([]);
    }
    assert CompletesKept(labels, map[], aggregates, full) && Truthful(labels, map[], aggregates, full);
  }
}
