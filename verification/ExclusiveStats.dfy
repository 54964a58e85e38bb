/**
  Per-label exclusive statistics: the union of all other labels is taken from running prefix
  and suffix unions, and each trial is counted against it.
 */
module ExclusiveStats {
  import opened Common
  import opened SetComparison
  import opened TrialSetCounts

  ghost function SeenByAny(labels: seq<string>, sets: map<string, TrialSets>): set<string> {
    if labels == [] then {} else Seen(sets, labels[0]) + SeenByAny(labels[1..], sets)
  }

  lemma {:induction false} SeenByAnyMeaning(labels: seq<string>, sets: map<string, TrialSets>, v: string)
    ensures v in SeenByAny(labels, sets) <==> exists l :: l in labels && v in Seen(sets, l)
  {
    if labels != [] {
      SeenByAnyMeaning(labels[1..], sets, v);
      assert forall l :: l in labels <==> l == labels[0] || l in labels[1..];
    }
  }

  /** Around position `i`, prefix and suffix together are exactly the other labels. */
  lemma PrefixSuffixIsElsewhere(labels: seq<string>, sets: map<string, TrialSets>, i: nat)
    requires Distinct(labels) && i < |labels|
    ensures SeenByAny(labels[..i], sets) + SeenByAny(labels[i + 1..], sets) == Elsewhere(labels, sets, labels[i])
  {
    forall v ensures v in SeenByAny(labels[..i], sets) + SeenByAny(labels[i + 1..], sets)
                <==> v in Elsewhere(labels, sets, labels[i])
    {
      SeenByAnyMeaning(labels[..i], sets, v);
      SeenByAnyMeaning(labels[i + 1..], sets, v);
      ElsewhereMeaning(labels, sets, labels[i], v);
      OthersAround(labels, i);
    }
  }

  lemma OthersAround(labels: seq<string>, i: nat)
    requires Distinct(labels) && i < |labels|
    ensures forall l :: l in labels && l != labels[i] <==> l in labels[..i] || l in labels[i + 1..]
  {
    assert labels == labels[..i] + [labels[i]] + labels[i + 1..];
    forall l | l in labels[..i] || l in labels[i + 1..] ensures l != labels[i] {
      if l in labels[..i] {
        var k :| 0 <= k < i && labels[k] == l;
      } else {
        var k :| 0 <= k < |labels| - i - 1 && labels[i + 1..][k] == l;
        assert labels[i + 1 + k] == l;
      }
    }
  }

  lemma {:induction false} SeenByAnySnoc(labels: seq<string>, sets: map<string, TrialSets>, l: string)
    ensures SeenByAny(labels + [l], sets) == SeenByAny(labels, sets) + Seen(sets, l)
  {
    forall v ensures v in SeenByAny(labels + [l], sets) <==> v in SeenByAny(labels, sets) + Seen(sets, l) {
      SeenByAnyMeaning(labels + [l], sets, v);
      SeenByAnyMeaning(labels, sets, v);
    }
  }

  /** The union of the usable sets of one fuzzer. */
  method UnionOf(usable: seq<set<string>>) returns (union: set<string>)
    ensures union == Union(usable)
  {
    union := {};
    for i := |usable| downto 0
      invariant union == Union(usable[i..])
    {
      union := usable[i] + union;
      assert usable[i..] == [usable[i]] + usable[i + 1..];
    }
  }

  /** The first loop: the union of everything before each position, and of everything. */
  method Prefixes(fuzzers: seq<string>, sets: map<string, TrialSets>)
    returns (prefixes: seq<set<string>>, all: set<string>)
    ensures |prefixes| == |fuzzers|
    ensures forall i :: 0 <= i < |fuzzers| ==> prefixes[i] == SeenByAny(fuzzers[..i], sets)
    ensures all == SeenByAny(fuzzers, sets)
  {
    prefixes, all := [], {};
    for i := 0 to |fuzzers|
      invariant |prefixes| == i && all == SeenByAny(fuzzers[..i], sets)
      invariant forall k :: 0 <= k < i ==> prefixes[k] == SeenByAny(fuzzers[..k], sets)
    {
      prefixes := prefixes + [all];
      var union := UnionOf(Usable(SetsOf(sets, fuzzers[i])));
      SeenByAnySnoc(fuzzers[..i], sets, fuzzers[i]);
      assert fuzzers[..i + 1] == fuzzers[..i] + [fuzzers[i]];
      all := all + union;
    }
    assert fuzzers[..|fuzzers|] == fuzzers;
  }

  /** Both loops: for every fuzzer, the union over all the others. */
  method OtherUnions(fuzzers: seq<string>, sets: map<string, TrialSets>) returns (others: map<string, set<string>>)
    requires Distinct(fuzzers)
    ensures forall i :: 0 <= i < |fuzzers| ==>
      fuzzers[i] in others && others[fuzzers[i]] == Elsewhere(fuzzers, sets, fuzzers[i])
  {
    var prefixes, all := Prefixes(fuzzers, sets);
    others := map[];
    var suffix := {};
    for i := |fuzzers| downto 0
      invariant suffix == SeenByAny(fuzzers[i..], sets)
      invariant forall k :: i <= k < |fuzzers| ==>
        fuzzers[k] in others && others[fuzzers[k]] == Elsewhere(fuzzers, sets, fuzzers[k])
    {
      PrefixSuffixIsElsewhere(fuzzers, sets, i);
      others := others[fuzzers[i] := prefixes[i] + suffix];
      assert fuzzers[i..] == [fuzzers[i]] + fuzzers[i + 1..];
      var union := UnionOf(Usable(SetsOf(sets, fuzzers[i])));
      suffix := union + suffix;
    }
  }

  /** The per-trial exclusive counts, with their extremes. */
  method TrialExtremes(usable: seq<set<string>>, others: set<string>) returns (min: Option<nat>, max: Option<nat>)
    ensures usable == [] <==> min.None?
    ensures min.None? <==> max.None?
    ensures min.Some? ==>
      && (exists i :: 0 <= i < |usable| && |usable[i] - others| == min.value)
      && (exists i :: 0 <= i < |usable| && |usable[i] - others| == max.value)
      && (forall i :: 0 <= i < |usable| ==> min.value <= |usable[i] - others| <= max.value)
  {
    min, max := None, None;
    for i := 0 to |usable|
      invariant min.None? <==> i == 0
      invariant max.None? <==> i == 0
      invariant i > 0 ==> exists k :: 0 <= k < i && |usable[k] - others| == min.value
      invariant i > 0 ==> exists k :: 0 <= k < i && |usable[k] - others| == max.value
      invariant i > 0 ==> forall k :: 0 <= k < i ==> min.value <= |usable[k] - others| <= max.value
    {
      var count := |usable[i] - others|;
      min := if min.None? || count < min.value then Some(count) else min;
      max := if max.None? || count > max.value then Some(count) else max;
    }
  }

  /**
    The two computations agree in order: what every trial found alone is at most what the
    leanest trial found alone, and what the richest found alone is at most what some trial did,
    also when other labels are represented by their aggregates.
   */
  lemma ExclusiveSandwich(c: Comparison, labels: seq<string>, sets: map<string, TrialSets>, strictUnknown: set<string>,
                          i: nat, min: nat, max: nat)
    requires ExclusiveReported(c, labels, sets, strictUnknown) && i < |labels|
    requires var usable, others := Usable(SetsOf(sets, labels[i])), Elsewhere(labels, sets, labels[i]);
      && (exists k :: 0 <= k < |usable| && |usable[k] - others| == min)
      && (exists k :: 0 <= k < |usable| && |usable[k] - others| == max)
      && (forall k :: 0 <= k < |usable| ==> min <= |usable[k] - others| <= max)
    ensures min <= max
    ensures c.exclusiveAny[i].count.Some? && max <= c.exclusiveAny[i].count.value
    ensures c.exclusiveAll[i].count.Some? ==> c.exclusiveAll[i].count.value <= min
  {
    var usable, others := Usable(SetsOf(sets, labels[i])), Elsewhere(labels, sets, labels[i]);
    assert SoleReported(c.exclusiveAny[i], c.exclusiveAll[i], labels, sets, strictUnknown, labels[i]);
    forall k | 0 <= k < |usable|
      ensures |Intersection(usable) - others| <= |usable[k] - others| <= |Union(usable) - others|
    {
      TrialBetween(usable, others, k);
    }
  }

  lemma TrialBetween(usable: seq<set<string>>, others: set<string>, k: nat)
    requires k < |usable|
    ensures |Intersection(usable) - others| <= |usable[k] - others| <= |Union(usable) - others|
  {
    forall v | v in usable[k] ensures v in Union(usable) { OccurrencesMeaning(usable, v); }
    SubsetCardinality(Intersection(usable) - others, usable[k] - others);
    SubsetCardinality(usable[k] - others, Union(usable) - others);
  }

  /** With a single repetition all four exclusive figures coincide. */
  lemma SingleTrialCollapses(c: Comparison, labels: seq<string>, sets: map<string, TrialSets>, i: nat)
    requires ExclusiveReported(c, labels, sets, {}) && i < |labels|
    requires |SetsOf(sets, labels[i])| == 1 && SetsOf(sets, labels[i])[0].Some?
    ensures c.exclusiveAny[i].count == c.exclusiveAll[i].count
         == Some(|SetsOf(sets, labels[i])[0].value - Elsewhere(labels, sets, labels[i])|)
  {
    var trials := SetsOf(sets, labels[i]);
    assert SoleReported(c.exclusiveAny[i], c.exclusiveAll[i], labels, sets, {}, labels[i]);
    assert Usable(trials[1..]) == [] && Missing(trials[1..]) == 0;
    assert Usable(trials) == [trials[0].value];
    assert Union(Usable(trials)) == trials[0].value + Union([]);
    assert Intersection(Usable(trials)) == trials[0].value;
  }
}
