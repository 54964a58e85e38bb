/**
  Comparison of per-trial sets (coverage elements or bugs) between labels (fuzzers).

  A trial whose set could not be loaded is `None`. The reports are computed from an
  ownership index built in one pass; this module proves that the index-driven counts are
  the plain set-algebra counts, and that the bound attached to each count is right for
  every possible content of the missing sets.
 */
module SetComparison {
  import opened Common

  type TrialSets = seq<Option<set<string>>>

  // ----- Set algebra over the trials of one label ---------------------------------

  function SetsOf(sets: map<string, TrialSets>, name: string): TrialSets {
    if name in sets then sets[name] else []
  }

  function Usable(trials: TrialSets): seq<set<string>> {
    if trials == [] then []
    else (if trials[0].Some? then [trials[0].value] else []) + Usable(trials[1..])
  }

  function Missing(trials: TrialSets): nat {
    if trials == [] then 0 else (if trials[0].None? then 1 else 0) + Missing(trials[1..])
  }

  /** In how many of the sets a value occurs. */
  function Occurrences(sets: seq<set<string>>, v: string): nat {
    if sets == [] then 0 else (if v in sets[0] then 1 else 0) + Occurrences(sets[1..], v)
  }

  ghost function Union(sets: seq<set<string>>): set<string> {
    if sets == [] then {} else sets[0] + Union(sets[1..])
  }

  /** Values of every set; empty when there is no set to speak of. */
  ghost function Intersection(sets: seq<set<string>>): set<string> {
    if sets == [] then {} else set v | v in sets[0] && forall i :: 0 <= i < |sets| ==> v in sets[i]
  }

  lemma {:induction false} OccurrencesMeaning(sets: seq<set<string>>, v: string)
    ensures Occurrences(sets, v) <= |sets|
    ensures Occurrences(sets, v) > 0 <==> v in Union(sets)
    ensures v in Union(sets) <==> exists i :: 0 <= i < |sets| && v in sets[i]
    ensures Occurrences(sets, v) == |sets| <==> forall i :: 0 <= i < |sets| ==> v in sets[i]
  {
    if sets != [] {
      OccurrencesMeaning(sets[1..], v);
      assert forall i :: 1 <= i < |sets| ==> sets[i] == sets[1..][i - 1];
      if v in Union(sets) && v !in sets[0] {
        var i :| 0 <= i < |sets[1..]| && v in sets[1..][i];
        assert v in sets[i + 1];
      }
      if Occurrences(sets, v) == |sets| {
        forall i | 0 <= i < |sets| ensures v in sets[i] {
          if i > 0 { assert v in sets[1..][i - 1]; }
        }
      }
    }
  }

  lemma {:induction false} UsableAndMissing(trials: TrialSets)
    ensures |Usable(trials)| + Missing(trials) == |trials|
  {
    if trials != [] { UsableAndMissing(trials[1..]); }
  }

  /** The values label `l` is known to have reached in some trial. */
  ghost function Seen(sets: map<string, TrialSets>, l: string): set<string> {
    Union(Usable(SetsOf(sets, l)))
  }

  /** The values label `l` is known to have reached in every usable trial. */
  ghost function Always(sets: map<string, TrialSets>, l: string): set<string> {
    Intersection(Usable(SetsOf(sets, l)))
  }

  /** The values reached by any label of the list other than `l`. */
  ghost function Elsewhere(labels: seq<string>, sets: map<string, TrialSets>, l: string): set<string> {
    if labels == [] then {}
    else (if labels[0] == l then {} else Seen(sets, labels[0])) + Elsewhere(labels[1..], sets, l)
  }

  lemma {:induction false} ElsewhereMeaning(labels: seq<string>, sets: map<string, TrialSets>, l: string, v: string)
    ensures v in Elsewhere(labels, sets, l) <==> exists c :: c in labels && c != l && v in Seen(sets, c)
  {
    if labels != [] {
      ElsewhereMeaning(labels[1..], sets, l, v);
      assert forall c :: c in labels <==> c == labels[0] || c in labels[1..];
    }
  }

  // ----- In terms of the trials as recorded ------------------------------------------------

  /** The usable sets are the recorded ones, each as often as it was recorded. */
  lemma {:induction false} UsableAreRecorded(trials: TrialSets, s: set<string>)
    ensures multiset(Usable(trials))[s] == multiset(trials)[Some(s)]
  {
    if trials != [] {
      UsableAreRecorded(trials[1..], s);
      assert trials == [trials[0]] + trials[1..];
      var front := if trials[0].Some? then [trials[0].value] else [];
      assert Usable(trials) == front + Usable(trials[1..]);
    }
  }

  /** The trials of a label; none for a label without an entry. */
  ghost predicate RecordedAs(sets: map<string, TrialSets>, l: string, trials: TrialSets) {
    if l in sets then sets[l] == trials else trials == []
  }

  /** Some recorded set holds the value. */
  ghost predicate ReachedBySome(trials: TrialSets, v: string) {
    exists i :: 0 <= i < |trials| && trials[i].Some? && v in trials[i].value
  }

  /** Some set is recorded, and every recorded set holds the value. */
  ghost predicate ReachedByAll(trials: TrialSets, v: string) {
    HasUsable(trials) && forall i :: 0 <= i < |trials| && trials[i].Some? ==> v in trials[i].value
  }

  ghost predicate HasUsable(trials: TrialSets) {
    exists i :: 0 <= i < |trials| && trials[i].Some?
  }

  ghost predicate HasGap(trials: TrialSets) {
    exists i :: 0 <= i < |trials| && trials[i].None?
  }

  lemma UsableMembers(trials: TrialSets, s: set<string>)
    ensures s in Usable(trials) <==> Some(s) in trials
  {
    UsableAreRecorded(trials, s);
    assert s in Usable(trials) <==> s in multiset(Usable(trials));
    assert Some(s) in trials <==> Some(s) in multiset(trials);
  }

  lemma {:induction false} GapsAreMissing(trials: TrialSets)
    ensures Missing(trials) > 0 <==> HasGap(trials)
  {
    if trials != [] {
      GapsAreMissing(trials[1..]);
      if i :| 0 <= i < |trials[1..]| && trials[1..][i].None? {
        assert trials[i + 1].None?;
      }
      if i :| 0 <= i < |trials| && trials[i].None? {
        assert i > 0 ==> trials[1..][i - 1].None?;
      }
    }
  }

  lemma SomeRecorded(trials: TrialSets, v: string)
    ensures v in Union(Usable(trials)) <==> ReachedBySome(trials, v)
  {
    var usable := Usable(trials);
    OccurrencesMeaning(usable, v);
    if k :| 0 <= k < |usable| && v in usable[k] {
      UsableMembers(trials, usable[k]);
      var i :| 0 <= i < |trials| && trials[i] == Some(usable[k]);
    }
    if i :| 0 <= i < |trials| && trials[i].Some? && v in trials[i].value {
      UsableMembers(trials, trials[i].value);
      var k :| 0 <= k < |usable| && usable[k] == trials[i].value;
    }
  }

  lemma UsableRecorded(trials: TrialSets)
    ensures |Usable(trials)| > 0 <==> HasUsable(trials)
  {
    if Usable(trials) != [] {
      UsableMembers(trials, Usable(trials)[0]);
      assert Usable(trials)[0] in Usable(trials);
      var i :| 0 <= i < |trials| && trials[i] == Some(Usable(trials)[0]);
    }
    if i :| 0 <= i < |trials| && trials[i].Some? {
      UsableMembers(trials, trials[i].value);
    }
  }

  lemma AllRecorded(trials: TrialSets, v: string)
    ensures v in Intersection(Usable(trials)) <==> ReachedByAll(trials, v)
  {
    var usable := Usable(trials);
    UsableRecorded(trials);
    if v in Intersection(usable) {
      forall i | 0 <= i < |trials| && trials[i].Some? ensures v in trials[i].value {
        UsableMembers(trials, trials[i].value);
        var k :| 0 <= k < |usable| && usable[k] == trials[i].value;
      }
    }
    if ReachedByAll(trials, v) {
      forall k | 0 <= k < |usable| ensures v in usable[k] {
        UsableMembers(trials, usable[k]);
        var i :| 0 <= i < |trials| && trials[i] == Some(usable[k]);
      }
    }
  }

  /** What is known of a label, in terms of its recorded trials. */
  lemma RecordedMeaning(sets: map<string, TrialSets>, l: string, trials: TrialSets, v: string)
    requires RecordedAs(sets, l, trials)
    ensures v in Seen(sets, l) <==> ReachedBySome(trials, v)
    ensures v in Always(sets, l) <==> ReachedByAll(trials, v)
    ensures |Usable(SetsOf(sets, l))| > 0 <==> HasUsable(trials)
    ensures Missing(SetsOf(sets, l)) > 0 <==> HasGap(trials)
  {
    SomeRecorded(trials, v);
    AllRecorded(trials, v);
    UsableRecorded(trials);
    GapsAreMissing(trials);
  }

  // ----- The ownership index --------------------------------------------------------

  datatype TrialSetIndex = TrialSetIndex(
    owners: map<string, map<string, nat>>,
    reps: map<string, nat>,
    sampleSizes: seq<nat>,
    usableSampleSizes: seq<nat>,
    missingByLabel: map<string, nat>,
    trialsByLabel: map<string, seq<set<string>>>,
    unions: map<string, set<string>>)

  /** The owner row of one value: the labels that reached it, with their trial counts. */
  ghost predicate OwnerRow(row: map<string, nat>, labels: seq<string>, sets: map<string, TrialSets>, v: string) {
    && (forall l :: l in row <==> l in labels && v in Seen(sets, l))
    && (forall l :: l in row ==> row[l] == Occurrences(Usable(SetsOf(sets, l)), v))
  }

  ghost predicate Owners(owners: map<string, map<string, nat>>, labels: seq<string>, sets: map<string, TrialSets>) {
    && (forall v :: v in owners <==> exists l :: l in labels && v in Seen(sets, l))
    && (forall v :: v in owners ==> OwnerRow(owners[v], labels, sets, v))
  }

  /** The entries of one label in the per-label tables. */
  ghost predicate TableEntry(index: TrialSetIndex, sets: map<string, TrialSets>, l: string) {
    && l in index.reps && index.reps[l] == |Usable(SetsOf(sets, l))|
    && l in index.missingByLabel && index.missingByLabel[l] == Missing(SetsOf(sets, l))
    && l in index.trialsByLabel && index.trialsByLabel[l] == Usable(SetsOf(sets, l))
    && l in index.unions && index.unions[l] == Seen(sets, l)
  }

  ghost predicate Sizes(index: TrialSetIndex, labels: seq<string>, sets: map<string, TrialSets>) {
    && |index.sampleSizes| == |index.usableSampleSizes| == |labels|
    && (forall i :: 0 <= i < |labels| ==> index.sampleSizes[i] == |SetsOf(sets, labels[i])|)
    && (forall i :: 0 <= i < |labels| ==> index.usableSampleSizes[i] == |Usable(SetsOf(sets, labels[i]))|)
  }

  ghost predicate IsIndexOf(index: TrialSetIndex, labels: seq<string>, sets: map<string, TrialSets>) {
    && Owners(index.owners, labels, sets)
    && Sizes(index, labels, sets)
    && (forall l :: l in labels ==> TableEntry(index, sets, l))
  }

  /** Counts in how many trials each value occurs. */
  method CountOwners(usable: seq<set<string>>) returns (count: map<string, nat>)
    ensures count.Keys == Union(usable)
    ensures forall v :: v in count ==> count[v] == Occurrences(usable, v)
  {
    count := map[];
    assert usable[..0] == [];
    for i := 0 to |usable|
      invariant forall v :: Occurrences(usable[..i], v) == if v in count then count[v] else 0
      invariant forall v :: v in count ==> count[v] > 0
    {
      var rest := usable[i];
      ghost var before := count;
      while rest != {}
        invariant rest <= usable[i]
        invariant forall v :: v in count <==> v in before || v in usable[i] - rest
        invariant forall v :: v in count ==>
          count[v] == (if v in before then before[v] else 0) + (if v in usable[i] - rest then 1 else 0)
        decreases rest
      {
        var v :| v in rest;
        count := count[v := (if v in count then count[v] else 0) + 1];
        rest := rest - {v};
      }
      forall v
        ensures Occurrences(usable[..i + 1], v) == Occurrences(usable[..i], v) + if v in usable[i] then 1 else 0
      {
        OccurrencesSnoc(usable[..i], usable[i], v);
        assert usable[..i + 1] == usable[..i] + [usable[i]];
      }
    }
    assert usable[..|usable|] == usable;
    forall v ensures v in count <==> v in Union(usable) { OccurrencesMeaning(usable, v); }
  }

  lemma {:induction false} OccurrencesSnoc(sets: seq<set<string>>, s: set<string>, v: string)
    ensures Occurrences(sets + [s], v) == Occurrences(sets, v) + if v in s then 1 else 0
  {
    if sets == [] {
      assert Occurrences([s], v) == (if v in s then 1 else 0) + Occurrences([], v);
    } else {
      assert (sets + [s])[1..] == sets[1..] + [s];
      OccurrencesSnoc(sets[1..], s, v);
    }
  }

  /** The row of a value after label `l` was recorded with its count. */
  function WithOwner(owners: map<string, map<string, nat>>, v: string, l: string, n: nat): map<string, nat> {
    (if v in owners then owners[v] else map[])[l := n]
  }

  /** Enters the label's count in the row of each of its values. */
  method RecordOwners(owners: map<string, map<string, nat>>, l: string, count: map<string, nat>)
    returns (after: map<string, map<string, nat>>)
    ensures after.Keys == owners.Keys + count.Keys
    ensures forall v :: v in after ==> after[v] == if v in count then WithOwner(owners, v, l, count[v]) else owners[v]
  {
    after := owners;
    var rest := count.Keys;
    while rest != {}
      invariant rest <= count.Keys
      invariant after.Keys == owners.Keys + (count.Keys - rest)
      invariant forall v :: v in after ==>
        after[v] == if v in count.Keys - rest then WithOwner(owners, v, l, count[v]) else owners[v]
      decreases rest
    {
      var v :| v in rest;
      after := after[v := WithOwner(after, v, l, count[v])];
      rest := rest - {v};
    }
  }

  /** The body of the loop over the labels. */
  method IndexLabel(index: TrialSetIndex, ghost labels: seq<string>, name: string, sets: map<string, TrialSets>)
    returns (next: TrialSetIndex)
    requires IsIndexOf(index, labels, sets)
    ensures IsIndexOf(next, labels + [name], sets)
  {
    var trialSets := SetsOf(sets, name);
    var usable := Usable(trialSets);
    UsableAndMissing(trialSets);
    var count := CountOwners(usable);
    var owners := RecordOwners(index.owners, name, count);
    OwnersExtend(index.owners, owners, labels, name, sets, count);
    next := TrialSetIndex(
      owners,
      index.reps[name := |usable|],
      index.sampleSizes + [|trialSets|],
      index.usableSampleSizes + [|usable|],
      index.missingByLabel[name := |trialSets| - |usable|],
      index.trialsByLabel[name := usable],
      index.unions[name := count.Keys]);
    forall l | l in labels + [name] ensures TableEntry(next, sets, l) {
      assert l == name || TableEntry(index, sets, l);
    }
  }

  method BuildIndex(labels: seq<string>, sets: map<string, TrialSets>) returns (index: TrialSetIndex)
    ensures IsIndexOf(index, labels, sets)
  {
    index := TrialSetIndex(map[], map[], [], [], map[], map[], map[]);
    for i := 0 to |labels|
      invariant IsIndexOf(index, labels[..i], sets)
    {
      index := IndexLabel(index, labels[..i], labels[i], sets);
      assert labels[..i] + [labels[i]] == labels[..i + 1];
    }
    assert labels[..|labels|] == labels;
  }

  /** One more label turns the ownership of a prefix into that of the longer prefix. */
  lemma OwnersExtend(before: map<string, map<string, nat>>, after: map<string, map<string, nat>>,
                     labels: seq<string>, l: string, sets: map<string, TrialSets>, count: map<string, nat>)
    requires Owners(before, labels, sets)
    requires count.Keys == Seen(sets, l)
    requires forall v :: v in count ==> count[v] == Occurrences(Usable(SetsOf(sets, l)), v)
    requires after.Keys == before.Keys + count.Keys
    requires forall v :: v in after ==> after[v] == if v in count then WithOwner(before, v, l, count[v]) else before[v]
    ensures Owners(after, labels + [l], sets)
  {
    forall v ensures v in after <==> exists c :: c in labels + [l] && v in Seen(sets, c) {
      OwnerKeyExtend(before, labels, l, sets, v);
    }
    forall v | v in after ensures OwnerRow(after[v], labels + [l], sets, v) {
      OwnerRowExtend(before, labels, l, sets, v);
    }
  }

  lemma OwnerKeyExtend(before: map<string, map<string, nat>>, labels: seq<string>, l: string,
                       sets: map<string, TrialSets>, v: string)
    requires Owners(before, labels, sets)
    ensures v in before || v in Seen(sets, l) <==> exists c :: c in labels + [l] && v in Seen(sets, c)
  {
    if v in before {
      var c :| c in labels && v in Seen(sets, c);
      assert c in labels + [l];
    }
    if v in Seen(sets, l) { assert l in labels + [l]; }
    if c :| c in labels + [l] && v in Seen(sets, c) {
      assert c == l || c in labels;
    }
  }

  lemma OwnerRowExtend(before: map<string, map<string, nat>>, labels: seq<string>, l: string,
                       sets: map<string, TrialSets>, v: string)
    requires Owners(before, labels, sets)
    ensures v in Seen(sets, l) ==>
      OwnerRow(WithOwner(before, v, l, Occurrences(Usable(SetsOf(sets, l)), v)), labels + [l], sets, v)
    ensures v !in Seen(sets, l) && v in before ==> OwnerRow(before[v], labels + [l], sets, v)
  {
    assert forall c :: c in labels + [l] <==> c in labels || c == l;
    if v !in before { assert forall c :: c in labels ==> v !in Seen(sets, c); }
  }
}
