/**
  The bound labels cannot be sharpened: a direction is claimed exactly when every way of filling
  the missing trial sets respects it.
 */
module TrialSetTightness {
  import opened Common
  import opened SetComparison
  import opened TrialSetCounts
  import opened TrialSetReport

  // ----- Completions that fill the gaps of one label --------------------------------------

  function Fill(trials: TrialSets, filler: set<string>): TrialSets {
    if trials == [] then []
    else [if trials[0].None? then Some(filler) else trials[0]] + Fill(trials[1..], filler)
  }

  lemma {:induction false} FillCompletes(trials: TrialSets, filler: set<string>)
    ensures Completes(trials, Fill(trials, filler))
    ensures Union(Usable(Fill(trials, filler))) == Union(Usable(trials)) + if Missing(trials) > 0 then filler else {}
  {
    if trials != [] {
      FillCompletes(trials[1..], filler);
      var full := Fill(trials, filler);
      assert full[1..] == Fill(trials[1..], filler);
      assert forall i :: 1 <= i < |trials| ==> trials[i] == trials[1..][i - 1] && full[i] == full[1..][i - 1];
      assert Usable(full) == [full[0].value] + Usable(full[1..]);
      assert Union(Usable(full)) == full[0].value + Union(Usable(full[1..]));
      assert trials[0].None? ==> Usable(trials) == Usable(trials[1..]);
      assert trials[0].Some? ==> Usable(trials) == [trials[0].value] + Usable(trials[1..]);
    }
  }

  /** The completion that puts `filler` into the gaps of `l` and nothing into the others. */
  ghost function FillOne(labels: seq<string>, sets: map<string, TrialSets>, l: string,
                         filler: set<string>): map<string, TrialSets>
  {
    map c | c in labels :: Fill(SetsOf(sets, c), if c == l then filler else {})
  }

  lemma FillOneSeen(labels: seq<string>, sets: map<string, TrialSets>, l: string, filler: set<string>, c: string)
    requires c in labels
    ensures Completion(labels, sets, FillOne(labels, sets, l, filler))
    ensures Seen(FillOne(labels, sets, l, filler), c)
         == Seen(sets, c) + if c == l && Partial(sets, c) then filler else {}
  {
    var full := FillOne(labels, sets, l, filler);
    forall d | d in labels ensures Completes(SetsOf(sets, d), SetsOf(full, d)) {
      FillCompletes(SetsOf(sets, d), if d == l then filler else {});
    }
    FillCompletes(SetsOf(sets, c), if c == l then filler else {});
  }

  lemma {:induction false} StringsBounded(s: set<string>) returns (n: nat)
    ensures forall v :: v in s ==> |v| < n
  {
    n := 0;
    if s != {} {
      var v :| v in s;
      n := StringsBounded(s - {v});
      n := if n <= |v| then |v| + 1 else n;
    }
  }

  lemma FreshString(s: set<string>) returns (v: string)
    ensures v !in s
  {
    var n := StringsBounded(s);
    v := seq(n, _ => 'x');
  }

  // ----- Pairwise counts, any mode ------------------------------------------------------------

  /** The reported count is itself the truth of some completion. */
  lemma PairwiseCountIsAttained(labels: seq<string>, sets: map<string, TrialSets>, r: string, c: string)
    requires r in labels && c in labels
    ensures exists full :: Completion(labels, sets, full) && AnyDifference(full, r, c) == AnyDifference(sets, r, c)
  {
    FillOneSeen(labels, sets, r, {}, r);
    FillOneSeen(labels, sets, r, {}, c);
    var full := FillOne(labels, sets, r, {});
    assert AnyDifference(full, r, c) == AnyDifference(sets, r, c);
  }

  /** A gap on the subject side leaves no upper bound: some completion exceeds the count. */
  lemma SubjectGapCanExceed(labels: seq<string>, sets: map<string, TrialSets>, r: string, c: string)
    requires r in labels && c in labels && r != c && Partial(sets, r)
    ensures exists full :: Completion(labels, sets, full) && |AnyDifference(full, r, c)| > |AnyDifference(sets, r, c)|
  {
    var v := FreshString(Seen(sets, r) + Seen(sets, c));
    FillOneSeen(labels, sets, r, {v}, r);
    FillOneSeen(labels, sets, r, {v}, c);
    var full := FillOne(labels, sets, r, {v});
    assert AnyDifference(full, r, c) == AnyDifference(sets, r, c) + {v};
  }

  /** A gap on the comparison side leaves no lower bound but zero. */
  lemma ComparisonGapCanErase(labels: seq<string>, sets: map<string, TrialSets>, r: string, c: string)
    requires r in labels && c in labels && r != c && Partial(sets, c)
    ensures exists full :: Completion(labels, sets, full) && |AnyDifference(full, r, c)| == 0
  {
    var filler := Seen(sets, r);
    FillOneSeen(labels, sets, c, filler, r);
    FillOneSeen(labels, sets, c, filler, c);
    var full := FillOne(labels, sets, c, filler);
    assert AnyDifference(full, r, c) == {};
  }

  /** Every completion keeps the pairwise count from above. */
  ghost predicate NeverMore(labels: seq<string>, sets: map<string, TrialSets>, r: string, c: string) {
    forall full :: Completion(labels, sets, full) ==> |AnyDifference(full, r, c)| <= |AnyDifference(sets, r, c)|
  }

  ghost predicate NeverLess(labels: seq<string>, sets: map<string, TrialSets>, r: string, c: string) {
    forall full :: Completion(labels, sets, full) ==> |AnyDifference(full, r, c)| >= |AnyDifference(sets, r, c)|
  }

  /**
    A pairwise cell of any mode says `upper` or `exact` exactly when no completion exceeds its
    count, and `lower` or `exact` exactly when none falls below, unless the count is zero anyway.
   */
  lemma PairwiseBoundIsTight(labels: seq<string>, sets: map<string, TrialSets>, r: string, c: string)
    requires r in labels && c in labels && r != c
    ensures var bound := AnyBound(Partial(sets, r), Partial(sets, c));
      && (bound in {Upper, Exact} <==> NeverMore(labels, sets, r, c))
      && (bound in {Lower, Exact} || |AnyDifference(sets, r, c)| == 0 <==> NeverLess(labels, sets, r, c))
  {
    if Partial(sets, r) { SubjectGapCanExceed(labels, sets, r, c); }
    if Partial(sets, c) { ComparisonGapCanErase(labels, sets, r, c); }
    forall full | Completion(labels, sets, full)
      ensures !Partial(sets, r) ==> |AnyDifference(full, r, c)| <= |AnyDifference(sets, r, c)|
      ensures !Partial(sets, c) ==> |AnyDifference(full, r, c)| >= |AnyDifference(sets, r, c)|
    {
      CompletedSeen(labels, sets, full, r);
      CompletedSeen(labels, sets, full, c);
      DifferenceOrder(Seen(sets, r), Seen(full, r), Seen(sets, c), Seen(full, c));
    }
  }

  // ----- Exclusive counts, any mode -----------------------------------------------------------

  ghost predicate NeverMoreAlone(labels: seq<string>, sets: map<string, TrialSets>, r: string) {
    forall full :: Completion(labels, sets, full) ==> |AnyExclusive(labels, full, r)| <= |AnyExclusive(labels, sets, r)|
  }

  ghost predicate NeverLessAlone(labels: seq<string>, sets: map<string, TrialSets>, r: string) {
    forall full :: Completion(labels, sets, full) ==> |AnyExclusive(labels, full, r)| >= |AnyExclusive(labels, sets, r)|
  }

  /** Filling the gaps of one label adds the filler to what the others see, if it is one of them. */
  lemma FillOneElsewhere(labels: seq<string>, sets: map<string, TrialSets>, l: string, filler: set<string>, r: string)
    requires l in labels
    ensures Elsewhere(labels, FillOne(labels, sets, l, filler), r)
         == Elsewhere(labels, sets, r) + if l != r && Partial(sets, l) then filler else {}
  {
    var full := FillOne(labels, sets, l, filler);
    forall c | c in labels
      ensures Seen(full, c) == Seen(sets, c) + if c == l && Partial(sets, c) then filler else {}
    {
      FillOneSeen(labels, sets, l, filler, c);
    }
    forall v ensures v in Elsewhere(labels, full, r)
                <==> v in Elsewhere(labels, sets, r) + if l != r && Partial(sets, l) then filler else {}
    {
      ElsewhereMeaning(labels, full, r, v);
      ElsewhereMeaning(labels, sets, r, v);
    }
  }

  lemma SubjectGapCanExceedAlone(labels: seq<string>, sets: map<string, TrialSets>, r: string)
    requires r in labels && Partial(sets, r)
    ensures exists full ::
      Completion(labels, sets, full) && |AnyExclusive(labels, full, r)| > |AnyExclusive(labels, sets, r)|
  {
    var v := FreshString(Seen(sets, r) + Elsewhere(labels, sets, r));
    FillOneSeen(labels, sets, r, {v}, r);
    FillOneElsewhere(labels, sets, r, {v}, r);
    var full := FillOne(labels, sets, r, {v});
    assert AnyExclusive(labels, full, r) == AnyExclusive(labels, sets, r) + {v};
  }

  ghost predicate Erased(labels: seq<string>, full: map<string, TrialSets>, r: string, c: string) {
    && AnyExclusive(labels, full, r) == AllExclusive(labels, full, r) == {}
    && AnyDifference(full, r, c) == AllDifference(full, r, c) == {}
  }

  /** With a gap elsewhere, some completion leaves the label nothing of its own, in either mode. */
  lemma OtherGapCanErase(labels: seq<string>, sets: map<string, TrialSets>, r: string, c: string)
    requires r in labels && c in labels && r != c && Partial(sets, c)
    ensures exists full :: Completion(labels, sets, full) && Erased(labels, full, r, c)
  {
    var filler := Seen(sets, r);
    FillOneSeen(labels, sets, c, filler, r);
    FillOneSeen(labels, sets, c, filler, c);
    FillOneElsewhere(labels, sets, c, filler, r);
    var full := FillOne(labels, sets, c, filler);
    AlwaysIsSeen(full, r);
    assert Erased(labels, full, r, c);
  }

  lemma AlwaysIsSeen(sets: map<string, TrialSets>, l: string)
    ensures Always(sets, l) <= Seen(sets, l)
  {
    forall v | v in Always(sets, l) ensures v in Seen(sets, l) {
      OccurrencesMeaning(Usable(SetsOf(sets, l)), v);
      assert v in Usable(SetsOf(sets, l))[0];
    }
  }

  /** An exclusive cell of any mode is exactly as strong as the data allow. */
  lemma ExclusiveBoundIsTight(labels: seq<string>, sets: map<string, TrialSets>, r: string)
    requires r in labels
    ensures var bound := AnyBound(Partial(sets, r), OthersPartial(labels, sets, r));
      && (bound in {Upper, Exact} <==> NeverMoreAlone(labels, sets, r))
      && (bound in {Lower, Exact} || |AnyExclusive(labels, sets, r)| == 0 <==> NeverLessAlone(labels, sets, r))
  {
    if Partial(sets, r) { SubjectGapCanExceedAlone(labels, sets, r); }
    if c :| c in labels && c != r && Partial(sets, c) { OtherGapCanErase(labels, sets, r, c); }
    forall full | Completion(labels, sets, full)
      ensures !Partial(sets, r) ==> |AnyExclusive(labels, full, r)| <= |AnyExclusive(labels, sets, r)|
      ensures !OthersPartial(labels, sets, r) ==> |AnyExclusive(labels, full, r)| >= |AnyExclusive(labels, sets, r)|
    {
      CompletedSeen(labels, sets, full, r);
      CompletedElsewhere(labels, sets, full, r);
      DifferenceOrder(Seen(sets, r), Seen(full, r), Elsewhere(labels, sets, r), Elsewhere(labels, full, r));
    }
  }

  // ----- Counts over all trials -----------------------------------------------------------------

  ghost predicate NeverLessAlways(labels: seq<string>, sets: map<string, TrialSets>, r: string, c: string) {
    forall full :: Completion(labels, sets, full) ==> |AllDifference(full, r, c)| >= |AllDifference(sets, r, c)|
  }

  ghost predicate NeverLessAlwaysAlone(labels: seq<string>, sets: map<string, TrialSets>, r: string) {
    forall full :: Completion(labels, sets, full) ==> |AllExclusive(labels, full, r)| >= |AllExclusive(labels, sets, r)|
  }

  /** For a complete subject, `exact` is claimed exactly when no completion falls below the count. */
  lemma AllTrialsBoundIsTight(labels: seq<string>, sets: map<string, TrialSets>, r: string, c: string)
    requires r in labels && c in labels && r != c && !Partial(sets, r)
    ensures !Partial(sets, c) || |AllDifference(sets, r, c)| == 0 <==> NeverLessAlways(labels, sets, r, c)
    ensures !OthersPartial(labels, sets, r) || |AllExclusive(labels, sets, r)| == 0 <==>
      NeverLessAlwaysAlone(labels, sets, r)
  {
    if Partial(sets, c) { OtherGapCanErase(labels, sets, r, c); }
    if d :| d in labels && d != r && Partial(sets, d) { OtherGapCanErase(labels, sets, r, d); }
    forall full | Completion(labels, sets, full)
      ensures !Partial(sets, c) ==> |AllDifference(full, r, c)| == |AllDifference(sets, r, c)|
      ensures !OthersPartial(labels, sets, r) ==> |AllExclusive(labels, full, r)| == |AllExclusive(labels, sets, r)|
    {
      CompletedSeen(labels, sets, full, r);
      CompletedSeen(labels, sets, full, c);
      CompletedElsewhere(labels, sets, full, r);
    }
  }

  lemma {:induction false} MoreTrialsShareLess(part: TrialSets, full: TrialSets)
    requires Completes(part, full) && Usable(part) != []
    ensures Intersection(Usable(full)) <= Intersection(Usable(part))
  {
    forall v | v in Intersection(Usable(full)) ensures v in Intersection(Usable(part)) {
      InEveryUsable(part, full, v);
    }
  }

  lemma {:induction false} InEveryUsable(part: TrialSets, full: TrialSets, v: string)
    requires Completes(part, full) && forall i :: 0 <= i < |Usable(full)| ==> v in Usable(full)[i]
    ensures forall i :: 0 <= i < |Usable(part)| ==> v in Usable(part)[i]
  {
    if part != [] {
      assert Completes(part[1..], full[1..]);
      assert Usable(full) == [full[0].value] + Usable(full[1..]);
      assert forall i :: 0 <= i < |Usable(full[1..])| ==> Usable(full[1..])[i] == Usable(full)[i + 1];
      InEveryUsable(part[1..], full[1..], v);
      var rest := Usable(part[1..]);
      if part[0].Some? {
        assert Usable(part) == [part[0].value] + rest && full[0] == part[0];
        assert v in Usable(full)[0];
      } else {
        assert Usable(part) == rest;
      }
    }
  }

  /**
    With a gap on the subject side the count over all trials is withheld. It would still be an
    upper bound, taken over the usable trials, but never more than that: some completion makes
    the true count zero.
   */
  lemma WithheldCountIsUpper(labels: seq<string>, sets: map<string, TrialSets>, r: string, c: string)
    requires r in labels && c in labels && Reps(sets, r) > 0
    ensures forall full :: Completion(labels, sets, full) ==> |AllDifference(full, r, c)| <= |AllDifference(sets, r, c)|
    ensures Partial(sets, r) ==> exists full :: Completion(labels, sets, full) && |AllDifference(full, r, c)| == 0
  {
    forall full | Completion(labels, sets, full) ensures |AllDifference(full, r, c)| <= |AllDifference(sets, r, c)| {
      CompletedSeen(labels, sets, full, c);
      MoreTrialsShareLess(SetsOf(sets, r), SetsOf(full, r));
      SubsetCardinality(AllDifference(full, r, c), AllDifference(sets, r, c));
    }
    if Partial(sets, r) {
      FillOneSeen(labels, sets, r, {}, r);
      FilledWithNothing(SetsOf(sets, r));
      var full := FillOne(labels, sets, r, {});
      var k :| 0 <= k < |Usable(SetsOf(full, r))| && Usable(SetsOf(full, r))[k] == {};
      assert forall v :: v in Always(full, r) ==> v in Usable(SetsOf(full, r))[k];
      assert AllDifference(full, r, c) == {};
    }
  }

  lemma {:induction false} FilledWithNothing(trials: TrialSets)
    requires Missing(trials) > 0
    ensures exists k :: 0 <= k < |Usable(Fill(trials, {}))| && Usable(Fill(trials, {}))[k] == {}
  {
    var full := Fill(trials, {});
    assert full[1..] == Fill(trials[1..], {});
    assert Usable(full) == [full[0].value] + Usable(full[1..]);
    if trials[0].None? {
      assert Usable(full)[0] == {};
    } else {
      FilledWithNothing(trials[1..]);
      var k :| 0 <= k < |Usable(full[1..])| && Usable(full[1..])[k] == {};
      assert Usable(full)[k + 1] == {};
    }
  }
}
