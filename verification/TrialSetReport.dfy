/**
  The comparison payload and what its numbers and bounds promise a reader.
 */
module TrialSetReport {
  import opened Common
  import opened SetComparison
  import opened TrialSetCounts

  // ----- Assembly of the cells from the tables -----------------------------------------

  ghost predicate Tabled(index: TrialSetIndex, labels: seq<string>) {
    forall i :: 0 <= i < |labels| ==> labels[i] in index.reps && labels[i] in index.missingByLabel
  }

  function PairAnyCell(index: TrialSetIndex, r: string, c: string, count: nat): Cell
    requires r in index.reps && r in index.missingByLabel && c in index.missingByLabel
  {
    AnyCell(index.reps[r], index.missingByLabel[r] > 0, index.missingByLabel[c] > 0, count)
  }

  function PairAllCell(index: TrialSetIndex, strictUnknown: set<string>, r: string, c: string, count: nat): Cell
    requires r in index.reps && r in index.missingByLabel && c in index.missingByLabel
  {
    AllCell(index.reps[r], index.missingByLabel[r] > 0, index.missingByLabel[c] > 0, r in strictUnknown, count)
  }

  ghost predicate RowAssembled(any: seq<Cell>, all: seq<Cell>, labels: seq<string>, index: TrialSetIndex,
                               strictUnknown: set<string>, tally: Tally, row: nat)
    requires tally.Shaped(|labels|) && Tabled(index, labels) && row < |labels|
  {
    && |any| == |all| == |labels|
    && (forall j :: 0 <= j < |labels| ==> any[j] == PairAnyCell(index, labels[row], labels[j], tally.pairAny[row][j]))
    && (forall j :: 0 <= j < |labels| ==>
        all[j] == PairAllCell(index, strictUnknown, labels[row], labels[j], tally.pairAll[row][j]))
  }

  /** One row of the two pairwise matrices. */
  method PairwiseRow(labels: seq<string>, index: TrialSetIndex, strictUnknown: set<string>, tally: Tally, row: nat)
    returns (any: seq<Cell>, all: seq<Cell>)
    requires row < |labels| && tally.Shaped(|labels|) && Tabled(index, labels)
    ensures RowAssembled(any, all, labels, index, strictUnknown, tally, row)
  {
    any, all := [], [];
    for col := 0 to |labels|
      invariant |any| == |all| == col
      invariant forall j :: 0 <= j < col ==> any[j] == PairAnyCell(index, labels[row], labels[j], tally.pairAny[row][j])
      invariant forall j :: 0 <= j < col ==>
        all[j] == PairAllCell(index, strictUnknown, labels[row], labels[j], tally.pairAll[row][j])
    {
      any := any + [PairAnyCell(index, labels[row], labels[col], tally.pairAny[row][col])];
      all := all + [PairAllCell(index, strictUnknown, labels[row], labels[col], tally.pairAll[row][col])];
    }
  }

  lemma PairCellsReported(index: TrialSetIndex, labels: seq<string>, sets: map<string, TrialSets>,
                          strictUnknown: set<string>,
                          tally: Tally, i: nat, j: nat)
    requires IsIndexOf(index, labels, sets) && i < |labels| && j < |labels|
    requires tally.Shaped(|labels|) && tally.Counts(labels, index, index.owners.Keys)
    ensures labels[i] in index.reps && labels[i] in index.missingByLabel && labels[j] in index.missingByLabel
    ensures PairReported(PairAnyCell(index, labels[i], labels[j], tally.pairAny[i][j]),
                         PairAllCell(index, strictUnknown, labels[i], labels[j], tally.pairAll[i][j]),
                         sets, strictUnknown, labels[i], labels[j])
  {
    assert TableEntry(index, sets, labels[i]) && TableEntry(index, sets, labels[j]);
    HitsAreDifferences(index, labels, sets, labels[i], labels[j]);
  }

  /** Whether any other label has a missing trial set. */
  predicate OtherMissing(labels: seq<string>, index: TrialSetIndex, r: string)
    requires Tabled(index, labels)
  {
    exists i | 0 <= i < |labels| :: labels[i] != r && index.missingByLabel[labels[i]] > 0
  }

  function SoleAnyCell(labels: seq<string>, index: TrialSetIndex, r: string, count: nat): Cell
    requires Tabled(index, labels) && r in labels
  {
    AnyCell(index.reps[r], index.missingByLabel[r] > 0, OtherMissing(labels, index, r), count)
  }

  function SoleAllCell(labels: seq<string>, index: TrialSetIndex, strictUnknown: set<string>, r: string,
                       count: nat): Cell
    requires Tabled(index, labels) && r in labels
  {
    AllCell(index.reps[r], index.missingByLabel[r] > 0, OtherMissing(labels, index, r), r in strictUnknown, count)
  }

  /** The two lists of exclusive cells. */
  method ExclusiveCells(labels: seq<string>, index: TrialSetIndex, strictUnknown: set<string>, tally: Tally)
    returns (any: seq<Cell>, all: seq<Cell>)
    requires tally.Shaped(|labels|) && Tabled(index, labels)
    ensures SolesAssembled(any, all, labels, index, strictUnknown, tally)
  {
    any, all := [], [];
    for i := 0 to |labels|
      invariant |any| == |all| == i
      invariant forall k :: 0 <= k < i ==>
        && any[k] == SoleAnyCell(labels, index, labels[k], tally.soleAny[k])
        && all[k] == SoleAllCell(labels, index, strictUnknown, labels[k], tally.soleAll[k])
    {
      any := any + [SoleAnyCell(labels, index, labels[i], tally.soleAny[i])];
      all := all + [SoleAllCell(labels, index, strictUnknown, labels[i], tally.soleAll[i])];
    }
  }

  lemma OtherMissingMeaning(index: TrialSetIndex, labels: seq<string>, sets: map<string, TrialSets>, r: string)
    requires Tabled(index, labels) && (forall l :: l in labels ==> TableEntry(index, sets, l))
    ensures OtherMissing(labels, index, r) <==> OthersPartial(labels, sets, r)
  {
    if OthersPartial(labels, sets, r) {
      var c :| c in labels && c != r && Partial(sets, c);
      var i :| 0 <= i < |labels| && labels[i] == c;
      assert labels[i] != r && index.missingByLabel[labels[i]] > 0;
    }
    if OtherMissing(labels, index, r) {
      var i :| 0 <= i < |labels| && labels[i] != r && index.missingByLabel[labels[i]] > 0;
      assert labels[i] in labels && Partial(sets, labels[i]);
    }
  }

  lemma SoleCellsReported(index: TrialSetIndex, labels: seq<string>, sets: map<string, TrialSets>,
                          strictUnknown: set<string>,
                          tally: Tally, i: nat)
    requires IsIndexOf(index, labels, sets) && Tabled(index, labels) && i < |labels|
    requires tally.Shaped(|labels|) && tally.Counts(labels, index, index.owners.Keys)
    ensures SoleReported(SoleAnyCell(labels, index, labels[i], tally.soleAny[i]),
                         SoleAllCell(labels, index, strictUnknown, labels[i], tally.soleAll[i]),
                         labels, sets, strictUnknown, labels[i])
  {
    assert TableEntry(index, sets, labels[i]);
    OtherMissingMeaning(index, labels, sets, labels[i]);
    SoleHitsAreExclusive(index, labels, sets, labels[i]);
  }

  ghost predicate SolesAssembled(any: seq<Cell>, all: seq<Cell>, labels: seq<string>, index: TrialSetIndex,
                                 strictUnknown: set<string>, tally: Tally)
    requires tally.Shaped(|labels|) && Tabled(index, labels)
  {
    && |any| == |all| == |labels|
    && (forall i :: 0 <= i < |labels| ==>
        && any[i] == SoleAnyCell(labels, index, labels[i], tally.soleAny[i])
        && all[i] == SoleAllCell(labels, index, strictUnknown, labels[i], tally.soleAll[i]))
  }

  ghost predicate RowsAssembled(any: seq<seq<Cell>>, all: seq<seq<Cell>>, labels: seq<string>, index: TrialSetIndex,
                                strictUnknown: set<string>, tally: Tally)
    requires tally.Shaped(|labels|) && Tabled(index, labels)
  {
    && |any| == |all| <= |labels|
    && (forall k :: 0 <= k < |any| ==> RowAssembled(any[k], all[k], labels, index, strictUnknown, tally, k))
  }

  /** The pairwise matrices, row by row. */
  method PairwiseRows(labels: seq<string>, index: TrialSetIndex, strictUnknown: set<string>, tally: Tally)
    returns (pairAny: seq<seq<Cell>>, pairAll: seq<seq<Cell>>)
    requires tally.Shaped(|labels|) && Tabled(index, labels)
    ensures |pairAny| == |labels|
    ensures RowsAssembled(pairAny, pairAll, labels, index, strictUnknown, tally)
  {
    pairAny, pairAll := [], [];
    for i := 0 to |labels|
      invariant |pairAny| == i && RowsAssembled(pairAny, pairAll, labels, index, strictUnknown, tally)
    {
      var any, all := PairwiseRow(labels, index, strictUnknown, tally, i);
      pairAny, pairAll := pairAny + [any], pairAll + [all];
    }
  }

  lemma RowsAreReported(pairAny: seq<seq<Cell>>, pairAll: seq<seq<Cell>>, labels: seq<string>,
                        sets: map<string, TrialSets>,
                        index: TrialSetIndex, strictUnknown: set<string>, tally: Tally, i: nat)
    requires IsIndexOf(index, labels, sets) && Tabled(index, labels) && i < |labels|
    requires tally.Shaped(|labels|) && tally.Counts(labels, index, index.owners.Keys)
    requires |pairAny| == |labels| && RowsAssembled(pairAny, pairAll, labels, index, strictUnknown, tally)
    ensures RowReported(pairAny[i], pairAll[i], labels, sets, strictUnknown, labels[i])
  {
    assert RowAssembled(pairAny[i], pairAll[i], labels, index, strictUnknown, tally, i);
    forall j | 0 <= j < |labels|
      ensures PairReported(pairAny[i][j], pairAll[i][j], sets, strictUnknown, labels[i], labels[j])
    {
      PairCellsReported(index, labels, sets, strictUnknown, tally, i, j);
    }
  }

  lemma AssembledIsReported(c: Comparison, labels: seq<string>, sets: map<string, TrialSets>, index: TrialSetIndex,
                            strictUnknown: set<string>, tally: Tally)
    requires IsIndexOf(index, labels, sets) && Tabled(index, labels)
    requires tally.Shaped(|labels|) && tally.Counts(labels, index, index.owners.Keys)
    requires |c.pairwiseAny| == |labels| &&
      RowsAssembled(c.pairwiseAny, c.pairwiseAll, labels, index, strictUnknown, tally)
    requires SolesAssembled(c.exclusiveAny, c.exclusiveAll, labels, index, strictUnknown, tally)
    ensures PairwiseReported(c, labels, sets, strictUnknown)
    ensures ExclusiveReported(c, labels, sets, strictUnknown)
  {
    forall i | 0 <= i < |labels|
      ensures RowReported(c.pairwiseAny[i], c.pairwiseAll[i], labels, sets, strictUnknown, labels[i])
    {
      RowsAreReported(c.pairwiseAny, c.pairwiseAll, labels, sets, index, strictUnknown, tally, i);
    }
    forall i | 0 <= i < |labels|
      ensures SoleReported(c.exclusiveAny[i], c.exclusiveAll[i], labels, sets, strictUnknown, labels[i])
    {
      SoleCellsReported(index, labels, sets, strictUnknown, tally, i);
    }
  }

  lemma OwnersAreIndexed(index: TrialSetIndex, labels: seq<string>, sets: map<string, TrialSets>, v: string, l: string)
    requires IsIndexOf(index, labels, sets) && v in index.owners && l in index.owners[v]
    ensures l in labels && l in index.reps
  {
    assert OwnerRow(index.owners[v], labels, sets, v);
    assert TableEntry(index, sets, l);
  }

  method Compare(labels: seq<string>, sets: map<string, TrialSets>, strictUnknown: set<string>) returns (c: Comparison)
    requires Distinct(labels)
    ensures PairwiseReported(c, labels, sets, strictUnknown)
    ensures ExclusiveReported(c, labels, sets, strictUnknown)
  {
    var index := BuildIndex(labels, sets);
    forall v, l | v in index.owners && l in index.owners[v] ensures l in labels && l in index.reps {
      OwnersAreIndexed(index, labels, sets, v, l);
    }
    var tally := CountOwnership(labels, index);
    forall i | 0 <= i < |labels| ensures labels[i] in index.reps && labels[i] in index.missingByLabel {
      assert TableEntry(index, sets, labels[i]);
    }
    var pairAny, pairAll := PairwiseRows(labels, index, strictUnknown, tally);
    var soleAny, soleAll := ExclusiveCells(labels, index, strictUnknown, tally);
    c := Comparison(pairAny, pairAll, soleAny, soleAll);
    AssembledIsReported(c, labels, sets, index, strictUnknown, tally);
  }

  // ----- Completions: every way the missing sets could have turned out ---------------

  ghost predicate Completes(part: TrialSets, full: TrialSets) {
    && |part| == |full|
    && (forall i :: 0 <= i < |full| ==> full[i].Some? && (part[i].Some? ==> full[i] == part[i]))
  }

  ghost predicate Completion(labels: seq<string>, sets: map<string, TrialSets>, full: map<string, TrialSets>) {
    forall l :: l in labels ==> Completes(SetsOf(sets, l), SetsOf(full, l))
  }

  lemma {:induction false} CompletedTrials(part: TrialSets, full: TrialSets)
    requires Completes(part, full)
    ensures Missing(full) == 0 && |Usable(full)| == |full|
    ensures Union(Usable(part)) <= Union(Usable(full))
    ensures Missing(part) == 0 ==> part == full
  {
    if part != [] {
      assert Completes(part[1..], full[1..]);
      CompletedTrials(part[1..], full[1..]);
      assert Usable(full) == [full[0].value] + Usable(full[1..]);
      assert Union(Usable(full)) == full[0].value + Union(Usable(full[1..]));
      assert part[0].None? ==> Usable(part) == Usable(part[1..]);
      assert part[0].Some? ==> Usable(part) == [full[0].value] + Usable(part[1..]);
      if Missing(part) == 0 {
        assert part == [part[0]] + part[1..] && full == [full[0]] + full[1..];
      }
    }
  }

  lemma CompletedSeen(labels: seq<string>, sets: map<string, TrialSets>, full: map<string, TrialSets>, l: string)
    requires Completion(labels, sets, full) && l in labels
    ensures Seen(sets, l) <= Seen(full, l)
    ensures !Partial(sets, l) ==> Seen(sets, l) == Seen(full, l) && Always(sets, l) == Always(full, l)
  {
    CompletedTrials(SetsOf(sets, l), SetsOf(full, l));
  }

  lemma CompletedElsewhere(labels: seq<string>, sets: map<string, TrialSets>, full: map<string, TrialSets>, l: string)
    requires Completion(labels, sets, full)
    ensures Elsewhere(labels, sets, l) <= Elsewhere(labels, full, l)
    ensures !OthersPartial(labels, sets, l) ==> Elsewhere(labels, sets, l) == Elsewhere(labels, full, l)
  {
    forall c | c in labels
      ensures Seen(sets, c) <= Seen(full, c) && (!Partial(sets, c) ==> Seen(sets, c) == Seen(full, c))
    {
      CompletedSeen(labels, sets, full, c);
    }
    forall v ensures v in Elsewhere(labels, sets, l) ==> v in Elsewhere(labels, full, l) {
      ElsewhereMeaning(labels, sets, l, v);
      ElsewhereMeaning(labels, full, l, v);
    }
    if !OthersPartial(labels, sets, l) {
      forall v ensures v in Elsewhere(labels, sets, l) <==> v in Elsewhere(labels, full, l) {
        ElsewhereMeaning(labels, sets, l, v);
        ElsewhereMeaning(labels, full, l, v);
      }
    }
  }

  /** What a bound label claims about the true count. */
  ghost predicate Sound(cell: Cell, truth: nat) {
    match cell.bound
    case Exact => cell.count == Some(truth)
    case Lower => cell.count.Some? && cell.count.value <= truth
    case Upper => cell.count.Some? && cell.count.value >= truth
    case Indeterminate => cell.count.Some?
    case Unknown => cell.count.None?
  }

  /** Every pairwise bound is right, whatever the missing trial sets contain. */
  lemma PairwiseBoundsSound(c: Comparison, labels: seq<string>, sets: map<string, TrialSets>,
                            strictUnknown: set<string>,
                            full: map<string, TrialSets>, i: nat, j: nat)
    requires PairwiseReported(c, labels, sets, strictUnknown) && Completion(labels, sets, full)
    requires i < |labels| && j < |labels|
    ensures Sound(c.pairwiseAny[i][j], |AnyDifference(full, labels[i], labels[j])|)
    ensures Sound(c.pairwiseAll[i][j], |AllDifference(full, labels[i], labels[j])|)
  {
    var r, o := labels[i], labels[j];
    assert RowReported(c.pairwiseAny[i], c.pairwiseAll[i], labels, sets, strictUnknown, labels[i]);
    assert PairReported(c.pairwiseAny[i][j], c.pairwiseAll[i][j], sets, strictUnknown, r, o);
    CompletedSeen(labels, sets, full, r);
    CompletedSeen(labels, sets, full, o);
    DifferenceOrder(Seen(sets, r), Seen(full, r), Seen(sets, o), Seen(full, o));
    DifferenceOrder(Always(sets, r), Always(full, r), Seen(sets, o), Seen(full, o));
  }

  /** Every exclusive bound is right, whatever the missing trial sets contain. */
  lemma ExclusiveBoundsSound(c: Comparison, labels: seq<string>, sets: map<string, TrialSets>,
                             strictUnknown: set<string>,
                             full: map<string, TrialSets>, i: nat)
    requires ExclusiveReported(c, labels, sets, strictUnknown) && Completion(labels, sets, full)
    requires i < |labels|
    ensures Sound(c.exclusiveAny[i], |AnyExclusive(labels, full, labels[i])|)
    ensures Sound(c.exclusiveAll[i], |AllExclusive(labels, full, labels[i])|)
  {
    var r := labels[i];
    assert SoleReported(c.exclusiveAny[i], c.exclusiveAll[i], labels, sets, strictUnknown, r);
    CompletedSeen(labels, sets, full, r);
    CompletedElsewhere(labels, sets, full, r);
    DifferenceOrder(Seen(sets, r), Seen(full, r), Elsewhere(labels, sets, r), Elsewhere(labels, full, r));
    DifferenceOrder(Always(sets, r), Always(full, r), Elsewhere(labels, sets, r), Elsewhere(labels, full, r));
  }

  /** A difference grows with its left side and shrinks with its right side. */
  lemma DifferenceOrder(a: set<string>, a': set<string>, b: set<string>, b': set<string>)
    requires b <= b'
    ensures a == a' ==> |a - b| >= |a' - b'|
    ensures a <= a' && b == b' ==> |a - b| <= |a' - b'|
  {
    if a == a' { SubsetCardinality(a' - b', a - b); }
    if a <= a' && b == b' { SubsetCardinality(a - b, a' - b'); }
  }

  // ----- The cells in terms of the trials as recorded --------------------------------------------

  /** A cell of any mode: the count and its label, or nothing without a recorded set. */
  ghost predicate AnySays(cell: Cell, row: TrialSets, gapElsewhere: bool, count: nat) {
    if !HasUsable(row) then cell == Cell(None, Unknown)
    else cell == Cell(Some(count), if HasGap(row) then (if gapElsewhere then Indeterminate else Lower)
                                   else if gapElsewhere then Upper else Exact)
  }

  /** A cell over all trials is withheld unless the row is complete and not a fallback label. */
  ghost predicate AllSays(cell: Cell, row: TrialSets, fallback: bool, gapElsewhere: bool, count: nat) {
    if !HasUsable(row) || HasGap(row) || fallback then cell == Cell(None, Unknown)
    else cell == Cell(Some(count), if gapElsewhere then Upper else Exact)
  }

  lemma PairwiseValues(sets: map<string, TrialSets>, r: string, o: string, row: TrialSets, col: TrialSets,
                       any: set<string>, all: set<string>)
    requires RecordedAs(sets, r, row) && RecordedAs(sets, o, col)
    requires forall v :: v in any <==> ReachedBySome(row, v) && !ReachedBySome(col, v)
    requires forall v :: v in all <==> ReachedByAll(row, v) && !ReachedBySome(col, v)
    ensures any == AnyDifference(sets, r, o) && all == AllDifference(sets, r, o)
  {
    forall v ensures v in any <==> v in AnyDifference(sets, r, o) {
      RecordedMeaning(sets, r, row, v);
      RecordedMeaning(sets, o, col, v);
    }
    forall v ensures v in all <==> v in AllDifference(sets, r, o) {
      RecordedMeaning(sets, r, row, v);
      RecordedMeaning(sets, o, col, v);
    }
  }

  /** The pairwise table: `any` and `all` are the values meant, picked from the recorded trials. */
  lemma PairwiseCellsSay(c: Comparison, labels: seq<string>, sets: map<string, TrialSets>, strictUnknown: set<string>,
                         i: nat, j: nat, row: TrialSets, col: TrialSets, any: set<string>, all: set<string>)
    requires PairwiseReported(c, labels, sets, strictUnknown) && i < |labels| && j < |labels|
    requires RecordedAs(sets, labels[i], row) && RecordedAs(sets, labels[j], col)
    requires forall v :: v in any <==> ReachedBySome(row, v) && !ReachedBySome(col, v)
    requires forall v :: v in all <==> ReachedByAll(row, v) && !ReachedBySome(col, v)
    ensures AnySays(c.pairwiseAny[i][j], row, HasGap(col), |any|)
    ensures AllSays(c.pairwiseAll[i][j], row, labels[i] in strictUnknown, HasGap(col), |all|)
  {
    var r, o := labels[i], labels[j];
    assert RowReported(c.pairwiseAny[i], c.pairwiseAll[i], labels, sets, strictUnknown, r);
    assert PairReported(c.pairwiseAny[i][j], c.pairwiseAll[i][j], sets, strictUnknown, r, o);
    PairwiseValues(sets, r, o, row, col, any, all);
    RecordedMeaning(sets, r, row, "");
    RecordedMeaning(sets, o, col, "");
  }

  /** Some other label of the list has a recorded set with the value. */
  ghost predicate ReachedElsewhere(labels: seq<string>, sets: map<string, TrialSets>, i: nat, v: string)
    requires i < |labels|
  {
    exists j :: 0 <= j < |labels| && labels[j] != labels[i] && labels[j] in sets && ReachedBySome(sets[labels[j]], v)
  }

  ghost predicate GapElsewhere(labels: seq<string>, sets: map<string, TrialSets>, i: nat)
    requires i < |labels|
  {
    exists j :: 0 <= j < |labels| && labels[j] != labels[i] && labels[j] in sets && HasGap(sets[labels[j]])
  }

  lemma ElsewhereRecorded(labels: seq<string>, sets: map<string, TrialSets>, i: nat, v: string)
    requires i < |labels|
    ensures v in Elsewhere(labels, sets, labels[i]) <==> ReachedElsewhere(labels, sets, i, v)
    ensures OthersPartial(labels, sets, labels[i]) <==> GapElsewhere(labels, sets, i)
  {
    ElsewhereMeaning(labels, sets, labels[i], v);
    forall c ensures v in Seen(sets, c) <==> c in sets && ReachedBySome(sets[c], v)
             ensures Partial(sets, c) <==> c in sets && HasGap(sets[c])
    {
      RecordedMeaning(sets, c, if c in sets then sets[c] else [], v);
    }
    if c :| c in labels && c != labels[i] && v in Seen(sets, c) {
      var j :| 0 <= j < |labels| && labels[j] == c;
    }
    if c :| c in labels && c != labels[i] && Partial(sets, c) {
      var j :| 0 <= j < |labels| && labels[j] == c;
    }
  }

  /** The exclusive table, in the same way. */
  lemma ExclusiveCellsSay(c: Comparison, labels: seq<string>, sets: map<string, TrialSets>, strictUnknown: set<string>,
                          i: nat, row: TrialSets, any: set<string>, all: set<string>)
    requires ExclusiveReported(c, labels, sets, strictUnknown) && i < |labels| && RecordedAs(sets, labels[i], row)
    requires forall v :: v in any <==> ReachedBySome(row, v) && !ReachedElsewhere(labels, sets, i, v)
    requires forall v :: v in all <==> ReachedByAll(row, v) && !ReachedElsewhere(labels, sets, i, v)
    ensures AnySays(c.exclusiveAny[i], row, GapElsewhere(labels, sets, i), |any|)
    ensures AllSays(c.exclusiveAll[i], row, labels[i] in strictUnknown, GapElsewhere(labels, sets, i), |all|)
  {
    var r := labels[i];
    assert SoleReported(c.exclusiveAny[i], c.exclusiveAll[i], labels, sets, strictUnknown, r);
    forall v ensures v in any <==> v in AnyExclusive(labels, sets, r) {
      RecordedMeaning(sets, r, row, v);
      ElsewhereRecorded(labels, sets, i, v);
    }
    forall v ensures v in all <==> v in AllExclusive(labels, sets, r) {
      RecordedMeaning(sets, r, row, v);
      ElsewhereRecorded(labels, sets, i, v);
    }
    assert any == AnyExclusive(labels, sets, r) && all == AllExclusive(labels, sets, r);
    RecordedMeaning(sets, r, row, "");
    ElsewhereRecorded(labels, sets, i, "");
  }

  /** Every trial of every label has a set on record. */
  ghost predicate EveryTrialRecorded(labels: seq<string>, sets: map<string, TrialSets>) {
    forall l :: l in labels ==> l in sets && !HasGap(sets[l])
  }

  /** With nothing missing and no fallback label, every pairwise cell is exact. */
  lemma CompletePairsAreExact(c: Comparison, labels: seq<string>, sets: map<string, TrialSets>, i: nat, j: nat,
                              any: set<string>, all: set<string>)
    requires PairwiseReported(c, labels, sets, {}) && i < |labels| && j < |labels|
    requires EveryTrialRecorded(labels, sets) && sets[labels[i]] != []
    requires forall v :: v in any <==> ReachedBySome(sets[labels[i]], v) && !ReachedBySome(sets[labels[j]], v)
    requires forall v :: v in all <==> ReachedByAll(sets[labels[i]], v) && !ReachedBySome(sets[labels[j]], v)
    ensures c.pairwiseAny[i][j] == Cell(Some(|any|), Exact) && c.pairwiseAll[i][j] == Cell(Some(|all|), Exact)
  {
    assert HasUsable(sets[labels[i]]) by { assert !sets[labels[i]][0].None?; }
    PairwiseCellsSay(c, labels, sets, {}, i, j, sets[labels[i]], sets[labels[j]], any, all);
  }

  /**
    With nothing missing and no fallback label, every cell is exact: it counts the values in some
    trial (in every trial) of the row's label and in no trial of the other label or labels.
   */
  lemma CompleteDataIsExact(c: Comparison, labels: seq<string>, sets: map<string, TrialSets>, i: nat, j: nat,
                            any: set<string>, all: set<string>, aloneAny: set<string>, aloneAll: set<string>)
    requires PairwiseReported(c, labels, sets, {}) && ExclusiveReported(c, labels, sets, {})
    requires i < |labels| && j < |labels| && EveryTrialRecorded(labels, sets) && sets[labels[i]] != []
    requires forall v :: v in any <==> ReachedBySome(sets[labels[i]], v) && !ReachedBySome(sets[labels[j]], v)
    requires forall v :: v in all <==> ReachedByAll(sets[labels[i]], v) && !ReachedBySome(sets[labels[j]], v)
    requires forall v :: v in aloneAny <==> ReachedBySome(sets[labels[i]], v) && !ReachedElsewhere(labels, sets, i, v)
    requires forall v :: v in aloneAll <==> ReachedByAll(sets[labels[i]], v) && !ReachedElsewhere(labels, sets, i, v)
    ensures c.pairwiseAny[i][j] == Cell(Some(|any|), Exact) && c.pairwiseAll[i][j] == Cell(Some(|all|), Exact)
    ensures c.exclusiveAny[i] == Cell(Some(|aloneAny|), Exact) && c.exclusiveAll[i] == Cell(Some(|aloneAll|), Exact)
  {
    CompletePairsAreExact(c, labels, sets, i, j, any, all);
    assert HasUsable(sets[labels[i]]) by { assert !sets[labels[i]][0].None?; }
    ExclusiveCellsSay(c, labels, sets, {}, i, sets[labels[i]], aloneAny, aloneAll);
  }
}
