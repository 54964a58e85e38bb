/**
  Pairwise and exclusive counts over the ownership index, with missing-set bounds.
 */
module TrialSetCounts {
  import opened Common
  import opened SetComparison

  /** How a reported count relates to the count over the complete data. */
  datatype Bound = Exact | Lower | Upper | Indeterminate | Unknown

  datatype Cell = Cell(count: Option<nat>, bound: Bound)

  datatype Comparison = Comparison(
    pairwiseAny: seq<seq<Cell>>,
    pairwiseAll: seq<seq<Cell>>,
    exclusiveAny: seq<Cell>,
    exclusiveAll: seq<Cell>)

  // ----- What the cells are meant to count ------------------------------------------

  /** Values some trial of `r` reached and no trial of `c` did. */
  ghost function AnyDifference(sets: map<string, TrialSets>, r: string, c: string): set<string> {
    Seen(sets, r) - Seen(sets, c)
  }

  /** Values every trial of `r` reached and no trial of `c` did. */
  ghost function AllDifference(sets: map<string, TrialSets>, r: string, c: string): set<string> {
    Always(sets, r) - Seen(sets, c)
  }

  ghost function AnyExclusive(labels: seq<string>, sets: map<string, TrialSets>, r: string): set<string> {
    Seen(sets, r) - Elsewhere(labels, sets, r)
  }

  ghost function AllExclusive(labels: seq<string>, sets: map<string, TrialSets>, r: string): set<string> {
    Always(sets, r) - Elsewhere(labels, sets, r)
  }

  // ----- What the single pass over the owners counts --------------------------------

  ghost predicate InEveryTrial(index: TrialSetIndex, v: string, r: string) {
    && v in index.owners && r in index.owners[v] && r in index.reps
    && index.owners[v][r] == index.reps[r]
  }

  ghost predicate AnyHit(index: TrialSetIndex, v: string, r: string, c: string) {
    v in index.owners && r in index.owners[v] && c !in index.owners[v]
  }

  ghost predicate AllHit(index: TrialSetIndex, v: string, r: string, c: string) {
    AnyHit(index, v, r, c) && InEveryTrial(index, v, r)
  }

  ghost predicate SoleHit(index: TrialSetIndex, v: string, r: string) {
    v in index.owners && index.owners[v].Keys == {r}
  }

  ghost predicate SoleAllHit(index: TrialSetIndex, v: string, r: string) {
    SoleHit(index, v, r) && InEveryTrial(index, v, r)
  }

  ghost function AnyHits(index: TrialSetIndex, done: set<string>, r: string, c: string): set<string> {
    set v | v in done && AnyHit(index, v, r, c)
  }

  ghost function AllHits(index: TrialSetIndex, done: set<string>, r: string, c: string): set<string> {
    set v | v in done && AllHit(index, v, r, c)
  }

  ghost function SoleHits(index: TrialSetIndex, done: set<string>, r: string): set<string> {
    set v | v in done && SoleHit(index, v, r)
  }

  ghost function SoleAllHits(index: TrialSetIndex, done: set<string>, r: string): set<string> {
    set v | v in done && SoleAllHit(index, v, r)
  }

  /** The hits of all owners are exactly the set differences they stand for. */
  lemma HitsAreDifferences(index: TrialSetIndex, labels: seq<string>, sets: map<string, TrialSets>, r: string,
                           c: string)
    requires IsIndexOf(index, labels, sets) && r in labels && c in labels
    ensures AnyHits(index, index.owners.Keys, r, c) == AnyDifference(sets, r, c)
    ensures |Usable(SetsOf(sets, r))| > 0 ==> AllHits(index, index.owners.Keys, r, c) == AllDifference(sets, r, c)
  {
    assert TableEntry(index, sets, r);
    forall v ensures v in AnyHits(index, index.owners.Keys, r, c) <==> v in AnyDifference(sets, r, c) {
      if v in index.owners { assert OwnerRow(index.owners[v], labels, sets, v); }
    }
    forall v ensures |Usable(SetsOf(sets, r))| > 0 ==>
      (v in AllHits(index, index.owners.Keys, r, c) <==> v in AllDifference(sets, r, c))
    {
      OccurrencesMeaning(Usable(SetsOf(sets, r)), v);
      if v in index.owners { assert OwnerRow(index.owners[v], labels, sets, v); }
    }
  }

  lemma SoleOwnerMeaning(index: TrialSetIndex, labels: seq<string>, sets: map<string, TrialSets>, r: string, v: string)
    requires IsIndexOf(index, labels, sets) && r in labels
    ensures SoleHit(index, v, r) <==> v in AnyExclusive(labels, sets, r)
  {
    ElsewhereMeaning(labels, sets, r, v);
    if v in index.owners {
      assert OwnerRow(index.owners[v], labels, sets, v);
      if v in AnyExclusive(labels, sets, r) {
        assert forall c :: c in index.owners[v] <==> c == r;
        assert index.owners[v].Keys == {r};
      }
      if SoleHit(index, v, r) {
        assert r in index.owners[v];
        assert forall c :: c in index.owners[v] ==> c == r;
      }
    }
  }

  lemma SoleHitMeaning(index: TrialSetIndex, labels: seq<string>, sets: map<string, TrialSets>, r: string, v: string)
    requires IsIndexOf(index, labels, sets) && r in labels
    ensures SoleHit(index, v, r) <==> v in AnyExclusive(labels, sets, r)
    ensures |Usable(SetsOf(sets, r))| > 0 ==> (SoleAllHit(index, v, r) <==> v in AllExclusive(labels, sets, r))
  {
    SoleOwnerMeaning(index, labels, sets, r, v);
    assert TableEntry(index, sets, r);
    OccurrencesMeaning(Usable(SetsOf(sets, r)), v);
    if v in index.owners {
      assert OwnerRow(index.owners[v], labels, sets, v);
    }
  }

  lemma SoleHitsAreExclusive(index: TrialSetIndex, labels: seq<string>, sets: map<string, TrialSets>, r: string)
    requires IsIndexOf(index, labels, sets) && r in labels
    ensures SoleHits(index, index.owners.Keys, r) == AnyExclusive(labels, sets, r)
    ensures |Usable(SetsOf(sets, r))| > 0 ==> SoleAllHits(index, index.owners.Keys, r) == AllExclusive(labels, sets, r)
  {
    forall v ensures v in SoleHits(index, index.owners.Keys, r) <==> v in AnyExclusive(labels, sets, r) {
      SoleHitMeaning(index, labels, sets, r, v);
    }
    forall v ensures |Usable(SetsOf(sets, r))| > 0 ==>
      (v in SoleAllHits(index, index.owners.Keys, r) <==> v in AllExclusive(labels, sets, r))
    {
      SoleHitMeaning(index, labels, sets, r, v);
    }
  }

  // ----- The counting pass ------------------------------------------------------------

  function Positions(labels: seq<string>): (at: map<string, nat>)
    requires Distinct(labels)
    ensures forall i :: 0 <= i < |labels| ==> labels[i] in at && at[labels[i]] == i
    ensures forall l :: l in at ==> at[l] < |labels| && labels[at[l]] == l
  {
    map i: nat | 0 <= i < |labels| :: labels[i] := i
  }

  type Matrix = seq<seq<nat>>

  ghost predicate Square(m: Matrix, n: nat) {
    |m| == n && forall i :: 0 <= i < n ==> |m[i]| == n
  }

  /** Raises one entry of a matrix by one. */
  function Bump(m: Matrix, i: nat, j: nat): (r: Matrix)
    requires i < |m| && j < |m[i]|
    ensures |r| == |m| && forall a :: 0 <= a < |m| && a != i ==> r[a] == m[a]
    ensures |r[i]| == |m[i]| && r[i][j] == m[i][j] + 1 && forall b :: 0 <= b < |m[i]| && b != j ==> r[i][b] == m[i][b]
  {
    m[i := m[i][j := m[i][j] + 1]]
  }

  /** `after` adds one to the entries of `before` whose column is absent from the owner row. */
  ghost predicate RowRaised(before: seq<nat>, after: seq<nat>, labels: seq<string>, row: map<string, nat>, cols: nat) {
    && |before| == |after| == |labels|
    && (forall j :: 0 <= j < |labels| ==>
        after[j] == if j < cols && labels[j] !in row then before[j] + 1 else before[j])
  }

  /** The innermost loop: one owner of one value against every column. */
  method TallyRow(labels: seq<string>, row: map<string, nat>, everyTrial: bool, at: nat, any0: Matrix, all0: Matrix)
    returns (any: Matrix, all: Matrix)
    requires at < |labels|
    requires Square(any0, |labels|) && Square(all0, |labels|)
    ensures |any| == |all| == |labels|
    ensures forall i :: 0 <= i < |labels| && i != at ==> any[i] == any0[i] && all[i] == all0[i]
    ensures RowRaised(any0[at], any[at], labels, row, |labels|)
    ensures if everyTrial then RowRaised(all0[at], all[at], labels, row, |labels|) else all[at] == all0[at]
  {
    any, all := any0, all0;
    for col := 0 to |labels|
      invariant |any| == |all| == |labels|
      invariant forall i :: 0 <= i < |labels| && i != at ==> any[i] == any0[i] && all[i] == all0[i]
      invariant RowRaised(any0[at], any[at], labels, row, col)
      invariant if everyTrial then RowRaised(all0[at], all[at], labels, row, col) else all[at] == all0[at]
    {
      if labels[col] in row {
        continue;
      }
      any := Bump(any, at, col);
      if everyTrial {
        all := Bump(all, at, col);
      }
    }
  }

  ghost predicate PairRaised(labels: seq<string>, index: TrialSetIndex, v: string, r: string,
                             any0: seq<nat>, any: seq<nat>, all0: seq<nat>, all: seq<nat>) {
    && |any0| == |any| == |all0| == |all| == |labels|
    && (forall j :: 0 <= j < |labels| ==> any[j] == if AnyHit(index, v, r, labels[j]) then any0[j] + 1 else any0[j])
    && (forall j :: 0 <= j < |labels| ==> all[j] == if AllHit(index, v, r, labels[j]) then all0[j] + 1 else all0[j])
  }

  /** One owner of one value, in terms of hits. */
  method TallyOwner(labels: seq<string>, index: TrialSetIndex, v: string, r: string, at: nat, any0: Matrix,
                    all0: Matrix)
    returns (any: Matrix, all: Matrix)
    requires at < |labels| && labels[at] == r
    requires v in index.owners && r in index.owners[v] && r in index.reps
    requires Square(any0, |labels|) && Square(all0, |labels|)
    ensures Square(any, |labels|) && Square(all, |labels|)
    ensures forall i :: 0 <= i < |labels| && i != at ==> any[i] == any0[i] && all[i] == all0[i]
    ensures PairRaised(labels, index, v, r, any0[at], any[at], all0[at], all[at])
  {
    var row := index.owners[v];
    any, all := TallyRow(labels, row, row[r] == index.reps[r], at, any0, all0);
  }

  lemma NotRaisedByStranger(labels: seq<string>, index: TrialSetIndex, v: string, r: string, any: seq<nat>,
                            all: seq<nat>)
    requires v in index.owners && r !in index.owners[v] && |any| == |all| == |labels|
    ensures PairRaised(labels, index, v, r, any, any, all, all)
  {}

  /** The rows whose label was visited carry their hits; the others are untouched. */
  ghost predicate RowsRaised(labels: seq<string>, index: TrialSetIndex, v: string, rest: set<string>,
                             any0: Matrix, any: Matrix, all0: Matrix, all: Matrix) {
    && Square(any0, |labels|) && Square(all0, |labels|) && Square(any, |labels|) && Square(all, |labels|)
    && (forall i :: 0 <= i < |labels| ==>
        if labels[i] in rest then any[i] == any0[i] && all[i] == all0[i]
        else PairRaised(labels, index, v, labels[i], any0[i], any[i], all0[i], all[i]))
  }

  lemma NoRowRaised(labels: seq<string>, index: TrialSetIndex, v: string, any: Matrix, all: Matrix)
    requires v in index.owners && Square(any, |labels|) && Square(all, |labels|)
    ensures RowsRaised(labels, index, v, index.owners[v].Keys, any, any, all, all)
  {
    forall i | 0 <= i < |labels| && labels[i] !in index.owners[v]
      ensures PairRaised(labels, index, v, labels[i], any[i], any[i], all[i], all[i])
    {
      NotRaisedByStranger(labels, index, v, labels[i], any[i], all[i]);
    }
  }

  /** One value's contribution to the pairwise matrices. */
  method TallyPairwise(labels: seq<string>, index: TrialSetIndex, v: string, at: map<string, nat>, any0: Matrix,
                       all0: Matrix)
    returns (any: Matrix, all: Matrix)
    requires forall i :: 0 <= i < |labels| ==> labels[i] in at && at[labels[i]] == i
    requires v in index.owners
    requires forall l :: l in index.owners[v] ==> l in index.reps && l in at && at[l] < |labels| && labels[at[l]] == l
    requires Square(any0, |labels|) && Square(all0, |labels|)
    ensures RowsRaised(labels, index, v, {}, any0, any, all0, all)
  {
    any, all := any0, all0;
    NoRowRaised(labels, index, v, any, all);
    var rest := index.owners[v].Keys;
    while rest != {}
      invariant rest <= index.owners[v].Keys
      invariant RowsRaised(labels, index, v, rest, any0, any, all0, all)
      decreases rest
    {
      var r :| r in rest;
      any, all := TallyOwner(labels, index, v, r, at[r], any, all);
      rest := rest - {r};
    }
  }

  ghost predicate SolesRaised(labels: seq<string>, index: TrialSetIndex, v: string,
                              any0: seq<nat>, any: seq<nat>, all0: seq<nat>, all: seq<nat>) {
    && |any0| == |any| == |all0| == |all| == |labels|
    && (forall i :: 0 <= i < |labels| ==> any[i] == any0[i] + if SoleHit(index, v, labels[i]) then 1 else 0)
    && (forall i :: 0 <= i < |labels| ==> all[i] == all0[i] + if SoleAllHit(index, v, labels[i]) then 1 else 0)
  }

  /** One value's contribution to the exclusive counts. */
  /** With a single owner, its position is the only one hit. */
  lemma SoleHitAt(labels: seq<string>, index: TrialSetIndex, v: string, r: string)
    requires Distinct(labels) && v in index.owners && index.owners[v].Keys == {r} && r in labels && r in index.reps
    ensures forall i :: 0 <= i < |labels| ==> (SoleHit(index, v, labels[i]) <==> i == Positions(labels)[r])
    ensures forall i :: 0 <= i < |labels| ==>
      (SoleAllHit(index, v, labels[i]) <==> i == Positions(labels)[r] && index.owners[v][r] == index.reps[r])
  {
    assert forall i :: 0 <= i < |labels| ==> (labels[i] == r <==> i == Positions(labels)[r]);
    assert forall l :: {l} == {r} <==> l == r by {
      forall l ensures {l} == {r} <==> l == r {
        assert l in {l};
      }
    }
  }

  method TallyExclusive(labels: seq<string>, index: TrialSetIndex, v: string, at: map<string, nat>, any0: seq<nat>,
                        all0: seq<nat>)
    returns (any: seq<nat>, all: seq<nat>)
    requires Distinct(labels) && at == Positions(labels)
    requires v in index.owners && (forall l :: l in index.owners[v] ==> l in labels && l in index.reps)
    requires |any0| == |all0| == |labels|
    ensures SolesRaised(labels, index, v, any0, any, all0, all)
  {
    any, all := any0, all0;
    var row := index.owners[v];
    if |row| == 1 {
      var r :| r in row;
      SingletonKeys(row, r);
      SoleHitAt(labels, index, v, r);
      any := any[at[r] := any[at[r]] + 1];
      if row[r] == index.reps[r] {
        all := all[at[r] := all[at[r]] + 1];
      }
    } else {
      NoSingletonKeys(row);
    }
  }

  lemma SingletonKeys(row: map<string, nat>, r: string)
    requires |row| == 1 && r in row
    ensures row.Keys == {r}
  {
    SubsetCardinality({r}, row.Keys);
    assert |row.Keys| == |row|;
  }

  lemma NoSingletonKeys(row: map<string, nat>)
    requires |row| != 1
    ensures forall r :: row.Keys != {r}
  {
    assert |row| == |row.Keys|;
  }

  datatype Tally = Tally(pairAny: Matrix, pairAll: Matrix, soleAny: seq<nat>, soleAll: seq<nat>) {
    ghost predicate Shaped(n: nat) {
      Square(pairAny, n) && Square(pairAll, n) && |soleAny| == |soleAll| == n
    }

    /** The counts accumulated once the values of `done` have been visited. */
    ghost predicate Counts(labels: seq<string>, index: TrialSetIndex, done: set<string>)
      requires Shaped(|labels|)
    {
      && (forall i, j :: 0 <= i < |labels| && 0 <= j < |labels| ==>
          && pairAny[i][j] == |AnyHits(index, done, labels[i], labels[j])|
          && pairAll[i][j] == |AllHits(index, done, labels[i], labels[j])|)
      && (forall i :: 0 <= i < |labels| ==>
          && soleAny[i] == |SoleHits(index, done, labels[i])|
          && soleAll[i] == |SoleAllHits(index, done, labels[i])|)
    }
  }

  lemma AnyHitsGrow(index: TrialSetIndex, done: set<string>, v: string, r: string, c: string)
    requires v !in done
    ensures |AnyHits(index, done + {v}, r, c)| == |AnyHits(index, done, r, c)| + if AnyHit(index, v, r, c) then 1 else 0
  {
    AddOne(AnyHits(index, done, r, c), AnyHits(index, done + {v}, r, c), v, AnyHit(index, v, r, c));
  }

  lemma AllHitsGrow(index: TrialSetIndex, done: set<string>, v: string, r: string, c: string)
    requires v !in done
    ensures |AllHits(index, done + {v}, r, c)| == |AllHits(index, done, r, c)| + if AllHit(index, v, r, c) then 1 else 0
  {
    AddOne(AllHits(index, done, r, c), AllHits(index, done + {v}, r, c), v, AllHit(index, v, r, c));
  }

  lemma SoleHitsGrow(index: TrialSetIndex, done: set<string>, v: string, r: string)
    requires v !in done
    ensures |SoleHits(index, done + {v}, r)| == |SoleHits(index, done, r)| + if SoleHit(index, v, r) then 1 else 0
  {
    AddOne(SoleHits(index, done, r), SoleHits(index, done + {v}, r), v, SoleHit(index, v, r));
  }

  lemma SoleAllHitsGrow(index: TrialSetIndex, done: set<string>, v: string, r: string)
    requires v !in done
    ensures |SoleAllHits(index, done + {v}, r)|
         == |SoleAllHits(index, done, r)| + if SoleAllHit(index, v, r) then 1 else 0
  {
    AddOne(SoleAllHits(index, done, r), SoleAllHits(index, done + {v}, r), v, SoleAllHit(index, v, r));
  }

  /** One more value moves every pairwise entry from the count over `done` to the next. */
  lemma PairStep(labels: seq<string>, index: TrialSetIndex, done: set<string>, v: string, i: nat, j: nat,
                 any0: seq<nat>, any: seq<nat>, all0: seq<nat>, all: seq<nat>)
    requires i < |labels| && j < |labels| && v !in done
    requires PairRaised(labels, index, v, labels[i], any0, any, all0, all)
    requires any0[j] == |AnyHits(index, done, labels[i], labels[j])| &&
      all0[j] == |AllHits(index, done, labels[i], labels[j])|
    ensures any[j] == |AnyHits(index, done + {v}, labels[i], labels[j])| &&
      all[j] == |AllHits(index, done + {v}, labels[i], labels[j])|
  {
    AnyHitsGrow(index, done, v, labels[i], labels[j]);
    AllHitsGrow(index, done, v, labels[i], labels[j]);
  }

  lemma TallyStep(labels: seq<string>, index: TrialSetIndex, done: set<string>, v: string, before: Tally, after: Tally)
    requires before.Shaped(|labels|) && before.Counts(labels, index, done) && v !in done
    requires |after.soleAny| == |after.soleAll| == |labels|
    requires RowsRaised(labels, index, v, {}, before.pairAny, after.pairAny, before.pairAll, after.pairAll)
    requires SolesRaised(labels, index, v, before.soleAny, after.soleAny, before.soleAll, after.soleAll)
    ensures after.Shaped(|labels|) && after.Counts(labels, index, done + {v})
  {
    forall i, j | 0 <= i < |labels| && 0 <= j < |labels|
      ensures after.pairAny[i][j] == |AnyHits(index, done + {v}, labels[i], labels[j])|
      ensures after.pairAll[i][j] == |AllHits(index, done + {v}, labels[i], labels[j])|
    {
      PairStep(labels, index, done, v, i, j, before.pairAny[i], after.pairAny[i], before.pairAll[i], after.pairAll[i]);
    }
    forall i | 0 <= i < |labels|
      ensures after.soleAny[i] == |SoleHits(index, done + {v}, labels[i])|
      ensures after.soleAll[i] == |SoleAllHits(index, done + {v}, labels[i])|
    {
      SoleHitsGrow(index, done, v, labels[i]);
      SoleAllHitsGrow(index, done, v, labels[i]);
    }
  }

  /** The body of the loop over the owners. */
  method TallyValue(labels: seq<string>, index: TrialSetIndex, ghost done: set<string>, v: string,
                    at: map<string, nat>, before: Tally)
    returns (after: Tally)
    requires Distinct(labels) && at == Positions(labels)
    requires v in index.owners && v !in done && (forall l :: l in index.owners[v] ==> l in labels && l in index.reps)
    requires before.Shaped(|labels|) && before.Counts(labels, index, done)
    ensures after.Shaped(|labels|) && after.Counts(labels, index, done + {v})
  {
    var soleAny, soleAll := TallyExclusive(labels, index, v, at, before.soleAny, before.soleAll);
    var pairAny, pairAll := TallyPairwise(labels, index, v, at, before.pairAny, before.pairAll);
    after := Tally(pairAny, pairAll, soleAny, soleAll);
    TallyStep(labels, index, done, v, before, after);
  }

  /** The single pass over the owners, from zero-initialised tables. */
  method CountOwnership(labels: seq<string>, index: TrialSetIndex) returns (tally: Tally)
    requires Distinct(labels)
    requires forall v :: v in index.owners ==> forall l :: l in index.owners[v] ==> l in labels && l in index.reps
    ensures tally.Shaped(|labels|) && tally.Counts(labels, index, index.owners.Keys)
  {
    var n := |labels|;
    var zeros := seq(n, _ => 0);
    tally := Tally(seq(n, _ => zeros), seq(n, _ => zeros), zeros, zeros);
    NothingCounted(labels, index, tally);
    var at := Positions(labels);
    var rest := index.owners.Keys;
    ghost var done: set<string> := {};
    while rest != {}
      invariant rest !! done && rest + done == index.owners.Keys
      invariant tally.Shaped(n) && tally.Counts(labels, index, done)
      decreases rest
    {
      var v :| v in rest;
      tally := TallyValue(labels, index, done, v, at, tally);
      rest, done := rest - {v}, done + {v};
    }
  }

  lemma NothingCounted(labels: seq<string>, index: TrialSetIndex, tally: Tally)
    requires tally.Shaped(|labels|)
    requires forall i, j :: 0 <= i < |labels| && 0 <= j < |labels| ==> tally.pairAny[i][j] == tally.pairAll[i][j] == 0
    requires forall i :: 0 <= i < |labels| ==> tally.soleAny[i] == tally.soleAll[i] == 0
    ensures tally.Counts(labels, index, {})
  {
    forall r, c ensures AnyHits(index, {}, r, c) == AllHits(index, {}, r, c) == {} {}
    forall r ensures SoleHits(index, {}, r) == SoleAllHits(index, {}, r) == {} {}
  }

  // ----- Bounds ------------------------------------------------------------------------

  function AnyBound(rowMissing: bool, othersMissing: bool): Bound {
    if rowMissing && othersMissing then Indeterminate
    else if rowMissing then Lower
    else if othersMissing then Upper
    else Exact
  }

  function AnyCell(reps: nat, rowMissing: bool, othersMissing: bool, count: nat): Cell {
    if reps == 0 then Cell(None, Unknown) else Cell(Some(count), AnyBound(rowMissing, othersMissing))
  }

  function AllCell(reps: nat, rowMissing: bool, othersMissing: bool, strictUnknown: bool, count: nat): Cell {
    if reps == 0 || rowMissing || strictUnknown then Cell(None, Unknown)
    else Cell(Some(count), if othersMissing then Upper else Exact)
  }

  ghost function Reps(sets: map<string, TrialSets>, l: string): nat { |Usable(SetsOf(sets, l))| }

  ghost predicate Partial(sets: map<string, TrialSets>, l: string) { Missing(SetsOf(sets, l)) > 0 }

  ghost predicate OthersPartial(labels: seq<string>, sets: map<string, TrialSets>, l: string) {
    exists c :: c in labels && c != l && Partial(sets, c)
  }

  ghost predicate PairwiseReported(c: Comparison, labels: seq<string>, sets: map<string, TrialSets>,
                                   strictUnknown: set<string>)
  {
    && |c.pairwiseAny| == |c.pairwiseAll| == |labels|
    && (forall i :: 0 <= i < |labels| ==>
        RowReported(c.pairwiseAny[i], c.pairwiseAll[i], labels, sets, strictUnknown, labels[i]))
  }

  ghost predicate RowReported(any: seq<Cell>, all: seq<Cell>, labels: seq<string>, sets: map<string, TrialSets>,
                              strictUnknown: set<string>, r: string) {
    && |any| == |all| == |labels|
    && (forall j :: 0 <= j < |labels| ==> PairReported(any[j], all[j], sets, strictUnknown, r, labels[j]))
  }

  ghost predicate PairReported(any: Cell, all: Cell, sets: map<string, TrialSets>, strictUnknown: set<string>,
                               r: string, c: string)
  {
    && any == AnyCell(Reps(sets, r), Partial(sets, r), Partial(sets, c), |AnyDifference(sets, r, c)|)
    && all == AllCell(Reps(sets, r), Partial(sets, r), Partial(sets, c), r in strictUnknown,
                      |AllDifference(sets, r, c)|)
  }

  ghost predicate SoleReported(any: Cell, all: Cell, labels: seq<string>, sets: map<string, TrialSets>,
                               strictUnknown: set<string>, r: string)
  {
    && any == AnyCell(Reps(sets, r), Partial(sets, r), OthersPartial(labels, sets, r), |AnyExclusive(labels, sets, r)|)
    && all == AllCell(Reps(sets, r), Partial(sets, r), OthersPartial(labels, sets, r), r in strictUnknown,
                      |AllExclusive(labels, sets, r)|)
  }

  ghost predicate ExclusiveReported(c: Comparison, labels: seq<string>, sets: map<string, TrialSets>,
                                    strictUnknown: set<string>)
  {
    && |c.exclusiveAny| == |c.exclusiveAll| == |labels|
    && (forall i :: 0 <= i < |labels| ==>
        SoleReported(c.exclusiveAny[i], c.exclusiveAll[i], labels, sets, strictUnknown, labels[i]))
  }

}
