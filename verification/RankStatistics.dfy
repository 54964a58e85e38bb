/**
  Mann-Whitney U by mid-ranks and Vargha-Delaney A12 by pair counting: two algorithms for one
  quantity. Ranks, U and win counts are doubled so that half points stay integers.
 */
module RankStatistics {
  import opened Common

  // ----- Pair counting -------------------------------------------------------------------

  function Below(s: seq<real>, v: real): nat {
    if s == [] then 0 else (if s[0] < v then 1 else 0) + Below(s[1..], v)
  }

  function Ties(s: seq<real>, v: real): nat {
    if s == [] then 0 else (if s[0] == v then 1 else 0) + Ties(s[1..], v)
  }

  function Above(s: seq<real>, v: real): nat {
    if s == [] then 0 else (if s[0] > v then 1 else 0) + Above(s[1..], v)
  }

  /** Two points for every pair with x > y and one for every tie. */
  function Points(x: seq<real>, y: seq<real>): nat {
    if x == [] then 0 else 2 * Below(y, x[0]) + Ties(y, x[0]) + Points(x[1..], y)
  }

  lemma {:induction false} CountsConcat(s: seq<real>, t: seq<real>, v: real)
    ensures Below(s + t, v) == Below(s, v) + Below(t, v)
    ensures Ties(s + t, v) == Ties(s, v) + Ties(t, v)
    ensures Above(s + t, v) == Above(s, v) + Above(t, v)
  {
    if s == [] {
      assert s + t == t;
    } else {
      assert (s + t)[1..] == s[1..] + t;
      CountsConcat(s[1..], t, v);
    }
  }

  lemma {:induction false} CountsTotal(s: seq<real>, v: real)
    ensures Below(s, v) + Ties(s, v) + Above(s, v) == |s|
  {
    if s != [] { CountsTotal(s[1..], v); }
  }

  lemma {:induction false} PointsAgainstOneMore(y: seq<real>, a: real, x: seq<real>)
    ensures Points(y, [a] + x) == Points(y, x) + 2 * Above(y, a) + Ties(y, a)
  {
    if y != [] {
      CountsConcat([a], x, y[0]);
      assert Below([a], y[0]) == (if a < y[0] then 1 else 0) + Below([], y[0]);
      assert Ties([a], y[0]) == (if a == y[0] then 1 else 0) + Ties([], y[0]);
      PointsAgainstOneMore(y[1..], a, x);
    }
  }

  /** Every pair hands out two points in all. */
  lemma {:induction false} PointsComplementary(x: seq<real>, y: seq<real>)
    ensures Points(x, y) + Points(y, x) == 2 * (|x| * |y|)
  {
    if x == [] {
      NoPoints(y);
    } else {
      assert x == [x[0]] + x[1..];
      PointsAgainstOneMore(y, x[0], x[1..]);
      CountsTotal(y, x[0]);
      PointsComplementary(x[1..], y);
      PeelProduct(|x|, |y|);
    }
  }

  lemma PeelProduct(a: int, b: int)
    ensures a * b == b + (a - 1) * b
  {}

  lemma {:induction false} NoPoints(y: seq<real>)
    ensures Points(y, []) == 0
  {
    if y != [] { NoPoints(y[1..]); }
  }

  lemma {:induction false} PointsSplit(x: seq<real>, y: seq<real>, z: seq<real>)
    ensures Points(x, y + z) == Points(x, y) + Points(x, z)
  {
    if x != [] {
      CountsConcat(y, z, x[0]);
      PointsSplit(x[1..], y, z);
    }
  }

  /** The double loop of A12. The effect size is the points over `2 * |x| * |y|`. */
  method VarghaDelaney(x: seq<real>, y: seq<real>) returns (points: Option<nat>)
    ensures points == if x == [] || y == [] then None else Some(Points(x, y))
  {
    if x == [] || y == [] {
      return None;
    }
    var wins := 0;
    for i := |x| downto 0
      invariant wins == Points(x[i..], y)
    {
      ghost var before := wins;
      for j := |y| downto 0
        invariant wins == before + 2 * Below(y[j..], x[i]) + Ties(y[j..], x[i])
      {
        if x[i] > y[j] {
          wins := wins + 2;
        } else if x[i] == y[j] {
          wins := wins + 1;
        }
      }
    }
    points := Some(wins);
  }

  // ----- The pooled, sorted sample ---------------------------------------------------------

  datatype Obs = Obs(value: real, fromX: bool)

  function Tag(s: seq<real>, fromX: bool): (r: seq<Obs>)
    ensures |r| == |s|
  {
    seq(|s|, i requires 0 <= i < |s| => Obs(s[i], fromX))
  }

  function Values(s: seq<Obs>): (r: seq<real>)
    ensures |r| == |s|
  {
    seq(|s|, i requires 0 <= i < |s| => s[i].value)
  }

  ghost predicate Ascending(s: seq<Obs>) {
    forall i, j :: 0 <= i < j < |s| ==> s[i].value <= s[j].value
  }

  function Insert(o: Obs, s: seq<Obs>): (r: seq<Obs>)
    ensures |r| == |s| + 1
  {
    if s == [] || o.value <= s[0].value then [o] + s else [s[0]] + Insert(o, s[1..])
  }

  /** Stable sort by value, the contract of `list.sort` with a key. */
  function SortByValue(s: seq<Obs>): (r: seq<Obs>)
    ensures |r| == |s|
  {
    if s == [] then [] else Insert(s[0], SortByValue(s[1..]))
  }

  lemma {:induction false} InsertKeeps(o: Obs, s: seq<Obs>)
    requires Ascending(s)
    ensures Ascending(Insert(o, s))
    ensures multiset(Insert(o, s)) == multiset{o} + multiset(s)
  {
    if s == [] || o.value <= s[0].value {
      assert Insert(o, s) == [o] + s;
    } else {
      var rest := Insert(o, s[1..]);
      InsertKeeps(o, s[1..]);
      InsertedAbove(o, s, rest);
      AscendingCons(s[0], rest);
      MultisetCons(o, s, rest);
    }
  }

  lemma AscendingCons(first: Obs, rest: seq<Obs>)
    requires Ascending(rest) && forall i :: 0 <= i < |rest| ==> first.value <= rest[i].value
    ensures Ascending([first] + rest)
  {}

  lemma MultisetCons(o: Obs, s: seq<Obs>, rest: seq<Obs>)
    requires s != [] && multiset(rest) == multiset{o} + multiset(s[1..])
    ensures multiset([s[0]] + rest) == multiset{o} + multiset(s)
  {
    assert s == [s[0]] + s[1..];
  }

  lemma InsertedAbove(o: Obs, s: seq<Obs>, rest: seq<Obs>)
    requires s != [] && Ascending(s) && o.value > s[0].value
    requires multiset(rest) == multiset{o} + multiset(s[1..])
    ensures forall i :: 0 <= i < |rest| ==> s[0].value <= rest[i].value
  {
    forall i | 0 <= i < |rest| ensures s[0].value <= rest[i].value {
      assert rest[i] in multiset(rest);
      assert rest[i] == o || rest[i] in s[1..];
    }
  }

  lemma {:induction false} SortKeeps(s: seq<Obs>)
    ensures Ascending(SortByValue(s)) && multiset(SortByValue(s)) == multiset(s)
  {
    if s != [] {
      SortKeeps(s[1..]);
      InsertKeeps(s[0], SortByValue(s[1..]));
      assert s == [s[0]] + s[1..];
    }
  }

  /** The doubled mid-rank of a value in a pool. */
  function MidRank(pool: seq<real>, v: real): int {
    2 * Below(pool, v) + Ties(pool, v) + 1
  }

  /** The doubled rank sum of the observations of `s` that come from x, ranked in `pool`. */
  function RankSum(s: seq<Obs>, pool: seq<real>): int {
    if s == [] then 0 else (if s[0].fromX then MidRank(pool, s[0].value) else 0) + RankSum(s[1..], pool)
  }

  /** Every observation contributes t*t - 1, so a group of t ties contributes t^3 - t. */
  function TieSum(s: seq<real>, pool: seq<real>): int {
    if s == [] then 0 else Ties(pool, s[0]) * Ties(pool, s[0]) - 1 + TieSum(s[1..], pool)
  }

  // ----- What sorting leaves alone -----------------------------------------------------------

  lemma {:induction false} InsertCounts(o: Obs, s: seq<Obs>, v: real)
    ensures Below(Values(Insert(o, s)), v) == (if o.value < v then 1 else 0) + Below(Values(s), v)
    ensures Ties(Values(Insert(o, s)), v) == (if o.value == v then 1 else 0) + Ties(Values(s), v)
  {
    if s == [] || o.value <= s[0].value {
      assert Values([o] + s)[1..] == Values(s);
    } else {
      InsertCounts(o, s[1..], v);
      assert Values(s)[1..] == Values(s[1..]);
      assert Values([s[0]] + Insert(o, s[1..]))[1..] == Values(Insert(o, s[1..]));
    }
  }

  lemma {:induction false} SortCounts(s: seq<Obs>, v: real)
    ensures Below(Values(SortByValue(s)), v) == Below(Values(s), v)
    ensures Ties(Values(SortByValue(s)), v) == Ties(Values(s), v)
  {
    if s != [] {
      SortCounts(s[1..], v);
      InsertCounts(s[0], SortByValue(s[1..]), v);
      assert Values(s)[1..] == Values(s[1..]);
    }
  }

  lemma {:induction false} InsertSums(o: Obs, s: seq<Obs>, pool: seq<real>)
    ensures RankSum(Insert(o, s), pool) == (if o.fromX then MidRank(pool, o.value) else 0) + RankSum(s, pool)
    ensures TieSum(Values(Insert(o, s)), pool)
         == Ties(pool, o.value) * Ties(pool, o.value) - 1 + TieSum(Values(s), pool)
  {
    if s == [] || o.value <= s[0].value {
      assert ([o] + s)[1..] == s;
      assert Values([o] + s)[1..] == Values(s);
    } else {
      InsertSums(o, s[1..], pool);
      assert Values(s)[1..] == Values(s[1..]);
      assert ([s[0]] + Insert(o, s[1..]))[1..] == Insert(o, s[1..]);
      assert Values([s[0]] + Insert(o, s[1..]))[1..] == Values(Insert(o, s[1..]));
    }
  }

  lemma {:induction false} SortSums(s: seq<Obs>, pool: seq<real>)
    ensures RankSum(SortByValue(s), pool) == RankSum(s, pool)
    ensures TieSum(Values(SortByValue(s)), pool) == TieSum(Values(s), pool)
  {
    if s != [] {
      SortSums(s[1..], pool);
      InsertSums(s[0], SortByValue(s[1..]), pool);
      assert Values(s)[1..] == Values(s[1..]);
    }
  }

  /** The sums depend on the pool only through its counts. */
  lemma {:induction false} PoolCountsSuffice(s: seq<Obs>, pool: seq<real>, pool': seq<real>)
    requires forall v :: Below(pool, v) == Below(pool', v) && Ties(pool, v) == Ties(pool', v)
    ensures RankSum(s, pool) == RankSum(s, pool')
    ensures TieSum(Values(s), pool) == TieSum(Values(s), pool')
  {
    if s != [] {
      PoolCountsSuffice(s[1..], pool, pool');
      assert Values(s)[1..] == Values(s[1..]);
    }
  }

  // ----- The rank loop ------------------------------------------------------------------------

  /** In an ascending list, the block [i, j) of equal values sits between smaller and larger ones. */
  ghost predicate Block(s: seq<Obs>, i: nat, j: nat) {
    && i < j <= |s|
    && (forall k :: 0 <= k < i ==> s[k].value < s[i].value)
    && (forall k :: i <= k < j ==> s[k].value == s[i].value)
    && (forall k :: j <= k < |s| ==> s[k].value > s[i].value)
  }

  lemma {:induction false} UniformCounts(s: seq<real>, v: real)
    ensures (forall k :: 0 <= k < |s| ==> s[k] < v) ==> Below(s, v) == |s| && Ties(s, v) == 0
    ensures (forall k :: 0 <= k < |s| ==> s[k] == v) ==> Below(s, v) == 0 && Ties(s, v) == |s|
    ensures (forall k :: 0 <= k < |s| ==> s[k] > v) ==> Below(s, v) == 0 && Ties(s, v) == 0
  {
    if s != [] {
      UniformCounts(s[1..], v);
      assert forall k :: 1 <= k < |s| ==> s[k] == s[1..][k - 1];
    }
  }

  lemma BlockCounts(s: seq<Obs>, i: nat, j: nat)
    requires Block(s, i, j)
    ensures Below(Values(s), s[i].value) == i && Ties(Values(s), s[i].value) == j - i
  {
    SplitCounts(Values(s)[..i], Values(s)[i..j], Values(s)[j..], s[i].value);
    assert Values(s) == Values(s)[..i] + (Values(s)[i..j] + Values(s)[j..]);
  }

  lemma SplitCounts(a: seq<real>, b: seq<real>, c: seq<real>, v: real)
    requires forall k :: 0 <= k < |a| ==> a[k] < v
    requires forall k :: 0 <= k < |b| ==> b[k] == v
    requires forall k :: 0 <= k < |c| ==> c[k] > v
    ensures Below(a + (b + c), v) == |a| && Ties(a + (b + c), v) == |b|
  {
    UniformCounts(a, v);
    UniformCounts(b, v);
    UniformCounts(c, v);
    CountsConcat(a, b + c, v);
    CountsConcat(b, c, v);
  }

  /** The inner loop: where the block of values equal to the one at `i` ends. */
  method BlockEnd(combined: seq<Obs>, i: nat) returns (j: nat)
    requires Ascending(combined) && i < |combined|
    requires forall k :: 0 <= k < i ==> combined[k].value < combined[i].value
    ensures Block(combined, i, j)
  {
    j := i + 1;
    while j < |combined| && combined[j].value == combined[i].value
      invariant i < j <= |combined|
      invariant forall k :: i <= k < j ==> combined[k].value == combined[i].value
    {
      j := j + 1;
    }
    assert forall k :: j <= k < |combined| ==> combined[j].value <= combined[k].value;
  }

  ghost predicate BlockBoundary(s: seq<Obs>, i: nat) {
    i <= |s| && forall k, m :: 0 <= k < i <= m < |s| ==> s[k].value < s[m].value
  }

  /** Mid-ranks of an ascending pool, filled in block by block. */
  method AssignRanks(combined: seq<Obs>) returns (ranks: seq<int>)
    requires Ascending(combined)
    ensures |ranks| == |combined|
    ensures forall k :: 0 <= k < |combined| ==> ranks[k] == MidRank(Values(combined), combined[k].value)
  {
    var table := new int[|combined|](_ => 0);
    var i := 0;
    while i < |combined|
      invariant BlockBoundary(combined, i)
      invariant forall k :: 0 <= k < i ==> table[k] == MidRank(Values(combined), combined[k].value)
    {
      var j := BlockEnd(combined, i);
      BlockCounts(combined, i, j);
      for k := i to j
        invariant forall m :: 0 <= m < i ==> table[m] == MidRank(Values(combined), combined[m].value)
        invariant forall m :: i <= m < k ==> table[m] == i + 1 + j
      {
        table[k] := i + 1 + j;
      }
      i := j;
    }
    ranks := table[..];
  }

  lemma TieSumSnoc(s: seq<real>, v: real, pool: seq<real>)
    ensures TieSum(s + [v], pool) == TieSum(s, pool) + Ties(pool, v) * Ties(pool, v) - 1
  {
    if s == [] {
      assert s + [v] == [v] && [v][1..] == [];
    } else {
      assert (s + [v])[1..] == s[1..] + [v];
      TieSumSnoc(s[1..], v, pool);
    }
  }

  /** A whole block of t ties adds t times (t*t - 1). */
  lemma {:induction false} TieSumBlock(s: seq<Obs>, i: nat, j: nat, k: nat, t: int)
    requires Block(s, i, j) && i <= k <= j && t == j - i
    ensures TieSum(Values(s)[..k], Values(s)) == TieSum(Values(s)[..i], Values(s)) + (k - i) * (t * t - 1)
    decreases k
  {
    if k > i {
      BlockCounts(s, i, j);
      TieSumBlock(s, i, j, k - 1, t);
      assert Values(s)[..k] == Values(s)[..k - 1] + [Values(s)[k - 1]];
      TieSumSnoc(Values(s)[..k - 1], Values(s)[k - 1], Values(s));
      PeelProduct(k - i, t * t - 1);
    }
  }

  lemma SingleIsUntied(t: int)
    ensures t * (t * t - 1) == t * t * t - t
    ensures t == 1 ==> t * t * t - t == 0
  {}

  method TieCorrection(combined: seq<Obs>) returns (tieSum: int)
    requires Ascending(combined)
    ensures tieSum == TieSum(Values(combined), Values(combined))
  {
    tieSum := 0;
    var i := 0;
    while i < |combined|
      invariant BlockBoundary(combined, i)
      invariant tieSum == TieSum(Values(combined)[..i], Values(combined))
    {
      var j := BlockEnd(combined, i);
      var t := j - i;
      TieSumBlock(combined, i, j, j, t);
      SingleIsUntied(t);
      if t > 1 {
        tieSum := tieSum + (t * t * t - t);
      }
      i := j;
    }
    assert Values(combined)[..|combined|] == Values(combined);
  }

  method RankSumOfX(combined: seq<Obs>, ranks: seq<int>, ghost pool: seq<real>) returns (r1: int)
    requires |ranks| == |combined|
    requires forall k :: 0 <= k < |combined| ==> ranks[k] == MidRank(pool, combined[k].value)
    ensures r1 == RankSum(combined, pool)
  {
    r1 := 0;
    for i := |combined| downto 0
      invariant r1 == RankSum(combined[i..], pool)
    {
      if combined[i].fromX {
        r1 := r1 + ranks[i];
      }
    }
  }

  // ----- The statistic ---------------------------------------------------------------------------

  /** Doubled U values and the tie-corrected variance as a fraction. */
  datatype Statistic = Statistic(u1: int, u2: int, u: int, varianceNumerator: int, varianceDenominator: int)

  ghost function VarianceNumerator(x: seq<real>, y: seq<real>): int {
    var n := |x| + |y|;
    |x| * |y| * ((n + 1) * n * (n - 1) - TieSum(x + y, x + y))
  }

  /** numerator/denominator == value/scale */
  ghost predicate SameFraction(numerator: int, denominator: int, value: int, scale: int) {
    denominator > 0 && scale > 0 && numerator * scale == denominator * value
  }

  /** The fraction is n1*n2/12 * (n + 1 - ties/(n*(n - 1))). */
  ghost predicate IsVariance(s: Statistic, n1: nat, n2: nat, ties: int) {
    var n := n1 + n2;
    SameFraction(s.varianceNumerator, s.varianceDenominator, n1 * n2 * ((n + 1) * n * (n - 1) - ties), 12 * n * (n - 1))
  }

  /** What the rank-based computation yields, in terms of pair counting. */
  ghost function Expected(x: seq<real>, y: seq<real>): Option<Statistic> {
    var n := |x| + |y|;
    if |x| < 2 || |y| < 2 || VarianceNumerator(x, y) <= 0 then None
    else Some(Statistic(Points(x, y), Points(y, x), if Points(x, y) <= Points(y, x) then Points(x, y) else Points(y, x),
                        VarianceNumerator(x, y), 12 * n * (n - 1)))
  }

  lemma ExpectedMeaning(x: seq<real>, y: seq<real>)
    ensures var r := Expected(x, y);
      && (r.Some? <==> |x| >= 2 && |y| >= 2 && !Constant(x + y))
      && (r.Some? ==> r.value.u1 == Points(x, y) && r.value.u2 == Points(y, x))
      && (r.Some? ==> r.value.u <= r.value.u1 && r.value.u <= r.value.u2)
      && (r.Some? ==> r.value.u == r.value.u1 || r.value.u == r.value.u2)
  {
    WithheldExactly(x, y);
  }

  lemma ExpectedVariance(x: seq<real>, y: seq<real>)
    requires Expected(x, y).Some?
    ensures IsVariance(Expected(x, y).value, |x|, |y|, TieSum(x + y, x + y))
  {
    var s, n := Expected(x, y).value, |x| + |y|;
    PositiveScale(n);
    FractionItself(s.varianceNumerator, s.varianceDenominator);
  }

  lemma FractionItself(value: int, scale: int)
    requires scale > 0
    ensures SameFraction(value, scale, value, scale)
  {
    Commute(value, scale);
  }

  lemma PositiveScale(n: nat)
    requires n >= 2
    ensures 12 * n * (n - 1) > 0
  {
    assert n * (n - 1) > 0;
    assert 12 * n * (n - 1) == 12 * (n * (n - 1));
  }

  /**
    The result exists unless a sample is short or the pool constant; u is the smaller of the two U
    values, which are the pair points either way; the fraction is the tie-corrected variance.
   */
  method MannWhitney(x: seq<real>, y: seq<real>) returns (r: Option<Statistic>)
    ensures r == Expected(x, y)
    ensures r.Some? <==> |x| >= 2 && |y| >= 2 && !Constant(x + y)
    ensures r.Some? ==> r.value.u1 == Points(x, y) && r.value.u2 == Points(y, x)
    ensures r.Some? ==> r.value.u <= r.value.u1 && r.value.u <= r.value.u2
    ensures r.Some? ==> r.value.u == r.value.u1 || r.value.u == r.value.u2
    ensures r.Some? ==> IsVariance(r.value, |x|, |y|, TieSum(x + y, x + y))
  {
    ExpectedMeaning(x, y);
    r := ComputeStatistic(x, y);
    if r.Some? {
      ExpectedVariance(x, y);
    }
  }

  /** The computation itself. */
  method ComputeStatistic(x: seq<real>, y: seq<real>) returns (r: Option<Statistic>)
    ensures r == Expected(x, y)
  {
    var n1, n2 := |x|, |y|;
    if n1 < 2 || n2 < 2 {
      return None;
    }
    var combined := SortByValue(Tag(x, true) + Tag(y, false));
    SortKeeps(Tag(x, true) + Tag(y, false));
    var ranks := AssignRanks(combined);
    var r1 := RankSumOfX(combined, ranks, Values(combined));
    RankSumIsPoints(x, y);
    var u1 := r1 - n1 * (n1 + 1);
    var u2 := 2 * (n1 * n2) - u1;
    var u := if u1 <= u2 then u1 else u2;
    var tieSum := TieCorrection(combined);
    SortedTieSum(x, y);
    PointsComplementary(x, y);
    var n := n1 + n2;
    var variance := n1 * n2 * ((n + 1) * n * (n - 1) - tieSum);
    if variance <= 0 {
      return None;
    }
    r := Some(Statistic(u1, u2, u, variance, 12 * n * (n - 1)));
  }

  lemma PooledValues(x: seq<real>, y: seq<real>)
    ensures Values(Tag(x, true) + Tag(y, false)) == x + y
  {}

  lemma SortedTieSum(x: seq<real>, y: seq<real>)
    ensures var sorted := Values(SortByValue(Tag(x, true) + Tag(y, false)));
      TieSum(sorted, sorted) == TieSum(x + y, x + y)
  {
    var s := Tag(x, true) + Tag(y, false);
    PooledValues(x, y);
    forall v
      ensures Below(Values(SortByValue(s)), v) == Below(x + y, v) && Ties(Values(SortByValue(s)), v) == Ties(x + y, v)
    {
      SortCounts(s, v);
    }
    PoolCountsSuffice(SortByValue(s), Values(SortByValue(s)), x + y);
    SortSums(s, x + y);
  }

  lemma {:induction false} RankSumOfTagged(x: seq<real>, y: seq<real>, pool: seq<real>)
    ensures RankSum(Tag(x, true) + Tag(y, false), pool) == Points(x, pool) + |x|
  {
    var s := Tag(x, true) + Tag(y, false);
    if x != [] {
      assert s[1..] == Tag(x[1..], true) + Tag(y, false);
      RankSumOfTagged(x[1..], y, pool);
    } else {
      assert s == Tag(y, false);
      NoXNoRanks(s, pool);
    }
  }

  lemma {:induction false} NoXNoRanks(s: seq<Obs>, pool: seq<real>)
    requires forall k :: 0 <= k < |s| ==> !s[k].fromX
    ensures RankSum(s, pool) == 0
  {
    if s != [] { NoXNoRanks(s[1..], pool); }
  }

  /** The heart of the matter: the doubled rank sum of x is its pair points plus n1*(n1+1). */
  lemma RankSumIsPoints(x: seq<real>, y: seq<real>)
    ensures var sorted := SortByValue(Tag(x, true) + Tag(y, false));
      RankSum(sorted, Values(sorted)) == Points(x, y) + |x| * (|x| + 1)
  {
    var s := Tag(x, true) + Tag(y, false);
    var sorted := SortByValue(s);
    PooledValues(x, y);
    forall v ensures Below(Values(sorted), v) == Below(x + y, v) && Ties(Values(sorted), v) == Ties(x + y, v) {
      SortCounts(s, v);
    }
    PoolCountsSuffice(sorted, Values(sorted), x + y);
    SortSums(s, x + y);
    RankSumOfTagged(x, y, x + y);
    PointsSplit(x, x, y);
    PointsComplementary(x, x);
    assert |x| * (|x| + 1) == |x| * |x| + |x|;
  }

  // ----- Consequences ------------------------------------------------------------------------------

  /** U1 is the A12 numerator, U1 + U2 covers all pairs, and swapping the samples swaps the two. */
  lemma RanksAgreeWithPairs(x: seq<real>, y: seq<real>)
    requires Expected(x, y).Some?
    ensures var s := Expected(x, y).value;
      && s.u1 == Points(x, y)
      && s.u1 + s.u2 == 2 * (|x| * |y|)
      && Expected(y, x) == Some(s.(u1 := s.u2, u2 := s.u1))
  {
    PointsComplementary(x, y);
    VarianceSymmetric(x, y);
  }

  lemma VarianceSymmetric(x: seq<real>, y: seq<real>)
    ensures VarianceNumerator(x, y) == VarianceNumerator(y, x)
  {
    TieSumSymmetric(x, y);
    Commute(|x|, |y|);
    assert |x| + |y| == |y| + |x|;
  }

  lemma Commute(a: int, b: int)
    ensures a * b == b * a
  {}

  lemma {:induction false} TieSumConcat(s: seq<real>, t: seq<real>, pool: seq<real>)
    ensures TieSum(s + t, pool) == TieSum(s, pool) + TieSum(t, pool)
  {
    if s == [] {
      assert s + t == t;
    } else {
      assert (s + t)[1..] == s[1..] + t;
      TieSumConcat(s[1..], t, pool);
    }
  }

  lemma {:induction false} TieSumPool(s: seq<real>, pool: seq<real>, pool': seq<real>)
    requires forall v :: Ties(pool, v) == Ties(pool', v)
    ensures TieSum(s, pool) == TieSum(s, pool')
  {
    if s != [] { TieSumPool(s[1..], pool, pool'); }
  }

  lemma TieSumSymmetric(x: seq<real>, y: seq<real>)
    ensures TieSum(x + y, x + y) == TieSum(y + x, y + x)
  {
    forall v ensures Ties(x + y, v) == Ties(y + x, v) {
      CountsConcat(x, y, v);
      CountsConcat(y, x, v);
    }
    TieSumConcat(x, y, x + y);
    TieSumConcat(y, x, x + y);
    TieSumPool(y + x, x + y, y + x);
  }

  lemma {:induction false} TiesBounded(pool: seq<real>, v: real)
    ensures Ties(pool, v) <= |pool|
    ensures Ties(pool, v) == |pool| <==> forall k :: 0 <= k < |pool| ==> pool[k] == v
  {
    if pool != [] {
      TiesBounded(pool[1..], v);
      assert forall k :: 1 <= k < |pool| ==> pool[k] == pool[1..][k - 1];
    }
  }

  lemma {:induction false} StrictProductOrder(a: nat, b: nat, c: nat)
    requires a <= b
    ensures a * c <= b * c && (a * c == b * c && c > 0 ==> a == b)
  {
    if c > 0 {
      StrictProductOrder(a, b, c - 1);
      assert a * c == a * (c - 1) + a && b * c == b * (c - 1) + b;
    }
  }

  lemma SquareOrder(a: nat, b: nat)
    requires a <= b
    ensures a * a <= b * b && (a * a == b * b ==> a == b)
  {
    StrictProductOrder(a, b, a);
    StrictProductOrder(a, b, b);
    Commute(a, b);
  }

  /** At most n*n - 1 per observation, reached by all of them only when the pool is constant. */
  lemma {:induction false} TieSumBounded(s: seq<real>, pool: seq<real>, cap: int)
    requires cap == |pool| * |pool| - 1
    ensures TieSum(s, pool) <= |s| * cap
    ensures TieSum(s, pool) == |s| * cap <==> forall k :: 0 <= k < |s| ==> Ties(pool, s[k]) == |pool|
  {
    if s != [] {
      TieSumBounded(s[1..], pool, cap);
      TiesBounded(pool, s[0]);
      SquareOrder(Ties(pool, s[0]), |pool|);
      PeelProduct(|s|, cap);
      assert forall k :: 1 <= k < |s| ==> s[k] == s[1..][k - 1];
    }
  }

  ghost predicate Constant(pool: seq<real>) {
    forall i, j :: 0 <= i < |pool| && 0 <= j < |pool| ==> pool[i] == pool[j]
  }

  lemma ConstantExactlyWhenTied(pool: seq<real>)
    ensures Constant(pool) <==> forall k :: 0 <= k < |pool| ==> Ties(pool, pool[k]) == |pool|
  {
    forall k | 0 <= k < |pool|
      ensures Ties(pool, pool[k]) == |pool| <==> forall i :: 0 <= i < |pool| ==> pool[i] == pool[k]
    {
      TiesBounded(pool, pool[k]);
    }
  }

  /** The tie sum reaches its bound exactly for a constant pool. */
  lemma TieSumGap(pool: seq<real>)
    ensures var gap := |pool| * (|pool| * |pool| - 1) - TieSum(pool, pool);
      gap >= 0 && (gap == 0 <==> Constant(pool))
  {
    TieSumBounded(pool, pool, |pool| * |pool| - 1);
    ConstantExactlyWhenTied(pool);
  }

  /** The corrected variance is never negative, and zero exactly for a constant pool. */
  lemma VarianceSign(x: seq<real>, y: seq<real>)
    requires |x| >= 1 && |y| >= 1
    ensures VarianceNumerator(x, y) >= 0
    ensures VarianceNumerator(x, y) == 0 <==> Constant(x + y)
  {
    var n := |x + y|;
    TieSumGap(x + y);
    Cubic(n);
    StrictProductOrder(1, |x|, |y|);
    ProductSign(|x| * |y|, n * (n * n - 1) - TieSum(x + y, x + y));
  }

  lemma Cubic(n: int)
    ensures (n + 1) * n * (n - 1) == n * (n * n - 1)
  {}

  lemma ProductSign(a: int, b: int)
    requires a >= 1 && b >= 0
    ensures a * b >= 0 && (a * b == 0 <==> b == 0)
  {
    if b > 0 { assert a * b >= 1 * b; }
  }

  /** A p-value is withheld exactly for short samples and constant pools. */
  lemma WithheldExactly(x: seq<real>, y: seq<real>)
    ensures Expected(x, y).None? <==>
      |x| < 2 || |y| < 2 || Constant(x + y)
  {
    if |x| >= 2 && |y| >= 2 { VarianceSign(x, y); }
  }

  // ----- What the specification functions count -----------------------------------------------------

  /** Points are handed out pair by pair: two for a win, one for a tie, none for a loss. */
  lemma PointsPairByPair(a: real, b: real, x: seq<real>, x': seq<real>, y: seq<real>, y': seq<real>)
    ensures Points([a], [b]) == if a > b then 2 else if a == b then 1 else 0
    ensures Points(x + x', y) == Points(x, y) + Points(x', y)
    ensures Points(x, y + y') == Points(x, y) + Points(x, y')
    ensures Points(x, []) == Points([], y) == 0
  {
    assert Below([b], a) == (if b < a then 1 else 0) + Below([b][1..], a);
    assert Ties([b], a) == (if b == a then 1 else 0) + Ties([b][1..], a);
    assert Points([a], [b]) == 2 * Below([b], a) + Ties([b], a) + Points([a][1..], [b]);
    PointsOfBoth(x, x', y);
    PointsSplit(x, y, y');
    NoPoints(x);
  }

  lemma {:induction false} PointsOfBoth(x: seq<real>, x': seq<real>, y: seq<real>)
    ensures Points(x + x', y) == Points(x, y) + Points(x', y)
  {
    if x == [] {
      assert x + x' == x';
    } else {
      assert (x + x')[1..] == x[1..] + x';
      PointsOfBoth(x[1..], x', y);
    }
  }

  lemma {:induction false} TiesOfEqual(s: seq<real>, v: real, w: real)
    requires forall k :: 0 <= k < |s| ==> s[k] == v
    ensures Ties(s, w) == if v == w then |s| else 0
  {
    if s != [] {
      TiesOfEqual(s[1..], v, w);
    }
  }

  lemma {:induction false} TieSumOfConstant(s: seq<real>, pool: seq<real>, v: real, t: int)
    requires t == Ties(pool, v) && forall k :: 0 <= k < |s| ==> s[k] == v
    ensures TieSum(s, pool) == |s| * (t * t - 1)
  {
    if s != [] {
      TieSumOfConstant(s[1..], pool, v, t);
      PeelProduct(|s|, t * t - 1);
    }
  }

  /** A group of t equal values contributes t cubed minus t. */
  lemma TieSumOfGroup(s: seq<real>, v: real)
    requires forall k :: 0 <= k < |s| ==> s[k] == v
    ensures TieSum(s, s) == |s| * |s| * |s| - |s|
  {
    TiesOfEqual(s, v, v);
    TieSumOfConstant(s, s, v, |s|);
    CubeMinus(|s|);
  }

  lemma CubeMinus(n: int)
    ensures n * (n * n - 1) == n * n * n - n
  {}

  /** Groups contribute separately: pools without a common value add their tie sums. */
  lemma TieSumOfApart(a: seq<real>, b: seq<real>)
    requires forall i, j :: 0 <= i < |a| && 0 <= j < |b| ==> a[i] != b[j]
    ensures TieSum(a + b, a + b) == TieSum(a, a) + TieSum(b, b)
  {
    TieSumConcat(a, b, a + b);
    TieSumIgnores(a, a, b);
    TieSumIgnores(b, b, a);
    forall v ensures Ties(a + b, v) == Ties(b + a, v) {
      CountsConcat(a, b, v);
      CountsConcat(b, a, v);
    }
    TieSumPool(b, a + b, b + a);
  }

  lemma {:induction false} TiesOfAbsent(s: seq<real>, v: real)
    requires forall k :: 0 <= k < |s| ==> s[k] != v
    ensures Ties(s, v) == 0
  {
    if s != [] {
      TiesOfAbsent(s[1..], v);
    }
  }

  lemma {:induction false} TieSumIgnores(s: seq<real>, pool: seq<real>, other: seq<real>)
    requires forall i, j :: 0 <= i < |s| && 0 <= j < |other| ==> s[i] != other[j]
    ensures TieSum(s, pool + other) == TieSum(s, pool)
  {
    if s != [] {
      CountsConcat(pool, other, s[0]);
      TiesOfAbsent(other, s[0]);
      TieSumIgnores(s[1..], pool, other);
    }
  }

  /** Without ties the variance is n1*n2*(n + 1)/12. */
  lemma VarianceWithoutTies(x: seq<real>, y: seq<real>)
    requires Expected(x, y).Some? && forall i, j :: 0 <= i < j < |x + y| ==> (x + y)[i] != (x + y)[j]
    ensures var s := Expected(x, y).value;
      12 * s.varianceNumerator == |x| * |y| * (|x| + |y| + 1) * s.varianceDenominator
  {
    NoTies(x + y);
    var n, m := |x| + |y|, |x| * |y|;
    VarianceArithmetic(m, n);
  }

  lemma VarianceArithmetic(m: int, n: int)
    ensures 12 * (m * ((n + 1) * n * (n - 1))) == m * (n + 1) * (12 * n * (n - 1))
  {
    var k := n * (n - 1);
    assert (n + 1) * n * (n - 1) == (n + 1) * k by { assert (n + 1) * n * (n - 1) == (n + 1) * (n * (n - 1)); }
    assert 12 * n * (n - 1) == 12 * k;
    assert m * ((n + 1) * k) == m * (n + 1) * k;
  }

  lemma {:induction false} NoTies(pool: seq<real>)
    requires forall i, j :: 0 <= i < j < |pool| ==> pool[i] != pool[j]
    ensures TieSum(pool, pool) == 0
  {
    if pool != [] {
      var first, rest := pool[..1], pool[1..];
      assert pool == first + rest;
      NoTies(rest);
      TieSumOfGroup(first, pool[0]);
      TieSumOfApart(first, rest);
    }
  }
}
