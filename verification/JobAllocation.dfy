/**
  Preprocess hooks share a job budget: every input set with a hook and at least one file gets
  one job, and the rest go one by one to the set with the most files per job. Ratios are
  compared by cross-multiplication.
 */
module JobAllocation {
  import opened Common

  datatype InputSet = InputSet(hasHook: bool, files: nat)

  predicate NeedsHook(s: InputSet) {
    s.hasHook && s.files > 0
  }

  /** The indices of the sets whose hook runs, in order. */
  method PreprocessSets(sets: seq<InputSet>) returns (chosen: seq<nat>, sizes: seq<nat>)
    ensures StrictlyAscending(chosen) && |sizes| == |chosen|
    ensures forall i: nat :: i in chosen <==> i < |sets| && sets[i].hasHook && sets[i].files > 0
    ensures forall k :: 0 <= k < |chosen| ==> chosen[k] < |sets| && sizes[k] == sets[chosen[k]].files >= 1
  {
    chosen, sizes := [], [];
    for i := 0 to |sets|
      invariant StrictlyAscending(chosen) && |sizes| == |chosen|
      invariant forall k :: 0 <= k < |chosen| ==> chosen[k] < i && sizes[k] == sets[chosen[k]].files >= 1
      invariant forall j: nat :: j in chosen <==> j < i && NeedsHook(sets[j])
    {
      if NeedsHook(sets[i]) {
        chosen, sizes := chosen + [i], sizes + [sets[i].files];
      }
    }
  }

  // ----- The greedy rule ----------------------------------------------------------------------

  ghost predicate Positive(s: seq<nat>) {
    forall i :: 0 <= i < |s| ==> s[i] >= 1
  }

  /** Set `i` carries strictly more files per job than set `j`. */
  predicate Heavier(sizes: seq<nat>, a: seq<nat>, i: nat, j: nat)
    requires i < |sizes| == |a| && j < |sizes|
  {
    sizes[i] * a[j] > sizes[j] * a[i]
  }

  /** `s` is the first of the heaviest sets that can still use another job. */
  ghost predicate Heaviest(sizes: seq<nat>, a: seq<nat>, s: nat)
    requires |sizes| == |a|
  {
    && s < |a| && a[s] < sizes[s]
    && (forall m: nat :: m < |a| && a[m] < sizes[m] ==> !Heavier(sizes, a, m, s))
    && (forall m: nat :: m < s && a[m] < sizes[m] ==> Heavier(sizes, a, s, m))
  }

  /** In raw numbers: no expandable set has more files per job, and none before it has as many. */
  lemma HeaviestMeaning(sizes: seq<nat>, a: seq<nat>, s: nat, m: nat)
    requires |sizes| == |a| && Positive(a) && Heaviest(sizes, a, s) && m < |a| && a[m] < sizes[m]
    ensures sizes[m] as real / a[m] as real <= sizes[s] as real / a[s] as real
    ensures m < s ==> sizes[m] as real / a[m] as real < sizes[s] as real / a[s] as real
  {
    RatioOrder(sizes[m], a[m], sizes[s], a[s]);
  }

  /** Comparing ratios by cross-multiplication. */
  lemma RatioOrder(x: nat, p: nat, y: nat, q: nat)
    requires p >= 1 && q >= 1
    ensures x * q <= y * p <==> x as real / p as real <= y as real / q as real
    ensures x * q < y * p <==> x as real / p as real < y as real / q as real
  {
    var u, v := x as real / p as real, y as real / q as real;
    assert u * p as real == x as real && v * q as real == y as real;
    var k := p as real * q as real;
    CrossProduct(u, p as real, q as real, x as real);
    CrossProduct(v, q as real, p as real, y as real);
    assert (x * q) as real == u * k && (y * p) as real == v * k;
    ScaleOrder(u, v, k);
  }

  lemma CrossProduct(u: real, p: real, q: real, x: real)
    requires u * p == x
    ensures u * (p * q) == x * q && u * (q * p) == x * q
  {
  }

  lemma ScaleOrder(u: real, v: real, k: real)
    requires k > 0.0
    ensures u * k <= v * k <==> u <= v
    ensures u * k < v * k <==> u < v
  {
    if u <= v { assert (v - u) * k >= 0.0; }
    if u < v { assert (v - u) * k > 0.0; }
    if u > v { assert (u - v) * k > 0.0; }
  }

  /** Picks the first heaviest set, or nothing when every set has a job per file. */
  method SelectHeaviest(sizes: seq<nat>, a: seq<nat>) returns (s: Option<nat>)
    requires |sizes| == |a| && Positive(a)
    ensures s.None? ==> forall m :: 0 <= m < |a| ==> a[m] >= sizes[m]
    ensures s.Some? ==> Heaviest(sizes, a, s.value)
  {
    s := None;
    for i := 0 to |a|
      invariant s.None? ==> forall m :: 0 <= m < i ==> a[m] >= sizes[m]
      invariant s.Some? ==> s.value < i && a[s.value] < sizes[s.value]
      invariant s.Some? ==> forall m: nat :: m < i && a[m] < sizes[m] ==> !Heavier(sizes, a, m, s.value)
      invariant s.Some? ==> forall m: nat :: m < s.value && a[m] < sizes[m] ==> Heavier(sizes, a, s.value, m)
    {
      if a[i] < sizes[i] {
        if s.None? {
          s := Some(i);
        } else if Heavier(sizes, a, i, s.value) {
          forall m: nat | m < i && a[m] < sizes[m] ensures Heavier(sizes, a, i, m) {
            HeavierThanMaximum(sizes[i], a[i], sizes[s.value], a[s.value], sizes[m], a[m]);
          }
          s := Some(i);
        }
      }
    }
  }

  /** With positive denominators, x/p > y/q >= z/r gives x/p > z/r. */
  lemma HeavierThanMaximum(x: int, p: int, y: int, q: int, z: int, r: int)
    requires p >= 1 && q >= 1 && r >= 1 && x >= 0
    requires x * q > y * p && z * q <= y * r
    ensures x * r > z * p
  {
    ProductOrder(z * q, y * r, p);
    ProductOrder(y * p + 1, x * q, r);
    Reorder(z, p, q);
    Reorder(y, r, p);
    Reorder(x, r, q);
    assert (y * p + 1) * r == y * p * r + r;
    CancelFactor(z * p, x * r, q);
  }

  lemma CancelFactor(x: int, y: int, k: int)
    requires k >= 1 && x * k < y * k
    ensures x < y
  {
    if y <= x {
      ProductOrder(y, x, k);
    }
  }

  lemma Reorder(x: int, y: int, z: int)
    ensures x * y * z == x * z * y
  {
    assert y * z == z * y;
    assert x * y * z == x * (y * z);
    assert x * z * y == x * (z * y);
  }

  /** The mark the greedy rule leaves: no job would serve a set that can still use one better. */
  ghost predicate Balanced(sizes: seq<nat>, a: seq<nat>)
    requires |sizes| == |a|
  {
    forall i: nat, m: nat :: i < |a| && m < |a| ==> BalancedPair(sizes, a, i, m)
  }

  predicate BalancedPair(sizes: seq<nat>, a: seq<nat>, i: nat, m: nat)
    requires i < |a| == |sizes| && m < |a|
  {
    a[i] >= 2 && a[m] < sizes[m] ==> sizes[m] * (a[i] - 1) <= sizes[i] * a[m]
  }

  ghost predicate Fits(sizes: seq<nat>, a: seq<nat>)
    requires |sizes| == |a|
  {
    forall i :: 0 <= i < |a| ==> 1 <= a[i] <= sizes[i]
  }

  /** What the allocation loop promises for `jobs` over sets of the given sizes. */
  ghost predicate Allocated(sizes: seq<nat>, jobs: nat, a: seq<nat>) {
    && |a| == |sizes| && Fits(sizes, a) && Balanced(sizes, a)
    && (jobs <= |sizes| ==> forall i :: 0 <= i < |a| ==> a[i] == 1)
    && (|sizes| <= jobs ==> Sum(a) == if jobs < Sum(sizes) then jobs else Sum(sizes))
  }

  lemma PairKept(sizes: seq<nat>, a: seq<nat>, s: nat, i: nat, m: nat)
    requires s < |sizes| == |a| && a[s] >= 1 && i < |a| && m < |a| && BalancedPair(sizes, a, i, m)
    requires a[m] < sizes[m] ==> !Heavier(sizes, a, m, s)
    ensures BalancedPair(sizes, a[s := a[s] + 1], i, m)
  {
    var b := a[s := a[s] + 1];
    if b[i] >= 2 && b[m] < sizes[m] {
      ProductOrder(a[m], b[m], sizes[i]);
    }
  }

  lemma BalancedKept(sizes: seq<nat>, a: seq<nat>, s: nat)
    requires |sizes| == |a| && Fits(sizes, a) && Balanced(sizes, a) && Heaviest(sizes, a, s)
    ensures Balanced(sizes, a[s := a[s] + 1])
  {
    var b := a[s := a[s] + 1];
    forall i: nat, m: nat | i < |a| && m < |a| ensures BalancedPair(sizes, b, i, m) {
      PairKept(sizes, a, s, i, m);
    }
  }

  /** Hands out the jobs left after one for each set. */
  method Allocate(sizes: seq<nat>, jobs: nat) returns (a: seq<nat>)
    requires Positive(sizes)
    ensures Allocated(sizes, jobs, a)
  {
    a := seq(|sizes|, _ => 1);
    SumOfOnes(a);
    SumMonotone(a, sizes);
    var remaining: nat := if jobs < |sizes| then 0 else jobs - |sizes|;
    while remaining != 0
      invariant |a| == |sizes| && Fits(sizes, a) && Balanced(sizes, a)
      invariant jobs <= |sizes| ==> remaining == 0 && forall i :: 0 <= i < |a| ==> a[i] == 1
      invariant |sizes| <= jobs ==> Sum(a) == jobs - remaining <= Sum(sizes)
      decreases remaining
    {
      var s := SelectHeaviest(sizes, a);
      if s.None? {
        assert a == sizes;
        break;
      }
      BalancedKept(sizes, a, s.value);
      SumUpdate(a, s.value, a[s.value] + 1);
      a := a[s.value := a[s.value] + 1];
      SumMonotone(a, sizes);
      remaining := remaining - 1;
    }
  }

  lemma {:induction false} SumOfOnes(a: seq<nat>)
    requires forall i :: 0 <= i < |a| ==> a[i] == 1
    ensures Sum(a) == |a|
  {
    if a != [] {
      SumOfOnes(a[1..]);
    }
  }

  // ----- Minimax optimality --------------------------------------------------------------------

  /** The largest files-per-job ratio under `a` is at most the largest under `b`. */
  ghost predicate NoWorse(sizes: seq<nat>, a: seq<nat>, b: seq<nat>)
    requires |a| == |b| == |sizes|
  {
    forall m :: 0 <= m < |a| ==> MatchedBy(sizes, a, b, m)
  }

  /** Some set carries under `b` at least the ratio that set `m` carries under `a`. */
  ghost predicate MatchedBy(sizes: seq<nat>, a: seq<nat>, b: seq<nat>, m: nat)
    requires m < |a| == |b| == |sizes|
  {
    exists i :: 0 <= i < |b| && sizes[m] * b[i] <= sizes[i] * a[m]
  }

  lemma SomeSmaller(s: seq<nat>, t: seq<nat>, m: nat)
    requires m < |s| == |t| && Sum(t) <= Sum(s) && s[m] < t[m]
    ensures exists i :: 0 <= i < |s| && t[i] < s[i]
  {
    if forall i :: 0 <= i < |s| ==> s[i] <= t[i] {
      SumMonotone(s, t);
      assert false;
    }
  }

  lemma SomeNotLarger(s: seq<nat>, t: seq<nat>)
    requires |s| == |t| > 0 && Sum(t) <= Sum(s)
    ensures exists i :: 0 <= i < |s| && t[i] <= s[i]
  {
    if s[0] < t[0] {
      SomeSmaller(s, t, 0);
    }
  }

  lemma MatchedWhenFull(sizes: seq<nat>, a: seq<nat>, b: seq<nat>, m: nat)
    requires m < |a| == |b| == |sizes| && Fits(sizes, a) && Sum(b) <= Sum(a) && a[m] == sizes[m]
    ensures MatchedBy(sizes, a, b, m)
  {
    SumMonotone(a, sizes);
    SomeNotLarger(sizes, b);
    var i: nat :| i < |sizes| && b[i] <= sizes[i];
    MatchedBySlack(sizes, a, b, m, i);
  }

  lemma MatchedBySlack(sizes: seq<nat>, a: seq<nat>, b: seq<nat>, m: nat, i: nat)
    requires m < |a| == |b| == |sizes| && i < |b| && a[m] == sizes[m] && b[i] <= sizes[i]
    ensures MatchedBy(sizes, a, b, m)
  {
    MatchedAtFull(sizes[m], sizes[i], b[i]);
    assert sizes[m] * b[i] <= sizes[i] * a[m];
  }

  lemma MatchedAtFull(size: nat, other: nat, jobs: nat)
    requires jobs <= other
    ensures size * jobs <= other * size
  {
    ProductOrder(jobs, other, size);
  }

  lemma MatchedByOther(sizes: seq<nat>, a: seq<nat>, b: seq<nat>, m: nat, i: nat)
    requires m < |a| == |b| == |sizes| && i < |a| && BalancedPair(sizes, a, i, m) && a[m] < sizes[m]
    requires b[i] < a[i]
    ensures MatchedBy(sizes, a, b, m)
  {
    if b[i] == 0 {
      assert sizes[m] * b[i] == 0 <= sizes[i] * a[m];
    } else {
      ProductOrder(b[i], a[i] - 1, sizes[m]);
    }
  }

  lemma MatchedSet(sizes: seq<nat>, a: seq<nat>, b: seq<nat>, m: nat)
    requires m < |a| == |b| == |sizes| && Fits(sizes, a) && Balanced(sizes, a) && Sum(b) <= Sum(a)
    ensures MatchedBy(sizes, a, b, m)
  {
    if a[m] == sizes[m] {
      MatchedWhenFull(sizes, a, b, m);
    } else if b[m] <= a[m] {
      ProductOrder(b[m], a[m], sizes[m]);
      assert sizes[m] * b[m] <= sizes[m] * a[m];
    } else {
      SomeSmaller(a, b, m);
      var i :| 0 <= i < |a| && b[i] < a[i];
      MatchedByOther(sizes, a, b, m, i);
    }
  }

  /**
    Any other way of spending no more jobs has a largest ratio at least as large: among all
    allocations of the same total, and, as far as each set has a file per job, among all
    allocations within the budget.
   */
  lemma MinimaxOptimal(sizes: seq<nat>, jobs: nat, a: seq<nat>, b: seq<nat>)
    requires Allocated(sizes, jobs, a) && |b| == |sizes|
    requires Sum(b) <= Sum(a) || (|sizes| <= jobs && Fits(sizes, b) && Sum(b) <= jobs)
    ensures NoWorse(sizes, a, b)
  {
    if Sum(b) > Sum(a) {
      SumMonotone(b, sizes);
    }
    forall m | 0 <= m < |a| ensures MatchedBy(sizes, a, b, m) {
      MatchedSet(sizes, a, b, m);
    }
  }

  // ----- The budget while hooks run --------------------------------------------------------------

  /** The jobs in use when exactly the marked hooks are running. */
  function Load(a: seq<nat>, running: seq<bool>): nat
    requires |a| == |running|
  {
    if a == [] then 0 else (if running[0] then a[0] else 0) + Load(a[1..], running[1..])
  }

  function Busy(running: seq<bool>): nat {
    if running == [] then 0 else (if running[0] then 1 else 0) + Busy(running[1..])
  }

  lemma {:induction false} LoadBounds(a: seq<nat>, running: seq<bool>)
    requires |a| == |running|
    ensures Load(a, running) <= Sum(a)
    ensures (forall i :: 0 <= i < |a| ==> a[i] == 1) ==> Load(a, running) == Busy(running)
  {
    if a != [] {
      LoadBounds(a[1..], running[1..]);
    }
  }

  /** Each running hook adds its jobs to the load, and one to the hooks that are busy. */
  lemma {:induction false} LoadOneByOne(a: seq<nat>, running: seq<bool>, x: nat, runs: bool)
    requires |a| == |running|
    ensures Load(a + [x], running + [runs]) == Load(a, running) + if runs then x else 0
    ensures Busy(running + [runs]) == Busy(running) + if runs then 1 else 0
    ensures Load([], []) == 0 && Busy([]) == 0
  {
    if a == [] {
      assert a + [x] == [x] && running + [runs] == [runs] && [x][1..] == [] && [runs][1..] == [];
    } else {
      assert (a + [x])[1..] == a[1..] + [x] && (running + [runs])[1..] == running[1..] + [runs];
      LoadOneByOne(a[1..], running[1..], x, runs);
    }
  }

  /** The pool runs at most `min(jobs, sets)` hooks at once, and those never exceed `jobs`. */
  lemma BudgetKept(sizes: seq<nat>, jobs: nat, a: seq<nat>, running: seq<bool>)
    requires Allocated(sizes, jobs, a) && |running| == |sizes|
    requires Busy(running) <= if jobs < |sizes| then jobs else |sizes|
    ensures Load(a, running) <= jobs
  {
    LoadBounds(a, running);
  }
}
