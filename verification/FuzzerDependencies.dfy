/** The ordered closure of fuzzers needed to build one fuzzer. */
module FuzzerDependencies {
  import opened Common
  import opened FuzzerGraph

  /** A loaded fuzzer, or a campaign's variant of one, which takes over its name and has it as parent. */
  ghost predicate Buildable(defs: Definitions, f: Fuzzer) {
    Unfolds(defs, f) || (f.parent.Some? && Unfolds(defs, f.parent.value) && f.name == f.parent.value.name)
  }

  // ----- Reachability --------------------------------------------------------------------------------

  lemma StepReaches(defs: Definitions, a: Name, b: Name, c: Name)
    requires Edge(defs, a, b) && Reaches(defs, b, c)
    ensures Reaches(defs, a, c)
  {
    var p :| PathBetween(defs, p, b, c);
    var q := [a] + p;
    forall i | 0 <= i < |q| - 1 ensures Edge(defs, q[i], q[i + 1]) {
      assert i > 0 ==> Edge(defs, p[i - 1], p[i - 1 + 1]);
    }
    assert PathBetween(defs, q, a, c);
  }

  lemma ReachesItself(defs: Definitions, a: Name)
    ensures Reaches(defs, a, a)
  {
    assert PathBetween(defs, [a], a, a);
  }

  /** No successor of an unfolded fuzzer leads back to it. */
  lemma NoWayBack(defs: Definitions, f: Fuzzer, b: Name)
    requires Unfolds(defs, f) && Edge(defs, f.name, b)
    ensures !Reaches(defs, b, f.name)
  {
    if Reaches(defs, b, f.name) {
      var p :| PathBetween(defs, p, b, f.name);
      var q := [f.name] + p;
      assert IsPath(defs, q) by {
        forall i | 0 <= i < |q| - 1 ensures Edge(defs, q[i], q[i + 1]) {
          assert i > 0 ==> Edge(defs, p[i - 1], p[i - 1 + 1]);
        }
      }
      NoReturn(defs, f, q, 0);
    }
  }

  ghost predicate Closed(defs: Definitions, seen: set<Name>, pending: set<Name>) {
    forall a, b :: a in seen && a !in pending && Edge(defs, a, b) ==> b in seen
  }

  lemma {:induction false} ClosedHoldsPaths(defs: Definitions, seen: set<Name>, p: seq<Name>)
    requires Closed(defs, seen, {}) && IsPath(defs, p) && p[0] in seen
    ensures p[|p| - 1] in seen
    decreases |p|
  {
    if |p| > 1 {
      assert Edge(defs, p[0], p[0 + 1]);
      SubPath(defs, p, 1, |p|);
      assert p[1..|p|] == p[1..];
      ClosedHoldsPaths(defs, seen, p[1..]);
    }
  }

  // ----- The list -------------------------------------------------------------------------------------

  ghost predicate NamesDiffer(result: seq<Fuzzer>) {
    forall i, j :: 0 <= i < j < |result| ==> result[i].name != result[j].name
  }

  ghost predicate NamesAre(result: seq<Fuzzer>, seen: set<Name>) {
    && (forall i :: 0 <= i < |result| ==> result[i].name in seen)
    && (forall n :: n in seen ==> exists i :: 0 <= i < |result| && result[i].name == n)
  }

  predicate ParentBefore(result: seq<Fuzzer>, i: nat)
    requires i < |result|
  {
    result[i].parent.Some? ==> exists j :: 0 <= j < i && result[j].name == result[i].parent.value.name
  }

  ghost predicate ParentsFirst(result: seq<Fuzzer>) {
    forall i :: 0 <= i < |result| ==> ParentBefore(result, i)
  }

  ghost predicate Listed(defs: Definitions, result: seq<Fuzzer>, seen: set<Name>, pending: set<Name>) {
    && NamesDiffer(result) && NamesAre(result, seen) && ParentsFirst(result)
    && (forall i :: 0 <= i < |result| ==> Unfolds(defs, result[i]))
    && Closed(defs, seen, pending)
  }

  lemma NameListed(result: seq<Fuzzer>, seen: set<Name>, item: Fuzzer)
    requires NamesAre(result, seen)
    ensures NamesAre(result + [item], seen + {item.name})
  {
    var more := result + [item];
    forall n | n in seen + {item.name} ensures exists i :: 0 <= i < |more| && more[i].name == n {
      if n in seen {
        var i :| 0 <= i < |result| && result[i].name == n;
        assert more[i].name == n;
      } else {
        assert more[|result|].name == n;
      }
    }
  }

  lemma ParentListed(result: seq<Fuzzer>, seen: set<Name>, item: Fuzzer)
    requires NamesAre(result, seen) && ParentsFirst(result)
    requires item.parent.Some? ==> item.parent.value.name in seen
    ensures ParentsFirst(result + [item])
  {
    var more := result + [item];
    assert forall i :: 0 <= i < |result| ==> more[i] == result[i];
    forall i | 0 <= i < |more| ensures ParentBefore(more, i) {
      if i < |result| {
        assert ParentBefore(result, i);
      }
    }
  }

  lemma ListOne(defs: Definitions, result: seq<Fuzzer>, seen: set<Name>, pending: set<Name>, item: Fuzzer)
    requires Listed(defs, result, seen, pending) && Unfolds(defs, item) && item.name !in seen
    requires item.parent.Some? ==> item.parent.value.name in seen
    ensures Listed(defs, result + [item], seen + {item.name}, pending + {item.name})
  {
    NameListed(result, seen, item);
    ParentListed(result, seen, item);
  }

  /** The names added on behalf of `root`, besides those seen before. */
  ghost predicate OnlyReached(defs: Definitions, seen: set<Name>, before: set<Name>, root: Name) {
    forall n :: n in seen ==> n in before || Reaches(defs, root, n)
  }

  lemma ParentEdge(defs: Definitions, item: Fuzzer)
    requires Unfolds(defs, item) && item.parent.Some?
    ensures Edge(defs, item.name, item.parent.value.name)
  {
  }

  lemma SourceEdge(defs: Definitions, item: Fuzzer, i: nat)
    requires Unfolds(defs, item) && i < |item.sources|
    ensures Edge(defs, item.name, item.sources[i].name)
  {
    var d := defs[item.name];
    assert d.sources[i] in d.sources;
  }

  /** What an item does not reach, its successors do not reach either. */
  lemma UnreachedBelow(defs: Definitions, a: Name, b: Name, pending: set<Name>)
    requires Edge(defs, a, b) && forall n :: n in pending ==> !Reaches(defs, a, n)
    ensures forall n :: n in pending ==> !Reaches(defs, b, n)
  {
    forall n | n in pending ensures !Reaches(defs, b, n) {
      if Reaches(defs, b, n) {
        StepReaches(defs, a, b, n);
      }
    }
  }

  /** Names added for a successor are reached from the item itself. */
  lemma ReachedThrough(defs: Definitions, a: Name, b: Name, before: set<Name>, middle: set<Name>, after: set<Name>)
    requires Edge(defs, a, b) && OnlyReached(defs, middle, before, a) && OnlyReached(defs, after, middle, b)
    ensures OnlyReached(defs, after, before, a)
  {
    forall n | n in after && n !in before ensures Reaches(defs, a, n) {
      if n !in middle {
        StepReaches(defs, a, b, n);
      }
    }
  }

  /** Once all its successors are listed, an item is no longer pending. */
  lemma Settled(defs: Definitions, seen: set<Name>, pending: set<Name>, item: Fuzzer)
    requires Unfolds(defs, item) && Closed(defs, seen, pending + {item.name})
    requires item.parent.Some? ==> item.parent.value.name in seen
    requires forall k :: 0 <= k < |item.sources| ==> item.sources[k].name in seen
    ensures Closed(defs, seen, pending)
  {
    var d := defs[item.name];
    forall b | Edge(defs, item.name, b) ensures b in seen {
      if b in d.sources {
        var k :| 0 <= k < |d.sources| && d.sources[k] == b;
        assert item.sources[k].name == b;
      }
    }
  }

  class DependencyWalk {
    var result: seq<Fuzzer>
    var seen: set<Name>

    constructor ()
      ensures result == [] && seen == {}
    {
      result, seen := [], {};
    }

    /** The nested `add`; the pending names are those whose sources are still being added. */
    method Add(item: Fuzzer, ghost defs: Definitions, ghost pending: set<Name>)
      requires Buildable(defs, item) && Listed(defs, result, seen, pending)
      requires forall n :: n in pending ==> !Reaches(defs, item.name, n)
      modifies this
      ensures Listed(defs, result, seen, pending) && item.name in seen
      ensures old(seen) <= seen && OnlyReached(defs, seen, old(seen), item.name)
      decreases item, 1
    {
      if item.parent.Some? {
        var parent := item.parent.value;
        if Unfolds(defs, item) {
          ParentEdge(defs, item);
          UnreachedBelow(defs, item.name, parent.name, pending);
        }
        Add(parent, defs, pending);
        if Unfolds(defs, item) {
          ReachedThrough(defs, item.name, parent.name, old(seen), old(seen), seen);
        }
      }
      if item.name in seen {
        return;
      }
      assert Unfolds(defs, item);
      ListOne(defs, result, seen, pending, item);
      ReachesItself(defs, item.name);
      seen := seen + {item.name};
      result := result + [item];
      AddSources(item, defs, pending);
    }

    /** The loop over `source_dependencies` of an item just listed. */
    method AddSources(item: Fuzzer, ghost defs: Definitions, ghost pending: set<Name>)
      requires Unfolds(defs, item) && item.name in seen && (item.parent.Some? ==> item.parent.value.name in seen)
      requires Listed(defs, result, seen, pending + {item.name})
      requires forall n :: n in pending ==> !Reaches(defs, item.name, n)
      modifies this
      ensures Listed(defs, result, seen, pending)
      ensures old(seen) <= seen && OnlyReached(defs, seen, old(seen), item.name)
      decreases item, 0
    {
      for i := 0 to |item.sources|
        invariant Listed(defs, result, seen, pending + {item.name})
        invariant old(seen) <= seen && OnlyReached(defs, seen, old(seen), item.name)
        invariant forall k :: 0 <= k < i ==> item.sources[k].name in seen
      {
        var source := item.sources[i];
        SourceEdge(defs, item, i);
        UnreachedBelow(defs, item.name, source.name, pending);
        NoWayBack(defs, item, source.name);
        ghost var middle := seen;
        Add(source, defs, pending + {item.name});
        ReachedThrough(defs, item.name, source.name, old(seen), middle, seen);
      }
      Settled(defs, seen, pending, item);
    }
  }

  /**
    `Fuzzer.dependencies`: it ends, no name comes twice, the names are exactly those reachable,
    every parent's name comes before its child's, and each entry is the loaded fuzzer itself.
   */
  method Dependencies(f: Fuzzer, ghost defs: Definitions) returns (result: seq<Fuzzer>)
    requires Buildable(defs, f)
    ensures forall i, j :: 0 <= i < j < |result| ==> result[i].name != result[j].name
    ensures forall i :: 0 <= i < |result| && result[i].parent.Some? ==>
      exists j :: 0 <= j < i && result[j].name == result[i].parent.value.name
    ensures forall n :: (exists i :: 0 <= i < |result| && result[i].name == n) <==> Reaches(defs, f.name, n)
    ensures forall i :: 0 <= i < |result| ==> Unfolds(defs, result[i])
  {
    var walk := new DependencyWalk();
    walk.Add(f, defs, {});
    result := walk.result;
    forall i | 0 <= i < |result| && result[i].parent.Some?
      ensures exists j :: 0 <= j < i && result[j].name == result[i].parent.value.name
    {
      assert ParentBefore(result, i);
    }
    forall n ensures n in walk.seen <==> Reaches(defs, f.name, n) {
      if Reaches(defs, f.name, n) {
        var p :| PathBetween(defs, p, f.name, n);
        ClosedHoldsPaths(defs, walk.seen, p);
      }
    }
  }
}
