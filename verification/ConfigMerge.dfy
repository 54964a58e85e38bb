/**
  Merging configuration mappings, and the fold of the merge over a fuzzer's inheritance chain.
  Scalars carry a tag for their YAML type; the order of keys in a mapping plays no role.
 */
module ConfigMerge {
  import opened Common

  datatype Value =
    | Scalar(tag: nat, text: string)
    | List(items: seq<Value>)
    | Dict(entries: map<string, Value>)

  /** The two values are of the same YAML type. */
  predicate SameType(a: Value, b: Value) {
    match (a, b)
    case (Scalar(t, _), Scalar(u, _)) => t == u
    case (List(_), List(_)) => true
    case (Dict(_), Dict(_)) => true
    case _ => false
  }

  /** No type mismatch anywhere below. */
  ghost predicate Compatible(a: Value, b: Value)
    decreases a
  {
    && SameType(a, b)
    && (a.Dict? ==> forall k :: k in a.entries && k in b.entries ==> Compatible(a.entries[k], b.entries[k]))
  }

  /** `b` on top of `a`: mappings merge key by key, lists append, scalars override. */
  ghost function Combine(a: Value, b: Value): Value
    requires Compatible(a, b)
    decreases a
  {
    match a
    case Scalar(_, _) => b
    case List(items) => List(items + b.items)
    case Dict(m) =>
      Dict(map k | k in m.Keys + b.entries.Keys ::
        if k !in b.entries then m[k] else if k !in m then b.entries[k] else Combine(m[k], b.entries[k]))
  }

  ghost function MergeOf(a: Value, b: Value): Option<Value> {
    if Compatible(a, b) then Some(Combine(a, b)) else None
  }

  /** Scalars of one YAML type override, lists append, and any two other values are a type error. */
  lemma MergeOfLeaves(a: Value, b: Value)
    ensures a.Scalar? && b.Scalar? ==> MergeOf(a, b) == if a.tag == b.tag then Some(b) else None
    ensures a.List? && b.List? ==> MergeOf(a, b) == Some(List(a.items + b.items))
    ensures MergeOf(a, b).Some? ==> a.Scalar? == b.Scalar? && a.List? == b.List? && a.Dict? == b.Dict?
  {
  }

  /** Mappings merge key by key: each key keeps its value or gets the merge of both, and one error fails all. */
  lemma MergeOfMappings(m: map<string, Value>, n: map<string, Value>)
    ensures var r := MergeOf(Dict(m), Dict(n));
      && (r.None? <==> exists k :: k in m && k in n && MergeOf(m[k], n[k]).None?)
      && (r.Some? ==> r.value.Dict? && r.value.entries.Keys == m.Keys + n.Keys)
      && (r.Some? ==> forall k :: k in m && k !in n ==> r.value.entries[k] == m[k])
      && (r.Some? ==> forall k :: k in n && k !in m ==> r.value.entries[k] == n[k])
      && (r.Some? ==> forall k :: k in m && k in n ==> Some(r.value.entries[k]) == MergeOf(m[k], n[k]))
  {
    var r := MergeOf(Dict(m), Dict(n));
    if r.None? {
      var k :| k in m && k in n && !Compatible(m[k], n[k]);
      assert MergeOf(m[k], n[k]).None?;
    }
  }

  /** The value a key of the override gets. */
  ghost function EntryOf(base: map<string, Value>, override: map<string, Value>, k: string): Option<Value>
    requires k in override
  {
    if k in base then MergeOf(base[k], override[k]) else Some(override[k])
  }

  /** All keys of the override but those of `rest` have been merged into the base. */
  ghost predicate Partway(base: map<string, Value>, override: map<string, Value>, rest: set<string>,
                          out: map<string, Value>)
  {
    && rest <= override.Keys && out.Keys == base.Keys + (override.Keys - rest)
    && (forall k :: k in override && k !in rest ==> EntryOf(base, override, k) == Some(out[k]))
    && (forall k :: k in base && (k in rest || k !in override) ==> out[k] == base[k])
  }

  lemma PartwayStep(base: map<string, Value>, override: map<string, Value>, rest: set<string>, out: map<string, Value>,
                    key: string, value: Value)
    requires Partway(base, override, rest, out) && key in rest && EntryOf(base, override, key) == Some(value)
    ensures Partway(base, override, rest - {key}, out[key := value])
  {
    var next := out[key := value];
    assert next.Keys == base.Keys + (override.Keys - (rest - {key}));
  }

  lemma PartwayEnd(base: map<string, Value>, override: map<string, Value>, out: map<string, Value>)
    requires Partway(base, override, {}, out)
    ensures MergeOf(Dict(base), Dict(override)) == Some(Dict(out))
  {
    forall k | k in base && k in override ensures Compatible(base[k], override[k]) {
      assert EntryOf(base, override, k) == Some(out[k]);
    }
    assert Combine(Dict(base), Dict(override)).entries == out;
  }

  lemma EntryFails(base: map<string, Value>, override: map<string, Value>, key: string)
    requires key in override && EntryOf(base, override, key).None?
    ensures MergeOf(Dict(base), Dict(override)).None?
  {
    assert !Compatible(base[key], override[key]);
  }

  /** The body of the loop for a key both mappings have. */
  method MergeEntry(old_: Value, value: Value) returns (r: Option<Value>)
    ensures r == MergeOf(old_, value)
    decreases value, 1
  {
    if !SameType(old_, value) {
      return None;
    }
    if old_.Dict? {
      assert value == Dict(value.entries);
      var inner := Merge(old_.entries, value.entries);
      if inner.None? {
        return None;
      }
      r := Some(Dict(inner.value));
    } else if old_.List? {
      r := Some(List(old_.items + value.items));
    } else {
      r := Some(value);
    }
  }

  /** The merge of two mappings, visiting the overriding keys in any order; `None` is the type error. */
  method Merge(base: map<string, Value>, override: map<string, Value>) returns (r: Option<map<string, Value>>)
    ensures MergeOf(Dict(base), Dict(override)) == if r.Some? then Some(Dict(r.value)) else None
    decreases Dict(override), 0
  {
    var out := base;
    var rest := override.Keys;
    while rest != {}
      invariant Partway(base, override, rest, out)
      decreases rest
    {
      var key := Pick(rest);
      var entry := Some(override[key]);
      if key in out {
        entry := MergeEntry(out[key], override[key]);
      }
      if entry.None? {
        EntryFails(base, override, key);
        return None;
      }
      PartwayStep(base, override, rest, out, key, entry.value);
      out, rest := out[key := entry.value], rest - {key};
    }
    PartwayEnd(base, override, out);
    r := Some(out);
  }

  // ----- Algebra of the merge --------------------------------------------------------------------

  const EMPTY := Dict(map[])

  /** The empty mapping changes nothing from either side. */
  lemma EmptyIsIdentity(a: Value)
    requires a.Dict?
    ensures MergeOf(EMPTY, a) == Some(a) && MergeOf(a, EMPTY) == Some(a)
  {
    assert Combine(EMPTY, a).entries == a.entries;
    assert Combine(a, EMPTY).entries == a.entries;
  }

  /** A merge is compatible with a third value exactly when both its parts are. */
  lemma {:induction false} CompatibleWithCombined(a: Value, b: Value, c: Value)
    requires Compatible(a, b)
    ensures Compatible(Combine(a, b), c) <==> Compatible(a, c) && Compatible(b, c)
    ensures Compatible(c, Combine(a, b)) <==> Compatible(c, a) && Compatible(c, b)
    decreases a
  {
    if a.Dict? && c.Dict? {
      forall k | k in a.entries && k in b.entries && k in c.entries
        ensures Compatible(Combine(a.entries[k], b.entries[k]), c.entries[k])
           <==> Compatible(a.entries[k], c.entries[k]) && Compatible(b.entries[k], c.entries[k])
        ensures Compatible(c.entries[k], Combine(a.entries[k], b.entries[k]))
           <==> Compatible(c.entries[k], a.entries[k]) && Compatible(c.entries[k], b.entries[k])
      {
        CompatibleWithCombined(a.entries[k], b.entries[k], c.entries[k]);
      }
    }
  }

  lemma {:induction false} CombineAssociates(a: Value, b: Value, c: Value)
    requires Compatible(a, b) && Compatible(b, c) && Compatible(a, c)
    requires Compatible(Combine(a, b), c) && Compatible(a, Combine(b, c))
    ensures Combine(Combine(a, b), c) == Combine(a, Combine(b, c))
    decreases a
  {
    if a.Dict? {
      var left, right := Combine(Combine(a, b), c), Combine(a, Combine(b, c));
      forall k | k in left.entries ensures left.entries[k] == right.entries[k] {
        if k in a.entries && k in b.entries && k in c.entries {
          CombineAssociates(a.entries[k], b.entries[k], c.entries[k]);
        }
      }
      assert left.entries == right.entries;
    }
  }

  ghost function Then(x: Option<Value>, y: Option<Value>): Option<Value> {
    if x.Some? && y.Some? then MergeOf(x.value, y.value) else None
  }

  /** Merging is associative as a partial operation: both groupings fail, or both give the same. */
  lemma MergeAssociates(a: Value, b: Value, c: Value)
    ensures Then(MergeOf(a, b), Some(c)) == Then(Some(a), MergeOf(b, c))
  {
    if Compatible(a, b) {
      CompatibleWithCombined(a, b, c);
    }
    if Compatible(b, c) {
      CompatibleWithCombined(b, c, a);
    }
    if Compatible(a, b) && Compatible(b, c) && Compatible(a, c) {
      CombineAssociates(a, b, c);
    }
  }

  // ----- Paths ------------------------------------------------------------------------------------

  /** What a value holds at a path of keys. */
  function Lookup(v: Value, path: seq<string>): Option<Value> {
    if path == [] then Some(v)
    else if v.Dict? && path[0] in v.entries then Lookup(v.entries[path[0]], path[1..])
    else None
  }

  ghost predicate ClashAt(a: Value, b: Value, path: seq<string>) {
    Lookup(a, path).Some? && Lookup(b, path).Some? && !SameType(Lookup(a, path).value, Lookup(b, path).value)
  }

  /** Two mappings cannot be merged exactly when they disagree on a type at a shared path. */
  lemma {:induction false} IncompatibleExactlyWhenClash(a: Value, b: Value)
    ensures !Compatible(a, b) <==> exists path :: ClashAt(a, b, path)
    decreases a
  {
    if !SameType(a, b) {
      assert ClashAt(a, b, []);
    } else if a.Dict? {
      if k :| k in a.entries && k in b.entries && !Compatible(a.entries[k], b.entries[k]) {
        IncompatibleExactlyWhenClash(a.entries[k], b.entries[k]);
        var path :| ClashAt(a.entries[k], b.entries[k], path);
        assert ([k] + path)[1..] == path;
        assert ClashAt(a, b, [k] + path);
      }
      forall path | ClashAt(a, b, path) ensures !Compatible(a, b) {
        IncompatibleExactlyWhenClash(a.entries[path[0]], b.entries[path[0]]);
        assert ClashAt(a.entries[path[0]], b.entries[path[0]], path[1..]);
      }
    }
  }

  ghost function Both(x: Option<Value>, y: Option<Value>): Option<Value> {
    if x.None? then y else if y.None? then x else MergeOf(x.value, y.value)
  }

  /** A merge holds at a path what its parts hold there, merged. */
  lemma {:induction false} CombinedAt(a: Value, b: Value, path: seq<string>)
    requires Compatible(a, b)
    ensures Lookup(Combine(a, b), path) == Both(Lookup(a, path), Lookup(b, path))
    ensures Lookup(a, path).Some? && Lookup(b, path).Some? ==> Compatible(Lookup(a, path).value, Lookup(b, path).value)
    decreases path
  {
    if path != [] && a.Dict? && path[0] in a.entries && path[0] in b.entries {
      CombinedAt(a.entries[path[0]], b.entries[path[0]], path[1..]);
    }
  }

  // ----- The inheritance chain ---------------------------------------------------------------------

  /** The merge of layers from the root to the most derived one. */
  ghost function Fold(layers: seq<Value>): Option<Value> {
    if layers == [] then Some(EMPTY) else Then(Fold(layers[..|layers| - 1]), Some(layers[|layers| - 1]))
  }

  ghost predicate AllDicts(layers: seq<Value>) {
    forall i :: 0 <= i < |layers| ==> layers[i].Dict?
  }

  ghost predicate PairwiseCompatible(layers: seq<Value>) {
    forall i, j :: 0 <= i < j < |layers| ==> Compatible(layers[i], layers[j])
  }

  lemma {:induction false} FoldIsDict(layers: seq<Value>)
    requires AllDicts(layers)
    ensures Fold(layers).Some? ==> Fold(layers).value.Dict?
    decreases |layers|
  {
    if layers != [] {
      FoldIsDict(layers[..|layers| - 1]);
    }
  }

  ghost predicate AllAccept(layers: seq<Value>, next: Value) {
    forall i :: 0 <= i < |layers| ==> Compatible(layers[i], next)
  }

  lemma AcceptLast(layers: seq<Value>, next: Value)
    requires layers != []
    ensures AllAccept(layers, next) <==>
      AllAccept(layers[..|layers| - 1], next) && Compatible(layers[|layers| - 1], next)
  {
    var front := layers[..|layers| - 1];
    assert forall i :: 0 <= i < |front| ==> front[i] == layers[i];
  }

  /** The merged chain accepts a further layer exactly when each of its layers does. */
  lemma {:induction false} FoldAccepts(layers: seq<Value>, next: Value)
    requires AllDicts(layers) && next.Dict? && Fold(layers).Some?
    ensures Compatible(Fold(layers).value, next) <==> AllAccept(layers, next)
    decreases |layers|
  {
    if layers != [] {
      var n := |layers| - 1;
      FoldLast(layers);
      FoldAccepts(layers[..n], next);
      CompatibleWithCombined(Fold(layers[..n]).value, layers[n], next);
      AcceptLast(layers, next);
    }
  }

  lemma {:induction false} FoldDefined(layers: seq<Value>)
    requires AllDicts(layers)
    ensures Fold(layers).Some? <==> PairwiseCompatible(layers)
    decreases |layers|
  {
    if layers != [] {
      var n := |layers| - 1;
      FoldDefined(layers[..n]);
      if Fold(layers[..n]).Some? {
        FoldAccepts(layers[..n], layers[n]);
      }
      PairwiseLast(layers);
    }
  }

  lemma PairwiseLast(layers: seq<Value>)
    requires layers != []
    ensures var n := |layers| - 1;
      PairwiseCompatible(layers) <==> PairwiseCompatible(layers[..n]) && AllAccept(layers[..n], layers[n])
  {
    var n := |layers| - 1;
    assert forall i :: 0 <= i < n ==> layers[..n][i] == layers[i];
    if PairwiseCompatible(layers[..n]) && AllAccept(layers[..n], layers[n]) {
      forall i, j | 0 <= i < j < |layers| ensures Compatible(layers[i], layers[j]) {
        assert layers[..n][i] == layers[i];
        assert j < n ==> layers[..n][j] == layers[j];
      }
    }
  }

  /** The chain fails exactly when two of its layers disagree on a type at a shared path. */
  lemma FoldFailsExactlyWhen(layers: seq<Value>)
    requires AllDicts(layers)
    ensures Fold(layers).None? <==>
      exists i, j, path :: 0 <= i < j < |layers| && ClashAt(layers[i], layers[j], path)
  {
    FoldDefined(layers);
    forall i, j | 0 <= i < j < |layers|
      ensures !Compatible(layers[i], layers[j]) <==> exists path :: ClashAt(layers[i], layers[j], path)
    {
      IncompatibleExactlyWhenClash(layers[i], layers[j]);
    }
  }

  lemma FoldLast(layers: seq<Value>)
    requires layers != []
    ensures Fold(layers) == Then(Fold(layers[..|layers| - 1]), Some(layers[|layers| - 1]))
  {}

  lemma ThenAssociates(x: Option<Value>, y: Option<Value>, z: Option<Value>)
    ensures Then(Then(x, y), z) == Then(x, Then(y, z))
  {
    if x.Some? && y.Some? && z.Some? {
      MergeAssociates(x.value, y.value, z.value);
    }
  }

  /** A chain may be merged in two parts, split anywhere. */
  lemma {:induction false} FoldSplits(layers: seq<Value>, more: seq<Value>)
    requires AllDicts(layers) && AllDicts(more)
    ensures Fold(layers + more) == Then(Fold(layers), Fold(more))
    decreases |more|
  {
    if more == [] {
      assert layers + more == layers;
      FoldIsDict(layers);
      if Fold(layers).Some? {
        EmptyIsIdentity(Fold(layers).value);
      }
    } else {
      var n := |more| - 1;
      FoldSplits(layers, more[..n]);
      FoldLast(layers + more);
      FoldLast(more);
      assert (layers + more)[..|layers + more| - 1] == layers + more[..n];
      ThenAssociates(Fold(layers), Fold(more[..n]), Some(more[n]));
    }
  }

  /** The value of the most derived layer that has the path. */
  function Winner(layers: seq<Value>, path: seq<string>): Option<Value> {
    if layers == [] then None
    else
      var last := Lookup(layers[|layers| - 1], path);
      if last.Some? then last else Winner(layers[..|layers| - 1], path)
  }

  /** The lists at the path, from the root to the most derived layer. */
  function Gathered(layers: seq<Value>, path: seq<string>): seq<Value> {
    if layers == [] then []
    else
      var last := Lookup(layers[|layers| - 1], path);
      Gathered(layers[..|layers| - 1], path) + if last.Some? && last.value.List? then last.value.items else []
  }

  /** A scalar is the most derived one, a list the concatenation, and nothing appears or is lost. */
  lemma {:induction false} FoldAt(layers: seq<Value>, path: seq<string>)
    requires AllDicts(layers) && Fold(layers).Some? && path != []
    ensures var at := Lookup(Fold(layers).value, path);
      && (at.Some? <==> Winner(layers, path).Some?)
      && (at.Some? ==> SameType(at.value, Winner(layers, path).value))
      && (at.Some? && at.value.Scalar? ==> at == Winner(layers, path))
      && (at.Some? && at.value.List? ==> at.value.items == Gathered(layers, path))
      && (at.None? ==> Gathered(layers, path) == [])
    decreases |layers|
  {
    if layers != [] {
      var n := |layers| - 1;
      FoldAt(layers[..n], path);
      CombinedAt(Fold(layers[..n]).value, layers[n], path);
    }
  }

  /** A scalar that no later layer overrides is the one in the merged chain. */
  lemma {:induction false} ScalarIsMostDerived(layers: seq<Value>, path: seq<string>, i: nat)
    requires AllDicts(layers) && Fold(layers).Some? && path != [] && i < |layers|
    requires Lookup(layers[i], path).Some? && Lookup(layers[i], path).value.Scalar?
    requires forall j :: i < j < |layers| ==> Lookup(layers[j], path).None?
    ensures Lookup(Fold(layers).value, path) == Lookup(layers[i], path)
  {
    FoldAt(layers, path);
    WinnerIs(layers, path, i);
  }

  lemma {:induction false} WinnerIs(layers: seq<Value>, path: seq<string>, i: nat)
    requires i < |layers| && Lookup(layers[i], path).Some?
    requires forall j :: i < j < |layers| ==> Lookup(layers[j], path).None?
    ensures Winner(layers, path) == Lookup(layers[i], path)
    decreases |layers|
  {
    if i < |layers| - 1 {
      WinnerIs(layers[..|layers| - 1], path, i);
    }
  }

  lemma {:induction false} NoWinner(layers: seq<Value>, path: seq<string>)
    ensures Winner(layers, path).None? <==> forall i :: 0 <= i < |layers| ==> Lookup(layers[i], path).None?
    decreases |layers|
  {
    if layers != [] {
      var front := layers[..|layers| - 1];
      NoWinner(front, path);
      assert forall i :: 0 <= i < |front| ==> front[i] == layers[i];
    }
  }

  /** The merged chain has a path exactly when some layer has it. */
  lemma PathsAreKept(layers: seq<Value>, path: seq<string>)
    requires AllDicts(layers) && Fold(layers).Some? && path != []
    ensures Lookup(Fold(layers).value, path).Some? <==> exists i :: 0 <= i < |layers| && Lookup(layers[i], path).Some?
  {
    FoldAt(layers, path);
    NoWinner(layers, path);
  }

  /** The lists of a chain are those of its lower part followed by those of its upper part. */
  lemma {:induction false} GatheredSplits(lower: seq<Value>, upper: seq<Value>, path: seq<string>)
    ensures Gathered(lower + upper, path) == Gathered(lower, path) + Gathered(upper, path)
    decreases |upper|
  {
    if upper == [] {
      assert lower + upper == lower;
    } else {
      GatheredSplits(lower, upper[..|upper| - 1], path);
      SplitsWithLast(lower, upper[..|upper| - 1], upper[|upper| - 1], path);
      LastApart(lower, upper);
    }
  }

  lemma SplitsWithLast(lower: seq<Value>, front: seq<Value>, last: Value, path: seq<string>)
    requires Gathered(lower + front, path) == Gathered(lower, path) + Gathered(front, path)
    ensures Gathered(lower + front + [last], path) == Gathered(lower, path) + Gathered(front + [last], path)
  {
    GatheredLast(lower + front, last, path);
    GatheredLast(front, last, path);
    AppendAssociates(Gathered(lower, path), Gathered(front, path), ItemsAt(last, path));
  }

  lemma LastApart<T>(lower: seq<T>, upper: seq<T>)
    requires upper != []
    ensures upper == upper[..|upper| - 1] + [upper[|upper| - 1]]
    ensures lower + upper == lower + upper[..|upper| - 1] + [upper[|upper| - 1]]
  {
  }

  function ItemsAt(layer: Value, path: seq<string>): seq<Value> {
    var at := Lookup(layer, path);
    if at.Some? && at.value.List? then at.value.items else []
  }

  lemma GatheredLast(layers: seq<Value>, last: Value, path: seq<string>)
    ensures Gathered(layers + [last], path) == Gathered(layers, path) + ItemsAt(last, path)
  {
    assert (layers + [last])[..|layers|] == layers;
  }

  lemma AppendAssociates<T>(a: seq<T>, b: seq<T>, c: seq<T>)
    ensures a + b + c == a + (b + c)
  {
  }

  /** Two layers with a list at the path, and none but them: the lists are appended in order. */
  lemma ListsAppend(below: Value, above: Value, path: seq<string>, xs: seq<Value>, ys: seq<Value>)
    requires below.Dict? && above.Dict? && Fold([below, above]).Some? && path != []
    requires Lookup(below, path) == Some(List(xs)) && Lookup(above, path) == Some(List(ys))
    ensures Lookup(Fold([below, above]).value, path) == Some(List(xs + ys))
  {
    var layers := [below, above];
    assert layers[..1] == [below] && [below][..0] == [];
    assert Gathered([below], path) == xs;
    assert Gathered(layers, path) == Gathered(layers[..1], path) + ys;
    FoldAt(layers, path);
  }

  lemma LookupKey(m: map<string, Value>, k: string)
    ensures Lookup(Dict(m), [k]) == if k in m then Some(m[k]) else None
  {
    assert [k][1..] == [];
  }

  // ----- _build_campaign_case ------------------------------------------------------------------------

  /** One fuzzer of the chain with the overrides its fuzz target holds for it. */
  datatype Link = Link(build: map<string, Value>, buildOverride: map<string, Value>,
                       run: map<string, Value>, runOverride: map<string, Value>)

  /** Root first; after each fuzzer come its overrides. The chain itself lists the leaf first. */
  function BuildLayers(chain: seq<Link>): (r: seq<Value>)
    ensures AllDicts(r)
  {
    if chain == [] then [] else BuildLayers(chain[1..]) + [Dict(chain[0].build), Dict(chain[0].buildOverride)]
  }

  function RunLayers(chain: seq<Link>): (r: seq<Value>)
    ensures AllDicts(r)
  {
    if chain == [] then [] else RunLayers(chain[1..]) + [Dict(chain[0].run), Dict(chain[0].runOverride)]
  }

  lemma {:induction false} LayerCount(chain: seq<Link>)
    ensures |BuildLayers(chain)| == 2 * |chain| && |RunLayers(chain)| == 2 * |chain|
  {
    if chain != [] {
      LayerCount(chain[1..]);
    }
  }

  /** The position of every mapping: ancestors below descendants, and a fuzzer's own below its override. */
  lemma {:induction false} LayersInOrder(chain: seq<Link>, i: nat)
    requires i < |chain|
    ensures var k, build, run := 2 * (|chain| - 1 - i), BuildLayers(chain), RunLayers(chain);
      && |build| == 2 * |chain| && build[k] == Dict(chain[i].build) && build[k + 1] == Dict(chain[i].buildOverride)
      && |run| == 2 * |chain| && run[k] == Dict(chain[i].run) && run[k + 1] == Dict(chain[i].runOverride)
  {
    LayerCount(chain[1..]);
    if i > 0 {
      LayersInOrder(chain[1..], i - 1);
    }
  }

  /** What the target's override for the requested fuzzer says at any path is what the merged chain says. */
  lemma TargetScalarWins(layers: seq<Value>, top: map<string, Value>, merged: map<string, Value>, path: seq<string>)
    requires AllDicts(layers) && layers != [] && layers[|layers| - 1] == Dict(top) && Fold(layers) == Some(Dict(merged))
    requires path != [] && Lookup(Dict(top), path).Some? && Lookup(Dict(top), path).value.Scalar?
    ensures Lookup(Dict(merged), path) == Lookup(Dict(top), path)
  {
    ScalarIsMostDerived(layers, path, |layers| - 1);
  }

  ghost predicate ScalarsPrevail(top: map<string, Value>, merged: map<string, Value>) {
    forall k :: k in top && top[k].Scalar? ==> k in merged && merged[k] == top[k]
  }

  lemma TargetPrevails(layers: seq<Value>, top: map<string, Value>, merged: map<string, Value>)
    requires AllDicts(layers) && layers != [] && layers[|layers| - 1] == Dict(top) && Fold(layers) == Some(Dict(merged))
    ensures ScalarsPrevail(top, merged)
  {
    forall k | k in top && top[k].Scalar? ensures k in merged && merged[k] == top[k] {
      LookupKey(top, k);
      LookupKey(merged, k);
      TargetScalarWins(layers, top, merged, [k]);
    }
  }

  lemma FoldTwo(layers: seq<Value>, a: Value, b: Value)
    ensures Fold(layers + [a, b]) == Then(Then(Fold(layers), Some(a)), Some(b))
  {
    var all := layers + [a, b];
    assert all[..|all| - 1] == layers + [a];
    assert (layers + [a])[..|layers|] == layers;
  }

  datatype Case = Case(build: map<string, Value>, run: map<string, Value>)

  /** Merges the chain from the root fuzzer down to the leaf. */
  method BuildCase(chain: seq<Link>) returns (r: Option<Case>)
    ensures r.Some? ==> Fold(BuildLayers(chain)) == Some(Dict(r.value.build))
    ensures r.Some? ==> Fold(RunLayers(chain)) == Some(Dict(r.value.run))
    ensures r.None? ==> Fold(BuildLayers(chain)).None? || Fold(RunLayers(chain)).None?
    ensures r.Some? && chain != [] ==>
      ScalarsPrevail(chain[0].buildOverride, r.value.build) && ScalarsPrevail(chain[0].runOverride, r.value.run)
  {
    var build, run := map[], map[];
    var n := |chain|;
    while n > 0
      invariant 0 <= n <= |chain|
      invariant Fold(BuildLayers(chain[n..])) == Some(Dict(build)) && Fold(RunLayers(chain[n..])) == Some(Dict(run))
    {
      n := n - 1;
      var step := MergeLink(chain[n], build, run);
      assert chain[n..][1..] == chain[n + 1..];
      FoldTwo(BuildLayers(chain[n + 1..]), Dict(chain[n].build), Dict(chain[n].buildOverride));
      FoldTwo(RunLayers(chain[n + 1..]), Dict(chain[n].run), Dict(chain[n].runOverride));
      if step.None? {
        LaterLayersFail(chain, n);
        return None;
      }
      build, run := step.value.build, step.value.run;
    }
    assert chain[0..] == chain;
    r := Some(Case(build, run));
    if chain != [] {
      LayersInOrder(chain, 0);
      TargetPrevails(BuildLayers(chain), chain[0].buildOverride, build);
      TargetPrevails(RunLayers(chain), chain[0].runOverride, run);
    }
  }

  method MergeLink(l: Link, build: map<string, Value>, run: map<string, Value>) returns (r: Option<Case>)
    ensures var b := Then(MergeOf(Dict(build), Dict(l.build)), Some(Dict(l.buildOverride)));
      var u := Then(MergeOf(Dict(run), Dict(l.run)), Some(Dict(l.runOverride)));
      if r.Some? then b == Some(Dict(r.value.build)) && u == Some(Dict(r.value.run)) else b.None? || u.None?
  {
    var b := Merge(build, l.build);
    if b.None? { return None; }
    b := Merge(b.value, l.buildOverride);
    if b.None? { return None; }
    var u := Merge(run, l.run);
    if u.None? { return None; }
    u := Merge(u.value, l.runOverride);
    if u.None? { return None; }
    r := Some(Case(b.value, u.value));
  }

  /** Once the chain has failed, no further layer repairs it. */
  lemma {:induction false} LaterLayersFail(chain: seq<Link>, n: nat)
    requires n <= |chain|
    ensures Fold(BuildLayers(chain[n..])).None? ==> Fold(BuildLayers(chain)).None?
    ensures Fold(RunLayers(chain[n..])).None? ==> Fold(RunLayers(chain)).None?
    decreases n
  {
    if n == 0 {
      assert chain[0..] == chain;
    } else {
      assert chain[n - 1..][1..] == chain[n..];
      FoldTwo(BuildLayers(chain[n..]), Dict(chain[n - 1].build), Dict(chain[n - 1].buildOverride));
      FoldTwo(RunLayers(chain[n..]), Dict(chain[n - 1].run), Dict(chain[n - 1].runOverride));
      LaterLayersFail(chain, n - 1);
    }
  }
}
