/**
  Loading fuzzer definitions that name a parent and source dependencies, and listing the
  resulting dependency closure. Definitions are well formed; a name is configured when it has one.
 */
module FuzzerGraph {
  import opened Common

  type Name = string

  datatype Definition = Definition(parent: Option<Name>, sources: seq<Name>, allowed: seq<string>)

  type Definitions = map<Name, Definition>

  datatype Fuzzer =
    Fuzzer(id: Name, name: Name, parent: Option<Fuzzer>, allowed: Option<seq<string>>, sources: seq<Fuzzer>)

  datatype LoadError = Cyclic(name: Name) | NotConfigured(name: Name)

  // ----- Restrictions on fuzz targets -------------------------------------------------------------

  function Filter(own: seq<string>, inherited: seq<string>): (r: seq<string>)
    ensures forall s :: s in r <==> s in own && s in inherited
  {
    if own == [] then [] else (if own[0] in inherited then [own[0]] else []) + Filter(own[1..], inherited)
  }

  /** `_effective_allowed`; `None` does not restrict anything. */
  function EffectiveAllowed(own: seq<string>, inherited: Option<seq<string>>): (r: Option<seq<string>>)
    ensures forall s :: Permits(r, s) <==> (own == [] || s in own) && Permits(inherited, s)
  {
    if own == [] then inherited
    else if inherited.None? then Some(own)
    else Some(Filter(own, inherited.value))
  }

  predicate Permits(allowed: Option<seq<string>>, spec: string) {
    allowed.None? || spec in allowed.value
  }

  // ----- The definition graph ------------------------------------------------------------------------

  function Successors(d: Definition): seq<Name> {
    (if d.parent.Some? then [d.parent.value] else []) + d.sources
  }

  predicate Edge(defs: Definitions, a: Name, b: Name) {
    a in defs && b in Successors(defs[a])
  }

  /** An edge leads from a fuzzer to its parent or to one of its source dependencies. */
  lemma EdgeMeaning(defs: Definitions, a: Name, b: Name)
    ensures Edge(defs, a, b) <==> a in defs && (defs[a].parent == Some(b) || b in defs[a].sources)
  {
  }

  ghost predicate IsPath(defs: Definitions, p: seq<Name>) {
    p != [] && forall i :: 0 <= i < |p| - 1 ==> Edge(defs, p[i], p[i + 1])
  }

  ghost predicate PathBetween(defs: Definitions, p: seq<Name>, a: Name, b: Name) {
    IsPath(defs, p) && p[0] == a && p[|p| - 1] == b
  }

  ghost predicate Reaches(defs: Definitions, a: Name, b: Name) {
    exists p :: PathBetween(defs, p, a, b)
  }

  /** A path from `a` comes to `b` a second time. */
  ghost predicate CycleFrom(defs: Definitions, a: Name, b: Name) {
    exists p :: PathBetween(defs, p, a, b) && b in p[..|p| - 1]
  }

  /** Everything reachable is configured and nothing reachable lies on a cycle. */
  ghost predicate Loadable(defs: Definitions, root: Name) {
    && (forall n :: Reaches(defs, root, n) ==> n in defs)
    && (forall n :: !CycleFrom(defs, root, n))
  }

  /** The fuzzer is what the definition of its name unfolds to. */
  ghost predicate Unfolds(defs: Definitions, f: Fuzzer)
    decreases f
  {
    && f.name in defs && f.id == f.name
    && var d := defs[f.name];
    && (if d.parent.None? then f.parent.None?
        else f.parent.Some? && f.parent.value.name == d.parent.value && Unfolds(defs, f.parent.value))
    && f.allowed == EffectiveAllowed(d.allowed, if f.parent.Some? then f.parent.value.allowed else None)
    && |f.sources| == |d.sources|
    && forall i :: 0 <= i < |f.sources| ==> f.sources[i].name == d.sources[i] && Unfolds(defs, f.sources[i])
  }

  /** The fuzzer names the parent and lists the sources its definition has, in order. */
  ghost predicate AsConfigured(defs: Definitions, f: Fuzzer) {
    && f.name in defs && f.id == f.name
    && (defs[f.name].parent.None? ==> f.parent.None?)
    && (defs[f.name].parent.Some? ==> f.parent.Some? && f.parent.value.name == defs[f.name].parent.value)
    && |f.sources| == |defs[f.name].sources|
    && forall i :: 0 <= i < |f.sources| ==> f.sources[i].name == defs[f.name].sources[i]
  }

  /** A spec is permitted exactly when every fuzzer on the parent chain with a list of its own lists it. */
  ghost predicate ChainPermits(defs: Definitions, f: Fuzzer, spec: string)
    requires Unfolds(defs, f)
    decreases f
  {
    && (defs[f.name].allowed == [] || spec in defs[f.name].allowed)
    && (f.parent.Some? ==> ChainPermits(defs, f.parent.value, spec))
  }

  lemma {:induction false} RestrictionsInherit(defs: Definitions, f: Fuzzer, spec: string)
    requires Unfolds(defs, f)
    ensures f.allowed.None? || spec in f.allowed.value <==> ChainPermits(defs, f, spec)
    decreases f
  {
    if f.parent.Some? {
      RestrictionsInherit(defs, f.parent.value, spec);
    }
  }

  // ----- Unfolded fuzzers certify their graph -----------------------------------------------------------

  function Size(f: Fuzzer): nat
    decreases f
  {
    1 + (if f.parent.Some? then Size(f.parent.value) else 0) + SizeAll(f, |f.sources|)
  }

  function SizeAll(f: Fuzzer, n: nat): nat
    requires n <= |f.sources|
    decreases f, 0, n
  {
    if n == 0 then 0 else SizeAll(f, n - 1) + Size(f.sources[n - 1])
  }

  lemma {:induction false} SizeOfSource(f: Fuzzer, i: nat, n: nat)
    requires i < n <= |f.sources|
    ensures Size(f.sources[i]) <= SizeAll(f, n)
  {
    if i < n - 1 {
      SizeOfSource(f, i, n - 1);
    }
  }

  /** A name unfolds in only one way. */
  lemma {:induction false} UnfoldsOnce(defs: Definitions, f: Fuzzer, g: Fuzzer)
    requires Unfolds(defs, f) && Unfolds(defs, g) && f.name == g.name
    ensures f == g
    decreases f
  {
    if f.parent.Some? {
      UnfoldsOnce(defs, f.parent.value, g.parent.value);
    }
    forall i | 0 <= i < |f.sources| ensures f.sources[i] == g.sources[i] {
      UnfoldsOnce(defs, f.sources[i], g.sources[i]);
    }
    assert f.sources == g.sources;
  }

  /** The part of an unfolded fuzzer that a successor name stands for. */
  lemma Child(defs: Definitions, f: Fuzzer, n: Name) returns (g: Fuzzer)
    requires Unfolds(defs, f) && n in Successors(defs[f.name])
    ensures Unfolds(defs, g) && g.name == n && Size(g) < Size(f)
  {
    var d := defs[f.name];
    if d.parent.Some? && n == d.parent.value {
      g := f.parent.value;
    } else {
      var i :| 0 <= i < |d.sources| && d.sources[i] == n;
      g := f.sources[i];
      SizeOfSource(f, i, |f.sources|);
    }
  }

  lemma SubPath(defs: Definitions, p: seq<Name>, i: nat, j: nat)
    requires IsPath(defs, p) && i < j <= |p|
    ensures IsPath(defs, p[i..j])
  {
    var q := p[i..j];
    forall k | 0 <= k < |q| - 1 ensures Edge(defs, q[k], q[k + 1]) {
      assert q[k] == p[i + k] && q[k + 1] == p[i + k + 1];
    }
  }

  /** Following a path from an unfolded fuzzer leads to smaller and smaller parts of it. */
  lemma {:induction false} Descend(defs: Definitions, f: Fuzzer, p: seq<Name>) returns (g: Fuzzer)
    requires Unfolds(defs, f) && IsPath(defs, p) && p[0] == f.name
    ensures Unfolds(defs, g) && g.name == p[|p| - 1]
    ensures Size(g) <= Size(f) && (|p| > 1 ==> Size(g) < Size(f))
    decreases |p|
  {
    if |p| == 1 {
      g := f;
    } else {
      assert Edge(defs, p[0], p[0 + 1]);
      var next := Child(defs, f, p[1]);
      SubPath(defs, p, 1, |p|);
      assert p[1..|p|] == p[1..];
      g := Descend(defs, next, p[1..]);
    }
  }

  lemma NoReturn(defs: Definitions, f: Fuzzer, p: seq<Name>, i: nat)
    requires Unfolds(defs, f) && IsPath(defs, p) && p[0] == f.name && i < |p| - 1
    ensures p[i] != p[|p| - 1]
  {
    SubPath(defs, p, 0, i + 1);
    SubPath(defs, p, i, |p|);
    var g := Descend(defs, f, p[0..i + 1]);
    var h := Descend(defs, g, p[i..|p|]);
    if g.name == h.name {
      UnfoldsOnce(defs, g, h);
    }
  }

  /** Whatever unfolds had an acyclic and fully configured graph. */
  lemma UnfoldsIsLoadable(defs: Definitions, f: Fuzzer)
    requires Unfolds(defs, f)
    ensures Loadable(defs, f.name)
  {
    forall n | Reaches(defs, f.name, n) ensures n in defs {
      var p :| PathBetween(defs, p, f.name, n);
      var g := Descend(defs, f, p);
    }
    forall n ensures !CycleFrom(defs, f.name, n) {
      forall p | PathBetween(defs, p, f.name, n) ensures n !in p[..|p| - 1] {
        forall i | 0 <= i < |p| - 1 ensures p[i] != n {
          NoReturn(defs, f, p, i);
        }
      }
    }
  }

  // ----- The loader ------------------------------------------------------------------------------------

  /** Why loading from `root` cannot succeed. */
  ghost predicate Justifies(defs: Definitions, root: Name, e: LoadError) {
    match e
    case Cyclic(n) => CycleFrom(defs, root, n)
    case NotConfigured(n) => n !in defs && Reaches(defs, root, n)
  }

  ghost predicate Consistent(defs: Definitions, entries: map<Name, Option<Fuzzer>>, stack: seq<Name>) {
    && entries.Keys <= defs.Keys
    && (forall n :: n in stack ==> n in entries)
    && (forall n :: n in entries ==> EntryConsistent(defs, entries[n], n, stack))
  }

  ghost predicate EntryConsistent(defs: Definitions, e: Option<Fuzzer>, n: Name, stack: seq<Name>) {
    if e.None? then n in stack else n !in stack && e.value.name == n && Unfolds(defs, e.value)
  }

  lemma BeginEntry(defs: Definitions, entries: map<Name, Option<Fuzzer>>, stack: seq<Name>, name: Name)
    requires Consistent(defs, entries, stack) && name in defs && name !in entries
    ensures Consistent(defs, entries[name := None], stack + [name])
    ensures |defs.Keys - entries[name := None].Keys| < |defs.Keys - entries.Keys|
    ensures |defs.Keys - entries.Keys - {name}| < |defs.Keys - entries.Keys|
  {
    var after := entries[name := None];
    assert defs.Keys - after.Keys == defs.Keys - entries.Keys - {name};
    assert |defs.Keys - entries.Keys - {name}| == |defs.Keys - entries.Keys| - 1;
    forall n | n in after ensures EntryConsistent(defs, after[n], n, stack + [name]) {
      assert n != name ==> EntryConsistent(defs, entries[n], n, stack);
    }
  }

  lemma EndEntry(defs: Definitions, entries: map<Name, Option<Fuzzer>>, stack: seq<Name>, name: Name, f: Fuzzer)
    requires Consistent(defs, entries, stack + [name]) && name !in stack && name in defs
    requires f.name == name && Unfolds(defs, f)
    ensures Consistent(defs, entries[name := Some(f)], stack)
  {
    var after := entries[name := Some(f)];
    forall n | n in after ensures EntryConsistent(defs, after[n], n, stack) {
      assert n != name ==> EntryConsistent(defs, entries[n], n, stack + [name]);
    }
  }

  /** The fuzzers unfold the first of the names, in order. */
  ghost predicate AreNamed(defs: Definitions, fuzzers: seq<Fuzzer>, names: seq<Name>) {
    && |fuzzers| <= |names|
    && forall k :: 0 <= k < |fuzzers| ==> fuzzers[k].name == names[k] && Unfolds(defs, fuzzers[k])
  }

  lemma NamedAppend(defs: Definitions, fuzzers: seq<Fuzzer>, names: seq<Name>, f: Fuzzer)
    requires AreNamed(defs, fuzzers, names) && |fuzzers| < |names| && f.name == names[|fuzzers|] && Unfolds(defs, f)
    ensures AreNamed(defs, fuzzers + [f], names)
  {
  }

  class Loader {
    const defs: Definitions
    /** `None` marks the names whose loading has begun but not ended. */
    var entries: map<Name, Option<Fuzzer>>

    constructor (defs: Definitions)
      ensures this.defs == defs && Loaded([])
    {
      this.defs := defs;
      entries := map[];
    }

    /** The open entries are exactly those on the stack of pending calls; all others are final. */
    ghost predicate Loaded(stack: seq<Name>)
      reads this
    {
      Consistent(defs, entries, stack)
    }

    /** `_load_fuzzer_from_config`, called while the names on the stack are being loaded. */
    method Load(name: Name, ghost stack: seq<Name>) returns (r: Result<Fuzzer, LoadError>)
      requires Loaded(stack) && IsPath(defs, stack + [name])
      modifies this`entries
      ensures r.Ok? ==> Loaded(stack) && Unfolds(defs, r.value) && r.value.name == name
      ensures old(entries.Keys) <= entries.Keys
      ensures r.Err? ==> Justifies(defs, (stack + [name])[0], r.error)
      decreases |defs.Keys - entries.Keys|, 0
    {
      ghost var path := stack + [name];
      if name in entries {
        if entries[name].None? {
          assert path[..|path| - 1] == stack;
          assert PathBetween(defs, path, path[0], name);
          return Err(Cyclic(name));
        }
        return Ok(entries[name].value);
      }
      if name !in defs {
        assert PathBetween(defs, path, path[0], name);
        return Err(NotConfigured(name));
      }
      BeginEntry(defs, entries, stack, name);
      entries := entries[name := None];
      var d := defs[name];
      var ancestry := LoadAll(if d.parent.Some? then [d.parent.value] else [], path);
      if ancestry.Err? {
        return Err(ancestry.error);
      }
      SubsetCardinality(defs.Keys - entries.Keys, defs.Keys - old(entries.Keys) - {name});
      var sources := LoadAll(d.sources, path);
      if sources.Err? {
        return Err(sources.error);
      }
      var parent := if d.parent.Some? then Some(ancestry.value[0]) else None;
      var inherited := if parent.Some? then parent.value.allowed else None;
      var fuzzer := Fuzzer(name, name, parent, EffectiveAllowed(d.allowed, inherited), sources.value);
      EndEntry(defs, entries, stack, name, fuzzer);
      entries := entries[name := Some(fuzzer)];
      r := Ok(fuzzer);
    }

    /** Loads the names one after the other, as the list comprehension over the sources does. */
    method LoadAll(names: seq<Name>, ghost path: seq<Name>) returns (r: Result<seq<Fuzzer>, LoadError>)
      requires path != [] && Loaded(path) && IsPath(defs, path)
      requires forall n :: n in names ==> Edge(defs, path[|path| - 1], n)
      modifies this`entries
      ensures r.Ok? ==> Loaded(path) && |r.value| == |names|
      ensures r.Ok? ==> AreNamed(defs, r.value, names)
      ensures old(entries.Keys) <= entries.Keys
      ensures r.Err? ==> Justifies(defs, path[0], r.error)
      decreases |defs.Keys - entries.Keys|, 1
    {
      var fuzzers: seq<Fuzzer> := [];
      for i := 0 to |names|
        invariant Loaded(path) && old(entries.Keys) <= entries.Keys && |fuzzers| == i
        invariant AreNamed(defs, fuzzers, names)
      {
        assert names[i] in names;
        NextOnPath(defs, path, names[i]);
        SubsetCardinality(defs.Keys - entries.Keys, defs.Keys - old(entries.Keys));
        var one := Load(names[i], path);
        if one.Err? {
          return Err(one.error);
        }
        NamedAppend(defs, fuzzers, names, one.value);
        fuzzers := fuzzers + [one.value];
      }
      r := Ok(fuzzers);
    }

    /**
      A top-level load, after any number of others: it ends, and it succeeds exactly when the
      graph reachable from the name is acyclic and fully configured.
     */
    method LoadFuzzer(name: Name) returns (r: Result<Fuzzer, LoadError>)
      requires Loaded([])
      modifies this`entries
      ensures r.Ok? <==> Loadable(defs, name)
      ensures r.Ok? ==> Loaded([]) && Unfolds(defs, r.value) && r.value.name == name
      ensures r.Ok? ==> AsConfigured(defs, r.value)
      ensures r.Err? ==> Justifies(defs, name, r.error)
    {
      r := Load(name, []);
      if r.Ok? {
        UnfoldsIsLoadable(defs, r.value);
      }
    }
  }

  lemma NextOnPath(defs: Definitions, path: seq<Name>, next: Name)
    requires IsPath(defs, path) && Edge(defs, path[|path| - 1], next)
    ensures IsPath(defs, path + [next])
  {
  }
}
