/**
  Publishing a coverage output root: the carried directories of the old root move into the
  temporary tree, the old root moves aside, and the tree takes its place; a failing rename
  rolls everything back. The file system is a map from paths to nodes, and an oracle names
  the renames that fail.
 */
module OutputRoot {
  import opened Common

  type Path = seq<string>

  datatype Node = Dir | File(content: string)

  type FileSystem = map<Path, Node>

  /** One rename, from the first path to the second. */
  type Renaming = (Path, Path)

  function At(fs: FileSystem, q: Path): Option<Node> {
    if q in fs then Some(fs[q]) else None
  }

  function Rebase(q: Path, from: Path, to: Path): Path
    requires from <= q
  {
    to + q[|from|..]
  }

  predicate Apart(a: Path, b: Path) {
    !(a <= b) && !(b <= a)
  }

  // ----- Renaming a directory -----------------------------------------------------------------

  ghost function MovedAt(fs: FileSystem, src: Path, dst: Path, q: Path): Option<Node> {
    if dst <= q then At(fs, Rebase(q, dst, src))
    else if src <= q then None
    else At(fs, q)
  }

  /** The whole subtree at `src` now hangs at `dst`. */
  function Move(fs: FileSystem, src: Path, dst: Path): (r: FileSystem)
    ensures forall q :: At(r, q) == MovedAt(fs, src, dst, q)
  {
    var keys := fs.Keys + set p | p in fs && src <= p :: Rebase(p, src, dst);
    var r := map q | q in keys && (if dst <= q then Rebase(q, dst, src) in fs else !(src <= q) && q in fs)
      :: if dst <= q then fs[Rebase(q, dst, src)] else fs[q];
    assert forall q :: At(r, q) == MovedAt(fs, src, dst, q) by {
      forall q ensures At(r, q) == MovedAt(fs, src, dst, q) {
        if dst <= q && Rebase(q, dst, src) in fs {
          assert Rebase(Rebase(q, dst, src), src, dst) == q;
          assert q in keys;
        }
      }
    }
    r
  }

  predicate IsDir(fs: FileSystem, q: Path) {
    q in fs && fs[q] == Dir
  }

  /** Nothing is there, except perhaps an empty directory that a renamed directory replaces. */
  predicate Vacant(fs: FileSystem, q: Path) {
    forall p :: p in fs && q <= p ==> p == q && fs[p] == Dir
  }

  predicate CanRename(fs: FileSystem, src: Path, dst: Path) {
    && src in fs && Apart(src, dst) && dst != [] && IsDir(fs, dst[..|dst| - 1])
    && Vacant(fs, dst) && (dst in fs ==> fs[src] == Dir)
  }

  ghost predicate SameOutside(root: Path, fs: FileSystem, gs: FileSystem) {
    forall q :: !(root <= q) ==> At(fs, q) == At(gs, q)
  }

  lemma Extensional(fs: FileSystem, gs: FileSystem)
    requires forall q :: At(fs, q) == At(gs, q)
    ensures fs == gs
  {
    assert forall q :: q in fs <==> At(fs, q) != None;
    assert forall q :: q in gs <==> At(gs, q) != None;
    assert forall q :: q in fs ==> At(fs, q) == Some(fs[q]);
    assert forall q :: q in gs ==> At(gs, q) == Some(gs[q]);
  }

  /** A rename to a place where nothing is, and back, changes nothing. */
  lemma MoveBack(fs: FileSystem, src: Path, dst: Path)
    requires Apart(src, dst) && forall q :: dst <= q ==> At(fs, q) == None
    ensures Move(Move(fs, src, dst), dst, src) == fs
  {
    var moved := Move(fs, src, dst);
    var back := Move(moved, dst, src);
    forall q ensures At(back, q) == At(fs, q) {
      if src <= q {
        var p := Rebase(q, src, dst);
        assert At(back, q) == At(moved, p);
        assert Rebase(p, dst, src) == q;
      }
    }
    Extensional(back, fs);
  }

  // ----- The trees involved ---------------------------------------------------------------------

  /** The output root, the temporary tree and the backup are different entries of one directory. */
  ghost predicate Siblings(fs: FileSystem, out: Path, tmp: Path, backup: Path) {
    && |out| == |tmp| == |backup| > 0
    && out[..|out| - 1] == tmp[..|out| - 1] == backup[..|out| - 1]
    && out != tmp && out != backup && tmp != backup
    && IsDir(fs, out[..|out| - 1]) && IsDir(fs, tmp)
    && (forall q :: backup <= q ==> At(fs, q) == None)
  }

  /** Every entry lies in a directory, as in any file system. */
  ghost predicate Rooted(fs: FileSystem) {
    forall q :: q in fs && q != [] ==> IsDir(fs, q[..|q| - 1])
  }

  /** The carried directories lie apart from each other. */
  ghost predicate Separate(carried: seq<Path>) {
    forall i, j :: 0 <= i < j < |carried| ==> Apart(carried[i], carried[j])
  }

  predicate Within(moved: seq<Path>, q: Path) {
    exists i :: 0 <= i < |moved| && moved[i] <= q
  }

  /** A carried path counts only if it is a directory strictly inside the output root. */
  predicate Carries(fs: FileSystem, out: Path, path: Path) {
    out < path && IsDir(fs, path)
  }

  function CarriedDirs(fs: FileSystem, out: Path, carried: seq<Path>): (r: seq<Path>)
    ensures forall c :: c in r <==> c in carried && Carries(fs, out, c)
  {
    if carried == [] then []
    else
      var n := |carried| - 1;
      CarriedDirs(fs, out, carried[..n]) + if Carries(fs, out, carried[n]) then [carried[n]] else []
  }

  /** What is at `q` once the given directories have moved from the root into the tree. */
  ghost function CarriedAt(fs: FileSystem, out: Path, tmp: Path, moved: seq<Path>, q: Path): Option<Node> {
    if tmp <= q then
      if Within(moved, Rebase(q, tmp, out)) then At(fs, Rebase(q, tmp, out)) else At(fs, q)
    else if Within(moved, q) then None
    else At(fs, q)
  }

  /**
    The new root holds the temporary tree and, at their old places, the carried directories;
    the rest of the old root is the backup.
   */
  ghost function PublishedAt(fs: FileSystem, out: Path, tmp: Path, backup: Path, moved: seq<Path>,
                             q: Path): Option<Node>
  {
    if out <= q then
      if Within(moved, q) then At(fs, q) else At(fs, Rebase(q, out, tmp))
    else if tmp <= q then None
    else if backup <= q then
      if Within(moved, Rebase(q, backup, out)) then None else At(fs, Rebase(q, backup, out))
    else At(fs, q)
  }

  /** Of the backup only what could not be deleted is left. */
  ghost predicate HasPublished(fs0: FileSystem, fs: FileSystem, out: Path, tmp: Path, backup: Path, moved: seq<Path>,
                               undeletable: set<Path>)
  {
    forall q ::
      At(fs, q) == (if backup <= q && q !in undeletable then None else PublishedAt(fs0, out, tmp, backup, moved, q))
  }

  predicate DirClear(fs: FileSystem, out: Path, tmp: Path, faults: set<Renaming>, c: Path) {
    Carries(fs, out, c) ==> (c, Rebase(c, out, tmp)) !in faults && CanRename(fs, c, Rebase(c, out, tmp))
  }

  /** Every carried directory can move into the tree. */
  ghost predicate CarryingClear(fs: FileSystem, out: Path, tmp: Path, carried: seq<Path>, faults: set<Renaming>) {
    forall c :: c in carried ==> DirClear(fs, out, tmp, faults, c)
  }

  /** No carried directory is kept from moving back. */
  ghost predicate RollbackClear(out: Path, tmp: Path, carried: seq<Path>, faults: set<Renaming>) {
    forall c :: c in carried && out < c ==> (Rebase(c, out, tmp), c) !in faults
  }

  // ----- Moving one directory, and back -----------------------------------------------------------

  lemma SiblingsApart(fs: FileSystem, out: Path, tmp: Path, backup: Path, q: Path)
    requires Siblings(fs, out, tmp, backup)
    ensures !(out <= q && tmp <= q) && !(out <= q && backup <= q) && !(tmp <= q && backup <= q)
  {
    assert out <= q ==> q[..|out|] == out;
    assert tmp <= q ==> q[..|out|] == tmp;
    assert backup <= q ==> q[..|out|] == backup;
  }

  /** Everything is where moving exactly these directories puts it. */
  ghost predicate HasCarried(fs0: FileSystem, fs: FileSystem, out: Path, tmp: Path, moved: seq<Path>) {
    forall q :: At(fs, q) == CarriedAt(fs0, out, tmp, moved, q)
  }

  /** The same, but only outside the tree and for the directories moved into it. */
  ghost predicate KeepsCarried(fs0: FileSystem, fs: FileSystem, out: Path, tmp: Path, moved: seq<Path>) {
    forall q :: !(tmp <= q) || Within(moved, Rebase(q, tmp, out)) ==> At(fs, q) == CarriedAt(fs0, out, tmp, moved, q)
  }

  lemma WithinAppend(moved: seq<Path>, c: Path, q: Path)
    ensures Within(moved + [c], q) <==> Within(moved, q) || c <= q
  {
    var longer := moved + [c];
    if i :| 0 <= i < |moved| && moved[i] <= q {
      assert longer[i] <= q;
    }
    assert longer[|moved|] == c;
  }

  lemma ApartNotWithin(moved: seq<Path>, c: Path, q: Path)
    requires (forall i :: 0 <= i < |moved| ==> Apart(moved[i], c)) && c <= q
    ensures !Within(moved, q)
  {
    forall i | 0 <= i < |moved| ensures !(moved[i] <= q) {
      CommonDescendant(moved[i], c, q);
    }
  }

  lemma CommonDescendant(a: Path, b: Path, q: Path)
    ensures a <= q && b <= q ==> !Apart(a, b)
  {
    if a <= q && b <= q {
      assert if |a| <= |b| then a == b[..|a|] else b == a[..|b|];
    }
  }

  lemma TargetApart(fs: FileSystem, out: Path, tmp: Path, backup: Path, c: Path)
    requires Siblings(fs, out, tmp, backup) && out < c
    ensures Apart(c, Rebase(c, out, tmp)) && tmp <= Rebase(c, out, tmp)
  {
    var target := Rebase(c, out, tmp);
    SiblingsApart(fs, out, tmp, backup, c);
    SiblingsApart(fs, out, tmp, backup, target);
  }

  /** One entry after one more directory has moved. */
  lemma ForwardAt(fs0: FileSystem, fs: FileSystem, out: Path, tmp: Path, backup: Path, moved: seq<Path>, c: Path,
                  q: Path)
    requires Siblings(fs0, out, tmp, backup) && HasCarried(fs0, fs, out, tmp, moved) && out < c
    requires forall i :: 0 <= i < |moved| ==> Apart(moved[i], c)
    ensures MovedAt(fs, c, Rebase(c, out, tmp), q) == CarriedAt(fs0, out, tmp, moved + [c], q)
  {
    var target := Rebase(c, out, tmp);
    SiblingsApart(fs0, out, tmp, backup, q);
    WithinAppend(moved, c, q);
    if target <= q {
      var home := Rebase(q, tmp, out);
      assert home == Rebase(q, target, c);
      SiblingsApart(fs0, out, tmp, backup, home);
      ApartNotWithin(moved, c, home);
      WithinAppend(moved, c, home);
    } else if tmp <= q {
      var home := Rebase(q, tmp, out);
      WithinAppend(moved, c, home);
      assert Rebase(home, out, tmp) == q;
    }
  }

  lemma ForwardStep(fs0: FileSystem, fs: FileSystem, out: Path, tmp: Path, backup: Path, moved: seq<Path>, c: Path)
    requires Siblings(fs0, out, tmp, backup) && HasCarried(fs0, fs, out, tmp, moved) && out < c
    requires forall i :: 0 <= i < |moved| ==> Apart(moved[i], c)
    ensures HasCarried(fs0, Move(fs, c, Rebase(c, out, tmp)), out, tmp, moved + [c])
  {
    forall q ensures At(Move(fs, c, Rebase(c, out, tmp)), q) == CarriedAt(fs0, out, tmp, moved + [c], q) {
      ForwardAt(fs0, fs, out, tmp, backup, moved, c, q);
    }
  }

  lemma BackwardAt(fs0: FileSystem, fs: FileSystem, out: Path, tmp: Path, backup: Path, moved: seq<Path>, c: Path,
                   q: Path)
    requires Siblings(fs0, out, tmp, backup) && KeepsCarried(fs0, fs, out, tmp, moved + [c]) && out < c
    requires forall i :: 0 <= i < |moved| ==> Apart(moved[i], c)
    requires !(tmp <= q) || Within(moved, Rebase(q, tmp, out))
    ensures MovedAt(fs, Rebase(c, out, tmp), c, q) == CarriedAt(fs0, out, tmp, moved, q)
  {
    var target := Rebase(c, out, tmp);
    SiblingsApart(fs0, out, tmp, backup, q);
    WithinAppend(moved, c, q);
    if c <= q {
      var there := Rebase(q, c, target);
      SiblingsApart(fs0, out, tmp, backup, there);
      assert Rebase(there, tmp, out) == q;
      ApartNotWithin(moved, c, q);
      assert At(fs, there) == CarriedAt(fs0, out, tmp, moved + [c], there);
    } else if tmp <= q {
      var home := Rebase(q, tmp, out);
      WithinAppend(moved, c, home);
      assert Rebase(home, out, tmp) == q;
      if c <= home { ApartNotWithin(moved, c, home); }
    } else {
      assert !(target <= q);
    }
  }

  lemma BackwardStep(fs0: FileSystem, fs: FileSystem, out: Path, tmp: Path, backup: Path, moved: seq<Path>, c: Path)
    requires Siblings(fs0, out, tmp, backup) && KeepsCarried(fs0, fs, out, tmp, moved + [c]) && out < c
    requires forall i :: 0 <= i < |moved| ==> Apart(moved[i], c)
    ensures KeepsCarried(fs0, Move(fs, Rebase(c, out, tmp), c), out, tmp, moved)
  {
    forall q | !(tmp <= q) || Within(moved, Rebase(q, tmp, out))
      ensures At(Move(fs, Rebase(c, out, tmp), c), q) == CarriedAt(fs0, out, tmp, moved, q)
    {
      BackwardAt(fs0, fs, out, tmp, backup, moved, c, q);
    }
  }

  /** During rollback the directory is at its place in the tree. */
  lemma BackwardSource(fs0: FileSystem, fs: FileSystem, out: Path, tmp: Path, moved: seq<Path>, c: Path)
    requires KeepsCarried(fs0, fs, out, tmp, moved + [c]) && out < c
    ensures At(fs, Rebase(c, out, tmp)) == At(fs0, c)
  {
    var target := Rebase(c, out, tmp);
    assert tmp <= target && Rebase(target, tmp, out) == c;
    WithinAppend(moved, c, c);
    assert At(fs, target) == CarriedAt(fs0, out, tmp, moved + [c], target);
  }

  /** Its old place is free. */
  lemma BackwardVacant(fs0: FileSystem, fs: FileSystem, out: Path, tmp: Path, backup: Path, moved: seq<Path>, c: Path)
    requires Siblings(fs0, out, tmp, backup) && KeepsCarried(fs0, fs, out, tmp, moved + [c]) && out < c
    ensures Vacant(fs, c) && c !in fs
  {
    forall p | c <= p ensures p !in fs {
      SiblingsApart(fs0, out, tmp, backup, p);
      WithinAppend(moved, c, p);
      assert At(fs, p) == CarriedAt(fs0, out, tmp, moved + [c], p);
    }
  }

  /** The parent of its old place stands. */
  lemma BackwardParent(fs0: FileSystem, fs: FileSystem, out: Path, tmp: Path, backup: Path, moved: seq<Path>, c: Path)
    requires Siblings(fs0, out, tmp, backup) && KeepsCarried(fs0, fs, out, tmp, moved + [c]) && out < c
    requires forall i :: 0 <= i < |moved| ==> Apart(moved[i], c)
    requires Rooted(fs0) && IsDir(fs0, c)
    ensures IsDir(fs, c[..|c| - 1])
  {
    var parent := c[..|c| - 1];
    assert out <= parent;
    SiblingsApart(fs0, out, tmp, backup, parent);
    WithinAppend(moved, c, parent);
    assert !(c <= parent);
    if Within(moved, parent) {
      ParentWithin(moved, c);
      ApartNotWithin(moved, c, c);
    }
    assert At(fs, parent) == CarriedAt(fs0, out, tmp, moved + [c], parent);
  }

  /** During rollback the old place of the last directory is free and its parent stands. */
  lemma BackwardPossible(fs0: FileSystem, fs: FileSystem, out: Path, tmp: Path, backup: Path, moved: seq<Path>, c: Path)
    requires Siblings(fs0, out, tmp, backup) && KeepsCarried(fs0, fs, out, tmp, moved + [c]) && out < c
    requires forall i :: 0 <= i < |moved| ==> Apart(moved[i], c)
    requires Rooted(fs0) && IsDir(fs0, c)
    ensures CanRename(fs, Rebase(c, out, tmp), c)
  {
    TargetApart(fs0, out, tmp, backup, c);
    BackwardSource(fs0, fs, out, tmp, moved, c);
    BackwardVacant(fs0, fs, out, tmp, backup, moved, c);
    BackwardParent(fs0, fs, out, tmp, backup, moved, c);
  }

  /** One round of the rollback loop. */
  lemma BackwardRound(fs0: FileSystem, fs: FileSystem, out: Path, tmp: Path, backup: Path, moved: seq<Path>, k: nat)
    requires Siblings(fs0, out, tmp, backup) && Rooted(fs0) && k < |moved|
    requires Separate(moved) && forall c :: c in moved ==> Carries(fs0, out, c)
    requires KeepsCarried(fs0, fs, out, tmp, moved[..k + 1])
    ensures out <= moved[k] && CanRename(fs, Rebase(moved[k], out, tmp), moved[k])
    ensures KeepsCarried(fs0, Move(fs, Rebase(moved[k], out, tmp), moved[k]), out, tmp, moved[..k])
  {
    var c := moved[k];
    assert c in moved;
    assert moved[..k + 1] == moved[..k] + [c];
    BackwardPossible(fs0, fs, out, tmp, backup, moved[..k], c);
    BackwardStep(fs0, fs, out, tmp, backup, moved[..k], c);
  }

  lemma ParentWithin(moved: seq<Path>, c: Path)
    requires c != [] && Within(moved, c[..|c| - 1])
    ensures Within(moved, c)
  {
    var i :| 0 <= i < |moved| && moved[i] <= c[..|c| - 1];
    assert moved[i] <= c;
  }

  /** Earlier moves neither help nor hinder the next one. */
  lemma ForwardPossible(fs0: FileSystem, fs: FileSystem, out: Path, tmp: Path, backup: Path, moved: seq<Path>, c: Path)
    requires Siblings(fs0, out, tmp, backup) && HasCarried(fs0, fs, out, tmp, moved) && out < c
    requires forall i :: 0 <= i < |moved| ==> Apart(moved[i], c)
    ensures At(fs, c) == At(fs0, c)
    ensures CanRename(fs, c, Rebase(c, out, tmp)) <==> CanRename(fs0, c, Rebase(c, out, tmp))
  {
    var target := Rebase(c, out, tmp);
    SiblingsApart(fs0, out, tmp, backup, c);
    ApartNotWithin(moved, c, c);
    assert At(fs, c) == At(fs0, c);
    forall p | target <= p ensures At(fs, p) == At(fs0, p) {
      assert Rebase(p, tmp, out) == Rebase(p, target, c);
      ApartNotWithin(moved, c, Rebase(p, tmp, out));
    }
    var parent := target[..|target| - 1];
    assert Rebase(parent, tmp, out) == c[..|c| - 1];
    if Within(moved, c[..|c| - 1]) {
      ParentWithin(moved, c);
    }
    assert At(fs, parent) == At(fs0, parent);
    SameChoices(fs, fs0, c, target);
  }

  lemma SameChoices(fs: FileSystem, gs: FileSystem, src: Path, dst: Path)
    requires dst != [] && At(fs, src) == At(gs, src) && At(fs, dst[..|dst| - 1]) == At(gs, dst[..|dst| - 1])
    requires forall p :: dst <= p ==> At(fs, p) == At(gs, p)
    ensures CanRename(fs, src, dst) <==> CanRename(gs, src, dst)
  {
    forall p | dst <= p ensures (p in fs <==> p in gs) && (p in fs ==> fs[p] == gs[p]) {
      assert At(fs, p) == At(gs, p);
    }
  }

  // ----- The operations -----------------------------------------------------------------------------

  /** The tree is at `dst`, what was there is the backup. */
  ghost function PromotedAt(fs: FileSystem, src: Path, dst: Path, backup: Path, q: Path): Option<Node> {
    if dst <= q then At(fs, Rebase(q, dst, src))
    else if src <= q then None
    else if backup <= q then At(fs, Rebase(q, backup, dst))
    else At(fs, q)
  }

  /** No rename of the promotion itself fails. */
  predicate PromotionClear(fs: FileSystem, src: Path, dst: Path, backup: Path, faults: set<Renaming>) {
    (dst in fs ==> (dst, backup) !in faults) && (src, dst) !in faults
  }

  /** Moving the old root aside is possible, can be undone, and makes way for the tree. */
  lemma AsidePossible(fs: FileSystem, src: Path, dst: Path, backup: Path)
    requires Siblings(fs, dst, src, backup) && dst in fs
    ensures CanRename(fs, dst, backup)
    ensures var aside := Move(fs, dst, backup);
      && dst !in aside && backup in aside && CanRename(aside, src, dst)
      && CanRename(aside, backup, dst) && Move(aside, backup, dst) == fs
  {
    var parent, aside := dst[..|dst| - 1], Move(fs, dst, backup);
    SiblingsApart(fs, dst, src, backup, dst);
    SiblingsApart(fs, dst, src, backup, src);
    SiblingsApart(fs, dst, src, backup, backup);
    assert Vacant(fs, backup) by { assert forall q :: q in fs ==> At(fs, q) != None; }
    assert At(fs, backup) == None;
    assert At(aside, parent) == At(fs, parent);
    assert At(aside, src) == At(fs, src);
    assert At(aside, backup) == At(fs, dst) by { assert Rebase(backup, backup, dst) == dst; }
    assert Vacant(aside, dst) && dst !in aside by {
      forall q | dst <= q ensures q !in aside {
        SiblingsApart(fs, dst, src, backup, q);
        assert At(aside, q) == None;
      }
    }
    MoveBack(fs, dst, backup);
  }

  lemma FirstPossible(fs: FileSystem, src: Path, dst: Path, backup: Path)
    requires Siblings(fs, dst, src, backup) && dst !in fs && Vacant(fs, dst)
    ensures CanRename(fs, src, dst)
  {
    SiblingsApart(fs, dst, src, backup, dst);
    SiblingsApart(fs, dst, src, backup, src);
  }

  lemma PromotedEntry(fs: FileSystem, src: Path, dst: Path, backup: Path, q: Path)
    requires Siblings(fs, dst, src, backup) && (dst in fs || Vacant(fs, dst))
    ensures At(Move(if dst in fs then Move(fs, dst, backup) else fs, src, dst), q)
         == PromotedAt(fs, src, dst, backup, q)
  {
    SiblingsApart(fs, dst, src, backup, q);
    if dst <= q {
      SiblingsApart(fs, dst, src, backup, Rebase(q, dst, src));
    }
    if backup <= q {
      assert dst <= Rebase(q, backup, dst);
      assert At(fs, q) == None;
      assert dst !in fs ==> At(fs, Rebase(q, backup, dst)) == None;
    }
  }

  lemma CarriedAppend(fs: FileSystem, out: Path, carried: seq<Path>, n: nat)
    requires n < |carried|
    ensures CarriedDirs(fs, out, carried[..n + 1])
         == CarriedDirs(fs, out, carried[..n]) + if Carries(fs, out, carried[n]) then [carried[n]] else []
  {
    assert carried[..n + 1][..n] == carried[..n];
  }

  /** The directories carried so far lie apart from each other and from the next path. */
  lemma {:induction false} CarriedSeparate(fs: FileSystem, out: Path, carried: seq<Path>, n: nat)
    requires n < |carried| && Separate(carried[..n])
    ensures Separate(CarriedDirs(fs, out, carried[..n]))
    ensures Separate(carried) ==> forall c :: c in CarriedDirs(fs, out, carried[..n]) ==> Apart(c, carried[n])
    decreases n
  {
    if n > 0 {
      assert carried[..n][..n - 1] == carried[..n - 1];
      assert Separate(carried[..n - 1]) by {
        assert forall i :: 0 <= i < n - 1 ==> carried[..n - 1][i] == carried[..n][i];
      }
      CarriedSeparate(fs, out, carried[..n], n - 1);
      CarriedAppend(fs, out, carried, n - 1);
    }
  }

  /** What one more round of the carrying loop looks at. */
  lemma NextPath(fs: FileSystem, out: Path, tmp: Path, carried: seq<Path>, n: nat, faults: set<Renaming>)
    requires n < |carried| && Separate(carried)
    ensures var moved := CarriedDirs(fs, out, carried[..n]);
      && (forall i :: 0 <= i < |moved| ==> Apart(moved[i], carried[n]))
      && CarriedDirs(fs, out, carried[..n + 1]) == if Carries(fs, out, carried[n]) then moved + [carried[n]] else moved
    ensures CarryingClear(fs, out, tmp, carried[..n + 1], faults) <==>
      CarryingClear(fs, out, tmp, carried[..n], faults) && DirClear(fs, out, tmp, faults, carried[n])
    ensures CarryingClear(fs, out, tmp, carried, faults) ==> DirClear(fs, out, tmp, faults, carried[n])
  {
    assert forall c :: c in carried[..n] ==> c in carried;
    CarriedSeparate(fs, out, carried, n);
    CarriedAppend(fs, out, carried, n);
    assert carried[..n + 1] == carried[..n] + [carried[n]];
  }

  lemma MovedSeparate(fs: FileSystem, out: Path, carried: seq<Path>, moved: seq<Path>)
    requires Separate(carried) && exists n :: 0 <= n <= |carried| && moved == CarriedDirs(fs, out, carried[..n])
    ensures Separate(moved) && forall c :: c in moved ==> c in carried && Carries(fs, out, c)
  {
    var n :| 0 <= n <= |carried| && moved == CarriedDirs(fs, out, carried[..n]);
    var more := carried + [out];
    assert more[..n] == carried[..n];
    CarriedSeparate(fs, out, more, n);
  }

  /** After carrying, the promotion finds the three siblings as they were. */
  lemma PromotionStage(fs0: FileSystem, fs: FileSystem, out: Path, tmp: Path, backup: Path, moved: seq<Path>)
    requires Siblings(fs0, out, tmp, backup) && Rooted(fs0) && HasCarried(fs0, fs, out, tmp, moved)
    requires forall c :: c in moved ==> Carries(fs0, out, c)
    ensures Siblings(fs, out, tmp, backup) && (out in fs || Vacant(fs, out))
    ensures out in fs <==> out in fs0
  {
    var parent := out[..|out| - 1];
    InsideOnly(out, moved, parent);
    InsideOnly(out, moved, out);
    SiblingsApart(fs0, out, tmp, backup, out);
    assert !(tmp <= parent) && !(out <= parent);
    assert At(fs, parent) == At(fs0, parent);
    assert At(fs, out) == At(fs0, out);
    assert Rebase(tmp, tmp, out) == out;
    assert At(fs, tmp) == At(fs0, tmp);
    forall q | backup <= q ensures At(fs, q) == None {
      SiblingsApart(fs0, out, tmp, backup, q);
      InsideOnly(out, moved, q);
    }
    if out !in fs {
      forall q | out <= q ensures q !in fs {
        SiblingsApart(fs0, out, tmp, backup, q);
        NothingBelow(fs0, out, q);
        assert At(fs, q) == None;
      }
    }
  }

  lemma InsideOnly(out: Path, moved: seq<Path>, q: Path)
    requires forall c :: c in moved ==> out < c
    ensures Within(moved, q) ==> out <= q
    ensures !Within(moved, out)
  {
    forall i | 0 <= i < |moved| ensures out < moved[i] {
      assert moved[i] in moved;
    }
  }

  lemma {:induction false} NothingBelow(fs: FileSystem, root: Path, q: Path)
    requires Rooted(fs) && root !in fs && root <= q
    ensures q !in fs
    decreases |q|
  {
    if q != root {
      NothingBelow(fs, root, q[..|q| - 1]);
    }
  }

  lemma PublishedEntry(fs0: FileSystem, fs: FileSystem, out: Path, tmp: Path, backup: Path, moved: seq<Path>, q: Path)
    requires Siblings(fs0, out, tmp, backup) && HasCarried(fs0, fs, out, tmp, moved)
    requires forall c :: c in moved ==> out < c
    ensures PromotedAt(fs, tmp, out, backup, q) == PublishedAt(fs0, out, tmp, backup, moved, q)
  {
    SiblingsApart(fs0, out, tmp, backup, q);
    InsideOnly(out, moved, q);
    if out <= q {
      assert Rebase(Rebase(q, out, tmp), tmp, out) == q;
      assert At(fs, Rebase(q, out, tmp)) == CarriedAt(fs0, out, tmp, moved, Rebase(q, out, tmp));
    } else if backup <= q {
      SiblingsApart(fs0, out, tmp, backup, Rebase(q, backup, out));
    }
  }

  lemma Published(fs0: FileSystem, fs: FileSystem, out: Path, tmp: Path, backup: Path, moved: seq<Path>)
    requires Siblings(fs0, out, tmp, backup) && HasCarried(fs0, fs, out, tmp, moved)
    requires forall c :: c in moved ==> Carries(fs0, out, c)
    ensures forall q :: PromotedAt(fs, tmp, out, backup, q) == PublishedAt(fs0, out, tmp, backup, moved, q)
  {
    forall q ensures PromotedAt(fs, tmp, out, backup, q) == PublishedAt(fs0, out, tmp, backup, moved, q) {
      PublishedEntry(fs0, fs, out, tmp, backup, moved, q);
    }
  }

  /** After publishing, everything at or below a carried directory is where and what it was. */
  ghost predicate CarriedKept(fs0: FileSystem, fs: FileSystem, out: Path, carried: seq<Path>) {
    forall c, q :: c in carried && out < c && At(fs0, c) == Some(Dir) && c <= q ==> At(fs, q) == At(fs0, q)
  }

  /** All other places of the root hold what the tree had there, and the tree is gone. */
  ghost predicate TreeInPlace(fs0: FileSystem, fs: FileSystem, out: Path, tmp: Path, carried: seq<Path>) {
    && (forall q :: out <= q && (forall c :: c in carried && out < c && At(fs0, c) == Some(Dir) ==> !(c <= q)) ==>
        At(fs, q) == At(fs0, tmp + q[|out|..]))
    && (forall q :: tmp <= q ==> At(fs, q) == None)
  }

  /** No rename fails, and every carried directory has a free place and a parent in the tree. */
  ghost predicate NothingInTheWay(fs: FileSystem, out: Path, tmp: Path, carried: seq<Path>, faults: set<Renaming>) {
    && faults == {}
    && forall c :: c in carried && out < c && At(fs, c) == Some(Dir) ==>
        && (forall q :: tmp + c[|out|..] <= q ==> At(fs, q) == None)
        && At(fs, tmp + c[|out|..|c| - 1]) == Some(Dir)
  }

  lemma CarriedEntry(fs: FileSystem, out: Path, carried: seq<Path>, q: Path)
    ensures Within(CarriedDirs(fs, out, carried), q) <==>
      exists c :: c in carried && out < c && At(fs, c) == Some(Dir) && c <= q
  {
    var dirs := CarriedDirs(fs, out, carried);
    if c :| c in carried && out < c && At(fs, c) == Some(Dir) && c <= q {
      assert c in dirs;
      var i :| 0 <= i < |dirs| && dirs[i] == c;
    }
    if i :| 0 <= i < |dirs| && dirs[i] <= q {
      assert dirs[i] in dirs && At(fs, dirs[i]) == Some(Dir);
    }
  }

  lemma PublishedMeaning(fs0: FileSystem, fs: FileSystem, out: Path, tmp: Path, backup: Path, carried: seq<Path>,
                         undeletable: set<Path>)
    requires Siblings(fs0, out, tmp, backup)
    requires HasPublished(fs0, fs, out, tmp, backup, CarriedDirs(fs0, out, carried), undeletable)
    ensures CarriedKept(fs0, fs, out, carried) && TreeInPlace(fs0, fs, out, tmp, carried)
  {
    forall c, q | c in carried && out < c && At(fs0, c) == Some(Dir) && c <= q ensures At(fs, q) == At(fs0, q) {
      CarriedEntry(fs0, out, carried, q);
      SiblingsApart(fs0, out, tmp, backup, q);
    }
    forall q | out <= q && (forall c :: c in carried && out < c && At(fs0, c) == Some(Dir) ==> !(c <= q))
      ensures At(fs, q) == At(fs0, tmp + q[|out|..])
    {
      CarriedEntry(fs0, out, carried, q);
      SiblingsApart(fs0, out, tmp, backup, q);
    }
    forall q | tmp <= q ensures At(fs, q) == None {
      SiblingsApart(fs0, out, tmp, backup, q);
    }
  }

  lemma FreePlace(fs: FileSystem, out: Path, tmp: Path, backup: Path, c: Path)
    requires Siblings(fs, out, tmp, backup) && out < c && At(fs, c) == Some(Dir)
    requires forall q :: tmp + c[|out|..] <= q ==> At(fs, q) == None
    requires At(fs, tmp + c[|out|..|c| - 1]) == Some(Dir)
    ensures CanRename(fs, c, Rebase(c, out, tmp))
  {
    TargetApart(fs, out, tmp, backup, c);
    var target := Rebase(c, out, tmp);
    assert target[..|target| - 1] == tmp + c[|out|..|c| - 1];
    forall q | target <= q ensures q !in fs {
      assert At(fs, q) == None;
    }
  }

  lemma NothingInTheWayMeaning(fs: FileSystem, out: Path, tmp: Path, backup: Path, carried: seq<Path>,
                               faults: set<Renaming>)
    requires Siblings(fs, out, tmp, backup) && NothingInTheWay(fs, out, tmp, carried, faults)
    ensures CarryingClear(fs, out, tmp, carried, faults) && PromotionClear(fs, tmp, out, backup, faults)
  {
    forall c | c in carried ensures DirClear(fs, out, tmp, faults, c) {
      if Carries(fs, out, c) {
        FreePlace(fs, out, tmp, backup, c);
      }
    }
  }

  class OutputTree {
    var fs: FileSystem

    constructor (fs: FileSystem)
      ensures this.fs == fs
    {
      this.fs := fs;
    }

    /** One rename, which fails when the oracle says so or the file system refuses it. */
    method Rename(src: Path, dst: Path, faults: set<Renaming>) returns (ok: bool)
      modifies this
      ensures ok == ((src, dst) !in faults && CanRename(old(fs), src, dst))
      ensures fs == if ok then Move(old(fs), src, dst) else old(fs)
    {
      ok := (src, dst) !in faults && CanRename(fs, src, dst);
      if ok {
        fs := Move(fs, src, dst);
      }
    }

    /** Deletes a tree as far as it can be deleted. */
    method RemoveTree(root: Path, undeletable: set<Path>)
      modifies this
      ensures forall q :: At(fs, q) == if root <= q && q !in undeletable then None else At(old(fs), q)
    {
      fs := map q | q in fs && (root <= q ==> q in undeletable) :: fs[q];
    }

    /** Moves the tree into place, with the old root aside until that has worked. */
    method Promote(src: Path, dst: Path, backup: Path, faults: set<Renaming>, undeletable: set<Path>) returns (ok: bool)
      requires Siblings(fs, dst, src, backup) && (dst in fs || Vacant(fs, dst))
      modifies this
      ensures ok == PromotionClear(old(fs), src, dst, backup, faults)
      ensures ok ==> forall q ::
        At(fs, q) == (if backup <= q && q !in undeletable then None else PromotedAt(old(fs), src, dst, backup, q))
      ensures !ok && (backup, dst) !in faults ==> fs == old(fs)
    {
      ghost var fs0 := fs;
      assert backup !in fs by { assert backup <= backup && At(fs, backup) == None; }
      ok := true;
      if dst in fs {
        AsidePossible(fs, src, dst, backup);
        ok := Rename(dst, backup, faults);
      } else {
        FirstPossible(fs, src, dst, backup);
      }
      if ok {
        ok := Rename(src, dst, faults);
      }
      if !ok {
        if dst !in fs && backup in fs {
          var _ := Rename(backup, dst, faults);
        }
        return;
      }
      forall q ensures At(fs, q) == PromotedAt(fs0, src, dst, backup, q) {
        PromotedEntry(fs0, src, dst, backup, q);
      }
      if backup in fs {
        RemoveTree(backup, undeletable);
      }
    }

    /** Give the carried directories back, last one first; the first failing rename ends it. */
    method Rollback(out: Path, tmp: Path, ghost backup: Path, moved: seq<Path>, faults: set<Renaming>,
                    ghost fs0: FileSystem)
      requires Siblings(fs0, out, tmp, backup) && Rooted(fs0)
      requires Separate(moved) && forall c :: c in moved ==> Carries(fs0, out, c)
      modifies this
      ensures KeepsCarried(fs0, old(fs), out, tmp, moved) && RollbackClear(out, tmp, moved, faults) ==>
        SameOutside(tmp, fs, fs0)
    {
      var k := |moved|;
      assert moved[..k] == moved;
      ghost var sound := KeepsCarried(fs0, fs, out, tmp, moved);
      while k > 0
        invariant 0 <= k <= |moved| && (sound ==> KeepsCarried(fs0, fs, out, tmp, moved[..k]))
      {
        k := k - 1;
        var c := moved[k];
        assert c in moved;
        if sound {
          BackwardRound(fs0, fs, out, tmp, backup, moved, k);
        }
        var ok := Rename(Rebase(c, out, tmp), c, faults);
        if !ok {
          return;
        }
      }
    }

    /** One round of the carrying loop. */
    method CarryOne(out: Path, tmp: Path, ghost backup: Path, ghost moved: seq<Path>, path: Path, faults: set<Renaming>,
                    ghost fs0: FileSystem)
      returns (ok: bool, carries: bool)
      requires Siblings(fs0, out, tmp, backup) && HasCarried(fs0, fs, out, tmp, moved)
      requires forall i :: 0 <= i < |moved| ==> Apart(moved[i], path)
      modifies this
      ensures carries == Carries(fs0, out, path)
      ensures ok == DirClear(fs0, out, tmp, faults, path)
      ensures HasCarried(fs0, fs, out, tmp, if ok && carries then moved + [path] else moved)
    {
      if out < path {
        ForwardPossible(fs0, fs, out, tmp, backup, moved, path);
      }
      ok, carries := true, Carries(fs, out, path);
      if carries {
        ForwardStep(fs0, fs, out, tmp, backup, moved, path);
        ok := Rename(path, Rebase(path, out, tmp), faults);
      }
    }

    /** The carrying loop; `moved` lists what has moved when it ends or fails. */
    method CarryAll(out: Path, tmp: Path, ghost backup: Path, carried: seq<Path>, faults: set<Renaming>)
      returns (ok: bool, moved: seq<Path>)
      requires Siblings(fs, out, tmp, backup) && Separate(carried)
      modifies this
      ensures ok == CarryingClear(old(fs), out, tmp, carried, faults)
      ensures HasCarried(old(fs), fs, out, tmp, moved)
      ensures ok ==> moved == CarriedDirs(old(fs), out, carried)
      ensures exists n :: 0 <= n <= |carried| && moved == CarriedDirs(old(fs), out, carried[..n])
    {
      ghost var fs0 := fs;
      ok, moved := true, [];
      for n := 0 to |carried|
        invariant ok && HasCarried(fs0, fs, out, tmp, moved) && moved == CarriedDirs(fs0, out, carried[..n])
        invariant CarryingClear(fs0, out, tmp, carried[..n], faults)
      {
        NextPath(fs0, out, tmp, carried, n, faults);
        var carries;
        ok, carries := CarryOne(out, tmp, backup, moved, carried[n], faults, fs0);
        if !ok {
          return;
        }
        if carries {
          moved := moved + [carried[n]];
        }
      }
      assert carried[..|carried|] == carried;
    }

    /** Publishes the tree as the new root, taking the carried directories along. */
    method ReplaceOutRoot(out: Path, tmp: Path, backup: Path, carried: seq<Path>, faults: set<Renaming>,
                          undeletable: set<Path>)
      returns (ok: bool)
      requires Siblings(fs, out, tmp, backup) && Rooted(fs) && Separate(carried)
      modifies this
      ensures ok <==>
        CarryingClear(old(fs), out, tmp, carried, faults) && PromotionClear(old(fs), tmp, out, backup, faults)
      ensures NothingInTheWay(old(fs), out, tmp, carried, faults) ==> ok
      ensures ok ==> HasPublished(old(fs), fs, out, tmp, backup, CarriedDirs(old(fs), out, carried), undeletable)
      ensures ok ==> CarriedKept(old(fs), fs, out, carried) && TreeInPlace(old(fs), fs, out, tmp, carried)
      ensures !ok && RollbackClear(out, tmp, carried, faults) && (backup, out) !in faults ==>
        SameOutside(tmp, fs, old(fs))
    {
      ghost var fs0 := fs;
      if NothingInTheWay(fs, out, tmp, carried, faults) {
        NothingInTheWayMeaning(fs, out, tmp, backup, carried, faults);
      }
      var moved;
      ok, moved := CarryAll(out, tmp, backup, carried, faults);
      MovedSeparate(fs0, out, carried, moved);
      if ok {
        PromotionStage(fs0, fs, out, tmp, backup, moved);
        Published(fs0, fs, out, tmp, backup, moved);
        ok := Promote(tmp, out, backup, faults, undeletable);
      }
      if ok {
        PublishedMeaning(fs0, fs, out, tmp, backup, carried, undeletable);
      } else {
        Rollback(out, tmp, backup, moved, faults, fs0);
      }
    }
  }
}
