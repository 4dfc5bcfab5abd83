/**
 The directories that inotify_dtree.c mirrors: a forest in which each directory has an identity
 (its inode), a parent and a name. Some roots are monitored and have the pathname given on the
 command line; the others hold the part of the file system that is not monitored.
 */
module DirTree {
  import opened PathStrings

  /** The identity of a directory. */
  datatype Id = Inode(number: int)

  datatype Dir = Dir(parent: Id, name: string)

  datatype Tree = Tree(dirs: map<Id, Dir>, roots: map<Id, string>, outside: set<Id>, depth: map<Id, nat>)

  function Ids(t: Tree): set<Id> {
    t.dirs.Keys + t.roots.Keys + t.outside
  }

  function Rank(t: Tree, d: Id): nat {
    if d in t.depth then t.depth[d] else 0
  }

  /** d has a parent; in a well-formed tree this is `d in t.dirs`. */
  predicate HasParent(t: Tree, d: Id) {
    d in t.dirs && Rank(t, t.dirs[d].parent) < Rank(t, d)
  }

  ghost predicate Sound(t: Tree, d: Id) {
    d in t.dirs ==>
      && t.dirs[d].parent in Ids(t)
      && Rank(t, d) == Rank(t, t.dirs[d].parent) + 1
      && IsName(t.dirs[d].name)
  }

  ghost predicate Siblings(t: Tree) {
    forall d, e :: d in t.dirs && e in t.dirs && t.dirs[d] == t.dirs[e] ==> d == e
  }

  ghost predicate RootsApart(t: Tree) {
    forall r, s :: r in t.roots && s in t.roots && r != s ==> !Under(t.roots[r], t.roots[s])
  }

  ghost predicate WellFormed(t: Tree) {
    && t.dirs.Keys !! t.roots.Keys && t.dirs.Keys !! t.outside && t.roots.Keys !! t.outside
    && (forall d :: d in t.dirs ==> Sound(t, d))
    && Siblings(t)
    && RootsApart(t)
  }

  /** The root of the tree that d is in. */
  function RootOf(t: Tree, d: Id): Id
    decreases Rank(t, d)
  {
    if HasParent(t, d) then RootOf(t, t.dirs[d].parent) else d
  }

  predicate Monitored(t: Tree, d: Id) {
    d in Ids(t) && RootOf(t, d) in t.roots
  }

  function Path(t: Tree, d: Id): string
    decreases Rank(t, d)
  {
    if HasParent(t, d) then Join(Path(t, t.dirs[d].parent), t.dirs[d].name)
    else if d in t.roots then t.roots[d]
    else ""
  }

  /** a is d or an ancestor of d. */
  predicate Above(t: Tree, a: Id, d: Id)
    decreases Rank(t, d)
  {
    a == d || (HasParent(t, d) && Above(t, a, t.dirs[d].parent))
  }

  function Subtree(t: Tree, d: Id): set<Id> {
    set e | e in Ids(t) && Above(t, d, e)
  }

  function Live(t: Tree): set<Id> {
    set d | d in Ids(t) && Monitored(t, d)
  }

  predicate HasChild(t: Tree, p: Id, n: string) {
    exists d :: d in t.dirs && t.dirs[d] == Dir(p, n)
  }

  // ----- Paths determine directories -----

  lemma {:induction false} PathUnderRoot(t: Tree, d: Id)
    requires WellFormed(t) && Monitored(t, d)
    ensures Under(t.roots[RootOf(t, d)], Path(t, d))
    ensures d in t.dirs ==> |Path(t, d)| > |t.roots[RootOf(t, d)]|
    decreases Rank(t, d)
  {
    if d !in t.dirs {
    } else {
      assert Sound(t, d);
      PathUnderRoot(t, t.dirs[d].parent);
      UnderJoin(t.roots[RootOf(t, d)], Path(t, t.dirs[d].parent), t.dirs[d].name);
    }
  }

  /** The path of a root is not the path of anything below any root. */
  lemma RootPathIsUnique(t: Tree, r: Id, d: Id)
    requires WellFormed(t) && r in t.roots && Monitored(t, d) && Under(Path(t, d), t.roots[r])
    ensures d == r
  {
    PathUnderRoot(t, d);
    UnderTransitive(t.roots[RootOf(t, d)], Path(t, d), t.roots[r]);
    assert RootOf(t, d) == r;
  }

  lemma RootIsRoot(t: Tree, r: Id)
    requires WellFormed(t) && r in t.roots
    ensures !HasParent(t, r) && RootOf(t, r) == r && Path(t, r) == t.roots[r] && Monitored(t, r)
  {
  }

  /** Distinct monitored directories have distinct paths. */
  lemma {:induction false} PathInjective(t: Tree, d: Id, e: Id)
    requires WellFormed(t) && Monitored(t, d) && Monitored(t, e) && Path(t, d) == Path(t, e)
    ensures d == e
    decreases Rank(t, d)
  {
    if d in t.roots {
      RootIsRoot(t, d);
      RootPathIsUnique(t, d, e);
    } else if e in t.roots {
      RootIsRoot(t, e);
      RootPathIsUnique(t, e, d);
    } else {
      MonitoredParent(t, d);
      MonitoredParent(t, e);
      var p, q := t.dirs[d].parent, t.dirs[e].parent;
      JoinInjective(Path(t, p), t.dirs[d].name, Path(t, q), t.dirs[e].name);
      PathInjective(t, p, q);
      assert t.dirs[d] == t.dirs[e];
    }
  }

  lemma MonitoredParent(t: Tree, d: Id)
    requires WellFormed(t) && Monitored(t, d) && d !in t.roots
    ensures d in t.dirs && HasParent(t, d) && Sound(t, d)
    ensures Monitored(t, t.dirs[d].parent) && RootOf(t, t.dirs[d].parent) == RootOf(t, d)
  {
    if d in t.dirs {
      assert Sound(t, d);
    }
  }

  /** The string test on paths is the ancestor relation: a shared name prefix is never enough. */
  lemma {:induction false} UnderIsAbove(t: Tree, a: Id, d: Id)
    requires WellFormed(t) && Monitored(t, a) && Monitored(t, d)
    ensures Under(Path(t, a), Path(t, d)) <==> Above(t, a, d)
    decreases Rank(t, d)
  {
    if d in t.roots {
      RootIsRoot(t, d);
      if Under(Path(t, a), Path(t, d)) {
        RootPathIsUnique(t, d, a);
      }
    } else {
      MonitoredParent(t, d);
      var p := t.dirs[d].parent;
      UnderIsAbove(t, a, p);
      UnderJoin(Path(t, a), Path(t, p), t.dirs[d].name);
      if Path(t, a) == Path(t, d) {
        PathInjective(t, a, d);
      }
    }
  }

  lemma {:induction false} AboveIsMonitored(t: Tree, a: Id, d: Id)
    requires WellFormed(t) && Above(t, a, d) && d in Ids(t)
    ensures a in Ids(t) && RootOf(t, a) == RootOf(t, d)
    decreases Rank(t, d)
  {
    if a == d {
    } else {
      assert Sound(t, d);
      AboveIsMonitored(t, a, t.dirs[d].parent);
    }
  }

  // ----- What other processes do to the tree -----

  predicate CanMkdir(t: Tree, id: Id, p: Id, n: string) {
    id !in Ids(t) && p in Ids(t) && IsName(n) && !HasChild(t, p, n)
  }

  function Mkdir(t: Tree, id: Id, p: Id, n: string): Tree {
    t.(dirs := t.dirs[id := Dir(p, n)], depth := t.depth[id := Rank(t, p) + 1])
  }

  /** A directory can be removed when it is empty. Roots are never removed. */
  predicate CanRmdir(t: Tree, d: Id) {
    d in t.dirs && forall e :: e in t.dirs ==> t.dirs[e].parent != d
  }

  function Rmdir(t: Tree, d: Id): Tree {
    t.(dirs := t.dirs - {d})
  }

  /** A directory cannot be moved below itself, nor onto an existing name. Roots are never moved. */
  ghost predicate CanRename(t: Tree, d: Id, p: Id, n: string) {
    d in t.dirs && p in Ids(t) && IsName(n) && !HasChild(t, p, n) && !Above(t, d, p)
  }

  function Rename(t: Tree, d: Id, p: Id, n: string): Tree {
    t.(dirs := t.dirs[d := Dir(p, n)],
       depth := map e | e in t.depth ::
         if Above(t, d, e) && t.depth[e] >= Rank(t, d) then t.depth[e] - Rank(t, d) + Rank(t, p) + 1 else t.depth[e])
  }

  /** rename(2) may replace an empty directory: e is at name n in p, and d takes its place. */
  ghost predicate CanReplace(t: Tree, d: Id, e: Id, p: Id, n: string) {
    CanRmdir(t, e) && e != d && t.dirs[e] == Dir(p, n) && CanRename(Rmdir(t, e), d, p, n)
  }

  ghost predicate SameAt(t: Tree, u: Tree, e: Id) {
    && HasParent(u, e) == HasParent(t, e)
    && RootOf(u, e) == RootOf(t, e) && Path(u, e) == Path(t, e)
    && (forall a :: Above(u, a, e) <==> Above(t, a, e))
  }

  /** A directory all of whose ancestors keep their entries keeps its path, root and ancestors. */
  lemma {:induction false} MkdirSame(t: Tree, id: Id, p: Id, n: string, e: Id)
    requires WellFormed(t) && CanMkdir(t, id, p, n) && e in Ids(t)
    ensures SameAt(t, Mkdir(t, id, p, n), e)
    decreases Rank(t, e)
  {
    if e !in t.dirs {
    } else {
      assert Sound(t, e);
      MkdirSame(t, id, p, n, t.dirs[e].parent);
    }
  }

  lemma MkdirWellFormed(t: Tree, id: Id, p: Id, n: string)
    requires WellFormed(t) && CanMkdir(t, id, p, n)
    ensures WellFormed(Mkdir(t, id, p, n))
    ensures Ids(Mkdir(t, id, p, n)) == Ids(t) + {id}
    ensures RootOf(Mkdir(t, id, p, n), id) == RootOf(t, p)
    ensures Path(Mkdir(t, id, p, n), id) == Join(Path(t, p), n)
  {
    var u := Mkdir(t, id, p, n);
    forall d | d in u.dirs ensures Sound(u, d) { MkdirSound(t, id, p, n, d); }
    MkdirSame(t, id, p, n, p);
  }

  lemma MkdirSound(t: Tree, id: Id, p: Id, n: string, d: Id)
    requires WellFormed(t) && CanMkdir(t, id, p, n)
    ensures Sound(Mkdir(t, id, p, n), d)
  {
    if d != id { assert Sound(t, d); }
  }

  lemma {:induction false} RmdirSame(t: Tree, d: Id, e: Id)
    requires WellFormed(t) && CanRmdir(t, d) && e in Ids(t) && e != d
    ensures SameAt(t, Rmdir(t, d), e)
    decreases Rank(t, e)
  {
    if e !in t.dirs {
    } else {
      assert Sound(t, e);
      RmdirSame(t, d, t.dirs[e].parent);
    }
  }

  lemma RmdirWellFormed(t: Tree, d: Id)
    requires WellFormed(t) && CanRmdir(t, d)
    ensures WellFormed(Rmdir(t, d)) && Ids(Rmdir(t, d)) == Ids(t) - {d}
  {
    var u := Rmdir(t, d);
    forall e | e in u.dirs ensures Sound(u, e) {
      assert Sound(t, e);
    }
  }

  lemma {:induction false} AboveRank(t: Tree, a: Id, d: Id)
    requires Above(t, a, d)
    ensures a == d || Rank(t, a) < Rank(t, d)
    decreases Rank(t, d)
  {
    if a == d {
    } else {
      AboveRank(t, a, t.dirs[d].parent);
    }
  }

  /** How a rename shifts the depth of a directory. */
  lemma RenameRank(t: Tree, d: Id, p: Id, n: string, e: Id)
    requires WellFormed(t) && CanRename(t, d, p, n)
    ensures Rank(Rename(t, d, p, n), e) == if Above(t, d, e) then Rank(t, e) - Rank(t, d) + Rank(t, p) + 1
            else Rank(t, e)
  {
    assert Sound(t, d);
    if Above(t, d, e) {
      AboveRank(t, d, e);
    }
  }

  lemma RenameParent(t: Tree, d: Id, p: Id, n: string, e: Id)
    requires WellFormed(t) && CanRename(t, d, p, n) && e in t.dirs
    ensures var u := Rename(t, d, p, n);
            && Sound(u, e) && HasParent(u, e) && u.dirs[e].parent == if e == d then p else t.dirs[e].parent
    ensures e != d ==> (Above(t, d, e) <==> Above(t, d, t.dirs[e].parent))
  {
    assert Sound(t, e) && Sound(t, d);
    RenameRank(t, d, p, n, e);
    RenameRank(t, d, p, n, p);
    RenameRank(t, d, p, n, t.dirs[e].parent);
  }

  lemma RenameWellFormed(t: Tree, d: Id, p: Id, n: string)
    requires WellFormed(t) && CanRename(t, d, p, n)
    ensures WellFormed(Rename(t, d, p, n)) && Ids(Rename(t, d, p, n)) == Ids(t)
  {
    var u := Rename(t, d, p, n);
    forall e | e in u.dirs ensures Sound(u, e) {
      RenameParent(t, d, p, n, e);
    }
  }

  /** Directories that are not below the renamed one keep their paths. */
  lemma {:induction false} RenameStays(t: Tree, d: Id, p: Id, n: string, e: Id)
    requires WellFormed(t) && CanRename(t, d, p, n) && e in Ids(t) && !Above(t, d, e)
    ensures SameAt(t, Rename(t, d, p, n), e)
    decreases Rank(t, e)
  {
    if e !in t.dirs {
    } else {
      assert Sound(t, e);
      RenameParent(t, d, p, n, e);
      RenameStays(t, d, p, n, t.dirs[e].parent);
    }
  }

  /** Those below it change exactly their prefix. */
  lemma {:induction false} RenameMoves(t: Tree, d: Id, p: Id, n: string, e: Id)
    requires WellFormed(t) && CanRename(t, d, p, n) && e in Ids(t) && Above(t, d, e)
    ensures var u := Rename(t, d, p, n);
            && RootOf(u, e) == RootOf(t, p) && Above(u, d, e)
            && Under(Path(t, d), Path(t, e))
            && Path(u, e) == Join(Path(t, p), n) + Path(t, e)[|Path(t, d)|..]
    decreases Rank(t, e)
  {
    var u := Rename(t, d, p, n);
    if e == d {
      RenameStays(t, d, p, n, p);
      RenameParent(t, d, p, n, d);
      assert Path(t, e)[|Path(t, d)|..] == "";
    } else {
      assert Sound(t, e);
      var q := t.dirs[e].parent;
      RenameParent(t, d, p, n, e);
      RenameMoves(t, d, p, n, q);
      UnderJoin(Path(t, d), Path(t, q), t.dirs[e].name);
      MovedJoin(Path(t, d), Join(Path(t, p), n), Path(t, q), t.dirs[e].name);
    }
  }

  /** What a rename of d does to directory e: it moves along with d, or stays as it was. */
  lemma RenameAt(t: Tree, d: Id, p: Id, n: string, e: Id)
    requires WellFormed(t) && CanRename(t, d, p, n) && e in Ids(t)
    ensures var u := Rename(t, d, p, n);
            && Path(u, d) == Join(Path(t, p), n) && RootOf(u, d) == RootOf(t, p)
            && (Above(t, d, e) <==> Above(u, d, e))
            && (Above(t, d, e) ==> RootOf(u, e) == RootOf(u, d) && RootOf(t, e) == RootOf(t, d)
                                   && Path(u, e) == Moved(Path(t, d), Path(u, d), Path(t, e)))
            && (!Above(t, d, e) ==> RootOf(u, e) == RootOf(t, e) && Path(u, e) == Path(t, e))
  {
    RenameMoves(t, d, p, n, d);
    assert Path(t, d)[|Path(t, d)|..] == "";
    if Above(t, d, e) {
      RenameMoves(t, d, p, n, e);
      AboveIsMonitored(t, d, e);
    } else {
      RenameStays(t, d, p, n, e);
    }
  }
}
