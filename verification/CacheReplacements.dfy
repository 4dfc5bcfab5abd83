/**
 Renames in inotify_dtree.c that replace an empty directory. The kernel queues the move before the end
 of the replaced directory. When the moved directory was monitored, or its new parent is not, handling
 the next event, or the two events of the move together, keeps the invariant of `CacheInterleaving`.
 `MaskedArrivals` is about the other cases.
 */
module CacheReplacements {
  import opened PathStrings
  import opened DirTree
  import opened WatchModel
  import opened Basics
  import opened CacheInterleaving
  import opened CacheRenames

  /** A replacing rename whose events have not been handled yet. */
  ghost predicate JustReplaced(v: World, d: Id, e: Id, p: Id, n: string, cookie: int, w: World) {
    && InSync(v) && v.queue == [] && CanReplace(v.tree, d, e, p, n)
    && w == ReplaceDir(v, d, e, p, n, cookie)
  }

  /** The world without directory e, and without its watch and its entry. */
  function Dropped(v: World, e: Id): World {
    v.(tree := Rmdir(v.tree, e),
       watches := v.watches - {e},
       cache := if e in v.watches then v.cache - {v.watches[e]} else v.cache)
  }

  lemma DropAt(v: World, e: Id, d: Id)
    requires InSync(v) && CanRmdir(v.tree, e)
    ensures d in Live(Rmdir(v.tree, e)) <==> d in v.watches && d != e
    ensures d in v.watches && d != e ==> Path(Rmdir(v.tree, e), d) == Path(v.tree, d)
  {
    RmdirWellFormed(v.tree, e);
    assert d in v.watches <==> d in Live(v.tree);
    if d in Ids(v.tree) && d != e {
      RmdirSame(v.tree, e, d);
    }
  }

  lemma WithoutOne(watches: map<Id, int>, e: Id)
    requires forall d, f :: d in watches && f in watches && watches[d] == watches[f] ==> d == f
    ensures watches - {e} == Without(watches, if e in watches then {watches[e]} else {})
  {
  }

  /** Without e the rest is still in agreement. */
  lemma DropAgrees(v: World, e: Id)
    requires InSync(v) && CanRmdir(v.tree, e)
    ensures InSync(Dropped(v, e))
  {
    var u := Dropped(v, e);
    var s: set<int> := if e in v.watches then {v.watches[e]} else {};
    RmdirWellFormed(v.tree, e);
    forall d ensures d in Live(u.tree) <==> d in u.watches { DropAt(v, e, d); }
    forall d | d in u.watches ensures Path(u.tree, d) == Path(v.tree, d) { DropAt(v, e, d); }
    WithoutOne(v.watches, e);
    assert e !in v.watches ==> v.cache - {} == v.cache;
    ZapAgrees(v, u, s);
  }

  lemma ParentIsWatched(v: World, d: Id)
    requires InSync(v) && d in v.tree.dirs
    ensures d in v.watches <==> v.tree.dirs[d].parent in v.watches
    ensures Path(v.tree, d) == Join(Path(v.tree, v.tree.dirs[d].parent), v.tree.dirs[d].name)
  {
    assert Sound(v.tree, d);
    WatchedIsMonitored(v, d);
    WatchedIsMonitored(v, v.tree.dirs[d].parent);
  }

  /** What a replacing rename leaves besides the tree. */
  lemma ReplacedEvents(v: World, d: Id, e: Id, p: Id, n: string, cookie: int)
    requires v.queue == [] && d in v.tree.dirs && d != e && p != e && v.tree.dirs[d].parent != e
    ensures var w, q := ReplaceDir(v, d, e, p, n, cookie), v.tree.dirs[d].parent;
            && w.watches == v.watches - {e} && w.cache == v.cache && w.nextWd == v.nextWd
            && w.queue == (if q in v.watches then [MovedFrom(v.watches[q], cookie, v.tree.dirs[d].name)] else [])
                          + (if p in v.watches then [MovedTo(v.watches[p], cookie, n)] else [])
                          + (if e in v.watches then [DeleteSelf(v.watches[e]), Ignored(v.watches[e])] else [])
  {
  }

  lemma ReplacedPair(v: World, d: Id, e: Id, p: Id, n: string, cookie: int)
    requires v.queue == [] && d in v.tree.dirs && d != e && p != e && v.tree.dirs[d].parent != e
    requires e in v.watches && p in v.watches && v.tree.dirs[d].parent in v.watches
    ensures var q := v.tree.dirs[d].parent;
            ReplaceDir(v, d, e, p, n, cookie).queue ==
            [MovedFrom(v.watches[q], cookie, v.tree.dirs[d].name)] +
            [MovedTo(v.watches[p], cookie, n), DeleteSelf(v.watches[e]), Ignored(v.watches[e])]
  {
    ReplacedEvents(v, d, e, p, n, cookie);
  }

  /** The two parents are not e, and tell what was watched. */
  lemma ReplaceEnds(v: World, d: Id, e: Id, p: Id, n: string)
    requires InSync(v) && CanReplace(v.tree, d, e, p, n)
    ensures d in v.tree.dirs && d != e && p != e && v.tree.dirs[d].parent != e
    ensures d in v.watches <==> v.tree.dirs[d].parent in v.watches
    ensures e in v.watches <==> p in v.watches
  {
    ParentIsWatched(v, e);
    ParentIsWatched(v, d);
  }

  /** Without e, the rename is one to a name that does not exist. */
  lemma ReplaceIsMove(v: World, d: Id, e: Id, p: Id, n: string, cookie: int, w: World)
    requires JustReplaced(v, d, e, p, n, cookie, w)
    ensures JustMoved(Dropped(v, e), d, p, n, cookie, MoveDir(Dropped(v, e), d, p, n, cookie))
  {
    DropAgrees(v, e);
  }

  // ----- The replaced directory was not watched: as if it had been removed before -----

  lemma UnwatchedReplacement(v: World, d: Id, e: Id, p: Id, n: string, cookie: int, w: World)
    requires JustReplaced(v, d, e, p, n, cookie, w) && p !in v.watches
    ensures JustMoved(Dropped(v, e), d, p, n, cookie, w)
  {
    ParentIsWatched(v, e);
    ReplaceIsMove(v, d, e, p, n, cookie, w);
  }

  // ----- The moved directory was watched: both entries are rewritten, then the old one is dropped -----

  /** One more entry, whose watch is gone and whose end is queued. */
  lemma LeftoverIsInv(u: World, wd: int, path: string, w: World)
    requires InSync(u) && wd !in u.cache && wd < u.nextWd
    requires w == u.(cache := u.cache[wd := path], queue := [DeleteSelf(wd), Ignored(wd)])
    ensures Inv(w)
  {
    forall r | r in w.tree.roots ensures r in w.watches { RootIsRoot(w.tree, r); }
    forall d | d in w.watches ensures w.watches[d] != wd { assert u.watches[d] in u.cache; }
    forall x | x in u.cache ensures !Stale(w, x) { assert !Stale(u, x); }
    LeftoverKnown(w, wd);
    forall d ensures !Awaited(w, d) {}
  }

  lemma LeftoverKnown(w: World, wd: int)
    requires wd in w.cache && w.queue == [DeleteSelf(wd), Ignored(wd)]
    requires forall d :: d in w.watches ==> w.watches[d] != wd
    requires forall x :: x in w.cache && x != wd ==> !Stale(w, x)
    ensures QueueKnown(w)
  {
    assert w.queue[0] == DeleteSelf(wd) && w.queue[1] == Ignored(wd);
  }

  /** A rename pair is handled in the same way with one more entry in the cache. */
  lemma PairWithLeftover(w1: World, wd: int, path: string, w: World, r: Option<World>) returns (u: World, moved: string)
    requires |w1.queue| == 2 && Pairs(w1.queue[0], w1.queue[1])
    requires w1.queue[0].wd in w1.cache && w1.queue[1].wd in w1.cache && wd !in w1.cache
    requires w == w1.(cache := w1.cache[wd := path], queue := w1.queue + [DeleteSelf(wd), Ignored(wd)])
    requires Consume(w, r)
    ensures Consume(w1, Some(u)) && u.nextWd == w1.nextWd && u.cache.Keys == w1.cache.Keys
    ensures r == Some(u.(cache := u.cache[wd := moved], queue := [DeleteSelf(wd), Ignored(wd)]))
  {
    var e, f := w1.queue[0], w1.queue[1];
    var from, to := Join(w1.cache[e.wd], e.name), Join(w1.cache[f.wd], f.name);
    moved := Moved(from, to, path);
    assert w1.queue[2..] == [] && w.queue[2..] == [DeleteSelf(wd), Ignored(wd)];
    assert w.queue[0] == e && w.queue[1] == f;
    u := w1.(queue := [], cache := RewritePaths(w1.cache, from, to));
    assert RewritePaths(w.cache, from, to) == u.cache[wd := moved];
  }

  lemma PutBack(cache: map<int, string>, wd: int)
    requires wd in cache
    ensures (cache - {wd})[wd := cache[wd]] == cache
  {
  }

  lemma MoveIsPair(w: World, d: Id, p: Id, n: string, cookie: int)
    requires d in w.tree.dirs && w.tree.dirs[d].parent in w.watches && p in w.watches && w.queue == []
    ensures MoveDir(w, d, p, n, cookie).queue ==
            [MovedFrom(w.watches[w.tree.dirs[d].parent], cookie, w.tree.dirs[d].name), MovedTo(w.watches[p], cookie, n)]
  {
  }

  /** The move as it would be without e, and what is different with it. */
  lemma InsideEvents(v: World, d: Id, e: Id, p: Id, n: string, cookie: int, w: World)
    requires JustReplaced(v, d, e, p, n, cookie, w) && d in v.watches && p in v.watches
    ensures e in v.watches && v.watches[e] in v.cache
    ensures var w1, wd := MoveDir(Dropped(v, e), d, p, n, cookie), v.watches[e];
            && |w1.queue| == 2 && Pairs(w1.queue[0], w1.queue[1])
            && w1.queue[0].wd in w1.cache && w1.queue[1].wd in w1.cache
            && wd !in w1.cache && wd < w1.nextWd
            && w == w1.(cache := w1.cache[wd := v.cache[wd]], queue := w1.queue + [DeleteSelf(wd), Ignored(wd)])
  {
    ReplaceEnds(v, d, e, p, n);
    var wd, q := v.watches[e], v.tree.dirs[d].parent;
    assert v.watches[q] != wd && v.watches[p] != wd;
    assert wd in v.cache && v.watches[q] in v.cache && v.watches[p] in v.cache;
    DroppedEvents(v, d, e, p, n, cookie);
  }

  lemma DroppedEvents(v: World, d: Id, e: Id, p: Id, n: string, cookie: int)
    requires v.queue == [] && d in v.tree.dirs && d != e && p != e && v.tree.dirs[d].parent != e
    requires e in v.watches && p in v.watches && v.tree.dirs[d].parent in v.watches
    requires v.watches[e] in v.cache && v.watches[p] in v.cache && v.watches[v.tree.dirs[d].parent] in v.cache
    requires v.watches[e] != v.watches[p] && v.watches[e] != v.watches[v.tree.dirs[d].parent]
    ensures var w1, wd := MoveDir(Dropped(v, e), d, p, n, cookie), v.watches[e];
            && |w1.queue| == 2 && Pairs(w1.queue[0], w1.queue[1])
            && w1.queue[0].wd in w1.cache && w1.queue[1].wd in w1.cache
            && wd !in w1.cache && w1.nextWd == v.nextWd
            && ReplaceDir(v, d, e, p, n, cookie) ==
               w1.(cache := w1.cache[wd := v.cache[wd]], queue := w1.queue + [DeleteSelf(wd), Ignored(wd)])
  {
    PutBack(v.cache, v.watches[e]);
    MoveIsPair(Dropped(v, e), d, p, n, cookie);
  }

  lemma InsideReplacement(v: World, d: Id, e: Id, p: Id, n: string, cookie: int, w: World, r: Option<World>)
    requires JustReplaced(v, d, e, p, n, cookie, w) && d in v.watches && p in v.watches && Consume(w, r)
    ensures r.Some? && Inv(r.value)
  {
    InsideEvents(v, d, e, p, n, cookie, w);
    var v1, wd := Dropped(v, e), v.watches[e];
    var w1 := MoveDir(v1, d, p, n, cookie);
    ReplaceIsMove(v, d, e, p, n, cookie, w);
    var u, moved := PairWithLeftover(w1, wd, v.cache[wd], w, r);
    InsideAgrees(v1, d, p, n, cookie, w1, Some(u));
    LeftoverIsInv(u, wd, moved, r.value);
  }

  /** Where the program follows the replacement, the next state keeps the invariant. */
  lemma ReplacementIsFollowed(v: World, d: Id, e: Id, p: Id, n: string, cookie: int, w: World, r: Option<World>)
    requires JustReplaced(v, d, e, p, n, cookie, w) && (d in v.watches || p !in v.watches) && Consume(w, r)
    ensures r.Some? && Inv(r.value)
  {
    if p in v.watches {
      InsideReplacement(v, d, e, p, n, cookie, w, r);
    } else {
      UnwatchedReplacement(v, d, e, p, n, cookie, w);
      MoveKeepsAgreement(Dropped(v, e), d, p, n, cookie, w, r);
      SettledIsInv(r.value);
    }
  }

  /** No event at all: everything happened beside the trees. */
  lemma QuietReplacement(v: World, d: Id, e: Id, p: Id, n: string, cookie: int, w: World)
    requires JustReplaced(v, d, e, p, n, cookie, w) && w.queue == []
    ensures InSync(w) && d !in v.watches && p !in v.watches
  {
    ParentIsWatched(v, e);
    ParentIsWatched(v, d);
    UnwatchedReplacement(v, d, e, p, n, cookie, w);
    BesideAgrees(Dropped(v, e), d, p, n, cookie, w);
  }

  lemma ReplaceStartsWithMove(v: World, d: Id, e: Id, p: Id, n: string, cookie: int, w: World)
    requires JustReplaced(v, d, e, p, n, cookie, w) && w.queue != []
    ensures w.queue[0].MovedFrom? || w.queue[0].MovedTo?
  {
    ReplaceEnds(v, d, e, p, n);
    ReplacedStarts(v, d, e, p, n, cookie);
  }

  lemma ReplacedStarts(v: World, d: Id, e: Id, p: Id, n: string, cookie: int)
    requires v.queue == [] && d in v.tree.dirs && d != e && p != e && v.tree.dirs[d].parent != e
    requires e in v.watches <==> p in v.watches
    ensures var q := ReplaceDir(v, d, e, p, n, cookie).queue;
            && (q != [] ==> q[0].MovedFrom? || q[0].MovedTo?)
            && (|q| > 1 && Pairs(q[0], q[1]) ==> |q| > 2 && v.tree.dirs[d].parent in v.watches && p in v.watches)
  {
    ReplacedEvents(v, d, e, p, n, cookie);
  }
}
