/**
 Renames in inotify_dtree.c to a name that does not exist: a directory moves within the monitored
 trees, out of them, into them or beside them, and its events are handled at once. The cache never
 leaves agreement. `CacheReplacements` is about renames onto an existing directory.
 */
module CacheRenames {
  import opened PathStrings
  import opened DirTree
  import opened WatchModel
  import opened Basics
  import opened CacheInterleaving

  /** A rename whose events have not been handled yet. */
  ghost predicate JustMoved(v: World, d: Id, p: Id, n: string, cookie: int, w: World) {
    && InSync(v) && v.queue == [] && CanRename(v.tree, d, p, n)
    && w == MoveDir(v, d, p, n, cookie)
  }

  /** Agreement with nothing but IN_IGNORED events in the queue is the invariant. */
  lemma SettledIsInv(w: World)
    requires InSync(w) && forall i :: 0 <= i < |w.queue| ==> w.queue[i].Ignored?
    ensures Inv(w)
  {
    forall r | r in w.tree.roots ensures r in w.watches { RootIsRoot(w.tree, r); }
    forall i | 0 <= i < |w.queue| ensures Known(w, i) {}
    assert QueueKnown(w);
    forall d ensures !Awaited(w, d) {}
  }

  lemma WatchedIsMonitored(w: World, d: Id)
    requires InSync(w) && d in Ids(w.tree)
    ensures d in w.watches <==> RootOf(w.tree, d) in w.tree.roots
  {
    assert d in Live(w.tree) <==> Monitored(w.tree, d);
  }

  /** The parents' watches tell whether the directory was monitored and will be. */
  lemma MoveEnds(v: World, d: Id, p: Id, n: string, cookie: int, w: World)
    requires JustMoved(v, d, p, n, cookie, w)
    ensures v.tree.dirs[d].parent in v.watches <==> RootOf(v.tree, d) in v.tree.roots
    ensures p in v.watches <==> RootOf(w.tree, d) in v.tree.roots
    ensures RootOf(w.tree, d) == RootOf(v.tree, p) && w.tree.roots == v.tree.roots
    ensures WellFormed(w.tree) && Ids(w.tree) == Ids(v.tree)
    ensures d in v.watches <==> v.tree.dirs[d].parent in v.watches
    ensures Path(v.tree, d) == Join(Path(v.tree, v.tree.dirs[d].parent), v.tree.dirs[d].name)
    ensures Path(w.tree, d) == Join(Path(v.tree, p), n)
  {
    assert Sound(v.tree, d);
    WatchedIsMonitored(v, v.tree.dirs[d].parent);
    WatchedIsMonitored(v, d);
    WatchedIsMonitored(v, p);
    RenameWellFormed(v.tree, d, p, n);
    RenameAt(v.tree, d, p, n, d);
  }

  /** What happens to directory e: it moves with d, or stays as it was. */
  lemma MoveAt(v: World, d: Id, p: Id, n: string, cookie: int, w: World, e: Id)
    requires JustMoved(v, d, p, n, cookie, w) && e in Ids(v.tree)
    ensures Above(v.tree, d, e) ==> RootOf(w.tree, e) == RootOf(w.tree, d) && RootOf(v.tree, e) == RootOf(v.tree, d)
    ensures Above(v.tree, d, e) <==> Above(w.tree, d, e)
    ensures !Above(v.tree, d, e) ==> RootOf(w.tree, e) == RootOf(v.tree, e) && Path(w.tree, e) == Path(v.tree, e)
    ensures Above(v.tree, d, e) ==> Path(w.tree, e) == Moved(Path(v.tree, d), Path(w.tree, d), Path(v.tree, e))
  {
    RenameAt(v.tree, d, p, n, e);
  }

  // ----- Within the trees: the cached prefix is rewritten -----

  lemma InsideRewrites(v: World, d: Id, p: Id, n: string, cookie: int, w: World, e: Id)
    requires JustMoved(v, d, p, n, cookie, w) && d in v.watches && e in v.watches
    ensures Path(w.tree, e) == Moved(Path(v.tree, d), Path(w.tree, d), Path(v.tree, e))
  {
    assert Monitored(v.tree, d) && Monitored(v.tree, e);
    MoveAt(v, d, p, n, cookie, w, e);
    UnderIsAbove(v.tree, d, e);
  }

  lemma InsideKeepsLive(v: World, d: Id, p: Id, n: string, cookie: int, w: World)
    requires JustMoved(v, d, p, n, cookie, w) && (d in v.watches <==> p in v.watches)
    ensures Live(w.tree) == Live(v.tree)
  {
    MoveEnds(v, d, p, n, cookie, w);
    forall e | e in Ids(v.tree) ensures Monitored(w.tree, e) <==> Monitored(v.tree, e) {
      MoveAt(v, d, p, n, cookie, w, e);
    }
  }

  lemma ConsumePair(w: World, a: Event, b: Event, r: Option<World>)
    requires w.queue == [a, b] && Pairs(a, b) && a.wd in w.cache && b.wd in w.cache && Consume(w, r)
    ensures r == Some(w.(queue := [],
                         cache := RewritePaths(w.cache, Join(w.cache[a.wd], a.name), Join(w.cache[b.wd], b.name))))
  {
    assert w.queue[2..] == [];
  }

  lemma InsideRewritten(v: World, d: Id, p: Id, n: string, cookie: int, w: World, r: Option<World>)
    requires JustMoved(v, d, p, n, cookie, w) && d in v.watches && p in v.watches && Consume(w, r)
    ensures r == Some(w.(queue := [], cache := RewritePaths(v.cache, Path(v.tree, d), Path(w.tree, d))))
  {
    MoveEnds(v, d, p, n, cookie, w);
    var q := v.tree.dirs[d].parent;
    MovedEvents(v, d, p, n, cookie);
    ConsumePair(w, MovedFrom(v.watches[q], cookie, v.tree.dirs[d].name), MovedTo(v.watches[p], cookie, n), r);
  }

  lemma InsideAgrees(v: World, d: Id, p: Id, n: string, cookie: int, w: World, r: Option<World>)
    requires JustMoved(v, d, p, n, cookie, w) && d in v.watches && p in v.watches && Consume(w, r)
    ensures r.Some? && InSync(r.value) && r.value.queue == [] && r.value.tree == w.tree
  {
    MoveEnds(v, d, p, n, cookie, w);
    InsideKeepsLive(v, d, p, n, cookie, w);
    var u := r.value;
    InsideRewritten(v, d, p, n, cookie, w, r);
    forall e | e in u.watches ensures u.cache[u.watches[e]] == Path(u.tree, e) {
      InsideRewrites(v, d, p, n, cookie, w, e);
    }
    forall wd | wd in u.cache ensures !Stale(u, wd) { assert !Stale(v, wd); }
  }

  // ----- Out of the trees: the subtree is zapped -----

  lemma OutsideZaps(v: World, d: Id, p: Id, n: string, cookie: int, w: World, e: Id)
    requires JustMoved(v, d, p, n, cookie, w) && d in v.watches && p !in v.watches && e in v.watches
    ensures Under(Path(v.tree, d), Path(v.tree, e)) <==> !Monitored(w.tree, e)
    ensures Monitored(w.tree, e) ==> Path(w.tree, e) == Path(v.tree, e)
  {
    assert Monitored(v.tree, d) && Monitored(v.tree, e);
    MoveEnds(v, d, p, n, cookie, w);
    MoveAt(v, d, p, n, cookie, w, e);
    UnderIsAbove(v.tree, d, e);
  }

  lemma OutsideLive(v: World, d: Id, p: Id, n: string, cookie: int, w: World, e: Id)
    requires JustMoved(v, d, p, n, cookie, w) && d in v.watches && p !in v.watches && e in Live(w.tree)
    ensures e in v.watches
  {
    MoveEnds(v, d, p, n, cookie, w);
    MoveAt(v, d, p, n, cookie, w, e);
    WatchedIsMonitored(v, e);
  }

  /** The watches that survive the zap are those of the directories that are still monitored. */
  lemma OutsideWatches(v: World, d: Id, p: Id, n: string, cookie: int, w: World)
    requires JustMoved(v, d, p, n, cookie, w) && d in v.watches && p !in v.watches
    ensures var s := EntriesUnder(v.cache, Path(v.tree, d));
            && s <= v.watches.Values
            && Without(v.watches, s).Keys == Live(w.tree)
  {
    var s := EntriesUnder(v.cache, Path(v.tree, d));
    forall wd | wd in s ensures wd in v.watches.Values { assert !Stale(v, wd); }
    forall e | e in v.watches ensures v.watches[e] !in s <==> Monitored(w.tree, e) {
      OutsideZaps(v, d, p, n, cookie, w, e);
    }
    forall e | e in Live(w.tree) ensures e in v.watches { OutsideLive(v, d, p, n, cookie, w, e); }
  }

  lemma ZapAgrees(v: World, u: World, s: set<int>)
    requires InSync(v) && u.cache == v.cache - s && u.watches == Without(v.watches, s) && u.nextWd == v.nextWd
    requires WellFormed(u.tree) && u.watches.Keys == Live(u.tree)
    requires forall e :: e in u.watches ==> Path(u.tree, e) == Path(v.tree, e)
    ensures InSync(u)
  {
    forall wd | wd in u.cache ensures !Stale(u, wd) {
      assert !Stale(v, wd);
      var e :| e in v.watches && v.watches[e] == wd;
      assert e in u.watches && u.watches[e] == wd;
    }
  }

  lemma OutsideAgrees(v: World, d: Id, p: Id, n: string, cookie: int, w: World, r: Option<World>)
    requires JustMoved(v, d, p, n, cookie, w) && d in v.watches && p !in v.watches && Consume(w, r)
    ensures r.Some? && InSync(r.value) && r.value.tree == w.tree
    ensures forall i :: 0 <= i < |r.value.queue| ==> r.value.queue[i].Ignored?
  {
    MoveEnds(v, d, p, n, cookie, w);
    OutsideWatches(v, d, p, n, cookie, w);
    assert w.queue[1..] == [];
    var u := r.value;
    forall e | e in u.watches ensures Path(u.tree, e) == Path(v.tree, e) { OutsideZaps(v, d, p, n, cookie, w, e); }
    ZapAgrees(v, u, EntriesUnder(v.cache, Path(v.tree, d)));
  }

  // ----- Into the trees: the subtree is walked -----

  lemma InwardIsNew(v: World, d: Id, p: Id, n: string, cookie: int, w: World)
    requires JustMoved(v, d, p, n, cookie, w) && d !in v.watches && p in v.watches
    ensures At(w.tree, d, Join(Path(v.tree, p), n))
    ensures Join(Path(v.tree, p), n) !in v.cache.Values
    ensures forall e :: e in v.watches ==> Monitored(w.tree, e) && Path(w.tree, e) == Path(v.tree, e)
  {
    MoveEnds(v, d, p, n, cookie, w);
    forall e | e in v.watches ensures e != d && Monitored(w.tree, e) && Path(w.tree, e) == Path(v.tree, e) {
      WatchedIsMonitored(v, e);
      MoveAt(v, d, p, n, cookie, w, e);
    }
    forall wd | wd in v.cache ensures v.cache[wd] != Path(w.tree, d) {
      assert !Stale(v, wd);
      var e :| e in v.watches && v.watches[e] == wd;
      if Path(w.tree, e) == Path(w.tree, d) { PathInjective(w.tree, e, d); }
    }
  }

  lemma InwardLive(v: World, d: Id, p: Id, n: string, cookie: int, w: World)
    requires JustMoved(v, d, p, n, cookie, w) && d !in v.watches && p in v.watches
    ensures Live(w.tree) == v.watches.Keys + Subtree(w.tree, d)
  {
    MoveEnds(v, d, p, n, cookie, w);
    forall e | e in Ids(v.tree) ensures e in Live(w.tree) <==> e in v.watches || e in Subtree(w.tree, d) {
      MoveAt(v, d, p, n, cookie, w, e);
      WatchedIsMonitored(v, e);
    }
  }

  lemma InwardStart(v: World, d: Id, p: Id, n: string, cookie: int, w: World, w0: World)
    requires JustMoved(v, d, p, n, cookie, w) && d !in v.watches && p in v.watches && w0 == w.(queue := [])
    ensures Aligned(w0) && forall wd :: !Stale(w0, wd)
  {
    InwardIsNew(v, d, p, n, cookie, w);
    forall wd ensures !Stale(w0, wd) { assert Stale(w0, wd) <==> Stale(v, wd); }
  }

  lemma ConsumeArrival(w: World, a: int, cookie: int, n: string, r: Option<World>)
    requires w.queue == [MovedTo(a, cookie, n)] && a in w.cache && Consume(w, r)
    requires Join(w.cache[a], n) !in w.cache.Values
    ensures r.Some? && WatchSubtree(w.(queue := []), Join(w.cache[a], n), r.value)
  {
    assert w.queue[1..] == [];
  }

  /** What a rename leaves besides the tree. */
  lemma MovedEvents(v: World, d: Id, p: Id, n: string, cookie: int)
    requires v.queue == [] && d in v.tree.dirs
    ensures var w, q := MoveDir(v, d, p, n, cookie), v.tree.dirs[d].parent;
            && w.watches == v.watches && w.cache == v.cache && w.nextWd == v.nextWd
            && w.queue == (if q in v.watches then [MovedFrom(v.watches[q], cookie, v.tree.dirs[d].name)] else [])
                          + (if p in v.watches then [MovedTo(v.watches[p], cookie, n)] else [])
  {
  }

  lemma InwardWalks(v: World, d: Id, p: Id, n: string, cookie: int, w: World, r: Option<World>)
    requires JustMoved(v, d, p, n, cookie, w) && d !in v.watches && p in v.watches && Consume(w, r)
    ensures r.Some? && WatchSubtree(w.(queue := []), Path(w.tree, d), r.value)
  {
    MoveEnds(v, d, p, n, cookie, w);
    assert Path(w.tree, d) !in v.cache.Values by { InwardIsNew(v, d, p, n, cookie, w); }
    MovedEvents(v, d, p, n, cookie);
    ConsumeArrival(w, v.watches[p], cookie, n, r);
  }

  lemma InwardAgrees(v: World, d: Id, p: Id, n: string, cookie: int, w: World, r: Option<World>)
    requires JustMoved(v, d, p, n, cookie, w) && d !in v.watches && p in v.watches && Consume(w, r)
    ensures r.Some? && InSync(r.value) && r.value.queue == [] && r.value.tree == w.tree
  {
    var w0 := w.(queue := []);
    assert WellFormed(w.tree) && At(w.tree, d, Path(w.tree, d)) by {
      MoveEnds(v, d, p, n, cookie, w);
      InwardIsNew(v, d, p, n, cookie, w);
    }
    InwardLive(v, d, p, n, cookie, w);
    InwardStart(v, d, p, n, cookie, w, w0);
    InwardWalks(v, d, p, n, cookie, w, r);
    WatchSubtreeExtends(w0, Path(w.tree, d), r.value, d);
  }

  // ----- Within the trees, when the two events are handled one by one: zapped, then walked -----

  lemma SplitZaps(v: World, d: Id, p: Id, n: string, cookie: int, w: World, e: Id)
    requires JustMoved(v, d, p, n, cookie, w) && d in v.watches && p in v.watches && e in v.watches
    ensures Under(Path(v.tree, d), Path(v.tree, e)) <==> e in Subtree(w.tree, d)
    ensures e !in Subtree(w.tree, d) ==> Path(w.tree, e) == Path(v.tree, e)
  {
    assert Monitored(v.tree, d) && Monitored(v.tree, e);
    MoveEnds(v, d, p, n, cookie, w);
    MoveAt(v, d, p, n, cookie, w, e);
    UnderIsAbove(v.tree, d, e);
  }

  /** After the first event: the subtree is gone from the cache, everything else is as it should be. */
  ghost predicate HalfMoved(w: World, d: Id, z: World) {
    && z.tree == w.tree && WellFormed(z.tree) && Aligned(z) && Monitored(z.tree, d)
    && z.watches.Keys == Live(z.tree) - Subtree(z.tree, d)
    && forall wd :: !Stale(z, wd)
  }

  lemma SplitWatches(v: World, d: Id, p: Id, n: string, cookie: int, w: World)
    requires JustMoved(v, d, p, n, cookie, w) && d in v.watches && p in v.watches
    ensures var s := EntriesUnder(v.cache, Path(v.tree, d));
            && s <= v.watches.Values
            && Without(v.watches, s).Keys == Live(w.tree) - Subtree(w.tree, d)
  {
    var s := EntriesUnder(v.cache, Path(v.tree, d));
    InsideKeepsLive(v, d, p, n, cookie, w);
    forall wd | wd in s ensures wd in v.watches.Values { assert !Stale(v, wd); }
    forall e | e in v.watches ensures v.watches[e] in s <==> e in Subtree(w.tree, d) {
      SplitZaps(v, d, p, n, cookie, w, e);
    }
  }

  lemma ZapAligns(v: World, z: World, s: set<int>)
    requires InSync(v) && z.cache == v.cache - s && z.watches == Without(v.watches, s) && z.nextWd == v.nextWd
    requires forall e :: e in z.watches ==> Path(z.tree, e) == Path(v.tree, e)
    ensures Aligned(z) && forall wd :: !Stale(z, wd)
  {
    forall wd | wd in z.cache ensures !Stale(z, wd) {
      assert !Stale(v, wd);
      var e :| e in v.watches && v.watches[e] == wd;
      assert e in z.watches && z.watches[e] == wd;
    }
  }

  lemma ZapLeaves(w: World, path: string, s: set<int>, r: Option<World>) returns (order: seq<int>)
    requires ZapSubtree(w, path, r) && s == EntriesUnder(w.cache, path) && s <= w.watches.Values
    ensures r == Some(w.(cache := w.cache - s, watches := Without(w.watches, s), queue := w.queue + Ignoreds(order)))
  {
    order :| Enumerates(order, s) &&
      r == Some(w.(cache := w.cache - s, watches := Without(w.watches, s), queue := w.queue + Ignoreds(order)));
  }

  /** The first event takes the entries under the old path, with their watches, and queues their ends. */
  lemma HalfLeaves(v: World, d: Id, p: Id, n: string, cookie: int, w: World, r: Option<World>) returns (order: seq<int>)
    requires JustMoved(v, d, p, n, cookie, w) && d in v.watches && p in v.watches && Alone(w, r)
    ensures var s := EntriesUnder(v.cache, Path(v.tree, d));
            r == Some(w.(cache := v.cache - s, watches := Without(v.watches, s),
                         queue := [MovedTo(v.watches[p], cookie, n)] + Ignoreds(order)))
  {
    MoveEnds(v, d, p, n, cookie, w);
    var s := EntriesUnder(v.cache, Path(v.tree, d));
    assert s <= v.watches.Values by { SplitWatches(v, d, p, n, cookie, w); }
    var q := v.tree.dirs[d].parent;
    assert w.queue == [MovedFrom(v.watches[q], cookie, v.tree.dirs[d].name), MovedTo(v.watches[p], cookie, n)];
    assert w.queue[1..] == [MovedTo(v.watches[p], cookie, n)];
    order := ZapLeaves(w.(queue := w.queue[1..]), Path(v.tree, d), s, r);
  }

  lemma SplitHalf(v: World, d: Id, p: Id, n: string, cookie: int, w: World, r: Option<World>)
    requires JustMoved(v, d, p, n, cookie, w) && d in v.watches && p in v.watches && Alone(w, r)
    ensures r.Some? && HalfMoved(w, d, r.value) && p in r.value.watches
    ensures r.value.queue != [] && r.value.queue[0] == MovedTo(r.value.watches[p], cookie, n)
    ensures forall i :: 0 < i < |r.value.queue| ==> r.value.queue[i].Ignored?
  {
    var order := HalfLeaves(v, d, p, n, cookie, w, r);
    HalfIsMoved(v, d, p, n, cookie, w, r.value);
    SplitParent(v, d, p, n, cookie, w);
  }

  lemma HalfIsMoved(v: World, d: Id, p: Id, n: string, cookie: int, w: World, z: World)
    requires JustMoved(v, d, p, n, cookie, w) && d in v.watches && p in v.watches
    requires var s := EntriesUnder(v.cache, Path(v.tree, d));
             z == w.(cache := v.cache - s, watches := Without(v.watches, s), queue := z.queue)
    ensures HalfMoved(w, d, z)
  {
    MoveEnds(v, d, p, n, cookie, w);
    SplitWatches(v, d, p, n, cookie, w);
    forall e | e in z.watches ensures Path(z.tree, e) == Path(v.tree, e) { SplitZaps(v, d, p, n, cookie, w, e); }
    ZapAligns(v, z, EntriesUnder(v.cache, Path(v.tree, d)));
  }

  /** The new parent is not in the subtree that is zapped. */
  lemma SplitParent(v: World, d: Id, p: Id, n: string, cookie: int, w: World)
    requires JustMoved(v, d, p, n, cookie, w) && d in v.watches && p in v.watches
    ensures p in Live(w.tree) && p !in Subtree(w.tree, d)
  {
    InsideKeepsLive(v, d, p, n, cookie, w);
    MoveAt(v, d, p, n, cookie, w, p);
  }

  lemma SplitPath(v: World, d: Id, p: Id, n: string, cookie: int, w: World)
    requires JustMoved(v, d, p, n, cookie, w) && d in v.watches && p in v.watches
    ensures Path(w.tree, d) == Join(Path(w.tree, p), n)
  {
    MoveEnds(v, d, p, n, cookie, w);
    MoveAt(v, d, p, n, cookie, w, p);
    SplitParent(v, d, p, n, cookie, w);
  }

  lemma IgnoredTail(q: seq<Event>)
    requires q != [] && forall i :: 0 < i < |q| ==> q[i].Ignored?
    ensures forall i :: 0 <= i < |q[1..]| ==> q[1..][i].Ignored?
  {
  }

  /** Then the arrival is new, its subtree is walked, and the cache agrees again. */
  lemma SplitAgrees(v: World, d: Id, p: Id, n: string, cookie: int, w: World, z: World, r: Option<World>)
    requires JustMoved(v, d, p, n, cookie, w) && d in v.watches && p in v.watches && Alone(w, Some(z)) && Consume(z, r)
    ensures r.Some? && InSync(r.value) && r.value.tree == w.tree
    ensures forall i :: 0 <= i < |r.value.queue| ==> r.value.queue[i].Ignored?
  {
    SplitHalf(v, d, p, n, cookie, w, Some(z));
    SplitPath(v, d, p, n, cookie, w);
    ArrivalAgrees(w, d, z, Path(w.tree, d), z.watches[p], n, cookie, r);
    IgnoredTail(z.queue);
  }

  lemma ArrivalIsNew(w: World, d: Id, z: World)
    requires HalfMoved(w, d, z)
    ensures Path(z.tree, d) !in z.cache.Values
  {
    forall x | x in z.cache ensures z.cache[x] != Path(z.tree, d) {
      assert !Stale(z, x);
      var e :| e in z.watches && z.watches[e] == x;
      if Path(z.tree, e) == Path(z.tree, d) { PathInjective(z.tree, e, d); }
    }
  }

  lemma WalkedAgrees(w: World, d: Id, z: World, z0: World, u: World)
    requires HalfMoved(w, d, z) && z0 == z.(queue := z0.queue) && Aligned(u) && Extended(z0, u, Subtree(z.tree, d))
    ensures InSync(u)
  {
    forall e | e in Subtree(z.tree, d) ensures e in Live(z.tree) { AboveIsMonitored(z.tree, d, e); }
    forall x | x in u.cache ensures !Stale(u, x) {
      assert !Stale(z, x);
      assert Stale(z0, x) <==> Stale(z, x);
    }
  }

  lemma ArrivalAgrees(w: World, d: Id, z: World, path: string, wd: int, n: string, cookie: int, r: Option<World>)
    requires HalfMoved(w, d, z) && Consume(z, r) && path == Path(z.tree, d)
    requires z.queue[0] == MovedTo(wd, cookie, n) && wd in z.cache && Join(z.cache[wd], n) == path
    ensures r.Some? && InSync(r.value) && r.value.tree == w.tree && r.value.queue == z.queue[1..]
  {
    ArrivalIsNew(w, d, z);
    var z0 := z.(queue := z.queue[1..]);
    assert HandleArrival(z0, wd, n, r);
    WatchSubtreeExtends(z0, path, r.value, d);
    WalkedAgrees(w, d, z, z0, r.value);
  }

  // ----- Beside the trees: nothing is seen -----

  lemma BesideAgrees(v: World, d: Id, p: Id, n: string, cookie: int, w: World)
    requires JustMoved(v, d, p, n, cookie, w) && d !in v.watches && p !in v.watches
    ensures InSync(w) && w.queue == []
  {
    MoveEnds(v, d, p, n, cookie, w);
    InsideKeepsLive(v, d, p, n, cookie, w);
    forall e | e in v.watches ensures Path(w.tree, e) == Path(v.tree, e) {
      WatchedIsMonitored(v, e);
      MoveAt(v, d, p, n, cookie, w, e);
    }
    forall wd | wd in w.cache ensures !Stale(w, wd) { assert !Stale(v, wd); }
  }

  /** Handling a rename right after it happened never asks for a rebuild and restores agreement. */
  lemma MoveKeepsAgreement(v: World, d: Id, p: Id, n: string, cookie: int, w: World, r: Option<World>)
    requires JustMoved(v, d, p, n, cookie, w) && Consume(w, r)
    ensures r.Some? && InSync(r.value) && r.value.tree == w.tree
    ensures forall i :: 0 <= i < |r.value.queue| ==> r.value.queue[i].Ignored?
  {
    MoveEnds(v, d, p, n, cookie, w);
    if d in v.watches && p in v.watches {
      InsideAgrees(v, d, p, n, cookie, w, r);
    } else if d in v.watches {
      OutsideAgrees(v, d, p, n, cookie, w, r);
    } else if p in v.watches {
      InwardAgrees(v, d, p, n, cookie, w, r);
    }
  }
}
