/**
 inotify_dtree.c against other processes that create and remove directories (and files) at any
 moment between two events: the cache agrees with the tree whenever the event queue is empty, and
 no event ever names a descriptor that the cache does not know. No renames, no queue overflow.
 */
module CacheInterleaving {
  import opened PathStrings
  import opened DirTree
  import opened WatchModel
  import opened Basics

  // ----- The invariant -----

  /** Event i can be handled: its descriptor is cached, and is not dropped by an earlier event. */
  ghost predicate Known(w: World, i: int)
    requires 0 <= i < |w.queue|
  {
    var e := w.queue[i];
    e.Ignored? ||
    (&& (e.Create? || e.DeleteSelf? || e.FileEvent?)
     && e.wd in w.cache
     && DeleteSelf(e.wd) !in w.queue[..i])
  }

  /** A live directory that is not watched although its parent is. */
  ghost predicate Awaited(w: World, d: Id) {
    d in w.tree.dirs && Monitored(w.tree, d) && w.tree.dirs[d].parent in w.watches && d !in w.watches
  }

  /** The creation of d is event i, and no stale entry for d's path is dropped at i or later. */
  ghost predicate Covers(w: World, d: Id, i: int) {
    && d in w.tree.dirs && w.tree.dirs[d].parent in w.watches
    && 0 <= i < |w.queue|
    && w.queue[i] == Create(w.watches[w.tree.dirs[d].parent], w.tree.dirs[d].name)
    && forall j :: i <= j < |w.queue| ==> !DropsPath(w, w.queue[j], Path(w.tree, d))
  }

  ghost predicate DropsPath(w: World, e: Event, path: string) {
    e.DeleteSelf? && e.wd in w.cache && w.cache[e.wd] == path
  }

  ghost predicate WatchesLive(w: World) {
    && (forall d :: d in w.watches ==> Monitored(w.tree, d))
    && (forall r :: r in w.tree.roots ==> r in w.watches)
  }

  ghost predicate QueueKnown(w: World) {
    && (forall i :: 0 <= i < |w.queue| ==> Known(w, i))
    && (forall wd :: Stale(w, wd) ==> DeleteSelf(wd) in w.queue)
    && (forall d :: d in w.watches ==> DeleteSelf(w.watches[d]) !in w.queue)
  }

  ghost predicate AllCovered(w: World) {
    forall d :: Awaited(w, d) ==> exists i :: Covers(w, d, i)
  }

  ghost predicate Inv(w: World) {
    WellFormed(w.tree) && Aligned(w) && WatchesLive(w) && QueueKnown(w) && AllCovered(w)
  }

  // ----- Steps of other processes -----

  lemma AppendKeepsKnown(w: World, u: World, more: seq<Event>)
    requires QueueKnown(w) && u.cache == w.cache && u.queue == w.queue + more
    ensures forall i :: 0 <= i < |w.queue| ==> Known(u, i)
  {
    forall i | 0 <= i < |w.queue| ensures Known(u, i) {
      assert Known(w, i) && u.queue[..i] == w.queue[..i] && u.queue[i] == w.queue[i];
    }
  }

  /** An event of a watched directory is queued: it names a cached descriptor that nothing drops. */
  lemma AppendKnown(w: World, u: World, d: Id, e: Event)
    requires Aligned(w) && QueueKnown(w) && d in w.watches && u.watches == w.watches && u.cache == w.cache
    requires u.queue == w.queue + [e] && (e.Create? || e.FileEvent?) && e.wd == w.watches[d]
    ensures QueueKnown(u)
  {
    AppendKeepsKnown(w, u, [e]);
    assert u.queue[..|w.queue|] == w.queue;
    assert Known(u, |w.queue|);
    forall wd | Stale(u, wd) ensures DeleteSelf(wd) in u.queue {
      assert Stale(w, wd);
    }
  }

  lemma MakeDirAligned(w: World, id: Id, p: Id, n: string)
    requires WellFormed(w.tree) && Aligned(w) && WatchesLive(w) && CanMkdir(w.tree, id, p, n)
    ensures var u := MakeDir(w, id, p, n); WellFormed(u.tree) && Aligned(u) && WatchesLive(u)
  {
    MkdirWellFormed(w.tree, id, p, n);
    forall d | d in Ids(w.tree) ensures SameAt(w.tree, MakeDir(w, id, p, n).tree, d) { MkdirSame(w.tree, id, p, n, d); }
  }

  lemma MakeDirCoversNew(w: World, id: Id, p: Id, n: string)
    requires p in w.watches && CanMkdir(w.tree, id, p, n)
    ensures Covers(MakeDir(w, id, p, n), id, |w.queue|)
  {
  }

  lemma MakeDirCovered(w: World, id: Id, p: Id, n: string, d: Id)
    requires Inv(w) && CanMkdir(w.tree, id, p, n) && Awaited(MakeDir(w, id, p, n), d)
    ensures exists i :: Covers(MakeDir(w, id, p, n), d, i)
  {
    if d == id {
      MakeDirCoversNew(w, id, p, n);
    } else {
      MakeDirCoversOld(w, id, p, n, d);
    }
  }

  lemma MakeDirCoversOld(w: World, id: Id, p: Id, n: string, d: Id)
    requires Inv(w) && CanMkdir(w.tree, id, p, n) && Awaited(MakeDir(w, id, p, n), d) && d != id
    ensures exists i :: Covers(MakeDir(w, id, p, n), d, i)
  {
    var u := MakeDir(w, id, p, n);
    assert Path(u.tree, d) == Path(w.tree, d) && Awaited(w, d) by { MkdirSame(w.tree, id, p, n, d); }
    var i :| Covers(w, d, i);
    MakeDirKeepsCover(w, id, p, n, d, i);
  }

  lemma MakeDirKeepsCover(w: World, id: Id, p: Id, n: string, d: Id, i: int)
    requires Covers(w, d, i) && d != id && Path(MakeDir(w, id, p, n).tree, d) == Path(w.tree, d)
    ensures Covers(MakeDir(w, id, p, n), d, i)
  {
    CoverSurvives(w, MakeDir(w, id, p, n), d, i);
  }

  lemma MakeDirKeepsInv(w: World, id: Id, p: Id, n: string)
    requires Inv(w) && CanMkdir(w.tree, id, p, n)
    ensures Inv(MakeDir(w, id, p, n))
  {
    var u := MakeDir(w, id, p, n);
    MakeDirAligned(w, id, p, n);
    if p in w.watches {
      AppendKnown(w, u, p, Create(w.watches[p], n));
    } else {
      SameQueue(w, u);
    }
    forall d | Awaited(u, d) ensures exists i :: Covers(u, d, i) { MakeDirCovered(w, id, p, n, d); }
  }

  lemma SameQueue(w: World, u: World)
    requires QueueKnown(w) && u.watches == w.watches && u.cache == w.cache && u.queue == w.queue
    ensures QueueKnown(u)
  {
    forall i | 0 <= i < |u.queue| ensures Known(u, i) {
      assert Known(w, i);
    }
    forall wd | Stale(u, wd) ensures DeleteSelf(wd) in u.queue {
      assert Stale(w, wd);
    }
  }

  /** A cover survives events that do not drop an entry for its path. */
  lemma CoverSurvives(w: World, u: World, d: Id, i: int)
    requires Covers(w, d, i) && w.queue <= u.queue && u.cache == w.cache
    requires d in u.tree.dirs && u.tree.dirs[d] == w.tree.dirs[d] && Path(u.tree, d) == Path(w.tree, d)
    requires u.tree.dirs[d].parent in u.watches && u.watches[u.tree.dirs[d].parent] == w.watches[w.tree.dirs[d].parent]
    requires forall j :: |w.queue| <= j < |u.queue| ==> !DropsPath(w, u.queue[j], Path(w.tree, d))
    ensures Covers(u, d, i)
  {
    forall j | i <= j < |u.queue| ensures !DropsPath(u, u.queue[j], Path(u.tree, d)) {
      if j < |w.queue| {
        assert u.queue[j] == w.queue[j];
        assert !DropsPath(w, w.queue[j], Path(w.tree, d));
      }
    }
  }

  lemma TouchKeepsInv(w: World, p: Id)
    requires Inv(w)
    ensures Inv(TouchFile(w, p))
  {
    var u := TouchFile(w, p);
    if p in w.watches {
      AppendKnown(w, u, p, FileEvent(w.watches[p]));
    }
    forall d | Awaited(u, d) ensures exists i :: Covers(u, d, i) {
      assert Awaited(w, d);
      var i :| Covers(w, d, i);
      CoverSurvives(w, u, d, i);
    }
  }

  lemma ValuesWithout(m: map<Id, int>, d: Id, x: int)
    requires d in m
    ensures x in m.Values && x != m[d] ==> x in (m - {d}).Values
  {
    if x in m.Values && x != m[d] {
      var e :| e in m && m[e] == x;
      assert e in m - {d} && (m - {d})[e] == x;
    }
  }

  lemma OthersAreKept(q: seq<Event>, wd: int, x: int)
    ensures DeleteSelf(x) in q + [DeleteSelf(wd), Ignored(wd)] <==> DeleteSelf(x) in q || x == wd
  {
    assert DeleteSelf(wd) == (q + [DeleteSelf(wd), Ignored(wd)])[|q|];
  }

  lemma RemovedQueue(w: World, d: Id)
    requires Aligned(w) && QueueKnown(w) && d in w.watches
    ensures QueueKnown(RemoveDir(w, d))
  {
    var u, wd, n := RemoveDir(w, d), w.watches[d], |w.queue|;
    AppendKeepsKnown(w, u, [DeleteSelf(wd), Ignored(wd)]);
    assert u.queue[..n] == w.queue && u.queue[n] == DeleteSelf(wd) && u.queue[n + 1] == Ignored(wd);
    assert Known(u, n) && Known(u, n + 1);
    forall x | Stale(u, x) ensures DeleteSelf(x) in u.queue {
      if x != wd {
        ValuesWithout(w.watches, d, x);
        assert Stale(w, x);
      }
      OthersAreKept(w.queue, wd, x);
    }
    forall f | f in u.watches ensures DeleteSelf(u.watches[f]) !in u.queue {
      assert u.watches[f] == w.watches[f] != wd && DeleteSelf(w.watches[f]) !in w.queue;
      OthersAreKept(w.queue, wd, u.watches[f]);
    }
  }

  lemma RemoveDirAligned(w: World, d: Id)
    requires WellFormed(w.tree) && Aligned(w) && WatchesLive(w) && CanRmdir(w.tree, d)
    ensures var u := RemoveDir(w, d); WellFormed(u.tree) && Aligned(u) && WatchesLive(u)
  {
    RmdirWellFormed(w.tree, d);
    var u := RemoveDir(w, d);
    forall e | e in u.watches ensures Path(u.tree, e) == Path(w.tree, e) && Monitored(u.tree, e) {
      assert Monitored(w.tree, e);
      RmdirSame(w.tree, d, e);
    }
  }

  /** The removal of d drops an entry for d's own path, never for another live directory's. */
  lemma RemoveDropsOther(w: World, d: Id, e: Id)
    requires WellFormed(w.tree) && Aligned(w) && WatchesLive(w) && Monitored(w.tree, e) && d != e
    ensures w.queue <= RemoveDir(w, d).queue
    ensures forall j :: |w.queue| <= j < |RemoveDir(w, d).queue| ==>
            !DropsPath(w, RemoveDir(w, d).queue[j], Path(w.tree, e))
  {
    if d in w.watches && Path(w.tree, d) == Path(w.tree, e) {
      PathInjective(w.tree, d, e);
    }
  }

  lemma RemoveDirCovered(w: World, d: Id, e: Id)
    requires Inv(w) && CanRmdir(w.tree, d) && Awaited(RemoveDir(w, d), e)
    ensures exists i :: Covers(RemoveDir(w, d), e, i)
  {
    var u := RemoveDir(w, d);
    RmdirSame(w.tree, d, e);
    assert Awaited(w, e);
    var i :| Covers(w, e, i);
    RemoveDropsOther(w, d, e);
    CoverSurvives(w, u, e, i);
  }

  lemma RemoveKnown(w: World, d: Id)
    requires Aligned(w) && QueueKnown(w)
    ensures QueueKnown(RemoveDir(w, d))
  {
    if d in w.watches {
      RemovedQueue(w, d);
    } else {
      assert w.watches - {d} == w.watches;
      SameQueue(w, RemoveDir(w, d));
    }
  }

  lemma RemoveDirKeepsInv(w: World, d: Id)
    requires Inv(w) && CanRmdir(w.tree, d)
    ensures Inv(RemoveDir(w, d))
  {
    RemoveDirAligned(w, d);
    RemoveKnown(w, d);
    forall e | Awaited(RemoveDir(w, d), e) ensures exists i :: Covers(RemoveDir(w, d), e, i) {
      RemoveDirCovered(w, d, e);
    }
  }

  // ----- Steps of the program -----

  /** Taking the first event off the queue, with a cache that may have gained entries. */
  lemma PopKnown(w: World, u: World)
    requires QueueKnown(w) && w.queue != [] && u.queue == w.queue[1..]
    requires forall wd :: wd in w.cache && w.queue[0] != DeleteSelf(wd) ==> wd in u.cache
    ensures forall i :: 0 <= i < |u.queue| ==> Known(u, i)
  {
    forall i | 0 <= i < |u.queue| ensures Known(u, i) {
      assert Known(w, i + 1) && u.queue[i] == w.queue[i + 1];
      assert w.queue[..i + 1] == [w.queue[0]] + u.queue[..i];
    }
  }

  /** A cover that is not the first event moves up one place. */
  lemma CoverMovesUp(w: World, u: World, d: Id, i: int)
    requires QueueKnown(w) && Covers(w, d, i) && 0 < i && u.queue == w.queue[1..] && u.tree == w.tree
    requires forall wd :: wd in w.cache && wd in u.cache ==> u.cache[wd] == w.cache[wd]
    requires w.tree.dirs[d].parent in u.watches && u.watches[w.tree.dirs[d].parent] == w.watches[w.tree.dirs[d].parent]
    ensures Covers(u, d, i - 1)
  {
    forall j | i - 1 <= j < |u.queue| ensures !DropsPath(u, u.queue[j], Path(u.tree, d)) {
      assert u.queue[j] == w.queue[j + 1];
      assert !DropsPath(w, w.queue[j + 1], Path(w.tree, d));
      assert Known(w, j + 1);
    }
  }

  /** The entry for a live directory's path is either its own or stale, with its removal still queued. */
  lemma EntryIsOwnOrQueued(w: World, d: Id, wd: int)
    requires WellFormed(w.tree) && Aligned(w) && WatchesLive(w) && QueueKnown(w)
    requires Monitored(w.tree, d) && wd in w.cache && w.cache[wd] == Path(w.tree, d)
    ensures d in w.watches || exists j :: 0 <= j < |w.queue| && DropsPath(w, w.queue[j], Path(w.tree, d))
  {
    if Stale(w, wd) {
      var j :| 0 <= j < |w.queue| && w.queue[j] == DeleteSelf(wd);
      assert DropsPath(w, w.queue[j], Path(w.tree, d));
    } else {
      var e :| e in w.watches && w.watches[e] == wd;
      PathInjective(w.tree, d, e);
    }
  }

  /** A directory whose creation is at the front of the queue is not hidden by a stale entry. */
  lemma FrontIsFree(w: World, d: Id)
    requires Inv(w) && Awaited(w, d) && Covers(w, d, 0) && w.queue[0].wd in w.cache
    ensures At(w.tree, d, Join(w.cache[w.queue[0].wd], w.queue[0].name))
    ensures Path(w.tree, d) !in w.cache.Values
  {
    assert Sound(w.tree, d);
    forall wd | wd in w.cache ensures w.cache[wd] != Path(w.tree, d) {
      if w.cache[wd] == Path(w.tree, d) {
        EntryIsOwnOrQueued(w, d, wd);
      }
    }
  }

  /** Events that change neither watches nor cache. */
  lemma SkipKeepsInv(w: World, u: World)
    requires Inv(w) && w.queue != [] && !w.queue[0].DeleteSelf? && u == w.(queue := w.queue[1..])
    requires forall d :: Awaited(w, d) ==> !Covers(w, d, 0)
    ensures Inv(u)
  {
    PopKnown(w, u);
    forall wd | Stale(u, wd) ensures DeleteSelf(wd) in u.queue {
      assert Stale(w, wd) && w.queue == [w.queue[0]] + u.queue;
    }
    forall d | Awaited(u, d) ensures exists i :: Covers(u, d, i) {
      assert Awaited(w, d);
      var i :| Covers(w, d, i);
      CoverMovesUp(w, u, d, i);
    }
  }

  lemma DeleteKeepsInv(w: World, u: World)
    requires Inv(w) && w.queue != [] && w.queue[0].DeleteSelf?
    requires u == w.(queue := w.queue[1..], cache := w.cache - {w.queue[0].wd})
    ensures Inv(u)
  {
    var wd := w.queue[0].wd;
    assert w.queue == [w.queue[0]] + u.queue;
    PopKnown(w, u);
    forall d | d in w.watches ensures w.watches[d] != wd { assert DeleteSelf(w.watches[d]) !in w.queue; }
    forall x | Stale(u, x) ensures DeleteSelf(x) in u.queue {
      assert Stale(w, x) && x != wd;
    }
    forall d | Awaited(u, d) ensures exists i :: Covers(u, d, i) {
      assert Awaited(w, d);
      var i :| Covers(w, d, i);
      CoverMovesUp(w, u, d, i);
    }
  }

  lemma WalkKeepsQueue(w: World, v: World, u: World, added: set<Id>)
    requires Inv(w) && w.queue != [] && !w.queue[0].DeleteSelf? && v == w.(queue := w.queue[1..])
    requires Aligned(u) && Extended(v, u, added)
    ensures QueueKnown(u)
  {
    assert w.queue == [w.queue[0]] + u.queue;
    PopKnown(w, u);
    forall wd | Stale(u, wd) ensures DeleteSelf(wd) in u.queue {
      assert Stale(v, wd);
      assert Stale(w, wd);
    }
    forall d | d in u.watches ensures DeleteSelf(u.watches[d]) !in u.queue {
      if d in w.watches {
        assert u.watches[d] == w.watches[d] && DeleteSelf(w.watches[d]) !in w.queue;
      } else {
        NewIsNotDropped(w, u.queue, u.watches[d]);
      }
    }
  }

  /** A descriptor that has just been given out is in no event. */
  lemma NewIsNotDropped(w: World, es: seq<Event>, wd: int)
    requires Aligned(w) && QueueKnown(w) && w.queue != [] && es == w.queue[1..] && wd >= w.nextWd
    ensures DeleteSelf(wd) !in es
  {
    forall j | 0 <= j < |es| ensures es[j] != DeleteSelf(wd) {
      assert Known(w, j + 1) && es[j] == w.queue[j + 1];
    }
  }

  lemma WalkKeepsInv(w: World, v: World, u: World, d0: Id)
    requires Inv(w) && w.queue != [] && w.queue[0].Create? && v == w.(queue := w.queue[1..]) && w.queue[0].wd in w.cache
    requires At(w.tree, d0, Join(w.cache[w.queue[0].wd], w.queue[0].name))
    requires Aligned(u) && Extended(v, u, Subtree(w.tree, d0))
    ensures Inv(u)
  {
    WalkKeepsQueue(w, v, u, Subtree(w.tree, d0));
    forall d | d in u.watches ensures Monitored(w.tree, d) {
      if d !in w.watches { AboveIsMonitored(w.tree, d0, d); }
    }
    forall d | Awaited(u, d) ensures exists i :: Covers(u, d, i) {
      assert Sound(w.tree, d);
      assert w.tree.dirs[d].parent !in Subtree(w.tree, d0);
      assert Awaited(w, d);
      var i :| Covers(w, d, i);
      if i == 0 {
        FrontIsFree(w, d);
        PathInjective(w.tree, d, d0);
      }
      CoverMovesUp(w, u, d, i);
    }
  }

  lemma CreateKeepsInv(w: World, v: World, r: Option<World>)
    requires Inv(w) && w.queue != [] && w.queue[0].Create? && v == w.(queue := w.queue[1..])
    requires HandleOne(v, w.queue[0], r)
    ensures r.Some? && Inv(r.value) && r.value.queue == v.queue && r.value.tree == w.tree
  {
    assert Known(w, 0);
    var path := Join(w.cache[w.queue[0].wd], w.queue[0].name);
    if path !in w.cache.Values && (exists d :: At(w.tree, d, path)) {
      var d0 :| At(w.tree, d0, path);
      assert Aligned(v);
      WatchSubtreeExtends(v, path, r.value, d0);
      WalkKeepsInv(w, v, r.value, d0);
    } else {
      forall d | Awaited(w, d) ensures !Covers(w, d, 0) {
        if Covers(w, d, 0) { FrontIsFree(w, d); }
      }
      SkipKeepsInv(w, v);
    }
  }

  /** No event forces a rebuild; handling one keeps the invariant and takes just that event off the queue. */
  lemma ConsumeKeepsInv(w: World, r: Option<World>)
    requires Inv(w) && Consume(w, r)
    ensures r.Some? && Inv(r.value) && r.value.queue == w.queue[1..] && r.value.tree == w.tree
  {
    assert Known(w, 0);
    var v := w.(queue := w.queue[1..]);
    match w.queue[0]
    case Create(_, _) => CreateKeepsInv(w, v, r);
    case DeleteSelf(_) => DeleteKeepsInv(w, r.value);
    case _ => SkipKeepsInv(w, v);
  }

  // ----- Whole runs -----

  datatype Action =
    | MakesDir(id: Id, parent: Id, name: string)
    | RemovesDir(id: Id)
    | TouchesFile(parent: Id)
    | HandlesEvent

  ghost predicate Acts(w: World, a: Action, u: World) {
    match a
    case MakesDir(id, p, n) => CanMkdir(w.tree, id, p, n) && u == MakeDir(w, id, p, n)
    case RemovesDir(d) => CanRmdir(w.tree, d) && u == RemoveDir(w, d)
    case TouchesFile(p) => u == TouchFile(w, p)
    case HandlesEvent => Consume(w, Some(u))
  }

  /** Any interleaving, from a cache that has just been built. */
  ghost predicate IsRun(ws: seq<World>, acts: seq<Action>) {
    && |ws| == |acts| + 1 && InSync(ws[0]) && ws[0].queue == []
    && forall i :: 0 <= i < |acts| ==> Acts(ws[i], acts[i], ws[i + 1])
  }

  lemma StartIsInv(w: World)
    requires InSync(w) && w.queue == []
    ensures Inv(w)
  {
    forall r | r in w.tree.roots ensures r in w.watches { RootIsRoot(w.tree, r); }
  }

  lemma {:induction false} AllWatched(w: World, d: Id)
    requires Inv(w) && w.queue == [] && Monitored(w.tree, d)
    ensures d in w.watches
    decreases Rank(w.tree, d)
  {
    if d in w.tree.roots {
    } else {
      MonitoredParent(w.tree, d);
      AllWatched(w, w.tree.dirs[d].parent);
      assert !Awaited(w, d);
    }
  }

  /** With nothing left in the queue the invariant is agreement. */
  lemma QuietAgrees(w: World)
    requires Inv(w) && w.queue == []
    ensures InSync(w)
  {
    forall d | d in Live(w.tree) ensures d in w.watches { AllWatched(w, d); }
    assert w.watches.Keys == Live(w.tree);
  }

  /** At every moment of every interleaving: agreement if the queue is empty, and never an unknown descriptor. */
  lemma {:induction false} EveryInterleavingAgrees(ws: seq<World>, acts: seq<Action>, i: nat)
    requires IsRun(ws, acts) && i < |ws|
    ensures Inv(ws[i])
    ensures ws[i].queue == [] ==> InSync(ws[i])
    ensures !Consume(ws[i], None)
  {
    if i == 0 {
      StartIsInv(ws[0]);
    } else {
      EveryInterleavingAgrees(ws, acts, i - 1);
      var w, a := ws[i - 1], acts[i - 1];
      assert Acts(w, a, ws[i]);
      match a
      case MakesDir(id, p, n) => MakeDirKeepsInv(w, id, p, n);
      case RemovesDir(d) => RemoveDirKeepsInv(w, d);
      case TouchesFile(p) => TouchKeepsInv(w, p);
      case HandlesEvent => ConsumeKeepsInv(w, Some(ws[i]));
    }
    if ws[i].queue == [] { QuietAgrees(ws[i]); }
    if Consume(ws[i], None) { ConsumeKeepsInv(ws[i], None); }
  }

  /** Once the other processes pause, handling the queued events, and no more, brings agreement with the tree. */
  lemma {:induction false} PauseBringsAgreement(ws: seq<World>)
    requires ws != [] && Inv(ws[0]) && |ws| == |ws[0].queue| + 1
    requires forall i :: 0 <= i < |ws| - 1 ==> Consume(ws[i], Some(ws[i + 1]))
    ensures InSync(ws[|ws| - 1]) && ws[|ws| - 1].tree == ws[0].tree
    decreases |ws|
  {
    if |ws| == 1 {
      QuietAgrees(ws[0]);
    } else {
      ConsumeKeepsInv(ws[0], Some(ws[1]));
      var rest := ws[1..];
      forall i | 0 <= i < |rest| - 1 ensures Consume(rest[i], Some(rest[i + 1])) {
        assert Consume(ws[i + 1], Some(ws[i + 2]));
      }
      PauseBringsAgreement(rest);
    }
  }
}
