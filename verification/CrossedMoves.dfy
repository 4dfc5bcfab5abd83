/**
 Two renames in inotify_dtree.c before either is handled: one directory leaves the monitored trees and another
 one arrives. Their events lie next to each other in the queue and look like the two halves of one rename;
 only the cookies tell that they are not.
 */
module CrossedMoves {
  import opened PathStrings
  import opened DirTree
  import opened WatchModel
  import opened Basics
  import opened TreeMonitor
  import opened CacheInterleaving
  import opened CacheRenames
  import opened CacheReplacements
  import opened MaskedArrivals
  import opened RenameRuns
  import opened EventLoop
  import opened MonitorRenames

  /** d has left for p, then x has arrived in q, which is still monitored; v is the state before. */
  ghost predicate Crossed(v: World, d: Id, p: Id, n: string, c: int, x: Id, q: Id, k: string, c': int, w: World) {
    && InSync(v) && v.queue == [] && CanRename(v.tree, d, p, n) && d in v.watches && p !in v.watches
    && var v1 := MoveDir(v, d, p, n, c);
    && CanRename(v1.tree, x, q, k) && x !in Live(v1.tree) && q in Live(v1.tree) && c != c'
    && w == MoveDir(v1, x, q, k, c')
  }

  /** x comes from where nothing was watched; else it was below d, and its departure is reported too. */
  predicate FromOutside(v: World, d: Id, p: Id, n: string, x: Id)
    requires d in v.tree.dirs && x in Rename(v.tree, d, p, n).dirs
  {
    Rename(v.tree, d, p, n).dirs[x].parent !in v.watches
  }

  // ----- The first event -----

  /** What the events of the second rename are. */
  function SecondEvents(v: World, d: Id, p: Id, n: string, x: Id, q: Id, k: string, c': int): seq<Event>
    requires d in v.tree.dirs && x in Rename(v.tree, d, p, n).dirs && q in v.watches
  {
    var was := Rename(v.tree, d, p, n).dirs[x];
    (if was.parent in v.watches then [MovedFrom(v.watches[was.parent], c', was.name)] else [])
    + [MovedTo(v.watches[q], c', k)]
  }

  lemma CrossedEvents(v: World, d: Id, p: Id, n: string, c: int, x: Id, q: Id, k: string, c': int, w: World)
    requires d in v.tree.dirs && x in Rename(v.tree, d, p, n).dirs && q in v.watches && v.queue == []
    requires v.tree.dirs[d].parent in v.watches && p !in v.watches
    requires w == MoveDir(MoveDir(v, d, p, n, c), x, q, k, c')
    ensures var e := MovedFrom(v.watches[v.tree.dirs[d].parent], c, v.tree.dirs[d].name);
            && MoveDir(v, d, p, n, c).queue == [e]
            && w.queue == [e] + SecondEvents(v, d, p, n, x, q, k, c')
            && w.cache == v.cache && w.watches == v.watches && w.nextWd == v.nextWd
  {
  }

  /** The first event is not taken for half of a rename: the cookies differ. */
  lemma FirstIsAlone(w: World, e: Event, es: seq<Event>, r: Option<World>)
    requires w.queue == [e] + es && es != [] && e.MovedFrom? && Step(w, r)
    requires !es[0].MovedTo? || es[0].cookie != e.cookie
    ensures HandleOne(w.(queue := es), e, r)
  {
    assert w.queue[1..] == es && w.queue[1] == es[0];
  }

  lemma InSyncIgnoresQueue(w: World, es: seq<Event>)
    requires InSync(w)
    ensures InSync(w.(queue := es))
  {
    var u := w.(queue := es);
    forall wd | wd in u.cache ensures !Stale(u, wd) { assert !Stale(w, wd); }
  }

  /** What is left when d has been zapped, the second rename aside. */
  function Zapped(v: World, d: Id, p: Id, n: string, c: int): World
    requires d in v.tree.dirs
  {
    var s := EntriesUnder(v.cache, Path(v.tree, d));
    MoveDir(v, d, p, n, c).(cache := v.cache - s, watches := Without(v.watches, s), queue := [])
  }

  lemma ZappedAgrees(v: World, d: Id, p: Id, n: string, c: int)
    requires InSync(v) && v.queue == [] && CanRename(v.tree, d, p, n) && d in v.watches && p !in v.watches
    ensures InSync(Zapped(v, d, p, n, c))
  {
    var v1, s := MoveDir(v, d, p, n, c), EntriesUnder(v.cache, Path(v.tree, d));
    MoveEnds(v, d, p, n, c, v1);
    OutsideWatches(v, d, p, n, c, v1);
    var u := Zapped(v, d, p, n, c);
    forall e | e in u.watches ensures Path(u.tree, e) == Path(v.tree, e) { OutsideZaps(v, d, p, n, c, v1, e); }
    ZapAgrees(v, u, s);
  }

  lemma CrossedStarts(v: World, d: Id, p: Id, n: string, c: int, x: Id, q: Id, k: string, c': int, w: World)
    requires Crossed(v, d, p, n, c, x, q, k, c', w)
    ensures v.tree.dirs[d].parent in v.watches && v.watches[v.tree.dirs[d].parent] in v.cache
    ensures Join(v.cache[v.watches[v.tree.dirs[d].parent]], v.tree.dirs[d].name) == Path(v.tree, d)
    ensures EntriesUnder(v.cache, Path(v.tree, d)) <= v.watches.Values
    ensures InSync(Zapped(v, d, p, n, c)) && q in Zapped(v, d, p, n, c).watches && x !in Zapped(v, d, p, n, c).watches
  {
    var v1 := MoveDir(v, d, p, n, c);
    MoveEnds(v, d, p, n, c, v1);
    OutsideWatches(v, d, p, n, c, v1);
    ZappedAgrees(v, d, p, n, c);
  }

  /** The first event removes what was cached under the old path of d. */
  lemma FirstZaps(v: World, d: Id, p: Id, n: string, c: int, x: Id, q: Id, k: string, c': int, w: World,
                  r: Option<World>) returns (order: seq<int>)
    requires Crossed(v, d, p, n, c, x, q, k, c', w) && q in v.watches && Step(w, r)
    ensures var u := Zapped(v, d, p, n, c);
            r == Some(w.(cache := u.cache, watches := u.watches,
                         queue := SecondEvents(v, d, p, n, x, q, k, c') + Ignoreds(order)))
  {
    CrossedStarts(v, d, p, n, c, x, q, k, c', w);
    CrossedEvents(v, d, p, n, c, x, q, k, c', w);
    var e := MovedFrom(v.watches[v.tree.dirs[d].parent], c, v.tree.dirs[d].name);
    var es := SecondEvents(v, d, p, n, x, q, k, c');
    FirstIsAlone(w, e, es, r);
    order := ZapLeaves(w.(queue := es), Path(v.tree, d), EntriesUnder(v.cache, Path(v.tree, d)), r);
  }

  // ----- What the second rename finds -----

  /** The first rename has been handled, the second one has happened, and IN_IGNORED events follow. */
  ghost predicate Halfway(u: World, x: Id, q: Id, k: string, c': int, z: World) {
    && InSync(u) && u.queue == [] && CanRename(u.tree, x, q, k) && x !in u.watches && q in u.watches
    && z.queue != [] && z.queue[0] == MovedTo(u.watches[q], c', k) && AllIgnored(z.queue[1..])
    && z == MoveDir(u, x, q, k, c').(queue := z.queue)
  }

  ghost predicate Arriving(z: World) {
    exists u, x, q, k, c' :: Halfway(u, x, q, k, c', z)
  }

  /** The next event names a descriptor that is not cached. */
  ghost predicate Unknown(z: World) {
    z.queue != [] && z.queue[0].MovedFrom? && z.queue[0].wd !in z.cache
  }

  /** The order of the zap and of the second rename does not matter. */
  lemma ZapCommutes(v: World, d: Id, p: Id, n: string, c: int, x: Id, q: Id, k: string, c': int, es: seq<Event>)
    requires d in v.tree.dirs && x in Rename(v.tree, d, p, n).dirs
    ensures var u := Zapped(v, d, p, n, c);
            MoveDir(MoveDir(v, d, p, n, c), x, q, k, c').(cache := u.cache, watches := u.watches, queue := es) ==
            MoveDir(u, x, q, k, c').(queue := es)
  {
  }

  lemma OnlyArrival(v: World, d: Id, p: Id, n: string, x: Id, q: Id, k: string, c': int, order: seq<int>)
    requires d in v.tree.dirs && x in Rename(v.tree, d, p, n).dirs && q in v.watches && FromOutside(v, d, p, n, x)
    ensures var es := SecondEvents(v, d, p, n, x, q, k, c') + Ignoreds(order);
            es[0] == MovedTo(v.watches[q], c', k) && AllIgnored(es[1..])
  {
    var es := SecondEvents(v, d, p, n, x, q, k, c') + Ignoreds(order);
    assert es[1..] == Ignoreds(order);
  }

  lemma ThenArrives(v: World, d: Id, p: Id, n: string, c: int, x: Id, q: Id, k: string, c': int, w: World, z: World,
                    order: seq<int>)
    requires Crossed(v, d, p, n, c, x, q, k, c', w) && q in v.watches && FromOutside(v, d, p, n, x)
    requires var u := Zapped(v, d, p, n, c);
             z == w.(cache := u.cache, watches := u.watches,
                     queue := SecondEvents(v, d, p, n, x, q, k, c') + Ignoreds(order))
    ensures Arriving(z)
  {
    CrossedStarts(v, d, p, n, c, x, q, k, c', w);
    var u := Zapped(v, d, p, n, c);
    OnlyArrival(v, d, p, n, x, q, k, c', order);
    ZapCommutes(v, d, p, n, c, x, q, k, c', z.queue);
    assert Halfway(u, x, q, k, c', z);
  }

  lemma ThenUnknown(v: World, d: Id, p: Id, n: string, c: int, x: Id, q: Id, k: string, c': int, w: World, z: World,
                    order: seq<int>)
    requires Crossed(v, d, p, n, c, x, q, k, c', w) && q in v.watches && !FromOutside(v, d, p, n, x)
    requires var u := Zapped(v, d, p, n, c);
             z == w.(cache := u.cache, watches := u.watches,
                     queue := SecondEvents(v, d, p, n, x, q, k, c') + Ignoreds(order))
    ensures Unknown(z)
  {
    CrossedStarts(v, d, p, n, c, x, q, k, c', w);
    var u := Zapped(v, d, p, n, c);
    var px := u.tree.dirs[x].parent;
    ParentIsWatched(u, x);
    assert px in v.watches && px !in u.watches;
    assert z.queue[0] == MovedFrom(v.watches[px], c', u.tree.dirs[x].name);
  }

  lemma FirstStep(v: World, d: Id, p: Id, n: string, c: int, x: Id, q: Id, k: string, c': int, w: World,
                  r: Option<World>)
    requires Crossed(v, d, p, n, c, x, q, k, c', w) && Step(w, r)
    ensures r.Some? && if FromOutside(v, d, p, n, x) then Arriving(r.value) else Unknown(r.value)
  {
    CrossedStarts(v, d, p, n, c, x, q, k, c', w);
    var order := FirstZaps(v, d, p, n, c, x, q, k, c', w, r);
    if FromOutside(v, d, p, n, x) {
      ThenArrives(v, d, p, n, c, x, q, k, c', w, r.value, order);
    } else {
      ThenUnknown(v, d, p, n, c, x, q, k, c', w, r.value, order);
    }
  }

  lemma UnknownStep(z: World, r: Option<World>)
    requires Unknown(z) && Step(z, r)
    ensures r == None
  {
  }

  lemma WatchWithoutQueue(w: World, path: string, u: World)
    requires WatchSubtree(w, path, u)
    ensures u.queue == w.queue && WatchSubtree(w.(queue := []), path, u.(queue := []))
  {
    if exists d :: At(w.tree, d, path) {
      var d, order :| At(w.tree, d, path) && Walked(w, d, order, u);
      WalkIgnoresQueue(w, order, []);
      assert At(w.(queue := []).tree, d, path) && Walked(w.(queue := []), d, order, u.(queue := []));
    }
  }

  lemma HalfwayWalks(u: World, x: Id, q: Id, k: string, c': int, z: World, r: Option<World>)
    requires Halfway(u, x, q, k, c', z) && Step(z, r)
    ensures var w := MoveDir(u, x, q, k, c');
            && w.queue == [MovedTo(u.watches[q], c', k)]
            && r.Some? && WatchSubtree(z.(queue := z.queue[1..]), Path(w.tree, x), r.value)
            && u.watches[q] in u.cache && Join(u.cache[u.watches[q]], k) == Path(w.tree, x)
            && Path(w.tree, x) !in u.cache.Values
  {
    var w := MoveDir(u, x, q, k, c');
    MoveEnds(u, x, q, k, c', w);
    MovedEvents(u, x, q, k, c');
    assert Path(w.tree, x) !in u.cache.Values by { InwardIsNew(u, x, q, k, c', w); }
    ArrivalWalks(z, u.watches[q], c', k, Path(w.tree, x), r);
  }

  /** The arrival is handled as if it were the only event. */
  lemma HalfwayAgrees(u: World, x: Id, q: Id, k: string, c': int, z: World, r: Option<World>)
    requires Halfway(u, x, q, k, c', z) && Step(z, r)
    ensures r.Some? && InSync(r.value) && AllIgnored(r.value.queue)
  {
    var w := MoveDir(u, x, q, k, c');
    HalfwayWalks(u, x, q, k, c', z, r);
    var t := r.value.(queue := []);
    WatchWithoutQueue(z.(queue := z.queue[1..]), Path(w.tree, x), r.value);
    ArrivalIsConsumed(w, u.watches[q], c', k, Path(w.tree, x), t);
    InwardAgrees(u, x, q, k, c', w, Some(t));
    InSyncIgnoresQueue(t, r.value.queue);
  }

  lemma HalfwayStep(u: World, x: Id, q: Id, k: string, c': int, z: World, r: Option<World>)
    requires Halfway(u, x, q, k, c', z) && Step(z, r)
    ensures r.Some? && Inv(r.value)
  {
    HalfwayAgrees(u, x, q, k, c', z, r);
    SettledIsInv(r.value);
  }

  lemma ArrivalIsConsumed(w: World, a: int, c': int, k: string, path: string, t: World)
    requires w.queue == [MovedTo(a, c', k)] && a in w.cache && Join(w.cache[a], k) == path && path !in w.cache.Values
    requires WatchSubtree(w.(queue := []), path, t)
    ensures Consume(w, Some(t))
  {
    assert w.queue[1..] == [];
  }

  lemma ArrivalWalks(z: World, a: int, c': int, k: string, path: string, r: Option<World>)
    requires z.queue != [] && z.queue[0] == MovedTo(a, c', k) && Step(z, r)
    requires a in z.cache && Join(z.cache[a], k) == path && path !in z.cache.Values
    ensures r.Some? && WatchSubtree(z.(queue := z.queue[1..]), path, r.value)
  {
  }

  // ----- Until no event is left -----

  ghost predicate Crossing(w: World) {
    exists v, d, p, n, c, x, q, k, c' :: Crossed(v, d, p, n, c, x, q, k, c', w)
  }

  ghost predicate InFlight(w: World) {
    Crossing(w) || Arriving(w) || Unknown(w) || Inv(w)
  }

  lemma InFlightStep(w: World, r: Option<World>)
    requires InFlight(w) && Step(w, r)
    ensures r.Some? ==> InFlight(r.value)
    ensures r == None ==> Unknown(w)
  {
    if Crossing(w) {
      var v, d, p, n, c, x, q, k, c' :| Crossed(v, d, p, n, c, x, q, k, c', w);
      FirstStep(v, d, p, n, c, x, q, k, c', w, r);
    } else if Arriving(w) {
      var u, x, q, k, c' :| Halfway(u, x, q, k, c', w);
      HalfwayStep(u, x, q, k, c', w, r);
    } else if Inv(w) && !Unknown(w) {
      InvHasNoMoves(w);
      ConsumeKeepsInv(w, r);
    } else {
      UnknownStep(w, r);
    }
  }

  lemma {:induction false} InFlightDrains(ws: seq<World>, i: nat)
    requires Drained(ws) && InFlight(ws[0]) && i < |ws|
    ensures InFlight(ws[i]) && !Consume(ws[i], None)
  {
    if i == 0 {
    } else {
      InFlightDrains(ws, i - 1);
      assert Consume(ws[i - 1], Some(ws[i]));
      InFlightStep(ws[i - 1], Some(ws[i]));
    }
    if i + 1 < |ws| {
      assert Consume(ws[i], Some(ws[i + 1]));
      HandledIsNotRebuilt(ws[i], ws[i + 1]);
    }
  }

  lemma HandledIsNotRebuilt(w: World, u: World)
    requires InFlight(w) && Consume(w, Some(u))
    ensures !Consume(w, None)
  {
    if Consume(w, None) {
      InFlightStep(w, None);
      UnknownStep(w, Some(u));
    }
  }

  lemma QuietFlightAgrees(w: World)
    requires InFlight(w) && w.queue == []
    ensures InSync(w)
  {
    if Crossing(w) {
      var v, d, p, n, c, x, q, k, c' :| Crossed(v, d, p, n, c, x, q, k, c', w);
      CrossedStarts(v, d, p, n, c, x, q, k, c', w);
      CrossedEvents(v, d, p, n, c, x, q, k, c', w);
    } else if Inv(w) {
      QuietAgrees(w);
    }
  }

  /** One directory leaves, another arrives, and their events are handled: the cache agrees, without a rebuild. */
  lemma CrossedMovesAgree(v: World, d: Id, p: Id, n: string, c: int, x: Id, q: Id, k: string, c': int, ws: seq<World>)
    requires Drained(ws) && Crossed(v, d, p, n, c, x, q, k, c', ws[0])
    ensures InSync(ws[|ws| - 1]) && forall i :: 0 <= i < |ws| ==> !Consume(ws[i], None)
  {
    assert Crossing(ws[0]);
    forall i | 0 <= i < |ws| ensures InFlight(ws[i]) && !Consume(ws[i], None) { InFlightDrains(ws, i); }
    QuietFlightAgrees(ws[|ws| - 1]);
  }

  /** If the second one comes from below the first, its departure names a descriptor that is gone: a rebuild. */
  lemma CrossedMovesRebuild(v: World, d: Id, p: Id, n: string, c: int, x: Id, q: Id, k: string, c': int, w: World,
                            z: World)
    requires Crossed(v, d, p, n, c, x, q, k, c', w) && Step(w, Some(z))
    ensures Consume(z, None) <==> !FromOutside(v, d, p, n, x)
  {
    FirstStep(v, d, p, n, c, x, q, k, c', w, Some(z));
    if FromOutside(v, d, p, n, x) {
      ArrivingIsHandled(z);
    } else {
      UnknownIsRebuilt(z);
    }
  }

  lemma ArrivingIsHandled(z: World)
    requires Arriving(z)
    ensures !Consume(z, None)
  {
    if Consume(z, None) {
      var u, x, q, k, c' :| Halfway(u, x, q, k, c', z);
      HalfwayStep(u, x, q, k, c', z, None);
    }
  }

  lemma UnknownIsRebuilt(z: World)
    requires Unknown(z)
    ensures Consume(z, None)
  {
  }

  // ----- The running program -----

  lemma {:induction false} InFlightSteps(trace: seq<World>, i: nat)
    requires Steps(trace) && InFlight(trace[0]) && i < |trace|
    ensures InFlight(trace[i])
  {
    if i == 0 {
    } else {
      InFlightSteps(trace, i - 1);
      assert Step(trace[i - 1], Some(trace[i]));
      InFlightStep(trace[i - 1], Some(trace[i]));
    }
  }

  method HandleCrossed(m: Monitor, steady: bool)
    requires m.Valid() && Wds(m.queue) && InFlight(m.State())
    modifies m
    ensures m.Valid() && m.tree == old(m.tree) && m.queue == [] && InSync(m.State())
  {
    while m.queue != []
      invariant m.Valid() && Wds(m.queue) && InFlight(m.State()) && m.tree == old(m.tree)
      decreases Work(m.queue), |m.queue|
    {
      var rebuilt, _, _, trace := ProcessInotifyEvents(m, steady);
      if rebuilt {
        return;
      }
      InFlightSteps(trace, |trace| - 1);
      StepsUse(trace);
    }
    QuietFlightAgrees(m.State());
  }

  /** Both renames, and the loop until no event is left: the slot table is exact, whatever is interrupted. */
  method FollowCrossedMoves(m: Monitor, d: Id, p: Id, n: string, c: int, x: Id, q: Id, k: string, c': int,
                            steady: bool)
    requires m.Valid() && InSync(m.State()) && m.queue == [] && CanRename(m.tree, d, p, n)
    requires d in m.watches && p !in m.watches && c != c'
    requires var t := Rename(m.tree, d, p, n); CanRename(t, x, q, k) && x !in Live(t) && q in Live(t)
    modifies m
    ensures m.Valid() && m.tree == Rename(Rename(old(m.tree), d, p, n), x, q, k) && m.queue == [] && InSync(m.State())
  {
    ghost var v := m.State();
    Move(m, d, p, n, c);
    Move(m, x, q, k, c');
    assert Crossed(v, d, p, n, c, x, q, k, c', m.State());
    assert m.tree == Rename(Rename(v.tree, d, p, n), x, q, k);
    HandleCrossed(m, steady);
  }
}
