/**
 Where inotify_dtree.c loses a directory that replaces an empty one: its arrival is handled while the
 replaced directory is still cached under that path, so nothing is watched, and then the old entry is
 dropped. This happens when the moved directory comes from outside the trees, and when it comes from
 inside but the two events of the move are handled one by one.
 */
module MaskedArrivals {
  import opened PathStrings
  import opened DirTree
  import opened WatchModel
  import opened Basics
  import opened CacheRenames
  import opened CacheReplacements

  // ----- From outside the trees -----

  /** A directory that should be watched and is not. */
  ghost predicate Lost(w: World, d: Id) {
    d in Live(w.tree) && d !in w.watches
  }

  /** An arrival before the end of the replaced directory, whose entry has the path of the arrival. */
  ghost predicate Masked(w: World, a: int, cookie: int, n: string, x: int) {
    && |w.queue| > 1 && w.queue[0] == MovedTo(a, cookie, n) && w.queue[1] == DeleteSelf(x)
    && AllIgnored(w.queue[2..])
    && a in w.cache && x in w.cache && w.cache[x] == Join(w.cache[a], n)
  }

  ghost predicate AllIgnored(es: seq<Event>) {
    forall i :: 0 <= i < |es| ==> es[i].Ignored?
  }

  lemma MaskedArrives(v: World, d: Id, e: Id, p: Id, n: string, cookie: int, w: World)
    requires JustReplaced(v, d, e, p, n, cookie, w) && d !in v.watches && p in v.watches
    ensures e in v.watches && Masked(w, v.watches[p], cookie, n, v.watches[e])
  {
    ReplaceEnds(v, d, e, p, n);
    assert v.cache[v.watches[e]] == Join(v.cache[v.watches[p]], n) by { ParentIsWatched(v, e); }
    MaskedEvents(v, d, e, p, n, cookie);
  }

  lemma MaskedEvents(v: World, d: Id, e: Id, p: Id, n: string, cookie: int)
    requires v.queue == [] && d in v.tree.dirs && d != e && p != e && v.tree.dirs[d].parent != e
    requires v.tree.dirs[d].parent !in v.watches && e in v.watches && p in v.watches
    requires v.watches[e] in v.cache && v.watches[p] in v.cache
    requires v.cache[v.watches[e]] == Join(v.cache[v.watches[p]], n)
    ensures Masked(ReplaceDir(v, d, e, p, n, cookie), v.watches[p], cookie, n, v.watches[e])
  {
    ReplacedEvents(v, d, e, p, n, cookie);
  }

  /** The arrival is ignored because the old entry has that path; then the old entry goes. */
  lemma LostStep(w: World, d: Id, r: Option<World>)
    requires Lost(w, d) && Consume(w, r) && !w.queue[0].MovedFrom? && !w.queue[0].Overflow?
    requires w.queue[0].Ignored? || w.queue[0].wd in w.cache
    requires w.queue[0].MovedTo? || w.queue[0].Create? ==>
            Join(w.cache[w.queue[0].wd], w.queue[0].name) in w.cache.Values
    ensures r.Some? && Lost(r.value, d) && r.value.queue == w.queue[1..]
    ensures !w.queue[0].DeleteSelf? ==> r.value.cache == w.cache
  {
  }

  /** Events are handled one after the other until none is left. */
  ghost predicate Drained(ws: seq<World>) {
    && ws != [] && ws[|ws| - 1].queue == []
    && forall i :: 0 <= i < |ws| - 1 ==> Consume(ws[i], Some(ws[i + 1]))
  }

  /** The directory is lost and no event that is left leads to it. */
  ghost predicate Doomed(w: World, d: Id) {
    && Lost(w, d)
    && (AllIgnored(w.queue) || Ending(w) || exists a, cookie, n, x :: Masked(w, a, cookie, n, x))
  }

  ghost predicate Ending(w: World) {
    w.queue != [] && w.queue[0].DeleteSelf? && w.queue[0].wd in w.cache && AllIgnored(w.queue[1..])
  }

  lemma DoomedStep(w: World, d: Id, r: Option<World>)
    requires Doomed(w, d) && Consume(w, r)
    ensures r.Some? && Doomed(r.value, d)
  {
    if AllIgnored(w.queue) || Ending(w) {
      LostStep(w, d, r);
    } else {
      var a, cookie, n, x :| Masked(w, a, cookie, n, x);
      LostStep(w, d, r);
      assert w.queue[1..][1..] == w.queue[2..];
      assert Ending(r.value);
    }
  }

  lemma {:induction false} DoomedDrains(ws: seq<World>, d: Id, i: nat)
    requires Drained(ws) && Doomed(ws[0], d) && i < |ws|
    ensures Doomed(ws[i], d) && !Consume(ws[i], None)
  {
    if i == 0 {
    } else {
      DoomedDrains(ws, d, i - 1);
      DoomedStep(ws[i - 1], d, Some(ws[i]));
    }
    if Consume(ws[i], None) {
      DoomedStep(ws[i], d, None);
    }
  }

  lemma LostDrains(ws: seq<World>, d: Id)
    requires Drained(ws) && Doomed(ws[0], d)
    ensures Lost(ws[|ws| - 1], d)
    ensures forall i :: 0 <= i < |ws| ==> !Consume(ws[i], None)
  {
    forall i | 0 <= i < |ws| ensures Doomed(ws[i], d) && !Consume(ws[i], None) { DoomedDrains(ws, d, i); }
  }

  lemma ReplacementIsDoomed(v: World, d: Id, e: Id, p: Id, n: string, cookie: int, w: World)
    requires JustReplaced(v, d, e, p, n, cookie, w) && d !in v.watches && p in v.watches
    ensures Doomed(w, d)
  {
    MaskedArrives(v, d, e, p, n, cookie, w);
    ReplacedIsLive(v, d, e, p, n, cookie, w);
    assert Lost(w, d) && Masked(w, v.watches[p], cookie, n, v.watches[e]);
  }

  lemma ReplacementIsLost(v: World, d: Id, e: Id, p: Id, n: string, cookie: int, ws: seq<World>)
    requires Drained(ws) && JustReplaced(v, d, e, p, n, cookie, ws[0]) && d !in v.watches && p in v.watches
    ensures Lost(ws[|ws| - 1], d)
    ensures forall i :: 0 <= i < |ws| ==> !Consume(ws[i], None)
  {
    ReplacementIsDoomed(v, d, e, p, n, cookie, ws[0]);
    LostDrains(ws, d);
  }

  // ----- From inside the trees, the two events being handled one by one -----

  lemma NotUnder(v: World, d: Id, e: Id, p: Id, n: string, cookie: int, w: World)
    requires JustReplaced(v, d, e, p, n, cookie, w) && d in v.watches && p in v.watches
    ensures e in v.watches && e != p
    ensures !Under(Path(v.tree, d), Path(v.tree, p)) && !Under(Path(v.tree, d), Path(v.tree, e))
  {
    ParentIsWatched(v, e);
    assert Sound(v.tree, e);
    RmdirSame(v.tree, e, p);
    assert Monitored(v.tree, d) && Monitored(v.tree, e) && Monitored(v.tree, p);
    UnderIsAbove(v.tree, d, p);
    UnderIsAbove(v.tree, d, e);
  }

  /** The zap of the old path takes neither the replaced directory's entry nor the new parent's. */
  lemma SplitZapsRest(v: World, d: Id, e: Id, p: Id, n: string, cookie: int, w: World)
    requires JustReplaced(v, d, e, p, n, cookie, w) && d in v.watches && p in v.watches
    ensures e in v.watches
    ensures var s := EntriesUnder(v.cache, Path(v.tree, d));
            && v.watches[d] in s && v.watches[p] !in s && v.watches[e] !in s
            && s <= (v.watches - {e}).Values
  {
    NotUnder(v, d, e, p, n, cookie, w);
    UnderItself(Path(v.tree, d));
    forall wd | wd in EntriesUnder(v.cache, Path(v.tree, d)) ensures wd in (v.watches - {e}).Values {
      assert !Stale(v, wd);
      StillAValue(v.watches, e, wd);
    }
  }

  lemma StillAValue(watches: map<Id, int>, e: Id, wd: int)
    requires wd in watches.Values && (e in watches ==> watches[e] != wd)
    ensures wd in (watches - {e}).Values
  {
    var f :| f in watches && watches[f] == wd;
    assert f in watches - {e} && (watches - {e})[f] == wd;
  }

  lemma UnderItself(p: string)
    ensures Under(p, p)
  {
  }

  /** Four events and more: the move, the end of e, and the ends of the zapped watches. */
  lemma SplitEvents(v: World, d: Id, e: Id, p: Id, n: string, cookie: int, w: World)
    requires JustReplaced(v, d, e, p, n, cookie, w) && d in v.watches && p in v.watches
    ensures e in v.watches && w.watches == v.watches - {e} && w.cache == v.cache && w.queue != []
    ensures w.queue[0].MovedFrom? && w.queue[0].wd in w.cache
    ensures Join(w.cache[w.queue[0].wd], w.queue[0].name) == Path(v.tree, d)
    ensures w.queue[1..] == [MovedTo(v.watches[p], cookie, n), DeleteSelf(v.watches[e]), Ignored(v.watches[e])]
  {
    ReplaceEnds(v, d, e, p, n);
    var q := v.tree.dirs[d].parent;
    assert v.watches[q] in v.cache && Join(v.cache[v.watches[q]], v.tree.dirs[d].name) == Path(v.tree, d) by {
      ParentIsWatched(v, d);
    }
    ReplacedPair(v, d, e, p, n, cookie);
  }

  /** What the zap leaves, whatever the tree is. */
  lemma ZapLeavesMask(w: World, path: string, d: Id, a: int, cookie: int, n: string, x: int, r: Option<World>)
    requires Alone(w, r) && w.queue[0].wd in w.cache && Join(w.cache[w.queue[0].wd], w.queue[0].name) == path
    requires w.queue[1..] == [MovedTo(a, cookie, n), DeleteSelf(x), Ignored(x)]
    requires a in w.cache && x in w.cache && w.cache[x] == Join(w.cache[a], n)
    requires var s := EntriesUnder(w.cache, path);
             a !in s && x !in s && s <= w.watches.Values && d in w.watches && w.watches[d] in s
    ensures r.Some? && r.value.tree == w.tree && d !in r.value.watches && Masked(r.value, a, cookie, n, x)
  {
    var s, z := EntriesUnder(w.cache, path), r.value;
    assert ZapSubtree(w.(queue := w.queue[1..]), path, r);
    var order :| Enumerates(order, s) && z.queue == w.queue[1..] + Ignoreds(order);
    assert z.queue[2..] == [Ignored(x)] + Ignoreds(order);
  }

  lemma SplitReplacement(v: World, d: Id, e: Id, p: Id, n: string, cookie: int, w: World, r: Option<World>)
    requires JustReplaced(v, d, e, p, n, cookie, w) && d in v.watches && p in v.watches && Alone(w, r)
    ensures r.Some? && e in v.watches && Masked(r.value, v.watches[p], cookie, n, v.watches[e])
    ensures r.value.tree == w.tree && d !in r.value.watches
  {
    SplitEvents(v, d, e, p, n, cookie, w);
    SplitZapsRest(v, d, e, p, n, cookie, w);
    ParentIsWatched(v, e);
    assert v.cache[v.watches[p]] == Path(v.tree, p) && v.cache[v.watches[e]] == Path(v.tree, e);
    ZapLeavesMask(w, Path(v.tree, d), d, v.watches[p], cookie, n, v.watches[e], r);
  }

  lemma ReplacedIsLive(v: World, d: Id, e: Id, p: Id, n: string, cookie: int, w: World)
    requires JustReplaced(v, d, e, p, n, cookie, w) && p in v.watches
    ensures d in Live(w.tree)
  {
    var v1 := Dropped(v, e);
    var w1 := MoveDir(v1, d, p, n, cookie);
    ReplaceIsMove(v, d, e, p, n, cookie, w);
    MoveEnds(v1, d, p, n, cookie, w1);
    assert p != e && Monitored(w1.tree, d) && w.tree == w1.tree;
  }

  /** Then the arrival is masked by the old entry, as it is when it comes from outside. */
  lemma SplitReplacementIsLost(v: World, d: Id, e: Id, p: Id, n: string, cookie: int, w: World, ws: seq<World>)
    requires JustReplaced(v, d, e, p, n, cookie, w) && d in v.watches && p in v.watches
    requires Drained(ws) && Alone(w, Some(ws[0]))
    ensures Lost(ws[|ws| - 1], d)
    ensures forall i :: 0 <= i < |ws| ==> !Consume(ws[i], None)
  {
    SplitReplacement(v, d, e, p, n, cookie, w, Some(ws[0]));
    ReplacedIsLive(v, d, e, p, n, cookie, w);
    assert Lost(ws[0], d) && Masked(ws[0], v.watches[p], cookie, n, v.watches[e]);
    LostDrains(ws, d);
  }
}
