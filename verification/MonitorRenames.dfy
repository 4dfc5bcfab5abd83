/**
 The running program of inotify_dtree.c while directories are renamed: the loop handles the events of each
 rename before anything else happens, and the slot table is what the results on the map level say.
 */
module MonitorRenames {
  import opened PathStrings
  import opened DirTree
  import opened WatchModel
  import opened Basics
  import opened TreeMonitor
  import opened CacheInterleaving
  import opened CacheRenames
  import opened CacheReplacements
  import opened MaskedArrivals
  import opened RenameRuns
  import opened EventLoop

  // ----- Progress: every step takes an event, and queues IN_IGNORED events at most -----

  ghost predicate Fewer(q: seq<Event>, than: seq<Event>) {
    Work(q) < Work(than) || (Work(q) == Work(than) && |q| < |than|)
  }

  lemma OneUses(w: World, e: Event, u: World)
    requires HandleOne(w, e, Some(u))
    ensures Work(u.queue) == Work(w.queue) && (e.Ignored? ==> u.queue == w.queue)
  {
    match e
    case Create(wd, name) =>
      if Join(w.cache[wd], name) !in w.cache.Values { WatchIgnoresQueue(w, Join(w.cache[wd], name), u, []); }
    case MovedTo(wd, _, name) =>
      if Join(w.cache[wd], name) !in w.cache.Values { WatchIgnoresQueue(w, Join(w.cache[wd], name), u, []); }
    case MovedFrom(wd, _, name) =>
      var s := EntriesUnder(w.cache, Join(w.cache[wd], name));
      var order :| Enumerates(order, s) && u.queue == w.queue + Ignoreds(order);
      WorkOfConcat(w.queue, Ignoreds(order));
      IgnoredsAreNoWork(order);
    case Overflow =>
    case DeleteSelf(_) =>
    case Ignored(_) =>
    case FileEvent(_) =>
  }

  lemma StepUses(w: World, u: World)
    requires Step(w, Some(u))
    ensures Fewer(u.queue, w.queue)
  {
    if Alone(w, Some(u)) || |w.queue| == 1 || !Pairs(w.queue[0], w.queue[1]) {
      OneUses(w.(queue := w.queue[1..]), w.queue[0], u);
    } else {
      assert w.queue[1..][1..] == w.queue[2..];
    }
  }

  lemma {:induction false} StepsUse(trace: seq<World>)
    requires Steps(trace) && |trace| > 1
    ensures Fewer(trace[|trace| - 1].queue, trace[0].queue)
    decreases |trace|
  {
    var init := trace[..|trace| - 1];
    assert Step(trace[|trace| - 2], Some(trace[|trace| - 1]));
    StepUses(trace[|trace| - 2], trace[|trace| - 1]);
    if |trace| == 2 {
    } else {
      StepsUse(init);
    }
  }

  // ----- A rename to a name that does not exist, its events handled together or one by one -----

  ghost predicate Moving(w: World) {
    Inv(w) || MovePending(w) || SplitPending(w)
  }

  /** A step of `Alone` is one of `Consume` unless it splits a pair. */
  lemma StepIsSplit(w: World, r: Option<World>)
    requires Step(w, r) && !Consume(w, r)
    ensures |w.queue| > 1 && Pairs(w.queue[0], w.queue[1]) && Alone(w, r)
  {
  }

  lemma MovingStep(w: World, r: Option<World>)
    requires Moving(w) && Step(w, r)
    ensures r.Some? && Moving(r.value)
  {
    if Consume(w, r) {
      if Inv(w) {
        ConsumeKeepsInv(w, r);
      } else {
        PendingIsHandled(w, r);
      }
    } else {
      StepIsSplit(w, r);
      if Inv(w) { InvHasNoMoves(w); }
      MoveSplits(w, r);
    }
  }

  lemma {:induction false} MovingSteps(trace: seq<World>, i: nat)
    requires Steps(trace) && Moving(trace[0]) && i < |trace|
    ensures Moving(trace[i])
  {
    if i == 0 {
    } else {
      MovingSteps(trace, i - 1);
      assert Step(trace[i - 1], Some(trace[i]));
      MovingStep(trace[i - 1], Some(trace[i]));
    }
  }

  lemma QuietMoveIsInv(v: World, d: Id, p: Id, n: string, cookie: int, w: World)
    requires JustMoved(v, d, p, n, cookie, w) && w.queue == []
    ensures Inv(w)
  {
    MoveEnds(v, d, p, n, cookie, w);
    BesideAgrees(v, d, p, n, cookie, w);
    SettledIsInv(w);
  }

  lemma JustMovedIsMoving(v: World, d: Id, p: Id, n: string, cookie: int, w: World)
    requires JustMoved(v, d, p, n, cookie, w)
    ensures Moving(w)
  {
    if w.queue == [] {
      QuietMoveIsInv(v, d, p, n, cookie, w);
    } else {
      assert MovePending(w);
    }
  }

  /** The loop runs until no event is left. */
  method HandleMove(m: Monitor, steady: bool)
    requires m.Valid() && Wds(m.queue) && Moving(m.State())
    modifies m
    ensures m.Valid() && m.tree == old(m.tree) && m.queue == [] && InSync(m.State())
  {
    while m.queue != []
      invariant m.Valid() && Wds(m.queue) && Moving(m.State()) && m.tree == old(m.tree)
      decreases Work(m.queue), |m.queue|
    {
      var rebuilt, _, _, trace := ProcessInotifyEvents(m, steady);
      MovingSteps(trace, |trace| - 1);
      if rebuilt {
        MovingStep(trace[|trace| - 1], None);
      }
      StepsUse(trace);
    }
    QuietAgrees(m.State());
  }

  lemma MovedQueue(w: World, d: Id, p: Id, n: string, cookie: int)
    requires d in w.tree.dirs && NonNegative(w.watches) && Wds(w.queue)
    ensures Wds(MoveDir(w, d, p, n, cookie).queue)
  {
    var was := w.tree.dirs[d];
    var a := if was.parent in w.watches then [MovedFrom(w.watches[was.parent], cookie, was.name)] else [];
    var b := if p in w.watches then [MovedTo(w.watches[p], cookie, n)] else [];
    WdsOfConcat(w.queue, a);
    WdsOfConcat(w.queue + a, b);
  }

  lemma MoveDirIsValid(w: World, d: Id, p: Id, n: string, cookie: int)
    requires WellFormed(w.tree) && NonNegative(w.watches) && Wds(w.queue) && CanRename(w.tree, d, p, n)
    ensures var u := MoveDir(w, d, p, n, cookie); WellFormed(u.tree) && NonNegative(u.watches) && Wds(u.queue)
  {
    assert WellFormed(Rename(w.tree, d, p, n)) by { RenameWellFormed(w.tree, d, p, n); }
    MovedQueue(w, d, p, n, cookie);
  }

  /** Another process moves d to name n in p, where nothing is. */
  method Move(m: Monitor, d: Id, p: Id, n: string, cookie: int)
    requires m.Valid() && Wds(m.queue) && CanRename(m.tree, d, p, n)
    modifies m`tree, m`watches, m`queue
    ensures m.Valid() && Wds(m.queue) && m.State() == MoveDir(old(m.State()), d, p, n, cookie)
  {
    MoveDirIsValid(m.Outside(), d, p, n, cookie);
    m.Meet(MoveDir(m.Outside(), d, p, n, cookie));
  }

  /** A rename, and the loop until no event is left: the slot table is exact, whatever is interrupted. */
  method FollowRename(m: Monitor, d: Id, p: Id, n: string, cookie: int, steady: bool)
    requires m.Valid() && InSync(m.State()) && m.queue == [] && CanRename(m.tree, d, p, n)
    modifies m
    ensures m.Valid() && m.tree == Rename(old(m.tree), d, p, n) && m.queue == [] && InSync(m.State())
  {
    ghost var v := m.State();
    Move(m, d, p, n, cookie);
    JustMovedIsMoving(v, d, p, n, cookie, m.State());
    HandleMove(m, steady);
  }

  // ----- A rename onto an empty directory -----

  ghost predicate Replacing(w: World, d: Id, masked: bool) {
    if masked then Doomed(w, d) else Inv(w) || MovePending(w) || ReplacePending(w)
  }

  lemma ReplacingStep(w: World, d: Id, masked: bool, r: Option<World>)
    requires Replacing(w, d, masked) && Consume(w, r)
    ensures r.Some? && Replacing(r.value, d, masked)
  {
    if masked {
      DoomedStep(w, d, r);
    } else if Inv(w) {
      ConsumeKeepsInv(w, r);
    } else {
      PendingIsHandled(w, r);
    }
  }

  lemma {:induction false} ReplacingSteps(trace: seq<World>, d: Id, masked: bool, i: nat)
    requires PairedSteps(trace) && Replacing(trace[0], d, masked) && i < |trace|
    ensures Replacing(trace[i], d, masked)
  {
    if i == 0 {
    } else {
      ReplacingSteps(trace, d, masked, i - 1);
      assert Consume(trace[i - 1], Some(trace[i]));
      ReplacingStep(trace[i - 1], d, masked, Some(trace[i]));
    }
  }

  lemma JustReplacedIsReplacing(v: World, d: Id, e: Id, p: Id, n: string, cookie: int, w: World)
    requires JustReplaced(v, d, e, p, n, cookie, w)
    ensures Replacing(w, d, d !in v.watches && p in v.watches)
  {
    if d !in v.watches && p in v.watches {
      ReplacementIsDoomed(v, d, e, p, n, cookie, w);
    } else if w.queue == [] {
      QuietIsInv(v, d, e, p, n, cookie, w);
    } else {
      FollowedIsPending(v, d, e, p, n, cookie, w);
    }
  }

  lemma FollowedIsPending(v: World, d: Id, e: Id, p: Id, n: string, cookie: int, w: World)
    requires Followed(v, d, e, p, n, cookie, w) && w.queue != []
    ensures ReplacePending(w)
  {
    ReplaceStartsWithMove(v, d, e, p, n, cookie, w);
  }

  /** The loop runs until no event is left; no second read is interrupted while an event is queued. */
  method HandleReplacement(m: Monitor, d: Id, ghost masked: bool)
    requires m.Valid() && Wds(m.queue) && Replacing(m.State(), d, masked)
    modifies m
    ensures m.Valid() && m.tree == old(m.tree) && m.queue == [] && (InSync(m.State()) <==> !masked)
  {
    while m.queue != []
      invariant m.Valid() && Wds(m.queue) && Replacing(m.State(), d, masked) && m.tree == old(m.tree)
      decreases Work(m.queue), |m.queue|
    {
      var rebuilt, _, _, trace := ProcessInotifyEvents(m, true);
      ReplacingSteps(trace, d, masked, |trace| - 1);
      if rebuilt {
        ReplacingStep(trace[|trace| - 1], d, masked, None);
      }
      StepsUse(trace);
    }
    if !masked {
      QuietAgrees(m.State());
    }
  }

  lemma ReplacedQueue(w: World, d: Id, e: Id, p: Id, n: string, cookie: int)
    requires d in w.tree.dirs && d != e && NonNegative(w.watches) && Wds(w.queue)
    ensures Wds(ReplaceDir(w, d, e, p, n, cookie).queue)
  {
    var v := w.(tree := Rmdir(w.tree, e), watches := w.watches - {e});
    MovedQueue(v, d, p, n, cookie);
    if e in w.watches {
      WdsOfConcat(MoveDir(v, d, p, n, cookie).queue, [DeleteSelf(w.watches[e]), Ignored(w.watches[e])]);
    }
  }

  lemma ReplaceDirIsValid(w: World, d: Id, e: Id, p: Id, n: string, cookie: int)
    requires WellFormed(w.tree) && NonNegative(w.watches) && Wds(w.queue) && CanReplace(w.tree, d, e, p, n)
    ensures var u := ReplaceDir(w, d, e, p, n, cookie);
            WellFormed(u.tree) && NonNegative(u.watches) && Wds(u.queue)
  {
    RmdirWellFormed(w.tree, e);
    RenameWellFormed(Rmdir(w.tree, e), d, p, n);
    ReplacedQueue(w, d, e, p, n, cookie);
  }

  lemma ReplaceIgnoresCache(w: World, cache: map<int, string>, d: Id, e: Id, p: Id, n: string, cookie: int)
    requires d in w.tree.dirs && d != e
    ensures var u, v := ReplaceDir(w, d, e, p, n, cookie), ReplaceDir(w.(cache := cache), d, e, p, n, cookie);
            u == w.(tree := v.tree, watches := v.watches, queue := v.queue)
  {
  }

  /** Another process moves d onto the empty directory e. */
  method Replace(m: Monitor, d: Id, e: Id, p: Id, n: string, cookie: int)
    requires m.Valid() && Wds(m.queue) && CanReplace(m.tree, d, e, p, n)
    modifies m`tree, m`watches, m`queue
    ensures m.Valid() && Wds(m.queue) && m.State() == ReplaceDir(old(m.State()), d, e, p, n, cookie)
  {
    ghost var w := m.State();
    ReplaceDirIsValid(m.Outside(), d, e, p, n, cookie);
    m.Meet(ReplaceDir(m.Outside(), d, e, p, n, cookie));
    ReplaceIgnoresCache(w, map[], d, e, p, n, cookie);
  }

  /** A replacing rename, and the loop until no event is left: exactly when the slot table is exact then. */
  method FollowReplacement(m: Monitor, d: Id, e: Id, p: Id, n: string, cookie: int)
    requires m.Valid() && InSync(m.State()) && m.queue == [] && CanReplace(m.tree, d, e, p, n)
    modifies m
    ensures m.Valid() && m.tree == Rename(Rmdir(old(m.tree), e), d, p, n) && m.queue == []
    ensures InSync(m.State()) <==> d in old(m.watches) || p !in old(m.watches)
  {
    ghost var v := m.State();
    Replace(m, d, e, p, n, cookie);
    assert m.tree == Rename(Rmdir(v.tree, e), d, p, n);
    JustReplacedIsReplacing(v, d, e, p, n, cookie, m.State());
    HandleReplacement(m, d, d !in v.watches && p in v.watches);
  }
}
