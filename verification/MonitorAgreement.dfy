/**
 What the invariants mean for the program itself, and where they stop: the running event loop
 brings the slot table into agreement with the tree, while a rename that is handled late may not.
 */
module MonitorAgreement {
  import opened PathStrings
  import opened DirTree
  import opened WatchModel
  import opened Basics
  import opened TreeMonitor
  import opened CacheInterleaving
  import opened CacheRenames
  import opened EventLoop

  /** Without renames there is nothing to wait for. */
  lemma StepIsConsume(w: World, r: Option<World>)
    requires Inv(w) && Step(w, r)
    ensures Consume(w, r)
  {
    if w.queue != [] {
      assert Known(w, 0);
    }
  }

  lemma {:induction false} StepsKeepInv(trace: seq<World>)
    requires Steps(trace) && Inv(trace[0])
    ensures var last := trace[|trace| - 1];
            Inv(last) && last.tree == trace[0].tree && |last.queue| == |trace[0].queue| - (|trace| - 1)
    decreases |trace|
  {
    if |trace| <= 1 {
    } else {
      var init := trace[..|trace| - 1];
      StepsKeepInv(init);
      assert Step(trace[|trace| - 2], Some(trace[|trace| - 1]));
      StepIsConsume(init[|init| - 1], Some(trace[|trace| - 1]));
      ConsumeKeepsInv(init[|init| - 1], Some(trace[|trace| - 1]));
    }
  }

  lemma StepsConcat(a: seq<World>, b: seq<World>)
    requires Steps(a) && Steps(b) && a[|a| - 1] == b[0]
    ensures Steps(a + b[1..]) && (a + b[1..])[|a + b[1..]| - 1] == b[|b| - 1]
  {
    var c := a + b[1..];
    forall i | 0 <= i < |c| - 1 ensures Step(c[i], Some(c[i + 1])) {
      if i < |a| - 1 {
        assert c[i] == a[i] && c[i + 1] == a[i + 1];
      } else {
        var j := i - (|a| - 1);
        assert c[i] == b[j] && c[i + 1] == b[j + 1];
      }
    }
  }

  /**
   From any state that creations and removals of directories can lead to, reading and handling
   events until none is left, in chunks of any size, leaves the cache exact. The trace shows that
   this takes one step for each queued event and no rebuild.
   */
  method CatchUp(m: Monitor, steady: bool) returns (ghost trace: seq<World>)
    requires m.Valid() && Inv(m.State()) && Wds(m.queue)
    modifies m
    ensures m.Valid() && m.tree == old(m.tree) && m.queue == [] && InSync(m.State())
    ensures Steps(trace) && trace[0] == old(m.State()) && trace[|trace| - 1] == m.State()
    ensures |trace| == |old(m.queue)| + 1
  {
    trace := [m.State()];
    while m.queue != []
      invariant m.Valid() && Inv(m.State()) && Wds(m.queue) && m.tree == old(m.tree)
      invariant Steps(trace) && trace[0] == old(m.State()) && trace[|trace| - 1] == m.State()
      invariant |trace| == |old(m.queue)| - |m.queue| + 1
      decreases |m.queue|
    {
      var rebuilt, _, _, more := ProcessInotifyEvents(m, steady);
      StepsKeepInv(more);
      if rebuilt {
        StepIsConsume(more[|more| - 1], None);
        ConsumeKeepsInv(more[|more| - 1], None);
      }
      StepsConcat(trace, more);
      trace := trace + more[1..];
    }
    QuietAgrees(m.State());
  }

  // ----- A rename that is handled late -----

  const ROOT := Inode(0)
  const CHILD := Inode(1)

  /** One monitored root, watched and cached. */
  function Start(): World {
    World(Tree(map[], map[ROOT := "r"], {}, map[]), map[ROOT := 1], 2, [], map[1 := "r"])
  }

  /** A directory is created as r/a and renamed to r/b before the creation is handled. */
  function Late(): World {
    MoveDir(MakeDir(Start(), CHILD, ROOT, "a"), CHILD, ROOT, "b", 7)
  }

  lemma StartAgrees()
    ensures InSync(Start())
  {
    var t := Start().tree;
    assert Live(t) == {ROOT} by {
      assert Monitored(t, ROOT);
    }
  }

  lemma LateIsLegal()
    ensures InSync(Start()) && Start().queue == []
    ensures CanMkdir(Start().tree, CHILD, ROOT, "a")
    ensures CanRename(MakeDir(Start(), CHILD, ROOT, "a").tree, CHILD, ROOT, "b")
  {
    StartAgrees();
    var u := MakeDir(Start(), CHILD, ROOT, "a").tree;
    assert u.dirs == map[CHILD := Dir(ROOT, "a")];
    assert !HasParent(u, ROOT) && !Above(u, CHILD, ROOT);
  }

  lemma LateEvents()
    ensures Late().queue == [Create(1, "a"), MovedFrom(1, 7, "a"), MovedTo(1, 7, "b")]
    ensures Late().tree.dirs == map[CHILD := Dir(ROOT, "b")]
    ensures Late().cache == map[1 := "r"] && Late().watches == map[ROOT := 1]
    ensures Path(Late().tree, ROOT) == "r" && Path(Late().tree, CHILD) == "r/b"
    ensures HasParent(Late().tree, CHILD) && !HasParent(Late().tree, ROOT)
    ensures Monitored(Late().tree, CHILD) && Monitored(Late().tree, ROOT)
  {
  }

  /** The creation leads nowhere, because the directory has its new name already. */
  lemma LateCreation(r: Option<World>)
    requires Consume(Late(), r)
    ensures r == Some(Late().(queue := [MovedFrom(1, 7, "a"), MovedTo(1, 7, "b")]))
  {
    LateEvents();
    var w := Late();
    forall d ensures !At(w.tree, d, "r/a") {}
    assert Join("r", "a") == "r/a" && "r/a" !in w.cache.Values;
    assert w.queue[1..] == [MovedFrom(1, 7, "a"), MovedTo(1, 7, "b")];
    assert HandleArrival(w.(queue := w.queue[1..]), 1, "a", r);
  }

  /** When the two events of the rename are taken together, nothing is rebuilt and r/b is never watched. */
  lemma LateRenameIsMissed(r: Option<World>, q: Option<World>)
    requires Consume(Late(), r) && (r.Some? ==> Consume(r.value, q))
    ensures r.Some? && q.Some? && q.value.queue == [] && q.value.tree == Late().tree
    ensures CHILD in Live(q.value.tree) && CHILD !in q.value.watches && !InSync(q.value)
  {
    LateEvents();
    LateCreation(r);
    assert r.value.queue[2..] == [];
  }

  lemma HasFirst(order: seq<int>)
    requires order != []
    ensures order[0] in order
  {
  }

  /** The zap of the old name finds nothing. */
  lemma LateZap(w: World, q: Option<World>)
    requires w == Late().(queue := [MovedFrom(1, 7, "a"), MovedTo(1, 7, "b")]) && Alone(w, q)
    ensures q == Some(w.(queue := [MovedTo(1, 7, "b")]))
  {
    LateEvents();
    var w1, path := w.(queue := w.queue[1..]), Join("r", "a");
    assert EntriesUnder(w.cache, path) == {};
    assert Without(w.watches, {}) == w.watches && w.cache - {} == w.cache;
    assert ZapSubtree(w1, path, q);
    var order :| Enumerates(order, {}) && q == Some(w1.(queue := w1.queue + Ignoreds(order)));
    if order != [] { HasFirst(order); }
    assert Ignoreds([]) == [] && w1.queue + [] == w1.queue == [MovedTo(1, 7, "b")];
  }

  /** When they are taken one by one, the second one leads to r/b, and the cache is exact. */
  lemma LateRenameIsFound(r: Option<World>, q: Option<World>, z: Option<World>)
    requires Consume(Late(), r) && (r.Some? ==> Alone(r.value, q)) && (q.Some? ==> Consume(q.value, z))
    ensures r.Some? && q.Some? && z.Some? && z.value.queue == [] && z.value.tree == Late().tree
    ensures CHILD in z.value.watches && InSync(z.value)
  {
    LateEvents();
    LateCreation(r);
    LateZap(r.value, q);
    LateHalf(q.value);
    assert Join("r", "b") == "r/b";
    ArrivalAgrees(Late(), CHILD, q.value, "r/b", 1, "b", 7, z);
    assert CHILD in Live(z.value.tree);
  }

  lemma LateHalf(w: World)
    requires w == Late().(queue := [MovedTo(1, 7, "b")])
    ensures HalfMoved(Late(), CHILD, w)
  {
    LateEvents();
    LateIsLegal();
    var t := Late().tree;
    MkdirWellFormed(Start().tree, CHILD, ROOT, "a");
    RenameWellFormed(MakeDir(Start(), CHILD, ROOT, "a").tree, CHILD, ROOT, "b");
    assert Live(t) == {ROOT, CHILD} && Subtree(t, CHILD) == {CHILD};
    forall wd ensures !Stale(w, wd) {
      if wd in w.cache { assert wd == w.watches[ROOT]; }
    }
  }
}
