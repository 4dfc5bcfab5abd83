/**
 Exactly when inotify_dtree.c follows a rename that replaces an empty directory, and an input on which
 it does not.
 */
module ReplacementOutcomes {
  import opened PathStrings
  import opened DirTree
  import opened WatchModel
  import opened Basics
  import opened CacheInterleaving
  import opened CacheReplacements
  import opened MaskedArrivals

  lemma {:induction false} DrainKeepsInv(ws: seq<World>, i: nat)
    requires Drained(ws) && 0 < i < |ws| && Inv(ws[1])
    ensures Inv(ws[i]) && !Consume(ws[i], None)
  {
    if i <= 1 {
    } else {
      DrainKeepsInv(ws, i - 1);
      ConsumeKeepsInv(ws[i - 1], Some(ws[i]));
    }
    if Consume(ws[i], None) {
      ConsumeKeepsInv(ws[i], None);
    }
  }

  lemma ReplacementDrains(v: World, d: Id, e: Id, p: Id, n: string, cookie: int, ws: seq<World>)
    requires Drained(ws) && JustReplaced(v, d, e, p, n, cookie, ws[0]) && (d in v.watches || p !in v.watches)
    ensures InSync(ws[|ws| - 1])
    ensures forall i :: 0 <= i < |ws| ==> !Consume(ws[i], None)
  {
    if |ws| == 1 {
      QuietReplacement(v, d, e, p, n, cookie, ws[0]);
    } else {
      ReplacementIsFollowed(v, d, e, p, n, cookie, ws[0], Some(ws[1]));
      if Consume(ws[0], None) {
        ReplacementIsFollowed(v, d, e, p, n, cookie, ws[0], None);
      }
      forall i | 0 < i < |ws| ensures Inv(ws[i]) && !Consume(ws[i], None) { DrainKeepsInv(ws, i); }
      QuietAgrees(ws[|ws| - 1]);
    }
  }

  /**
   A replacing rename that is handled at once, its two events together, never asks for a rebuild. The
   cache agrees with the tree afterwards exactly when the moved directory was monitored or its new parent
   is not.
   */
  lemma ReplacementAgreesIff(v: World, d: Id, e: Id, p: Id, n: string, cookie: int, ws: seq<World>)
    requires Drained(ws) && JustReplaced(v, d, e, p, n, cookie, ws[0])
    ensures InSync(ws[|ws| - 1]) <==> d in v.watches || p !in v.watches
    ensures forall i :: 0 <= i < |ws| ==> !Consume(ws[i], None)
  {
    if d in v.watches || p !in v.watches {
      ReplacementDrains(v, d, e, p, n, cookie, ws);
    } else {
      ReplacementIsLost(v, d, e, p, n, cookie, ws);
    }
  }

  // ----- An input on which it fails -----

  const ROOT := Inode(0)
  const OLD := Inode(1)
  const ELSEWHERE := Inode(2)
  const ARRIVING := Inode(3)

  /** r and the empty directory r/a are watched; x is a directory somewhere else. */
  function Before(): World {
    World(Tree(map[OLD := Dir(ROOT, "a"), ARRIVING := Dir(ELSEWHERE, "x")], map[ROOT := "r"], {ELSEWHERE},
               map[OLD := 1, ARRIVING := 1]),
          map[ROOT := 1, OLD := 2], 3, [], map[1 := "r", 2 := "r/a"])
  }

  lemma BeforeIsWellFormed()
    ensures WellFormed(Before().tree)
  {
    var t := Before().tree;
    assert Sound(t, OLD) && Sound(t, ARRIVING);
    assert RootOf(t, ROOT) == ROOT && RootOf(t, ELSEWHERE) == ELSEWHERE;
  }

  lemma BeforePaths()
    ensures Live(Before().tree) == {ROOT, OLD}
    ensures Path(Before().tree, ROOT) == "r" && Path(Before().tree, OLD) == "r/a"
  {
    var t := Before().tree;
    assert RootOf(t, ROOT) == ROOT && RootOf(t, ELSEWHERE) == ELSEWHERE;
    assert RootOf(t, OLD) == ROOT && RootOf(t, ARRIVING) == ELSEWHERE;
    assert Join("r", "a") == "r/a";
  }

  lemma BeforeIsReplaceable()
    ensures CanReplace(Before().tree, ARRIVING, OLD, ROOT, "a")
  {
    var u := Rmdir(Before().tree, OLD);
    assert u.dirs == map[ARRIVING := Dir(ELSEWHERE, "x")];
    assert !HasParent(u, ROOT) && !Above(u, ARRIVING, ROOT);
  }

  lemma BeforeTree()
    ensures WellFormed(Before().tree) && Live(Before().tree) == {ROOT, OLD}
    ensures Path(Before().tree, ROOT) == "r" && Path(Before().tree, OLD) == "r/a"
    ensures CanReplace(Before().tree, ARRIVING, OLD, ROOT, "a")
  {
    BeforeIsWellFormed();
    BeforePaths();
    BeforeIsReplaceable();
  }

  lemma BeforeIsAligned()
    ensures Aligned(Before()) && forall wd :: !Stale(Before(), wd)
  {
    BeforePaths();
    var w := Before();
    assert w.watches[ROOT] == 1 && w.watches[OLD] == 2;
    forall wd | wd in w.cache ensures !Stale(w, wd) { assert wd == w.watches[ROOT] || wd == w.watches[OLD]; }
  }

  lemma BeforeAgrees()
    ensures InSync(Before())
  {
    BeforeIsWellFormed();
    assert Before().watches.Keys == Live(Before().tree) by { BeforePaths(); }
    BeforeIsAligned();
  }

  /** x is renamed onto r/a: the kernel queues these three events. */
  function Renamed(): World {
    ReplaceDir(Before(), ARRIVING, OLD, ROOT, "a", 7)
  }

  lemma RenamedEvents()
    ensures Renamed().queue == [MovedTo(1, 7, "a"), DeleteSelf(2), Ignored(2)]
    ensures Renamed().cache == map[1 := "r", 2 := "r/a"] && Path(Renamed().tree, ARRIVING) == "r/a"
  {
    var v := Before();
    BeforeTree();
    BeforeAgrees();
    MaskedArrives(v, ARRIVING, OLD, ROOT, "a", 7, Renamed());
    RmdirWellFormed(v.tree, OLD);
    RenameAt(Rmdir(v.tree, OLD), ARRIVING, ROOT, "a", ARRIVING);
    RmdirSame(v.tree, OLD, ROOT);
  }

  lemma RenamedDrains(w: World) returns (ws: seq<World>)
    requires w.queue == [MovedTo(1, 7, "a"), DeleteSelf(2), Ignored(2)] && w.cache == map[1 := "r", 2 := "r/a"]
    ensures Drained(ws) && ws[0] == w && ws[|ws| - 1].tree == w.tree
  {
    var w1 := w.(queue := [DeleteSelf(2), Ignored(2)]);
    var w2 := w1.(queue := [Ignored(2)], cache := w1.cache - {2});
    var w3 := w2.(queue := []);
    assert w.queue[1..] == w1.queue && w1.queue[1..] == w2.queue && w2.queue[1..] == w3.queue;
    assert w.cache[2] in w.cache.Values && Join("r", "a") == "r/a";
    ws := [w, w1, w2, w3];
  }

  /** Handling them leaves x at r/a, live and not watched. */
  lemma ReplacementIsMissed() returns (ws: seq<World>)
    ensures InSync(Before()) && CanReplace(Before().tree, ARRIVING, OLD, ROOT, "a")
    ensures Drained(ws) && ws[0] == Renamed()
    ensures Lost(ws[|ws| - 1], ARRIVING) && ws[|ws| - 1].tree == Renamed().tree
  {
    BeforeTree();
    BeforeAgrees();
    RenamedEvents();
    ws := RenamedDrains(Renamed());
    ReplacementIsLost(Before(), ARRIVING, OLD, ROOT, "a", 7, ws);
  }
}
