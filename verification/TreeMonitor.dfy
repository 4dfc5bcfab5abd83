/**
 The program part of inotify_dtree.c: the slot table, the tree walk, and the handling of one event.
 Each method is tied to the map-level relations of `WatchModel`. The fields tree, watches, nextWd
 and queue are the kernel's side; the program changes them only through its system calls.
 */
module TreeMonitor {
  import opened PathStrings
  import opened DirTree
  import opened WatchModel
  import opened Basics

  /** A cache slot; wd is -1 when the slot is unused. */
  datatype Slot = Slot(wd: int, path: string)

  const ALLOC_INCR := 200

  ghost predicate ValidSlots(s: seq<Slot>) {
    && (forall i :: 0 <= i < |s| ==> s[i].wd >= -1 && (s[i].wd == -1 ==> s[i].path == ""))
    && (forall i, j :: 0 <= i < j < |s| && s[i].wd >= 0 ==> s[i].wd != s[j].wd)
  }

  /** The finite map that the slots stand for. */
  ghost function CacheOf(s: seq<Slot>): map<int, string> {
    if s == [] then map[]
    else
      var init, last := CacheOf(s[..|s| - 1]), s[|s| - 1];
      if last.wd >= 0 then init[last.wd := last.path] else init
  }

  lemma {:induction false} CacheAt(s: seq<Slot>, i: nat)
    requires ValidSlots(s) && i < |s| && s[i].wd >= 0
    ensures s[i].wd in CacheOf(s) && CacheOf(s)[s[i].wd] == s[i].path
    decreases |s|
  {
    if i == |s| - 1 {
    } else {
      CacheAt(s[..|s| - 1], i);
    }
  }

  lemma {:induction false} CacheHas(s: seq<Slot>, wd: int) returns (i: nat)
    requires ValidSlots(s) && wd in CacheOf(s)
    ensures i < |s| && s[i].wd == wd && wd >= 0 && CacheOf(s)[wd] == s[i].path
    decreases |s|
  {
    var last := s[|s| - 1];
    if last.wd == wd && wd >= 0 {
      i := |s| - 1;
    } else {
      i := CacheHas(s[..|s| - 1], wd);
    }
  }

  lemma EmptyMember(s: seq<Slot>, i: nat, wd: int)
    requires ValidSlots(s) && i < |s|
    ensures ValidSlots(s[i := Slot(-1, "")])
    ensures var t := s[i := Slot(-1, "")];
            && (wd in CacheOf(t) <==> wd in CacheOf(s) && wd != s[i].wd)
            && (wd in CacheOf(t) ==> CacheOf(t)[wd] == CacheOf(s)[wd])
  {
    var t := s[i := Slot(-1, "")];
    if wd in CacheOf(s) && wd != s[i].wd {
      var j := CacheHas(s, wd);
      CacheAt(t, j);
    }
    if wd in CacheOf(t) {
      var j := CacheHas(t, wd);
      CacheAt(s, j);
    }
  }

  /** Emptying a slot removes one entry. */
  lemma EmptyRemoves(s: seq<Slot>, i: nat)
    requires ValidSlots(s) && i < |s|
    ensures ValidSlots(s[i := Slot(-1, "")])
    ensures CacheOf(s[i := Slot(-1, "")]) == CacheOf(s) - {s[i].wd}
  {
    EmptyMember(s, i, 0);
    var m, n := CacheOf(s[i := Slot(-1, "")]), CacheOf(s) - {s[i].wd};
    forall wd ensures (wd in m <==> wd in n) && (wd in m ==> m[wd] == n[wd]) { EmptyMember(s, i, wd); }
  }

  lemma FillValid(s: seq<Slot>, i: nat, wd: int, path: string)
    requires ValidSlots(s) && i < |s| && wd >= 0 && wd !in CacheOf(s)
    ensures ValidSlots(s[i := Slot(wd, path)])
  {
    forall j | 0 <= j < |s| && s[j].wd >= 0 ensures s[j].wd != wd { CacheAt(s, j); }
  }

  /** Filling an empty slot adds one entry and disturbs no other: emptying it again undoes it. */
  lemma FillAdds(s: seq<Slot>, i: nat, wd: int, path: string)
    requires ValidSlots(s) && i < |s| && s[i].wd == -1 && wd >= 0 && wd !in CacheOf(s)
    ensures ValidSlots(s[i := Slot(wd, path)])
    ensures CacheOf(s[i := Slot(wd, path)]) == CacheOf(s)[wd := path]
  {
    var t := s[i := Slot(wd, path)];
    FillValid(s, i, wd, path);
    CacheAt(t, i);
    EmptyRemoves(t, i);
    assert t[i := Slot(-1, "")] == s;
    PutBack(CacheOf(t), CacheOf(s), wd, path);
  }

  lemma PutBack(m: map<int, string>, n: map<int, string>, wd: int, path: string)
    requires wd in m && m[wd] == path && n == m - {wd}
    ensures m == n[wd := path]
  {
  }

  lemma {:induction false} GrowKeeps(s: seq<Slot>, t: seq<Slot>)
    requires ValidSlots(s) && s <= t && forall i :: |s| <= i < |t| ==> t[i] == Slot(-1, "")
    ensures ValidSlots(t) && CacheOf(t) == CacheOf(s)
    decreases |t|
  {
    if |t| > |s| {
      GrowKeeps(s, t[..|t| - 1]);
    } else {
      assert t == s;
    }
  }

  lemma {:induction false} WalkAppend(w: World, order: seq<Id>, d: Id)
    ensures Walk(w, order + [d]) == Visit(Walk(w, order), d)
    decreases order
  {
    if order == [] {
      assert order + [d] == [d] && [d][1..] == [];
    } else {
      assert (order + [d])[1..] == order[1..] + [d];
      WalkAppend(Visit(w, order[0]), order[1..], d);
    }
  }

  lemma OneMore<T(!new)>(order: seq<T>, all: set<T>, todo: set<T>, d: T)
    requires Enumerates(order, all - todo) && d in todo && todo <= all
    ensures Enumerates(order + [d], all - (todo - {d})) && |todo - {d}| < |todo|
  {
  }

  lemma RebuiltBy(w: World, start: World, order: seq<Id>, u: World)
    requires start == w.(watches := map[], queue := [], cache := map[])
    requires Enumerates(order, Live(w.tree)) && u == Walk(start, order)
    ensures Rebuilt(w, u)
  {
  }

  ghost predicate NonNegative(watches: map<Id, int>) {
    forall d :: d in watches ==> watches[d] >= 0
  }

  /** The next slot under the path: its watch is removed, or the whole zap fails. */
  lemma ZapNext(w: World, s: seq<Slot>, j: nat, path: string, u: World)
    requires ValidSlots(s) && w.cache == CacheOf(s) && j < |s| && ZappedBy(w, UnderBefore(s, j, path), u)
    requires s[j].wd >= 0 && Under(path, s[j].path)
    ensures |UnderBefore(s, j + 1, path)| == |UnderBefore(s, j, path)| + 1
    ensures s[j].wd in u.watches.Values ==> ZappedBy(w, UnderBefore(s, j + 1, path), ZappedOne(u, s[j].wd))
    ensures s[j].wd !in u.watches.Values ==> WatchModel.ZapSubtree(w, path, None)
  {
    var wd, gone := s[j].wd, UnderBefore(s, j, path);
    ZapCount(s, j, path);
    var order :| Zapped(w, gone, order, u);
    WithoutOneMore(w.watches, gone, wd);
    ZapOneMore(w, gone, order, u, wd);
    assert wd in EntriesUnder(w.cache, path) by {
      UnderAll(s, path);
      UnderBeforeHas(s, |s|, path, wd);
    }
  }

  lemma ZapCount(s: seq<Slot>, j: nat, path: string)
    requires ValidSlots(s) && j < |s| && s[j].wd >= 0 && Under(path, s[j].path)
    ensures s[j].wd !in UnderBefore(s, j, path) && UnderBefore(s, j + 1, path) == UnderBefore(s, j, path) + {s[j].wd}
  {
    UnderBeforeHas(s, j, path, s[j].wd);
  }

  lemma ZapDone(w: World, s: seq<Slot>, path: string, u: World)
    requires ValidSlots(s) && w.cache == CacheOf(s) && ZappedBy(w, UnderBefore(s, |s|, path), u)
    ensures UnderBefore(s, |s|, path) == EntriesUnder(w.cache, path)
    ensures WatchModel.ZapSubtree(w, path, Some(u))
  {
    UnderAll(s, path);
    var order :| Zapped(w, UnderBefore(s, |s|, path), order, u);
  }

  /** Every monitored directory is in the subtree of one of the roots. */
  lemma {:induction false} AboveRoot(t: Tree, d: Id)
    ensures Above(t, RootOf(t, d), d)
    decreases Rank(t, d)
  {
    if !HasParent(t, d) {
    } else {
      AboveRoot(t, t.dirs[d].parent);
      AboveTransitive(t, RootOf(t, d), d);
    }
  }

  lemma AboveTransitive(t: Tree, a: Id, d: Id)
    requires HasParent(t, d) && Above(t, a, t.dirs[d].parent)
    ensures Above(t, a, d)
  {
  }

  lemma SubtreeIsLive(t: Tree, r: Id)
    requires WellFormed(t) && r in t.roots
    ensures Subtree(t, r) <= Live(t)
  {
    RootIsRoot(t, r);
    forall d | d in Subtree(t, r) ensures d in Live(t) { AboveIsMonitored(t, r, d); }
  }

  lemma RootsCover(t: Tree, covered: set<Id>)
    requires covered <= Live(t) && forall r :: r in t.roots ==> Subtree(t, r) <= covered
    ensures covered == Live(t)
  {
    forall d | d in Live(t) ensures d in covered {
      AboveRoot(t, d);
      assert d in Subtree(t, RootOf(t, d));
    }
  }

  // ----- Renaming and zapping, slot by slot -----

  /** Slot-wise rewriting is rewriting of the map; unused slots have no path to match. */
  lemma RewriteIsMap(s: seq<Slot>, t: seq<Slot>, from: string, to: string)
    requires ValidSlots(s) && |t| == |s| && from != ""
    requires forall i :: 0 <= i < |s| ==> t[i] == Slot(s[i].wd, Moved(from, to, s[i].path))
    ensures ValidSlots(t) && CacheOf(t) == RewritePaths(CacheOf(s), from, to)
  {
    var m, n := CacheOf(t), RewritePaths(CacheOf(s), from, to);
    forall wd ensures (wd in m <==> wd in n) && (wd in m ==> m[wd] == n[wd]) {
      if wd in n {
        var i := CacheHas(s, wd);
        CacheAt(t, i);
      }
      if wd in m {
        var i := CacheHas(t, wd);
        CacheAt(s, i);
      }
    }
  }

  lemma WithoutOneMore(m: map<Id, int>, s: set<int>, wd: int)
    ensures Without(Without(m, s), {wd}) == Without(m, s + {wd})
    ensures wd !in s ==> (wd in Without(m, s).Values <==> wd in m.Values)
  {
    if wd !in s && wd in m.Values {
      var d :| d in m && m[d] == wd;
      assert d in Without(m, s) && Without(m, s)[d] == wd;
    }
  }

  lemma IgnoredsAppend(order: seq<int>, wd: int)
    ensures Ignoreds(order + [wd]) == Ignoreds(order) + [Ignored(wd)]
  {
  }

  /** The descriptors under the path among the first j slots. */
  ghost function UnderBefore(s: seq<Slot>, j: nat, path: string): set<int>
    requires j <= |s|
  {
    if j == 0 then {}
    else UnderBefore(s, j - 1, path) + if s[j - 1].wd >= 0 && Under(path, s[j - 1].path) then {s[j - 1].wd} else {}
  }

  lemma {:induction false} UnderBeforeHas(s: seq<Slot>, j: nat, path: string, wd: int)
    requires j <= |s|
    ensures wd in UnderBefore(s, j, path) <==> exists i :: 0 <= i < j && s[i].wd == wd >= 0 && Under(path, s[i].path)
  {
    if j == 0 {
    } else {
      UnderBeforeHas(s, j - 1, path, wd);
    }
  }

  lemma UnderAll(s: seq<Slot>, path: string)
    requires ValidSlots(s)
    ensures UnderBefore(s, |s|, path) == EntriesUnder(CacheOf(s), path)
  {
    forall wd ensures wd in UnderBefore(s, |s|, path) <==> wd in EntriesUnder(CacheOf(s), path) {
      UnderBeforeHas(s, |s|, path, wd);
      if wd in CacheOf(s) {
        var i := CacheHas(s, wd);
      }
      if i :| 0 <= i < |s| && s[i].wd == wd >= 0 && Under(path, s[i].path) {
        CacheAt(s, i);
      }
    }
  }

  /** u is w after the entries in `gone` have been zapped in the given order. */
  ghost predicate Zapped(w: World, gone: set<int>, order: seq<int>, u: World) {
    && Enumerates(order, gone)
    && u == w.(cache := w.cache - gone, watches := Without(w.watches, gone), queue := w.queue + Ignoreds(order))
  }

  ghost predicate ZappedBy(w: World, gone: set<int>, u: World) {
    gone <= w.watches.Values && exists order :: Zapped(w, gone, order, u)
  }

  lemma ZapNothing(w: World)
    ensures ZappedBy(w, {}, w)
  {
    assert w.cache - {} == w.cache && Without(w.watches, {}) == w.watches && w.queue + Ignoreds([]) == w.queue;
    assert Zapped(w, {}, [], w);
  }

  ghost function ZappedOne(u: World, wd: int): World {
    u.(cache := u.cache - {wd}, watches := Without(u.watches, {wd}), queue := u.queue + [Ignored(wd)])
  }

  lemma ZapOneMore(w: World, gone: set<int>, order: seq<int>, u: World, wd: int)
    requires Zapped(w, gone, order, u)
    ensures Zapped(w, gone + {wd}, order + [wd], ZappedOne(u, wd))
  {
    WithoutOneMore(w.watches, gone, wd);
    IgnoredsAppend(order, wd);
    assert w.cache - gone - {wd} == w.cache - (gone + {wd});
    assert w.queue + Ignoreds(order) + [Ignored(wd)] == w.queue + (Ignoreds(order) + [Ignored(wd)]);
  }

  /** How much of the buffer one call of processNextInotifyEvent uses up. */
  datatype Outcome = Consumed(events: nat) | Rebuild | Hanging

  /** What the call must have done, given the event and the one after it in the buffer, if any. */
  ghost predicate Handled(w: World, e: Event, next: Option<Event>, r: Option<World>) {
    if next.Some? && Pairs(e, next.value) then HandlePair(w, e, next.value, r) else HandleOne(w, e, r)
  }

  /**
   When the program must start over: after an overflow, for an event of an unknown watch, for a rename into a
   directory whose watch is unknown, and when an entry that has to be removed has no watch any more.
   */
  ghost predicate MustRebuild(w: World, e: Event, next: Option<Event>, firstTry: bool) {
    || e.Overflow?
    || (!e.Ignored? && e.wd !in w.cache)
    || (e.MovedFrom? &&
        if next.Some? && next.value.MovedTo? && next.value.cookie == e.cookie then next.value.wd !in w.cache
        else (next.Some? || !firstTry) && exists wd ::
               wd in w.cache && Under(Join(w.cache[e.wd], e.name), w.cache[wd]) && wd !in w.watches.Values)
  }

  lemma RebuildIffMust(w: World, e: Event, next: Option<Event>, firstTry: bool, r: Option<World>)
    requires Handled(w, e, next, r)
    requires e.MovedFrom? && e.wd in w.cache ==> next.Some? || !firstTry
    ensures r == None <==> MustRebuild(w, e, next, firstTry)
  {
    if e.MovedFrom? && e.wd in w.cache && !(next.Some? && Pairs(e, next.value)) {
      ZapFailsIff(w, Join(w.cache[e.wd], e.name), r);
    }
  }

  lemma ZapFailsIff(w: World, path: string, r: Option<World>)
    requires WatchModel.ZapSubtree(w, path, r)
    ensures r == None <==> exists wd :: wd in w.cache && Under(path, w.cache[wd]) && wd !in w.watches.Values
  {
    var s := EntriesUnder(w.cache, path);
    if forall wd :: wd in w.cache && Under(path, w.cache[wd]) ==> wd in w.watches.Values {
      assert s <= w.watches.Values;
    } else {
      var wd :| wd in w.cache && Under(path, w.cache[wd]) && wd !in w.watches.Values;
      assert wd in s;
    }
  }

  class Monitor {
    var slots: seq<Slot>
    var tree: Tree
    var watches: map<Id, int>
    var nextWd: int
    var queue: seq<Event>

    ghost predicate Valid()
      reads this
    {
      ValidSlots(slots) && WellFormed(tree) && 0 <= nextWd && NonNegative(watches)
    }

    ghost function State(): World
      reads this
      requires ValidSlots(slots)
    {
      World(tree, watches, nextWd, queue, CacheOf(slots))
    }

    /** All but the cache, which others neither see nor change. */
    function Outside(): World
      reads this
    {
      World(tree, watches, nextWd, queue, map[])
    }

    /** What other processes do, and the kernel with them: the tree, the watches and the queue become those of w. */
    method Meet(w: World)
      requires Valid() && WellFormed(w.tree) && NonNegative(w.watches)
      modifies this`tree, this`watches, this`queue
      ensures Valid() && State() == old(State()).(tree := w.tree, watches := w.watches, queue := w.queue)
    {
      tree, watches, queue := w.tree, w.watches, w.queue;
    }

    /** The program starts by building its cache. */
    constructor (t: Tree)
      requires WellFormed(t)
      ensures Valid() && tree == t && queue == [] && InSync(State())
    {
      slots, tree, watches, nextWd, queue := [], t, map[], 1, [];
      new;
      ghost var w := State();
      Reinitialize();
      RebuildAgrees(w, State());
    }

    // ----- The slot table -----

    method FindWatch(wd: int) returns (slot: int)
      requires ValidSlots(slots) && wd >= 0
      ensures slot == -1 <==> wd !in CacheOf(slots)
      ensures slot != -1 ==> 0 <= slot < |slots| && slots[slot].wd == wd && CacheOf(slots)[wd] == slots[slot].path
    {
      for j := 0 to |slots|
        invariant forall i :: 0 <= i < j ==> slots[i].wd != wd
      {
        if slots[j].wd == wd {
          CacheAt(slots, j);
          return j;
        }
      }
      if wd in CacheOf(slots) {
        ghost var _ := CacheHas(slots, wd);
      }
      return -1;
    }

    method MarkSlotEmpty(slot: nat)
      requires ValidSlots(slots) && slot < |slots|
      modifies this`slots
      ensures slots == old(slots)[slot := Slot(-1, "")]
      ensures ValidSlots(slots) && CacheOf(slots) == CacheOf(old(slots)) - {old(slots)[slot].wd}
    {
      EmptyRemoves(slots, slot);
      slots := slots[slot := Slot(-1, "")];
    }

    method FindEmptySlot() returns (slot: nat)
      requires ValidSlots(slots)
      modifies this`slots
      ensures old(slots) <= slots && slot < |slots| && slots[slot].wd == -1
      ensures ValidSlots(slots) && CacheOf(slots) == CacheOf(old(slots))
    {
      for j := 0 to |slots|
        invariant forall i :: 0 <= i < j ==> slots[i].wd != -1
      {
        if slots[j].wd == -1 {
          return j;
        }
      }
      var more := seq(ALLOC_INCR, _ => Slot(-1, ""));
      GrowKeeps(slots, slots + more);
      slots := slots + more;
      slot := |slots| - ALLOC_INCR;
    }

    method AddWatchToCache(wd: int, path: string) returns (slot: nat)
      requires ValidSlots(slots) && wd >= 0 && wd !in CacheOf(slots)
      modifies this`slots
      ensures ValidSlots(slots) && CacheOf(slots) == CacheOf(old(slots))[wd := path]
      ensures slot < |slots| && slots[slot] == Slot(wd, path)
    {
      slot := FindEmptySlot();
      FillAdds(slots, slot, wd, path);
      slots := slots[slot := Slot(wd, path)];
    }

    method PathnameToSlot(path: string) returns (slot: int)
      requires ValidSlots(slots)
      ensures slot == -1 <==> path !in CacheOf(slots).Values
      ensures slot != -1 ==> 0 <= slot < |slots| && slots[slot].wd >= 0 && slots[slot].path == path
    {
      for j := 0 to |slots|
        invariant forall i :: 0 <= i < j && slots[i].wd >= 0 ==> slots[i].path != path
      {
        if slots[j].wd >= 0 && slots[j].path == path {
          CacheAt(slots, j);
          assert slots[j].wd in CacheOf(slots) && CacheOf(slots)[slots[j].wd] == path;
          return j;
        }
      }
      forall wd | wd in CacheOf(slots) ensures CacheOf(slots)[wd] != path {
        ghost var _ := CacheHas(slots, wd);
      }
      return -1;
    }

    // ----- Renames and removals -----

    method RewriteCachedPaths(oldPrefix: string, oldName: string, newPrefix: string, newName: string)
      requires ValidSlots(slots)
      modifies this`slots
      ensures ValidSlots(slots)
      ensures CacheOf(slots) == RewritePaths(CacheOf(old(slots)), Join(oldPrefix, oldName), Join(newPrefix, newName))
    {
      var from, to := Join(oldPrefix, oldName), Join(newPrefix, newName);
      for j := 0 to |slots|
        invariant |slots| == |old(slots)|
        invariant forall i :: 0 <= i < j ==> slots[i] == Slot(old(slots)[i].wd, Moved(from, to, old(slots)[i].path))
        invariant forall i :: j <= i < |slots| ==> slots[i] == old(slots)[i]
      {
        if Under(from, slots[j].path) {
          slots := slots[j := Slot(slots[j].wd, to + slots[j].path[|from|..])];
        }
      }
      RewriteIsMap(old(slots), slots, from, to);
    }

    /** inotify_rm_watch: fails when the descriptor has no watch. */
    method RmWatch(wd: int) returns (ok: bool)
      modifies this`watches, this`queue
      ensures ok == (wd in old(watches).Values)
      ensures ok ==> watches == Without(old(watches), {wd}) && queue == old(queue) + [Ignored(wd)]
      ensures !ok ==> watches == old(watches) && queue == old(queue)
    {
      ok := wd in watches.Values;
      if ok {
        watches, queue := Without(watches, {wd}), queue + [Ignored(wd)];
      }
    }

    /** The watch of slot j is removed and the slot emptied. */
    method ZapSlot(j: nat) returns (ok: bool)
      requires ValidSlots(slots) && NonNegative(watches) && j < |slots|
      modifies this`slots, this`watches, this`queue
      ensures ValidSlots(slots) && NonNegative(watches)
      ensures ok == (old(slots)[j].wd in old(watches).Values)
      ensures ok ==> slots == old(slots)[j := Slot(-1, "")]
      ensures ok ==> State() == ZappedOne(old(State()), old(slots)[j].wd)
    {
      ok := RmWatch(slots[j].wd);
      if ok {
        MarkSlotEmpty(j);
      }
    }

    /** One turn of the loop in zapSubtree: slot j goes if its path is under the given one. */
    method ZapIfUnder(j: nat, path: string, ghost w: World, ghost s: seq<Slot>) returns (ok: bool, zapped: bool)
      requires ValidSlots(slots) && NonNegative(watches) && j < |slots| == |s| && slots[j] == s[j]
      requires ValidSlots(s) && w.cache == CacheOf(s) && ZappedBy(w, UnderBefore(s, j, path), State())
      modifies this`slots, this`watches, this`queue
      ensures ValidSlots(slots) && NonNegative(watches)
      ensures ok ==> |slots| == |s| && slots[j + 1..] == old(slots)[j + 1..]
      ensures ok ==> ZappedBy(w, UnderBefore(s, j + 1, path), State())
      ensures |UnderBefore(s, j + 1, path)| == |UnderBefore(s, j, path)| + if zapped then 1 else 0
      ensures !ok ==> WatchModel.ZapSubtree(w, path, None)
    {
      ok, zapped := true, slots[j].wd >= 0 && Under(path, slots[j].path);
      if zapped {
        ghost var u := State();
        ZapNext(w, s, j, path, u);
        ok := ZapSlot(j);
        assert ok ==> State() == ZappedOne(u, s[j].wd);
      } else {
        assert UnderBefore(s, j + 1, path) == UnderBefore(s, j, path);
      }
    }

    method ZapSubtree(path: string) returns (cnt: int)
      requires Valid()
      modifies this`slots, this`watches, this`queue
      ensures Valid()
      ensures cnt >= -1
      ensures cnt >= 0 ==> cnt == |EntriesUnder(old(State()).cache, path)|
      ensures cnt >= 0 ==> WatchModel.ZapSubtree(old(State()), path, Some(State()))
      ensures cnt < 0 ==> WatchModel.ZapSubtree(old(State()), path, None)
    {
      cnt := 0;
      ghost var w, s := State(), slots;
      ZapNothing(w);
      assert UnderBefore(s, 0, path) == {};
      for j := 0 to |slots|
        invariant |slots| == |s| && ValidSlots(slots) && NonNegative(watches)
        invariant ZappedBy(w, UnderBefore(s, j, path), State()) && cnt == |UnderBefore(s, j, path)|
        invariant slots[j..] == s[j..]
      {
        assert slots[j] == slots[j..][0] == s[j..][0] == s[j];
        assert slots[j + 1..] == slots[j..][1..] == s[j + 1..];
        var ok, zapped := ZapIfUnder(j, path, w, s);
        if !ok {
          return -1;
        }
        cnt := if zapped then cnt + 1 else cnt;
      }
      ZapDone(w, s, path, State());
    }

    // ----- Walking -----

    /** inotify_add_watch: an inode that is watched keeps its descriptor. */
    method AddWatch(d: Id) returns (wd: int)
      modifies this`watches, this`nextWd
      ensures d in watches && wd == watches[d]
      ensures d in old(watches) ==> watches == old(watches) && nextWd == old(nextWd)
      ensures d !in old(watches) ==> watches == old(watches)[d := old(nextWd)] && nextWd == old(nextWd) + 1
    {
      if d !in watches {
        watches, nextWd := watches[d := nextWd], nextWd + 1;
      }
      wd := watches[d];
    }

    method TraverseTree(d: Id) returns (added: bool)
      requires Valid()
      modifies this`slots, this`watches, this`nextWd
      ensures Valid() && State() == Visit(old(State()), d)
      ensures |State().cache| == |old(State()).cache| + if added then 1 else 0
    {
      var wd := AddWatch(d);
      var slot := FindWatch(wd);
      if slot >= 0 {
        return false;
      }
      var _ := AddWatchToCache(wd, Path(tree, d));
      added := true;
    }

    /** nftw visits the directories of a subtree in some order. */
    /** One call of traverseTree by nftw; dirCnt counts the entries that were added. */
    method WalkOne(d: Id, dirCnt: nat, ghost start: World, ghost before: seq<Id>, ghost order: seq<Id>)
      returns (dirCnt': nat)
      requires Valid() && State() == Walk(start, before + order)
      modifies this`slots, this`watches, this`nextWd
      ensures Valid() && State() == Walk(start, before + (order + [d]))
      ensures dirCnt' - dirCnt == |State().cache| - |old(State()).cache|
    {
      WalkAppend(start, before + order, d);
      assert before + (order + [d]) == before + order + [d];
      var added := TraverseTree(d);
      dirCnt' := if added then dirCnt + 1 else dirCnt;
    }

    method WalkTree(root: Id, ghost start: World, ghost before: seq<Id>) returns (cnt: nat, ghost order: seq<Id>)
      requires Valid() && State() == Walk(start, before)
      modifies this`slots, this`watches, this`nextWd
      ensures Valid() && Enumerates(order, Subtree(tree, root)) && State() == Walk(start, before + order)
      ensures cnt == |State().cache| - |old(State()).cache|
    {
      cnt, order := 0, [];
      var todo := Subtree(tree, root);
      assert before + [] == before;
      while todo != {}
        invariant Valid() && todo <= Subtree(tree, root)
        invariant Enumerates(order, Subtree(tree, root) - todo)
        invariant State() == Walk(start, before + order) && cnt == |State().cache| - |old(State()).cache|
        decreases |todo|
      {
        var d :| d in todo;
        cnt := WalkOne(d, cnt, start, before, order);
        OneMore(order, Subtree(tree, root), todo, d);
        todo, order := todo - {d}, order + [d];
      }
    }

    /** watchDir: the path is looked up when the walk starts; it may be gone by then. */
    method WatchDir(path: string) returns (cnt: nat)
      requires Valid()
      modifies this`slots, this`watches, this`nextWd
      ensures Valid() && WatchSubtree(old(State()), path, State())
      ensures cnt == |State().cache| - |old(State()).cache|
    {
      var found := set d | d in Ids(tree) && Monitored(tree, d) && Path(tree, d) == path;
      if found == {} {
        forall d ensures !At(tree, d, path) {
          assert d !in found;
        }
        return 0;
      }
      var root :| root in found;
      assert At(tree, root, path);
      ghost var w, order := State(), [];
      cnt, order := WalkTree(root, w, []);
      assert [] + order == order;
      assert Walked(w, root, order, State());
    }

    /** A new inotify descriptor has no watches and no events; the cache is built from the roots. */
    method Reinitialize()
      requires Valid()
      modifies this`slots, this`watches, this`nextWd, this`queue
      ensures Valid() && Rebuilt(old(State()), State())
    {
      slots, watches, queue := [], map[], [];
      ghost var start := State();
      ghost var order := WalkRoots();
      RebuiltBy(old(State()), start, order, State());
    }

    /** Every root's subtree is walked. */
    method WalkRoots() returns (ghost order: seq<Id>)
      requires Valid() && queue == []
      modifies this`slots, this`watches, this`nextWd
      ensures Valid() && Enumerates(order, Live(tree)) && State() == Walk(old(State()), order)
    {
      ghost var start, covered := State(), {};
      order := [];
      var todo := tree.roots.Keys;
      while todo != {}
        invariant Valid() && todo <= tree.roots.Keys && queue == []
        invariant State() == Walk(start, order) && Enumerates(order, covered) && covered <= Live(tree)
        invariant forall r :: r in tree.roots && r !in todo ==> Subtree(tree, r) <= covered
        decreases |todo|
      {
        var r :| r in todo;
        SubtreeIsLive(tree, r);
        var _, more := WalkTree(r, start, order);
        todo, order, covered := todo - {r}, order + more, covered + Subtree(tree, r);
      }
      RootsCover(tree, covered);
    }

    /**
     processNextInotifyEvent. A rename out of the trees is recognised only when another event follows
     or this is the second try; otherwise the caller is asked to read more.
     */
    method HandleEvent(e: Event, next: Option<Event>, firstTry: bool) returns (res: Outcome)
      requires Valid() && (!e.Overflow? ==> e.wd >= 0) && (next.Some? && !next.value.Overflow? ==> next.value.wd >= 0)
      modifies this`slots, this`watches, this`nextWd, this`queue
      ensures Valid()
      ensures res == Hanging <==> e.MovedFrom? && e.wd in old(State()).cache && next.None? && firstTry
      ensures res == Hanging ==> State() == old(State())
      ensures res.Consumed? ==> Handled(old(State()), e, next, Some(State()))
      ensures res.Consumed? ==> res.events == if next.Some? && Pairs(e, next.value) then 2 else 1
      ensures res == Rebuild ==> Handled(old(State()), e, next, None) && Rebuilt(old(State()), State())
    {
      var slot := -1;
      if !e.Overflow? && !e.Ignored? {
        slot := FindWatch(e.wd);
        if slot == -1 {
          Reinitialize();
          return Rebuild;
        }
      }
      match e
      case Ignored(_) =>
        res := Consumed(1);
      case FileEvent(_) =>
        res := Consumed(1);
      case Overflow =>
        Reinitialize();
        res := Rebuild;
      case DeleteSelf(_) =>
        MarkSlotEmpty(slot);
        res := Consumed(1);
      case MovedFrom(_, cookie, name) =>
        res := ProcessMovedFrom(e, next, firstTry, slot);
      case _ =>
        ProcessArrival(e, slot);
        res := Consumed(1);
    }

    /** processNextInotifyEvent: one event, or the two of a rename, is handled, or everything is built anew. */
    method ProcessNextEvent(e: Event, next: Option<Event>, firstTry: bool) returns (res: Outcome)
      requires Valid() && (!e.Overflow? ==> e.wd >= 0) && (next.Some? && !next.value.Overflow? ==> next.value.wd >= 0)
      modifies this`slots, this`watches, this`nextWd, this`queue
      ensures Valid()
      ensures res == Hanging <==> e.MovedFrom? && e.wd in old(State()).cache && next.None? && firstTry
      ensures res == Hanging ==> State() == old(State())
      ensures res.Consumed? ==> Handled(old(State()), e, next, Some(State()))
      ensures res.Consumed? ==>
                res.events == if && next.Some? && e.MovedFrom? && next.value.MovedTo?
                                 && next.value.cookie == e.cookie then 2 else 1
      ensures res == Rebuild ==> Handled(old(State()), e, next, None) && Rebuilt(old(State()), State())
      ensures res == Rebuild <==> MustRebuild(old(State()), e, next, firstTry)
      ensures res == Rebuild ==> InSync(State()) && queue == []
    {
      ghost var w := State();
      res := HandleEvent(e, next, firstTry);
      if res != Hanging {
        RebuildIffMust(w, e, next, firstTry, if res == Rebuild then None else Some(State()));
      }
      if res == Rebuild {
        RebuildAgrees(w, State());
      }
    }

    method ProcessArrival(e: Event, slot: nat)
      requires Valid() && (e.Create? || e.MovedTo?) && slot < |slots| && slots[slot].wd == e.wd >= 0
      modifies this`slots, this`watches, this`nextWd
      ensures Valid() && HandleOne(old(State()), e, Some(State()))
    {
      CacheAt(slots, slot);
      var path := Join(slots[slot].path, e.name);
      var cached := PathnameToSlot(path);
      if cached == -1 {
        var _ := WatchDir(path);
      }
    }

    method ProcessMovedFrom(e: Event, next: Option<Event>, firstTry: bool, slot: nat) returns (res: Outcome)
      requires Valid() && e.MovedFrom? && slot < |slots| && slots[slot].wd == e.wd >= 0
      requires next.Some? && !next.value.Overflow? ==> next.value.wd >= 0
      modifies this`slots, this`watches, this`nextWd, this`queue
      ensures Valid()
      ensures res == Hanging <==> next.None? && firstTry
      ensures res == Hanging ==> State() == old(State())
      ensures res.Consumed? ==> Handled(old(State()), e, next, Some(State()))
      ensures res.Consumed? ==>
                res.events == if next.Some? && next.value.MovedTo? && next.value.cookie == e.cookie then 2 else 1
      ensures res == Rebuild ==> Handled(old(State()), e, next, None) && Rebuilt(old(State()), State())
    {
      CacheAt(slots, slot);
      if next.Some? && Pairs(e, next.value) {
        var to := FindWatch(next.value.wd);
        if to == -1 {
          Reinitialize();
          return Rebuild;
        }
        RewriteCachedPaths(slots[slot].path, e.name, slots[to].path, next.value.name);
        res := Consumed(2);
      } else if next.Some? || !firstTry {
        var cnt := ZapSubtree(Join(slots[slot].path, e.name));
        if cnt == -1 {
          Reinitialize();
          return Rebuild;
        }
        res := Consumed(1);
      } else {
        res := Hanging;
      }
    }
  }
}
