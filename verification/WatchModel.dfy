/**
 The state around inotify_dtree.c: the directory tree, the kernel's watches and event queue, and the
 program's cache as a map from watch descriptors to pathnames. The relations say what handling one
 event (or one rename pair) does; `TreeMonitor` shows that the slot-table code does just that.
 Watch descriptors are never reused, and one nftw walk is a single step.
 */
module WatchModel {
  import opened PathStrings
  import opened DirTree
  import opened Basics

  /** Events about directories; FileEvent stands for any event about a nondirectory entry. */
  datatype Event =
    | Create(wd: int, name: string)
    | MovedFrom(wd: int, cookie: int, name: string)
    | MovedTo(wd: int, cookie: int, name: string)
    | DeleteSelf(wd: int)
    | Ignored(wd: int)
    | FileEvent(wd: int)
    | Overflow

  datatype World = World(tree: Tree, watches: map<Id, int>, nextWd: int, queue: seq<Event>, cache: map<int, string>)

  // ----- Walking a subtree -----

  /** One call of traverseTree: add a watch, and a cache entry unless the descriptor has one. */
  function Visit(w: World, d: Id): World {
    var wd := if d in w.watches then w.watches[d] else w.nextWd;
    var k := if d in w.watches then w else w.(watches := w.watches[d := wd], nextWd := w.nextWd + 1);
    if wd in k.cache then k else k.(cache := k.cache[wd := Path(w.tree, d)])
  }

  function Walk(w: World, order: seq<Id>): World
    decreases order
  {
    if order == [] then w else Walk(Visit(w, order[0]), order[1..])
  }

  ghost predicate Enumerates<T(!new)>(order: seq<T>, s: set<T>) {
    forall x :: x in order <==> x in s
  }

  ghost predicate At(t: Tree, d: Id, path: string) {
    Monitored(t, d) && Path(t, d) == path
  }

  ghost predicate Walked(w: World, d: Id, order: seq<Id>, w': World) {
    Enumerates(order, Subtree(w.tree, d)) && w' == Walk(w, order)
  }

  /** watchSubtree: nftw finds nothing when the directory is gone. */
  ghost predicate WatchSubtree(w: World, path: string, w': World) {
    if exists d :: At(w.tree, d, path)
    then exists d, order :: At(w.tree, d, path) && Walked(w, d, order, w')
    else w' == w
  }

  // ----- Handling events; None means that the cache has to be rebuilt -----

  function EntriesUnder(cache: map<int, string>, path: string): set<int> {
    set wd | wd in cache && Under(path, cache[wd])
  }

  function Ignoreds(wds: seq<int>): seq<Event> {
    seq(|wds|, i requires 0 <= i < |wds| => Ignored(wds[i]))
  }

  function Without(watches: map<Id, int>, wds: set<int>): map<Id, int> {
    map d | d in watches && watches[d] !in wds :: watches[d]
  }

  /** zapSubtree: every entry under the path goes, with its watch; a failing removal forces a rebuild. */
  ghost predicate ZapSubtree(w: World, path: string, r: Option<World>) {
    var s := EntriesUnder(w.cache, path);
    if s <= w.watches.Values
    then exists order :: Enumerates(order, s) &&
           r == Some(w.(cache := w.cache - s,
                        watches := Without(w.watches, s),
                        queue := w.queue + Ignoreds(order)))
    else r == None
  }

  /** A directory appeared under a cached parent: its subtree is watched unless its path is cached already. */
  ghost predicate HandleArrival(w: World, wd: int, name: string, r: Option<World>)
    requires wd in w.cache
  {
    var path := Join(w.cache[wd], name);
    if path in w.cache.Values then r == Some(w) else r.Some? && WatchSubtree(w, path, r.value)
  }

  ghost predicate HandleOne(w: World, e: Event, r: Option<World>) {
    match e
    case Overflow => r == None
    case Ignored(_) => r == Some(w)
    case Create(wd, name) => if wd in w.cache then HandleArrival(w, wd, name, r) else r == None
    case MovedTo(wd, _, name) => if wd in w.cache then HandleArrival(w, wd, name, r) else r == None
    case MovedFrom(wd, _, name) => if wd in w.cache then ZapSubtree(w, Join(w.cache[wd], name), r) else r == None
    case DeleteSelf(wd) => r == if wd in w.cache then Some(w.(cache := w.cache - {wd})) else None
    case FileEvent(wd) => r == if wd in w.cache then Some(w) else None
  }

  predicate Pairs(e: Event, f: Event) {
    e.MovedFrom? && f.MovedTo? && e.cookie == f.cookie
  }

  function RewritePaths(cache: map<int, string>, from: string, to: string): map<int, string> {
    map wd | wd in cache :: Moved(from, to, cache[wd])
  }

  ghost predicate HandlePair(w: World, e: Event, f: Event, r: Option<World>)
    requires Pairs(e, f)
  {
    if e.wd !in w.cache || f.wd !in w.cache then r == None
    else r == Some(w.(cache := RewritePaths(w.cache, Join(w.cache[e.wd], e.name), Join(w.cache[f.wd], f.name))))
  }

  /** The program takes the next event, or the next two when they are a rename pair. */
  ghost predicate Consume(w: World, r: Option<World>) {
    && w.queue != []
    && if |w.queue| > 1 && Pairs(w.queue[0], w.queue[1])
       then HandlePair(w.(queue := w.queue[2..]), w.queue[0], w.queue[1], r)
       else HandleOne(w.(queue := w.queue[1..]), w.queue[0], r)
  }

  /** The program gives up waiting for the second half of a rename: the first half is handled by itself. */
  ghost predicate Alone(w: World, r: Option<World>) {
    w.queue != [] && w.queue[0].MovedFrom? && HandleOne(w.(queue := w.queue[1..]), w.queue[0], r)
  }

  ghost predicate Step(w: World, r: Option<World>) {
    Consume(w, r) || Alone(w, r)
  }

  // ----- What other processes do, with the events that the kernel queues -----

  function MakeDir(w: World, id: Id, p: Id, n: string): World {
    w.(tree := Mkdir(w.tree, id, p, n),
       queue := if p in w.watches then w.queue + [Create(w.watches[p], n)] else w.queue)
  }

  function RemoveDir(w: World, d: Id): World {
    w.(tree := Rmdir(w.tree, d),
       watches := w.watches - {d},
       queue := if d in w.watches then w.queue + [DeleteSelf(w.watches[d]), Ignored(w.watches[d])] else w.queue)
  }

  function TouchFile(w: World, p: Id): World {
    w.(queue := if p in w.watches then w.queue + [FileEvent(w.watches[p])] else w.queue)
  }

  function MoveDir(w: World, d: Id, p: Id, n: string, cookie: int): World
    requires d in w.tree.dirs
  {
    var was := w.tree.dirs[d];
    w.(tree := Rename(w.tree, d, p, n),
       queue := w.queue
                + (if was.parent in w.watches then [MovedFrom(w.watches[was.parent], cookie, was.name)] else [])
                + (if p in w.watches then [MovedTo(w.watches[p], cookie, n)] else []))
  }

  /** d is moved onto the empty directory e: the kernel reports the move first and then the end of e. */
  function ReplaceDir(w: World, d: Id, e: Id, p: Id, n: string, cookie: int): World
    requires d in w.tree.dirs && d != e
  {
    var m := MoveDir(w.(tree := Rmdir(w.tree, e), watches := w.watches - {e}), d, p, n, cookie);
    if e in w.watches then m.(queue := m.queue + [DeleteSelf(w.watches[e]), Ignored(w.watches[e])]) else m
  }

  // ----- Agreement -----

  /** Every watch has its own descriptor, and its directory is cached at its path. */
  ghost predicate Aligned(w: World) {
    && (forall d, e :: d in w.watches && e in w.watches && w.watches[d] == w.watches[e] ==> d == e)
    && (forall wd :: wd in w.cache ==> wd < w.nextWd)
    && (forall d :: d in w.watches ==> w.watches[d] in w.cache && w.cache[w.watches[d]] == Path(w.tree, d))
  }

  /** A cache entry whose watch is gone. */
  ghost predicate Stale(w: World, wd: int) {
    wd in w.cache && wd !in w.watches.Values
  }

  /** The cache holds exactly the monitored directories, each under its descriptor at its path. */
  ghost predicate InSync(w: World) {
    && WellFormed(w.tree) && Aligned(w)
    && w.watches.Keys == Live(w.tree)
    && (forall wd :: wd in w.cache ==> !Stale(w, wd))
  }

  /** In a state of agreement the cache is the map from the descriptor of each live directory to its path. */
  lemma InSyncIsExact(w: World, wd: int, path: string)
    requires InSync(w)
    ensures wd in w.cache && w.cache[wd] == path <==>
            exists d :: d in Live(w.tree) && d in w.watches && w.watches[d] == wd && Path(w.tree, d) == path
  {
    if wd in w.cache {
      assert !Stale(w, wd);
      var d :| d in w.watches && w.watches[d] == wd;
    }
  }

  // ----- What a walk does -----

  ghost predicate Extended(w: World, u: World, added: set<Id>) {
    && u.tree == w.tree && u.queue == w.queue && u.nextWd >= w.nextWd
    && u.watches.Keys == w.watches.Keys + added
    && (forall d :: d in w.watches ==> u.watches[d] == w.watches[d])
    && (forall d :: d in u.watches && d !in w.watches ==> u.watches[d] >= w.nextWd)
    && (forall wd :: wd in w.cache ==> wd in u.cache && u.cache[wd] == w.cache[wd])
    && (forall wd :: Stale(u, wd) <==> Stale(w, wd))
  }

  lemma VisitExtends(w: World, d: Id)
    requires Aligned(w)
    ensures Aligned(Visit(w, d)) && Extended(w, Visit(w, d), {d})
  {
    var u := Visit(w, d);
    if d !in w.watches {
      assert w.nextWd !in w.cache;
      assert u.watches[d] == w.nextWd;
      forall wd ensures Stale(u, wd) <==> Stale(w, wd) {
        if Stale(w, wd) {
          assert wd != w.nextWd;
        }
        assert wd in w.watches.Values ==> wd in u.watches.Values by {
          if e :| e in w.watches && w.watches[e] == wd {
            assert u.watches[e] == wd;
          }
        }
      }
    }
  }

  lemma ExtendedTwice(w: World, u: World, v: World, a: set<Id>, b: set<Id>)
    requires Extended(w, u, a) && Extended(u, v, b)
    ensures Extended(w, v, a + b)
  {
  }

  lemma ExtendedNot(w: World)
    ensures Extended(w, w, {})
  {
  }

  lemma ElementsOfCons(order: seq<Id>)
    requires order != []
    ensures Elements(order) == {order[0]} + Elements(order[1..])
  {
  }

  function Elements<T>(order: seq<T>): set<T> {
    set x | x in order
  }

  lemma {:induction false} WalkExtends(w: World, order: seq<Id>)
    requires Aligned(w)
    ensures Aligned(Walk(w, order)) && Extended(w, Walk(w, order), Elements(order))
    decreases order
  {
    if order != [] {
      var u := Visit(w, order[0]);
      VisitExtends(w, order[0]);
      WalkExtends(u, order[1..]);
      ExtendedTwice(w, u, Walk(w, order), {order[0]}, Elements(order[1..]));
      ElementsOfCons(order);
    } else {
      ExtendedNot(w);
    }
  }

  /** Handling a creation watches the whole subtree that is now at the path. */
  lemma WatchSubtreeExtends(w: World, path: string, u: World, d: Id)
    requires WellFormed(w.tree) && Aligned(w) && WatchSubtree(w, path, u)
    requires At(w.tree, d, path)
    ensures Aligned(u) && Extended(w, u, Subtree(w.tree, d))
  {
    var e, order :| At(w.tree, e, path) && Walked(w, e, order, u);
    PathInjective(w.tree, d, e);
    WalkExtends(w, order);
    assert Elements(order) == Subtree(w.tree, d);
  }

  // ----- Rebuilding -----

  /** reinitialize: a fresh descriptor has no watches and no events; every root's subtree is walked. */
  ghost predicate Rebuilt(w: World, u: World) {
    exists order :: Enumerates(order, Live(w.tree))
                    && u == Walk(w.(watches := map[], queue := [], cache := map[]), order)
  }

  lemma ElementsAre<T(!new)>(order: seq<T>, s: set<T>)
    requires Enumerates(order, s)
    ensures Elements(order) == s
  {
  }

  lemma StartedEmpty(w: World, u: World, added: set<Id>)
    requires w.watches == map[] && w.cache == map[] && Extended(w, u, added)
    ensures u.watches.Keys == added && forall wd :: !Stale(u, wd)
  {
    forall wd ensures !Stale(u, wd) { assert !Stale(w, wd); }
  }

  lemma RebuildAgrees(w: World, u: World)
    requires WellFormed(w.tree) && Rebuilt(w, u)
    ensures InSync(u) && u.queue == [] && u.tree == w.tree
  {
    var w0 := w.(watches := map[], queue := [], cache := map[]);
    var order :| Enumerates(order, Live(w.tree)) && u == Walk(w0, order);
    WalkExtends(w0, order);
    ElementsAre(order, Live(w.tree));
    StartedEmpty(w0, u, Live(w.tree));
  }
}
