/**
 Whole runs of inotify_dtree.c with renames of every kind. A rename is handled before anything else
 happens, its two events together or one by one; between renames directories come and go in any
 interleaving with the handling of their events. The cache stays in agreement as long as an empty
 directory inside the trees is replaced only by one from inside, whose two events are handled together.
 */
module RenameRuns {
  import opened DirTree
  import opened WatchModel
  import opened Basics
  import opened CacheInterleaving
  import opened CacheRenames
  import opened CacheReplacements
  import opened MaskedArrivals

  datatype Deed =
    | Plain(action: Action)
    | Moves(id: Id, parent: Id, name: string, cookie: int)
    | Replaces(id: Id, target: Id, parent: Id, name: string, cookie: int)
    | Splits

  predicate IsMove(e: Event) {
    e.MovedFrom? || e.MovedTo?
  }

  /**
   A rename happens when the queue is empty, and its events are handled before anything else happens.
   Splits is the program handling the first half of a rename by itself.
   */
  ghost predicate Does(w: World, a: Deed, u: World) {
    match a
    case Plain(action) =>
      Acts(w, action, u) && (action.HandlesEvent? || forall i :: 0 <= i < |w.queue| ==> !IsMove(w.queue[i]))
    case Moves(d, p, n, cookie) =>
      w.queue == [] && CanRename(w.tree, d, p, n) && u == MoveDir(w, d, p, n, cookie)
    case Replaces(d, e, p, n, cookie) =>
      w.queue == [] && CanReplace(w.tree, d, e, p, n) && u == ReplaceDir(w, d, e, p, n, cookie)
    case Splits =>
      |w.queue| > 1 && Pairs(w.queue[0], w.queue[1]) && Alone(w, Some(u))
  }

  ghost predicate IsRunWithRenames(ws: seq<World>, deeds: seq<Deed>) {
    && |ws| == |deeds| + 1 && InSync(ws[0]) && ws[0].queue == []
    && forall i :: 0 <= i < |deeds| ==> Does(ws[i], deeds[i], ws[i + 1])
  }

  /**
   A directory from outside the trees replaces one inside them, or the two events of a replacement are
   handled one by one: behind them the end of the replaced directory is queued.
   */
  predicate Masks(w: World, a: Deed) {
    || (a.Replaces? && a.id !in w.watches && a.parent in w.watches)
    || (a.Splits? && |w.queue| > 2)
  }

  // ----- Runs without a masked arrival -----

  ghost predicate MovePending(w: World) {
    w.queue != [] && IsMove(w.queue[0]) && exists v, d, p, n, cookie :: JustMoved(v, d, p, n, cookie, w)
  }

  ghost predicate Followed(v: World, d: Id, e: Id, p: Id, n: string, cookie: int, w: World) {
    JustReplaced(v, d, e, p, n, cookie, w) && (d in v.watches || p !in v.watches)
  }

  ghost predicate ReplacePending(w: World) {
    && w.queue != [] && IsMove(w.queue[0])
    && exists v, d, e, p, n, cookie :: Followed(v, d, e, p, n, cookie, w)
  }

  ghost predicate HalfHandled(v: World, d: Id, p: Id, n: string, cookie: int, x: World, w: World) {
    JustMoved(v, d, p, n, cookie, x) && d in v.watches && p in v.watches && Alone(x, Some(w))
  }

  ghost predicate SplitPending(w: World) {
    && w.queue != [] && w.queue[0].MovedTo?
    && exists v, d, p, n, cookie, x :: HalfHandled(v, d, p, n, cookie, x, w)
  }

  ghost predicate Pending(w: World) {
    MovePending(w) || ReplacePending(w) || SplitPending(w)
  }

  ghost predicate Sane(w: World) {
    Inv(w) || Pending(w)
  }

  lemma MoveIsPaired(v: World, d: Id, p: Id, n: string, cookie: int, w: World)
    requires JustMoved(v, d, p, n, cookie, w) && |w.queue| > 1
    ensures |w.queue| == 2 && d in v.watches && p in v.watches
  {
    MoveEnds(v, d, p, n, cookie, w);
  }

  lemma ReplaceIsPaired(v: World, d: Id, e: Id, p: Id, n: string, cookie: int, w: World)
    requires JustReplaced(v, d, e, p, n, cookie, w) && |w.queue| > 1 && Pairs(w.queue[0], w.queue[1])
    ensures |w.queue| > 2 && d in v.watches && p in v.watches
  {
    ReplaceEnds(v, d, e, p, n);
    ReplacedStarts(v, d, e, p, n, cookie);
  }

  lemma MoveIsSane(w: World, d: Id, p: Id, n: string, cookie: int)
    requires Inv(w) && w.queue == [] && CanRename(w.tree, d, p, n)
    ensures Sane(MoveDir(w, d, p, n, cookie))
  {
    var u := MoveDir(w, d, p, n, cookie);
    QuietAgrees(w);
    assert JustMoved(w, d, p, n, cookie, u);
    if u.queue == [] {
      MoveEnds(w, d, p, n, cookie, u);
      BesideAgrees(w, d, p, n, cookie, u);
      SettledIsInv(u);
    }
  }

  lemma QuietIsInv(v: World, d: Id, e: Id, p: Id, n: string, cookie: int, w: World)
    requires JustReplaced(v, d, e, p, n, cookie, w) && w.queue == []
    ensures Inv(w)
  {
    QuietReplacement(v, d, e, p, n, cookie, w);
    SettledIsInv(w);
  }

  lemma FollowedIsSane(v: World, d: Id, e: Id, p: Id, n: string, cookie: int, w: World)
    requires Followed(v, d, e, p, n, cookie, w)
    ensures Sane(w)
  {
    if w.queue == [] {
      QuietIsInv(v, d, e, p, n, cookie, w);
    } else {
      ReplaceStartsWithMove(v, d, e, p, n, cookie, w);
    }
  }

  lemma ReplaceIsSane(w: World, d: Id, e: Id, p: Id, n: string, cookie: int)
    requires Inv(w) && w.queue == [] && CanReplace(w.tree, d, e, p, n) && (d in w.watches || p !in w.watches)
    ensures Sane(ReplaceDir(w, d, e, p, n, cookie))
  {
    QuietAgrees(w);
    FollowedIsSane(w, d, e, p, n, cookie, ReplaceDir(w, d, e, p, n, cookie));
  }

  lemma PendingIsHandled(w: World, r: Option<World>)
    requires Pending(w) && Consume(w, r)
    ensures r.Some? && Inv(r.value)
  {
    if MovePending(w) {
      var v, d, p, n, cookie :| JustMoved(v, d, p, n, cookie, w);
      MoveKeepsAgreement(v, d, p, n, cookie, w, r);
      SettledIsInv(r.value);
    } else if ReplacePending(w) {
      var v, d, e, p, n, cookie :| Followed(v, d, e, p, n, cookie, w);
      ReplacementIsFollowed(v, d, e, p, n, cookie, w, r);
    } else {
      var v, d, p, n, cookie, x :| HalfHandled(v, d, p, n, cookie, x, w);
      SplitAgrees(v, d, p, n, cookie, x, w, r);
      SettledIsInv(r.value);
    }
  }

  lemma InvHasNoMoves(w: World)
    requires Inv(w) && w.queue != []
    ensures !w.queue[0].MovedFrom?
  {
    assert Known(w, 0);
  }

  lemma HalfIsPending(v: World, d: Id, p: Id, n: string, cookie: int, w: World, r: Option<World>)
    requires JustMoved(v, d, p, n, cookie, w) && d in v.watches && p in v.watches && Alone(w, r)
    ensures r.Some? && SplitPending(r.value)
  {
    SplitHalf(v, d, p, n, cookie, w, r);
    assert HalfHandled(v, d, p, n, cookie, w, r.value);
  }

  /** The first half of a rename that replaces nothing is handled: the second half is pending. */
  lemma MoveSplits(w: World, r: Option<World>)
    requires MovePending(w) && |w.queue| > 1 && Alone(w, r)
    ensures r.Some? && SplitPending(r.value)
  {
    var v, d, p, n, cookie :| JustMoved(v, d, p, n, cookie, w);
    MoveIsPaired(v, d, p, n, cookie, w);
    HalfIsPending(v, d, p, n, cookie, w, r);
  }

  lemma SplitIsSane(w: World, u: World)
    requires Sane(w) && Does(w, Splits, u) && !Masks(w, Splits)
    ensures Sane(u)
  {
    if Inv(w) { InvHasNoMoves(w); }
    if ReplacePending(w) {
      var v, d, e, p, n, cookie :| Followed(v, d, e, p, n, cookie, w);
      ReplaceIsPaired(v, d, e, p, n, cookie, w);
    } else {
      MoveSplits(w, Some(u));
    }
  }

  /** Handling the first half by itself never asks for a rebuild either. */
  lemma AloneIsHandled(w: World)
    requires Sane(w) && |w.queue| > 1 && Pairs(w.queue[0], w.queue[1])
    ensures !Alone(w, None)
  {
    if Inv(w) { InvHasNoMoves(w); }
    if Alone(w, None) {
      if ReplacePending(w) {
        var v, d, e, p, n, cookie :| Followed(v, d, e, p, n, cookie, w);
        ReplaceIsPaired(v, d, e, p, n, cookie, w);
        SplitReplacement(v, d, e, p, n, cookie, w, None);
      } else {
        MoveSplits(w, None);
      }
    }
  }

  lemma DoesKeepsSane(w: World, a: Deed, u: World)
    requires Sane(w) && Does(w, a, u) && !Masks(w, a)
    ensures Sane(u)
  {
    if a.Splits? {
      SplitIsSane(w, u);
    } else if !Inv(w) {
      PendingMeansHandling(w, a, u);
      PendingIsHandled(w, Some(u));
    } else {
      InvDoesSane(w, a, u);
    }
  }

  /** While a rename is pending nothing else happens. */
  lemma PendingMeansHandling(w: World, a: Deed, u: World)
    requires w.queue != [] && IsMove(w.queue[0]) && Does(w, a, u) && !a.Splits?
    ensures Consume(w, Some(u))
  {
  }

  lemma InvDoesSane(w: World, a: Deed, u: World)
    requires Inv(w) && Does(w, a, u) && !a.Splits? && !Masks(w, a)
    ensures Sane(u)
  {
    match a
    case Plain(action) => PlainKeepsInv(w, action, u);
    case Moves(d, p, n, cookie) => MoveIsSane(w, d, p, n, cookie);
    case Replaces(d, e, p, n, cookie) => ReplaceIsSane(w, d, e, p, n, cookie);
  }

  lemma PlainKeepsInv(w: World, a: Action, u: World)
    requires Inv(w) && Acts(w, a, u)
    ensures Inv(u)
  {
    match a
    case MakesDir(id, p, n) => MakeDirKeepsInv(w, id, p, n);
    case RemovesDir(d) => RemoveDirKeepsInv(w, d);
    case TouchesFile(p) => TouchKeepsInv(w, p);
    case HandlesEvent => ConsumeKeepsInv(w, Some(u));
  }

  /**
   At every moment of every run, as long as no arrival is masked, the cache is exact if the queue is
   empty, and no event names an unknown descriptor, so the cache is never rebuilt.
   */
  lemma {:induction false} EveryRunWithRenamesAgrees(ws: seq<World>, deeds: seq<Deed>, i: nat)
    requires IsRunWithRenames(ws, deeds) && i < |ws|
    requires forall j :: 0 <= j < i ==> !Masks(ws[j], deeds[j])
    ensures Sane(ws[i])
    ensures ws[i].queue == [] ==> InSync(ws[i])
    ensures !Consume(ws[i], None)
    ensures |ws[i].queue| > 1 && Pairs(ws[i].queue[0], ws[i].queue[1]) ==> !Alone(ws[i], None)
  {
    if i == 0 {
      StartIsInv(ws[0]);
    } else {
      EveryRunWithRenamesAgrees(ws, deeds, i - 1);
      DoesKeepsSane(ws[i - 1], deeds[i - 1], ws[i]);
    }
    SaneMeans(ws[i]);
  }

  lemma SaneMeans(w: World)
    requires Sane(w)
    ensures w.queue == [] ==> InSync(w)
    ensures !Consume(w, None)
    ensures |w.queue| > 1 && Pairs(w.queue[0], w.queue[1]) ==> !Alone(w, None)
  {
    if w.queue == [] { QuietAgrees(w); }
    if Consume(w, None) {
      if Inv(w) {
        ConsumeKeepsInv(w, None);
      } else {
        PendingIsHandled(w, None);
      }
    }
    if |w.queue| > 1 && Pairs(w.queue[0], w.queue[1]) { AloneIsHandled(w); }
  }
}
