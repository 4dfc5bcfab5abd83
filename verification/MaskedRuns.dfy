/**
 Whole runs of inotify_dtree.c in which an arrival is masked: the cache is not exact once its events have
 been handled. With `RenameRuns` this says exactly which runs keep the cache exact at every quiet moment.
 */
module MaskedRuns {
  import opened WatchModel
  import opened Basics
  import opened CacheInterleaving
  import opened CacheRenames
  import opened CacheReplacements
  import opened MaskedArrivals
  import opened ReplacementOutcomes
  import opened RenameRuns

  /** After deed j the program handles events, and nothing else happens, until none is left in state k. */
  ghost predicate DrainsTo(ws: seq<World>, deeds: seq<Deed>, j: nat, k: nat) {
    && j < k < |ws| == |deeds| + 1 && ws[k].queue == []
    && forall i :: j < i < k ==> deeds[i] == Plain(HandlesEvent)
  }

  lemma DrainOfRun(ws: seq<World>, deeds: seq<Deed>, j: nat, k: nat) returns (drain: seq<World>)
    requires IsRunWithRenames(ws, deeds) && DrainsTo(ws, deeds, j, k)
    ensures Drained(drain) && drain[0] == ws[j + 1] && drain[|drain| - 1] == ws[k]
  {
    drain := ws[j + 1..k + 1];
    forall i | 0 <= i < |drain| - 1 ensures Consume(drain[i], Some(drain[i + 1])) {
      assert Does(ws[j + 1 + i], deeds[j + 1 + i], ws[j + 2 + i]);
    }
  }

  lemma ReplacesJustNow(w: World, a: Deed, u: World)
    requires InSync(w) && a.Replaces? && Does(w, a, u)
    ensures JustReplaced(w, a.id, a.target, a.parent, a.name, a.cookie, u)
  {
  }

  lemma ReplacingMaskDrains(w: World, a: Deed, drain: seq<World>)
    requires Sane(w) && Masks(w, a) && a.Replaces? && Drained(drain) && Does(w, a, drain[0])
    ensures !InSync(drain[|drain| - 1])
  {
    SaneMeans(w);
    ReplacesJustNow(w, a, drain[0]);
    ReplacementAgreesIff(w, a.id, a.target, a.parent, a.name, a.cookie, drain);
  }

  lemma SplittingMaskDrains(w: World, a: Deed, drain: seq<World>)
    requires Sane(w) && Masks(w, a) && a.Splits? && Drained(drain) && Does(w, a, drain[0])
    ensures !InSync(drain[|drain| - 1])
  {
    if Inv(w) { InvHasNoMoves(w); }
    if MovePending(w) {
      var v, d, p, n, cookie :| JustMoved(v, d, p, n, cookie, w);
      MoveIsPaired(v, d, p, n, cookie, w);
    } else {
      var v, d, e, p, n, cookie :| Followed(v, d, e, p, n, cookie, w);
      ReplaceIsPaired(v, d, e, p, n, cookie, w);
      SplitReplacementIsLost(v, d, e, p, n, cookie, w, drain);
    }
  }

  /** When the events of the first masked arrival have been handled, the cache is not in agreement. */
  lemma MaskingShows(ws: seq<World>, deeds: seq<Deed>, j: nat, k: nat)
    requires IsRunWithRenames(ws, deeds) && j < |deeds| && Masks(ws[j], deeds[j]) && DrainsTo(ws, deeds, j, k)
    requires forall i :: 0 <= i < j ==> !Masks(ws[i], deeds[i])
    ensures !InSync(ws[k])
  {
    assert Does(ws[j], deeds[j], ws[j + 1]);
    EveryRunWithRenamesAgrees(ws, deeds, j);
    var drain := DrainOfRun(ws, deeds, j, k);
    if deeds[j].Replaces? {
      ReplacingMaskDrains(ws[j], deeds[j], drain);
    } else {
      SplittingMaskDrains(ws[j], deeds[j], drain);
    }
  }

  /** Where an arrival is masked, all events are handled before anything else happens. */
  ghost predicate Prompt(ws: seq<World>, deeds: seq<Deed>)
    requires |deeds| < |ws|
  {
    forall j :: 0 <= j < |deeds| && Masks(ws[j], deeds[j]) ==> exists k :: DrainsTo(ws, deeds, j, k)
  }

  ghost predicate AlwaysAgrees(ws: seq<World>) {
    forall i :: 0 <= i < |ws| && ws[i].queue == [] ==> InSync(ws[i])
  }

  lemma {:induction false} FirstMask(ws: seq<World>, deeds: seq<Deed>, n: nat) returns (j: nat)
    requires n < |deeds| < |ws| && Masks(ws[n], deeds[n])
    ensures j <= n && Masks(ws[j], deeds[j]) && forall i :: 0 <= i < j ==> !Masks(ws[i], deeds[i])
    decreases n
  {
    if m :| 0 <= m < n && Masks(ws[m], deeds[m]) {
      j := FirstMask(ws, deeds, m);
    } else {
      j := n;
    }
  }

  /** Over whole runs: the cache agrees at every quiet moment exactly when no arrival is masked. */
  lemma RunAgreesIff(ws: seq<World>, deeds: seq<Deed>)
    requires IsRunWithRenames(ws, deeds) && Prompt(ws, deeds)
    ensures AlwaysAgrees(ws) <==> forall j :: 0 <= j < |deeds| ==> !Masks(ws[j], deeds[j])
  {
    if n :| 0 <= n < |deeds| && Masks(ws[n], deeds[n]) {
      var j := FirstMask(ws, deeds, n);
      var k :| DrainsTo(ws, deeds, j, k);
      MaskingShows(ws, deeds, j, k);
    } else {
      forall i | 0 <= i < |ws| && ws[i].queue == [] ensures InSync(ws[i]) {
        EveryRunWithRenamesAgrees(ws, deeds, i);
      }
    }
  }
}
