/**
 my_free of ch07/malloc_and_free.c as written, on a list whose `prev` fields may be stale. The code
 reads `prev` in two places: to join the freed block backwards, and to cut off the last block. The
 lemmas give the list that is left in every case, and exactly when it is the specified one.
 */
module StaleLinks {
  import opened HeapBlocks
  import opened HeapMemory

  // ----- Which `prev` fields the code as written can leave behind -----

  /** The first block has no `prev`; that of any other block names a lower address, of a block or not. */
  ghost predicate LinksDown(mem: Memory, bs: seq<Block>) {
    forall i :: 0 <= i < |bs| ==> if i == 0 then PrevOf(mem, bs, i) == 0 else 0 < PrevOf(mem, bs, i) < bs[i].addr
  }

  ghost predicate Increasing(bs: seq<Block>) {
    && (forall i :: 0 <= i < |bs| ==> bs[i].addr > 0)
    && (forall i, j :: 0 <= i < j < |bs| ==> bs[i].addr < bs[j].addr)
  }

  lemma SpacedIncreasing(bs: seq<Block>, base: int, brk: int)
    requires Spaced(bs, base, brk) && base > 0
    ensures Increasing(bs) && Distinct(bs)
    ensures forall i :: 0 <= i < |bs| ==> bs[i].addr < brk
  {
    forall i, j | 0 <= i < j < |bs| ensures bs[i].addr < bs[j].addr {
      Ascending(bs, base, brk, i, j);
    }
    forall i | 0 <= i < |bs| ensures 0 < bs[i].addr < brk {
      BlocksApart(bs, base, brk, i, i);
    }
  }

  lemma AppendedIncreasing(bs: seq<Block>, base: int, brk: int, b: Block)
    requires Spaced(bs, base, brk) && base > 0 && b.addr == brk
    ensures Increasing(bs + [b])
  {
    SpacedIncreasing(bs, base, brk);
  }

  lemma BackLinkedDown(mem: Memory, bs: seq<Block>)
    requires BackLinked(mem, bs) && Increasing(bs)
    ensures LinksDown(mem, bs)
  {
    forall i | 0 <= i < |bs|
      ensures if i == 0 then PrevOf(mem, bs, i) == 0 else 0 < PrevOf(mem, bs, i) < bs[i].addr
    {
      assert PrevOf(mem, bs, i) == AddrAt(bs, i - 1);
    }
  }

  // ----- free_and_merge -----

  /** The index of the block at address a, or the length of the list. */
  function Find(bs: seq<Block>, a: int): (j: nat)
    ensures j <= |bs|
    ensures j < |bs| ==> bs[j].addr == a
    ensures forall i :: 0 <= i < j ==> bs[i].addr != a
  {
    if bs == [] || bs[0].addr == a then 0 else 1 + Find(bs[1..], a)
  }

  predicate NextIsFree(bs: seq<Block>, k: nat) {
    k + 1 < |bs| && bs[k + 1].free
  }

  /** The code joins block k to whatever its `prev` names, if the header there says free. */
  predicate JoinsBack(mem: Memory, bs: seq<Block>, k: nat)
    requires k < |bs|
  {
    PrevOf(mem, bs, k) != 0 && At(mem, PrevOf(mem, bs, k)).free
  }

  /** Blocks j to k become one, of the size of the two; the blocks between them leave the list. */
  function JoinAcross(bs: seq<Block>, j: nat, k: nat): seq<Block>
    requires j < k < |bs|
  {
    bs[..j] + [Block(bs[j].addr, bs[j].size + bs[k].size, bs[j].free)] + bs[k + 1..]
  }

  /** The list that free_and_merge leaves. */
  function Merges(mem: Memory, bs: seq<Block>, k: nat): seq<Block>
    requires k < |bs|
  {
    var f, j := Freed(bs, k), Find(bs, PrevOf(mem, bs, k));
    if !JoinsBack(mem, bs, k) then MergeForward(f, k)
    else if j < k then MergeForward(JoinAcross(f, j, k), j)
    else f
  }

  lemma JoinAcrossLinks(first: int, mem: Memory, bs: seq<Block>, j: nat, k: nat)
    requires Distinct(bs) && Linked(first, mem, bs) && j < k < |bs| && PrevOf(mem, bs, k) == bs[j].addr
    ensures Distinct(JoinAcross(bs, j, k))
    ensures Linked(first, JoinPrev(mem, bs[k].addr), JoinAcross(bs, j, k))
  {
    var m, r := JoinPrev(mem, bs[k].addr), JoinAcross(bs, j, k);
    assert forall i :: 0 <= i <= j ==> r[i].addr == bs[i].addr;
    assert forall i :: j < i < |r| ==> r[i] == bs[i + k - j];
    assert Holds(mem, bs, k) && Holds(mem, bs, j);
    forall i | 0 <= i < |r| ensures Holds(m, r, i) {
      if i < j {
        assert Holds(mem, bs, i) && r[i] == bs[i] && AddrAt(r, i + 1) == AddrAt(bs, i + 1);
      } else if i > j {
        assert Holds(mem, bs, i + k - j) && AddrAt(r, i + 1) == AddrAt(bs, i + k - j + 1);
      }
    }
  }

  /** A join to a header outside the list: the list only sees a changed `prev`. */
  lemma JoinOffList(first: int, mem: Memory, bs: seq<Block>, k: nat)
    requires Distinct(bs) && Linked(first, mem, bs) && k < |bs|
    requires forall i :: 0 <= i < |bs| ==> bs[i].addr != PrevOf(mem, bs, k)
    ensures Linked(first, JoinNext(JoinPrev(mem, bs[k].addr), PrevOf(mem, bs, k), false), bs)
  {
    var q := PrevOf(mem, bs, k);
    var m := JoinNext(JoinPrev(mem, bs[k].addr), q, false);
    assert Holds(mem, bs, k);
    forall i | 0 <= i < |bs| ensures Holds(m, bs, i) {
      assert Holds(mem, bs, i);
    }
  }

  /** Whatever the `prev` of block k names, this is the list afterwards. */
  lemma MergedList(first: int, mem: Memory, bs: seq<Block>, k: nat)
    requires Increasing(bs) && Distinct(bs) && Linked(first, mem, bs) && LinksDown(mem, bs) && k < |bs|
    ensures Linked(first, Merged(mem, bs[k].addr, false), Merges(mem, bs, k))
  {
    var f, m := Freed(bs, k), mem[bs[k].addr := At(mem, bs[k].addr).(free := true)];
    var q, j := PrevOf(mem, bs, k), Find(bs, PrevOf(mem, bs, k));
    assert Holds(mem, bs, k);
    StoreLinks(first, mem, bs, k, bs[k].size, true);
    assert PrevOf(m, f, k) == q;
    SameAddresses(bs, f);
    if !JoinsBack(mem, bs, k) {
      JoinNextLinks(first, m, f, k, false);
    } else if j < |bs| {
      assert j < k;
      JoinAcrossLinks(first, m, f, j, k);
      JoinNextLinks(first, JoinPrev(m, bs[k].addr), JoinAcross(f, j, k), j, false);
    } else {
      JoinOffList(first, m, f, k);
    }
  }

  lemma LinkedAt(first: int, mem: Memory, a: seq<Block>, b: seq<Block>, i: nat)
    requires Distinct(a) && Distinct(b) && Linked(first, mem, a) && Linked(first, mem, b)
    requires i <= |a| && i <= |b| && AddrAt(a, i) == AddrAt(b, i)
    ensures a[i..] == b[i..]
    decreases |a| - i
  {
    if i < |a| {
      assert i < |b| && Holds(mem, a, i) && Holds(mem, b, i);
      LinkedAt(first, mem, a, b, i + 1);
      assert a[i..] == [a[i]] + a[i + 1..] && b[i..] == [b[i]] + b[i + 1..];
    } else {
      assert i == |b|;
    }
  }

  /** Memory represents at most one list. */
  lemma LinkedIsUnique(first: int, mem: Memory, a: seq<Block>, b: seq<Block>)
    requires Distinct(a) && Distinct(b) && Linked(first, mem, a) && Linked(first, mem, b)
    ensures a == b
  {
    LinkedAt(first, mem, a, b, 0);
  }

  /**
   The guard that decides: the `prev` of block k is right; or the block before it is in use and either
   what `prev` names is in use too, or it is no block and there is nothing to join in front.
   */
  predicate MergesWell(mem: Memory, bs: seq<Block>, k: nat)
    requires k < |bs|
  {
    var q := PrevOf(mem, bs, k);
    || q == AddrAt(bs, k - 1)
    || (k > 0 && !bs[k - 1].free && (JoinsBack(mem, bs, k) ==> Find(bs, q) == |bs| && !NextIsFree(bs, k)))
  }

  /** What is joined: the blocks from MergeLo on, up to but not including MergeHi. */
  function MergeLo(mem: Memory, bs: seq<Block>, k: nat): nat
    requires k < |bs|
  {
    if JoinsBack(mem, bs, k) && Find(bs, PrevOf(mem, bs, k)) < k then Find(bs, PrevOf(mem, bs, k)) else k
  }

  function MergeHi(mem: Memory, bs: seq<Block>, k: nat): nat
    requires k < |bs|
  {
    if JoinsBack(mem, bs, k) && Find(bs, PrevOf(mem, bs, k)) >= k then k + 1 else After(bs, k)
  }

  lemma MergesShape(mem: Memory, bs: seq<Block>, k: nat)
    requires k < |bs|
    ensures var lo, hi, r := MergeLo(mem, bs, k), MergeHi(mem, bs, k), Merges(mem, bs, k);
            && lo < |r| && r[lo].addr == bs[lo].addr && lo <= k < hi <= |bs|
            && r == bs[..lo] + [r[lo]] + bs[hi..]
  {
    var f, lo, r := Freed(bs, k), MergeLo(mem, bs, k), Merges(mem, bs, k);
    if lo < k {
      var g := JoinAcross(f, lo, k);
      assert g == bs[..lo] + [g[lo]] + bs[k + 1..];
      assert k + 1 < |bs| ==> g[lo + 1] == bs[k + 1];
    } else {
      assert f == bs[..k] + [f[k]] + bs[k + 1..];
    }
  }

  /** Where the guard fails, more blocks or fewer are joined than the specification joins. */
  lemma WrongMergeRange(mem: Memory, bs: seq<Block>, k: nat)
    requires Increasing(bs) && LinksDown(mem, bs) && k < |bs| && !MergesWell(mem, bs, k)
    ensures MergeHi(mem, bs, k) - MergeLo(mem, bs, k) != After(bs, k) - Home(bs, k)
  {
    var j := Find(bs, PrevOf(mem, bs, k));
    if JoinsBack(mem, bs, k) && j < |bs| {
      assert j < k;
    }
  }

  lemma SpliceLength(bs: seq<Block>, r: seq<Block>, lo: nat, hi: nat)
    requires lo < hi <= |bs| && lo < |r| && r == bs[..lo] + [r[lo]] + bs[hi..]
    ensures |r| == lo + 1 + |bs| - hi
  {
  }

  lemma WrongMerge(mem: Memory, bs: seq<Block>, k: nat)
    requires Increasing(bs) && LinksDown(mem, bs) && k < |bs| && !MergesWell(mem, bs, k)
    ensures |Merges(mem, bs, k)| != |FreeAt(bs, k)|
  {
    assert |Merges(mem, bs, k)| == MergeLo(mem, bs, k) + 1 + |bs| - MergeHi(mem, bs, k) by {
      MergesShape(mem, bs, k);
      SpliceLength(bs, Merges(mem, bs, k), MergeLo(mem, bs, k), MergeHi(mem, bs, k));
    }
    assert |FreeAt(bs, k)| == Home(bs, k) + 1 + |bs| - After(bs, k) by {
      FreeAtShape(bs, k);
      SpliceLength(bs, FreeAt(bs, k), Home(bs, k), After(bs, k));
    }
    WrongMergeRange(mem, bs, k);
  }

  lemma RightMerge(mem: Memory, bs: seq<Block>, k: nat)
    requires Increasing(bs) && k < |bs| && (k > 0 ==> Holds(mem, bs, k - 1)) && MergesWell(mem, bs, k)
    ensures Merges(mem, bs, k) == FreeAt(bs, k)
  {
    var f := Freed(bs, k);
    if k > 0 && PrevOf(mem, bs, k) == bs[k - 1].addr && bs[k - 1].free {
      assert Find(bs, bs[k - 1].addr) == k - 1;
      assert JoinAcross(f, k - 1, k) == MergeAt(f, k - 1);
    }
  }

  /** The list that is left is the specified one exactly under the guard. */
  lemma MergesIffWell(first: int, mem: Memory, bs: seq<Block>, k: nat)
    requires Increasing(bs) && Linked(first, mem, bs) && LinksDown(mem, bs) && k < |bs|
    ensures Merges(mem, bs, k) == FreeAt(bs, k) <==> MergesWell(mem, bs, k)
  {
    if MergesWell(mem, bs, k) {
      assert k > 0 ==> Holds(mem, bs, k - 1);
      RightMerge(mem, bs, k);
    } else {
      WrongMerge(mem, bs, k);
    }
  }

  /** Exactly when free_and_merge of block k leaves the coalesced list of the specification. */
  lemma MergedIffWell(first: int, mem: Memory, bs: seq<Block>, k: nat)
    requires Increasing(bs) && Distinct(bs) && Linked(first, mem, bs) && LinksDown(mem, bs) && k < |bs|
    requires Distinct(FreeAt(bs, k))
    ensures Linked(first, Merged(mem, bs[k].addr, false), FreeAt(bs, k)) <==> MergesWell(mem, bs, k)
  {
    MergedList(first, mem, bs, k);
    MergesIffWell(first, mem, bs, k);
    MergesIncreasing(mem, bs, k);
    if Linked(first, Merged(mem, bs[k].addr, false), FreeAt(bs, k)) {
      LinkedIsUnique(first, Merged(mem, bs[k].addr, false), FreeAt(bs, k), Merges(mem, bs, k));
    }
  }

  lemma SpliceIncreasing(bs: seq<Block>, r: seq<Block>, lo: nat, hi: nat)
    requires Increasing(bs) && lo < hi <= |bs| && lo < |r| && r[lo].addr == bs[lo].addr
    requires r == bs[..lo] + [r[lo]] + bs[hi..]
    ensures Increasing(r) && Distinct(r)
  {
    assert forall i :: 0 <= i <= lo ==> r[i].addr == bs[i].addr;
    forall i | lo < i < |r| ensures r[i] == bs[i + hi - lo - 1] {}
  }

  lemma MergesIncreasing(mem: Memory, bs: seq<Block>, k: nat)
    requires Increasing(bs) && k < |bs|
    ensures Increasing(Merges(mem, bs, k)) && Distinct(Merges(mem, bs, k))
  {
    MergesShape(mem, bs, k);
    SpliceIncreasing(bs, Merges(mem, bs, k), MergeLo(mem, bs, k), MergeHi(mem, bs, k));
  }

  /** Only the block after the freed one can have its `prev` changed, to that of the freed block. */
  lemma MergedPrev(mem: Memory, bs: seq<Block>, k: nat, a: int)
    requires k < |bs| && At(mem, bs[k].addr).next == AddrAt(bs, k + 1) && PrevOf(mem, bs, k) != bs[k].addr
    ensures var m := Merged(mem, bs[k].addr, false);
            || At(m, a).prev == At(mem, a).prev
            || (JoinsBack(mem, bs, k) && k + 1 < |bs| && a == bs[k + 1].addr && At(m, a).prev == PrevOf(mem, bs, k))
  {
  }

  lemma SpliceDown(mem: Memory, m: Memory, bs: seq<Block>, r: seq<Block>, lo: nat, hi: nat)
    requires Increasing(bs) && LinksDown(mem, bs) && lo < hi <= |bs| && lo < |r| && r[lo].addr == bs[lo].addr
    requires r == bs[..lo] + [r[lo]] + bs[hi..]
    requires forall i :: 0 <= i < |bs| ==>
               PrevOf(m, bs, i) == PrevOf(mem, bs, i) || (i > 0 && 0 < PrevOf(m, bs, i) < bs[i].addr)
    ensures LinksDown(m, r)
  {
    forall i | 0 <= i < |r| ensures if i == 0 then PrevOf(m, r, i) == 0 else 0 < PrevOf(m, r, i) < r[i].addr {
      var x := if i <= lo then i else i + hi - lo - 1;
      assert r[i].addr == bs[x].addr && PrevOf(m, r, i) == PrevOf(m, bs, x);
    }
  }

  /** Links that point down are kept by free_and_merge, whatever it does to the list. */
  lemma MergesDown(mem: Memory, bs: seq<Block>, k: nat)
    requires Increasing(bs) && LinksDown(mem, bs) && k < |bs| && Holds(mem, bs, k)
    ensures LinksDown(Merged(mem, bs[k].addr, false), Merges(mem, bs, k))
  {
    var m := Merged(mem, bs[k].addr, false);
    forall i | 0 <= i < |bs|
      ensures PrevOf(m, bs, i) == PrevOf(mem, bs, i) || (i > 0 && 0 < PrevOf(m, bs, i) < bs[i].addr)
    {
      MergedPrev(mem, bs, k, bs[i].addr);
      assert PrevOf(mem, bs, k) < bs[k].addr;
    }
    MergesShape(mem, bs, k);
    SpliceDown(mem, m, bs, Merges(mem, bs, k), MergeLo(mem, bs, k), MergeHi(mem, bs, k));
  }

  // ----- release_resource_if_need -----

  /** The break goes back to the last block, and the list is cut after whatever that block's `prev` names. */
  function Cuts(mem: Memory, r: seq<Block>, brk: int, page: int): Heap
    requires page > 0
  {
    var last := |r| - 1;
    if TrailingFree(r) < DeallocSize(page) || r == [] then Heap(r, brk)
    else if last == 0 then Heap([], r[0].addr)
    else
      var j := Find(r, PrevOf(mem, r, last));
      Heap(r[..if j < last then j + 1 else |r|], r[last].addr)
  }

  function CutMemory(mem: Memory, r: seq<Block>, page: int): Memory {
    if TrailingFree(r) < DeallocSize(page) || |r| < 2 then mem
    else
      var q := PrevOf(mem, r, |r| - 1);
      mem[q := At(mem, q).(next := 0)]
  }

  lemma CutLinks(first: int, mem: Memory, r: seq<Block>, brk: int, page: int)
    requires page > 0 && Increasing(r) && Distinct(r) && Linked(first, mem, r) && LinksDown(mem, r)
    ensures var c := Cuts(mem, r, brk, page).blocks;
            && c <= r && Linked(if c == [] then 0 else first, CutMemory(mem, r, page), c)
            && LinksDown(CutMemory(mem, r, page), c)
  {
    var c, m := Cuts(mem, r, brk, page).blocks, CutMemory(mem, r, page);
    assert forall i :: 0 <= i < |c| ==> c[i] == r[i];
    forall i | 0 <= i < |c| ensures Holds(m, c, i) && PrevOf(m, c, i) == PrevOf(mem, r, i) {
      assert Holds(mem, r, i);
    }
  }

  lemma FindIsRight(r: seq<Block>, a: int)
    requires Increasing(r) && |r| > 1
    ensures var j, last := Find(r, a), |r| - 1;
            (if j < last then j + 1 else |r|) == last <==> a == r[last - 1].addr
  {
  }

  /** The cut is the specified one exactly when the last block's `prev` is right, or is not needed. */
  lemma CutsIffRight(mem: Memory, r: seq<Block>, brk: int, page: int)
    requires page > 0 && Increasing(r)
    ensures Cuts(mem, r, brk, page) == Trim(r, brk, page) <==>
            (TrailingFree(r) >= DeallocSize(page) && |r| > 1 ==> PrevOf(mem, r, |r| - 1) == r[|r| - 2].addr)
  {
    if TrailingFree(r) >= DeallocSize(page) && |r| > 1 {
      FindIsRight(r, PrevOf(mem, r, |r| - 1));
      assert |r[..|r| - 1]| == |r| - 1;
    }
  }

  lemma CutIsRight(mem: Memory, r: seq<Block>, brk: int, page: int)
    requires page > 0 && Increasing(r)
    requires |r| > 1 && r[|r| - 1].free ==> PrevOf(mem, r, |r| - 1) == r[|r| - 2].addr
    ensures Cuts(mem, r, brk, page) == Trim(r, brk, page)
  {
    CutsIffRight(mem, r, brk, page);
    assert TrailingFree(r) >= DeallocSize(page) ==> r != [] && r[|r| - 1].free;
  }

  lemma CutPrevs(mem: Memory, r: seq<Block>, page: int)
    ensures forall a :: At(CutMemory(mem, r, page), a).prev == At(mem, a).prev
  {
  }

  lemma CutKeepsBackLinks(mem: Memory, r: seq<Block>, brk: int, page: int)
    requires page > 0 && (|r| > 1 && r[|r| - 1].free ==> PrevOf(mem, r, |r| - 1) == r[|r| - 2].addr)
    requires |r| == 1 ==> PrevOf(mem, r, 0) == 0
    ensures BackLinked(mem, r) <==> BackLinked(CutMemory(mem, r, page), Trim(r, brk, page).blocks)
  {
    CutPrevs(mem, r, page);
    KeptLinks(mem, CutMemory(mem, r, page), r, Trim(r, brk, page).blocks);
  }

  // ----- my_free -----

  /** Where the last block is cut off, it is the freed one, and the `prev` it will have is right. */
  predicate CutsWell(mem: Memory, bs: seq<Block>, k: nat, page: int)
    requires k < |bs|
  {
    var r, lo := FreeAt(bs, k), Home(bs, k);
    TrailingFree(r) >= DeallocSize(page) && |r| > 1 ==> PrevOf(mem, bs, lo) == AddrAt(bs, lo - 1)
  }

  predicate FreesWell(mem: Memory, bs: seq<Block>, k: nat, page: int)
    requires k < |bs|
  {
    MergesWell(mem, bs, k) && CutsWell(mem, bs, k, page)
  }

  /** The list that free_and_merge leaves, in both forms of the code. */
  function MergedBlocks(mem: Memory, bs: seq<Block>, k: nat, relink: bool): seq<Block>
    requires k < |bs|
  {
    if relink then FreeAt(bs, k) else Merges(mem, bs, k)
  }

  /** What my_free of block k leaves. */
  function Frees(mem: Memory, h: Heap, k: nat, page: int, relink: bool): Heap
    requires page > 0 && k < |h.blocks|
  {
    Cuts(Merged(mem, h.blocks[k].addr, relink), MergedBlocks(mem, h.blocks, k, relink), h.brk, page)
  }

  function FreeMemory(mem: Memory, h: Heap, k: nat, page: int, relink: bool): Memory
    requires k < |h.blocks|
  {
    CutMemory(Merged(mem, h.blocks[k].addr, relink), MergedBlocks(mem, h.blocks, k, relink), page)
  }

  lemma SpliceLast(bs: seq<Block>, r: seq<Block>, lo: nat, hi: nat)
    requires lo < hi <= |bs| && lo < |r| && r == bs[..lo] + [r[lo]] + bs[hi..]
    ensures if hi < |bs| then LastFree(r) == LastFree(bs) else |r| == lo + 1
  {
  }

  /** In a trimmed heap only the freed block itself can be cut off. */
  lemma CutIsFreed(h: Heap, base: int, k: nat, page: int)
    requires page > 0 && Good(h, base, page) && k < |h.blocks| && !h.blocks[k].free
    requires TrailingFree(FreeAt(h.blocks, k)) >= DeallocSize(page)
    ensures var r, lo := FreeAt(h.blocks, k), Home(h.blocks, k);
            && lo == |r| - 1 && After(h.blocks, k) == |h.blocks|
            && Trim(r, h.brk, page) == Heap(r[..lo], h.blocks[lo].addr)
  {
    var bs, r := h.blocks, FreeAt(h.blocks, k);
    FreeAtShape(bs, k);
    TrailingIsLast(bs);
    assert LastFree(r) >= DeallocSize(page) by {
      FreeAtCoalesces(bs, k);
      TrailingIsLast(r);
    }
    SpliceLast(bs, r, Home(bs, k), After(bs, k));
  }

  /** The break after the code's cut. */
  lemma CutsBrk(mem: Memory, r: seq<Block>, brk: int, page: int)
    requires page > 0
    ensures var c := Cuts(mem, r, brk, page);
            (c.brk == brk && c.blocks == r) || (r != [] && c.brk == r[|r| - 1].addr)
  {
  }

  lemma MergesLast(mem: Memory, bs: seq<Block>, k: nat)
    requires k < |bs|
    ensures var r := Merges(mem, bs, k);
            && r != []
            && r[|r| - 1].addr == bs[if MergeHi(mem, bs, k) == |bs| then MergeLo(mem, bs, k) else |bs| - 1].addr
  {
    MergesShape(mem, bs, k);
  }

  /** The last block that a wrong merge leaves is not the one that the specified merge leaves. */
  lemma WrongMergeLast(mem: Memory, bs: seq<Block>, k: nat)
    requires Increasing(bs) && LinksDown(mem, bs) && k < |bs| && !MergesWell(mem, bs, k) && After(bs, k) == |bs|
    ensures (if MergeHi(mem, bs, k) == |bs| then MergeLo(mem, bs, k) else |bs| - 1) != Home(bs, k)
  {
    var q := PrevOf(mem, bs, k);
    if JoinsBack(mem, bs, k) && Find(bs, q) < |bs| {
      assert Find(bs, q) < k;
    }
  }

  /** Two cuts that differ: in the list, or in the break if the specified one gives a block back. */
  lemma CutDiffers(mem: Memory, r: seq<Block>, s: seq<Block>, brk: int, page: int)
    requires page > 0 && r != s && r != [] && s != [] && r[|r| - 1].addr < brk
    requires TrailingFree(s) >= DeallocSize(page) ==>
               s[|s| - 1].addr < brk && s[|s| - 1].addr != r[|r| - 1].addr
    ensures Cuts(mem, r, brk, page) != Trim(s, brk, page)
  {
    CutsBrk(mem, r, brk, page);
  }

  lemma FreedLast(h: Heap, base: int, k: nat, page: int)
    requires page > 0 && base > 0 && Good(h, base, page) && k < |h.blocks| && !h.blocks[k].free
    requires TrailingFree(FreeAt(h.blocks, k)) >= DeallocSize(page)
    ensures var r := FreeAt(h.blocks, k);
            After(h.blocks, k) == |h.blocks| && r != [] && r[|r| - 1].addr == h.blocks[Home(h.blocks, k)].addr
  {
    CutIsFreed(h, base, k, page);
    FreeAtShape(h.blocks, k);
  }

  lemma WrongMergeAddr(mem: Memory, bs: seq<Block>, k: nat)
    requires Increasing(bs) && LinksDown(mem, bs) && k < |bs| && !MergesWell(mem, bs, k) && After(bs, k) == |bs|
    ensures var r := Merges(mem, bs, k); r != [] && r[|r| - 1].addr != bs[Home(bs, k)].addr
  {
    MergesLast(mem, bs, k);
    var x := if MergeHi(mem, bs, k) == |bs| then MergeLo(mem, bs, k) else |bs| - 1;
    assert 0 <= x < |bs| && x != Home(bs, k) by { WrongMergeLast(mem, bs, k); }
  }

  lemma MergesLastBelow(mem: Memory, h: Heap, base: int, k: nat)
    requires base > 0 && Tiled(h.blocks, base, h.brk) && k < |h.blocks|
    ensures var r := Merges(mem, h.blocks, k); r != [] && r[|r| - 1].addr < h.brk
  {
    SpacedIncreasing(h.blocks, base, h.brk);
    MergesShape(mem, h.blocks, k);
    MergesLast(mem, h.blocks, k);
  }

  lemma WrongMergeLasts(mem: Memory, h: Heap, base: int, k: nat, page: int)
    requires page > 0 && base > 0 && Good(h, base, page) && k < |h.blocks| && !h.blocks[k].free
    requires LinksDown(mem, h.blocks) && !MergesWell(mem, h.blocks, k)
    requires TrailingFree(FreeAt(h.blocks, k)) >= DeallocSize(page)
    ensures var r, s := Merges(mem, h.blocks, k), FreeAt(h.blocks, k);
            r != [] && s != [] && s[|s| - 1].addr < h.brk && s[|s| - 1].addr != r[|r| - 1].addr
  {
    var home := Home(h.blocks, k);
    assert Increasing(h.blocks) && h.blocks[home].addr < h.brk by { SpacedIncreasing(h.blocks, base, h.brk); }
    FreedLast(h, base, k, page);
    WrongMergeAddr(mem, h.blocks, k);
  }

  /** When the merge goes wrong the heap is wrong, whatever is cut off then: the list or the break differs. */
  lemma WrongMergeShows(mem: Memory, h: Heap, base: int, k: nat, page: int)
    requires page > 0 && base > 0 && Good(h, base, page) && k < |h.blocks| && !h.blocks[k].free
    requires LinksDown(mem, h.blocks) && !MergesWell(mem, h.blocks, k)
    ensures Frees(mem, h, k, page, false) != Free(h, k, page)
  {
    var r, s := Merges(mem, h.blocks, k), FreeAt(h.blocks, k);
    assert |r| != |s| by {
      SpacedIncreasing(h.blocks, base, h.brk);
      WrongMerge(mem, h.blocks, k);
    }
    assert s != [] by { FreeAtShape(h.blocks, k); }
    MergesLastBelow(mem, h, base, k);
    if TrailingFree(s) >= DeallocSize(page) {
      WrongMergeLasts(mem, h, base, k, page);
    }
    CutDiffers(Merged(mem, h.blocks[k].addr, false), r, s, h.brk, page);
  }

  lemma SplicePrev(m: Memory, bs: seq<Block>, r: seq<Block>, lo: nat)
    requires 0 < lo < |bs| && |r| == lo + 1 && r[..lo] == bs[..lo] && r[lo].addr == bs[lo].addr
    ensures PrevOf(m, r, |r| - 1) == PrevOf(m, bs, lo) && r[|r| - 2].addr == AddrAt(bs, lo - 1)
  {
    assert r[lo - 1] == r[..lo][lo - 1] == bs[..lo][lo - 1] == bs[lo - 1];
  }

  /** Where the freed block is cut off, the `prev` that is read is one that was there before the merge. */
  lemma CutPrev(mem: Memory, h: Heap, base: int, k: nat, page: int)
    requires page > 0 && base > 0 && Good(h, base, page) && k < |h.blocks| && !h.blocks[k].free
    requires Holds(mem, h.blocks, k) && LinksDown(mem, h.blocks)
    requires TrailingFree(FreeAt(h.blocks, k)) >= DeallocSize(page) && |FreeAt(h.blocks, k)| > 1
    ensures var r, lo := FreeAt(h.blocks, k), Home(h.blocks, k);
            && PrevOf(Merged(mem, h.blocks[k].addr, false), r, |r| - 1) == PrevOf(mem, h.blocks, lo)
            && r[|r| - 2].addr == AddrAt(h.blocks, lo - 1)
  {
    var bs, r, lo := h.blocks, FreeAt(h.blocks, k), Home(h.blocks, k);
    CutIsFreed(h, base, k, page);
    FreeAtShape(bs, k);
    SplicePrev(Merged(mem, bs[k].addr, false), bs, r, lo);
    SpacedIncreasing(bs, base, h.brk);
    MergedPrev(mem, bs, k, bs[lo].addr);
  }

  /** Where the merge goes well only the cut is left to go wrong. */
  lemma RightMergeFrees(first: int, mem: Memory, h: Heap, base: int, k: nat, page: int)
    requires page > 0 && base > 0 && Tiled(h.blocks, base, h.brk) && k < |h.blocks|
    requires Linked(first, mem, h.blocks) && LinksDown(mem, h.blocks) && MergesWell(mem, h.blocks, k)
    ensures var r, m := FreeAt(h.blocks, k), Merged(mem, h.blocks[k].addr, false);
            && Frees(mem, h, k, page, false) == Cuts(m, r, h.brk, page)
            && FreeMemory(mem, h, k, page, false) == CutMemory(m, r, page)
  {
    SpacedIncreasing(h.blocks, base, h.brk);
    MergesIffWell(first, mem, h.blocks, k);
  }

  lemma FreedCutsIff(mem: Memory, h: Heap, base: int, k: nat, page: int)
    requires page > 0 && base > 0 && Good(h, base, page) && k < |h.blocks| && !h.blocks[k].free
    requires Holds(mem, h.blocks, k) && LinksDown(mem, h.blocks)
    ensures Cuts(Merged(mem, h.blocks[k].addr, false), FreeAt(h.blocks, k), h.brk, page) == Free(h, k, page) <==>
            CutsWell(mem, h.blocks, k, page)
  {
    var r := FreeAt(h.blocks, k);
    FreeAtIncreasing(h.blocks, base, h.brk, k);
    CutsIffRight(Merged(mem, h.blocks[k].addr, false), r, h.brk, page);
    if TrailingFree(r) >= DeallocSize(page) && |r| > 1 {
      CutPrev(mem, h, base, k, page);
    }
  }

  /** Exactly when my_free of a live block, as written, leaves the specified heap. */
  lemma FreesIffWell(first: int, mem: Memory, h: Heap, base: int, k: nat, page: int)
    requires page > 0 && base > 0 && Good(h, base, page) && k < |h.blocks| && !h.blocks[k].free
    requires Linked(first, mem, h.blocks) && LinksDown(mem, h.blocks)
    ensures Frees(mem, h, k, page, false) == Free(h, k, page) <==> FreesWell(mem, h.blocks, k, page)
  {
    if MergesWell(mem, h.blocks, k) {
      assert Holds(mem, h.blocks, k);
      RightMergeFrees(first, mem, h, base, k, page);
      FreedCutsIff(mem, h, base, k, page);
    } else {
      WrongMergeShows(mem, h, base, k, page);
    }
  }

  /** In a doubly linked heap my_free never goes wrong. */
  lemma BackLinkedFreesWell(mem: Memory, bs: seq<Block>, k: nat, page: int)
    requires BackLinked(mem, bs) && k < |bs|
    ensures FreesWell(mem, bs, k, page)
  {
    assert PrevOf(mem, bs, k) == AddrAt(bs, k - 1);
    assert PrevOf(mem, bs, Home(bs, k)) == AddrAt(bs, Home(bs, k) - 1);
  }

  lemma LinkedMerge(first: int, mem: Memory, bs: seq<Block>, base: int, brk: int, k: nat, relink: bool)
    requires base > 0 && Tiled(bs, base, brk) && k < |bs| && Linked(first, mem, bs) && BackLinked(mem, bs)
    ensures MergedBlocks(mem, bs, k, relink) == FreeAt(bs, k)
  {
    SpacedIncreasing(bs, base, brk);
    BackLinkedDown(mem, bs);
    assert PrevOf(mem, bs, k) == AddrAt(bs, k - 1);
    MergesIffWell(first, mem, bs, k);
  }

  lemma LinkedCut(first: int, mem: Memory, h: Heap, base: int, k: nat, page: int, relink: bool)
    requires page > 0 && base > 0 && Good(h, base, page) && k < |h.blocks| && !h.blocks[k].free
    requires Linked(first, mem, h.blocks) && BackLinked(mem, h.blocks)
    ensures var r, m := FreeAt(h.blocks, k), Merged(mem, h.blocks[k].addr, relink);
            && Cuts(m, r, h.brk, page) == Free(h, k, page)
            && (BackLinked(CutMemory(m, r, page), Free(h, k, page).blocks) <==> relink || !JoinsInside(h.blocks, k))
  {
    var r, m := FreeAt(h.blocks, k), Merged(mem, h.blocks[k].addr, relink);
    MergedWell(first, mem, h.blocks, base, h.brk, k, relink);
    FreeAtIncreasing(h.blocks, base, h.brk, k);
    CutIsRight(m, r, h.brk, page);
    CutKeepsBackLinks(m, r, h.brk, page);
  }

  /**
   From a doubly linked heap the specified heap is left, in both forms of the code. It is doubly linked exactly
   when block k is not joined with a next block that has a successor, or the omitted store is added.
   */
  lemma LinkedFrees(first: int, mem: Memory, h: Heap, base: int, k: nat, page: int, relink: bool)
    requires page > 0 && base > 0 && Good(h, base, page) && k < |h.blocks| && !h.blocks[k].free
    requires Linked(first, mem, h.blocks) && BackLinked(mem, h.blocks)
    ensures Frees(mem, h, k, page, relink) == Free(h, k, page)
    ensures FreeMemory(mem, h, k, page, relink) ==
            CutMemory(Merged(mem, h.blocks[k].addr, relink), FreeAt(h.blocks, k), page)
    ensures BackLinked(FreeMemory(mem, h, k, page, relink), Free(h, k, page).blocks) <==>
            relink || !JoinsInside(h.blocks, k)
  {
    LinkedMerge(first, mem, h.blocks, base, h.brk, k, relink);
    LinkedCut(first, mem, h, base, k, page, relink);
  }

  lemma FreeAtIncreasing(bs: seq<Block>, base: int, brk: int, k: nat)
    requires base > 0 && Tiled(bs, base, brk) && k < |bs|
    ensures Increasing(FreeAt(bs, k)) && Distinct(FreeAt(bs, k))
  {
    FreeAtTiles(bs, base, brk, k);
    SpacedIncreasing(FreeAt(bs, k), base, brk);
  }

  lemma RelinkedMerge(first: int, mem: Memory, bs: seq<Block>, base: int, brk: int, k: nat)
    requires base > 0 && Tiled(bs, base, brk) && Coalesced(bs) && Linked(first, mem, bs) && BackLinked(mem, bs)
    requires k < |bs| && !bs[k].free
    ensures var r, m := FreeAt(bs, k), Merged(mem, bs[k].addr, true);
            && Increasing(r) && Distinct(r) && Linked(first, m, r) && LinksDown(m, r)
  {
    MergedWell(first, mem, bs, base, brk, k, true);
    FreeAtIncreasing(bs, base, brk, k);
    BackLinkedDown(Merged(mem, bs[k].addr, true), FreeAt(bs, k));
  }

  // ----- On a heap with gaps -----

  lemma SpliceSpaced(bs: seq<Block>, r: seq<Block>, base: int, brk: int, lo: nat, hi: nat)
    requires Spaced(bs, base, brk) && lo < hi <= |bs| && lo < |r| && r == bs[..lo] + [r[lo]] + bs[hi..]
    requires r[lo].addr == bs[lo].addr && r[lo].size > HEADER_SIZE && r[lo].End() <= bs[hi - 1].End()
    ensures Spaced(r, base, brk)
  {
    assert forall i :: 0 <= i < lo ==> r[i] == bs[i];
    forall i | lo < i < |r| ensures r[i] == bs[i + hi - lo - 1] {}
    forall i | 0 < i < |r| ensures r[i - 1].End() <= r[i].addr {
      if i <= lo {
        assert bs[i - 1].End() <= bs[i].addr;
      } else if i == lo + 1 {
        assert bs[hi - 1].End() <= bs[hi].addr;
      } else {
        var x := i + hi - lo - 1;
        assert bs[x - 1].End() <= bs[x].addr;
      }
    }
  }

  lemma JoinedSize(bs: seq<Block>, base: int, brk: int, j: nat, k: nat)
    requires Spaced(bs, base, brk) && j < k < |bs|
    ensures bs[j].size + bs[k].size > HEADER_SIZE && bs[j].addr + bs[j].size + bs[k].size <= bs[k].End()
  {
    Ascending(bs, base, brk, j, k);
  }

  /** The size of the joined block, that of the blocks it is made of. */
  lemma MergesAt(mem: Memory, bs: seq<Block>, k: nat)
    requires k < |bs|
    ensures var lo, hi, r := MergeLo(mem, bs, k), MergeHi(mem, bs, k), Merges(mem, bs, k);
            && lo < |r| && lo <= k < hi <= k + 2 && hi <= |bs|
            && r[lo].size == (if lo < k then bs[lo].size + bs[k].size else bs[k].size) +
                             (if hi == k + 2 then bs[k + 1].size else 0)
  {
    var lo, f := MergeLo(mem, bs, k), Freed(bs, k);
    if lo < k {
      assert k + 1 < |bs| ==> JoinAcross(f, lo, k)[lo + 1] == bs[k + 1];
    }
  }

  lemma MergesSize(mem: Memory, bs: seq<Block>, base: int, brk: int, k: nat)
    requires Spaced(bs, base, brk) && k < |bs|
    ensures var lo, hi, r := MergeLo(mem, bs, k), MergeHi(mem, bs, k), Merges(mem, bs, k);
            lo < |r| && hi <= |bs| && r[lo].size > HEADER_SIZE && bs[lo].addr + r[lo].size <= bs[hi - 1].End()
  {
    MergesAt(mem, bs, k);
    var lo := MergeLo(mem, bs, k);
    if lo < k { JoinedSize(bs, base, brk, lo, k); }
  }

  /** free_and_merge keeps the blocks apart, whatever it joins. */
  lemma MergesSpaced(mem: Memory, bs: seq<Block>, base: int, brk: int, k: nat)
    requires Spaced(bs, base, brk) && k < |bs|
    ensures Spaced(Merges(mem, bs, k), base, brk)
  {
    MergesShape(mem, bs, k);
    MergesSize(mem, bs, base, brk, k);
    SpliceSpaced(bs, Merges(mem, bs, k), base, brk, MergeLo(mem, bs, k), MergeHi(mem, bs, k));
  }

  /** The last block is given back, but its `prev` names no block, so that it stays in the list. */
  predicate KeepsCut(mem: Memory, r: seq<Block>, page: int) {
    TrailingFree(r) >= DeallocSize(page) && |r| > 1 && Find(r, PrevOf(mem, r, |r| - 1)) == |r|
  }

  lemma CutsSpaced(mem: Memory, r: seq<Block>, base: int, brk: int, page: int)
    requires page > 0 && base > 0 && Spaced(r, base, brk) && LinksDown(mem, r)
    ensures var c := Cuts(mem, r, brk, page);
            Spaced(c.blocks, base, c.brk) <==> !KeepsCut(mem, r, page)
  {
    if TrailingFree(r) >= DeallocSize(page) && |r| > 1 {
      var last := |r| - 1;
      var j := Find(r, PrevOf(mem, r, last));
      if j < last { Ascending(r, base, brk, j, last); }
      assert r[..|r|] == r;
    }
  }

  predicate KeepsCutBlock(mem: Memory, h: Heap, k: nat, page: int)
    requires k < |h.blocks|
  {
    KeepsCut(Merged(mem, h.blocks[k].addr, false), Merges(mem, h.blocks, k), page)
  }

  /** my_free as written keeps the blocks apart, except where it gives back a block that stays in the list. */
  lemma FreesSpaced(first: int, mem: Memory, h: Heap, base: int, k: nat, page: int)
    requires page > 0 && base > 0 && Spaced(h.blocks, base, h.brk) && k < |h.blocks|
    requires Linked(first, mem, h.blocks) && LinksDown(mem, h.blocks)
    ensures var f := Frees(mem, h, k, page, false);
            Spaced(f.blocks, base, f.brk) <==> !KeepsCutBlock(mem, h, k, page)
  {
    SpacedIncreasing(h.blocks, base, h.brk);
    assert Holds(mem, h.blocks, k);
    MergesDown(mem, h.blocks, k);
    MergesSpaced(mem, h.blocks, base, h.brk, k);
    CutsSpaced(Merged(mem, h.blocks[k].addr, false), Merges(mem, h.blocks, k), base, h.brk, page);
  }
}
