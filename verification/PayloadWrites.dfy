/**
 Which stores of ch07/malloc_and_free.c fall inside a block that is in use. The caller owns the bytes
 strictly inside such a block, may write anything there, and loses what the allocator stores there.
 */
module PayloadWrites {
  import opened HeapBlocks
  import opened HeapMemory
  import opened StaleLinks
  import opened HeapGrowth

  /** Strictly inside: the address of the block itself is that of its header. */
  predicate Inside(b: Block, a: int) {
    b.addr < a < b.End()
  }

  predicate InsideLive(bs: seq<Block>, a: int) {
    exists i :: 0 <= i < |bs| && !bs[i].free && Inside(bs[i], a)
  }

  predicate SameAt(mem: Memory, m: Memory, a: int) {
    (a in m <==> a in mem) && At(m, a) == At(mem, a)
  }

  ghost predicate KeepsInside(mem: Memory, m: Memory, b: Block) {
    forall a :: Inside(b, a) ==> SameAt(mem, m, a)
  }

  /** Nothing changes strictly inside a block in use. */
  ghost predicate PayloadsKept(mem: Memory, m: Memory, bs: seq<Block>) {
    forall a :: InsideLive(bs, a) ==> SameAt(mem, m, a)
  }

  lemma KeptInside(mem: Memory, m: Memory, bs: seq<Block>)
    ensures PayloadsKept(mem, m, bs) <==> forall i :: 0 <= i < |bs| && !bs[i].free ==> KeepsInside(mem, m, bs[i])
  {
    if forall i :: 0 <= i < |bs| && !bs[i].free ==> KeepsInside(mem, m, bs[i]) {
      forall a | InsideLive(bs, a) ensures SameAt(mem, m, a) {
        var i :| 0 <= i < |bs| && !bs[i].free && Inside(bs[i], a);
        assert KeepsInside(mem, m, bs[i]);
      }
    }
  }

  // ----- Headers of the list are never strictly inside a block -----

  lemma HeaderIsOutside(bs: seq<Block>, base: int, brk: int, i: nat, j: nat)
    requires Spaced(bs, base, brk) && i < |bs| && j < |bs|
    ensures !Inside(bs[j], bs[i].addr)
  {
    BlocksApart(bs, base, brk, i, j);
  }

  lemma HeaderIsNotLive(bs: seq<Block>, base: int, brk: int, i: int)
    requires Spaced(bs, base, brk) && 0 <= i < |bs|
    ensures !InsideLive(bs, bs[i].addr)
  {
    forall j | 0 <= j < |bs| ensures !Inside(bs[j], bs[i].addr) { HeaderIsOutside(bs, base, brk, i, j); }
  }

  // ----- What the caller may write -----

  ghost predicate OwnWrites(mem: Memory, m: Memory, bs: seq<Block>) {
    forall a :: SameAt(mem, m, a) || InsideLive(bs, a)
  }

  lemma OwnWritesKeep(first: int, mem: Memory, m: Memory, bs: seq<Block>, base: int, brk: int)
    requires Spaced(bs, base, brk) && Linked(first, mem, bs) && OwnWrites(mem, m, bs)
    ensures Linked(first, m, bs)
    ensures (BackLinked(mem, bs) ==> BackLinked(m, bs)) && (LinksDown(mem, bs) ==> LinksDown(m, bs))
  {
    forall i | 0 <= i < |bs| ensures Holds(m, bs, i) && PrevOf(m, bs, i) == PrevOf(mem, bs, i) {
      HeaderIsNotLive(bs, base, brk, i);
      assert SameAt(mem, m, bs[i].addr) && Holds(mem, bs, i);
    }
  }

  // ----- my_free -----

  /** The addresses at which free_and_merge may store. */
  predicate MergeStores(mem: Memory, bs: seq<Block>, k: nat, relink: bool, a: int)
    requires k < |bs|
  {
    || a == bs[k].addr || a == AddrAt(bs, k + 1) || (relink && a == AddrAt(bs, k + 2))
    || (JoinsBack(mem, bs, k) && a == PrevOf(mem, bs, k))
  }

  lemma MergedElsewhere(first: int, mem: Memory, bs: seq<Block>, k: nat, relink: bool, a: int)
    requires Linked(first, mem, bs) && k < |bs| && PrevOf(mem, bs, k) != bs[k].addr && a != 0
    requires !MergeStores(mem, bs, k, relink, a)
    ensures SameAt(mem, Merged(mem, bs[k].addr, relink), a)
  {
    assert Holds(mem, bs, k);
    if k + 1 < |bs| { assert Holds(mem, bs, k + 1); }
  }

  /** Where the code joins the freed block to what its `prev` names, the size stored there grows. */
  lemma MergedAtPrev(first: int, mem: Memory, bs: seq<Block>, base: int, brk: int, k: nat)
    requires Spaced(bs, base, brk) && Linked(first, mem, bs) && k < |bs| && JoinsBack(mem, bs, k)
    requires 0 < PrevOf(mem, bs, k) < bs[k].addr
    ensures !SameAt(mem, Merged(mem, bs[k].addr, false), PrevOf(mem, bs, k))
  {
    assert Holds(mem, bs, k);
    if k + 1 < |bs| { assert Holds(mem, bs, k + 1); }
  }

  /** Exactly when free_and_merge stores strictly inside block i. */
  lemma MergedInside(first: int, mem: Memory, bs: seq<Block>, base: int, brk: int, k: nat, i: nat)
    requires base > 0 && Spaced(bs, base, brk) && Linked(first, mem, bs) && LinksDown(mem, bs) && k < |bs| && i < |bs|
    ensures KeepsInside(mem, Merged(mem, bs[k].addr, false), bs[i]) <==>
            !(JoinsBack(mem, bs, k) && Inside(bs[i], PrevOf(mem, bs, k)))
  {
    var m, q := Merged(mem, bs[k].addr, false), PrevOf(mem, bs, k);
    if JoinsBack(mem, bs, k) && Inside(bs[i], q) {
      MergedAtPrev(first, mem, bs, base, brk, k);
    } else {
      forall a | Inside(bs[i], a) ensures SameAt(mem, m, a) {
        HeaderIsOutside(bs, base, brk, k, i);
        if k + 1 < |bs| { HeaderIsOutside(bs, base, brk, k + 1, i); }
        BlocksApart(bs, base, brk, i, i);
        MergedElsewhere(first, mem, bs, k, false, a);
      }
    }
  }

  /** The stale `prev` of block k names a header that says free, strictly inside a block in use. */
  predicate Overwrites(mem: Memory, bs: seq<Block>, k: nat)
    requires k < |bs|
  {
    JoinsBack(mem, bs, k) && InsideLive(bs, PrevOf(mem, bs, k))
  }

  lemma MergedKeepsIff(first: int, mem: Memory, bs: seq<Block>, base: int, brk: int, k: nat)
    requires base > 0 && Spaced(bs, base, brk) && Linked(first, mem, bs) && LinksDown(mem, bs) && k < |bs|
    ensures PayloadsKept(mem, Merged(mem, bs[k].addr, false), bs) <==> !Overwrites(mem, bs, k)
  {
    var m := Merged(mem, bs[k].addr, false);
    KeptInside(mem, m, bs);
    forall i | 0 <= i < |bs|
      ensures KeepsInside(mem, m, bs[i]) <==> !(JoinsBack(mem, bs, k) && Inside(bs[i], PrevOf(mem, bs, k)))
    {
      MergedInside(first, mem, bs, base, brk, k, i);
    }
  }

  /** The cut stores at the header that the last block's `prev` names. */
  lemma CutElsewhere(mem: Memory, r: seq<Block>, page: int, a: int)
    requires |r| > 1 ==> a != PrevOf(mem, r, |r| - 1)
    ensures SameAt(mem, CutMemory(mem, r, page), a)
  {
  }

  /** A cut through a right `prev` stores at the header of a block. */
  lemma CutKeeps(mem: Memory, m: Memory, bs: seq<Block>, r: seq<Block>, base: int, brk: int, page: int, x: nat)
    requires Spaced(bs, base, brk)
    requires TrailingFree(r) >= DeallocSize(page) && |r| > 1 ==> x < |bs| && PrevOf(m, r, |r| - 1) == bs[x].addr
    ensures PayloadsKept(mem, CutMemory(m, r, page), bs) <==> PayloadsKept(mem, m, bs)
  {
    var c := CutMemory(m, r, page);
    forall a | InsideLive(bs, a) ensures SameAt(m, c, a) {
      if TrailingFree(r) >= DeallocSize(page) && |r| > 1 {
        HeaderIsNotLive(bs, base, brk, x);
        CutElsewhere(m, r, page, a);
      }
    }
    assert forall a :: InsideLive(bs, a) ==> (SameAt(mem, c, a) <==> SameAt(mem, m, a));
  }

  /** Every block that is left has the address of one that was there. */
  lemma FreedFrom(bs: seq<Block>, k: nat, i: nat) returns (x: nat)
    requires k < |bs| && i < |FreeAt(bs, k)|
    ensures x < |bs| && FreeAt(bs, k)[i].addr == bs[x].addr
  {
    FreeAtShape(bs, k);
    x := SplicedFrom(bs, FreeAt(bs, k), Home(bs, k), After(bs, k), i);
  }

  lemma SplicedFrom(bs: seq<Block>, r: seq<Block>, lo: nat, hi: nat, i: nat) returns (x: nat)
    requires lo < hi <= |bs| && lo < |r| && r == bs[..lo] + [r[lo]] + bs[hi..] && r[lo].addr == bs[lo].addr
    requires i < |r|
    ensures x < |bs| && r[i].addr == bs[x].addr
  {
    x := if i <= lo then i else i + hi - lo - 1;
  }

  /** Where the last block is cut off and the links are right, the store falls on the header of a block. */
  lemma FreedCutKeeps(mem: Memory, m: Memory, bs: seq<Block>, base: int, brk: int, k: nat, page: int)
    requires Spaced(bs, base, brk) && k < |bs|
    requires var r := FreeAt(bs, k);
             TrailingFree(r) >= DeallocSize(page) && |r| > 1 ==> PrevOf(m, r, |r| - 1) == r[|r| - 2].addr
    ensures PayloadsKept(mem, CutMemory(m, FreeAt(bs, k), page), bs) <==> PayloadsKept(mem, m, bs)
  {
    var r := FreeAt(bs, k);
    var x := 0;
    if |r| > 1 { x := FreedFrom(bs, k, |r| - 2); }
    CutKeeps(mem, m, bs, r, base, brk, page, x);
  }

  predicate FreesSafely(mem: Memory, bs: seq<Block>, k: nat, page: int)
    requires k < |bs|
  {
    FreesWell(mem, bs, k, page) && !Overwrites(mem, bs, k)
  }

  lemma CutSpares(mem: Memory, h: Heap, base: int, k: nat, page: int)
    requires page > 0 && base > 0 && Good(h, base, page) && k < |h.blocks| && !h.blocks[k].free
    requires Holds(mem, h.blocks, k) && LinksDown(mem, h.blocks) && CutsWell(mem, h.blocks, k, page)
    ensures var m := Merged(mem, h.blocks[k].addr, false);
            PayloadsKept(mem, CutMemory(m, FreeAt(h.blocks, k), page), h.blocks) <==> PayloadsKept(mem, m, h.blocks)
  {
    FreedLastLink(mem, h, base, k, page);
    FreedCutKeeps(mem, Merged(mem, h.blocks[k].addr, false), h.blocks, base, h.brk, k, page);
  }

  lemma FreeKeepsIff(first: int, mem: Memory, h: Heap, base: int, k: nat, page: int)
    requires page > 0 && base > 0 && Good(h, base, page) && k < |h.blocks| && !h.blocks[k].free
    requires Linked(first, mem, h.blocks) && LinksDown(mem, h.blocks) && CutsWell(mem, h.blocks, k, page)
    ensures PayloadsKept(mem, CutMemory(Merged(mem, h.blocks[k].addr, false), FreeAt(h.blocks, k), page), h.blocks)
            <==> !Overwrites(mem, h.blocks, k)
  {
    assert Holds(mem, h.blocks, k);
    CutSpares(mem, h, base, k, page);
    MergedKeepsIff(first, mem, h.blocks, base, h.brk, k);
  }

  lemma FreedLastLink(mem: Memory, h: Heap, base: int, k: nat, page: int)
    requires page > 0 && base > 0 && Good(h, base, page) && k < |h.blocks| && !h.blocks[k].free
    requires Holds(mem, h.blocks, k) && LinksDown(mem, h.blocks) && CutsWell(mem, h.blocks, k, page)
    ensures var r, m := FreeAt(h.blocks, k), Merged(mem, h.blocks[k].addr, false);
            TrailingFree(r) >= DeallocSize(page) && |r| > 1 ==> PrevOf(m, r, |r| - 1) == r[|r| - 2].addr
  {
    var r := FreeAt(h.blocks, k);
    if TrailingFree(r) >= DeallocSize(page) && |r| > 1 {
      CutPrev(mem, h, base, k, page);
    }
  }

  /**
   Exactly when my_free as written of a live block does what it should: it leaves the specified heap and
   stores nothing inside a block in use.
   */
  lemma FreesSafelyIff(first: int, mem: Memory, h: Heap, base: int, k: nat, page: int)
    requires page > 0 && base > 0 && Good(h, base, page) && k < |h.blocks| && !h.blocks[k].free
    requires Linked(first, mem, h.blocks) && LinksDown(mem, h.blocks)
    ensures (&& Frees(mem, h, k, page, false) == Free(h, k, page)
             && PayloadsKept(mem, FreeMemory(mem, h, k, page, false), h.blocks))
            <==> FreesSafely(mem, h.blocks, k, page)
  {
    FreesIffWell(first, mem, h, base, k, page);
    if FreesWell(mem, h.blocks, k, page) {
      RightMergeFrees(first, mem, h, base, k, page);
      FreeKeepsIff(first, mem, h, base, k, page);
    }
  }

  /** In a doubly linked heap my_free, with or without the added store, stores at headers of blocks only. */
  lemma LinkedFreeKeeps(first: int, mem: Memory, h: Heap, base: int, k: nat, page: int, relink: bool)
    requires page > 0 && base > 0 && Good(h, base, page) && k < |h.blocks| && !h.blocks[k].free
    requires Linked(first, mem, h.blocks) && BackLinked(mem, h.blocks)
    ensures PayloadsKept(mem, CutMemory(Merged(mem, h.blocks[k].addr, relink), FreeAt(h.blocks, k), page), h.blocks)
  {
    LinkedMergeKeeps(first, mem, h.blocks, base, h.brk, k, relink);
    MergedWell(first, mem, h.blocks, base, h.brk, k, relink);
    FreedCutKeeps(mem, Merged(mem, h.blocks[k].addr, relink), h.blocks, base, h.brk, k, page);
  }

  lemma LinkedMergeKeeps(first: int, mem: Memory, bs: seq<Block>, base: int, brk: int, k: nat, relink: bool)
    requires base > 0 && Spaced(bs, base, brk) && k < |bs| && Linked(first, mem, bs) && BackLinked(mem, bs)
    ensures PayloadsKept(mem, Merged(mem, bs[k].addr, relink), bs)
  {
    assert PrevOf(mem, bs, k) == AddrAt(bs, k - 1);
    SpacedIncreasing(bs, base, brk);
    forall a | InsideLive(bs, a) ensures SameAt(mem, Merged(mem, bs[k].addr, relink), a) {
      LinkedStoresOutside(mem, bs, base, brk, k, relink, a);
      MergedElsewhere(first, mem, bs, k, relink, a);
    }
  }

  lemma LinkedStoresOutside(mem: Memory, bs: seq<Block>, base: int, brk: int, k: nat, relink: bool, a: int)
    requires base > 0 && Spaced(bs, base, brk) && k < |bs| && PrevOf(mem, bs, k) == AddrAt(bs, k - 1)
    requires InsideLive(bs, a)
    ensures a != 0 && !MergeStores(mem, bs, k, relink, a)
  {
    var j :| 0 <= j < |bs| && !bs[j].free && Inside(bs[j], a);
    BlocksApart(bs, base, brk, j, j);
    HeaderIsNotLive(bs, base, brk, k);
    if k > 0 { HeaderIsNotLive(bs, base, brk, k - 1); }
    if k + 1 < |bs| { HeaderIsNotLive(bs, base, brk, k + 1); }
    if k + 2 < |bs| { HeaderIsNotLive(bs, base, brk, k + 2); }
  }

  // ----- my_malloc -----

  lemma GrownElsewhere(mem: Memory, h: Heap, n: int, page: int, ok: bool, a: int)
    requires page > 0 && a != h.brk && (h.blocks != [] ==> a != h.blocks[|h.blocks| - 1].addr)
    ensures SameAt(mem, GrownMemory(mem, h, n, page, ok), a)
  {
  }

  lemma HandedOutElsewhere(mem: Memory, b: int, n: int, relink: bool, a: int)
    requires a != b && a != At(mem, b).next && (At(mem, b).size - n > HEADER_SIZE ==> a != b + n)
    ensures SameAt(mem, HandedOut(mem, b, n, relink), a)
  {
  }

  /** A block in use is not touched when room is made, and is not the block that is handed out. */
  lemma StagedLive(h: Heap, n: int, page: int, j: nat)
    requires page > 0 && j < |h.blocks| && !h.blocks[j].free
    ensures j < |Stage(h, n, page)| && Stage(h, n, page)[j] == h.blocks[j] && j != StageIndex(h, n)
  {
  }

  lemma InsideIsOutside(bs: seq<Block>, base: int, top: int, k: nat, n: int, j: nat, a: int)
    requires base > 0 && Spaced(bs, base, top) && k < |bs| && j < |bs| && j != k && Inside(bs[j], a) && n > 0
    ensures a != bs[k].addr && a != AddrAt(bs, k + 1) && (Splits(bs[k], n) ==> a != bs[k].addr + n)
  {
    BlocksApart(bs, base, top, j, k);
    if k + 1 < |bs| { HeaderIsOutside(bs, base, top, k + 1, j); }
  }

  /** my_malloc stores at no address inside a block in use. */
  lemma StagedOutside(h: Heap, base: int, n: int, page: int, a: int)
    requires page > 0 && base > 0 && n > HEADER_SIZE && Spaced(h.blocks, base, h.brk) && InsideLive(h.blocks, a)
    ensures var bs, k := Stage(h, n, page), StageIndex(h, n);
            && k < |bs| && a != bs[k].addr && a != AddrAt(bs, k + 1)
            && (Splits(bs[k], n) ==> a != bs[k].addr + n)
  {
    var j :| 0 <= j < |h.blocks| && !h.blocks[j].free && Inside(h.blocks[j], a);
    StageSpaced(h, base, n, page);
    StagedLive(h, n, page, j);
    InsideIsOutside(Stage(h, n, page), base, StageBrk(h, n, page), StageIndex(h, n), n, j, a);
  }

  lemma BelowBrk(bs: seq<Block>, base: int, brk: int, a: int)
    requires Spaced(bs, base, brk) && InsideLive(bs, a)
    ensures a != brk && (bs != [] ==> a != bs[|bs| - 1].addr)
  {
    var j :| 0 <= j < |bs| && !bs[j].free && Inside(bs[j], a);
    BlocksApart(bs, base, brk, j, |bs| - 1);
  }

  /** my_malloc, with or without the added store, stores nothing inside a block in use. */
  lemma MallocKeepsPayloads(first: int, mem: Memory, h: Heap, base: int, n: int, page: int, ok: bool, relink: bool)
    requires page > 0 && base > 0 && n > HEADER_SIZE && Spaced(h.blocks, base, h.brk) && Linked(first, mem, h.blocks)
    ensures PayloadsKept(mem, MallocMemory(mem, h, n, page, ok, relink), h.blocks)
  {
    if FindsRoom(h, n, ok) {
      var bs, k, g := Stage(h, n, page), StageIndex(h, n), GrownMemory(mem, h, n, page, ok);
      IsStaged(first, mem, h, base, n, page, ok, relink);
      assert Holds(g, bs, k);
      forall a | InsideLive(h.blocks, a) ensures SameAt(mem, HandedOut(g, bs[k].addr, n, relink), a) {
        StagedKeeps(mem, h, base, n, page, ok, relink, g, a);
      }
    }
  }

  lemma StagedKeeps(mem: Memory, h: Heap, base: int, n: int, page: int, ok: bool, relink: bool, g: Memory, a: int)
    requires page > 0 && base > 0 && n > HEADER_SIZE && Spaced(h.blocks, base, h.brk) && InsideLive(h.blocks, a)
    requires g == GrownMemory(mem, h, n, page, ok) && StageIndex(h, n) < |Stage(h, n, page)|
    requires Holds(g, Stage(h, n, page), StageIndex(h, n))
    ensures SameAt(mem, HandedOut(g, Stage(h, n, page)[StageIndex(h, n)].addr, n, relink), a)
  {
    assert SameAt(mem, g, a) by {
      BelowBrk(h.blocks, base, h.brk, a);
      GrownElsewhere(mem, h, n, page, ok, a);
    }
    StagedOutside(h, base, n, page, a);
    HandedOutElsewhere(g, Stage(h, n, page)[StageIndex(h, n)].addr, n, relink, a);
  }

  /**
   What a request does to the layout: the blocks still do not overlap and lie below the break iff sbrk succeeds or
   no block is enlarged beyond the break; the break moves by the fewest whole pages that are enough, or not at all.
   */
  ghost predicate RightRequest(h: Heap, base: int, n: int, page: int, ok: bool, h': Heap)
    requires page > 0
  {
    && (Spaced(h'.blocks, base, h'.brk) <==> ok || !Overruns(h, n, page))
    && MovesBreak(Missing(h, n), ok, page, h'.brk - h.brk)
  }

  lemma MallocRight(first: int, mem: Memory, h: Heap, base: int, n: int, page: int, ok: bool, relink: bool)
    requires page > 0 && base > 0 && n > HEADER_SIZE && Spaced(h.blocks, base, h.brk) && Linked(first, mem, h.blocks)
    ensures RightRequest(h, base, n, page, ok, Malloc(h, n, page, ok).heap)
    ensures PayloadsKept(mem, MallocMemory(mem, h, n, page, ok, relink), h.blocks)
  {
    MallocMovesBreak(h, n, page, ok);
    MallocSpaced(h, base, n, page, ok);
    MallocKeepsPayloads(first, mem, h, base, n, page, ok, relink);
  }
}
