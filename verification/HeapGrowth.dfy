/**
 my_malloc of ch07/malloc_and_free.c on the headers in memory: what it stores, and what becomes of the
 links, forwards and backwards, on any heap whose blocks do not overlap.
 */
module HeapGrowth {
  import opened HeapBlocks
  import opened HeapMemory
  import opened StaleLinks

  // ----- my_malloc keeps the links down -----

  lemma SplitDown(mem: Memory, m: Memory, bs: seq<Block>, r: seq<Block>, k: nat, n: int)
    requires Increasing(bs) && LinksDown(mem, bs) && k < |bs| && n > 0 && |r| == |bs| + 1
    requires forall i :: 0 <= i <= k ==> r[i].addr == bs[i].addr
    requires forall i :: k + 1 < i < |r| ==> r[i].addr == bs[i - 1].addr
    requires r[k + 1].addr == bs[k].addr + n && At(m, bs[k].addr + n).prev == bs[k].addr
    requires forall i :: 0 <= i < |bs| ==> PrevOf(m, bs, i) == PrevOf(mem, bs, i)
    ensures LinksDown(m, r)
  {
    forall i | 0 <= i < |r| ensures if i == 0 then PrevOf(m, r, i) == 0 else 0 < PrevOf(m, r, i) < r[i].addr {
      if i <= k {
        assert PrevOf(m, r, i) == PrevOf(m, bs, i);
      } else if i > k + 1 {
        assert PrevOf(m, r, i) == PrevOf(m, bs, i - 1);
      }
    }
  }

  lemma HandedOutDown(mem: Memory, bs: seq<Block>, base: int, top: int, k: nat, n: int)
    requires base > 0 && Spaced(bs, base, top) && k < |bs| && HEADER_SIZE < n <= bs[k].size && Holds(mem, bs, k)
    requires LinksDown(mem, bs)
    ensures LinksDown(HandedOut(mem, bs[k].addr, n, false), Grab(bs, k, n))
  {
    var m, r := HandedOut(mem, bs[k].addr, n, false), Grab(bs, k, n);
    forall i | 0 <= i < |bs| ensures PrevOf(m, bs, i) == PrevOf(mem, bs, i) {
      HandedOutPrev(mem, bs, base, top, k, n, i);
    }
    if Splits(bs[k], n) {
      SpacedIncreasing(bs, base, top);
      RestLink(mem, bs, base, top, k, n);
      SplitDown(mem, m, bs, r, k, n);
    } else {
      SameAddressLinks(mem, m, bs, r);
    }
  }

  lemma RestLink(mem: Memory, bs: seq<Block>, base: int, top: int, k: nat, n: int)
    requires base > 0 && Spaced(bs, base, top) && k < |bs| && HEADER_SIZE < n <= bs[k].size && Holds(mem, bs, k)
    requires Splits(bs[k], n)
    ensures At(HandedOut(mem, bs[k].addr, n, false), bs[k].addr + n).prev == bs[k].addr
  {
    ShrinkDistinct(bs, base, top, k, n);
    ResizedPrev(mem, bs, k, n, false, k);
  }

  // ----- Memory after my_malloc -----

  function Added(mem: Memory, bs: seq<Block>, nb: int): Memory {
    if bs == [] then mem[nb := At(mem, nb).(next := 0, prev := 0)]
    else
      var p := bs[|bs| - 1].addr;
      var m := mem[p := At(mem, p).(next := nb)];
      m[nb := At(m, nb).(prev := p, next := 0)]
  }

  /** The headers once there is a block to hand out. */
  function GrownMemory(mem: Memory, h: Heap, n: int, page: int, ok: bool): Memory
    requires page > 0
  {
    if FirstFit(h.blocks, n) < |h.blocks| then mem
    else if Extends(h.blocks, n) then
      var b := h.blocks[|h.blocks| - 1].addr;
      var grow := PageRound(n - At(mem, b).size, page);
      var m := if ok then mem[h.brk := Header(grow, true, 0, 0)] else mem;
      m[b := At(m, b).(size := At(m, b).size + grow)]
    else if ok then Added(mem[h.brk := Header(PageRound(n, page), true, 0, 0)], h.blocks, h.brk)
    else mem
  }

  function MallocMemory(mem: Memory, h: Heap, n: int, page: int, ok: bool, relink: bool): Memory
    requires page > 0
  {
    var b := Malloc(h, n, page, ok).block;
    if b == 0 then mem else HandedOut(GrownMemory(mem, h, n, page, ok), b, n, relink)
  }

  lemma AppendDown(mem: Memory, m: Memory, bs: seq<Block>, b: Block)
    requires Increasing(bs + [b]) && LinksDown(mem, bs)
    requires forall i :: 0 <= i < |bs| ==> PrevOf(m, bs, i) == PrevOf(mem, bs, i)
    requires At(m, b.addr).prev == AddrAt(bs, |bs| - 1)
    ensures LinksDown(m, bs + [b])
  {
    var r := bs + [b];
    forall i | 0 <= i < |r| ensures if i == 0 then PrevOf(m, r, i) == 0 else 0 < PrevOf(m, r, i) < r[i].addr {
      if i < |bs| {
        assert PrevOf(m, r, i) == PrevOf(m, bs, i);
      } else {
        assert i > 0 ==> r[i - 1] == bs[i - 1];
      }
    }
  }

  lemma GrownPrev(mem: Memory, h: Heap, base: int, n: int, page: int, ok: bool)
    requires page > 0 && base > 0 && Spaced(h.blocks, base, h.brk)
    ensures var m := GrownMemory(mem, h, n, page, ok);
            && (forall i :: 0 <= i < |h.blocks| ==> PrevOf(m, h.blocks, i) == PrevOf(mem, h.blocks, i))
            && (ok && FirstFit(h.blocks, n) == |h.blocks| && !Extends(h.blocks, n) ==>
                  At(m, h.brk).prev == AddrAt(h.blocks, |h.blocks| - 1))
  {
    BrkIsOffList(h.blocks, base, h.brk);
    SpacedDistinct(h.blocks, base, h.brk);
  }

  lemma AppendBack(mem: Memory, m: Memory, bs: seq<Block>, b: Block)
    requires BackLinked(mem, bs) && At(m, b.addr).prev == AddrAt(bs, |bs| - 1)
    requires forall i :: 0 <= i < |bs| ==> PrevOf(m, bs, i) == PrevOf(mem, bs, i)
    ensures BackLinked(m, bs + [b])
  {
    var r := bs + [b];
    forall i | 0 <= i < |r| ensures PrevOf(m, r, i) == AddrAt(r, i - 1) {
      if i < |bs| { assert PrevOf(m, bs, i) == PrevOf(mem, bs, i) == AddrAt(bs, i - 1); }
    }
  }

  /** Growing the heap keeps links that are right, and links that point down. */
  lemma GrownLinks(mem: Memory, h: Heap, base: int, n: int, page: int, ok: bool)
    requires page > 0 && base > 0 && Spaced(h.blocks, base, h.brk) && FindsRoom(h, n, ok)
    ensures var m, r := GrownMemory(mem, h, n, page, ok), Stage(h, n, page);
            && (BackLinked(mem, h.blocks) ==> BackLinked(m, r))
            && (LinksDown(mem, h.blocks) ==> LinksDown(m, r))
  {
    var bs, m := h.blocks, GrownMemory(mem, h, n, page, ok);
    GrownPrev(mem, h, base, n, page, ok);
    if FirstFit(bs, n) == |bs| && !Extends(bs, n) {
      var b := Block(h.brk, PageRound(n, page), true);
      AppendedIncreasing(bs, base, h.brk, b);
      if LinksDown(mem, bs) { AppendDown(mem, m, bs, b); }
      if BackLinked(mem, bs) { AppendBack(mem, m, bs, b); }
    } else {
      SameAddressLinks(mem, m, bs, Stage(h, n, page));
    }
  }

  lemma SameAddressLinks(mem: Memory, m: Memory, bs: seq<Block>, r: seq<Block>)
    requires |r| == |bs| && forall i :: 0 <= i < |bs| ==> r[i].addr == bs[i].addr
    requires forall i :: 0 <= i < |bs| ==> PrevOf(m, bs, i) == PrevOf(mem, bs, i)
    ensures BackLinked(mem, bs) ==> BackLinked(m, r)
    ensures LinksDown(mem, bs) ==> LinksDown(m, r)
  {
    forall i | 0 <= i < |r| ensures PrevOf(m, r, i) == PrevOf(mem, bs, i) && AddrAt(r, i - 1) == AddrAt(bs, i - 1) {
      assert PrevOf(m, bs, i) == PrevOf(mem, bs, i);
    }
  }

  // ----- The forward list -----

  lemma AddedLinks(first: int, mem: Memory, bs: seq<Block>, nb: int)
    requires Distinct(bs) && Linked(first, mem, bs) && nb != 0 && nb in mem
    requires forall i :: 0 <= i < |bs| ==> bs[i].addr != nb
    ensures Linked(if bs == [] then nb else first, Added(mem, bs, nb),
                   bs + [Block(nb, At(mem, nb).size, At(mem, nb).free)])
  {
    var m, r := Added(mem, bs, nb), bs + [Block(nb, At(mem, nb).size, At(mem, nb).free)];
    forall i | 0 <= i < |bs| ensures Holds(m, r, i) {
      assert Holds(mem, bs, i);
    }
  }

  lemma AppendedLinked(first: int, mem: Memory, h: Heap, base: int, n: int, page: int)
    requires page > 0 && base > 0 && Spaced(h.blocks, base, h.brk) && Linked(first, mem, h.blocks)
    requires FirstFit(h.blocks, n) == |h.blocks| && !Extends(h.blocks, n)
    ensures Linked(AddrAt(Stage(h, n, page), 0), GrownMemory(mem, h, n, page, true), Stage(h, n, page))
  {
    var b := Header(PageRound(n, page), true, 0, 0);
    BrkIsOffList(h.blocks, base, h.brk);
    SpacedDistinct(h.blocks, base, h.brk);
    OffListStore(first, mem, h.blocks, h.brk, b);
    AddedLinks(first, mem[h.brk := b], h.blocks, h.brk);
  }

  lemma EnlargedStore(first: int, m: Memory, bs: seq<Block>, grow: int)
    requires Distinct(bs) && Linked(first, m, bs) && bs != [] && bs[|bs| - 1].free
    ensures var b, k := bs[|bs| - 1], |bs| - 1;
            Linked(first, m[b.addr := At(m, b.addr).(size := At(m, b.addr).size + grow)],
                   bs[k := b.(size := b.size + grow)])
  {
    var k := |bs| - 1;
    assert Holds(m, bs, k);
    StoreLinks(first, m, bs, k, bs[k].size + grow, true);
  }

  lemma EnlargedLinked(first: int, mem: Memory, h: Heap, base: int, n: int, page: int, ok: bool)
    requires page > 0 && base > 0 && Spaced(h.blocks, base, h.brk) && Linked(first, mem, h.blocks)
    requires Extends(h.blocks, n)
    ensures Linked(AddrAt(Stage(h, n, page), 0), GrownMemory(mem, h, n, page, ok), Stage(h, n, page))
  {
    var bs := h.blocks;
    var grow := PageRound(n - bs[|bs| - 1].size, page);
    var m := if ok then mem[h.brk := Header(grow, true, 0, 0)] else mem;
    assert Distinct(bs) && Linked(first, m, bs) by {
      BrkIsOffList(bs, base, h.brk);
      SpacedDistinct(bs, base, h.brk);
      OffListStore(first, mem, bs, h.brk, Header(grow, true, 0, 0));
    }
    EnlargedStore(first, m, bs, grow);
    EnlargedMemory(mem, h, n, page, ok, grow);
  }

  lemma EnlargedMemory(mem: Memory, h: Heap, n: int, page: int, ok: bool, grow: int)
    requires page > 0 && Extends(h.blocks, n) && Holds(mem, h.blocks, |h.blocks| - 1)
    requires grow == PageRound(n - h.blocks[|h.blocks| - 1].size, page)
    ensures var b, m := h.blocks[|h.blocks| - 1], if ok then mem[h.brk := Header(grow, true, 0, 0)] else mem;
            && GrownMemory(mem, h, n, page, ok) == m[b.addr := At(m, b.addr).(size := At(m, b.addr).size + grow)]
            && Stage(h, n, page) == h.blocks[|h.blocks| - 1 := b.(size := b.size + grow)]
  {
  }

  /** The list once there is a block to hand out. */
  lemma GrownLinked(first: int, mem: Memory, h: Heap, base: int, n: int, page: int, ok: bool)
    requires page > 0 && base > 0 && Spaced(h.blocks, base, h.brk) && Linked(first, mem, h.blocks)
    requires FindsRoom(h, n, ok)
    ensures Linked(AddrAt(Stage(h, n, page), 0), GrownMemory(mem, h, n, page, ok), Stage(h, n, page))
  {
    if Extends(h.blocks, n) {
      EnlargedLinked(first, mem, h, base, n, page, ok);
    } else if FirstFit(h.blocks, n) == |h.blocks| {
      AppendedLinked(first, mem, h, base, n, page);
    }
  }

  // ----- What my_malloc does to the links -----

  /** Where a block is handed out, it is cut from block k of the list bs with headers g. */
  ghost predicate Staged(h: Heap, base: int, n: int, page: int, bs: seq<Block>, k: nat, g: Memory)
    requires page > 0
  {
    && Spaced(bs, base, StageBrk(h, n, page)) && k < |bs| && HEADER_SIZE < n <= bs[k].size && bs[k].addr > 0
    && Linked(AddrAt(bs, 0), g, bs)
    && |h.blocks| <= |bs| && (forall i :: 0 <= i < |h.blocks| ==> h.blocks[i].addr == bs[i].addr)
    && ((bs == h.blocks && k == FirstFit(h.blocks, n)) || (k + 1 == |bs| && FirstFit(h.blocks, n) == |h.blocks|))
  }

  lemma StagedBlocks(mem: Memory, h: Heap, base: int, n: int, page: int)
    requires page > 0 && base > 0 && n > HEADER_SIZE && Spaced(h.blocks, base, h.brk)
    requires Linked(AddrAt(Stage(h, n, page), 0), mem, Stage(h, n, page))
    ensures Staged(h, base, n, page, Stage(h, n, page), StageIndex(h, n), mem)
  {
    var bs, k := Stage(h, n, page), StageIndex(h, n);
    StageSpaced(h, base, n, page);
    StageShape(h, n, page);
    assert bs[k].addr > 0 by { BlocksApart(bs, base, StageBrk(h, n, page), k, k); }
  }

  lemma StagedMemory(mem: Memory, h: Heap, base: int, n: int, page: int, ok: bool, relink: bool)
    requires page > 0 && FindsRoom(h, n, ok) && StageIndex(h, n) < |Stage(h, n, page)|
    requires Stage(h, n, page)[StageIndex(h, n)].addr > 0
    ensures var bs, k, g := Stage(h, n, page), StageIndex(h, n), GrownMemory(mem, h, n, page, ok);
            && Malloc(h, n, page, ok).heap.blocks == Grab(bs, k, n) && Malloc(h, n, page, ok).block == bs[k].addr
            && MallocMemory(mem, h, n, page, ok, relink) == HandedOut(g, bs[k].addr, n, relink)
  {
    MallocIsGrab(h, n, page, ok);
  }

  lemma IsStaged(first: int, mem: Memory, h: Heap, base: int, n: int, page: int, ok: bool, relink: bool)
    requires page > 0 && base > 0 && n > HEADER_SIZE && Spaced(h.blocks, base, h.brk) && Linked(first, mem, h.blocks)
    requires FindsRoom(h, n, ok)
    ensures var bs, k, g := Stage(h, n, page), StageIndex(h, n), GrownMemory(mem, h, n, page, ok);
            && Staged(h, base, n, page, bs, k, g)
            && Malloc(h, n, page, ok).heap.blocks == Grab(bs, k, n) && Malloc(h, n, page, ok).block == bs[k].addr
            && MallocMemory(mem, h, n, page, ok, relink) == HandedOut(g, bs[k].addr, n, relink)
  {
    GrownLinked(first, mem, h, base, n, page, ok);
    StagedBlocks(GrownMemory(mem, h, n, page, ok), h, base, n, page);
    StagedMemory(mem, h, base, n, page, ok, relink);
  }

  /** The back links survive exactly when no block with a successor is split, or the omitted store is added. */
  lemma MallocBackLinks(first: int, mem: Memory, h: Heap, base: int, n: int, page: int, ok: bool, relink: bool)
    requires page > 0 && base > 0 && n > HEADER_SIZE && Spaced(h.blocks, base, h.brk) && Linked(first, mem, h.blocks)
    requires BackLinked(mem, h.blocks)
    ensures BackLinked(MallocMemory(mem, h, n, page, ok, relink), Malloc(h, n, page, ok).heap.blocks) <==>
            relink || !SplitsInside(h.blocks, n)
  {
    if FindsRoom(h, n, ok) {
      var bs, k, g := Stage(h, n, page), StageIndex(h, n), GrownMemory(mem, h, n, page, ok);
      IsStaged(first, mem, h, base, n, page, ok, relink);
      GrownLinks(mem, h, base, n, page, ok);
      HandedOutBackLinks(AddrAt(bs, 0), g, bs, base, StageBrk(h, n, page), k, n, relink);
    }
  }

  /** As written, links that point down keep pointing down. */
  lemma MallocDown(first: int, mem: Memory, h: Heap, base: int, n: int, page: int, ok: bool)
    requires page > 0 && base > 0 && n > HEADER_SIZE && Spaced(h.blocks, base, h.brk) && Linked(first, mem, h.blocks)
    requires LinksDown(mem, h.blocks)
    ensures LinksDown(MallocMemory(mem, h, n, page, ok, false), Malloc(h, n, page, ok).heap.blocks)
  {
    if FindsRoom(h, n, ok) {
      var bs, k, g := Stage(h, n, page), StageIndex(h, n), GrownMemory(mem, h, n, page, ok);
      IsStaged(first, mem, h, base, n, page, ok, false);
      GrownLinks(mem, h, base, n, page, ok);
      assert Holds(g, bs, k);
      HandedOutDown(g, bs, base, StageBrk(h, n, page), k, n);
    }
  }

  lemma StagedPrev(h: Heap, base: int, n: int, page: int, bs: seq<Block>, k: nat, g: Memory, i: nat)
    requires page > 0 && base > 0 && Staged(h, base, n, page, bs, k, g) && i < |h.blocks|
    ensures PrevOf(HandedOut(g, bs[k].addr, n, false), h.blocks, i) == PrevOf(g, h.blocks, i)
  {
    assert Holds(g, bs, k);
    HandedOutPrev(g, bs, base, StageBrk(h, n, page), k, n, i);
  }

  /** As written, no `prev` of a block that is already in the list changes. */
  lemma MallocPrev(first: int, mem: Memory, h: Heap, base: int, n: int, page: int, ok: bool, i: nat)
    requires page > 0 && base > 0 && n > HEADER_SIZE && Spaced(h.blocks, base, h.brk) && Linked(first, mem, h.blocks)
    requires i < |h.blocks|
    ensures PrevOf(MallocMemory(mem, h, n, page, ok, false), h.blocks, i) == PrevOf(mem, h.blocks, i)
  {
    GrownPrev(mem, h, base, n, page, ok);
    if FindsRoom(h, n, ok) {
      var bs, k, g := Stage(h, n, page), StageIndex(h, n), GrownMemory(mem, h, n, page, ok);
      IsStaged(first, mem, h, base, n, page, ok, false);
      StagedPrev(h, base, n, page, bs, k, g, i);
    }
  }
}
