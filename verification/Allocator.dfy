/**
 The pointer code of ch07/malloc_and_free.c. The break is moved only by this code. `blocks` is the
 list that starts at `first`; every method says what it does to that list and to the headers.
 */
module Allocator {
  import opened HeapBlocks
  import opened HeapMemory
  import opened StaleLinks
  import opened HeapGrowth
  import opened PayloadWrites

  // ----- The code -----

  class Allocator {
    const base: int
    const page: int
    const relink: bool
    var first: int
    var mem: Memory
    var brk: int
    ghost var blocks: seq<Block>

    ghost predicate Valid()
      reads this
    {
      && base > 0 && page > 0
      && Good(State(), base, page)
      && Linked(first, mem, blocks)
    }

    /** What is left of Valid() when an earlier call has spoiled the heap: the blocks do not overlap. */
    ghost predicate Usable()
      reads this
    {
      base > 0 && page > 0 && Spaced(blocks, base, brk) && Linked(first, mem, blocks)
    }

    lemma ValidIsUsable()
      requires Valid()
      ensures Usable()
    {
    }

    ghost function State(): Heap
      reads this
    {
      Heap(blocks, brk)
    }

    ghost predicate FullyLinked()
      reads this
    {
      BackLinked(mem, blocks)
    }

    /** What the code as written keeps in place of FullyLinked. */
    ghost predicate LinkedDown()
      reads this
    {
      LinksDown(mem, blocks)
    }

    constructor (base: int, page: int, relink: bool)
      requires base > 0 && page > 0
      ensures Valid() && FullyLinked() && LinkedDown() && State() == Heap([], base) && mem == map[]
      ensures this.base == base && this.page == page && this.relink == relink
    {
      this.base, this.page, this.relink := base, page, relink;
      first, mem, brk, blocks := 0, map[], base, [];
    }

    lemma FullyLinkedIsDown()
      requires Valid() && FullyLinked()
      ensures LinkedDown()
    {
      SpacedIncreasing(blocks, base, brk);
      BackLinkedDown(mem, blocks);
    }

    method AddBlock(nb: int)
      requires Distinct(blocks) && Linked(first, mem, blocks) && nb != 0 && nb in mem
      requires forall i :: 0 <= i < |blocks| ==> blocks[i].addr != nb
      modifies this`first, this`mem, this`blocks
      ensures blocks == old(blocks) + [Block(nb, At(old(mem), nb).size, At(old(mem), nb).free)]
      ensures mem == Added(old(mem), old(blocks), nb) && Linked(first, mem, blocks)
    {
      AddedLinks(first, mem, blocks, nb);
      ghost var bs := blocks + [Block(nb, At(mem, nb).size, At(mem, nb).free)];
      if first == 0 {
        first := nb;
        mem := mem[nb := At(mem, nb).(next := 0, prev := 0)];
      } else {
        var p := first;
        ghost var i := 0;
        while At(mem, p).next != 0
          invariant 0 <= i < |blocks| && p == blocks[i].addr
          decreases |blocks| - i
        {
          assert Holds(mem, blocks, i);
          p, i := At(mem, p).next, i + 1;
        }
        assert Holds(mem, blocks, i);
        mem := mem[p := At(mem, p).(next := nb)];
        mem := mem[nb := At(mem, nb).(prev := p, next := 0)];
      }
      blocks := bs;
    }

    /** First fit; failing that, the last block if it is free. */
    method Scan(n: int) returns (ret: int, chooseLast: bool)
      requires Distinct(blocks) && Linked(first, mem, blocks)
      ensures chooseLast == Extends(blocks, n)
      ensures ret == AddrAt(blocks, if chooseLast then |blocks| - 1 else FirstFit(blocks, n))
    {
      if first == 0 {
        return 0, false;
      }
      ret, chooseLast := first, false;
      ghost var i := 0;
      while true
        invariant 0 <= i < |blocks| && ret == blocks[i].addr
        invariant forall j :: 0 <= j < i ==> !(blocks[j].free && blocks[j].size >= n)
        decreases |blocks| - i
      {
        assert Holds(mem, blocks, i);
        if At(mem, ret).free && At(mem, ret).size >= n {
          return;
        }
        if At(mem, ret).next != 0 {
          ret, i := At(mem, ret).next, i + 1;
        } else {
          break;
        }
      }
      assert Holds(mem, blocks, i);
      if At(mem, ret).free {
        chooseLast := true;
      } else {
        ret := 0;
      }
    }

    method ResizeBlock(b: int, n: int, ghost k: nat)
      requires Distinct(blocks) && Linked(first, mem, blocks) && k < |blocks| && b == blocks[k].addr
      requires forall i :: 0 <= i < |blocks| ==> Splits(blocks[k], n) ==> blocks[i].addr != b + n
      modifies this`mem, this`blocks
      ensures mem == Resized(old(mem), b, n, relink) && blocks == Shrink(old(blocks), k, n)
      ensures Linked(first, mem, blocks)
    {
      assert Holds(mem, blocks, k);
      if At(mem, b).size - n <= HEADER_SIZE {
        return;
      }
      var rest, next := b + n, At(mem, b).next;
      ResizedLinks(first, mem, blocks, k, n, relink);
      mem := mem[rest := Header(At(mem, b).size - n, true, b, next)];
      mem := mem[b := At(mem, b).(size := n, next := rest)];
      if relink && next != 0 {
        mem := mem[next := At(mem, next).(prev := rest)];
      }
      blocks := Shrink(blocks, k, n);
    }

    /** sbrk and a fresh header; NULL when sbrk fails. */
    method Allocate(size: int, ok: bool) returns (p: int)
      modifies this`mem, this`brk
      ensures if ok then p == old(brk) && brk == old(brk) + size && mem == old(mem)[p := Header(size, true, 0, 0)]
              else p == 0 && brk == old(brk) && mem == old(mem)
    {
      if !ok {
        return 0;
      }
      p := brk;
      brk := brk + size;
      mem := mem[p := Header(size, true, 0, 0)];
    }

    /** The last steps of my_malloc: cut block k to n bytes, mark it used, return its payload. */
    method HandOut(b: int, n: int, ghost k: nat, ghost top: int) returns (p: int)
      requires base > 0 && Spaced(blocks, base, top) && Linked(first, mem, blocks)
      requires k < |blocks| && b == blocks[k].addr && HEADER_SIZE < n <= blocks[k].size
      modifies this`mem, this`blocks
      ensures p == b + HEADER_SIZE && blocks == Grab(old(blocks), k, n)
      ensures mem == HandedOut(old(mem), b, n, relink)
      ensures Linked(first, mem, blocks)
    {
      HandedOutLinks(first, mem, blocks, base, top, k, n, relink);
      ResizeBlock(b, n, k);
      mem := mem[b := At(mem, b).(free := false)];
      blocks := Grab(old(blocks), k, n);
      p := b + HEADER_SIZE;
    }

    /** No block fits and the last is not free: a new block is added at the break. */
    method GrowByBlock(n: int, ok: bool) returns (b: int)
      requires Usable() && n > HEADER_SIZE && FirstFit(blocks, n) == |blocks| && !Extends(blocks, n)
      modifies this`first, this`mem, this`brk, this`blocks
      ensures !ok ==> b == 0 && State() == old(State()) && first == old(first)
      ensures ok ==> b == old(brk) && blocks == Stage(old(State()), n, page) && brk == StageBrk(old(State()), n, page)
      ensures mem == GrownMemory(old(mem), old(State()), n, page, ok) && Linked(first, mem, blocks)
    {
      BrkIsOffList(blocks, base, brk);
      SpacedDistinct(blocks, base, brk);
      OffListStore(first, mem, blocks, brk, Header(PageRound(n, page), true, 0, 0));
      b := Allocate(PageRound(n, page), ok);
      if b == 0 {
        return;
      }
      AddBlock(b);
    }

    /** The last block is free but too small: the break is moved and the block takes the new space. */
    method GrowLast(b: int, n: int, ok: bool)
      requires Usable() && Extends(blocks, n) && b == blocks[|blocks| - 1].addr
      modifies this`mem, this`brk, this`blocks
      ensures blocks == Enlarged(old(blocks), n, page)
      ensures brk == if ok then StageBrk(old(State()), n, page) else old(brk)
      ensures mem == GrownMemory(old(mem), old(State()), n, page, ok) && Linked(first, mem, blocks)
    {
      ghost var k := |blocks| - 1;
      EnlargedLinked(first, mem, State(), base, n, page, ok);
      assert Holds(mem, blocks, k);
      var grow := PageRound(n - At(mem, b).size, page);
      var _ := Allocate(grow, ok);
      mem := mem[b := At(mem, b).(size := At(mem, b).size + grow)];
      blocks := Enlarged(blocks, n, page);
    }

    /** scan, and growth of the heap where no block fits. */
    method Place(n: int, ok: bool) returns (b: int)
      requires Usable() && n > HEADER_SIZE
      modifies this`first, this`mem, this`brk, this`blocks
      ensures b == 0 <==> !FindsRoom(old(State()), n, ok)
      ensures b == 0 ==> State() == old(State()) && mem == old(mem) && first == old(first)
      ensures b != 0 ==>
                && blocks == Stage(old(State()), n, page) && b == AddrAt(blocks, StageIndex(old(State()), n))
                && brk == if !ok && Extends(old(blocks), n) then old(brk) else StageBrk(old(State()), n, page)
      ensures mem == GrownMemory(old(mem), old(State()), n, page, ok) && Linked(first, mem, blocks)
    {
      SpacedDistinct(blocks, base, brk);
      BrkIsOffList(blocks, base, brk);
      var chooseLast;
      b, chooseLast := Scan(n);
      if b == 0 {
        b := GrowByBlock(n, ok);
      } else if chooseLast {
        GrowLast(b, n, ok);
      }
    }

    /** my_malloc for a nonzero size: n is the request with its header. */
    method Take(n: int, ok: bool) returns (p: int)
      requires Usable() && n > HEADER_SIZE
      modifies this`first, this`mem, this`brk, this`blocks
      ensures HeapBlocks.Malloc(old(State()), n, page, ok) == Placed(State(), BlockOf(p))
      ensures mem == MallocMemory(old(mem), old(State()), n, page, ok, relink) && Linked(first, mem, blocks)
    {
      ghost var h := State();
      if FindsRoom(h, n, ok) {
        IsStaged(first, mem, h, base, n, page, ok, relink);
        MallocIsGrab(h, n, page, ok);
      }
      var b := Place(n, ok);
      if b == 0 {
        return 0;
      }
      p := HandOut(b, n, StageIndex(h, n), StageBrk(h, n, page));
    }

    /**
     my_malloc; `ok` is whether sbrk succeeds if it is called. On any heap whose blocks do not overlap it does
     what `HeapBlocks.Malloc` says, and stores nothing inside a block in use.
     */
    method Malloc(size: nat, ok: bool) returns (p: int)
      requires Usable()
      modifies this`first, this`mem, this`brk, this`blocks
      ensures size == 0 ==> p == 0 && State() == old(State()) && mem == old(mem) && first == old(first)
      ensures size > 0 ==>
                && HeapBlocks.Malloc(old(State()), size + HEADER_SIZE, page, ok) == Placed(State(), BlockOf(p))
                && mem == MallocMemory(old(mem), old(State()), size + HEADER_SIZE, page, ok, relink)
      ensures Linked(first, mem, blocks) && PayloadsKept(old(mem), mem, old(blocks))
      ensures size == 0 ==> Usable()
      ensures size > 0 ==> RightRequest(old(State()), base, size + HEADER_SIZE, page, ok, State())
    {
      if size == 0 {
        return 0;
      }
      MallocRight(first, mem, State(), base, size + HEADER_SIZE, page, ok, relink);
      p := Take(size + HEADER_SIZE, ok);
    }

    /** The first half of free_and_merge. */
    method JoinBackwards(b: int)
      modifies this`mem
      ensures mem == JoinPrev(old(mem), b)
    {
      var prev, next := At(mem, b).prev, At(mem, b).next;
      mem := mem[prev := At(mem, prev).(size := At(mem, prev).size + At(mem, b).size, next := next)];
      if next != 0 {
        mem := mem[next := At(mem, next).(prev := prev)];
      }
    }

    /** The second half of free_and_merge. */
    method JoinForwards(block: int)
      modifies this`mem
      ensures mem == JoinNext(old(mem), block, relink)
    {
      var next := At(mem, block).next;
      if next != 0 && At(mem, next).free {
        var after := At(mem, next).next;
        mem := mem[block := At(mem, block).(size := At(mem, block).size + At(mem, next).size, next := after)];
        if relink && after != 0 {
          mem := mem[after := At(mem, after).(prev := block)];
        }
      }
    }

    /** free_and_merge reads and writes only the headers it reaches from b. */
    method FreeAndMerge(b: int)
      modifies this`mem
      ensures mem == Merged(old(mem), b, relink)
    {
      mem := mem[b := At(mem, b).(free := true)];
      var block, prev := b, At(mem, b).prev;
      if prev != 0 && At(mem, prev).free {
        JoinBackwards(b);
        block := prev;
      }
      JoinForwards(block);
    }

    /**
     The pass of release_resource_if_need: the space free at the end of the list, and the last block if it is
     free.
     */
    method ScanTrailing() returns (firstFree: int, total: int)
      requires Distinct(blocks) && Linked(first, mem, blocks)
      ensures total == TrailingFree(blocks)
      ensures firstFree == if blocks != [] && blocks[|blocks| - 1].free then blocks[|blocks| - 1].addr else 0
    {
      var ptr := first;
      firstFree, total := 0, 0;
      ghost var i := 0;
      while ptr != 0
        invariant 0 <= i <= |blocks| && ptr == AddrAt(blocks, i)
        invariant total == TrailingFree(blocks[..i])
        invariant firstFree == if i > 0 && blocks[i - 1].free then blocks[i - 1].addr else 0
        decreases |blocks| - i
      {
        assert Holds(mem, blocks, i);
        assert blocks[..i + 1][..i] == blocks[..i];
        if At(mem, ptr).free {
          firstFree, total := ptr, total + At(mem, ptr).size;
        } else {
          firstFree, total := 0, 0;
        }
        ptr, i := At(mem, ptr).next, i + 1;
      }
      assert blocks[..i] == blocks;
    }

    /**
     release_resource_if_need: the break goes back to the last free block, and the list is cut after what
     that block's `prev` names.
     */
    method ReleaseIfNeeded()
      requires page > 0 && Increasing(blocks) && Distinct(blocks) && Linked(first, mem, blocks) && LinkedDown()
      modifies this`first, this`mem, this`brk, this`blocks
      ensures State() == Cuts(old(mem), old(blocks), old(brk), page)
      ensures mem == CutMemory(old(mem), old(blocks), page)
      ensures brk == if TrailingFree(old(blocks)) < 4 * page || old(blocks) == [] then old(brk)
                     else old(blocks)[|old(blocks)| - 1].addr
      ensures blocks <= old(blocks) && Increasing(blocks) && Linked(first, mem, blocks) && LinkedDown()
    {
      CutLinks(first, mem, blocks, brk, page);
      var firstFree, total := ScanTrailing();
      if total < DeallocSize(page) {
        return;
      }
      ghost var c := Cuts(mem, blocks, brk, page);
      var reset := firstFree;
      if firstFree == first {
        first := 0;
      } else {
        var prev := At(mem, firstFree).prev;
        mem := mem[prev := At(mem, prev).(next := 0)];
      }
      brk := reset;
      blocks := c.blocks;
    }

    lemma MergedBlocksLink(k: nat)
      requires Increasing(blocks) && Distinct(blocks) && Linked(first, mem, blocks) && LinkedDown()
      requires k < |blocks| && !blocks[k].free && (relink ==> Valid() && FullyLinked())
      ensures var r, m := MergedBlocks(mem, blocks, k, relink), Merged(mem, blocks[k].addr, relink);
              && Increasing(r) && Distinct(r) && Linked(first, m, r) && LinksDown(m, r)
    {
      if relink {
        RelinkedMerge(first, mem, blocks, base, brk, k);
      } else {
        assert Holds(mem, blocks, k);
        MergedList(first, mem, blocks, k);
        MergesIncreasing(mem, blocks, k);
        MergesDown(mem, blocks, k);
      }
    }

    /**
     my_free of the payload of live block k, its two parts one after the other. As written this needs only
     that the addresses increase along the list and that each `prev` names a lower address; a call that goes
     wrong keeps both.
     */
    method FreeBlock(b: int, ghost k: nat)
      requires page > 0 && Increasing(blocks) && Distinct(blocks) && Linked(first, mem, blocks) && LinkedDown()
      requires k < |blocks| && !blocks[k].free && b == blocks[k].addr && (relink ==> Valid() && FullyLinked())
      modifies this`first, this`mem, this`brk, this`blocks
      ensures var r, m := MergedBlocks(old(mem), old(blocks), k, relink), Merged(old(mem), b, relink);
              State() == Cuts(m, r, old(brk), page) && mem == CutMemory(m, r, page)
      ensures Increasing(blocks) && Linked(first, mem, blocks) && LinkedDown()
    {
      MergedBlocksLink(k);
      ghost var r := MergedBlocks(mem, blocks, k, relink);
      FreeAndMerge(b);
      blocks := r;
      ReleaseIfNeeded();
    }

    /**
     my_free of NULL, or of the payload of live block k, on any heap whose blocks do not overlap. As written they
     still do not afterwards, except where the last block is given back and its `prev` names no block. On a heap
     that no call has spoiled: exactly when the call leaves the specified heap and stores nothing inside a block
     in use.
     */
    method Free(p: int, ghost k: nat)
      requires Usable() && LinkedDown() && (relink ==> Valid() && FullyLinked())
      requires p != 0 ==> k < |blocks| && !blocks[k].free && p == blocks[k].addr + HEADER_SIZE
      modifies this`first, this`mem, this`brk, this`blocks
      ensures p == 0 ==> State() == old(State()) && mem == old(mem) && first == old(first)
      ensures p != 0 ==>
                && State() == Frees(old(mem), old(State()), k, page, relink)
                && mem == FreeMemory(old(mem), old(State()), k, page, relink)
      ensures Linked(first, mem, blocks) && LinkedDown()
      ensures p != 0 && !relink ==> (Usable() <==> !KeepsCutBlock(old(mem), old(State()), k, page))
      ensures p != 0 && !relink && old(Valid()) ==>
                (State() == HeapBlocks.Free(old(State()), k, page) && PayloadsKept(old(mem), mem, old(blocks)) <==>
                 FreesSafely(old(mem), old(blocks), k, page))
    {
      if p == 0 {
        return;
      }
      SpacedIncreasing(blocks, base, brk);
      if !relink {
        FreesSpaced(first, mem, State(), base, k, page);
        if Valid() { FreesSafelyIff(first, mem, State(), base, k, page); }
      }
      FreeBlock(BlockOf(p), k);
    }

    /** Between calls the caller writes what it likes strictly inside the blocks in use. */
    method Write(m: Memory)
      requires Usable() && OwnWrites(mem, m, blocks)
      modifies this`mem
      ensures mem == m && Usable()
      ensures (old(FullyLinked()) ==> FullyLinked()) && (old(LinkedDown()) ==> LinkedDown())
    {
      OwnWritesKeep(first, mem, m, blocks, base, brk);
      mem := m;
    }
  }
}
