/**
 Whole runs of the pointer code in `Allocator`, and runs in which the code as written fails. Between two
 calls the caller writes what it likes strictly inside the blocks in use.
 */
module AllocatorRuns {
  import opened HeapBlocks
  import opened HeapMemory
  import opened StaleLinks
  import opened HeapGrowth
  import opened PayloadWrites
  import opened Allocator

  // ----- Runs with the headers in memory -----

  ghost function ExecMemory(mem: Memory, h: Heap, op: Op, page: int, relink: bool): Memory
    requires page > 0 && Allowed(h, op)
  {
    match op
    case Request(bytes, ok) => if bytes == 0 then mem else MallocMemory(mem, h, bytes + HEADER_SIZE, page, ok, relink)
    case Release(b) => FreeMemory(mem, h, IndexOf(h.blocks, b), page, relink)
  }

  /** mems[i] is what operation i finds: what the operation before it stored, and then the caller. */
  ghost predicate IsMemoryRun(mems: seq<Memory>, hs: seq<Heap>, ops: seq<Op>, base: int, page: int, relink: bool)
    requires page > 0 && IsRun(hs, ops, base, page)
  {
    && |mems| == |ops| + 1 && mems[0] == map[]
    && forall i :: 0 <= i < |ops| ==> CallerWrites(mems, hs, ops, page, relink, i)
  }

  /** After operation i the caller has written only inside the blocks that are then in use. */
  ghost predicate CallerWrites(mems: seq<Memory>, hs: seq<Heap>, ops: seq<Op>, page: int, relink: bool, i: nat)
    requires page > 0 && i < |ops| && i + 1 < |hs| && i + 1 < |mems| && Allowed(hs[i], ops[i])
  {
    OwnWrites(ExecMemory(mems[i], hs[i], ops[i], page, relink), mems[i + 1], hs[i + 1].blocks)
  }

  /** Operation i stores nothing inside the blocks that are in use when it is called. */
  ghost predicate SparesPayloads(mems: seq<Memory>, hs: seq<Heap>, ops: seq<Op>, page: int, relink: bool, i: nat)
    requires page > 0 && i < |ops| && i < |hs| && i < |mems| && Allowed(hs[i], ops[i])
  {
    PayloadsKept(mems[i], ExecMemory(mems[i], hs[i], ops[i], page, relink), hs[i].blocks)
  }

  ghost predicate SparesUpTo(mems: seq<Memory>, hs: seq<Heap>, ops: seq<Op>, page: int, relink: bool, n: nat)
    requires page > 0 && n <= |ops| && n <= |hs| && n <= |mems|
    requires forall i :: 0 <= i < n ==> Allowed(hs[i], ops[i])
  {
    forall i :: 0 <= i < n ==> SparesPayloads(mems, hs, ops, page, relink, i)
  }

  // ----- Doubly linked runs -----

  method RequestLinked(h: Allocator, bytes: nat, ok: bool)
    requires h.Valid() && h.FullyLinked() && Allowed(h.State(), Request(bytes, ok))
    requires h.relink || KeepsLinks(h.State(), Request(bytes, ok))
    modifies h
    ensures h.Valid() && h.FullyLinked() && h.State() == Exec(old(h.State()), Request(bytes, ok), h.page)
    ensures h.mem == ExecMemory(old(h.mem), old(h.State()), Request(bytes, ok), h.page, h.relink)
    ensures PayloadsKept(old(h.mem), h.mem, old(h.blocks))
  {
    if bytes > 0 {
      ghost var s, m, n := h.State(), h.mem, bytes + HEADER_SIZE;
      assert h.relink || !SplitsInside(s.blocks, n);
      MallocGood(s, h.base, h.page, bytes, ok);
      MallocBackLinks(h.first, m, s, h.base, n, h.page, ok, h.relink);
    }
    h.ValidIsUsable();
    var _ := h.Malloc(bytes, ok);
  }

  lemma LinkedRelease(first: int, mem: Memory, h: Heap, base: int, k: nat, page: int, relink: bool)
    requires page > 0 && base > 0 && Good(h, base, page) && k < |h.blocks| && !h.blocks[k].free
    requires Linked(first, mem, h.blocks) && BackLinked(mem, h.blocks) && (relink || !JoinsInside(h.blocks, k))
    ensures var f, m := Frees(mem, h, k, page, relink), FreeMemory(mem, h, k, page, relink);
            && f == Free(h, k, page) && Good(f, base, page)
            && BackLinked(m, f.blocks) && PayloadsKept(mem, m, h.blocks)
  {
    FreeGood(h, base, page, k);
    LinkedFrees(first, mem, h, base, k, page, relink);
    LinkedFreeKeeps(first, mem, h, base, k, page, relink);
  }

  method ReleaseLinked(h: Allocator, b: Block)
    requires h.Valid() && h.FullyLinked() && b in Live(h.blocks)
    requires h.relink || KeepsLinks(h.State(), Release(b))
    modifies h
    ensures h.Valid() && h.FullyLinked() && h.State() == Exec(old(h.State()), Release(b), h.page)
    ensures h.mem == ExecMemory(old(h.mem), old(h.State()), Release(b), h.page, h.relink)
    ensures PayloadsKept(old(h.mem), h.mem, old(h.blocks))
  {
    ghost var s, m, k := h.State(), h.mem, IndexOf(h.blocks, b);
    assert b.addr > 0 by { BlocksApart(h.blocks, h.base, h.brk, k, k); }
    LinkedRelease(h.first, m, s, h.base, k, h.page, h.relink);
    h.FullyLinkedIsDown();
    h.ValidIsUsable();
    h.Free(b.addr + HEADER_SIZE, k);
  }

  /** One operation on a doubly linked heap, where no link is lost. */
  method PerformLinked(h: Allocator, op: Op)
    requires h.Valid() && h.FullyLinked() && Allowed(h.State(), op)
    requires h.relink || KeepsLinks(h.State(), op)
    modifies h
    ensures h.Valid() && h.FullyLinked() && h.State() == Exec(old(h.State()), op, h.page)
    ensures h.mem == ExecMemory(old(h.mem), old(h.State()), op, h.page, h.relink)
    ensures PayloadsKept(old(h.mem), h.mem, old(h.blocks))
  {
    match op
    case Request(bytes, ok) => RequestLinked(h, bytes, ok);
    case Release(b) => ReleaseLinked(h, b);
  }

  /** One operation, and then the caller's own writes. */
  method StepLinked(h: Allocator, op: Op, m: Memory)
    requires h.Valid() && h.FullyLinked() && Allowed(h.State(), op)
    requires h.relink || KeepsLinks(h.State(), op)
    requires OwnWrites(ExecMemory(h.mem, h.State(), op, h.page, h.relink), m, Exec(h.State(), op, h.page).blocks)
    modifies h
    ensures h.Valid() && h.FullyLinked() && h.State() == Exec(old(h.State()), op, h.page) && h.mem == m
    ensures PayloadsKept(old(h.mem), ExecMemory(old(h.mem), old(h.State()), op, h.page, h.relink), old(h.blocks))
  {
    PerformLinked(h, op);
    h.ValidIsUsable();
    h.Write(m);
  }

  /**
   The pointer code carries out every legal run. With the two added stores the list stays doubly
   linked in all of them; as written it does in every run whose operations lose no link. No
   operation stores anything inside a block in use.
   */
  method Replay(base: int, page: int, relink: bool, ops: seq<Op>, ghost hs: seq<Heap>, mems: seq<Memory>)
    returns (h: Allocator)
    requires base > 0 && page > 0 && IsRun(hs, ops, base, page) && IsMemoryRun(mems, hs, ops, base, page, relink)
    requires relink || forall i :: 0 <= i < |ops| ==> KeepsLinks(hs[i], ops[i])
    ensures fresh(h) && h.base == base && h.page == page && h.relink == relink
    ensures h.Valid() && h.FullyLinked() && h.State() == hs[|ops|] && h.mem == mems[|ops|]
    ensures forall i :: 0 <= i < |ops| ==> SparesPayloads(mems, hs, ops, page, relink, i)
  {
    h := new Allocator(base, page, relink);
    for i := 0 to |ops|
      invariant fresh(h) && h.base == base && h.page == page && h.relink == relink
      invariant h.Valid() && h.FullyLinked() && h.State() == hs[i] && h.mem == mems[i]
      invariant SparesUpTo(mems, hs, ops, page, relink, i)
    {
      assert CallerWrites(mems, hs, ops, page, relink, i);
      StepLinked(h, ops[i], mems[i + 1]);
      assert SparesPayloads(mems, hs, ops, page, relink, i);
    }
  }

  /** Every last-in-first-out run of the code as written keeps the list doubly linked. */
  method ReplayStack(base: int, page: int, ops: seq<Op>, ghost hs: seq<Heap>, mems: seq<Memory>) returns (h: Allocator)
    requires base > 0 && page > 0 && IsRun(hs, ops, base, page) && IsMemoryRun(mems, hs, ops, base, page, false)
    requires Lifo(hs, ops, page)
    ensures fresh(h) && !h.relink && h.Valid() && h.FullyLinked() && h.State() == hs[|ops|] && h.mem == mems[|ops|]
    ensures forall i :: 0 <= i < |ops| ==> SparesPayloads(mems, hs, ops, page, false, i)
  {
    forall i | 0 <= i < |ops| ensures KeepsLinks(hs[i], ops[i]) {
      StackRunKeepsLinks(hs, ops, base, page, i);
    }
    h := Replay(base, page, false, ops, hs, mems);
  }

  // ----- Runs of the code as written -----

  /** The guard of one operation: the `prev` fields that my_free reads are right or do no harm. */
  ghost predicate GoesWell(mem: Memory, h: Heap, op: Op, page: int)
    requires Allowed(h, op)
  {
    op.Release? ==> FreesSafely(mem, h.blocks, IndexOf(h.blocks, op.block), page)
  }

  /** The operation does what is specified, and nothing to the blocks in use. */
  ghost predicate DoesWell(h: Heap, mem: Memory, op: Op, page: int, h': Heap, mem': Memory)
    requires page > 0 && Allowed(h, op)
  {
    h' == Exec(h, op, page) && PayloadsKept(mem, mem', h.blocks)
  }

  method PerformRequest(h: Allocator, bytes: nat, ok: bool)
    requires !h.relink && h.Valid() && h.LinkedDown() && Allowed(h.State(), Request(bytes, ok))
    modifies h
    ensures h.Valid() && h.LinkedDown()
    ensures h.mem == ExecMemory(old(h.mem), old(h.State()), Request(bytes, ok), h.page, false)
    ensures DoesWell(old(h.State()), old(h.mem), Request(bytes, ok), h.page, h.State(), h.mem)
  {
    if bytes > 0 {
      ServeRequest(h, bytes, ok);
    }
  }

  method ServeRequest(h: Allocator, bytes: nat, ok: bool)
    requires !h.relink && h.Valid() && h.LinkedDown() && bytes > 0
    requires ok || !Extends(h.blocks, bytes + HEADER_SIZE)
    modifies h
    ensures h.Valid() && h.LinkedDown() && PayloadsKept(old(h.mem), h.mem, old(h.blocks))
    ensures h.State() == Malloc(old(h.State()), bytes + HEADER_SIZE, h.page, ok).heap
    ensures h.mem == MallocMemory(old(h.mem), old(h.State()), bytes + HEADER_SIZE, h.page, ok, false)
  {
    ghost var s, m, n := h.State(), h.mem, bytes + HEADER_SIZE;
    MallocGood(s, h.base, h.page, bytes, ok);
    MallocDown(h.first, m, s, h.base, n, h.page, ok);
    h.ValidIsUsable();
    var _ := h.Malloc(bytes, ok);
  }

  method ReleaseAt(h: Allocator, p: int, ghost k: nat)
    requires !h.relink && h.Valid() && h.LinkedDown()
    requires k < |h.blocks| && !h.blocks[k].free && p == h.blocks[k].addr + HEADER_SIZE
    modifies h
    ensures h.LinkedDown() && h.mem == FreeMemory(old(h.mem), old(h.State()), k, h.page, false)
    ensures h.State() == Free(old(h.State()), k, h.page) && PayloadsKept(old(h.mem), h.mem, old(h.blocks)) <==>
            FreesSafely(old(h.mem), old(h.blocks), k, h.page)
    ensures h.State() == Free(old(h.State()), k, h.page) ==> h.Valid()
  {
    ghost var s := h.State();
    assert p > 0 by { BlocksApart(h.blocks, h.base, h.brk, k, k); }
    FreeGood(s, h.base, h.page, k);
    h.ValidIsUsable();
    h.Free(p, k);
  }

  method PerformRelease(h: Allocator, b: Block)
    requires !h.relink && h.Valid() && h.LinkedDown() && b in Live(h.blocks)
    modifies h
    ensures h.LinkedDown() && h.mem == ExecMemory(old(h.mem), old(h.State()), Release(b), h.page, false)
    ensures DoesWell(old(h.State()), old(h.mem), Release(b), h.page, h.State(), h.mem) <==>
            GoesWell(old(h.mem), old(h.State()), Release(b), h.page)
    ensures DoesWell(old(h.State()), old(h.mem), Release(b), h.page, h.State(), h.mem) ==> h.Valid()
  {
    ReleaseAt(h, b.addr + HEADER_SIZE, IndexOf(h.blocks, b));
  }

  /** One operation of the code as written: it does what it should exactly under its guard. */
  method Perform(h: Allocator, op: Op)
    requires !h.relink && h.Valid() && h.LinkedDown() && Allowed(h.State(), op)
    modifies h
    ensures h.LinkedDown() && h.mem == ExecMemory(old(h.mem), old(h.State()), op, h.page, false)
    ensures DoesWell(old(h.State()), old(h.mem), op, h.page, h.State(), h.mem) <==>
            GoesWell(old(h.mem), old(h.State()), op, h.page)
    ensures DoesWell(old(h.State()), old(h.mem), op, h.page, h.State(), h.mem) ==> h.Valid()
  {
    match op
    case Request(bytes, ok) => PerformRequest(h, bytes, ok);
    case Release(b) => PerformRelease(h, b);
  }

  method StepAsWritten(h: Allocator, op: Op, m: Memory)
    requires !h.relink && h.Valid() && h.LinkedDown() && Allowed(h.State(), op)
    requires GoesWell(h.mem, h.State(), op, h.page)
    requires OwnWrites(ExecMemory(h.mem, h.State(), op, h.page, false), m, Exec(h.State(), op, h.page).blocks)
    modifies h
    ensures h.Valid() && h.LinkedDown() && h.State() == Exec(old(h.State()), op, h.page) && h.mem == m
  {
    Perform(h, op);
    h.ValidIsUsable();
    h.Write(m);
  }

  /**
   The code as written follows every run up to the first release whose guard fails, and no further,
   whatever the caller writes in between: if all operations but the last go well, the last one leaves the
   specified heap and the blocks in use as they were exactly when it goes well too.
   */
  method ReplayAsWritten(base: int, page: int, ops: seq<Op>, ghost hs: seq<Heap>, mems: seq<Memory>)
    returns (h: Allocator)
    requires base > 0 && page > 0 && ops != [] && IsRun(hs, ops, base, page)
    requires IsMemoryRun(mems, hs, ops, base, page, false)
    requires forall i :: 0 <= i < |ops| - 1 ==> GoesWell(mems[i], hs[i], ops[i], page)
    ensures var n := |ops| - 1;
            && fresh(h) && !h.relink && h.mem == ExecMemory(mems[n], hs[n], ops[n], page, false)
            && (h.State() == hs[n + 1] && PayloadsKept(mems[n], h.mem, hs[n].blocks) <==>
                GoesWell(mems[n], hs[n], ops[n], page))
  {
    h := new Allocator(base, page, false);
    for i := 0 to |ops| - 1
      invariant fresh(h) && h.base == base && h.page == page && !h.relink
      invariant h.Valid() && h.LinkedDown() && h.State() == hs[i] && h.mem == mems[i]
    {
      assert CallerWrites(mems, hs, ops, page, false, i);
      StepAsWritten(h, ops[i], mems[i + 1]);
    }
    Perform(h, ops[|ops| - 1]);
  }

  // ----- Five ways in which it fails -----

  /** my_malloc where sbrk succeeds, without the contents of memory. */
  method Ask(h: Allocator, size: nat) returns (p: int)
    requires !h.relink && h.Valid() && h.LinkedDown() && size > 0
    modifies h
    ensures h.Valid() && h.LinkedDown()
    ensures Malloc(old(h.State()), size + HEADER_SIZE, h.page, true) == Placed(h.State(), BlockOf(p))
    ensures old(h.FullyLinked()) && !SplitsInside(old(h.blocks), size + HEADER_SIZE) ==> h.FullyLinked()
    ensures forall i :: 0 <= i < |old(h.blocks)| ==>
              PrevOf(h.mem, old(h.blocks), i) == PrevOf(old(h.mem), old(h.blocks), i)
  {
    ghost var s, m, n := h.State(), h.mem, size + HEADER_SIZE;
    MallocGood(s, h.base, h.page, size, true);
    MallocDown(h.first, m, s, h.base, n, h.page, true);
    if h.FullyLinked() { MallocBackLinks(h.first, m, s, h.base, n, h.page, true, false); }
    forall i | 0 <= i < |s.blocks|
      ensures PrevOf(MallocMemory(m, s, n, h.page, true, false), s.blocks, i) == PrevOf(m, s.blocks, i)
    {
      MallocPrev(h.first, m, s, h.base, n, h.page, true, i);
    }
    h.ValidIsUsable();
    p := h.Malloc(size, true);
  }

  /** my_free where it goes well, of the payload of live block k. */
  method GiveBack(h: Allocator, p: int, ghost k: nat)
    requires !h.relink && h.Valid() && h.LinkedDown() && p != 0
    requires k < |h.blocks| && !h.blocks[k].free && p == h.blocks[k].addr + HEADER_SIZE
    requires FreesWell(h.mem, h.blocks, k, h.page)
    modifies h
    ensures h.Valid() && h.LinkedDown() && h.State() == Free(old(h.State()), k, h.page)
    ensures h.mem == FreeMemory(old(h.mem), old(h.State()), k, h.page, false)
  {
    ghost var s, m := h.State(), h.mem;
    FreeGood(s, h.base, h.page, k);
    FreesIffWell(h.first, m, s, h.base, k, h.page);
    h.ValidIsUsable();
    h.Free(p, k);
  }

  method GiveBackLinked(h: Allocator, p: int, ghost k: nat)
    requires !h.relink && h.Valid() && h.FullyLinked() && h.LinkedDown() && p != 0
    requires k < |h.blocks| && !h.blocks[k].free && p == h.blocks[k].addr + HEADER_SIZE
    modifies h
    ensures h.Valid() && h.LinkedDown() && h.State() == Free(old(h.State()), k, h.page)
    ensures h.FullyLinked() <==> !JoinsInside(old(h.blocks), k)
  {
    ghost var s, m := h.State(), h.mem;
    BackLinkedFreesWell(m, s.blocks, k, h.page);
    LinkedFrees(h.first, m, s, h.base, k, h.page, false);
    GiveBack(h, p, k);
  }

  method OneSmall() returns (h: Allocator, p: int)
    ensures fresh(h) && !h.relink && h.page == 4096 && h.Valid() && h.FullyLinked() && h.LinkedDown()
            && BlockOf(p) == 4096
    ensures h.blocks == [Block(4096, 132, false), Block(4228, 3964, true)]
  {
    h := new Allocator(4096, 4096, false);
    p := Ask(h, 100);
  }

  method TwoSmall() returns (h: Allocator, p: int, c: int)
    ensures fresh(h) && !h.relink && h.page == 4096 && h.Valid() && h.FullyLinked() && h.LinkedDown()
    ensures BlockOf(p) == 4096 && BlockOf(c) == 4228
    ensures h.blocks == [Block(4096, 132, false), Block(4228, 132, false), Block(4360, 3832, true)]
  {
    h, p := OneSmall();
    assert FirstFit(h.blocks, 132) == 1;
    c := Ask(h, 100);
  }

  /** Two blocks, the first one freed. */
  method FreedFront() returns (h: Allocator, c: int)
    ensures fresh(h) && !h.relink && h.page == 4096 && h.Valid() && h.FullyLinked() && h.LinkedDown()
    ensures BlockOf(c) == 4228
    ensures h.blocks == [Block(4096, 132, true), Block(4228, 132, false), Block(4360, 3832, true)]
  {
    var p;
    h, p, c := TwoSmall();
    TrailingIsLast(FreeAt(h.blocks, 0));
    GiveBackLinked(h, p, 0);
  }

  method SplitFront() returns (h: Allocator, a: int, c: int)
    ensures fresh(h) && !h.relink && h.page == 4096 && h.Valid() && h.LinkedDown() && BlockOf(a) == 4096
            && BlockOf(c) == 4228
    ensures h.blocks == [Block(4096, 52, false), Block(4148, 80, true),
                         Block(4228, 132, false), Block(4360, 3832, true)]
    ensures PrevOf(h.mem, h.blocks, 2) == 4096
  {
    h, c := FreedFront();
    ghost var bs := h.blocks;
    assert PrevOf(h.mem, bs, 1) == AddrAt(bs, 0) && FirstFit(bs, 52) == 0;
    a := Ask(h, 20);
    assert PrevOf(h.mem, bs, 1) == 4096;
  }

  /** The freed block is cut in two and both parts are handed out: c's `prev` is now stale. */
  method StaleLink() returns (h: Allocator, a: int, n: int, c: int)
    ensures fresh(h) && !h.relink && h.page == 4096 && h.Valid() && h.LinkedDown()
    ensures BlockOf(a) == 4096 && BlockOf(n) == 4148 && BlockOf(c) == 4228
    ensures h.blocks == [Block(4096, 52, false), Block(4148, 80, false),
                         Block(4228, 132, false), Block(4360, 3832, true)]
    ensures PrevOf(h.mem, h.blocks, 2) == 4096
  {
    h, a, c := SplitFront();
    ghost var cs := h.blocks;
    assert FirstFit(cs, 80) == 1;
    n := Ask(h, 48);
    assert PrevOf(h.mem, cs, 2) == 4096;
  }

  /** The front part is given back; nothing goes wrong yet. */
  method FreedPart() returns (h: Allocator, n: int, c: int)
    ensures fresh(h) && !h.relink && h.page == 4096 && h.Valid() && h.LinkedDown() && BlockOf(n) == 4148
            && BlockOf(c) == 4228
    ensures h.blocks == [Block(4096, 52, true), Block(4148, 80, false),
                         Block(4228, 132, false), Block(4360, 3832, true)]
    ensures PrevOf(h.mem, h.blocks, 2) == 4096
  {
    var a;
    h, a, n, c := StaleLink();
    ghost var bs := h.blocks;
    assert PrevOf(h.mem, bs, 0) == 0;
    TrailingIsLast(FreeAt(bs, 0));
    GiveBack(h, a, 0);
  }

  lemma LosingMerge(mem: Memory, bs: seq<Block>)
    requires bs == [Block(4096, 52, true), Block(4148, 80, false), Block(4228, 132, false), Block(4360, 3832, true)]
    requires Holds(mem, bs, 0) && Holds(mem, bs, 1) && Holds(mem, bs, 2) && PrevOf(mem, bs, 2) == 4096
    ensures Merges(mem, bs, 2) == [Block(4096, 4016, true)]
    ensures 4148 in Merged(mem, 4228, false) && At(Merged(mem, 4228, false), 4148) == At(mem, 4148)
  {
    assert Find(bs, 4096) == 0;
  }

  /**
   The code as written loses a live block: p and c are allocated, p is freed, a takes the front of
   p and n the rest of it, a is freed, then c. The `prev` of c still names a, so c is joined to a
   across n: n is live, is no longer in the list, and lies inside a free block of the list.
   */
  method LostBlock() returns (h: Allocator, n: int)
    ensures fresh(h) && !h.relink && Linked(h.first, h.mem, h.blocks)
    ensures n != 0 && BlockOf(n) in h.mem && !At(h.mem, BlockOf(n)).free
    ensures forall b :: b in h.blocks ==> b.addr != BlockOf(n)
    ensures exists b :: b in h.blocks && b.free && b.addr < BlockOf(n) < b.End()
  {
    var c;
    h, n, c := FreedPart();
    ghost var bs, mem := h.blocks, h.mem;
    assert Holds(mem, bs, 0) && Holds(mem, bs, 1) && Holds(mem, bs, 2);
    LosingMerge(mem, bs);
    NothingCut(mem, h.State(), 2, 4096, [Block(4096, 4016, true)]);
    h.ValidIsUsable();
    h.Free(c, 2);
    assert h.blocks[0] == Block(4096, 4016, true);
  }

  method ThreeSmall() returns (h: Allocator, x: int, y: int, z: int)
    ensures fresh(h) && !h.relink && h.page == 4096 && h.Valid() && h.FullyLinked() && h.LinkedDown()
    ensures BlockOf(x) == 4096 && BlockOf(y) == 4228 && BlockOf(z) == 4360
    ensures h.blocks == [Block(4096, 132, false), Block(4228, 132, false), Block(4360, 132, false),
                         Block(4492, 3700, true)]
  {
    h, x, y := TwoSmall();
    assert FirstFit(h.blocks, 132) == 2;
    z := Ask(h, 100);
  }

  method FourSmall() returns (h: Allocator, x: int, y: int, z: int)
    ensures fresh(h) && !h.relink && h.page == 4096 && h.Valid() && h.FullyLinked() && h.LinkedDown()
    ensures BlockOf(x) == 4096 && BlockOf(y) == 4228 && BlockOf(z) == 4360
    ensures h.blocks == [Block(4096, 132, false), Block(4228, 132, false), Block(4360, 132, false),
                         Block(4492, 132, false), Block(4624, 3568, true)]
  {
    h, x, y, z := ThreeSmall();
    assert FirstFit(h.blocks, 132) == 3;
    var w := Ask(h, 100);
  }

  method FreedSecond() returns (h: Allocator, x: int, z: int)
    ensures fresh(h) && !h.relink && h.page == 4096 && h.Valid() && h.FullyLinked() && h.LinkedDown()
    ensures BlockOf(x) == 4096 && BlockOf(z) == 4360
    ensures h.blocks == [Block(4096, 132, false), Block(4228, 132, true), Block(4360, 132, false),
                         Block(4492, 132, false), Block(4624, 3568, true)]
  {
    var y;
    h, x, y, z := FourSmall();
    TrailingIsLast(FreeAt(h.blocks, 1));
    GiveBackLinked(h, y, 1);
  }

  /** Where nothing is cut off, my_free stops after free_and_merge. */
  lemma NothingCut(mem: Memory, h: Heap, k: nat, page: int, r: seq<Block>)
    requires page > 0 && k < |h.blocks| && Merges(mem, h.blocks, k) == r
    requires Coalesced(r) && LastFree(r) < DeallocSize(page)
    ensures Frees(mem, h, k, page, false) == Heap(r, h.brk)
    ensures FreeMemory(mem, h, k, page, false) == Merged(mem, h.blocks[k].addr, false)
  {
    TrailingIsLast(r);
  }

  lemma FreedBothMerge(mem: Memory, bs: seq<Block>)
    requires bs == [Block(4096, 132, false), Block(4228, 132, true), Block(4360, 132, false),
                    Block(4492, 132, false), Block(4624, 3568, true)]
    requires Holds(mem, bs, 0) && Holds(mem, bs, 1) && BackLinked(mem, bs)
    ensures FreeAt(bs, 0) == Merges(mem, bs, 0) ==
            [Block(4096, 264, true), Block(4360, 132, false), Block(4492, 132, false), Block(4624, 3568, true)]
    ensures var m := Merged(mem, 4096, false);
            && At(m, 4228) == Header(132, true, 4096, 4360) && At(m, 4360).prev == 4228
  {
    assert PrevOf(mem, bs, 0) == 0 && PrevOf(mem, bs, 1) == 4096 && PrevOf(mem, bs, 2) == 4228;
  }

  /** The first two blocks are joined. The second one's header stays in memory, and the third one's `prev` names it. */
  method FreedBoth() returns (h: Allocator, z: int)
    ensures fresh(h) && !h.relink && h.page == 4096 && h.Valid() && h.LinkedDown() && BlockOf(z) == 4360
    ensures h.blocks == [Block(4096, 264, true), Block(4360, 132, false), Block(4492, 132, false),
                         Block(4624, 3568, true)]
    ensures At(h.mem, 4228) == Header(132, true, 4096, 4360) && PrevOf(h.mem, h.blocks, 1) == 4228
  {
    var x;
    h, x, z := FreedSecond();
    ghost var bs, mem := h.blocks, h.mem;
    assert Holds(mem, bs, 0) && Holds(mem, bs, 1);
    BackLinkedFreesWell(mem, bs, 0, h.page);
    FreedBothMerge(mem, bs);
    NothingCut(mem, h.State(), 0, h.page, FreeAt(bs, 0));
    GiveBack(h, x, 0);
  }

  /** Where the first fit is not split, only its mark changes. */
  lemma WholeBlock(mem: Memory, h: Heap, n: int, page: int, k: nat)
    requires page > 0 && k < |h.blocks| && FirstFit(h.blocks, n) == k
    requires h.blocks[k].addr != 0 && Holds(mem, h.blocks, k) && !Splits(h.blocks[k], n)
    ensures Malloc(h, n, page, true).heap == Heap(h.blocks[k := h.blocks[k].(free := false)], h.brk)
    ensures var a := h.blocks[k].addr;
            MallocMemory(mem, h, n, page, true, false) == mem[a := At(mem, a).(free := false)]
  {
  }

  method AskWhole(h: Allocator, size: nat) returns (p: int)
    requires !h.relink && h.Valid() && h.LinkedDown() && size > 0
    modifies h
    ensures h.Valid() && h.LinkedDown()
    ensures Malloc(old(h.State()), size + HEADER_SIZE, h.page, true).heap == h.State()
    ensures h.mem == MallocMemory(old(h.mem), old(h.State()), size + HEADER_SIZE, h.page, true, false)
  {
    ghost var s, m, n := h.State(), h.mem, size + HEADER_SIZE;
    MallocGood(s, h.base, h.page, size, true);
    MallocDown(h.first, m, s, h.base, n, h.page, true);
    h.ValidIsUsable();
    p := h.Malloc(size, true);
  }

  /** The joined block is handed out whole. */
  method Reused() returns (h: Allocator, z: int)
    ensures fresh(h) && !h.relink && h.page == 4096 && h.Valid() && h.LinkedDown() && BlockOf(z) == 4360
    ensures h.blocks == [Block(4096, 264, false), Block(4360, 132, false), Block(4492, 132, false),
                         Block(4624, 3568, true)]
    ensures At(h.mem, 4228) == Header(132, true, 4096, 4360) && PrevOf(h.mem, h.blocks, 1) == 4228
  {
    h, z := FreedBoth();
    ghost var s, mem := h.State(), h.mem;
    assert FirstFit(s.blocks, 264) == 0 && Holds(mem, s.blocks, 0);
    WholeBlock(mem, s, 264, h.page, 0);
    var p := AskWhole(h, 232);
  }

  lemma OverwritingMerge(mem: Memory, bs: seq<Block>)
    requires bs == [Block(4096, 264, false), Block(4360, 132, false), Block(4492, 132, false), Block(4624, 3568, true)]
    requires Holds(mem, bs, 1) && Holds(mem, bs, 2)
    requires PrevOf(mem, bs, 1) == 4228 && At(mem, 4228) == Header(132, true, 4096, 4360)
    ensures FreeAt(bs, 1) == Merges(mem, bs, 1) ==
            [Block(4096, 264, false), Block(4360, 132, true), Block(4492, 132, false), Block(4624, 3568, true)]
    ensures FreesWell(mem, bs, 1, 4096)
    ensures At(Merged(mem, 4360, false), 4228) == Header(264, true, 4096, 4492)
  {
    assert Find(bs, 4228) == |bs|;
    TrailingIsLast(FreeAt(bs, 1));
  }

  /**
   The code as written stores inside a block in use: x and y, next to one another, are freed in the order y,
   x, and handed out again as one block. The `prev` of z still names the header of y, which says free, so
   freeing z stores a size and a `next` there. The list that is left is the specified one all the same.
   */
  method Overwritten() returns (h: Allocator, ghost before: Memory, ghost s: Heap)
    ensures fresh(h) && !h.relink && Linked(h.first, h.mem, h.blocks)
    ensures 1 < |s.blocks| && FreesWell(before, s.blocks, 1, 4096) && h.State() == Free(s, 1, 4096)
    ensures Block(4096, 264, false) in s.blocks && Inside(Block(4096, 264, false), 4228)
    ensures At(before, 4228) == Header(132, true, 4096, 4360) && At(h.mem, 4228) == Header(264, true, 4096, 4492)
  {
    var z;
    h, z := Reused();
    s, before := h.State(), h.mem;
    ghost var bs := s.blocks;
    assert Holds(before, bs, 1) && Holds(before, bs, 2) && bs[0] in bs;
    OverwritingMerge(before, bs);
    NothingCut(before, s, 1, 4096, FreeAt(bs, 1));
    GiveBack(h, z, 1);
  }

  method OneChecked() returns (h: Allocator, a: int)
    ensures fresh(h) && !h.relink && h.page == 4096 && h.Valid() && h.FullyLinked() && h.LinkedDown()
            && BlockOf(a) == 4096
    ensures h.blocks == [Block(4096, 8032, false), Block(12128, 160, true)]
  {
    h := new Allocator(4096, 4096, false);
    a := Ask(h, 8000);
  }

  /** Two pages free at the end of the heap are kept: the break stays. */
  method KeptSpace() returns (h: Allocator)
    ensures fresh(h) && !h.relink && h.page == 4096 && h.State() == Heap([Block(4096, 8192, true)], 12288)
  {
    var a;
    h, a := OneChecked();
    TrailingIsLast(FreeAt(h.blocks, 0));
    assert FreeAt(h.blocks, 0) == [Block(4096, 8192, true)];
    GiveBackLinked(h, a, 0);
  }

  method TwoChecked() returns (h: Allocator, a: int, b: int)
    ensures fresh(h) && !h.relink && h.page == 4096 && h.Valid() && h.FullyLinked() && h.LinkedDown()
    ensures BlockOf(a) == 4096 && BlockOf(b) == 12128
    ensures h.blocks == [Block(4096, 8032, false), Block(12128, 4032, false), Block(16160, 224, true)]
  {
    h, a := OneChecked();
    assert FirstFit(h.blocks, 4032) == 2 && PageRound(3872, 4096) == 4096;
    b := Ask(h, 4000);
  }

  /** The first calls of the repository's own check_malloc_free: 8000 and 4000 bytes, the first given back. */
  method CheckedFront() returns (h: Allocator, b: int)
    ensures fresh(h) && !h.relink && h.page == 4096 && h.Valid() && h.LinkedDown() && BlockOf(b) == 12128
    ensures h.blocks == [Block(4096, 8032, true), Block(12128, 4032, false), Block(16160, 224, true)]
    ensures PrevOf(h.mem, h.blocks, 1) == 4096
  {
    var a;
    h, a, b := TwoChecked();
    TrailingIsLast(FreeAt(h.blocks, 0));
    GiveBackLinked(h, a, 0);
  }

  method CheckedSplit() returns (h: Allocator, b: int)
    ensures fresh(h) && !h.relink && h.page == 4096 && h.Valid() && h.LinkedDown() && BlockOf(b) == 12128
    ensures h.blocks == [Block(4096, 4032, false), Block(8128, 4000, true),
                         Block(12128, 4032, false), Block(16160, 224, true)]
    ensures PrevOf(h.mem, h.blocks, 2) == 4096
  {
    h, b := CheckedFront();
    ghost var bs := h.blocks;
    assert FirstFit(bs, 4032) == 0;
    var c := Ask(h, 4000);
    assert PrevOf(h.mem, bs, 1) == 4096;
  }

  /** Then 4000 bytes, cut from the freed block, and 4128 bytes, for which the heap grows. */
  method CheckedMiddle() returns (h: Allocator, b: int)
    ensures fresh(h) && !h.relink && h.page == 4096 && h.Valid() && h.LinkedDown() && BlockOf(b) == 12128
    ensures h.blocks == [Block(4096, 4032, false), Block(8128, 4000, true), Block(12128, 4032, false),
                         Block(16160, 4160, false), Block(20320, 160, true)]
    ensures PrevOf(h.mem, h.blocks, 2) == 4096
  {
    h, b := CheckedSplit();
    ghost var cs := h.blocks;
    assert FirstFit(cs, 4160) == 4;
    var d := Ask(h, 4128);
    assert PrevOf(h.mem, cs, 2) == 4096;
  }

  lemma MissedMerge(mem: Memory, bs: seq<Block>)
    requires bs == [Block(4096, 4032, false), Block(8128, 4000, true), Block(12128, 4032, false),
                    Block(16160, 4160, false), Block(20320, 160, true)]
    requires Holds(mem, bs, 0) && Holds(mem, bs, 2) && PrevOf(mem, bs, 2) == 4096
    ensures Merges(mem, bs, 2) == bs[2 := Block(12128, 4032, true)]
    ensures TrailingFree(Merges(mem, bs, 2)) == 160 && !Coalesced(Merges(mem, bs, 2))
    ensures forall brk :: Tiled(bs, 4096, brk) ==> Tiled(Merges(mem, bs, 2), 4096, brk)
  {
    var r := bs[2 := Block(12128, 4032, true)];
    assert TrailingFree(r) == 160 by { assert !r[..4][3].free; }
    assert r[1].free && r[2].free;
  }

  /**
   The next call of check_malloc_free gives b back. Its `prev` names the block in use in front of the
   free one, so b is not joined with its free neighbour: two free blocks follow one another.
   */
  method Uncoalesced() returns (h: Allocator)
    ensures fresh(h) && !h.relink && Linked(h.first, h.mem, h.blocks) && !Coalesced(h.blocks)
    ensures Tiled(h.blocks, 4096, h.brk)
  {
    var b;
    h, b := CheckedMiddle();
    ghost var bs, mem := h.blocks, h.mem;
    assert Holds(mem, bs, 0) && Holds(mem, bs, 2);
    MissedMerge(mem, bs);
    h.ValidIsUsable();
    h.Free(b, 2);
  }

  method TwoLarge() returns (h: Allocator, p: int, c: int)
    ensures fresh(h) && !h.relink && h.page == 4096 && h.Valid() && h.FullyLinked() && h.LinkedDown()
    ensures BlockOf(p) == 4096 && BlockOf(c) == 4228
    ensures h.blocks == [Block(4096, 132, false), Block(4228, 20032, false), Block(24260, 316, true)]
  {
    h, p := OneSmall();
    assert FirstFit(h.blocks, 20032) == 2 && PageRound(16068, 4096) == 16384;
    c := Ask(h, 20000);
  }

  /** As in FreedFront, but the second block is large. */
  method LargeFront() returns (h: Allocator, c: int)
    ensures fresh(h) && !h.relink && h.page == 4096 && h.Valid() && h.LinkedDown() && BlockOf(c) == 4228
    ensures h.blocks == [Block(4096, 132, true), Block(4228, 20032, false), Block(24260, 316, true)]
    ensures PrevOf(h.mem, h.blocks, 1) == 4096
  {
    var p;
    h, p, c := TwoLarge();
    TrailingIsLast(FreeAt(h.blocks, 0));
    GiveBackLinked(h, p, 0);
  }

  method LargeSplit() returns (h: Allocator, c: int)
    ensures fresh(h) && !h.relink && h.page == 4096 && h.Valid() && h.LinkedDown() && BlockOf(c) == 4228
    ensures h.blocks == [Block(4096, 52, false), Block(4148, 80, true),
                         Block(4228, 20032, false), Block(24260, 316, true)]
    ensures PrevOf(h.mem, h.blocks, 2) == 4096
  {
    h, c := LargeFront();
    ghost var bs := h.blocks;
    assert FirstFit(bs, 52) == 0;
    var a := Ask(h, 20);
    assert PrevOf(h.mem, bs, 1) == 4096;
  }

  method LargeMiddle() returns (h: Allocator, n: int, c: int)
    ensures fresh(h) && !h.relink && h.page == 4096 && h.Valid() && h.LinkedDown() && BlockOf(n) == 4148
            && BlockOf(c) == 4228
    ensures h.blocks == [Block(4096, 52, false), Block(4148, 80, false),
                         Block(4228, 20032, false), Block(24260, 316, true)]
    ensures PrevOf(h.mem, h.blocks, 2) == 4096
  {
    h, c := LargeSplit();
    ghost var cs := h.blocks;
    assert FirstFit(cs, 80) == 1;
    n := Ask(h, 48);
    assert PrevOf(h.mem, cs, 2) == 4096;
  }

  lemma CuttingMerge(mem: Memory, bs: seq<Block>)
    requires bs == [Block(4096, 52, false), Block(4148, 80, false), Block(4228, 20032, false), Block(24260, 316, true)]
    requires Holds(mem, bs, 0) && Holds(mem, bs, 1) && Holds(mem, bs, 2) && Holds(mem, bs, 3)
    requires PrevOf(mem, bs, 2) == 4096
    ensures Merges(mem, bs, 2) == [Block(4096, 52, false), Block(4148, 80, false), Block(4228, 20348, true)]
    ensures var m := Merged(mem, 4228, false); 4148 in m && At(m, 4148) == At(mem, 4148) && At(m, 4228).prev == 4096
  {
  }

  lemma WrongCut(m: Memory, r: seq<Block>, brk: int)
    requires r == [Block(4096, 52, false), Block(4148, 80, false), Block(4228, 20348, true)] && At(m, 4228).prev == 4096
    ensures Cuts(m, r, brk, 4096) == Heap([Block(4096, 52, false)], 4228)
    ensures CutMemory(m, r, 4096) == m[4096 := At(m, 4096).(next := 0)]
  {
    TrailingIsLast(r);
    assert Find(r, 4096) == 0 && r[..1] == [Block(4096, 52, false)];
  }

  /**
   The merge goes well here, but the freed block is large and last, and is cut off. Its `prev` names
   the block before n, so the list is cut there: n is live, below the break, and not in the list.
   */
  method CutOff() returns (h: Allocator, n: int)
    ensures fresh(h) && !h.relink && Linked(h.first, h.mem, h.blocks)
    ensures n != 0 && BlockOf(n) in h.mem && !At(h.mem, BlockOf(n)).free && BlockOf(n) < h.brk
    ensures forall b :: b in h.blocks ==> b.End() <= BlockOf(n)
  {
    var c;
    h, n, c := LargeMiddle();
    ghost var bs, mem := h.blocks, h.mem;
    assert Holds(mem, bs, 0) && Holds(mem, bs, 1) && Holds(mem, bs, 2) && Holds(mem, bs, 3);
    CuttingMerge(mem, bs);
    WrongCut(Merged(mem, 4228, false), Merges(mem, bs, 2), h.brk);
    h.ValidIsUsable();
    h.Free(c, 2);
  }

  /** sbrk fails where the code does not test it: a block is handed out that reaches beyond the break. */
  method FailedGrowth() returns (h: Allocator, p: int)
    ensures fresh(h) && !h.relink && p != 0 && !Tiled(h.blocks, h.base, h.brk)
    ensures exists b :: b in h.blocks && !b.free && b.addr == BlockOf(p) && b.End() > h.brk
  {
    var a;
    h, a := OneSmall();
    assert FirstFit(h.blocks, 8032) == 2 && PageRound(4068, 4096) == 4096;
    p := h.Malloc(8000, false);
    assert h.blocks[1] == Block(4228, 8060, false) && h.brk == 8192;
  }
}
