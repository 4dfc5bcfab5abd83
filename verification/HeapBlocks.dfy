/**
 The heap of ch07/malloc_and_free.c seen as the sequence of its blocks in list order.
 The functions say what one call does to that sequence; the lemmas say what every call,
 and so every run, keeps. `Allocator` proves that the pointer code computes these functions.
 */
module HeapBlocks {

  /** sizeof(m_block): two words, a padded flag and a length. */
  const HEADER_SIZE := 32

  /** A block covers [addr, addr + size), its header included. */
  datatype Block = Block(addr: int, size: int, free: bool) {
    function End(): int { addr + size }
  }

  datatype Heap = Heap(blocks: seq<Block>, brk: int)

  datatype Placed = Placed(heap: Heap, block: int)

  // ----- What a well-formed heap is -----

  /** The blocks follow one another without gap or overlap and fill [base, brk). */
  predicate Tiled(bs: seq<Block>, base: int, brk: int) {
    && (bs == [] ==> brk == base)
    && (bs != [] ==> bs[0].addr == base && bs[|bs| - 1].End() == brk)
    && (forall i :: 0 <= i < |bs| ==> bs[i].size > HEADER_SIZE)
    && (forall i :: 0 < i < |bs| ==> bs[i].addr == bs[i - 1].End())
  }

  /** The blocks follow one another without overlap inside [base, brk); there may be gaps between them. */
  predicate Spaced(bs: seq<Block>, base: int, brk: int) {
    && (bs == [] ==> base <= brk)
    && (bs != [] ==> base <= bs[0].addr && bs[|bs| - 1].End() <= brk)
    && (forall i :: 0 <= i < |bs| ==> bs[i].size > HEADER_SIZE)
    && (forall i :: 0 < i < |bs| ==> bs[i - 1].End() <= bs[i].addr)
  }

  predicate Coalesced(bs: seq<Block>) {
    forall i :: 0 < i < |bs| ==> !(bs[i - 1].free && bs[i].free)
  }

  /** Total size of the run of free blocks at the end of the list. */
  function TrailingFree(bs: seq<Block>): int {
    if bs == [] || !bs[|bs| - 1].free then 0
    else TrailingFree(bs[..|bs| - 1]) + bs[|bs| - 1].size
  }

  function LastFree(bs: seq<Block>): int {
    if bs != [] && bs[|bs| - 1].free then bs[|bs| - 1].size else 0
  }

  function DeallocSize(page: int): int { 4 * page }

  ghost predicate Good(h: Heap, base: int, page: int) {
    && Tiled(h.blocks, base, h.brk)
    && Coalesced(h.blocks)
    && TrailingFree(h.blocks) < DeallocSize(page)
  }

  /** The blocks handed out and not yet given back. */
  function Live(bs: seq<Block>): set<Block> {
    set b | b in bs && !b.free
  }

  predicate Disjoint(a: Block, b: Block) {
    a.End() <= b.addr || b.End() <= a.addr
  }

  /** From h to h', b became live, all other live blocks stayed, and b overlaps none of them. */
  ghost predicate NewlyLive(h: Heap, h': Heap, b: Block) {
    && Live(h'.blocks) == Live(h.blocks) + {b}
    && forall c :: c in Live(h.blocks) ==> Disjoint(b, c)
  }

  /** b is the block handed out for a request of n bytes; its payload is at most a header larger. */
  ghost predicate Serves(h: Heap, h': Heap, n: int, b: Block) {
    NewlyLive(h, h', b) && n <= b.size - HEADER_SIZE <= n + HEADER_SIZE
  }

  // ----- Operations -----

  /** The index of the first free block of at least n bytes, or the length of the list. */
  function FirstFit(bs: seq<Block>, n: int): (k: nat)
    ensures k <= |bs|
    ensures k < |bs| ==> bs[k].free && bs[k].size >= n
    ensures forall i :: 0 <= i < k ==> !(bs[i].free && bs[i].size >= n)
  {
    if bs == [] then 0
    else if bs[0].free && bs[0].size >= n then 0
    else 1 + FirstFit(bs[1..], n)
  }

  /** Does cutting block b down to n bytes leave room for another block? */
  predicate Splits(b: Block, n: int) {
    b.size - n > HEADER_SIZE
  }

  /** Block k is cut to n bytes if that leaves room for another block; the rest becomes a free block. */
  function Shrink(bs: seq<Block>, k: nat, n: int): seq<Block>
    requires k < |bs|
  {
    if Splits(bs[k], n)
    then bs[..k] + [bs[k].(size := n), Block(bs[k].addr + n, bs[k].size - n, true)] + bs[k + 1..]
    else bs
  }

  /** Block k is cut to n bytes (if that leaves room for another block) and handed out. */
  function Grab(bs: seq<Block>, k: nat, n: int): seq<Block>
    requires k < |bs|
  {
    if Splits(bs[k], n)
    then bs[..k] + [Block(bs[k].addr, n, false), Block(bs[k].addr + n, bs[k].size - n, true)] + bs[k + 1..]
    else bs[k := bs[k].(free := false)]
  }

  function PageRound(n: int, page: int): int
    requires page > 0
  {
    var whole := (n / page + 1) * page;
    if whole > page then whole else page
  }

  /** No block fits and the last block is free: the break is moved to enlarge that block. */
  predicate Extends(bs: seq<Block>, n: int) {
    FirstFit(bs, n) == |bs| && bs != [] && bs[|bs| - 1].free
  }

  function Enlarged(bs: seq<Block>, n: int, page: int): seq<Block>
    requires page > 0 && bs != []
  {
    var last := bs[|bs| - 1];
    bs[|bs| - 1 := last.(size := last.size + PageRound(n - last.size, page))]
  }

  /** What my_malloc does for a block of n bytes; `ok` is whether sbrk succeeds. */
  function Malloc(h: Heap, n: int, page: int, ok: bool): Placed
    requires page > 0
  {
    var k := FirstFit(h.blocks, n);
    if k < |h.blocks| then
      Placed(Heap(Grab(h.blocks, k, n), h.brk), h.blocks[k].addr)
    else if Extends(h.blocks, n) then
      var last := |h.blocks| - 1;
      var grow := PageRound(n - h.blocks[last].size, page);
      Placed(Heap(Grab(Enlarged(h.blocks, n, page), last, n), if ok then h.brk + grow else h.brk),
             h.blocks[last].addr)
    else if !ok then
      Placed(h, 0)
    else
      var grow := PageRound(n, page);
      Placed(Heap(Grab(h.blocks + [Block(h.brk, grow, true)], k, n), h.brk + grow), h.brk)
  }

  /** Blocks i and i+1 become one. */
  function MergeAt(bs: seq<Block>, i: nat): seq<Block>
    requires i + 1 < |bs|
  {
    bs[..i] + [Block(bs[i].addr, bs[i].size + bs[i + 1].size, bs[i].free)] + bs[i + 2..]
  }

  function MergeBack(bs: seq<Block>, k: nat): seq<Block>
    requires k < |bs|
  {
    if k > 0 && bs[k - 1].free then MergeAt(bs, k - 1) else bs
  }

  function MergeForward(bs: seq<Block>, k: nat): seq<Block>
    requires k < |bs|
  {
    if k + 1 < |bs| && bs[k + 1].free then MergeAt(bs, k) else bs
  }

  function Freed(bs: seq<Block>, k: nat): seq<Block>
    requires k < |bs|
  {
    bs[k := bs[k].(free := true)]
  }

  /** Where block k ends up when it is merged backwards. */
  function Home(bs: seq<Block>, k: nat): nat
    requires k < |bs|
  {
    if k > 0 && bs[k - 1].free then k - 1 else k
  }

  /** Block k is freed and joined with its free neighbours. */
  function FreeAt(bs: seq<Block>, k: nat): seq<Block>
    requires k < |bs|
  {
    MergeForward(MergeBack(Freed(bs, k), k), Home(bs, k))
  }

  /** release_resource_if_need: give the last block back when the trailing free space is large. */
  function Trim(bs: seq<Block>, brk: int, page: int): Heap
    requires page > 0
  {
    if TrailingFree(bs) < DeallocSize(page) || bs == [] then Heap(bs, brk)
    else Heap(bs[..|bs| - 1], bs[|bs| - 1].addr)
  }

  function Free(h: Heap, k: nat, page: int): Heap
    requires k < |h.blocks| && page > 0
  {
    Trim(FreeAt(h.blocks, k), h.brk, page)
  }

  // ----- Geometry of a heap -----

  lemma {:induction false} Ascending(bs: seq<Block>, base: int, brk: int, i: nat, j: nat)
    requires Spaced(bs, base, brk) && i < j < |bs|
    ensures bs[i].End() <= bs[j].addr
    decreases j
  {
    if i + 1 == j {
    } else {
      Ascending(bs, base, brk, i, j - 1);
    }
  }

  /** Distinct blocks never share a byte, and every block lies inside [base, brk). */
  lemma BlocksApart(bs: seq<Block>, base: int, brk: int, i: nat, j: nat)
    requires Spaced(bs, base, brk) && i < |bs| && j < |bs|
    ensures base <= bs[i].addr && bs[i].End() <= brk
    ensures i != j ==> Disjoint(bs[i], bs[j]) && bs[i].addr != bs[j].addr
  {
    if 0 < i { Ascending(bs, base, brk, 0, i); }
    if i < |bs| - 1 { Ascending(bs, base, brk, i, |bs| - 1); }
    if i < j { Ascending(bs, base, brk, i, j); }
    if j < i { Ascending(bs, base, brk, j, i); }
  }

  lemma PageRoundCovers(n: int, page: int)
    requires page > 0 && n >= 0
    ensures n < PageRound(n, page) <= n + page
  {
    assert n == (n / page) * page + n % page;
    assert (n / page + 1) * page == (n / page) * page + page;
  }

  lemma {:induction false} AtLeastOnce(t: int, page: int)
    requires page > 0 && t > 0
    ensures t * page >= page
    decreases t
  {
    if t == 1 {
    } else {
      AtLeastOnce(t - 1, page);
      assert t * page == (t - 1) * page + page;
    }
  }

  lemma MultipleOf(q: int, page: int)
    requires page > 0
    ensures (q * page) % page == 0
  {
    var m := q * page;
    assert m == m / page * page + m % page;
    assert (q - m / page) * page == m % page;
    if q > m / page {
      AtLeastOnce(q - m / page, page);
    } else if q < m / page {
      assert (m / page - q) * page == -((q - m / page) * page);
      AtLeastOnce(m / page - q, page);
    }
  }

  /** The growth of the heap is the least whole number of pages that is more than n bytes. */
  lemma PageRoundIsLeast(n: int, page: int)
    requires page > 0 && n >= 0
    ensures PageRound(n, page) % page == 0 && n < PageRound(n, page) <= n + page
  {
    PageRoundCovers(n, page);
    MultipleOf(n / page + 1, page);
  }

  lemma LiveOfConcat(a: seq<Block>, b: seq<Block>)
    ensures Live(a + b) == Live(a) + Live(b)
  {
  }

  lemma LiveAround(bs: seq<Block>, k: nat)
    requires k < |bs|
    ensures Live(bs) == Live(bs[..k]) + Live([bs[k]]) + Live(bs[k + 1..])
  {
    assert bs == bs[..k] + [bs[k]] + bs[k + 1..];
  }

  // ----- my_malloc -----

  /** A run of trailing free blocks has one block in a coalesced heap. */
  lemma TrailingIsLast(bs: seq<Block>)
    requires Coalesced(bs)
    ensures TrailingFree(bs) == LastFree(bs)
  {
    if bs != [] && bs[|bs| - 1].free && |bs| > 1 {
      assert !bs[..|bs| - 1][|bs| - 2].free;
    }
  }

  lemma GrabTiles(bs: seq<Block>, base: int, brk: int, k: nat, n: int)
    requires Tiled(bs, base, brk) && k < |bs| && HEADER_SIZE < n <= bs[k].size
    ensures Tiled(Grab(bs, k, n), base, brk)
  {
    var r := Grab(bs, k, n);
    if Splits(bs[k], n) {
      forall i | k + 2 <= i < |r| ensures r[i] == bs[i - 1] {}
    }
  }

  lemma GrabSpaced(bs: seq<Block>, base: int, brk: int, k: nat, n: int)
    requires Spaced(bs, base, brk) && k < |bs| && HEADER_SIZE < n <= bs[k].size
    ensures var r := Grab(bs, k, n);
            Spaced(r, base, brk) && r != [] && r[|r| - 1].End() == bs[|bs| - 1].End()
  {
    if Splits(bs[k], n) {
      SplitSpaced(bs, base, brk, k, n);
    }
  }

  lemma SplitSpaced(bs: seq<Block>, base: int, brk: int, k: nat, n: int)
    requires Spaced(bs, base, brk) && k < |bs| && HEADER_SIZE < n <= bs[k].size && Splits(bs[k], n)
    ensures var r := Grab(bs, k, n);
            Spaced(r, base, brk) && r != [] && r[|r| - 1].End() == bs[|bs| - 1].End()
  {
    var r := Grab(bs, k, n);
    forall i | 0 <= i < |r|
      ensures r[i].size > HEADER_SIZE && (i > 0 ==> r[i - 1].End() <= r[i].addr)
    {
      SplitAt(bs, base, brk, k, n, i);
    }
    SplitEnds(bs, k, n);
  }

  lemma SplitEnds(bs: seq<Block>, k: nat, n: int)
    requires k < |bs| && Splits(bs[k], n)
    ensures var r := Grab(bs, k, n);
            r != [] && r[0].addr == bs[0].addr && r[|r| - 1].End() == bs[|bs| - 1].End()
  {
  }

  lemma SplitAt(bs: seq<Block>, base: int, brk: int, k: nat, n: int, i: nat)
    requires Spaced(bs, base, brk) && k < |bs| && HEADER_SIZE < n <= bs[k].size && Splits(bs[k], n) && i <= |bs|
    ensures var r := Grab(bs, k, n);
            |r| == |bs| + 1 && r[i].size > HEADER_SIZE && (i > 0 ==> r[i - 1].End() <= r[i].addr)
  {
    if 0 < i <= k {
      assert bs[i - 1].End() <= bs[i].addr;
    } else if i > k + 1 {
      assert bs[i - 2].End() <= bs[i - 1].addr;
    }
  }

  lemma GrabCoalesces(bs: seq<Block>, k: nat, n: int)
    requires Coalesced(bs) && k < |bs| && bs[k].free
    ensures Coalesced(Grab(bs, k, n))
  {
    var r := Grab(bs, k, n);
    if Splits(bs[k], n) {
      forall i | k + 2 <= i < |r| ensures r[i] == bs[i - 1] {}
      assert k + 2 < |r| ==> r[k + 2] == bs[k + 1] && !bs[k + 1].free;
    }
  }

  lemma GrabLive(bs: seq<Block>, k: nat, n: int)
    requires k < |bs| && bs[k].free
    ensures Live(Grab(bs, k, n)) == Live(bs) + {Grab(bs, k, n)[k]}
  {
    var r := Grab(bs, k, n);
    LiveAround(bs, k);
    LiveAround(r, k);
    assert Live([bs[k]]) == {};
    assert Live([r[k]]) == {r[k]};
    assert r[..k] == bs[..k];
    if Splits(bs[k], n) {
      assert r[k + 1..] == [r[k + 1]] + bs[k + 1..];
      LiveOfConcat([r[k + 1]], bs[k + 1..]);
      assert Live([r[k + 1]]) == {};
    } else {
      assert r[k + 1..] == bs[k + 1..];
    }
  }

  /** The block handed out is what was asked for or a header larger at most, and overlaps no live block. */
  lemma GrabApart(bs: seq<Block>, base: int, brk: int, k: nat, n: int)
    requires Tiled(bs, base, brk) && k < |bs| && bs[k].free && HEADER_SIZE < n <= bs[k].size
    ensures var b := Grab(bs, k, n)[k];
            && b.addr == bs[k].addr && n <= b.size <= n + HEADER_SIZE && !b.free
            && forall c :: c in Live(bs) ==> Disjoint(b, c)
  {
    var b := Grab(bs, k, n)[k];
    forall c | c in Live(bs) ensures Disjoint(b, c) {
      var j :| 0 <= j < |bs| && bs[j] == c;
      BlocksApart(bs, base, brk, k, j);
    }
  }

  lemma GrabLastFree(bs: seq<Block>, k: nat, n: int)
    requires k < |bs| && bs[k].free
    ensures LastFree(Grab(bs, k, n)) ==
            if k < |bs| - 1 then LastFree(bs) else if Splits(bs[k], n) then bs[k].size - n else 0
  {
    var r := Grab(bs, k, n);
    assert k < |bs| - 1 ==> r[|r| - 1] == bs[|bs| - 1];
  }

  lemma GrabTrailing(bs: seq<Block>, k: nat, n: int)
    requires Coalesced(bs) && k < |bs| && bs[k].free
    ensures TrailingFree(Grab(bs, k, n)) ==
            if k < |bs| - 1 then TrailingFree(bs) else if Splits(bs[k], n) then bs[k].size - n else 0
  {
    GrabCoalesces(bs, k, n);
    TrailingIsLast(bs);
    TrailingIsLast(Grab(bs, k, n));
    GrabLastFree(bs, k, n);
  }

  /** The list on which Grab runs: the blocks after any growth of the break. */
  function Stage(h: Heap, n: int, page: int): seq<Block>
    requires page > 0
  {
    if FirstFit(h.blocks, n) < |h.blocks| then h.blocks
    else if Extends(h.blocks, n) then Enlarged(h.blocks, n, page)
    else h.blocks + [Block(h.brk, PageRound(n, page), true)]
  }

  function StageIndex(h: Heap, n: int): nat {
    if Extends(h.blocks, n) then |h.blocks| - 1 else FirstFit(h.blocks, n)
  }

  function StageBrk(h: Heap, n: int, page: int): int
    requires page > 0
  {
    if FirstFit(h.blocks, n) < |h.blocks| then h.brk
    else if Extends(h.blocks, n) then h.brk + PageRound(n - h.blocks[|h.blocks| - 1].size, page)
    else h.brk + PageRound(n, page)
  }

  lemma EnlargedFits(h: Heap, base: int, n: int, page: int)
    requires page > 0 && Tiled(h.blocks, base, h.brk) && Coalesced(h.blocks) && Extends(h.blocks, n)
    ensures var bs, k := Enlarged(h.blocks, n, page), |h.blocks| - 1;
            && Tiled(bs, base, StageBrk(h, n, page)) && Coalesced(bs)
            && bs[k].free && n <= bs[k].size <= n + page
            && Live(bs) == Live(h.blocks)
  {
    var bs, k := Enlarged(h.blocks, n, page), |h.blocks| - 1;
    assert h.blocks[k].size < n;
    PageRoundCovers(n - h.blocks[k].size, page);
    LiveAround(bs, k);
    LiveAround(h.blocks, k);
    assert bs[..k] == h.blocks[..k] && bs[k + 1..] == h.blocks[k + 1..];
    assert Live([bs[k]]) == {} == Live([h.blocks[k]]);
  }

  lemma AppendedFits(h: Heap, base: int, n: int, page: int)
    requires page > 0 && n > HEADER_SIZE && Tiled(h.blocks, base, h.brk) && Coalesced(h.blocks)
    requires h.blocks != [] ==> !h.blocks[|h.blocks| - 1].free
    ensures var bs := h.blocks + [Block(h.brk, PageRound(n, page), true)];
            && Tiled(bs, base, h.brk + PageRound(n, page)) && Coalesced(bs)
            && n <= bs[|h.blocks|].size <= n + page
            && Live(bs) == Live(h.blocks)
  {
    PageRoundCovers(n, page);
    var b := Block(h.brk, PageRound(n, page), true);
    LiveOfConcat(h.blocks, [b]);
    assert Live([b]) == {};
  }

  lemma StageFits(h: Heap, base: int, n: int, page: int)
    requires page > 0 && n > HEADER_SIZE && Tiled(h.blocks, base, h.brk) && Coalesced(h.blocks)
    ensures var bs, k := Stage(h, n, page), StageIndex(h, n);
            && Tiled(bs, base, StageBrk(h, n, page)) && Coalesced(bs)
            && k < |bs| && bs[k].free && n <= bs[k].size
            && Live(bs) == Live(h.blocks)
            && (bs == h.blocks || (k == |bs| - 1 && bs[k].size - n <= page))
  {
    if Extends(h.blocks, n) {
      EnlargedFits(h, base, n, page);
    } else if FirstFit(h.blocks, n) == |h.blocks| {
      AppendedFits(h, base, n, page);
    }
  }

  lemma EnlargedSpaced(h: Heap, base: int, n: int, page: int)
    requires page > 0 && Spaced(h.blocks, base, h.brk) && Extends(h.blocks, n)
    ensures var bs, k := Enlarged(h.blocks, n, page), |h.blocks| - 1;
            && Spaced(bs, base, StageBrk(h, n, page)) && n <= bs[k].size
            && bs[k].End() == h.blocks[k].End() + PageRound(n - h.blocks[k].size, page)
  {
    var k := |h.blocks| - 1;
    assert h.blocks[k].size < n;
    PageRoundCovers(n - h.blocks[k].size, page);
  }

  /** Growing the heap keeps the blocks apart, whether or not there are gaps. */
  lemma StageSpaced(h: Heap, base: int, n: int, page: int)
    requires page > 0 && n > HEADER_SIZE && Spaced(h.blocks, base, h.brk)
    ensures var bs, k := Stage(h, n, page), StageIndex(h, n);
            Spaced(bs, base, StageBrk(h, n, page)) && k < |bs| && n <= bs[k].size
  {
    if Extends(h.blocks, n) {
      EnlargedSpaced(h, base, n, page);
    } else if FirstFit(h.blocks, n) == |h.blocks| {
      PageRoundCovers(n, page);
    }
  }

  /** Growing the heap moves no block; the block to hand out is the first fit or the last block. */
  lemma StageShape(h: Heap, n: int, page: int)
    requires page > 0
    ensures var bs, k, f := Stage(h, n, page), StageIndex(h, n), FirstFit(h.blocks, n);
            && |h.blocks| <= |bs|
            && (forall i :: 0 <= i < |h.blocks| ==> h.blocks[i].addr == bs[i].addr)
            && ((bs == h.blocks && k == f) || (k + 1 == |bs| && f == |h.blocks|))
  {
  }

  lemma MallocIsGrab(h: Heap, n: int, page: int, ok: bool)
    requires page > 0 && (ok || FirstFit(h.blocks, n) < |h.blocks| || Extends(h.blocks, n))
    requires StageIndex(h, n) < |Stage(h, n, page)|
    ensures Malloc(h, n, page, ok) ==
            Placed(Heap(Grab(Stage(h, n, page), StageIndex(h, n), n),
                        if !ok && Extends(h.blocks, n) then h.brk else StageBrk(h, n, page)),
                   Stage(h, n, page)[StageIndex(h, n)].addr)
  {
  }

  /** A block is handed out: one fits, the last can be enlarged, or sbrk gives a new one. */
  predicate FindsRoom(h: Heap, n: int, ok: bool) {
    ok || FirstFit(h.blocks, n) < |h.blocks| || Extends(h.blocks, n)
  }

  lemma MallocIsCoalesced(h: Heap, base: int, page: int, n: int, ok: bool)
    requires page > 0 && n > HEADER_SIZE && Tiled(h.blocks, base, h.brk) && Coalesced(h.blocks) && FindsRoom(h, n, ok)
    ensures Coalesced(Malloc(h, n, page, ok).heap.blocks)
    ensures TrailingFree(h.blocks) < DeallocSize(page) ==>
              TrailingFree(Malloc(h, n, page, ok).heap.blocks) < DeallocSize(page)
  {
    StageFits(h, base, n, page);
    MallocIsGrab(h, n, page, ok);
    GrabCoalesces(Stage(h, n, page), StageIndex(h, n), n);
    GrabTrailing(Stage(h, n, page), StageIndex(h, n), n);
    TrailingIsLast(h.blocks);
  }

  lemma MallocIsTiled(h: Heap, base: int, page: int, n: int, ok: bool)
    requires page > 0 && n > HEADER_SIZE && Tiled(h.blocks, base, h.brk) && Coalesced(h.blocks) && FindsRoom(h, n, ok)
    ensures var m := Malloc(h, n, page, ok).heap;
            Tiled(m.blocks, base, m.brk) <==> ok || !Extends(h.blocks, n)
  {
    StageFits(h, base, n, page);
    MallocIsGrab(h, n, page, ok);
    GrabTiles(Stage(h, n, page), base, StageBrk(h, n, page), StageIndex(h, n), n);
    if Extends(h.blocks, n) {
      PageRoundCovers(n - h.blocks[|h.blocks| - 1].size, page);
    }
  }

  lemma GrabServes(h: Heap, bs: seq<Block>, base: int, top: int, brk: int, k: nat, request: int)
    requires Tiled(bs, base, top) && Live(bs) == Live(h.blocks) && k < |bs| && bs[k].free
    requires request > 0 && request + HEADER_SIZE <= bs[k].size
    ensures var r := Grab(bs, k, request + HEADER_SIZE);
            Serves(h, Heap(r, brk), request, r[k]) && r[k].addr == bs[k].addr
  {
    GrabLive(bs, k, request + HEADER_SIZE);
    GrabApart(bs, base, top, k, request + HEADER_SIZE);
  }

  lemma MallocHandsOut(h: Heap, base: int, page: int, request: int, ok: bool)
    requires page > 0 && base > 0 && request > 0 && FindsRoom(h, request + HEADER_SIZE, ok)
    requires Tiled(h.blocks, base, h.brk) && Coalesced(h.blocks)
    ensures var m := Malloc(h, request + HEADER_SIZE, page, ok);
            m.block != 0 && exists b: Block :: Serves(h, m.heap, request, b) && b.addr == m.block
  {
    var n := request + HEADER_SIZE;
    var bs, k, top := Stage(h, n, page), StageIndex(h, n), StageBrk(h, n, page);
    StageFits(h, base, n, page);
    MallocIsGrab(h, n, page, ok);
    assert bs[k].addr != 0 by { BlocksApart(bs, base, top, k, k); }
    GrabServes(h, bs, base, top, Malloc(h, n, page, ok).heap.brk, k, request);
  }

  /**
   One my_malloc of `request` bytes. The heap stays tiled exactly when the code does not enlarge the
   last block after sbrk has failed, a failure it does not test for.
   */
  lemma MallocKeepsHeap(h: Heap, base: int, page: int, request: int, ok: bool)
    requires page > 0 && base > 0 && request > 0
    requires Tiled(h.blocks, base, h.brk) && Coalesced(h.blocks)
    ensures var n := request + HEADER_SIZE;
            var m := Malloc(h, n, page, ok);
            && Coalesced(m.heap.blocks)
            && (Tiled(m.heap.blocks, base, m.heap.brk) <==> ok || !Extends(h.blocks, n))
            && (TrailingFree(h.blocks) < 4 * page ==> TrailingFree(m.heap.blocks) < 4 * page)
            && (m.block == 0 <==> !ok && FirstFit(h.blocks, n) == |h.blocks| && !Extends(h.blocks, n))
            && (m.block == 0 ==> m.heap == h)
            && (m.block != 0 ==> exists b: Block :: Serves(h, m.heap, request, b) && b.addr == m.block)
  {
    var n := request + HEADER_SIZE;
    if FindsRoom(h, n, ok) {
      MallocIsCoalesced(h, base, page, n, ok);
      MallocIsTiled(h, base, page, n, ok);
      MallocHandsOut(h, base, page, request, ok);
    }
  }

  /** Enlarging the last block takes it beyond the break unless the break moves. */
  predicate Overruns(h: Heap, n: int, page: int)
    requires page > 0
  {
    Extends(h.blocks, n) && var last := h.blocks[|h.blocks| - 1];
    last.End() + PageRound(n - last.size, page) > h.brk
  }

  lemma SpacedTop(bs: seq<Block>, base: int, top: int, brk: int)
    requires Spaced(bs, base, top) && bs != []
    ensures Spaced(bs, base, brk) <==> bs[|bs| - 1].End() <= brk
  {
  }

  lemma FailedEnlargement(h: Heap, base: int, n: int, page: int)
    requires page > 0 && n > HEADER_SIZE && Spaced(h.blocks, base, h.brk) && Extends(h.blocks, n)
    ensures Spaced(Grab(Enlarged(h.blocks, n, page), |h.blocks| - 1, n), base, h.brk) <==> !Overruns(h, n, page)
  {
    var bs, k := Enlarged(h.blocks, n, page), |h.blocks| - 1;
    EnlargedSpaced(h, base, n, page);
    GrabSpaced(bs, base, StageBrk(h, n, page), k, n);
    SpacedTop(Grab(bs, k, n), base, StageBrk(h, n, page), h.brk);
  }

  /** On a heap with gaps: the blocks stay apart unless one is enlarged beyond the break. */
  lemma MallocSpaced(h: Heap, base: int, n: int, page: int, ok: bool)
    requires page > 0 && n > HEADER_SIZE && Spaced(h.blocks, base, h.brk)
    ensures var r := Malloc(h, n, page, ok).heap;
            Spaced(r.blocks, base, r.brk) <==> ok || !Overruns(h, n, page)
  {
    if Extends(h.blocks, n) && !ok {
      FailedEnlargement(h, base, n, page);
    } else if FindsRoom(h, n, ok) {
      GrownSpaced(h, base, n, page, ok);
    }
  }

  lemma GrownSpaced(h: Heap, base: int, n: int, page: int, ok: bool)
    requires page > 0 && n > HEADER_SIZE && Spaced(h.blocks, base, h.brk)
    requires FindsRoom(h, n, ok) && (ok || !Extends(h.blocks, n))
    ensures var r := Malloc(h, n, page, ok).heap; Spaced(r.blocks, base, r.brk)
  {
    var bs, k, top := Stage(h, n, page), StageIndex(h, n), StageBrk(h, n, page);
    assert Spaced(bs, base, top) && k < |bs| && n <= bs[k].size by { StageSpaced(h, base, n, page); }
    assert Malloc(h, n, page, ok).heap == Heap(Grab(bs, k, n), top) by { MallocIsGrab(h, n, page, ok); }
    GrabSpaced(bs, base, top, k, n);
  }

  /** The bytes for which the break must move: none where a block fits. */
  function Missing(h: Heap, n: int): int {
    if FirstFit(h.blocks, n) < |h.blocks| then 0
    else if h.blocks != [] && h.blocks[|h.blocks| - 1].free then n - h.blocks[|h.blocks| - 1].size
    else n
  }

  /** The break stays where a block fits or sbrk fails; else it moves by the fewest whole pages that are enough. */
  predicate MovesBreak(missing: int, ok: bool, page: int, grown: int)
    requires page > 0
  {
    if missing == 0 || !ok then grown == 0 else grown % page == 0 && missing < grown <= missing + page
  }

  lemma MallocMovesBreak(h: Heap, n: int, page: int, ok: bool)
    requires page > 0 && n > 0
    ensures MovesBreak(Missing(h, n), ok, page, Malloc(h, n, page, ok).heap.brk - h.brk)
  {
    if FirstFit(h.blocks, n) == |h.blocks| {
      PageRoundIsLeast(Missing(h, n), page);
    }
  }

  lemma MallocGood(h: Heap, base: int, page: int, request: int, ok: bool)
    requires page > 0 && base > 0 && request > 0 && Good(h, base, page)
    ensures var n := request + HEADER_SIZE;
            Good(Malloc(h, n, page, ok).heap, base, page) <==> ok || !Extends(h.blocks, n)
  {
    MallocKeepsHeap(h, base, page, request, ok);
  }

  lemma MallocServes(h: Heap, base: int, page: int, request: int, ok: bool)
    requires page > 0 && base > 0 && request > 0 && Good(h, base, page)
    ensures var r := Malloc(h, request + HEADER_SIZE, page, ok).heap;
            (r == h && !ok) || exists b: Block :: Serves(h, r, request, b)
  {
    MallocKeepsHeap(h, base, page, request, ok);
  }

  // ----- my_free -----

  lemma MergeTiles(bs: seq<Block>, base: int, brk: int, i: nat)
    requires Tiled(bs, base, brk) && i + 1 < |bs|
    ensures Tiled(MergeAt(bs, i), base, brk)
  {
    var r := MergeAt(bs, i);
    forall j | i < j < |r| ensures r[j] == bs[j + 1] {}
  }

  lemma MergeLive(bs: seq<Block>, i: nat)
    requires i + 1 < |bs| && bs[i].free && bs[i + 1].free
    ensures Live(MergeAt(bs, i)) == Live(bs)
  {
    var r := MergeAt(bs, i);
    LiveAround(bs, i);
    LiveAround(bs[i + 1..], 0);
    LiveAround(r, i);
    assert bs[i + 1..][1..] == bs[i + 2..] == r[i + 1..];
    assert bs[..i] == r[..i];
    assert Live([bs[i]]) == {} == Live([bs[i + 1]]);
    assert Live([r[i]]) == {};
  }

  lemma FreeAtTiles(bs: seq<Block>, base: int, brk: int, k: nat)
    requires Tiled(bs, base, brk) && k < |bs|
    ensures Tiled(FreeAt(bs, k), base, brk)
  {
    var f := Freed(bs, k);
    assert Tiled(f, base, brk);
    if k > 0 && f[k - 1].free { MergeTiles(f, base, brk, k - 1); }
    var g := MergeBack(f, k);
    if Home(bs, k) + 1 < |g| && g[Home(bs, k) + 1].free { MergeTiles(g, base, brk, Home(bs, k)); }
  }

  /** The first block after those that are joined when block k is freed. */
  function After(bs: seq<Block>, k: nat): nat
    requires k < |bs|
  {
    if k + 1 < |bs| && bs[k + 1].free then k + 2 else k + 1
  }

  /** Freeing replaces the blocks from Home to After by one free block and leaves the others. */
  lemma FreeAtShape(bs: seq<Block>, k: nat)
    requires k < |bs|
    ensures var lo, hi, r := Home(bs, k), After(bs, k), FreeAt(bs, k);
            && lo < |r| && r[lo].free && r[lo].addr == bs[lo].addr
            && r == bs[..lo] + [r[lo]] + bs[hi..]
  {
    var g, lo := MergeBack(Freed(bs, k), k), Home(bs, k);
    MergeBackShape(bs, k);
    SpliceParts(bs, g, lo, k);
    MergeForwardShape(g, lo);
  }

  lemma SpliceParts(bs: seq<Block>, g: seq<Block>, lo: nat, k: nat)
    requires lo <= k < |bs| && lo < |g| && g == bs[..lo] + [g[lo]] + bs[k + 1..]
    ensures |g| == lo + |bs| - k && g[..lo] == bs[..lo] && g[lo + 1..] == bs[k + 1..]
    ensures k + 1 < |bs| ==> g[lo + 1] == bs[k + 1] && g[lo + 2..] == bs[k + 2..]
  {
    if k + 1 < |bs| {
      assert g[lo + 1] == g[lo + 1..][0] && g[lo + 2..] == g[lo + 1..][1..];
    }
  }

  lemma MergeBackShape(bs: seq<Block>, k: nat)
    requires k < |bs|
    ensures var lo, g := Home(bs, k), MergeBack(Freed(bs, k), k);
            lo < |g| && g[lo].free && g[lo].addr == bs[lo].addr && g == bs[..lo] + [g[lo]] + bs[k + 1..]
  {
    var f := Freed(bs, k);
    assert f == bs[..k] + [f[k]] + bs[k + 1..];
  }

  lemma MergeForwardShape(g: seq<Block>, k: nat)
    requires k < |g|
    ensures var r := MergeForward(g, k);
            && k < |r| && r[k].free == g[k].free && r[k].addr == g[k].addr
            && r == g[..k] + [r[k]] + g[if k + 1 < |g| && g[k + 1].free then k + 2 else k + 1..]
  {
  }

  lemma FreeAtCoalesces(bs: seq<Block>, k: nat)
    requires Coalesced(bs) && k < |bs| && !bs[k].free
    ensures Coalesced(FreeAt(bs, k))
  {
    FreeAtShape(bs, k);
    var lo, hi := Home(bs, k), After(bs, k);
    assert lo > 0 ==> !bs[lo - 1].free;
    assert hi < |bs| ==> !bs[hi].free;
    SpliceCoalesces(bs, FreeAt(bs, k), lo, hi);
  }

  lemma SpliceCoalesces(bs: seq<Block>, r: seq<Block>, lo: nat, hi: nat)
    requires Coalesced(bs) && lo < hi <= |bs| && lo < |r| && r == bs[..lo] + [r[lo]] + bs[hi..]
    requires (lo > 0 ==> !bs[lo - 1].free) && (hi < |bs| ==> !bs[hi].free)
    ensures Coalesced(r)
  {
    forall i | 0 < i < |r| ensures !(r[i - 1].free && r[i].free) {
      if i < lo {
        assert r[i - 1] == bs[i - 1] && r[i] == bs[i];
      } else if i > lo + 1 {
        var x := i + hi - lo - 1;
        assert r[i - 1] == bs[x - 1] && r[i] == bs[x];
      }
    }
  }

  lemma FreeAtLive(bs: seq<Block>, base: int, brk: int, k: nat)
    requires Tiled(bs, base, brk) && k < |bs| && !bs[k].free
    ensures bs[k] in Live(bs)
    ensures Live(FreeAt(bs, k)) == Live(bs) - {bs[k]}
  {
    FreedLive(bs, base, brk, k);
    var f := Freed(bs, k);
    if k > 0 && f[k - 1].free { MergeLive(f, k - 1); }
    var g := MergeBack(f, k);
    if Home(bs, k) + 1 < |g| && g[Home(bs, k) + 1].free { MergeLive(g, Home(bs, k)); }
  }

  lemma FreedLive(bs: seq<Block>, base: int, brk: int, k: nat)
    requires Tiled(bs, base, brk) && k < |bs| && !bs[k].free
    ensures bs[k] in Live(bs)
    ensures Live(Freed(bs, k)) == Live(bs) - {bs[k]}
  {
    var f := Freed(bs, k);
    LiveAround(bs, k);
    LiveAround(f, k);
    assert f[..k] == bs[..k] && f[k + 1..] == bs[k + 1..];
    assert Live([bs[k]]) == {bs[k]} && Live([f[k]]) == {};
    forall i | 0 <= i < |bs| && i != k ensures bs[i] != bs[k] { BlocksApart(bs, base, brk, i, k); }
    assert bs[k] !in bs[..k] && bs[k] !in bs[k + 1..];
  }

  lemma LiveWithoutLast(r: seq<Block>)
    requires r != [] && r[|r| - 1].free
    ensures Live(r[..|r| - 1]) == Live(r)
  {
    assert r == r[..|r| - 1] + [r[|r| - 1]];
    LiveOfConcat(r[..|r| - 1], [r[|r| - 1]]);
    assert Live([r[|r| - 1]]) == {};
  }

  lemma InitOfHeap(r: seq<Block>, base: int, brk: int)
    requires Tiled(r, base, brk) && Coalesced(r) && r != [] && r[|r| - 1].free
    ensures var init := r[..|r| - 1];
            Tiled(init, base, r[|r| - 1].addr) && Coalesced(init) && LastFree(init) == 0
  {
    var init := r[..|r| - 1];
    assert forall i :: 0 <= i < |init| ==> init[i] == r[i];
  }

  /** Trimming gives back the last block exactly when it is free and large. */
  lemma TrimKeepsHeap(r: seq<Block>, base: int, brk: int, page: int)
    requires page > 0 && Tiled(r, base, brk) && Coalesced(r) && r != []
    ensures Good(Trim(r, brk, page), base, page) && Live(Trim(r, brk, page).blocks) == Live(r)
    ensures TrailingFree(Trim(r, brk, page).blocks) < 4 * page
    ensures Trim(r, brk, page) ==
            if LastFree(r) >= 4 * page then Heap(r[..|r| - 1], r[|r| - 1].addr) else Heap(r, brk)
  {
    TrailingIsLast(r);
    if LastFree(r) >= DeallocSize(page) {
      LiveWithoutLast(r);
      InitOfHeap(r, base, brk);
      TrailingIsLast(r[..|r| - 1]);
    }
  }

  /** One my_free of a live block: only that block stops being live, and large trailing space goes back. */
  lemma FreeKeepsHeap(h: Heap, base: int, page: int, k: nat)
    requires page > 0 && Tiled(h.blocks, base, h.brk) && Coalesced(h.blocks)
    requires k < |h.blocks| && !h.blocks[k].free
    ensures Good(Free(h, k, page), base, page)
    ensures Live(Free(h, k, page).blocks) == Live(h.blocks) - {h.blocks[k]}
    ensures TrailingFree(Free(h, k, page).blocks) < 4 * page
    ensures var r := FreeAt(h.blocks, k);
            Free(h, k, page) ==
            if LastFree(r) >= 4 * page then Heap(r[..|r| - 1], r[|r| - 1].addr) else Heap(r, h.brk)
  {
    FreeAtTiles(h.blocks, base, h.brk, k);
    FreeAtCoalesces(h.blocks, k);
    FreeAtLive(h.blocks, base, h.brk, k);
    TrimKeepsHeap(FreeAt(h.blocks, k), base, h.brk, page);
  }

  lemma FreeGood(h: Heap, base: int, page: int, k: nat)
    requires page > 0 && Good(h, base, page) && k < |h.blocks| && !h.blocks[k].free
    ensures Good(Free(h, k, page), base, page)
  {
    FreeKeepsHeap(h, base, page, k);
  }

  // ----- Which calls lose a back link in the code as written -----

  /** my_malloc splits a block that has a successor: the successor's `prev` is not updated. */
  predicate SplitsInside(bs: seq<Block>, n: int) {
    var k := FirstFit(bs, n);
    k + 1 < |bs| && Splits(bs[k], n)
  }

  /** my_free joins block k with the next one and a third block follows: its `prev` is not updated. */
  predicate JoinsInside(bs: seq<Block>, k: nat) {
    k + 2 < |bs| && bs[k + 1].free
  }

  // ----- Every run -----

  datatype Op = Request(bytes: nat, ok: bool) | Release(block: Block)

  function IndexOf(bs: seq<Block>, b: Block): (k: nat)
    requires b in bs
    ensures k < |bs| && bs[k] == b
  {
    if bs[0] == b then 0 else 1 + IndexOf(bs[1..], b)
  }

  /** What the caller owes: free only live blocks. sbrk must not fail where its failure is not tested. */
  ghost predicate Allowed(h: Heap, op: Op) {
    match op
    case Request(bytes, ok) => ok || !Extends(h.blocks, bytes + HEADER_SIZE)
    case Release(b) => b in Live(h.blocks)
  }

  ghost function Exec(h: Heap, op: Op, page: int): Heap
    requires page > 0 && Allowed(h, op)
  {
    match op
    case Request(bytes, ok) => if bytes == 0 then h else Malloc(h, bytes + HEADER_SIZE, page, ok).heap
    case Release(b) => Free(h, IndexOf(h.blocks, b), page)
  }

  /** A run: states before and after each operation, starting from the untouched break. */
  ghost predicate IsRun(hs: seq<Heap>, ops: seq<Op>, base: int, page: int)
    requires page > 0
  {
    && |hs| == |ops| + 1 && hs[0] == Heap([], base)
    && forall i :: 0 <= i < |ops| ==> Allowed(hs[i], ops[i]) && hs[i + 1] == Exec(hs[i], ops[i], page)
  }

  /**
   What one operation does to the live blocks: it adds one disjoint block (or nothing if sbrk fails), or
   removes one.
   */
  ghost predicate LiveStep(h: Heap, op: Op, h': Heap) {
    match op
    case Request(bytes, _) =>
      || (h' == h && (bytes == 0 || !op.ok))
      || (exists b: Block :: Serves(h, h', bytes, b))
    case Release(b) => b in Live(h.blocks) && Live(h'.blocks) == Live(h.blocks) - {b}
  }

  lemma RequestKeepsHeap(h: Heap, bytes: nat, ok: bool, base: int, page: int)
    requires page > 0 && base > 0 && Good(h, base, page) && Allowed(h, Request(bytes, ok))
    ensures var h' := Exec(h, Request(bytes, ok), page);
            Good(h', base, page) && LiveStep(h, Request(bytes, ok), h')
  {
    if bytes > 0 {
      MallocGood(h, base, page, bytes, ok);
      MallocServes(h, base, page, bytes, ok);
    }
  }

  lemma ExecKeepsHeap(h: Heap, op: Op, base: int, page: int)
    requires page > 0 && base > 0 && Good(h, base, page) && Allowed(h, op)
    ensures Good(Exec(h, op, page), base, page) && LiveStep(h, op, Exec(h, op, page))
  {
    match op
    case Request(bytes, ok) => RequestKeepsHeap(h, bytes, ok, base, page);
    case Release(b) => FreeKeepsHeap(h, base, page, IndexOf(h.blocks, b));
  }

  lemma LiveApart(h: Heap, base: int)
    requires Tiled(h.blocks, base, h.brk)
    ensures forall b, c :: b in Live(h.blocks) && c in Live(h.blocks) && b != c ==> Disjoint(b, c)
  {
    forall b, c | b in Live(h.blocks) && c in Live(h.blocks) && b != c ensures Disjoint(b, c) {
      BlocksApart(h.blocks, base, h.brk, IndexOf(h.blocks, b), IndexOf(h.blocks, c));
    }
  }

  lemma {:induction false} RunIsGood(hs: seq<Heap>, ops: seq<Op>, base: int, page: int, i: nat)
    requires page > 0 && base > 0 && IsRun(hs, ops, base, page) && i < |hs|
    ensures Good(hs[i], base, page)
  {
    if i == 0 {
    } else {
      RunIsGood(hs, ops, base, page, i - 1);
      ExecKeepsHeap(hs[i - 1], ops[i - 1], base, page);
    }
  }

  /** In every run every state is tiled, coalesced and trimmed, and live blocks never move or overlap. */
  lemma EveryRunKeepsHeap(hs: seq<Heap>, ops: seq<Op>, base: int, page: int, i: nat)
    requires page > 0 && base > 0 && IsRun(hs, ops, base, page) && i < |hs|
    ensures Good(hs[i], base, page) && TrailingFree(hs[i].blocks) < 4 * page
    ensures i < |ops| ==> LiveStep(hs[i], ops[i], hs[i + 1])
    ensures forall b, c :: b in Live(hs[i].blocks) && c in Live(hs[i].blocks) && b != c ==> Disjoint(b, c)
  {
    RunIsGood(hs, ops, base, page, i);
    LiveApart(hs[i], base);
    if i < |ops| {
      ExecKeepsHeap(hs[i], ops[i], base, page);
    }
  }

  // ----- Last in, first out -----

  /** The live blocks are the first |stack| blocks, at these addresses; at most one free block follows. */
  predicate Holding(bs: seq<Block>, stack: seq<int>) {
    && |stack| <= |bs| <= |stack| + 1
    && (forall i :: 0 <= i < |stack| ==> !bs[i].free && bs[i].addr == stack[i])
    && (|bs| == |stack| + 1 ==> bs[|stack|].free)
  }

  /** The addresses of the blocks that are live after one more operation, oldest first. */
  ghost function StackStep(stack: seq<int>, h: Heap, op: Op, page: int): seq<int>
    requires page > 0
  {
    match op
    case Request(bytes, ok) =>
      if bytes == 0 || Malloc(h, bytes + HEADER_SIZE, page, ok).block == 0 then stack
      else stack + [Malloc(h, bytes + HEADER_SIZE, page, ok).block]
    case Release(_) => if stack == [] then [] else stack[..|stack| - 1]
  }

  ghost function StackAt(hs: seq<Heap>, ops: seq<Op>, page: int, i: nat): seq<int>
    requires page > 0 && i <= |ops| < |hs|
  {
    if i == 0 then [] else StackStep(StackAt(hs, ops, page, i - 1), hs[i - 1], ops[i - 1], page)
  }

  /** Every release gives back the block that was handed out last among those still live. */
  ghost predicate Lifo(hs: seq<Heap>, ops: seq<Op>, page: int)
    requires page > 0 && |ops| < |hs|
  {
    forall i :: 0 <= i < |ops| && ops[i].Release? ==>
      var stack := StackAt(hs, ops, page, i);
      stack != [] && ops[i].block.addr == stack[|stack| - 1]
  }

  /** The code as written loses no back link in this operation. */
  ghost predicate KeepsLinks(h: Heap, op: Op) {
    match op
    case Request(bytes, _) => bytes == 0 || !SplitsInside(h.blocks, bytes + HEADER_SIZE)
    case Release(b) => b in h.blocks && !JoinsInside(h.blocks, IndexOf(h.blocks, b))
  }

  lemma StageStacked(h: Heap, page: int, stack: seq<int>, n: int)
    requires page > 0 && Holding(h.blocks, stack)
    ensures StageIndex(h, n) == |stack| && !SplitsInside(h.blocks, n)
    ensures |Stage(h, n, page)| == |stack| + 1 && Holding(Stage(h, n, page), stack)
  {
  }

  lemma GrabStacked(bs: seq<Block>, stack: seq<int>, n: int)
    requires Holding(bs, stack) && |bs| == |stack| + 1
    ensures Holding(Grab(bs, |stack|, n), stack + [bs[|stack|].addr])
  {
  }

  lemma MallocStacked(h: Heap, page: int, stack: seq<int>, n: int, ok: bool)
    requires page > 0 && Holding(h.blocks, stack)
    ensures var m := Malloc(h, n, page, ok);
            m == Placed(h, 0) || Holding(m.heap.blocks, stack + [m.block])
  {
    StageStacked(h, page, stack, n);
    if FindsRoom(h, n, ok) {
      MallocIsGrab(h, n, page, ok);
      GrabStacked(Stage(h, n, page), stack, n);
    }
  }

  lemma MallocNull(h: Heap, base: int, page: int, bytes: nat, ok: bool)
    requires page > 0 && base > 0 && Good(h, base, page) && bytes > 0
    ensures var m := Malloc(h, bytes + HEADER_SIZE, page, ok);
            m.block == 0 ==> m.heap == h
  {
    MallocKeepsHeap(h, base, page, bytes, ok);
  }

  lemma MallocStackStep(h: Heap, base: int, page: int, stack: seq<int>, bytes: nat, ok: bool)
    requires page > 0 && base > 0 && Good(h, base, page) && Holding(h.blocks, stack) && bytes > 0
    ensures var m := Malloc(h, bytes + HEADER_SIZE, page, ok);
            Holding(m.heap.blocks, if m.block == 0 then stack else stack + [m.block])
  {
    MallocStacked(h, page, stack, bytes + HEADER_SIZE, ok);
    MallocNull(h, base, page, bytes, ok);
  }

  lemma RequestStacked(h: Heap, base: int, page: int, stack: seq<int>, bytes: nat, ok: bool)
    requires page > 0 && base > 0 && Good(h, base, page) && Holding(h.blocks, stack)
    requires Allowed(h, Request(bytes, ok))
    ensures KeepsLinks(h, Request(bytes, ok))
    ensures Holding(Exec(h, Request(bytes, ok), page).blocks, StackStep(stack, h, Request(bytes, ok), page))
  {
    assert !SplitsInside(h.blocks, bytes + HEADER_SIZE) by {
      StageStacked(h, page, stack, bytes + HEADER_SIZE);
    }
    if bytes > 0 {
      MallocStackStep(h, base, page, stack, bytes, ok);
    }
  }

  lemma FreeTopStacked(bs: seq<Block>, stack: seq<int>)
    requires Holding(bs, stack) && stack != []
    ensures var r := FreeAt(bs, |stack| - 1);
            Holding(r, stack[..|stack| - 1]) && |r| == |stack| && !JoinsInside(bs, |stack| - 1)
  {
    var k := |stack| - 1;
    FreeAtShape(bs, k);
    assert Home(bs, k) == k && After(bs, k) == |bs|;
    assert bs[|bs|..] == [];
  }

  lemma TrimStacked(r: seq<Block>, stack: seq<int>, brk: int, page: int)
    requires page > 0 && Holding(r, stack) && |r| == |stack| + 1
    ensures Holding(Trim(r, brk, page).blocks, stack)
  {
  }

  lemma ReleaseStacked(h: Heap, base: int, page: int, stack: seq<int>, b: Block)
    requires page > 0 && base > 0 && Good(h, base, page) && Holding(h.blocks, stack)
    requires b in Live(h.blocks) && stack != [] && b.addr == stack[|stack| - 1]
    ensures KeepsLinks(h, Release(b))
    ensures Holding(Exec(h, Release(b), page).blocks, stack[..|stack| - 1])
  {
    var k := IndexOf(h.blocks, b);
    BlocksApart(h.blocks, base, h.brk, k, |stack| - 1);
    FreeTopStacked(h.blocks, stack);
    TrimStacked(FreeAt(h.blocks, k), stack[..|stack| - 1], h.brk, page);
  }

  /** In a last-in-first-out run the live blocks stay in front, and no operation loses a back link. */
  lemma {:induction false} StackRunKeepsLinks(hs: seq<Heap>, ops: seq<Op>, base: int, page: int, i: nat)
    requires page > 0 && base > 0 && IsRun(hs, ops, base, page) && Lifo(hs, ops, page) && i <= |ops|
    ensures Holding(hs[i].blocks, StackAt(hs, ops, page, i))
    ensures i < |ops| ==> KeepsLinks(hs[i], ops[i])
  {
    if i == 0 {
    } else {
      StackRunKeepsLinks(hs, ops, base, page, i - 1);
      StackRunStep(hs, ops, base, page, i - 1);
    }
    if i < |ops| {
      StackRunStep(hs, ops, base, page, i);
    }
  }

  lemma StackRunStep(hs: seq<Heap>, ops: seq<Op>, base: int, page: int, i: nat)
    requires page > 0 && base > 0 && IsRun(hs, ops, base, page) && Lifo(hs, ops, page) && i < |ops|
    requires Holding(hs[i].blocks, StackAt(hs, ops, page, i))
    ensures KeepsLinks(hs[i], ops[i]) && Holding(hs[i + 1].blocks, StackAt(hs, ops, page, i + 1))
  {
    var stack := StackAt(hs, ops, page, i);
    EveryRunKeepsHeap(hs, ops, base, page, i);
    match ops[i]
    case Request(bytes, ok) => RequestStacked(hs[i], base, page, stack, bytes, ok);
    case Release(b) => ReleaseStacked(hs[i], base, page, stack, b);
  }
}
