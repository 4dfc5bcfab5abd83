/**
 The headers of ch07/malloc_and_free.c in memory, against the sequence of blocks they represent.
 Memory is a map from addresses to headers and address 0 is NULL. `relink == false` is the code as
 written. `relink == true` is a deviation: it adds the two stores that the code omits, the `prev` of
 the block after a split and of the block after a forward merge.
 */
module HeapMemory {
  import opened HeapBlocks

  datatype Header = Header(size: int, free: bool, prev: int, next: int)

  type Memory = map<int, Header>

  /** Reads are total; the proofs only use addresses that hold a header. */
  function At(mem: Memory, a: int): Header {
    if a in mem then mem[a] else Header(0, false, 0, 0)
  }

  // ----- Representation: headers in memory against the sequence of blocks -----

  /** The address of block i, or NULL past either end of the list. */
  function AddrAt(bs: seq<Block>, i: int): int {
    if 0 <= i < |bs| then bs[i].addr else 0
  }

  ghost predicate Holds(mem: Memory, bs: seq<Block>, i: int)
    requires 0 <= i < |bs|
  {
    var h := At(mem, bs[i].addr);
    bs[i].addr in mem && h.size == bs[i].size && h.free == bs[i].free && h.next == AddrAt(bs, i + 1)
  }

  /** The forward list from `first` is exactly bs. */
  ghost predicate Linked(first: int, mem: Memory, bs: seq<Block>) {
    && first == AddrAt(bs, 0)
    && forall i :: 0 <= i < |bs| ==> Holds(mem, bs, i)
  }

  function PrevOf(mem: Memory, bs: seq<Block>, i: int): int
    requires 0 <= i < |bs|
  {
    At(mem, bs[i].addr).prev
  }

  ghost predicate BackLinked(mem: Memory, bs: seq<Block>) {
    forall i :: 0 <= i < |bs| ==> PrevOf(mem, bs, i) == AddrAt(bs, i - 1)
  }

  ghost predicate Distinct(bs: seq<Block>) {
    && (forall i :: 0 <= i < |bs| ==> bs[i].addr != 0)
    && (forall i, j :: 0 <= i < j < |bs| ==> bs[i].addr != bs[j].addr)
  }

  lemma SpacedDistinct(bs: seq<Block>, base: int, brk: int)
    requires Spaced(bs, base, brk) && base > 0
    ensures Distinct(bs)
  {
    forall i, j | 0 <= i < |bs| && 0 <= j < |bs|
      ensures bs[i].addr != 0 && (i != j ==> bs[i].addr != bs[j].addr)
    {
      BlocksApart(bs, base, brk, i, j);
    }
  }

  // ----- resize_block on memory -----

  function Resized(mem: Memory, b: int, n: int, relink: bool): Memory {
    var h := At(mem, b);
    if h.size - n <= HEADER_SIZE then mem
    else
      var m := mem[b + n := Header(h.size - n, true, b, h.next)][b := h.(size := n, next := b + n)];
      if relink && h.next != 0 then m[h.next := At(m, h.next).(prev := b + n)] else m
  }

  /** The remainder's address is not the address of any block. */
  lemma RestIsNew(bs: seq<Block>, base: int, brk: int, k: nat, n: int)
    requires Spaced(bs, base, brk) && k < |bs| && 0 < n < bs[k].size
    ensures forall i :: 0 <= i < |bs| ==> bs[i].addr != bs[k].addr + n
  {
    forall i | 0 <= i < |bs| ensures bs[i].addr != bs[k].addr + n {
      BlocksApart(bs, base, brk, i, k);
    }
  }

  lemma ResizedLinks(first: int, mem: Memory, bs: seq<Block>, k: nat, n: int, relink: bool)
    requires Distinct(bs) && Linked(first, mem, bs) && k < |bs|
    requires Splits(bs[k], n) && (forall i :: 0 <= i < |bs| ==> bs[i].addr != bs[k].addr + n)
    ensures Linked(first, Resized(mem, bs[k].addr, n, relink), Shrink(bs, k, n))
  {
    var s, m := Shrink(bs, k, n), Resized(mem, bs[k].addr, n, relink);
    assert Holds(mem, bs, k);
    forall i | 0 <= i < |s| ensures Holds(m, s, i) {
      if i < k {
        assert Holds(mem, bs, i) && s[i] == bs[i] && s[i + 1].addr == bs[i + 1].addr;
      } else if i > k + 1 {
        assert Holds(mem, bs, i - 1) && s[i] == bs[i - 1] && AddrAt(s, i + 1) == AddrAt(bs, i);
      }
    }
  }

  /** Only the block after the split can have its `prev` changed, and only by the added store. */
  lemma ResizedPrev(mem: Memory, bs: seq<Block>, k: nat, n: int, relink: bool, i: nat)
    requires Distinct(bs) && k < |bs| && i < |bs| && At(mem, bs[k].addr).next == AddrAt(bs, k + 1)
    requires forall i :: 0 <= i < |bs| ==> bs[i].addr != bs[k].addr + n
    ensures var m, h := Resized(mem, bs[k].addr, n, relink), At(mem, bs[k].addr);
            && (h.size - n > HEADER_SIZE ==> At(m, bs[k].addr + n).prev == bs[k].addr)
            && PrevOf(m, bs, i) == if relink && i == k + 1 && h.size - n > HEADER_SIZE then bs[k].addr + n
                else PrevOf(mem, bs, i)
  {
  }

  /** A fully linked list stays fully linked exactly when no block with a successor is split. */
  lemma ResizedBackLinks(mem: Memory, bs: seq<Block>, k: nat, n: int, relink: bool)
    requires Distinct(bs) && BackLinked(mem, bs) && k < |bs| && Splits(bs[k], n)
    requires At(mem, bs[k].addr).next == AddrAt(bs, k + 1) && At(mem, bs[k].addr).size == bs[k].size
    requires forall i :: 0 <= i < |bs| ==> bs[i].addr != bs[k].addr + n
    ensures BackLinked(Resized(mem, bs[k].addr, n, relink), Shrink(bs, k, n)) <==> relink || k + 1 == |bs|
  {
    var s, m := Shrink(bs, k, n), Resized(mem, bs[k].addr, n, relink);
    forall i | 0 <= i < |s| && i != k + 2 ensures PrevOf(m, s, i) == AddrAt(s, i - 1) {
      if i <= k {
        ResizedPrev(mem, bs, k, n, relink, i);
      } else if i == k + 1 {
        ResizedPrev(mem, bs, k, n, relink, k);
      } else {
        ResizedPrev(mem, bs, k, n, relink, i - 1);
        assert s[i] == bs[i - 1] && s[i - 1] == bs[i - 2];
        assert PrevOf(mem, bs, i - 1) == AddrAt(bs, i - 2);
      }
    }
    if k + 1 < |bs| {
      ResizedPrev(mem, bs, k, n, relink, k + 1);
      assert s[k + 2] == bs[k + 1];
      assert PrevOf(m, s, k + 2) == if relink then bs[k].addr + n else bs[k].addr;
    }
  }

  // ----- The end of my_malloc on memory -----

  function HandedOut(mem: Memory, b: int, n: int, relink: bool): Memory {
    var m := Resized(mem, b, n, relink);
    m[b := At(m, b).(free := false)]
  }

  lemma GrabIsShrink(bs: seq<Block>, k: nat, n: int)
    requires k < |bs|
    ensures var s := Shrink(bs, k, n);
            Grab(bs, k, n) == s[k := Block(bs[k].addr, s[k].size, false)]
  {
  }

  lemma SameAddresses(a: seq<Block>, b: seq<Block>)
    requires Distinct(a) && |a| == |b| && forall i :: 0 <= i < |a| ==> a[i].addr == b[i].addr
    ensures Distinct(b)
  {
  }

  lemma ShrinkDistinct(bs: seq<Block>, base: int, top: int, k: nat, n: int)
    requires base > 0 && Spaced(bs, base, top) && k < |bs| && HEADER_SIZE < n <= bs[k].size
    ensures Distinct(bs) && Distinct(Shrink(bs, k, n))
    ensures Splits(bs[k], n) ==> forall i :: 0 <= i < |bs| ==> bs[i].addr != bs[k].addr + n
  {
    SpacedDistinct(bs, base, top);
    GrabSpaced(bs, base, top, k, n);
    SpacedDistinct(Grab(bs, k, n), base, top);
    SameAddresses(Grab(bs, k, n), Shrink(bs, k, n));
    if Splits(bs[k], n) {
      RestIsNew(bs, base, top, k, n);
    }
  }

  lemma HandedOutLinks(first: int, mem: Memory, bs: seq<Block>, base: int, top: int, k: nat, n: int, relink: bool)
    requires base > 0 && Spaced(bs, base, top) && Linked(first, mem, bs)
    requires k < |bs| && HEADER_SIZE < n <= bs[k].size
    ensures Distinct(bs) && (Splits(bs[k], n) ==> forall i :: 0 <= i < |bs| ==> bs[i].addr != bs[k].addr + n)
    ensures Linked(first, HandedOut(mem, bs[k].addr, n, relink), Grab(bs, k, n))
    ensures BackLinked(Resized(mem, bs[k].addr, n, relink), Shrink(bs, k, n)) <==>
            BackLinked(HandedOut(mem, bs[k].addr, n, relink), Grab(bs, k, n))
  {
    var s, m := Shrink(bs, k, n), Resized(mem, bs[k].addr, n, relink);
    assert Holds(mem, bs, k);
    ShrinkDistinct(bs, base, top, k, n);
    if Splits(bs[k], n) {
      ResizedLinks(first, mem, bs, k, n, relink);
    }
    assert Holds(m, s, k);
    GrabIsShrink(bs, k, n);
    StoreLinks(first, m, s, k, s[k].size, false);
  }

  lemma HandedOutBackLinks(first: int, mem: Memory, bs: seq<Block>, base: int, top: int, k: nat, n: int, relink: bool)
    requires base > 0 && Spaced(bs, base, top) && Linked(first, mem, bs)
    requires k < |bs| && HEADER_SIZE < n <= bs[k].size
    ensures BackLinked(mem, bs) ==>
              (BackLinked(HandedOut(mem, bs[k].addr, n, relink), Grab(bs, k, n)) <==>
                  relink || !Splits(bs[k], n) || k + 1 == |bs|)
  {
    assert Holds(mem, bs, k);
    HandedOutLinks(first, mem, bs, base, top, k, n, relink);
    if Splits(bs[k], n) {
      if BackLinked(mem, bs) {
        ResizedBackLinks(mem, bs, k, n, relink);
      }
    }
  }

  /** As written, my_malloc changes no `prev` of a block that is already in the list. */
  lemma HandedOutPrev(mem: Memory, bs: seq<Block>, base: int, top: int, k: nat, n: int, i: nat)
    requires base > 0 && Spaced(bs, base, top) && k < |bs| && HEADER_SIZE < n <= bs[k].size && Holds(mem, bs, k)
    requires i < |bs|
    ensures PrevOf(HandedOut(mem, bs[k].addr, n, false), bs, i) == PrevOf(mem, bs, i)
  {
    ShrinkDistinct(bs, base, top, k, n);
    if Splits(bs[k], n) {
      ResizedPrev(mem, bs, k, n, false, i);
    }
  }

  // ----- free_and_merge on memory -----

  function JoinNext(mem: Memory, b: int, relink: bool): Memory {
    var h := At(mem, b);
    var nx := At(mem, h.next);
    if h.next != 0 && nx.free then
      var m := mem[b := h.(size := h.size + nx.size, next := nx.next)];
      if relink && nx.next != 0 then m[nx.next := At(m, nx.next).(prev := b)] else m
    else mem
  }

  function JoinPrev(mem: Memory, b: int): Memory {
    var h := At(mem, b);
    var p := At(mem, h.prev);
    var m := mem[h.prev := p.(size := p.size + h.size, next := h.next)];
    if h.next != 0 then m[h.next := At(m, h.next).(prev := h.prev)] else m
  }

  predicate JoinsPrev(mem: Memory, b: int) {
    At(mem, b).prev != 0 && At(mem, At(mem, b).prev).free
  }

  function Merged(mem: Memory, b: int, relink: bool): Memory {
    var m := mem[b := At(mem, b).(free := true)];
    if JoinsPrev(m, b) then JoinNext(JoinPrev(m, b), At(m, b).prev, relink) else JoinNext(m, b, relink)
  }

  lemma JoinLinks(first: int, mem: Memory, m: Memory, bs: seq<Block>, i: nat)
    requires Linked(first, mem, bs) && i + 1 < |bs|
    requires bs[i].addr in m && At(m, bs[i].addr).size == bs[i].size + bs[i + 1].size
    requires At(m, bs[i].addr).free == bs[i].free && At(m, bs[i].addr).next == AddrAt(bs, i + 2)
    requires forall j :: 0 <= j < |bs| && j != i && j != i + 1 ==> Holds(m, bs, j)
    ensures Linked(first, m, MergeAt(bs, i))
  {
    var r := MergeAt(bs, i);
    forall j | 0 <= j < |r| ensures Holds(m, r, j) {
      if j < i {
        assert Holds(m, bs, j) && r[j] == bs[j] && r[j + 1].addr == bs[j + 1].addr;
      } else if j > i {
        assert Holds(m, bs, j + 1) && r[j] == bs[j + 1];
      }
    }
  }

  lemma JoinBackLinks(mem: Memory, m: Memory, bs: seq<Block>, i: nat)
    requires Distinct(bs) && BackLinked(mem, bs) && i + 1 < |bs|
    requires forall j :: 0 <= j < |bs| && j != i + 1 && j != i + 2 ==> PrevOf(m, bs, j) == PrevOf(mem, bs, j)
    ensures BackLinked(m, MergeAt(bs, i)) <==> (i + 2 < |bs| ==> PrevOf(m, bs, i + 2) == bs[i].addr)
  {
    var r := MergeAt(bs, i);
    assert forall j :: 0 <= j <= i ==> r[j].addr == bs[j].addr;
    assert forall j :: i < j < |r| ==> r[j] == bs[j + 1];
    if i + 2 < |bs| ==> PrevOf(m, bs, i + 2) == bs[i].addr {
      forall j | 0 <= j < |r| ensures PrevOf(m, r, j) == AddrAt(r, j - 1) {
        if j <= i {
          assert PrevOf(m, bs, j) == PrevOf(mem, bs, j) == AddrAt(bs, j - 1);
        } else if j > i + 1 {
          assert PrevOf(m, bs, j + 1) == PrevOf(mem, bs, j + 1) == AddrAt(bs, j);
        }
      }
    } else {
      assert PrevOf(m, r, i + 1) != AddrAt(r, i);
    }
  }

  lemma JoinNextLinks(first: int, mem: Memory, bs: seq<Block>, k: nat, relink: bool)
    requires Distinct(bs) && Linked(first, mem, bs) && k < |bs|
    ensures Linked(first, JoinNext(mem, bs[k].addr, relink), MergeForward(bs, k))
    ensures BackLinked(mem, bs) ==>
              (BackLinked(JoinNext(mem, bs[k].addr, relink), MergeForward(bs, k)) <==> relink || !JoinsInside(bs, k))
  {
    var m := JoinNext(mem, bs[k].addr, relink);
    assert Holds(mem, bs, k);
    if k + 1 < |bs| && bs[k + 1].free {
      assert Holds(mem, bs, k + 1);
      forall j | 0 <= j < |bs| && j != k && j != k + 1 ensures Holds(m, bs, j) {
        assert Holds(mem, bs, j);
      }
      JoinLinks(first, mem, m, bs, k);
      if BackLinked(mem, bs) {
        JoinBackLinks(mem, m, bs, k);
        if k + 2 < |bs| {
          assert PrevOf(mem, bs, k + 2) == bs[k + 1].addr;
          assert PrevOf(m, bs, k + 2) == if relink then bs[k].addr else bs[k + 1].addr;
        }
      }
    } else if k + 1 < |bs| {
      assert Holds(mem, bs, k + 1);
    }
  }

  lemma JoinPrevLinks(first: int, mem: Memory, bs: seq<Block>, k: nat)
    requires Distinct(bs) && Linked(first, mem, bs) && 0 < k < |bs| && PrevOf(mem, bs, k) == bs[k - 1].addr
    ensures Linked(first, JoinPrev(mem, bs[k].addr), MergeAt(bs, k - 1))
    ensures BackLinked(mem, bs) ==> BackLinked(JoinPrev(mem, bs[k].addr), MergeAt(bs, k - 1))
  {
    var m := JoinPrev(mem, bs[k].addr);
    assert Holds(mem, bs, k) && Holds(mem, bs, k - 1);
    forall j | 0 <= j < |bs| && j != k && j != k - 1 ensures Holds(m, bs, j) {
      assert Holds(mem, bs, j);
    }
    JoinLinks(first, mem, m, bs, k - 1);
    if BackLinked(mem, bs) {
      JoinBackLinks(mem, m, bs, k - 1);
    }
  }

  /** Writing a block's header without touching its links changes that one block. */
  lemma StoreLinks(first: int, mem: Memory, bs: seq<Block>, k: nat, size: int, free: bool)
    requires Distinct(bs) && Linked(first, mem, bs) && k < |bs|
    ensures var m := mem[bs[k].addr := At(mem, bs[k].addr).(size := size, free := free)];
            var r := bs[k := Block(bs[k].addr, size, free)];
            && Linked(first, m, r)
            && (BackLinked(mem, bs) <==> BackLinked(m, r))
            && (forall i :: 0 <= i < |bs| ==> PrevOf(m, r, i) == PrevOf(mem, bs, i))
  {
    var m := mem[bs[k].addr := At(mem, bs[k].addr).(size := size, free := free)];
    var r := bs[k := Block(bs[k].addr, size, free)];
    forall i | 0 <= i < |r| ensures Holds(m, r, i) && PrevOf(m, r, i) == PrevOf(mem, bs, i)
        && AddrAt(r, i - 1) == AddrAt(bs, i - 1) {
      assert Holds(mem, bs, i);
    }
  }

  lemma MergeAtDistinct(bs: seq<Block>, i: nat)
    requires Distinct(bs) && i + 1 < |bs|
    ensures Distinct(MergeAt(bs, i))
  {
    var r := MergeAt(bs, i);
    assert forall j :: 0 <= j <= i ==> r[j].addr == bs[j].addr;
    assert forall j :: i < j < |r| ==> r[j] == bs[j + 1];
  }

  /**
   free_and_merge leaves the coalesced list where the `prev` of the block itself is right; `StaleLinks`
   says what it does elsewhere. A fully linked list stays fully linked exactly when the code does not
   join the next block in front of a third.
   */
  lemma MergedLinks(first: int, mem: Memory, bs: seq<Block>, k: nat, relink: bool)
    requires Distinct(bs) && Linked(first, mem, bs) && k < |bs|
    ensures PrevOf(mem, bs, k) == AddrAt(bs, k - 1) ==> Linked(first, Merged(mem, bs[k].addr, relink), FreeAt(bs, k))
    ensures BackLinked(mem, bs) ==>
              (BackLinked(Merged(mem, bs[k].addr, relink), FreeAt(bs, k)) <==> relink || !JoinsInside(bs, k))
  {
    assert BackLinked(mem, bs) ==> PrevOf(mem, bs, k) == AddrAt(bs, k - 1);
    if PrevOf(mem, bs, k) == AddrAt(bs, k - 1) {
      MergedRight(first, mem, bs, k, relink);
    }
  }

  lemma MergedRight(first: int, mem: Memory, bs: seq<Block>, k: nat, relink: bool)
    requires Distinct(bs) && Linked(first, mem, bs) && k < |bs|
    requires PrevOf(mem, bs, k) == AddrAt(bs, k - 1)
    ensures Linked(first, Merged(mem, bs[k].addr, relink), FreeAt(bs, k))
    ensures BackLinked(mem, bs) ==>
              (BackLinked(Merged(mem, bs[k].addr, relink), FreeAt(bs, k)) <==> relink || !JoinsInside(bs, k))
  {
    var f, m := Freed(bs, k), mem[bs[k].addr := At(mem, bs[k].addr).(free := true)];
    assert Holds(mem, bs, k);
    StoreLinks(first, mem, bs, k, bs[k].size, true);
    assert PrevOf(m, f, k) == PrevOf(mem, bs, k);
    if k > 0 {
      assert Holds(m, f, k - 1);
    }
    if JoinsPrev(m, bs[k].addr) {
      JoinPrevLinks(first, m, f, k);
      MergeAtDistinct(f, k - 1);
      var g := MergeAt(f, k - 1);
      JoinNextLinks(first, JoinPrev(m, bs[k].addr), g, k - 1, relink);
      assert k + 1 < |bs| ==> g[k] == bs[k + 1];
    } else {
      JoinNextLinks(first, m, f, k, relink);
    }
  }

  /** A header written outside the list (by allocate, inside a block) does not disturb it. */
  lemma OffListStore(first: int, mem: Memory, bs: seq<Block>, a: int, h: Header)
    requires Linked(first, mem, bs) && forall i :: 0 <= i < |bs| ==> bs[i].addr != a
    ensures Linked(first, mem[a := h], bs)
    ensures BackLinked(mem, bs) <==> BackLinked(mem[a := h], bs)
    ensures forall i :: 0 <= i < |bs| ==> PrevOf(mem[a := h], bs, i) == PrevOf(mem, bs, i)
  {
    var m := mem[a := h];
    forall i | 0 <= i < |bs| ensures Holds(m, bs, i) && PrevOf(m, bs, i) == PrevOf(mem, bs, i) {
      assert Holds(mem, bs, i);
    }
  }

  lemma BrkIsOffList(bs: seq<Block>, base: int, brk: int)
    requires Spaced(bs, base, brk)
    ensures base <= brk && forall i :: 0 <= i < |bs| ==> bs[i].addr != brk
  {
    forall i | 0 <= i < |bs| ensures bs[i].addr != brk && base <= brk {
      BlocksApart(bs, base, brk, i, i);
    }
  }

  /** The added store changes one `prev`: that of the block two after the freed one. */
  lemma MergedDiffers(first: int, mem: Memory, bs: seq<Block>, k: nat, a: int)
    requires Distinct(bs) && Linked(first, mem, bs) && BackLinked(mem, bs) && k < |bs|
    requires a != AddrAt(bs, k + 2)
    ensures At(Merged(mem, bs[k].addr, false), a) == At(Merged(mem, bs[k].addr, true), a)
  {
    assert Holds(mem, bs, k) && PrevOf(mem, bs, k) == AddrAt(bs, k - 1);
    if k > 0 { assert Holds(mem, bs, k - 1); }
    if k + 1 < |bs| { assert Holds(mem, bs, k + 1); }
  }

  lemma LastIsBeyond(bs: seq<Block>, k: nat)
    requires Coalesced(bs) && k < |bs| && JoinsInside(bs, k) && Distinct(FreeAt(bs, k))
    ensures var r := FreeAt(bs, k); r != [] && (r[|r| - 1].free ==> r[|r| - 1].addr != bs[k + 2].addr)
  {
    FreeAtShape(bs, k);
    assert FreeAt(bs, k)[Home(bs, k) + 1] == bs[k + 2];
    assert !bs[k + 2].free;
  }

  /** The trailing free block that release_resource_if_need may cut off has the right `prev`. */
  lemma LastLinkIsRight(first: int, mem: Memory, bs: seq<Block>, k: nat, relink: bool)
    requires Distinct(bs) && Coalesced(bs) && Linked(first, mem, bs) && BackLinked(mem, bs)
    requires k < |bs| && !bs[k].free && Distinct(FreeAt(bs, k))
    ensures var r, m := FreeAt(bs, k), Merged(mem, bs[k].addr, relink);
            r[|r| - 1].free ==> PrevOf(m, r, |r| - 1) == AddrAt(r, |r| - 2)
  {
    assert PrevOf(mem, bs, k) == AddrAt(bs, k - 1);
    var r, last := FreeAt(bs, k), |FreeAt(bs, k)| - 1;
    MergedLinks(first, mem, bs, k, true);
    assert PrevOf(Merged(mem, bs[k].addr, true), r, last) == AddrAt(r, last - 1);
    if r[last].free && JoinsInside(bs, k) {
      assert r[last].addr != bs[k + 2].addr by { LastIsBeyond(bs, k); }
      MergedDiffers(first, mem, bs, k, r[last].addr);
    } else {
      MergedLinks(first, mem, bs, k, relink);
    }
  }

  lemma MergedWell(first: int, mem: Memory, bs: seq<Block>, base: int, brk: int, k: nat, relink: bool)
    requires base > 0 && Tiled(bs, base, brk) && Coalesced(bs) && Linked(first, mem, bs) && BackLinked(mem, bs)
    requires k < |bs| && !bs[k].free
    ensures var r, m := FreeAt(bs, k), Merged(mem, bs[k].addr, relink);
            && Distinct(r) && Linked(first, m, r)
            && (r[|r| - 1].free ==> PrevOf(m, r, |r| - 1) == AddrAt(r, |r| - 2))
            && (BackLinked(m, r) <==> relink || !JoinsInside(bs, k))
  {
    assert Distinct(bs) && Distinct(FreeAt(bs, k)) by { FreeAtDistinct(bs, base, brk, k); }
    assert PrevOf(mem, bs, k) == AddrAt(bs, k - 1);
    MergedLinks(first, mem, bs, k, relink);
    LastLinkIsRight(first, mem, bs, k, relink);
  }

  lemma FreeAtDistinct(bs: seq<Block>, base: int, brk: int, k: nat)
    requires base > 0 && Tiled(bs, base, brk) && k < |bs|
    ensures Distinct(bs) && Distinct(FreeAt(bs, k))
  {
    SpacedDistinct(bs, base, brk);
    FreeAtTiles(bs, base, brk, k);
    SpacedDistinct(FreeAt(bs, k), base, brk);
  }

  /** Dropping a last block whose link is right keeps both what is right and what is wrong. */
  lemma KeptLinks(mem: Memory, m: Memory, bs: seq<Block>, r: seq<Block>)
    requires r <= bs && |r| + 1 >= |bs| && forall i :: 0 <= i < |r| ==> PrevOf(m, r, i) == PrevOf(mem, bs, i)
    requires |r| < |bs| ==> PrevOf(mem, bs, |bs| - 1) == AddrAt(bs, |bs| - 2)
    ensures BackLinked(mem, bs) <==> BackLinked(m, r)
  {
    forall i | 0 <= i < |r| ensures r[i] == bs[i] && AddrAt(r, i - 1) == AddrAt(bs, i - 1) {}
    if BackLinked(m, r) {
      forall i | 0 <= i < |bs| ensures PrevOf(mem, bs, i) == AddrAt(bs, i - 1) {
        if i < |r| { assert PrevOf(m, r, i) == AddrAt(r, i - 1); }
      }
    } else {
      var i :| 0 <= i < |r| && PrevOf(m, r, i) != AddrAt(r, i - 1);
      assert PrevOf(mem, bs, i) != AddrAt(bs, i - 1);
    }
  }

  /** The header of the block whose payload starts at p; NULL for NULL. */
  function BlockOf(p: int): int {
    if p == 0 then 0 else p - HEADER_SIZE
  }
}
