// The first-fit heap of thread_pool/rt-thread/src/mem.c, as a function of its state.
//
// A heap value holds the block layout, the lfree hint and the two statistics
// counters.  Every operation is a function on such values; SmallMem.dfy proves
// that the pointer-chasing code computes exactly these functions.
module SmallHeap {
  import opened Layout

  /** SIZEOF_STRUCT_MEM and MIN_SIZE_ALIGNED for a 32-bit target with RT_ALIGN_SIZE 4. */
  const HDR := 12
  const MIN_SIZE := 12

  const WORD := 0x1_0000_0000

  /** A client pointer, as an offset from heap_ptr. */
  datatype Ptr = Null | At(off: int)

  /** size is mem_size_aligned; the sentinel heap_end sits at size + HDR. */
  datatype Heap = Heap(size: nat, blocks: seq<Block>, lfree: nat, used: int, max: int)

  function End(h: Heap): nat { h.size + HDR }

  /** RT_ALIGN in 32-bit arithmetic: the addition wraps. */
  function Align32(n: nat): (a: nat)
    requires n < WORD
    ensures a % ALIGN == 0
    ensures n <= WORD - ALIGN ==> n <= a < n + ALIGN
    ensures n > WORD - ALIGN ==> a == 0
  {
    (n + 3) % WORD / ALIGN * ALIGN
  }

  /** lfree points at a free block, or at heap_end. */
  predicate LfreeOk(h: Heap) {
    var k := IndexOf(h.blocks, h.lfree);
    if k == |h.blocks| then h.lfree == End(h) else !h.blocks[k].used
  }

  predicate Structured(h: Heap) {
    && Tiles(h.blocks, 0, End(h), HDR)
    && LfreeOk(h)
    && h.used == UsedBytes(h.blocks)
    && h.used <= h.max
  }

  /** The block below heap_end has room for data, so no payload address is heap_end itself. */
  predicate LastRoomy(bs: seq<Block>) {
    bs != [] && MIN_SIZE <= Payload(bs[|bs| - 1])
  }

  /** The heap invariant. */
  ghost predicate Inv(h: Heap) {
    && h.size % ALIGN == 0 && MIN_SIZE <= h.size && End(h) + HDR < WORD
    && Structured(h)
    && Coalesced(h.blocks)
    && LastRoomy(h.blocks)
  }

  /** No free block lies below lfree. */
  ghost predicate LowestFree(h: Heap) {
    forall i :: 0 <= i < |h.blocks| && h.blocks[i].start < h.lfree ==> h.blocks[i].used
  }

  function Payload(b: Block): int { b.end - b.start - HDR }

  /** p is the payload address of a block in use. */
  predicate Live(h: Heap, p: int) {
    && HDR <= p
    && var k := IndexOf(h.blocks, p - HDR);
       k < |h.blocks| && h.blocks[k].used
  }

  function BlockOf(h: Heap, p: int): (i: nat)
    requires Live(h, p)
    ensures i < |h.blocks| && h.blocks[i].used && h.blocks[i].start == p - HDR
  {
    IndexOf(h.blocks, p - HDR)
  }

  function Init(size: nat): Heap {
    Heap(size, [Block(0, size + HDR, false)], 0, 0, 0)
  }

  // ----- rt_malloc

  predicate Fits(b: Block, size: nat) { !b.used && Payload(b) >= size }

  /** The search loop from block k: the first free block that is large enough and starts below limit. */
  function FirstFit(bs: seq<Block>, k: nat, limit: int, size: nat): (i: nat)
    requires k <= |bs|
    ensures k <= i <= |bs|
    ensures i < |bs| ==> Fits(bs[i], size) && bs[i].start < limit
    ensures i < |bs| ==> forall j :: k <= j < i ==> !Fits(bs[j], size)
    decreases |bs| - k
  {
    if k == |bs| then k
    else if limit <= bs[k].start then |bs|
    else if Fits(bs[k], size) then k
    else FirstFit(bs, k + 1, limit, size)
  }

  lemma {:induction false} NoFit(bs: seq<Block>, k: nat, limit: int, size: nat, lo: nat, hi: nat)
    requires Tiles(bs, lo, hi, HDR) && k <= |bs|
    requires FirstFit(bs, k, limit, size) == |bs|
    ensures forall j :: k <= j < |bs| && bs[j].start < limit ==> !Fits(bs[j], size)
    decreases |bs| - k
  {
    if k < |bs| {
      if limit <= bs[k].start {
        Disjoint(bs, lo, hi, HDR);
      } else {
        NoFit(bs, k + 1, limit, size, lo, hi);
      }
    }
  }

  /** The first free block from block k on, or heap_end. */
  function NextFree(bs: seq<Block>, k: nat, end: nat): (off: nat)
    requires k <= |bs|
    decreases |bs| - k
  {
    if k == |bs| then end
    else if !bs[k].used then bs[k].start
    else NextFree(bs, k + 1, end)
  }

  /** Where block i is cut for a request of size bytes: after the request, or nowhere. */
  function CutAt(b: Block, size: nat): nat {
    if Payload(b) >= size + HDR + MIN_SIZE then b.start + HDR + size else b.end
  }

  function Max(a: int, b: int): int { if a < b then b else a }

  /** Block i goes into use for a request of size bytes. */
  function Take(h: Heap, i: nat, size: nat): Heap
    requires i < |h.blocks| && h.blocks[i].start <= h.blocks[i].end && Fits(h.blocks[i], size)
  {
    var b := h.blocks[i];
    var at := CutAt(b, size);
    var marked := Mark(h.blocks, i, true);
    var bs := if at < b.end then Cut(marked, i, at) else marked;
    var used := h.used + (at - b.start);
    Heap(h.size, bs,
         if h.lfree == b.start then NextFree(bs, i, End(h)) else h.lfree,
         used, Max(h.max, used))
  }

  /** The size really searched for. */
  function Request(n: nat): (size: nat)
    requires n < WORD
    ensures size % ALIGN == 0 && MIN_SIZE <= size
    ensures 0 < n <= WORD - ALIGN ==> n <= size
  {
    Max(Align32(n), MIN_SIZE)
  }

  function Malloc(h: Heap, n: nat): (Heap, Ptr)
    requires n < WORD && Inv(h)
  {
    if n == 0 || Align32(n) > h.size then (h, Null)
    else
      var size := Request(n);
      var i := FirstFit(h.blocks, IndexOf(h.blocks, h.lfree), h.size - size, size);
      if i == |h.blocks| then (h, Null)
      else Inside(h.blocks, 0, End(h), HDR, i); (Take(h, i, size), At(h.blocks[i].start + HDR))
  }

  // ----- rt_free and rt_realloc

  /** Block i swallows its right neighbour; lfree moves along if it pointed there. */
  function Swallow(h: Heap, i: nat): Heap
    requires i + 1 < |h.blocks|
  {
    h.(blocks := Join(h.blocks, i),
       lfree := if h.lfree == h.blocks[i + 1].start then h.blocks[i].start else h.lfree)
  }

  function PlugForward(h: Heap, i: nat): Heap
    requires i < |h.blocks|
  {
    if i + 1 < |h.blocks| && !h.blocks[i + 1].used then Swallow(h, i) else h
  }

  function PlugBackward(h: Heap, i: nat): Heap
    requires i < |h.blocks|
  {
    if i > 0 && !h.blocks[i - 1].used then Swallow(h, i - 1) else h
  }

  function PlugHoles(h: Heap, i: nat): Heap
    requires i < |h.blocks|
  {
    PlugBackward(PlugForward(h, i), i)
  }

  /** Block i is marked free, before its neighbours are looked at. */
  function Release(h: Heap, i: nat): Heap
    requires i < |h.blocks|
  {
    var b := h.blocks[i];
    h.(blocks := Mark(h.blocks, i, false),
       lfree := if b.start < h.lfree then b.start else h.lfree,
       used := h.used - (b.end - b.start))
  }

  function FreeAt(h: Heap, i: nat): Heap
    requires i < |h.blocks|
  {
    PlugHoles(Release(h, i), i)
  }

  /** Block i is cut after n payload bytes, before its neighbours are looked at. */
  function Trim(h: Heap, i: nat, n: nat): Heap
    requires i < |h.blocks|
  {
    h.(blocks := Cut(h.blocks, i, h.blocks[i].start + HDR + n),
       used := h.used - (Payload(h.blocks[i]) - n))
  }

  /** Used block i shrinks to a payload of n bytes. */
  function Shrink(h: Heap, i: nat, n: nat): Heap
    requires i < |h.blocks|
  {
    PlugHoles(Trim(h, i, n), i + 1)
  }

  /** Inside the range that rt_free and rt_realloc accept. */
  predicate InArena(h: Heap, p: int) { 0 <= p < End(h) }

  /** What the two functions demand of a pointer: null, outside the arena, or live. */
  predicate Acceptable(h: Heap, p: Ptr) {
    p.At? && InArena(h, p.off) ==> Live(h, p.off)
  }

  function Free(h: Heap, p: Ptr): Heap
    requires Acceptable(h, p)
  {
    if p.Null? || !InArena(h, p.off) then h else FreeAt(h, BlockOf(h, p.off))
  }

  /** A used block of the layout is shrunk in place when the tail has room for a block of its own. */
  predicate Shrinks(b: Block, n: nat) { n + HDR + MIN_SIZE < Payload(b) }

  // ----- Preservation

  lemma IndexIs(h: Heap, i: nat)
    requires Tiles(h.blocks, 0, End(h), HDR) && i < |h.blocks|
    ensures IndexOf(h.blocks, h.blocks[i].start) == i
    ensures h.blocks[i].start < End(h)
  {
    Disjoint(h.blocks, 0, End(h), HDR);
  }

  /** lfree is fine as soon as some free block starts there. */
  lemma LfreeAt(h: Heap, i: nat)
    requires Tiles(h.blocks, 0, End(h), HDR)
    requires i < |h.blocks| ==> !h.blocks[i].used && h.lfree == h.blocks[i].start
    requires i == |h.blocks| ==> h.lfree == End(h)
    requires i <= |h.blocks|
    ensures LfreeOk(h)
  {
    if i < |h.blocks| {
      IndexIs(h, i);
    } else {
      Disjoint(h.blocks, 0, End(h), HDR);
    }
  }

  lemma {:induction false} NextFreeIs(bs: seq<Block>, k: nat, end: nat) returns (i: nat)
    requires k <= |bs|
    ensures k <= i <= |bs|
    ensures if i < |bs| then !bs[i].used && NextFree(bs, k, end) == bs[i].start else NextFree(bs, k, end) == end
    ensures forall j :: k <= j < i ==> bs[j].used
    decreases |bs| - k
  {
    if k == |bs| || !bs[k].used { i := k; } else { i := NextFreeIs(bs, k + 1, end); }
  }

  lemma SwallowStructured(h: Heap, i: nat)
    requires Structured(h) && i + 1 < |h.blocks| && !h.blocks[i].used && !h.blocks[i + 1].used
    ensures Structured(Swallow(h, i)) && Used(Swallow(h, i).blocks) == Used(h.blocks)
  {
    hide Join;
    var k := IndexOf(h.blocks, h.lfree);
    JoinTiles(h.blocks, 0, End(h), HDR, i);
    IndexIs(h, i + 1);
    LfreeAt(Swallow(h, i), if k <= i then k else k - 1);
  }

  lemma SwallowLast(h: Heap, i: nat)
    requires Tiles(h.blocks, 0, End(h), HDR) && i + 1 < |h.blocks| && LastRoomy(h.blocks)
    ensures LastRoomy(Swallow(h, i).blocks)
  {
    hide Join;
    Inside(h.blocks, 0, End(h), HDR, i);
    Inside(h.blocks, 0, End(h), HDR, i + 1);
  }

  lemma SwallowLowest(h: Heap, i: nat)
    requires Tiles(h.blocks, 0, End(h), HDR) && i + 1 < |h.blocks| && LowestFree(h)
    requires !h.blocks[i].used && !h.blocks[i + 1].used
    ensures LowestFree(Swallow(h, i))
  {
    hide Join;
    var h' := Swallow(h, i);
    Inside(h.blocks, 0, End(h), HDR, i);
    Inside(h.blocks, 0, End(h), HDR, i + 1);
    forall j | 0 <= j < |h'.blocks| && h'.blocks[j].start < h'.lfree ensures h'.blocks[j].used {
      var o := if j <= i then j else j + 1;
      assert h.blocks[o].start == h'.blocks[j].start;
    }
  }

  /** Swallowing a free right neighbour keeps the structure, the used blocks and lowest-free. */
  lemma SwallowKeeps(h: Heap, i: nat)
    requires Structured(h) && i + 1 < |h.blocks| && !h.blocks[i].used && !h.blocks[i + 1].used
    ensures Structured(Swallow(h, i)) && Used(Swallow(h, i).blocks) == Used(h.blocks)
    ensures LowestFree(h) ==> LowestFree(Swallow(h, i))
    ensures LastRoomy(h.blocks) ==> LastRoomy(Swallow(h, i).blocks)
  {
    hide Swallow;
    SwallowStructured(h, i);
    if LastRoomy(h.blocks) { SwallowLast(h, i); }
    if LowestFree(h) { SwallowLowest(h, i); }
  }

  lemma PlugForwardCoalesces(h: Heap, i: nat)
    requires i < |h.blocks| && !h.blocks[i].used && CoalescedBut(h.blocks, i)
    ensures var bs := PlugForward(h, i).blocks;
            i < |bs| && !bs[i].used && CoalescedBut(bs, i) && (i + 1 < |bs| ==> bs[i + 1].used)
  {
  }

  lemma PlugBackwardCoalesces(h: Heap, i: nat)
    requires i < |h.blocks| && !h.blocks[i].used && CoalescedBut(h.blocks, i)
    requires i + 1 < |h.blocks| ==> h.blocks[i + 1].used
    ensures Coalesced(PlugBackward(h, i).blocks)
  {
  }

  lemma PlugHolesKeeps(h: Heap, i: nat)
    requires Structured(h) && i < |h.blocks| && !h.blocks[i].used && CoalescedBut(h.blocks, i)
    ensures Structured(PlugHoles(h, i)) && Coalesced(PlugHoles(h, i).blocks)
    ensures Used(PlugHoles(h, i).blocks) == Used(h.blocks)
    ensures PlugHoles(h, i).used == h.used && PlugHoles(h, i).max == h.max && PlugHoles(h, i).size == h.size
    ensures LowestFree(h) ==> LowestFree(PlugHoles(h, i))
    ensures LastRoomy(h.blocks) ==> LastRoomy(PlugHoles(h, i).blocks)
  {
    var h1 := PlugForward(h, i);
    PlugForwardCoalesces(h, i);
    PlugBackwardCoalesces(h1, i);
    if i + 1 < |h.blocks| && !h.blocks[i + 1].used { SwallowKeeps(h, i); }
    if i > 0 && !h1.blocks[i - 1].used { SwallowKeeps(h1, i - 1); }
  }

  /** The block a request takes out of free block b. */
  function Taken(b: Block, size: nat): Block { Block(b.start, CutAt(b, size), true) }

  lemma TakenLayout(h: Heap, i: nat, size: nat)
    requires Inv(h) && i < |h.blocks| && Fits(h.blocks[i], size)
    requires size % ALIGN == 0 && MIN_SIZE <= size
    ensures Tiles(Take(h, i, size).blocks, 0, End(h), HDR)
    ensures Used(Take(h, i, size).blocks) == Used(h.blocks) + {Taken(h.blocks[i], size)}
    ensures Take(h, i, size).used == UsedBytes(Take(h, i, size).blocks)
  {
    hide Mark, Cut, Tiles, UsedBytes, Used, NextFree, Coalesced, LastRoomy, LfreeOk;
    Inside(h.blocks, 0, End(h), HDR, i);
    TakenTiles(h.blocks, 0, End(h), HDR, i, CutAt(h.blocks[i], size));
  }

  /** How Take rearranges the layout, index by index. */
  lemma TakeIndices(h: Heap, i: nat, size: nat)
    requires i < |h.blocks| && h.blocks[i].start <= h.blocks[i].end && Fits(h.blocks[i], size)
    ensures var bs, bs' := h.blocks, Take(h, i, size).blocks;
            var d := |bs'| - |bs|;
            && 0 <= d <= 1
            && bs'[i] == Taken(bs[i], size)
            && (d == 0 ==> CutAt(bs[i], size) == bs[i].end)
            && (d == 1 ==> CutAt(bs[i], size) < bs[i].end
                           && bs'[i + 1] == Block(CutAt(bs[i], size), bs[i].end, false))
            && (forall j :: 0 <= j < i ==> bs'[j] == bs[j])
            && (forall j :: i + d < j < |bs'| ==> bs'[j] == bs[j - d])
    ensures var h' := Take(h, i, size);
            && h'.size == h.size && (h.lfree != h.blocks[i].start ==> h'.lfree == h.lfree)
            && h'.used == h.used + CutAt(h.blocks[i], size) - h.blocks[i].start
            && h'.max == Max(h.max, h'.used)
  {
    hide Mark, Cut, NextFree;
  }

  lemma TakeCoalesces(h: Heap, i: nat, size: nat)
    requires i < |h.blocks| && h.blocks[i].start <= h.blocks[i].end && Fits(h.blocks[i], size) && Coalesced(h.blocks)
    ensures Coalesced(Take(h, i, size).blocks)
    ensures LastRoomy(h.blocks) && MIN_SIZE <= size ==> LastRoomy(Take(h, i, size).blocks)
  {
    hide Take;
    TakeIndices(h, i, size);
    assert i + 1 < |h.blocks| ==> h.blocks[i + 1].used;
  }

  lemma TakeMovesHint(h: Heap, i: nat, size: nat)
    requires Inv(h) && i < |h.blocks| && Fits(h.blocks[i], size) && h.lfree == h.blocks[i].start
    requires size % ALIGN == 0 && MIN_SIZE <= size
    ensures LfreeOk(Take(h, i, size))
    ensures LowestFree(h) ==> LowestFree(Take(h, i, size))
  {
    hide Tiles, UsedBytes, LfreeOk, Coalesced, Used, LowestFree, Mark, Cut;
    var h' := Take(h, i, size);
    TakenLayout(h, i, size);
    Inside(h.blocks, 0, End(h), HDR, i);
    TakeIndices(h, i, size);
    var j := NextFreeIs(h'.blocks, i, End(h));
    LfreeAt(h', j);
    if LowestFree(h) {
      forall k | 0 <= k < i ensures h'.blocks[k].used {
        Ordered(h.blocks, 0, End(h), HDR, k, i);
        Inside(h.blocks, 0, End(h), HDR, k);
        assert h.blocks[k].used by { LowestAt(h, k); }
      }
      UsedBefore(h', j);
    }
  }

  lemma LowestAt(h: Heap, k: nat)
    requires LowestFree(h) && k < |h.blocks| && h.blocks[k].start < h.lfree
    ensures h.blocks[k].used
  {
  }

  /** lfree is lowest when the blocks before the one it names are in use. */
  lemma UsedBefore(h: Heap, j: nat)
    requires Tiles(h.blocks, 0, End(h), HDR) && j <= |h.blocks|
    requires h.lfree == if j < |h.blocks| then h.blocks[j].start else End(h)
    requires forall k :: 0 <= k < j ==> h.blocks[k].used
    ensures LowestFree(h)
  {
    forall k | j < k < |h.blocks| ensures h.lfree <= h.blocks[k].start {
      Ordered(h.blocks, 0, End(h), HDR, j, k);
      Inside(h.blocks, 0, End(h), HDR, j);
    }
  }

  lemma TakeKeepsHint(h: Heap, i: nat, size: nat)
    requires Inv(h) && i < |h.blocks| && Fits(h.blocks[i], size) && h.lfree != h.blocks[i].start
    requires size % ALIGN == 0 && MIN_SIZE <= size
    ensures LfreeOk(Take(h, i, size))
  {
    hide Take, Tiles, UsedBytes, Used, Coalesced, LastRoomy;
    var h' := Take(h, i, size);
    TakenLayout(h, i, size);
    Inside(h.blocks, 0, End(h), HDR, i);
    TakeIndices(h, i, size);
    var k := IndexOf(h.blocks, h.lfree);
    assert h'.lfree == h.lfree;
    LfreeAt(h', if k < i then k else k + |h'.blocks| - |h.blocks|);
  }

  lemma TakeKeepsLowest(h: Heap, i: nat, size: nat)
    requires Inv(h) && i < |h.blocks| && Fits(h.blocks[i], size) && h.lfree != h.blocks[i].start
    requires size % ALIGN == 0 && MIN_SIZE <= size && LowestFree(h)
    ensures LowestFree(Take(h, i, size))
  {
    hide Take, Tiles, UsedBytes, LfreeOk, Coalesced, Used;
    var h' := Take(h, i, size);
    TakenLayout(h, i, size);
    Inside(h.blocks, 0, End(h), HDR, i);
    TakeIndices(h, i, size);
    Inside(h'.blocks, 0, End(h), HDR, i);
    assert h.lfree < h.blocks[i].start;
    forall j | i < j < |h'.blocks| ensures h.lfree <= h'.blocks[j].start {
      Ordered(h'.blocks, 0, End(h), HDR, i, j);
    }
  }

  lemma TakeKeeps(h: Heap, i: nat, size: nat)
    requires Inv(h) && i < |h.blocks| && Fits(h.blocks[i], size)
    requires size % ALIGN == 0 && MIN_SIZE <= size
    ensures Inv(Take(h, i, size))
    ensures LowestFree(h) ==> LowestFree(Take(h, i, size))
  {
    hide Tiles, UsedBytes, Used, Coalesced, LfreeOk, LastRoomy, LowestFree, Mark, Cut, NextFree;
    Inside(h.blocks, 0, End(h), HDR, i);
    TakenLayout(h, i, size);
    TakeCoalesces(h, i, size);
    if h.lfree == h.blocks[i].start { TakeMovesHint(h, i, size); } else {
      TakeKeepsHint(h, i, size);
      if LowestFree(h) { TakeKeepsLowest(h, i, size); }
    }
  }

  lemma ReleaseKeeps(h: Heap, i: nat)
    requires Structured(h) && i < |h.blocks| && h.blocks[i].used
    ensures Structured(Release(h, i))
    ensures Used(Release(h, i).blocks) == Used(h.blocks) - {h.blocks[i]}
    ensures LowestFree(h) ==> LowestFree(Release(h, i))
  {
    hide Mark, Tiles, UsedBytes, Used;
    var h' := Release(h, i);
    MarkTiles(h.blocks, 0, End(h), HDR, i, false);
    Inside(h.blocks, 0, End(h), HDR, i);
    LfreeAt(h', if h.blocks[i].start < h.lfree then i else IndexOf(h.blocks, h.lfree));
  }

  lemma FreeAtKeeps(h: Heap, i: nat)
    requires Inv(h) && i < |h.blocks| && h.blocks[i].used
    ensures Inv(FreeAt(h, i))
    ensures Used(FreeAt(h, i).blocks) == Used(h.blocks) - {h.blocks[i]}
    ensures LowestFree(h) ==> LowestFree(FreeAt(h, i))
    ensures FreeAt(h, i).max == h.max && FreeAt(h, i).size == h.size
    ensures FreeAt(h, i).used == h.used - (h.blocks[i].end - h.blocks[i].start)
  {
    hide Tiles, UsedBytes, Used, PlugHoles, LfreeOk, Coalesced, CoalescedBut, LastRoomy, LowestFree, Mark;
    ReleaseKeeps(h, i);
    ReleaseCoalesced(h, i);
    PlugHolesKeeps(Release(h, i), i);
  }

  lemma ReleaseCoalesced(h: Heap, i: nat)
    requires i < |h.blocks| && Coalesced(h.blocks) && LastRoomy(h.blocks)
    ensures CoalescedBut(Release(h, i).blocks, i) && LastRoomy(Release(h, i).blocks)
    ensures !Release(h, i).blocks[i].used
  {
    hide Mark;
  }

  lemma TrimKeeps(h: Heap, i: nat, n: nat)
    requires Structured(h) && i < |h.blocks| && h.blocks[i].used
    requires n % ALIGN == 0 && Shrinks(h.blocks[i], n)
    ensures Structured(Trim(h, i, n))
    ensures Used(Trim(h, i, n).blocks)
            == Used(h.blocks) - {h.blocks[i]} + {h.blocks[i].(end := h.blocks[i].start + HDR + n)}
  {
    hide Cut, Tiles, UsedBytes, Used, LfreeOk;
    Inside(h.blocks, 0, End(h), HDR, i);
    CutTiles(h.blocks, 0, End(h), HDR, i, h.blocks[i].start + HDR + n);
    TrimHint(h, i, n);
  }

  lemma TrimHint(h: Heap, i: nat, n: nat)
    requires LfreeOk(h) && i < |h.blocks| && h.blocks[i].used && Tiles(Trim(h, i, n).blocks, 0, End(h), HDR)
    ensures LfreeOk(Trim(h, i, n))
  {
    hide Cut, Tiles;
    var k := IndexOf(h.blocks, h.lfree);
    LfreeAt(Trim(h, i, n), if k < i then k else k + 1);
  }

  lemma ShrinkKeeps(h: Heap, i: nat, n: nat)
    requires Inv(h) && i < |h.blocks| && h.blocks[i].used
    requires n % ALIGN == 0 && Shrinks(h.blocks[i], n)
    ensures Inv(Shrink(h, i, n))
    ensures Used(Shrink(h, i, n).blocks)
            == Used(h.blocks) - {h.blocks[i]} + {h.blocks[i].(end := h.blocks[i].start + HDR + n)}
    ensures Shrink(h, i, n).max == h.max && Shrink(h, i, n).size == h.size
  {
    hide Tiles, UsedBytes, Used, PlugHoles, LfreeOk, Coalesced, CoalescedBut;
    TrimKeeps(h, i, n);
    TrimCoalesced(h, i, n);
    PlugHolesKeeps(Trim(h, i, n), i + 1);
  }

  lemma TrimCoalesced(h: Heap, i: nat, n: nat)
    requires i < |h.blocks| && Coalesced(h.blocks)
    ensures CoalescedBut(Trim(h, i, n).blocks, i + 1)
    ensures LastRoomy(h.blocks) && Shrinks(h.blocks[i], n) ==> LastRoomy(Trim(h, i, n).blocks)
  {
    hide Cut;
    var bs := Trim(h, i, n).blocks;
    forall a, b | 0 <= a && b == a + 1 && b < |bs| && a != i + 1 && b != i + 1 ensures bs[a].used || bs[b].used {
      if a < i {
        assert h.blocks[a].used || h.blocks[b].used;
      } else if i < a {
        assert bs[a] == h.blocks[a - 1] && bs[b] == h.blocks[b - 1];
      }
    }
  }

  // ----- What each operation does to the blocks in use

  lemma LiveIff(h: Heap, p: int)
    requires Tiles(h.blocks, 0, End(h), HDR)
    ensures Live(h, p) <==> exists b :: b in Used(h.blocks) && b.start + HDR == p
  {
    Disjoint(h.blocks, 0, End(h), HDR);
    if Live(h, p) {
      assert h.blocks[BlockOf(h, p)] in Used(h.blocks);
    }
  }

  /** h' is h with one more block in use: aligned, at least size bytes of payload at address p,
      inside the arena and disjoint from every block that was in use. */
  ghost predicate Allocated(h: Heap, h': Heap, p: int, size: nat) {
    && Inv(h') && h'.size == h.size && p % ALIGN == 0 && Live(h', p)
    && var b := h'.blocks[BlockOf(h', p)];
       && Used(h'.blocks) == Used(h.blocks) + {b}
       && size <= Payload(b) && b.end <= End(h)
       && (forall c :: c in Used(h.blocks) ==> c.end <= b.start || b.end <= c.start)
       && h'.used == h.used + (b.end - b.start) && h'.max == Max(h.max, h'.used)
  }

  lemma TakeAllocates(h: Heap, i: nat, size: nat)
    requires Inv(h) && i < |h.blocks| && Fits(h.blocks[i], size)
    requires size % ALIGN == 0 && MIN_SIZE <= size
    ensures Allocated(h, Take(h, i, size), h.blocks[i].start + HDR, size)
  {
    hide Take, Tiles, UsedBytes, LfreeOk, Coalesced, LastRoomy, LowestFree;
    var h', b := Take(h, i, size), Taken(h.blocks[i], size);
    TakeKeeps(h, i, size);
    Inside(h.blocks, 0, End(h), HDR, i);
    TakenLayout(h, i, size);
    TakeIndices(h, i, size);
    IndexIs(h', i);
    forall c | c in Used(h.blocks) ensures c.end <= b.start || b.end <= c.start {
      Apart(h.blocks, 0, End(h), HDR, h.blocks[i], c);
    }
  }

  /** The block a successful malloc takes is found by the search, and goes into use. */
  lemma MallocAllocates(h: Heap, n: nat)
    requires n < WORD && Inv(h) && Malloc(h, n).1.At?
    ensures Allocated(h, Malloc(h, n).0, Malloc(h, n).1.off, Request(n))
  {
    hide Tiles, UsedBytes, Coalesced, Take, Allocated, LfreeOk;
    var size := Request(n);
    var i := FirstFit(h.blocks, IndexOf(h.blocks, h.lfree), h.size - size, size);
    TakeAllocates(h, i, size);
  }

  lemma MallocKeepsLive(h: Heap, n: nat, p: int)
    requires n < WORD && Inv(h) && Live(h, p)
    ensures Live(Malloc(h, n).0, p)
  {
    if Malloc(h, n).1.At? {
      MallocAllocates(h, n);
      LiveIff(h, p);
      LiveIff(Malloc(h, n).0, p);
    }
  }

  /** h' is h with block b no longer in use. */
  ghost predicate Released(h: Heap, h': Heap, b: Block) {
    && Inv(h') && h'.size == h.size
    && Used(h'.blocks) == Used(h.blocks) - {b}
    && h'.used == h.used - (b.end - b.start) && h'.max == h.max
  }

  /** Freeing a live payload takes exactly its block out of use. */
  lemma FreeReleases(h: Heap, p: int)
    requires Inv(h) && Live(h, p)
    ensures InArena(h, p) && Released(h, Free(h, At(p)), h.blocks[BlockOf(h, p)])
    ensures LowestFree(h) ==> LowestFree(Free(h, At(p)))
  {
    hide Tiles, UsedBytes, Coalesced, FreeAt;
    var i := BlockOf(h, p);
    Inside(h.blocks, 0, End(h), HDR, i);
    Inside(h.blocks, 0, End(h), HDR, |h.blocks| - 1);
    if i < |h.blocks| - 1 { Ordered(h.blocks, 0, End(h), HDR, i, |h.blocks| - 1); }
    FreeAtKeeps(h, i);
    assert Free(h, At(p)) == FreeAt(h, i);
  }

  /** The expanding path of rt_realloc: allocate, copy, free. */
  function Move(h: Heap, p: int, newSize: nat): (Heap, Ptr)
    requires newSize < WORD && Inv(h) && Live(h, p)
  {
    var (h1, q) := Malloc(h, newSize);
    if q.Null? then (h, Null)
    else MallocKeepsLive(h, newSize, p); (Free(h1, At(p)), q)
  }

  function Realloc(h: Heap, p: Ptr, n: nat): (Heap, Ptr)
    requires n < WORD && Inv(h) && Acceptable(h, p)
  {
    var newSize := Align32(n);
    if newSize > h.size then (h, Null)
    else if p.Null? then Malloc(h, newSize)
    else if !InArena(h, p.off) then (h, p)
    else
      var i := BlockOf(h, p.off);
      var b := h.blocks[i];
      if Payload(b) == newSize then (h, p)
      else if Shrinks(b, newSize) then (Shrink(h, i, newSize), p)
      else Move(h, p.off, newSize)
  }

}
