// The heap of thread_pool/rt-thread/src/memheap.c, as a function of its state.
//
// The arena is tiled by blocks; the last header of the pool, a used block of no
// size, stands behind them.  The free blocks are also in a ring of their own,
// most recently freed first, and allocation takes the first fit of that ring.
module MemHeap {
  import opened Layout
  import opened Lists
  import CircularList

  const HDR := 24       // RT_MEMHEAP_SIZE
  const MINIALLOC := 12
  const WORD := 0x1_0000_0000

  datatype Ptr = Null | At(off: int)

  datatype Heap = Heap(pool: nat, blocks: seq<Block>, ring: seq<int>, available: int, maxUsed: int)

  /** The address of the last header. */
  function End(h: Heap): nat { if h.pool < HDR then 0 else h.pool - HDR }

  /** A free block starts at s. */
  predicate FreeAt(bs: seq<Block>, s: int) {
    exists k :: 0 <= k < |bs| && bs[k].start == s && !bs[k].used
  }

  /** The free ring holds exactly the blocks that are not marked used, each once. */
  ghost predicate RingOk(bs: seq<Block>, ring: seq<int>) {
    Distinct(ring) && forall s :: s in ring <==> FreeAt(bs, s)
  }

  ghost predicate Inv(h: Heap) {
    && h.pool % ALIGN == 0 && 2 * HDR <= h.pool < WORD
    && Tiles(h.blocks, 0, End(h), HDR) && Coalesced(h.blocks)
    && RingOk(h.blocks, h.ring)
    && h.available == FreeRoom(h.blocks, HDR)
    && h.pool - h.available <= h.maxUsed
  }

  function Init(size: nat): Heap {
    var pool := size / ALIGN * ALIGN;
    Heap(pool, [Block(0, End(Heap(pool, [], [], 0, 0)), false)], [0], pool - 2 * HDR, 2 * HDR)
  }

  function Max(a: int, b: int): int { if a < b then b else a }

  /** RT_ALIGN in 32-bit arithmetic, and the smallest request. */
  function Request(n: nat): (size: nat)
    requires n < WORD
    ensures size % ALIGN == 0 && MINIALLOC <= size
    ensures n <= WORD - ALIGN ==> n <= size
  {
    Max((n + 3) % WORD / ALIGN * ALIGN, MINIALLOC)
  }

  // ----- rt_memheap_alloc

  /** MEMITEM_SIZE of the block at s. */
  function RoomAt(bs: seq<Block>, s: int): int {
    if s < 0 || IndexOf(bs, s) == |bs| then 0 else Room(bs[IndexOf(bs, s)], HDR)
  }

  /** The search loop over the free ring, from position k. */
  function FirstFit(bs: seq<Block>, ring: seq<int>, k: nat, size: nat): (i: nat)
    requires k <= |ring|
    ensures k <= i <= |ring|
    ensures forall j :: k <= j < i ==> RoomAt(bs, ring[j]) < size
    ensures i < |ring| ==> RoomAt(bs, ring[i]) >= size
    decreases |ring| - k
  {
    if k == |ring| then k
    else if RoomAt(bs, ring[k]) >= size then k
    else FirstFit(bs, ring, k + 1, size)
  }

  /** The block at position k of the free ring goes into use for a request of size bytes. */
  function Take(h: Heap, k: nat, size: nat): Heap
    requires k < |h.ring| && 0 <= h.ring[k] && IndexOf(h.blocks, h.ring[k]) < |h.blocks|
  {
    var i := IndexOf(h.blocks, h.ring[k]);
    var b := h.blocks[i];
    var at := b.start + HDR + size;
    var splits := Room(b, HDR) >= size + HDR + MINIALLOC;
    var marked := Mark(h.blocks, i, true);
    var rest := CircularList.Deleted(h.ring, k);
    var available := h.available - (if splits then size + HDR else Room(b, HDR));
    Heap(h.pool,
         if splits then Cut(marked, i, at) else marked,
         if splits then [at] + rest else rest,
         available, Max(h.maxUsed, h.pool - available))
  }

  function Alloc(h: Heap, n: nat): (Heap, Ptr)
    requires n < WORD && RingOk(h.blocks, h.ring)
  {
    var size := Request(n);
    if size >= h.available then (h, Null)
    else
      var k := FirstFit(h.blocks, h.ring, 0, size);
      if k == |h.ring| then (h, Null)
      else RingStart(h.blocks, h.ring, k); (Take(h, k, size), At(h.ring[k] + HDR))
  }

  lemma RingStart(bs: seq<Block>, ring: seq<int>, k: nat)
    requires RingOk(bs, ring) && k < |ring|
    ensures 0 <= ring[k] && IndexOf(bs, ring[k]) < |bs|
  {
    assert FreeAt(bs, ring[k]);
  }

  // ----- rt_memheap_free

  predicate Live(h: Heap, p: int) {
    HDR <= p && IndexOf(h.blocks, p - HDR) < |h.blocks| && h.blocks[IndexOf(h.blocks, p - HDR)].used
  }

  /** Block i swallows its right neighbour, which leaves the free ring. */
  function MergeRight(h: Heap, i: nat): Heap
    requires i + 1 < |h.blocks|
  {
    var k := Find(h.ring, h.blocks[i + 1].start);
    h.(blocks := Join(h.blocks, i),
       ring := if k < |h.ring| then CircularList.Deleted(h.ring, k) else h.ring,
       available := h.available + HDR)
  }

  /** Block i is no longer in use, and in no list yet. */
  function Release(h: Heap, i: nat): Heap
    requires i < |h.blocks|
  {
    h.(blocks := Mark(h.blocks, i, false), available := h.available + Room(h.blocks[i], HDR))
  }

  /** The block in front of i swallows it; block i is in no list. */
  function MergeLeft(h: Heap, i: nat): Heap
    requires 0 < i < |h.blocks|
  {
    h.(blocks := Join(h.blocks, i - 1), available := h.available + HDR)
  }

  function MergeFree(h: Heap, i: nat): Heap
    requires i < |h.blocks|
  {
    if i + 1 < |h.blocks| && !h.blocks[i + 1].used then MergeRight(h, i) else h
  }

  /** Used block i is freed: into the block in front of it, or to the head of the free ring. */
  function FreeBlock(h: Heap, i: nat): Heap
    requires i < |h.blocks|
  {
    var h1 := Release(h, i);
    if i > 0 && !h1.blocks[i - 1].used then MergeFree(MergeLeft(h1, i), i - 1)
    else
      var h2 := MergeFree(h1, i);
      h2.(ring := [h.blocks[i].start] + h2.ring)
  }

  function Free(h: Heap, p: int): Heap
    requires Live(h, p)
  {
    FreeBlock(h, IndexOf(h.blocks, p - HDR))
  }

  // ----- The shrinking path of rt_memheap_realloc

  /** Used block i keeps n bytes; the rest, joined with a free right neighbour, becomes a free block. */
  function Shrink(h: Heap, i: nat, n: nat): Heap
    requires i < |h.blocks|
  {
    var h2 := MergeFree(CutOff(h, i, n), i + 1);
    h2.(ring := [h.blocks[i].start + HDR + n] + h2.ring)
  }

  /** The rest of block i is a block of its own, in no list yet. */
  function CutOff(h: Heap, i: nat, n: nat): Heap
    requires i < |h.blocks|
  {
    var at := h.blocks[i].start + HDR + n;
    h.(blocks := Cut(h.blocks, i, at), available := h.available + (h.blocks[i].end - at - HDR))
  }

  // ----- Which blocks are free after a change of the layout

  lemma MarkFree(bs: seq<Block>, lo: nat, hi: nat, i: nat, used: bool, s: int)
    requires Tiles(bs, lo, hi, HDR) && i < |bs|
    ensures FreeAt(Mark(bs, i, used), s) <==> if s == bs[i].start then !used else FreeAt(bs, s)
  {
    hide Mark, Tiles;
    var bs' := Mark(bs, i, used);
    assert !used ==> !bs'[i].used;
    forall k | 0 <= k < |bs| && k != i ensures bs[k].start != bs[i].start && bs'[k] == bs[k] {
      StartsDiffer(bs, lo, hi, HDR, k, i);
    }
  }

  lemma CutFree(bs: seq<Block>, i: nat, at: nat, s: int)
    requires i < |bs| && bs[i].used
    ensures FreeAt(Cut(bs, i, at), s) <==> s == at || FreeAt(bs, s)
  {
    hide Cut;
    var bs' := Cut(bs, i, at);
    assert bs'[i + 1].start == at;
    if FreeAt(bs, s) {
      var k :| 0 <= k < |bs| && bs[k].start == s && !bs[k].used;
      assert bs'[if k < i then k else k + 1] == bs[k];
    }
    if FreeAt(bs', s) && s != at {
      var k :| 0 <= k < |bs'| && bs'[k].start == s && !bs'[k].used;
      assert bs[if k < i then k else k - 1] == bs'[k];
    }
  }

  lemma JoinFree(bs: seq<Block>, lo: nat, hi: nat, i: nat, s: int)
    requires Tiles(bs, lo, hi, HDR) && i + 1 < |bs| && !bs[i].used && !bs[i + 1].used
    ensures FreeAt(Join(bs, i), s) <==> FreeAt(bs, s) && s != bs[i + 1].start
  {
    hide Join, Tiles;
    var bs' := Join(bs, i);
    if FreeAt(bs, s) && s != bs[i + 1].start {
      var k :| 0 <= k < |bs| && bs[k].start == s && !bs[k].used;
      assert bs'[if k <= i then k else k - 1].start == s;
    }
    if FreeAt(bs', s) {
      var k :| 0 <= k < |bs'| && bs'[k].start == s && !bs'[k].used;
      var o := if k <= i then k else k + 1;
      assert bs[o].start == s && !bs[o].used;
      StartsDiffer(bs, lo, hi, HDR, o, i + 1);
    }
  }

  // ----- The invariant, while some free blocks are in no list

  ghost predicate RingBut(bs: seq<Block>, ring: seq<int>, out: set<int>) {
    Distinct(ring) && forall s :: s in ring <==> FreeAt(bs, s) && s !in out
  }

  ghost predicate HalfDone(h: Heap, out: set<int>) {
    && h.pool % ALIGN == 0 && 2 * HDR <= h.pool < WORD
    && Tiles(h.blocks, 0, End(h), HDR)
    && RingBut(h.blocks, h.ring, out)
    && h.available == FreeRoom(h.blocks, HDR)
  }

  lemma HalfDoneNothing(h: Heap)
    ensures Inv(h) ==> HalfDone(h, {})
    ensures HalfDone(h, {}) && Coalesced(h.blocks) && h.pool - h.available <= h.maxUsed ==> Inv(h)
  {
  }

  lemma ReleaseKeeps(h: Heap, i: nat)
    requires HalfDone(h, {}) && i < |h.blocks| && h.blocks[i].used
    ensures HalfDone(Release(h, i), {h.blocks[i].start})
    ensures Used(Release(h, i).blocks) == Used(h.blocks) - {h.blocks[i]}
  {
    hide Tiles, Mark, FreeAt, FreeRoom, Used, Distinct;
    var bs := h.blocks;
    MarkTiles(bs, 0, End(h), HDR, i, false);
    forall s ensures FreeAt(Mark(bs, i, false), s) <==> s == bs[i].start || FreeAt(bs, s) {
      MarkFree(bs, 0, End(h), i, false, s);
    }
    UsedNotFree(bs, 0, End(h), i);
  }

  lemma UsedNotFree(bs: seq<Block>, lo: nat, hi: nat, i: nat)
    requires Tiles(bs, lo, hi, HDR) && i < |bs| && bs[i].used
    ensures !FreeAt(bs, bs[i].start)
  {
    hide Tiles;
    forall k | 0 <= k < |bs| && k != i ensures bs[k].start != bs[i].start {
      StartsDiffer(bs, lo, hi, HDR, k, i);
    }
  }

  lemma FreeStarts(bs: seq<Block>, k: nat)
    requires k < |bs| && !bs[k].used
    ensures FreeAt(bs, bs[k].start)
  {
  }

  /** The released block goes into its left neighbour, which is in the ring already. */
  lemma MergeLeftKeeps(h: Heap, i: nat)
    requires 0 < i < |h.blocks| && !h.blocks[i].used && !h.blocks[i - 1].used
    requires HalfDone(h, {h.blocks[i].start})
    ensures HalfDone(MergeLeft(h, i), {}) && Used(MergeLeft(h, i).blocks) == Used(h.blocks)
  {
    hide Tiles, Join, FreeAt, FreeRoom, Used, Distinct;
    JoinTiles(h.blocks, 0, End(h), HDR, i - 1);
    forall s ensures s in h.ring <==> FreeAt(MergeLeft(h, i).blocks, s) && s !in {} {
      JoinFree(h.blocks, 0, End(h), i - 1, s);
    }
  }

  /** The right neighbour leaves the ring, whether block i is in it or not. */
  lemma MergeRightKeeps(h: Heap, i: nat, out: set<int>)
    requires i + 1 < |h.blocks| && !h.blocks[i].used && !h.blocks[i + 1].used
    requires HalfDone(h, out) && out <= {h.blocks[i].start}
    ensures HalfDone(MergeRight(h, i), out) && Used(MergeRight(h, i).blocks) == Used(h.blocks)
  {
    hide Tiles, Join, FreeAt, FreeRoom, Used, Distinct, CircularList.Deleted, Find;
    var bs, n := h.blocks, h.blocks[i + 1].start;
    JoinTiles(bs, 0, End(h), HDR, i);
    StartsDiffer(bs, 0, End(h), HDR, i, i + 1);
    FreeStarts(bs, i + 1);
    forall s ensures FreeAt(Join(bs, i), s) <==> FreeAt(bs, s) && s != n {
      JoinFree(bs, 0, End(h), i, s);
    }
    CircularList.DeletedMembers(h.ring, Find(h.ring, n));
  }

  lemma InsertKeeps(h: Heap, s: int)
    requires HalfDone(h, {s}) && FreeAt(h.blocks, s)
    ensures HalfDone(h.(ring := [s] + h.ring), {})
  {
    hide Tiles, FreeAt, FreeRoom;
  }

  // ----- Coalescing

  lemma LeftCoalesces(bs: seq<Block>, i: nat)
    requires 0 < i < |bs| && CoalescedBut(bs, i) && !bs[i].used && !bs[i - 1].used
    ensures CoalescedBut(Join(bs, i - 1), i - 1) && (i > 1 ==> bs[i - 2].used)
  {
    hide Join;
    var bs' := Join(bs, i - 1);
    forall a, b | 0 <= a && b == a + 1 && b < |bs'| && a != i - 1 && b != i - 1 ensures bs'[a].used || bs'[b].used {
      if b < i - 1 {
        assert bs[a].used || bs[b].used;
      } else {
        assert bs'[a] == bs[a + 1] && bs'[b] == bs[b + 1];
      }
    }
    if i > 1 {
      var a, b := i - 2, i - 1;
      assert b == a + 1 && bs[a].used;
    }
  }

  lemma MergeFreeCoalesces(h: Heap, i: nat)
    requires i < |h.blocks| && CoalescedBut(h.blocks, i) && !h.blocks[i].used && (i > 0 ==> h.blocks[i - 1].used)
    ensures Coalesced(MergeFree(h, i).blocks)
    ensures i < |MergeFree(h, i).blocks| && MergeFree(h, i).blocks[i].start == h.blocks[i].start
            && !MergeFree(h, i).blocks[i].used
  {
    hide Join, CircularList.Deleted, Find;
    if i + 1 < |h.blocks| && !h.blocks[i + 1].used {
      var bs, bs' := h.blocks, Join(h.blocks, i);
      forall a, b | 0 <= a && b == a + 1 && b < |bs'| ensures bs'[a].used || bs'[b].used {
        if b < i {
          assert bs[a].used || bs[b].used;
        } else if i <= a {
          var a', b' := a + 1, b + 1;
          assert bs'[b] == bs[b'] && (i < a ==> bs'[a] == bs[a']);
          assert bs[a'].used || bs[b'].used;
        }
      }
    }
  }

  lemma MergeFreeKeeps(h: Heap, i: nat, out: set<int>)
    requires i < |h.blocks| && !h.blocks[i].used && HalfDone(h, out) && out <= {h.blocks[i].start}
    ensures HalfDone(MergeFree(h, i), out) && Used(MergeFree(h, i).blocks) == Used(h.blocks)
    ensures MergeFree(h, i).available >= h.available && MergeFree(h, i).maxUsed == h.maxUsed
    ensures MergeFree(h, i).pool == h.pool
  {
    hide HalfDone, Join, Used;
    if i + 1 < |h.blocks| && !h.blocks[i + 1].used { MergeRightKeeps(h, i, out); }
  }

  // ----- The operations keep the invariant

  /** h' is h with block b no longer in use. */
  ghost predicate Released(h: Heap, h': Heap, b: Block) {
    Inv(h') && h'.pool == h.pool && Used(h'.blocks) == Used(h.blocks) - {b} && h'.maxUsed == h.maxUsed
  }

  lemma FreeKeeps(h: Heap, i: nat)
    requires Inv(h) && i < |h.blocks| && h.blocks[i].used
    ensures Released(h, FreeBlock(h, i), h.blocks[i])
  {
    hide Tiles, Mark, Join, FreeAt, FreeRoom, Used, CoalescedBut, Coalesced, RingBut, RingOk;
    HalfDoneNothing(h);
    ReleaseKeeps(h, i);
    Inside(h.blocks, 0, End(h), HDR, i);
    var h1 := Release(h, i);
    ReleaseCoalesced(h, i);
    if i > 0 && !h1.blocks[i - 1].used {
      MergeLeftKeeps(h1, i);
      LeftCoalesces(h1.blocks, i);
      var h2 := MergeLeft(h1, i);
      assert i > 1 ==> h2.blocks[i - 2].used;
      MergeFreeKeeps(h2, i - 1, {});
      MergeFreeCoalesces(h2, i - 1);
      HalfDoneNothing(FreeBlock(h, i));
    } else {
      MergeFreeKeeps(h1, i, {h.blocks[i].start});
      MergeFreeCoalesces(h1, i);
      FreeStarts(MergeFree(h1, i).blocks, i);
      InsertKeeps(MergeFree(h1, i), h.blocks[i].start);
      HalfDoneNothing(FreeBlock(h, i));
    }
  }

  lemma ReleaseCoalesced(h: Heap, i: nat)
    requires i < |h.blocks| && Coalesced(h.blocks)
    ensures CoalescedBut(Release(h, i).blocks, i)
  {
    hide Mark;
  }

  /** Where the block taken for a request ends. */
  function TakenEnd(b: Block, size: nat): nat {
    if Room(b, HDR) >= size + HDR + MINIALLOC then b.start + HDR + size else b.end
  }

  function Taken(b: Block, size: nat): Block { Block(b.start, TakenEnd(b, size), true) }

  lemma RingIndex(h: Heap, k: nat)
    requires Inv(h) && k < |h.ring|
    ensures 0 <= h.ring[k] && IndexOf(h.blocks, h.ring[k]) < |h.blocks|
    ensures !h.blocks[IndexOf(h.blocks, h.ring[k])].used
  {
    hide Tiles;
    assert h.ring[k] in h.ring && FreeAt(h.blocks, h.ring[k]);
    var i: nat :| i < |h.blocks| && h.blocks[i].start == h.ring[k] && !h.blocks[i].used;
    if IndexOf(h.blocks, h.ring[k]) != i {
      StartsDiffer(h.blocks, 0, End(h), HDR, i, IndexOf(h.blocks, h.ring[k]));
    }
  }

  /** The layout after an allocation: like before, with the free block replaced by the taken one and, after a
      split, a free rest. */
  lemma TakeLayout(h: Heap, k: nat, size: nat)
    requires Inv(h) && k < |h.ring| && RoomAt(h.blocks, h.ring[k]) >= size
    requires size % ALIGN == 0 && MINIALLOC <= size
    ensures 0 <= h.ring[k] && IndexOf(h.blocks, h.ring[k]) < |h.blocks|
    ensures var b, h' := h.blocks[IndexOf(h.blocks, h.ring[k])], Take(h, k, size);
            && Tiles(h'.blocks, 0, End(h'), HDR) && h'.available == FreeRoom(h'.blocks, HDR)
            && Used(h'.blocks) == Used(h.blocks) + {Taken(b, size)}
            && b in h.blocks && !b.used
  {
    hide Tiles, Mark, Cut, FreeRoom, Coalesced, CircularList.Deleted, RingOk, Used, UsedBytes;
    RingIndex(h, k);
    var i := IndexOf(h.blocks, h.ring[k]);
    RoomIs(h.blocks, h.ring[k]);
    Inside(h.blocks, 0, End(h), HDR, i);
    TakenTiles(h.blocks, 0, End(h), HDR, i, TakenEnd(h.blocks[i], size));
  }

  lemma RoomIs(bs: seq<Block>, s: int)
    requires 0 <= s && IndexOf(bs, s) < |bs|
    ensures RoomAt(bs, s) == Room(bs[IndexOf(bs, s)], HDR)
  {
  }

  lemma TakeRing(h: Heap, k: nat, size: nat)
    requires Inv(h) && k < |h.ring| && RoomAt(h.blocks, h.ring[k]) >= size
    ensures 0 <= h.ring[k] && IndexOf(h.blocks, h.ring[k]) < |h.blocks|
    ensures RingOk(Take(h, k, size).blocks, Take(h, k, size).ring)
  {
    hide Tiles, Mark, Cut, FreeRoom, FreeAt, Coalesced, CircularList.Deleted, Distinct;
    RingIndex(h, k);
    var i := IndexOf(h.blocks, h.ring[k]);
    var b, marked := h.blocks[i], Mark(h.blocks, i, true);
    var at := b.start + HDR + size;
    forall s ensures FreeAt(marked, s) <==> FreeAt(h.blocks, s) && s != b.start {
      MarkFree(h.blocks, 0, End(h), i, true, s);
    }
    CircularList.DeletedMembers(h.ring, k);
    if Room(b, HDR) >= size + HDR + MINIALLOC {
      forall s ensures FreeAt(Cut(marked, i, at), s) <==> s == at || FreeAt(marked, s) {
        CutFree(marked, i, at, s);
      }
      NotInside(h, i, at);
      PushDistinct(CircularList.Deleted(h.ring, k), at);
    }
  }

  lemma PushDistinct(ring: seq<int>, n: int)
    requires Distinct(ring) && n !in ring
    ensures Distinct([n] + ring)
  {
  }

  /** No block starts strictly inside another one. */
  lemma NotInside(h: Heap, i: nat, at: int)
    requires Inv(h) && i < |h.blocks| && h.blocks[i].start < at < h.blocks[i].end
    ensures !FreeAt(h.blocks, at)
  {
    hide Tiles, RingOk, Coalesced, FreeRoom;
    forall k | 0 <= k < |h.blocks| ensures h.blocks[k].start != at {
      if h.blocks[k] != h.blocks[i] {
        Inside(h.blocks, 0, End(h), HDR, k);
        Apart(h.blocks, 0, End(h), HDR, h.blocks[i], h.blocks[k]);
      }
    }
  }

  lemma TakeCoalesces(h: Heap, k: nat, size: nat)
    requires k < |h.ring| && 0 <= h.ring[k] && IndexOf(h.blocks, h.ring[k]) < |h.blocks| && Coalesced(h.blocks)
    requires !h.blocks[IndexOf(h.blocks, h.ring[k])].used
    ensures Coalesced(Take(h, k, size).blocks)
  {
    hide Mark, Cut, IndexOf;
    var i := IndexOf(h.blocks, h.ring[k]);
    var bs, bs' := h.blocks, Take(h, k, size).blocks;
    forall a, b | 0 <= a && b == a + 1 && b < |bs'| ensures bs'[a].used || bs'[b].used {
      if b < i {
        assert bs[a].used || bs[b].used;
      } else if i < a {
        var a', b' := a - (|bs'| - |bs|), b - (|bs'| - |bs|);
        assert bs'[b] == bs[b'] && (i < a' ==> bs'[a] == bs[a']);
        assert bs[a'].used || bs[b'].used;
      }
    }
  }

  /** h' is h with one more block in use: aligned, with at least size bytes of payload at address p, inside
      the pool and disjoint from every block that was in use. */
  ghost predicate Allocated(h: Heap, h': Heap, p: int, size: nat) {
    && Inv(h') && h'.pool == h.pool && p % ALIGN == 0
    && h'.maxUsed == Max(h.maxUsed, h'.pool - h'.available)
    && exists b :: b in h'.blocks && Used(h'.blocks) == Used(h.blocks) + {b} && b.used
         && b.start + HDR == p && size <= Room(b, HDR) && b.end <= End(h)
         && forall c :: c in Used(h.blocks) ==> c.end <= b.start || b.end <= c.start
  }

  lemma TakeKeeps(h: Heap, k: nat, size: nat)
    requires Inv(h) && k < |h.ring| && RoomAt(h.blocks, h.ring[k]) >= size
    requires size % ALIGN == 0 && MINIALLOC <= size
    ensures 0 <= h.ring[k] && IndexOf(h.blocks, h.ring[k]) < |h.blocks|
    ensures Allocated(h, Take(h, k, size), h.ring[k] + HDR, size)
  {
    RingIndex(h, k);
    TakeLayout(h, k, size);
    TakeRing(h, k, size);
    TakeCoalesces(h, k, size);
    hide Tiles, Mark, Cut, FreeRoom, FreeAt, Coalesced, RingOk, CircularList.Deleted, UsedBytes;
    var i := IndexOf(h.blocks, h.ring[k]);
    var b, t := h.blocks[i], Taken(h.blocks[i], size);
    Inside(h.blocks, 0, End(h), HDR, i);
    assert t in Used(Take(h, k, size).blocks);
    forall c | c in Used(h.blocks) ensures c.end <= t.start || t.end <= c.start {
      Apart(h.blocks, 0, End(h), HDR, b, c);
    }
  }

  lemma AllocKeeps(h: Heap, n: nat)
    requires n < WORD && Inv(h)
    ensures var (h', p) := Alloc(h, n);
            if p.Null? then h' == h else Allocated(h, h', p.off, Request(n))
  {
    hide Tiles, Take, Allocated, FreeRoom, Coalesced;
    if Alloc(h, n).1.At? {
      TakeKeeps(h, FirstFit(h.blocks, h.ring, 0, Request(n)), Request(n));
    }
  }

  /** An allocation fails exactly when the request is not below the total of free bytes, or no free block is
      large enough; in particular it fails when it would use up the last free block exactly. */
  lemma AllocFailsIff(h: Heap, n: nat)
    requires n < WORD && Inv(h)
    ensures Alloc(h, n).1.Null? <==>
              || Request(n) >= h.available
              || forall b :: b in h.blocks && !b.used ==> Room(b, HDR) < Request(n)
  {
    hide Tiles, Take, FreeRoom, Coalesced;
    var size := Request(n);
    var k := FirstFit(h.blocks, h.ring, 0, size);
    if size < h.available {
      if k < |h.ring| {
        RingIndex(h, k);
        assert h.blocks[IndexOf(h.blocks, h.ring[k])] in h.blocks;
      } else {
        forall b | b in h.blocks && !b.used ensures Room(b, HDR) < size {
          RoomOfFree(h, b);
        }
      }
    }
  }

  lemma RoomOfFree(h: Heap, b: Block)
    requires Inv(h) && b in h.blocks && !b.used
    ensures exists j :: 0 <= j < |h.ring| && h.ring[j] == b.start && RoomAt(h.blocks, h.ring[j]) == Room(b, HDR)
  {
    hide Tiles;
    var i :| 0 <= i < |h.blocks| && h.blocks[i] == b;
    assert FreeAt(h.blocks, b.start);
    var j :| 0 <= j < |h.ring| && h.ring[j] == b.start;
    if IndexOf(h.blocks, b.start) != i {
      StartsDiffer(h.blocks, 0, End(h), HDR, i, IndexOf(h.blocks, b.start));
    }
  }

  // ----- Shrinking

  lemma ShrinkWorks(h: Heap, i: nat, n: nat)
    requires Inv(h) && i < |h.blocks| && h.blocks[i].used
    requires n % ALIGN == 0 && n + HDR <= Room(h.blocks[i], HDR)
    ensures var h' := Shrink(h, i, n);
            && Inv(h') && h'.pool == h.pool && h'.maxUsed == h.maxUsed
            && Used(h'.blocks) == Used(h.blocks) - {h.blocks[i]} + {h.blocks[i].(end := h.blocks[i].start + HDR + n)}
  {
    hide Tiles, Cut, Join, FreeAt, FreeRoom, Used, CoalescedBut, Coalesced, HalfDone;
    var at, h1 := h.blocks[i].start + HDR + n, CutOff(h, i, n);
    Inside(h.blocks, 0, End(h), HDR, i);
    CutOffKeeps(h, i, n);
    CutCoalesced(h.blocks, i, at);
    MergeFreeKeeps(h1, i + 1, {at});
    MergeFreeCoalesces(h1, i + 1);
    FreeStarts(MergeFree(h1, i + 1).blocks, i + 1);
    InsertKeeps(MergeFree(h1, i + 1), at);
    HalfDoneNothing(Shrink(h, i, n));
  }

  /** rt_memheap_realloc shrinks without asking whether the rest has room for a header.  Its cut and what becomes of it
      are well formed exactly when it has; then the block keeps its front part. */
  lemma ShrinkKeeps(h: Heap, i: nat, n: nat)
    requires Inv(h) && i < |h.blocks| && h.blocks[i].used && n % ALIGN == 0 && n <= Room(h.blocks[i], HDR)
    ensures var h' := Shrink(h, i, n);
            && (Tiles(CutOff(h, i, n).blocks, 0, End(h), HDR) && Inv(h') <==> n + HDR <= Room(h.blocks[i], HDR))
            && (n + HDR <= Room(h.blocks[i], HDR) ==>
                  && h'.pool == h.pool && h'.maxUsed == h.maxUsed
                  && Used(h'.blocks)
                     == Used(h.blocks) - {h.blocks[i]} + {h.blocks[i].(end := h.blocks[i].start + HDR + n)})
  {
    hide Inv, Tiles, Shrink, Cut;
    ShrinkTilesIff(h, i, n);
    if n + HDR <= Room(h.blocks[i], HDR) { ShrinkWorks(h, i, n); }
  }

  /** The state after the merge alone is well formed also without that room when the right neighbour is free: then the
      border between the two blocks has moved. */
  lemma ShrunkIff(h: Heap, i: nat, n: nat)
    requires Inv(h) && i < |h.blocks| && h.blocks[i].used && n % ALIGN == 0 && n <= Room(h.blocks[i], HDR)
    ensures Inv(Shrink(h, i, n)) <==>
              n + HDR <= Room(h.blocks[i], HDR) || (i + 1 < |h.blocks| && !h.blocks[i + 1].used)
  {
    hide Tiles, Cut, RingOk, FreeRoom, Coalesced, Used;
    ShrinkTilesIff(h, i, n);
    if n + HDR <= Room(h.blocks[i], HDR) {
      ShrinkWorks(h, i, n);
    } else if i + 1 < |h.blocks| && !h.blocks[i + 1].used {
      BorderMoves(h, i, n);
    } else {
      assert Shrink(h, i, n).blocks == CutOff(h, i, n).blocks;
    }
  }

  /** The layout with the border between blocks i and i + 1 at another address. */
  function Moved(bs: seq<Block>, i: nat, at: nat): (r: seq<Block>)
    requires i + 1 < |bs|
    ensures |r| == |bs| && r[i] == bs[i].(end := at) && r[i + 1] == bs[i + 1].(start := at)
    ensures forall j :: 0 <= j < |bs| && j != i && j != i + 1 ==> r[j] == bs[j]
  {
    bs[..i] + [bs[i].(end := at), bs[i + 1].(start := at)] + bs[i + 2..]
  }

  lemma CutThenJoin(bs: seq<Block>, i: nat, at: nat)
    requires i + 1 < |bs| && !bs[i + 1].used
    ensures Join(Cut(bs, i, at), i + 1) == Moved(bs, i, at)
  {
    hide Cut, Join, Moved;
    var r := Join(Cut(bs, i, at), i + 1);
    assert forall j :: 0 <= j < |bs| ==> r[j] == Moved(bs, i, at)[j];
  }

  lemma MovedTiles(bs: seq<Block>, hi: nat, i: nat, at: nat)
    requires Tiles(bs, 0, hi, HDR) && i + 1 < |bs| && bs[i].used && !bs[i + 1].used
    requires at % ALIGN == 0 && bs[i].start + HDR <= at <= bs[i].end
    ensures Tiles(Moved(bs, i, at), 0, hi, HDR)
    ensures FreeRoom(Moved(bs, i, at), HDR) == FreeRoom(bs, HDR) + (bs[i].end - at)
  {
    Inside(bs, 0, hi, HDR, i);
    Inside(bs, 0, hi, HDR, i + 1);
    var mid, mid' := [bs[i], bs[i + 1]], [bs[i].(end := at), bs[i + 1].(start := at)];
    assert bs == bs[..i] + mid + bs[i + 2..];
    assert mid[1..] == [bs[i + 1]] && mid'[1..] == [bs[i + 1].(start := at)];
    assert mid[1..][1..] == [] && mid'[1..][1..] == [];
    Replaced(bs[..i], mid, mid', bs[i + 2..], 0, hi, HDR);
  }

  lemma MovedFree(bs: seq<Block>, hi: nat, i: nat, at: nat, s: int)
    requires Tiles(bs, 0, hi, HDR) && i + 1 < |bs| && bs[i].used && !bs[i + 1].used
    ensures FreeAt(Moved(bs, i, at), s) <==> s == at || (FreeAt(bs, s) && s != bs[i + 1].start)
  {
    hide Tiles, Moved;
    var r := Moved(bs, i, at);
    assert r[i + 1].start == at;
    if FreeAt(bs, s) && s != bs[i + 1].start {
      var k :| 0 <= k < |bs| && bs[k].start == s && !bs[k].used;
      assert r[k] == bs[k];
    }
    if FreeAt(r, s) && s != at {
      var k :| 0 <= k < |r| && r[k].start == s && !r[k].used;
      assert r[k] == bs[k];
      StartsDiffer(bs, 0, hi, HDR, k, i + 1);
    }
  }

  lemma MovedCoalesced(bs: seq<Block>, i: nat, at: nat)
    requires Coalesced(bs) && i + 1 < |bs|
    ensures Coalesced(Moved(bs, i, at))
  {
    hide Moved;
    assert forall j :: 0 <= j < |bs| ==> Moved(bs, i, at)[j].used == bs[j].used;
  }

  lemma BorderMoves(h: Heap, i: nat, n: nat)
    requires Inv(h) && i + 1 < |h.blocks| && h.blocks[i].used && !h.blocks[i + 1].used
    requires n % ALIGN == 0 && n <= Room(h.blocks[i], HDR)
    ensures Inv(Shrink(h, i, n)) && Shrink(h, i, n).blocks == Moved(h.blocks, i, h.blocks[i].start + HDR + n)
  {
    hide Tiles, Cut, Join, Moved, FreeAt, FreeRoom, Coalesced, Used, Distinct, Find, CircularList.Deleted;
    var bs, at, right := h.blocks, h.blocks[i].start + HDR + n, h.blocks[i + 1].start;
    Inside(bs, 0, End(h), HDR, i);
    CutThenJoin(bs, i, at);
    MovedTiles(bs, End(h), i, at);
    MovedCoalesced(bs, i, at);
    FreeStarts(bs, i + 1);
    CircularList.DeletedMembers(h.ring, Find(h.ring, right));
    forall s ensures FreeAt(Moved(bs, i, at), s) <==> s == at || (FreeAt(bs, s) && s != right) {
      MovedFree(bs, End(h), i, at, s);
    }
    AtBorder(bs, End(h), i, at);
    AddOne(CircularList.Deleted(h.ring, Find(h.ring, right)), at);
  }

  /** No free block but the right neighbour starts at the new border. */
  lemma AtBorder(bs: seq<Block>, hi: nat, i: nat, at: nat)
    requires Tiles(bs, 0, hi, HDR) && i + 1 < |bs| && bs[i].used && bs[i].start < at <= bs[i].end
    ensures FreeAt(bs, at) ==> at == bs[i + 1].start
  {
    hide Tiles;
    if FreeAt(bs, at) {
      var k :| 0 <= k < |bs| && bs[k].start == at && !bs[k].used;
      Inside(bs, 0, hi, HDR, i);
      Inside(bs, 0, hi, HDR, k);
      Apart(bs, 0, hi, HDR, bs[i], bs[k]);
    }
  }

  /** A block of 100 bytes is reallocated to the size it has: the cut leaves a block without a header. */
  lemma SameSizeExample()
    ensures var h := Init(240);
            && Inv(h)
            && var h1 := Alloc(h, 100).0;
               && Inv(h1) && Live(h1, HDR) && h1.blocks[0] == Block(0, 124, true)
               && CutOff(h1, 0, 100).blocks[1] == Block(124, 124, false)
               && !Tiles(CutOff(h1, 0, 100).blocks, 0, End(h1), HDR)
  {
    hide Inv, Tiles, Alloc;
    var h := Init(240);
    InitInv(240);
    AllocKeeps(h, 100);
    FirstBlock();
    ShrinkTilesIff(Alloc(h, 100).0, 0, 100);
  }

  lemma FirstBlock()
    requires Inv(Init(240))
    ensures RingOk(Init(240).blocks, Init(240).ring)
    ensures Alloc(Init(240), 100).0.blocks == [Block(0, 124, true), Block(124, 216, false)]
  {
    hide Tiles, Coalesced, FreeRoom, RingOk;
    var h := Init(240);
    assert IndexOf(h.blocks, 0) == 0 && RoomAt(h.blocks, 0) == 192;
    assert FirstFit(h.blocks, h.ring, 0, 100) == 0;
    assert Mark(h.blocks, 0, true) == [Block(0, 216, true)];
  }

  /** In the links of the block ring, the header behind the block then leads to itself, both ways. */
  lemma SameSizeLoops(next: map<int, int>, prev: map<int, int>, item: int)
    requires item in next && next[item] != item
    ensures var at := next[item];
            var prev1, next1 := prev[at := item], next[at := next[item]];
            var prev2 := prev1[next1[item] := at];
            var next2 := next1[item := at];
            next2[at] == at && prev2[at] == at
  {
  }

  lemma CutOffKeeps(h: Heap, i: nat, n: nat)
    requires Inv(h) && i < |h.blocks| && h.blocks[i].used
    requires n % ALIGN == 0 && n + HDR <= Room(h.blocks[i], HDR)
    ensures var at, h1 := h.blocks[i].start + HDR + n, CutOff(h, i, n);
            && HalfDone(h1, {at}) && h1.available >= h.available
            && Used(h1.blocks) == Used(h.blocks) - {h.blocks[i]} + {h.blocks[i].(end := at)}
  {
    hide Tiles, Cut, FreeAt, FreeRoom, Used, Coalesced, Distinct;
    var at, h1 := h.blocks[i].start + HDR + n, CutOff(h, i, n);
    Inside(h.blocks, 0, End(h), HDR, i);
    CutTiles(h.blocks, 0, End(h), HDR, i, at);
    NotInside(h, i, at);
    CutRing(h.blocks, h.ring, i, at);
  }

  lemma CutRing(bs: seq<Block>, ring: seq<int>, i: nat, at: nat)
    requires i < |bs| && bs[i].used && RingBut(bs, ring, {}) && !FreeAt(bs, at)
    ensures RingBut(Cut(bs, i, at), ring, {at})
  {
    hide Cut, FreeAt, Distinct;
    forall s ensures s in ring <==> FreeAt(Cut(bs, i, at), s) && s !in {at} {
      CutFree(bs, i, at, s);
    }
  }

  lemma CutCoalesced(bs: seq<Block>, i: nat, at: nat)
    requires i < |bs| && bs[i].used && Coalesced(bs)
    ensures CoalescedBut(Cut(bs, i, at), i + 1) && Cut(bs, i, at)[i].used
  {
    hide Cut;
    var bs' := Cut(bs, i, at);
    forall a, b | 0 <= a && b == a + 1 && b < |bs'| && a != i + 1 && b != i + 1 ensures bs'[a].used || bs'[b].used {
      if a < i {
        assert bs[a].used || bs[b].used;
      } else if i < a {
        var a', b' := a - 1, b - 1;
        assert bs'[a] == bs[a'] && bs'[b] == bs[b'];
        assert bs[a'].used || bs[b'].used;
      }
    }
  }

  /** The cut leaves a layout of the pool exactly when the rest has room for a header. */
  lemma ShrinkTilesIff(h: Heap, i: nat, n: nat)
    requires Inv(h) && i < |h.blocks| && h.blocks[i].used && n % ALIGN == 0 && n <= Room(h.blocks[i], HDR)
    ensures Tiles(Cut(h.blocks, i, h.blocks[i].start + HDR + n), 0, End(h), HDR) <==> n + HDR <= Room(h.blocks[i], HDR)
  {
    hide Tiles, Cut, FreeRoom, RingOk, Coalesced;
    CutTilesIff(h.blocks, End(h), i, h.blocks[i].start + HDR + n) by { Inside(h.blocks, 0, End(h), HDR, i); }
  }

  lemma CutTilesIff(bs: seq<Block>, hi: nat, i: nat, at: nat)
    requires Tiles(bs, 0, hi, HDR) && i < |bs| && bs[i].used
    requires at % ALIGN == 0 && bs[i].start + HDR <= at <= bs[i].end
    ensures Tiles(Cut(bs, i, at), 0, hi, HDR) <==> at + HDR <= bs[i].end
  {
    hide Tiles, Cut, FreeRoom, UsedBytes, Used;
    if at + HDR <= bs[i].end {
      CutTiles(bs, 0, hi, HDR, i, at);
    } else if Tiles(Cut(bs, i, at), 0, hi, HDR) {
      Inside(Cut(bs, i, at), 0, hi, HDR, i + 1);
    }
  }

  // ----- Free undoes alloc

  /** Freeing what was just allocated restores the layout, the count of free bytes and the set of blocks in
      the free ring. */
  lemma FreeUndoesAlloc(h: Heap, n: nat)
    requires n < WORD && Inv(h) && Alloc(h, n).1.At?
    ensures var (h1, p) := Alloc(h, n);
            && Live(h1, p.off)
            && var h2 := Free(h1, p.off);
               h2.blocks == h.blocks && h2.available == h.available && forall s :: s in h2.ring <==> s in h.ring
  {
    hide Tiles, FreeRoom, Coalesced, FreeAt, Alloc, Free, Allocated;
    var (h1, p) := Alloc(h, n);
    AllocKeeps(h, n);
    var b := FreshBlock(h, h1, p.off, Request(n));
    LiveBlock(h1, b);
    FreedSame(h, h1, b);
  }

  /** The block that an allocation puts into use. */
  lemma FreshBlock(h: Heap, h1: Heap, p: int, size: nat) returns (b: Block)
    requires Inv(h) && Allocated(h, h1, p, size)
    ensures b in h1.blocks && b.used && b.start + HDR == p && b !in Used(h.blocks)
    ensures Inv(h1) && h1.pool == h.pool && Used(h1.blocks) == Used(h.blocks) + {b}
  {
    hide Inv;
    b :| b in h1.blocks && Used(h1.blocks) == Used(h.blocks) + {b} && b.used
         && b.start + HDR == p && size <= Room(b, HDR) && b.end <= End(h)
         && forall c :: c in Used(h.blocks) ==> c.end <= b.start || b.end <= c.start;
  }

  lemma FreedSame(h: Heap, h1: Heap, b: Block)
    requires Inv(h) && Inv(h1) && h1.pool == h.pool && b in h1.blocks && b.used && b !in Used(h.blocks)
    requires Used(h1.blocks) == Used(h.blocks) + {b} && Live(h1, b.start + HDR)
    requires IndexOf(h1.blocks, b.start) < |h1.blocks| && h1.blocks[IndexOf(h1.blocks, b.start)] == b
    ensures var h2 := Free(h1, b.start + HDR);
            h2.blocks == h.blocks && h2.available == h.available && forall s :: s in h2.ring <==> s in h.ring
  {
    hide Tiles, FreeBlock, FreeRoom, Coalesced, FreeAt, Used;
    FreeKeeps(h1, IndexOf(h1.blocks, b.start));
    var h2 := Free(h1, b.start + HDR);
    assert Used(h2.blocks) == Used(h.blocks);
    Canonical(h2.blocks, h.blocks, 0, End(h), HDR);
  }

  lemma LiveBlock(h: Heap, b: Block)
    requires Inv(h) && b in h.blocks && b.used
    ensures IndexOf(h.blocks, b.start) < |h.blocks| && h.blocks[IndexOf(h.blocks, b.start)] == b
    ensures Live(h, b.start + HDR)
  {
    hide Tiles;
    var i :| 0 <= i < |h.blocks| && h.blocks[i] == b;
    if IndexOf(h.blocks, b.start) != i {
      StartsDiffer(h.blocks, 0, End(h), HDR, i, IndexOf(h.blocks, b.start));
    }
  }

  // ----- Whole runs

  datatype Op = DoAlloc(n: nat) | DoFree(p: int) | DoShrink(p: int, n: nat)

  /** Frees and shrinks of live payloads; a shrink leaves room for a header. */
  predicate Legal(h: Heap, op: Op) {
    match op
    case DoAlloc(n) => n < WORD
    case DoFree(p) => Live(h, p)
    case DoShrink(p, n) => Live(h, p) && n % ALIGN == 0 && n + HDR <= Room(h.blocks[IndexOf(h.blocks, p - HDR)], HDR)
  }

  function Step(h: Heap, op: Op): (h': Heap)
    requires Inv(h) && Legal(h, op)
    ensures Inv(h') && h'.pool == h.pool
  {
    match op
    case DoAlloc(n) => AllocKeeps(h, n); Alloc(h, n).0
    case DoFree(p) => FreeKeeps(h, IndexOf(h.blocks, p - HDR)); Free(h, p)
    case DoShrink(p, n) => ShrinkWorks(h, IndexOf(h.blocks, p - HDR), n); Shrink(h, IndexOf(h.blocks, p - HDR), n)
  }

  predicate LegalRun(h: Heap, ops: seq<Op>)
    requires Inv(h)
    decreases |ops|
  {
    ops != [] ==> Legal(h, ops[0]) && LegalRun(Step(h, ops[0]), ops[1..])
  }

  /** Every run of the heap keeps the invariant; in every reachable state the free ring and the layout agree. */
  function Run(h: Heap, ops: seq<Op>): (h': Heap)
    requires Inv(h) && LegalRun(h, ops)
    ensures Inv(h') && h'.pool == h.pool
    ensures forall b :: b in h'.blocks ==> (b.start in h'.ring <==> !b.used)
    decreases |ops|
  {
    if ops == [] then RingAgrees(h); h else Run(Step(h, ops[0]), ops[1..])
  }

  lemma RingAgrees(h: Heap)
    requires Inv(h)
    ensures forall b :: b in h.blocks ==> (b.start in h.ring <==> !b.used)
  {
    hide Tiles;
    forall b | b in h.blocks ensures b.start in h.ring <==> !b.used {
      var i :| 0 <= i < |h.blocks| && h.blocks[i] == b;
      if b.used { UsedNotFree(h.blocks, 0, End(h), i); } else { FreeStarts(h.blocks, i); }
    }
  }

  lemma InitInv(size: nat)
    requires 2 * HDR <= size / ALIGN * ALIGN && size < WORD
    ensures Inv(Init(size))
  {
    var h := Init(size);
    assert h.blocks[1..] == [];
    assert FreeRoom(h.blocks, HDR) == h.available;
    assert h.blocks[0].start == 0;
  }
}
