// What each operation of thread_pool/rt-thread/src/memheap.c makes of the blocks and of the free ring.
module MemHeapLaws {
  import opened Layout
  import opened Lists
  import opened MemHeap
  import CircularList

  /** The room of the free block that stands at position k of the ring. */
  function RingRoom(h: Heap, k: nat): int
    requires Inv(h) && k < |h.ring|
  {
    RingIndex(h, k); Room(h.blocks[IndexOf(h.blocks, h.ring[k])], HDR)
  }

  /** Block i, at position k of the ring, has gone into use. When the rest makes a block of its own the new block has
      exactly the size asked for, and the rest goes to the head of the ring; else the whole block goes into use, and is
      larger by less than a header and the smallest allocation. */
  ghost predicate TakenFrom(h: Heap, h': Heap, k: nat, i: nat, size: nat)
    requires k < |h.ring| && i < |h.blocks|
  {
    var (a, rest) := (h.blocks[i], h.ring[..k] + h.ring[k + 1..]);
    if Room(a, HDR) >= size + HDR + MINIALLOC then
      var at := a.start + HDR + size;
      && h'.blocks == h.blocks[..i] + [Block(a.start, at, true), Block(at, a.end, false)] + h.blocks[i + 1..]
      && h'.ring == [at] + rest && h'.available == h.available - size - HDR
    else
      && h'.blocks == h.blocks[..i] + [Block(a.start, a.end, true)] + h.blocks[i + 1..]
      && h'.ring == rest && h'.available == h.available - Room(a, HDR)
  }

  /** A successful allocation takes the first block of the free ring that has room. */
  lemma AllocIs(h: Heap, n: nat) returns (k: nat, i: nat)
    requires n < WORD && Inv(h) && Alloc(h, n).1.At?
    ensures k < |h.ring| && i < |h.blocks| && h.blocks[i].start == h.ring[k] && !h.blocks[i].used
    ensures Room(h.blocks[i], HDR) >= Request(n) && forall j :: 0 <= j < k ==> RingRoom(h, j) < Request(n)
    ensures Alloc(h, n).1 == At(h.blocks[i].start + HDR) && TakenFrom(h, Alloc(h, n).0, k, i, Request(n))
  {
    hide Inv, Tiles, FirstFit, TakenFrom, Take;
    var size := Request(n);
    k := FirstFit(h.blocks, h.ring, 0, size);
    RingIndex(h, k);
    i := IndexOf(h.blocks, h.ring[k]);
    forall j | 0 <= j < k ensures RingRoom(h, j) < size { RingIndex(h, j); }
    TakeIs(h, k, size);
  }

  lemma TakeIs(h: Heap, k: nat, size: nat)
    requires k < |h.ring| && 0 <= h.ring[k] && IndexOf(h.blocks, h.ring[k]) < |h.blocks|
    ensures TakenFrom(h, Take(h, k, size), k, IndexOf(h.blocks, h.ring[k]), size)
  {
    hide IndexOf, Mark, Cut;
    var i := IndexOf(h.blocks, h.ring[k]);
    CutMarked(h.blocks, i, h.blocks[i].start + HDR + size);
  }

  lemma CutMarked(bs: seq<Block>, i: nat, at: nat)
    requires i < |bs|
    ensures Mark(bs, i, true) == bs[..i] + [Block(bs[i].start, bs[i].end, true)] + bs[i + 1..]
    ensures Cut(Mark(bs, i, true), i, at)
            == bs[..i] + [Block(bs[i].start, at, true), Block(at, bs[i].end, false)] + bs[i + 1..]
  {
    var marked := Mark(bs, i, true);
    assert marked[..i] == bs[..i] && marked[i + 1..] == bs[i + 1..];
  }

  /** The ring without the right neighbour of block i, if that one is free. */
  function WithoutRight(h: Heap, i: nat): seq<int>
    requires i < |h.blocks|
  {
    if i + 1 < |h.blocks| && !h.blocks[i + 1].used then Drop(h.ring, h.blocks[i + 1].start) else h.ring
  }

  /** What a free does to the ring: a free right neighbour leaves it.  The block goes to the head of the ring, unless it
      becomes a part of the free block in front of it, which stays where it is. */
  lemma FreeRing(h: Heap, i: nat)
    requires Inv(h) && i < |h.blocks| && h.blocks[i].used
    ensures FreeBlock(h, i).ring
            == if i > 0 && !h.blocks[i - 1].used then WithoutRight(h, i) else [h.blocks[i].start] + WithoutRight(h, i)
  {
    hide Tiles, RingOk, Find, FreeRoom, Coalesced;
    if i + 1 < |h.blocks| && !h.blocks[i + 1].used { DropIs(h, i); }
  }

  lemma DropIs(h: Heap, i: nat)
    requires Inv(h) && i + 1 < |h.blocks| && !h.blocks[i + 1].used
    ensures var k := Find(h.ring, h.blocks[i + 1].start);
            k < |h.ring| && CircularList.Deleted(h.ring, k) == Drop(h.ring, h.blocks[i + 1].start)
  {
    hide Tiles, Find, FreeRoom, Coalesced;
    FreeStarts(h.blocks, i + 1);
  }

  /** What shrinking in place does to the ring: the rest of the block goes to its head, and a free right neighbour,
      which becomes a part of that rest, leaves it. */
  lemma ShrinkRing(h: Heap, i: nat, n: nat)
    requires Inv(h) && i < |h.blocks| && h.blocks[i].used
    ensures Shrink(h, i, n).ring == [h.blocks[i].start + HDR + n] + WithoutRight(h, i)
  {
    hide Tiles, RingOk, Find, FreeRoom, Coalesced;
    if i + 1 < |h.blocks| && !h.blocks[i + 1].used { DropIs(h, i); }
  }
}
