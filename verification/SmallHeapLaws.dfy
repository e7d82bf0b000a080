// What the first-fit heap promises, over single calls and over whole runs.
module SmallHeapLaws {
  import opened Layout
  import opened SmallHeap

  // ----- rt_malloc

  /** rt_malloc fails on a non-zero request exactly when no free block from lfree on is large enough,
      not counting a block of exactly the requested size that ends at heap_end. */
  lemma MallocFailsIff(h: Heap, n: nat)
    requires 0 < n < WORD && Inv(h)
    ensures Malloc(h, n).1.Null? <==>
              || Align32(n) > h.size
              || forall i :: IndexOf(h.blocks, h.lfree) <= i < |h.blocks| && Fits(h.blocks[i], Request(n))
                   ==> h.blocks[i].end == End(h) && Payload(h.blocks[i]) == Request(n)
  {
    hide Tiles, UsedBytes, Take;
    if Align32(n) <= h.size {
      var size := Request(n);
      var k := IndexOf(h.blocks, h.lfree);
      var i := FirstFit(h.blocks, k, h.size - size, size);
      forall j | 0 <= j < |h.blocks| ensures h.blocks[j].end <= End(h) {
        Inside(h.blocks, 0, End(h), HDR, j);
      }
      if i == |h.blocks| {
        NoFit(h.blocks, k, h.size - size, size, 0, End(h));
      } else {
        assert Fits(h.blocks[i], size) && !(h.blocks[i].end == End(h) && Payload(h.blocks[i]) == size);
      }
    }
  }

  /** When lfree is lowest the failure condition speaks about every free block of the heap. */
  lemma MallocFailsIffFull(h: Heap, n: nat)
    requires 0 < n < WORD && Inv(h) && LowestFree(h)
    ensures Malloc(h, n).1.Null? <==>
              || Align32(n) > h.size
              || forall b :: b in h.blocks && Fits(b, Request(n)) ==> b.end == End(h) && Payload(b) == Request(n)
  {
    hide Tiles, UsedBytes, Malloc;
    MallocFailsIff(h, n);
    var k := IndexOf(h.blocks, h.lfree);
    forall i | 0 <= i < |h.blocks| && Fits(h.blocks[i], Request(n)) ensures k <= i {
      if i < k {
        if k < |h.blocks| { Ordered(h.blocks, 0, End(h), HDR, i, k); }
        Inside(h.blocks, 0, End(h), HDR, i);
      }
    }
  }

  /** Block i is the first free block from lfree on with room for the request. */
  ghost predicate FirstThatFits(h: Heap, i: nat, size: nat) {
    && i < |h.blocks| && h.lfree <= h.blocks[i].start && Fits(h.blocks[i], size)
    && forall j :: 0 <= j < i && h.lfree <= h.blocks[j].start ==> !Fits(h.blocks[j], size)
  }

  /** What a successful rt_malloc makes of the layout: the new block starts where the first fitting free block from
      lfree on starts. It has exactly the size searched for when the rest makes a block of its own, which stays free;
      else it is that whole block, and then it is larger by less than a header and the smallest payload. No other block
      changes, and lfree stays unless it pointed to that block: then it moves on to the next free one. */
  lemma MallocIs(h: Heap, n: nat) returns (i: nat)
    requires n < WORD && Inv(h) && Malloc(h, n).1.At?
    ensures FirstThatFits(h, i, Request(n))
    ensures var (h', p) := Malloc(h, n);
            var a, size := h.blocks[i], Request(n);
            && p.off == a.start + HDR && Live(h', p.off)
            && var b := h'.blocks[BlockOf(h', p.off)];
               && b.start == a.start && size <= Payload(b) < size + HDR + MIN_SIZE
               && (Payload(a) >= size + HDR + MIN_SIZE ==>
                     && Payload(b) == size
                     && h'.blocks == h.blocks[..i] + [b, Block(b.end, a.end, false)] + h.blocks[i + 1..])
               && (Payload(a) < size + HDR + MIN_SIZE ==>
                     b.end == a.end && h'.blocks == h.blocks[..i] + [b] + h.blocks[i + 1..])
               && h'.used == h.used + (b.end - b.start)
  {
    hide Inv, Take;
    var size := Request(n);
    i := FirstFit(h.blocks, IndexOf(h.blocks, h.lfree), h.size - size, size);
    BeforeHint(h, i);
    TakeIs(h, i, size);
  }

  lemma TakeIs(h: Heap, i: nat, size: nat)
    requires Inv(h) && i < |h.blocks| && Fits(h.blocks[i], size) && size % ALIGN == 0 && MIN_SIZE <= size
    ensures h.blocks[i].start <= h.blocks[i].end
    ensures var a, h' := h.blocks[i], Take(h, i, size);
            && Live(h', a.start + HDR)
            && var b := h'.blocks[BlockOf(h', a.start + HDR)];
               && b.start == a.start && size <= Payload(b) < size + HDR + MIN_SIZE
               && (Payload(a) >= size + HDR + MIN_SIZE ==>
                     && Payload(b) == size
                     && h'.blocks == h.blocks[..i] + [b, Block(b.end, a.end, false)] + h.blocks[i + 1..])
               && (Payload(a) < size + HDR + MIN_SIZE ==>
                     b.end == a.end && h'.blocks == h.blocks[..i] + [b] + h.blocks[i + 1..])
               && h'.used == h.used + (b.end - b.start)
  {
    hide Tiles, UsedBytes, Coalesced, LastRoomy, NextFree, Mark, Cut, LfreeOk;
    Inside(h.blocks, 0, End(h), HDR, i);
    TakenLayout(h, i, size);
    TakeIndices(h, i, size);
    IndexIs(Take(h, i, size), i);
    TakeParts(h, i, size);
  }

  lemma TakeParts(h: Heap, i: nat, size: nat)
    requires i < |h.blocks| && h.blocks[i].start <= h.blocks[i].end && Fits(h.blocks[i], size)
    ensures var a, b := h.blocks[i], Taken(h.blocks[i], size);
            Take(h, i, size).blocks
            == h.blocks[..i] + (if b.end < a.end then [b, Block(b.end, a.end, false)] else [b]) + h.blocks[i + 1..]
  {
    hide NextFree;
    var marked := Mark(h.blocks, i, true);
    assert marked[..i] == h.blocks[..i] && marked[i + 1..] == h.blocks[i + 1..];
  }

  /** The blocks from lfree on are those from its index on. */
  lemma BeforeHint(h: Heap, i: nat)
    requires Inv(h) && IndexOf(h.blocks, h.lfree) <= i < |h.blocks|
    ensures h.lfree <= h.blocks[i].start
    ensures forall j :: 0 <= j < |h.blocks| && h.lfree <= h.blocks[j].start ==> IndexOf(h.blocks, h.lfree) <= j
  {
    hide UsedBytes, Coalesced, LastRoomy;
    Disjoint(h.blocks, 0, End(h), HDR);
    hide Tiles;
    var k := IndexOf(h.blocks, h.lfree);
    if k < |h.blocks| { assert h.blocks[k].start == h.lfree; }
  }

  /** Where lfree goes. */
  lemma MallocHint(h: Heap, n: nat)
    requires n < WORD && Inv(h) && Malloc(h, n).1.At?
    ensures var (h', p) := Malloc(h, n);
            if h.lfree != p.off - HDR then h'.lfree == h.lfree
            else
              && h.lfree < h'.lfree <= End(h)
              && (h'.lfree < End(h) ==> exists b :: b in h'.blocks && !b.used && b.start == h'.lfree)
              && forall b :: b in h'.blocks && !b.used && h.lfree < b.start ==> h'.lfree <= b.start
  {
    hide Tiles, UsedBytes, Coalesced, LastRoomy, Mark, Cut;
    var size := Request(n);
    var i := FirstFit(h.blocks, IndexOf(h.blocks, h.lfree), h.size - size, size);
    Inside(h.blocks, 0, End(h), HDR, i);
    TakenLayout(h, i, size);
    TakeIndices(h, i, size);
    if h.lfree == h.blocks[i].start { NextFreeLeast(Take(h, i, size).blocks, End(h), i); }
  }

  lemma NextFreeLeast(bs: seq<Block>, end: nat, i: nat)
    requires Tiles(bs, 0, end, HDR) && i < |bs| && bs[i].used
    ensures var off := NextFree(bs, i, end);
            && bs[i].start < off <= end
            && (off < end ==> exists b :: b in bs && !b.used && b.start == off)
            && forall b :: b in bs && !b.used && bs[i].start < b.start ==> off <= b.start
  {
    Disjoint(bs, 0, end, HDR);
    hide Tiles;
    var j := NextFreeIs(bs, i, end);
    forall b | b in bs && !b.used && bs[i].start < b.start ensures NextFree(bs, i, end) <= b.start {
      var k :| 0 <= k < |bs| && bs[k] == b;
      if j < k { assert bs[j].end <= bs[k].start; }
    }
    if j < |bs| { assert bs[j] in bs; }
  }

  /** The payload covers the request unless rounding it up overflows a 32-bit word. */
  lemma PayloadCoversRequestIff(h: Heap, n: nat)
    requires n < WORD && Inv(h) && Malloc(h, n).1.At?
    ensures var (h', p) := Malloc(h, n);
            Live(h', p.off) && (n <= Payload(h'.blocks[BlockOf(h', p.off)]) <==> n <= WORD - ALIGN)
  {
    hide Tiles, UsedBytes, Take, Malloc;
    MallocAllocates(h, n);
    var (h', p) := Malloc(h, n);
    MallocOfZero(h);
    Inside(h'.blocks, 0, End(h'), HDR, BlockOf(h', p.off));
  }

  lemma MallocOfZero(h: Heap)
    requires Inv(h)
    ensures Malloc(h, 0) == (h, Null)
  {
  }

  /** A request for almost the whole address space is served with a block of a few bytes. */
  lemma OversizedRequestExample()
    ensures var h := Init(64);
            Inv(h) && Malloc(h, 0xFFFF_FFFE).1 == At(HDR) && Payload(Malloc(h, 0xFFFF_FFFE).0.blocks[0]) == MIN_SIZE
  {
    var h := Init(64);
    InitInv(64);
    assert IndexOf(h.blocks, h.lfree) == 0;
    assert FirstFit(h.blocks, 0, 52, 12) == 0;
  }

  lemma InitInv(size: nat)
    requires size % ALIGN == 0 && MIN_SIZE <= size && size + 2 * HDR < WORD
    ensures Inv(Init(size)) && LowestFree(Init(size))
  {
    var h := Init(size);
    assert h.blocks[1..] == [];
    assert UsedBytes(h.blocks) == 0;
  }

  // ----- rt_free

  /** Freeing what rt_malloc just returned restores the layout and the count of used bytes, and
      restores lfree too when it was lowest. */
  lemma FreeUndoesMalloc(h: Heap, n: nat)
    requires n < WORD && Inv(h) && Malloc(h, n).1.At?
    ensures var (h1, p) := Malloc(h, n);
            Live(h1, p.off) && Free(h1, p).blocks == h.blocks && Free(h1, p).used == h.used
    ensures LowestFree(h) ==> Free(Malloc(h, n).0, Malloc(h, n).1).lfree == h.lfree
  {
    hide Tiles, UsedBytes, Malloc, Free;
    MallocAllocates(h, n);
    var (h1, p) := Malloc(h, n);
    var b := h1.blocks[BlockOf(h1, p.off)];
    FreeReleases(h1, p.off);
    var h2 := Free(h1, p);
    BlockProper(h1, p.off);
    if b in Used(h.blocks) { assert false; }
    Canonical(h2.blocks, h.blocks, 0, End(h), HDR);
    if LowestFree(h) {
      MallocKeepsLowest(h, n);
      LowestFreeUnique(h, h2);
    }
  }

  /** What rt_free does to a pointer: null and foreign pointers change nothing. A live block goes into the free block j,
      and lfree moves down to it when it starts below. */
  lemma FreeIs(h: Heap, p: Ptr) returns (j: nat)
    requires Inv(h) && Acceptable(h, p)
    ensures var h' := Free(h, p);
            if p.Null? || p.off < 0 || p.off >= h.size + HDR then h' == h
            else
              && j < |h'.blocks| && Live(h, p.off)
              && var b, c := h.blocks[BlockOf(h, p.off)], h'.blocks[j];
                 && !c.used && c.start <= b.start && b.end <= c.end
                 && Released(h, h', b)
                 && h'.lfree == if c.start < h.lfree then c.start else h.lfree
  {
    hide Inv, Released, FreeAt;
    j := 0;
    if p.At? && InArena(h, p.off) {
      FreeReleases(h, p.off);
      j := FreeHint(h, BlockOf(h, p.off));
    }
  }

  lemma FreeHint(h: Heap, i: nat) returns (j: nat)
    requires Inv(h) && i < |h.blocks| && h.blocks[i].used
    ensures var h' := FreeAt(h, i);
            && j < |h'.blocks|
            && var b, c := h.blocks[i], h'.blocks[j];
               && !c.used && c.start <= b.start && b.end <= c.end
               && h'.lfree == if c.start < h.lfree then c.start else h.lfree
  {
    hide Mark, Join, Coalesced, LastRoomy, UsedBytes;
    Disjoint(h.blocks, 0, End(h), HDR);
    hide Tiles;
    var k := IndexOf(h.blocks, h.lfree);
    assert k < |h.blocks| ==> h.blocks[k].start == h.lfree;
    j := if i > 0 && !h.blocks[i - 1].used then i - 1 else i;
  }

  lemma MallocKeepsLowest(h: Heap, n: nat)
    requires n < WORD && Inv(h) && LowestFree(h)
    ensures LowestFree(Malloc(h, n).0)
  {
    hide Tiles, UsedBytes, Take;
    if Malloc(h, n).1.At? {
      var size := Request(n);
      var i := FirstFit(h.blocks, IndexOf(h.blocks, h.lfree), h.size - size, size);
      TakeKeeps(h, i, size);
    }
  }

  lemma LowestFreeUnique(h: Heap, h': Heap)
    requires Inv(h) && Inv(h') && h.blocks == h'.blocks && h.size == h'.size
    requires LowestFree(h) && LowestFree(h')
    ensures h.lfree == h'.lfree
  {
    hide Tiles, UsedBytes;
    var i, j := IndexOf(h.blocks, h.lfree), IndexOf(h.blocks, h'.lfree);
    if i < |h.blocks| { Inside(h.blocks, 0, End(h), HDR, i); }
    if j < |h.blocks| { Inside(h.blocks, 0, End(h), HDR, j); }
  }

  // ----- rt_realloc

  /** In h' block b of h is replaced by the block with payload address p, which has room for size bytes
      and overlaps no other block in use; it is either a front part of b or disjoint from b. */
  ghost predicate Reallocated(h: Heap, h': Heap, b: Block, p: int, size: nat) {
    && Inv(h') && h'.size == h.size && Live(h', p)
    && var c := h'.blocks[BlockOf(h', p)];
       && Used(h'.blocks) == Used(h.blocks) - {b} + {c}
       && size <= Payload(c)
       && (forall d :: d in Used(h.blocks) - {b} ==> d.end <= c.start || c.end <= d.start)
       && (c.end <= b.start || b.end <= c.start || (c.start == b.start && c.end <= b.end))
  }

  /** What rt_realloc does to a live payload p: nothing, an in-place change of its block, or a move to a
      block that is disjoint from every block in use. */
  lemma ReallocOfLive(h: Heap, p: int, n: nat)
    requires n < WORD && Inv(h) && Live(h, p)
    ensures var (h', q) := Realloc(h, At(p), n);
            var b := h.blocks[BlockOf(h, p)];
            if q.Null? then h' == h else Reallocated(h, h', b, q.off, Align32(n))
  {
    hide Tiles, UsedBytes, Malloc, Free, FreeAt, Shrink;
    var newSize := Align32(n);
    var i := BlockOf(h, p);
    var b := h.blocks[i];
    Inside(h.blocks, 0, End(h), HDR, i);
    FreeReleases(h, p);
    if newSize <= h.size {
      if Payload(b) == newSize {
        StayDisjoint(h, i, b.end);
      } else if Shrinks(b, newSize) {
        ShrinkKeeps(h, i, newSize);
        StayDisjoint(h, i, b.start + HDR + newSize);
        LiveBlock(Shrink(h, i, newSize), b.(end := b.start + HDR + newSize));
      } else {
        MoveDisjoint(h, p, newSize);
      }
    }
  }

  /** rt_realloc, case by case. A size that does not fit the arena fails; a null pointer is a call of rt_malloc; a
      foreign pointer comes back. A live block of the wanted size stays, one that is larger by more than a header and
      the smallest payload is cut behind that size, and every other one moves to where rt_malloc finds room. */
  lemma ReallocIs(h: Heap, p: Ptr, n: nat)
    requires n < WORD && Inv(h) && Acceptable(h, p)
    ensures var r, size := Realloc(h, p, n), Align32(n);
            && (size > h.size ==> r == (h, Null))
            && (size <= h.size && p.Null? ==> r == Malloc(h, size))
            && (size <= h.size && p.At? && !(0 <= p.off < h.size + HDR) ==> r == (h, p))
            && (size <= h.size && p.At? && 0 <= p.off < h.size + HDR ==>
                  && Live(h, p.off)
                  && var b := h.blocks[BlockOf(h, p.off)];
                     if Payload(b) == size then r == (h, p)
                     else if Payload(b) > size + HDR + MIN_SIZE then r.1 == p && CutBehind(h, r.0, p.off, size)
                     else if Malloc(h, size).1.Null? then r == (h, Null)
                     else r.1 == Malloc(h, size).1 && MovedTo(h, r.0, p.off, r.1.off, size))
  {
    hide Inv, Tiles, Malloc, Free, FreeAt, Shrink;
    var size := Align32(n);
    if size <= h.size && p.At? && InArena(h, p.off) {
      var i := BlockOf(h, p.off);
      if Payload(h.blocks[i]) > size + HDR + MIN_SIZE {
        ShrinkIs(h, i, size);
      } else if Payload(h.blocks[i]) != size && Malloc(h, size).1.At? {
        MoveIs(h, p.off, size);
      }
    }
  }

  /** The block of payload address p keeps its start and gets a payload of size bytes; no other block in use changes. */
  ghost predicate CutBehind(h: Heap, h': Heap, p: int, size: nat)
    requires Live(h, p)
  {
    var b := h.blocks[BlockOf(h, p)];
    && Live(h', p) && h'.blocks[BlockOf(h', p)] == b.(end := p + size)
    && Used(h'.blocks) == Used(h.blocks) - {b} + {b.(end := p + size)}
    && h'.used == h.used - (Payload(b) - size) && h'.max == h.max
  }

  /** The block of p is out of use, and the one rt_malloc returned for q is in use in its place. */
  ghost predicate MovedTo(h: Heap, h': Heap, p: int, q: int, size: nat)
    requires Live(h, p) && size < WORD && Inv(h)
  {
    var (b, h1) := (h.blocks[BlockOf(h, p)], Malloc(h, size).0);
    && Live(h1, q) && Live(h', q) && h'.blocks[BlockOf(h', q)] == h1.blocks[BlockOf(h1, q)]
    && p != q && !Live(h', p)
    && Used(h'.blocks) == Used(h1.blocks) - {b}
    && h'.used == h1.used - (b.end - b.start) && h'.max == h1.max
  }

  lemma ShrinkIs(h: Heap, i: nat, n: nat)
    requires Inv(h) && i < |h.blocks| && h.blocks[i].used && n % ALIGN == 0 && Shrinks(h.blocks[i], n)
    requires Live(h, h.blocks[i].start + HDR) && BlockOf(h, h.blocks[i].start + HDR) == i
    ensures CutBehind(h, Shrink(h, i, n), h.blocks[i].start + HDR, n)
  {
    hide Tiles, UsedBytes, Coalesced, CoalescedBut, PlugHoles;
    TrimKeeps(h, i, n);
    TrimCoalesced(h, i, n);
    PlugHolesKeeps(Trim(h, i, n), i + 1);
    var h', b := Shrink(h, i, n), h.blocks[i];
    assert b.(end := b.start + HDR + n) in Used(h'.blocks);
    LiveBlock(h', b.(end := b.start + HDR + n));
  }

  lemma MoveIs(h: Heap, p: int, size: nat)
    requires size < WORD && size % ALIGN == 0 && Inv(h) && Live(h, p) && Malloc(h, size).1.At?
    ensures MovedTo(h, Move(h, p, size).0, p, Malloc(h, size).1.off, size)
  {
    hide Tiles, UsedBytes, Malloc, Free;
    var b := h.blocks[BlockOf(h, p)];
    var (h1, q) := Malloc(h, size);
    MallocAllocates(h, size);
    MallocKeepsLive(h, size, p);
    LiveBlock(h1, b);
    FreeReleases(h1, p);
    var h2 := Free(h1, At(p));
    var c := h1.blocks[BlockOf(h1, q.off)];
    BlockProper(h1, q.off);
    if c in Used(h.blocks) { assert false; }
    assert c in Used(h2.blocks);
    LiveBlock(h2, c);
    LiveIff(h2, p);
    if Live(h2, p) { LiveIff(h1, p); Gone(h1, b, p); }
  }

  /** Only one block starts at an address. */
  lemma Gone(h: Heap, b: Block, p: int)
    requires Tiles(h.blocks, 0, End(h), HDR) && b in Used(h.blocks) && b.start + HDR == p
    ensures forall c :: c in Used(h.blocks) && c.start + HDR == p ==> c == b
  {
    Disjoint(h.blocks, 0, End(h), HDR);
  }

  lemma StayDisjoint(h: Heap, i: nat, end: nat)
    requires Inv(h) && i < |h.blocks| && end <= h.blocks[i].end
    ensures forall d :: d in Used(h.blocks) - {h.blocks[i]} ==> d.end <= h.blocks[i].start || end <= d.start
  {
    forall d | d in Used(h.blocks) - {h.blocks[i]} ensures d.end <= h.blocks[i].start || end <= d.start {
      Apart(h.blocks, 0, End(h), HDR, h.blocks[i], d);
    }
  }

  /** A block in use is the block its payload address stands for. */
  lemma LiveBlock(h: Heap, b: Block)
    requires Tiles(h.blocks, 0, End(h), HDR) && b in Used(h.blocks)
    ensures Live(h, b.start + HDR) && h.blocks[BlockOf(h, b.start + HDR)] == b
  {
    var k :| 0 <= k < |h.blocks| && h.blocks[k] == b;
    IndexIs(h, k);
  }

  lemma MoveDisjoint(h: Heap, p: int, newSize: nat)
    requires newSize < WORD && newSize % ALIGN == 0 && Inv(h) && Live(h, p)
    ensures var (h', q) := Move(h, p, newSize);
            var b := h.blocks[BlockOf(h, p)];
            if q.Null? then h' == h else Reallocated(h, h', b, q.off, newSize) && q.off != p
  {
    hide Tiles, UsedBytes, Malloc, Free;
    var b := h.blocks[BlockOf(h, p)];
    var (h1, q) := Malloc(h, newSize);
    if q.At? {
      MallocAllocates(h, newSize);
      MallocKeepsLive(h, newSize, p);
      LiveBlock(h1, b);
      FreeReleases(h1, p);
      var h2 := Free(h1, At(p));
      var c := h1.blocks[BlockOf(h1, q.off)];
      BlockProper(h1, q.off);
      if c in Used(h.blocks) { assert false; }
      assert c in Used(h2.blocks);
      LiveBlock(h2, c);
    }
  }

  /** lfree never points inside a block in use. */
  lemma HintOutside(h: Heap, i: nat)
    requires Inv(h) && i < |h.blocks| && h.blocks[i].used
    ensures h.lfree < h.blocks[i].start || h.blocks[i].end <= h.lfree
  {
    hide Tiles, UsedBytes;
    var k := IndexOf(h.blocks, h.lfree);
    Inside(h.blocks, 0, End(h), HDR, i);
    if k < |h.blocks| {
      Inside(h.blocks, 0, End(h), HDR, k);
      Apart(h.blocks, 0, End(h), HDR, h.blocks[i], h.blocks[k]);
    }
  }

  /** The cut-off tail becomes block i + 1; lfree moves only if the tail merges with the block it points at. */
  lemma ShrinkTail(h: Heap, i: nat, n: nat)
    requires Inv(h) && i < |h.blocks| && h.blocks[i].used
    requires n % ALIGN == 0 && Shrinks(h.blocks[i], n)
    ensures var h' := Shrink(h, i, n);
            && i + 1 < |h'.blocks| && !h'.blocks[i + 1].used
            && h'.blocks[i + 1].start == h.blocks[i].start + HDR + n
            && (forall j :: 0 <= j < i ==> h'.blocks[j] == h.blocks[j])
            && h'.blocks[i].start == h.blocks[i].start && h'.blocks[i].used
            && h'.lfree == if h.lfree == h.blocks[i].end && h.lfree != End(h)
                           then h.blocks[i].start + HDR + n else h.lfree
  {
    hide Tiles, UsedBytes, Cut, Join, Used;
    Inside(h.blocks, 0, End(h), HDR, i);
    if i + 1 < |h.blocks| {
      Inside(h.blocks, 0, End(h), HDR, i + 1);
      IndexIs(h, i + 1);
    }
  }

  /** Shrinking in place keeps lfree lowest exactly when lfree was below the cut, or pointed at the
      right neighbour that the cut-off tail merges with. */
  lemma ShrinkKeepsLowestIff(h: Heap, i: nat, n: nat)
    requires Inv(h) && LowestFree(h) && i < |h.blocks| && h.blocks[i].used
    requires n % ALIGN == 0 && Shrinks(h.blocks[i], n)
    ensures LowestFree(Shrink(h, i, n)) <==>
              || h.lfree < h.blocks[i].start + HDR + n
              || (h.lfree == h.blocks[i].end && h.lfree != End(h))
  {
    hide Tiles, UsedBytes, Shrink, Used;
    var h' := Shrink(h, i, n);
    ShrinkTail(h, i, n);
    ShrinkKeeps(h, i, n);
    HintOutside(h, i);
    if h'.lfree <= h'.blocks[i + 1].start {
      Inside(h'.blocks, 0, End(h), HDR, i + 1);
      forall j | 0 <= j < |h'.blocks| && h'.blocks[j].start < h'.lfree ensures h'.blocks[j].used {
        if j > i + 1 { Ordered(h'.blocks, 0, End(h), HDR, i + 1, j); }
        if j < i { Inside(h.blocks, 0, End(h), HDR, j); Ordered(h.blocks, 0, End(h), HDR, j, i); }
      }
    }
  }

  /** Two blocks are allocated and the first is shrunk: the free block behind it lies below lfree. */
  lemma ShrinkExample()
    ensures var h0 := Init(256);
            && Inv(h0) && LowestFree(h0)
            && var h1 := Malloc(h0, 100).0;
               && Inv(h1)
               && var h2 := Malloc(h1, 12).0;
                  && Inv(h2) && LowestFree(h2) && Live(h2, HDR)
                  && var h3 := Realloc(h2, At(HDR), 12).0;
                     h3.lfree == 136 && |h3.blocks| > 1 && h3.blocks[1] == Block(24, 112, false) && !LowestFree(h3)
  {
    var h0 := Init(256);
    InitInv(256);
    MallocInv(h0, 100);
    FirstMalloc();
    var h1 := Malloc(h0, 100).0;
    MallocInv(h1, 12);
    SecondMalloc(h1);
    ThirdCall(Malloc(h1, 12).0);
  }

  lemma MallocInv(h: Heap, n: nat)
    requires Inv(h) && n < WORD && LowestFree(h)
    ensures Inv(Malloc(h, n).0) && LowestFree(Malloc(h, n).0)
  {
    hide Tiles, UsedBytes, Take;
    if Malloc(h, n).1.At? { MallocAllocates(h, n); }
    MallocKeepsLowest(h, n);
  }

  lemma FirstMalloc()
    requires Inv(Init(256))
    ensures Malloc(Init(256), 100).0 == Heap(256, [Block(0, 112, true), Block(112, 268, false)], 112, 112, 112)
  {
    var h0 := Init(256);
    assert IndexOf(h0.blocks, 0) == 0 && FirstFit(h0.blocks, 0, 156, 100) == 0;
    var marked := Mark(h0.blocks, 0, true);
    assert marked == [Block(0, 268, true)];
    var bs := Cut(marked, 0, 112);
    assert bs == [Block(0, 112, true), Block(112, 268, false)];
    assert NextFree(bs, 1, 268) == 112;
  }

  lemma SecondMalloc(h: Heap)
    requires h == Heap(256, [Block(0, 112, true), Block(112, 268, false)], 112, 112, 112) && Inv(h)
    ensures Malloc(h, 12).0
            == Heap(256, [Block(0, 112, true), Block(112, 136, true), Block(136, 268, false)], 136, 136, 136)
  {
    assert h.blocks[1..][0].start == 112;
    assert IndexOf(h.blocks[1..], 112) == 0;
    assert IndexOf(h.blocks, 112) == 1 && FirstFit(h.blocks, 1, 244, 12) == 1;
    var marked := Mark(h.blocks, 1, true);
    assert marked == [Block(0, 112, true), Block(112, 268, true)];
    var bs := Cut(marked, 1, 136);
    assert bs == [Block(0, 112, true), Block(112, 136, true), Block(136, 268, false)];
    assert NextFree(bs, 2, 268) == 136;
  }

  lemma ThirdCall(h: Heap)
    requires h == Heap(256, [Block(0, 112, true), Block(112, 136, true), Block(136, 268, false)], 136, 136, 136)
    requires Inv(h)
    ensures Live(h, HDR)
    ensures var h' := Realloc(h, At(HDR), 12).0;
            h'.lfree == 136 && |h'.blocks| > 1 && h'.blocks[1] == Block(24, 112, false) && !LowestFree(h')
  {
    hide Inv, Malloc;
    assert IndexOf(h.blocks, 0) == 0;
    var t := Trim(h, 0, 12);
    assert t.blocks == [Block(0, 24, true), Block(24, 112, false), Block(112, 136, true), Block(136, 268, false)];
    assert PlugHoles(t, 1).blocks[1] == Block(24, 112, false);
  }

  // ----- Whole runs

  datatype Op = DoMalloc(n: nat) | DoFree(p: Ptr) | DoRealloc(p: Ptr, n: nat)

  /** A call the client may make: sizes are words, pointers are null, foreign or live. */
  predicate Legal(h: Heap, op: Op) {
    match op
    case DoMalloc(n) => n < WORD
    case DoFree(p) => Acceptable(h, p)
    case DoRealloc(p, n) => Acceptable(h, p) && n < WORD
  }

  function Step(h: Heap, op: Op): (h': Heap)
    requires Inv(h) && Legal(h, op)
    ensures Inv(h') && h'.size == h.size
    ensures LowestFree(h) && !op.DoRealloc? ==> LowestFree(h')
  {
    StepKeeps(h, op);
    match op
    case DoMalloc(n) => Malloc(h, n).0
    case DoFree(p) => Free(h, p)
    case DoRealloc(p, n) => Realloc(h, p, n).0
  }

  lemma StepKeeps(h: Heap, op: Op)
    requires Inv(h) && Legal(h, op)
    ensures match op
            case DoMalloc(n) =>
              var h' := Malloc(h, n).0;
              Inv(h') && h'.size == h.size && (LowestFree(h) ==> LowestFree(h'))
            case DoFree(p) =>
              var h' := Free(h, p);
              Inv(h') && h'.size == h.size && (LowestFree(h) ==> LowestFree(h'))
            case DoRealloc(p, n) => Inv(Realloc(h, p, n).0) && Realloc(h, p, n).0.size == h.size
  {
    hide Tiles, UsedBytes, Take, FreeAt, Shrink, Move;
    match op
    case DoMalloc(n) =>
      if Malloc(h, n).1.At? { MallocAllocates(h, n); }
      if LowestFree(h) { MallocKeepsLowest(h, n); }
    case DoFree(p) =>
      if p.At? && InArena(h, p.off) { FreeReleases(h, p.off); }
    case DoRealloc(p, n) =>
      if p.At? && InArena(h, p.off) {
        ReallocOfLive(h, p.off, n);
      } else if p.Null? && Malloc(h, Align32(n)).1.At? {
        MallocAllocates(h, Align32(n));
      }
  }

  /** Every call of the run is legal in the state it is made in. */
  predicate LegalRun(h: Heap, ops: seq<Op>)
    requires Inv(h)
    decreases |ops|
  {
    ops != [] ==> Legal(h, ops[0]) && LegalRun(Step(h, ops[0]), ops[1..])
  }

  function Run(h: Heap, ops: seq<Op>): (h': Heap)
    requires Inv(h) && LegalRun(h, ops)
    ensures Inv(h') && h'.size == h.size
    decreases |ops|
  {
    if ops == [] then h else Run(Step(h, ops[0]), ops[1..])
  }

  /** In a run without realloc, lfree stays the lowest free block. */
  lemma {:induction false} RunKeepsLowest(h: Heap, ops: seq<Op>)
    requires Inv(h) && LegalRun(h, ops) && LowestFree(h)
    requires forall op :: op in ops ==> !op.DoRealloc?
    ensures LowestFree(Run(h, ops))
    decreases |ops|
  {
    hide Inv, Step, LowestFree, Legal;
    if ops != [] {
      RunKeepsLowest(Step(h, ops[0]), ops[1..]);
    }
  }

  /** The most bytes in use while a call is under way: a realloc that moves its block holds both for a while. */
  function During(h: Heap, op: Op): int
    requires Inv(h) && Legal(h, op)
  {
    if op.DoRealloc? && Align32(op.n) <= h.size && op.p.At? && InArena(h, op.p.off)
       && Payload(h.blocks[BlockOf(h, op.p.off)]) != Align32(op.n)
       && !Shrinks(h.blocks[BlockOf(h, op.p.off)], Align32(op.n))
    then Malloc(h, Align32(op.n)).0.used
    else h.used
  }

  /** The most bytes in use at any point of the run; used is the sum over the used blocks, by Inv. */
  function Peak(h: Heap, ops: seq<Op>): int
    requires Inv(h) && LegalRun(h, ops)
    decreases |ops|
  {
    if ops == [] then h.used else Max(During(h, ops[0]), Max(h.used, Peak(Step(h, ops[0]), ops[1..])))
  }

  /** max_mem is the running maximum of the bytes in use, in every run. */
  lemma {:induction false} MaxIsPeak(h: Heap, ops: seq<Op>)
    requires Inv(h) && LegalRun(h, ops)
    ensures Run(h, ops).max == Max(h.max, Peak(h, ops))
    decreases |ops|
  {
    hide Step, Legal, Tiles, UsedBytes, Coalesced, During;
    if ops != [] {
      StepMax(h, ops[0]);
      MaxIsPeak(Step(h, ops[0]), ops[1..]);
    }
  }

  lemma StepMax(h: Heap, op: Op)
    requires Inv(h) && Legal(h, op)
    ensures Step(h, op).max == Max(h.max, Max(During(h, op), Step(h, op).used))
  {
    hide Tiles, UsedBytes, Take, Shrink, FreeAt;
    match op
    case DoMalloc(n) => if Malloc(h, n).1.At? { MallocAllocates(h, n); }
    case DoFree(p) => if p.At? && InArena(h, p.off) { FreeReleases(h, p.off); BlockProper(h, p.off); }
    case DoRealloc(p, n) => ReallocMax(h, p, n);
  }

  lemma BlockProper(h: Heap, p: int)
    requires Inv(h) && Live(h, p)
    ensures h.blocks[BlockOf(h, p)].start < h.blocks[BlockOf(h, p)].end
  {
    Inside(h.blocks, 0, End(h), HDR, BlockOf(h, p));
  }

  lemma ReallocMax(h: Heap, p: Ptr, n: nat)
    requires Inv(h) && Acceptable(h, p) && n < WORD
    ensures var h' := Realloc(h, p, n).0;
            h'.max == Max(h.max, Max(During(h, DoRealloc(p, n)), h'.used))
  {
    hide Tiles, UsedBytes, Take, FreeAt, Shrink, Malloc, Free;
    var newSize := Align32(n);
    if Malloc(h, newSize).1.At? { MallocAllocates(h, newSize); } else { MallocFailure(h, newSize); }
    if newSize <= h.size && p.At? && InArena(h, p.off) {
      var i := BlockOf(h, p.off);
      if Shrinks(h.blocks[i], newSize) {
        ShrinkKeeps(h, i, newSize);
        ShrinkUses(h, i, newSize);
      } else if Malloc(h, newSize).1.At? {
        MallocKeepsLive(h, newSize, p.off);
        FreeReleases(Malloc(h, newSize).0, p.off);
        BlockProper(Malloc(h, newSize).0, p.off);
      }
    }
  }

  lemma ShrinkUses(h: Heap, i: nat, n: nat)
    requires Inv(h) && i < |h.blocks| && h.blocks[i].used && n % ALIGN == 0 && Shrinks(h.blocks[i], n)
    ensures Shrink(h, i, n).used <= h.used
  {
    hide Tiles, UsedBytes, Coalesced, CoalescedBut, PlugHoles;
    TrimKeeps(h, i, n);
    TrimCoalesced(h, i, n);
    PlugHolesKeeps(Trim(h, i, n), i + 1);
  }

  lemma MallocFailure(h: Heap, n: nat)
    requires n < WORD && Inv(h) && Malloc(h, n).1.Null?
    ensures Malloc(h, n).0 == h
  {
  }

  // ----- The smallest arena

  /** Where the search of a fresh heap of the given size stands after k rounds: it leaves the first block
      for heap_end, whose next field is heap_end. */
  function ScanAt(size: nat, k: nat): nat {
    if k == 0 then 0 else size + HDR
  }

  /** The loop guard in unsigned arithmetic, where size - request can wrap. */
  predicate ScanStops(size: nat, n: nat, k: nat)
    requires n < WORD
  {
    || (size - Request(n)) % WORD <= ScanAt(size, k)
    || (k == 0 && Fits(Block(0, size + HDR, false), Request(n)))
  }

  /** On a fresh heap the search for an admissible request ends exactly when the arena has room for the
      smallest block: below that the subtraction wraps and the loop stays on heap_end. */
  lemma SearchEndsIff(size: nat, n: nat)
    requires size % ALIGN == 0 && size + 2 * HDR < WORD - MIN_SIZE
    requires 0 < n < WORD && Align32(n) <= size
    ensures (exists k: nat :: ScanStops(size, n, k)) <==> MIN_SIZE <= size
  {
    if MIN_SIZE <= size {
      assert ScanStops(size, n, 1);
    } else {
      forall k: nat ensures !ScanStops(size, n, k) {
        assert (size - MIN_SIZE) % WORD == size - MIN_SIZE + WORD;
      }
    }
  }
}
