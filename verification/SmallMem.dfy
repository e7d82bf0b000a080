// The code of thread_pool/rt-thread/src/mem.c: headers linked by offsets, bytes
// in one arena, and the globals lfree, used_mem and max_mem.
module SmallMem {
  import opened Layout
  import opened SmallHeap
  import opened Bytes
  import opened HeapMemory
  import opened SmallHeapLaws

  class Memory {
    const size: nat          // mem_size_aligned
    const mem: array<byte>   // the arena, from heap_ptr to the end of heap_end
    var hdr: map<nat, Header>
    var lfree: nat
    var usedMem: int
    var maxMem: int
    ghost var blocks: seq<Block>

    ghost function View(): Heap
      reads this
    {
      Heap(size, blocks, lfree, usedMem, maxMem)
    }

    /** The headers in memory form the chain of the layout. */
    ghost predicate Chained()
      reads this, mem
    {
      && mem.Length == size + 2 * HDR
      && Tiles(blocks, 0, size + HDR, HDR)
      && Represents(hdr, blocks, size)
      && Imaged(mem[..], hdr, blocks)
    }

    ghost predicate Valid()
      reads this, mem
    {
      Chained() && Inv(View())
    }

    /** Writes a header: its fields, and its bytes. */
    method Store(p: nat, h: Header)
      requires p + HDR <= mem.Length
      modifies this`hdr, mem
      ensures hdr == old(hdr)[p := h]
      ensures mem[..] == Put(old(mem[..]), p, h)
    {
      var bytes := Encode(h);
      for k := 0 to HDR
        invariant hdr == old(hdr)
        invariant forall j :: 0 <= j < mem.Length ==>
          mem[j] == if p <= j < p + k then bytes[j - p] else old(mem[j])
      {
        mem[p + k] := bytes[k];
      }
      hdr := hdr[p := h];
    }

    /** Sets the used and magic fields of the header at m. */
    method MarkBlock(m: nat, used: bool, magic: nat, ghost i: nat)
      requires Chained() && i < |blocks| && m == blocks[i].start && (used ==> magic == MAGIC)
      modifies this`hdr, this`blocks, mem
      ensures Chained() && blocks == Mark(old(blocks), i, used)
      ensures Kept(old(mem[..]), mem[..], Used(old(blocks)))
    {
      hide Represents, Imaged, Kept, Put, Encode, Mark, Used, Tiles;
      var u := if used then 1 else 0;
      MarkLinks(hdr, blocks, size, i, used, magic);
      MarkStores(mem[..], hdr, blocks, size, i, hdr[m].(used := u, magic := magic), used);
      MarkTiles(blocks, 0, size + HDR, HDR, i, used);
      Store(m, hdr[m].(used := u, magic := magic));
      blocks := Mark(blocks, i, used);
    }

    // ----- plug_holes

    /** Merges the free block at m with its free right neighbour n. */
    method Merge(m: nat, n: nat, ghost i: nat)
      requires Chained() && Structured(View())
      requires i + 1 < |blocks| && !blocks[i].used && !blocks[i + 1].used
      requires m == blocks[i].start && n == blocks[i + 1].start
      modifies this, mem
      ensures Chained() && View() == Swallow(old(View()), i)
      ensures Kept(old(mem[..]), mem[..], Used(old(blocks)))
    {
      hide Structured, Represents, Imaged, Kept, Put, Encode, Join, Used, Tiles;
      MergeStores(mem[..], hdr, blocks, size, i);
      JoinLinks(hdr, blocks, size, i);
      JoinTiles(blocks, 0, size + HDR, HDR, i);
      if lfree == n { lfree := m; }
      var next := hdr[n].next;
      Store(m, hdr[m].(next := next));
      Store(next, hdr[next].(prev := m));
      blocks := Join(blocks, i);
    }

    method PlugHoles(m: nat, ghost i: nat)
      requires Chained() && Structured(View()) && i < |blocks| && !blocks[i].used && m == blocks[i].start
      modifies this, mem
      ensures Chained() && View() == SmallHeap.PlugHoles(old(View()), i)
      ensures Kept(old(mem[..]), mem[..], Used(old(blocks)))
    {
      hide Structured, Represents, Imaged, Kept, Put, Encode, Join, Used, Tiles;
      Neighbours(hdr, blocks, size, i);
      KeptItself(mem[..], blocks, size);
      ghost var m0, live := mem[..], Used(blocks);
      var n := hdr[m].next;
      if m != n && hdr[n].used == 0 && n != size + HDR {
        SwallowKeeps(View(), i);
        Merge(m, n, i);
      }
      Neighbours(hdr, blocks, size, i);
      ghost var m1 := mem[..];
      assert View() == PlugForward(old(View()), i) && Used(blocks) == live;
      KeptItself(mem[..], blocks, size);
      var p := hdr[m].prev;
      if p != m && hdr[p].used == 0 {
        Merge(p, m, i - 1);
      }
      KeptTransitive(m0, m1, mem[..], live);
    }

    // ----- rt_malloc

    /** Puts a free header at address at behind the used block at m. */
    method SplitAt(m: nat, at: nat, magic: nat, ghost i: nat)
      requires Chained() && i < |blocks| && blocks[i].used && m == blocks[i].start
      requires at % ALIGN == 0 && m + HDR <= at && at + HDR <= blocks[i].end
      modifies this`hdr, this`blocks, mem
      ensures Chained() && blocks == Cut(old(blocks), i, at)
      ensures Kept(old(mem[..]), mem[..], Used(blocks))
    {
      hide Represents, Imaged, Kept, Put, Encode, Cut, Used, Tiles;
      SplitStores(mem[..], hdr, blocks, size, i, at, magic);
      CutLinks(hdr, blocks, size, i, at, magic);
      CutTiles(blocks, 0, size + HDR, HDR, i, at);
      Inside(blocks, 0, size + HDR, HDR, i);
      var next := hdr[m].next;
      Store(at, Header(magic, 0, next, m));
      Store(m, hdr[m].(next := at));
      if next != size + HDR {
        Store(next, hdr[next].(prev := at));
      }
      blocks := Cut(blocks, i, at);
    }

    /** Moves lfree from a block in use to the next free block. */
    method AdvanceHint(ghost i: nat)
      requires Chained() && i < |blocks| && lfree == blocks[i].start
      modifies this`lfree
      ensures lfree == NextFree(blocks, i, size + HDR)
    {
      hide Tiles, Imaged;
      ghost var k := i;
      Inside(blocks, 0, size + HDR, HDR, i);
      Neighbours(hdr, blocks, size, i);
      while hdr[lfree].used != 0 && lfree != size + HDR
        invariant k <= |blocks| && lfree in hdr
        invariant lfree == if k < |blocks| then blocks[k].start else size + HDR
        invariant k < |blocks| ==> lfree < size + HDR && hdr[lfree].used == (if blocks[k].used then 1 else 0)
        invariant NextFree(blocks, i, size + HDR) == NextFree(blocks, k, size + HDR)
        decreases |blocks| - k
      {
        Neighbours(hdr, blocks, size, k);
        lfree := hdr[lfree].next;
        k := k + 1;
        if k < |blocks| { Inside(blocks, 0, size + HDR, HDR, k); }
      }
    }

    /** Hands out the free block at ptr for a request of sz bytes. */
    method TakeBlock(ptr: nat, sz: nat, ghost i: nat)
      requires Valid() && i < |blocks| && ptr == blocks[i].start && Fits(blocks[i], sz)
      requires sz % ALIGN == 0 && MIN_SIZE <= sz
      modifies this, mem
      ensures Valid() && View() == Take(old(View()), i, sz)
      ensures sz + HDR <= usedMem - old(usedMem) < sz + HDR + HDR + MIN_SIZE
      ensures Kept(old(mem[..]), mem[..], Used(old(blocks)))
    {
      hide Inv, Structured, Represents, Imaged, Kept, Put, Encode, Cut, Mark, Used, Tiles, Coalesced, LastRoomy,
           NextFree, Fits, UsedBytes, Taken;
      ghost var h, m0, live := View(), mem[..], Used(blocks);
      TakeKeeps(h, i, sz);
      TakenLayout(h, i, sz);
      Inside(blocks, 0, size + HDR, HDR, i);
      MarkBlock(ptr, true, MAGIC, i);
      Neighbours(hdr, blocks, size, i);
      FitsIs(h.blocks[i], sz);
      ghost var m1 := mem[..];
      if hdr[ptr].next - (ptr + HDR) >= sz + HDR + MIN_SIZE {
        var junk := *;
        SplitAt(ptr, ptr + HDR + sz, junk, i);
        usedMem := usedMem + (sz + HDR);
        KeptSubset(m1, mem[..], Used(blocks), live);
        KeptTransitive(m0, m1, mem[..], live);
      } else {
        usedMem := usedMem + (hdr[ptr].next - ptr);
      }
      if maxMem < usedMem { maxMem := usedMem; }
      if ptr == lfree {
        AdvanceHint(i);
      }
    }

    /** The search loop: the first free block from lfree on that is large enough, heap_end excluded. */
    method Search(sz: nat) returns (found: bool, ptr: nat)
      requires Valid() && sz <= size
      ensures var k := FirstFit(blocks, IndexOf(blocks, lfree), size - sz, sz);
              && (found <==> k < |blocks|)
              && (found ==> ptr == blocks[k].start && ptr < size - sz)
    {
      hide Structured, Imaged, Kept, Tiles, Used, Coalesced;
      ptr := lfree;
      ghost var k: nat := IndexOf(blocks, lfree);
      ghost var first := FirstFit(blocks, k, size - sz, sz);
      LfreeStart(View());
      while ptr < size - sz
        invariant k <= |blocks|
        invariant ptr == if k < |blocks| then blocks[k].start else size + HDR
        invariant first == FirstFit(blocks, k, size - sz, sz)
        decreases |blocks| - k
      {
        Neighbours(hdr, blocks, size, k);
        if hdr[ptr].used == 0 && hdr[ptr].next - (ptr + HDR) >= sz {
          return true, ptr;
        }
        ptr := hdr[ptr].next;
        k := k + 1;
      }
      found := false;
    }

    method Malloc(n: nat) returns (p: Ptr)
      requires Valid() && n < WORD
      modifies this, mem
      ensures Valid() && (View(), p) == SmallHeap.Malloc(old(View()), n)
      ensures p.At? ==> Request(n) + HDR <= usedMem - old(usedMem) < Request(n) + HDR + HDR + MIN_SIZE
      ensures Kept(old(mem[..]), mem[..], Used(old(blocks)))
    {
      hide Structured, Represents, Imaged, Kept, Tiles, Take, Used, Coalesced;
      KeptItself(mem[..], blocks, size);
      if n == 0 { return Null; }
      var sz := Align32(n);
      if sz > size { return Null; }
      if sz < MIN_SIZE { sz := MIN_SIZE; }
      var found, ptr := Search(sz);
      if !found { return Null; }
      TakeBlock(ptr, sz, FirstFit(blocks, IndexOf(blocks, lfree), size - sz, sz));
      p := At(ptr + HDR);
    }

    // ----- rt_free

    method Free(p: Ptr)
      requires Valid() && Acceptable(View(), p)
      modifies this, mem
      ensures Valid() && View() == SmallHeap.Free(old(View()), p)
      ensures Kept(old(mem[..]), mem[..], Used(blocks))
    {
      hide Structured, Represents, Imaged, Kept, Tiles, Used, Coalesced, CoalescedBut, LastRoomy, UsedBytes,
           SmallHeap.PlugHoles, Mark;
      ghost var h, m0 := View(), mem[..];
      KeptItself(mem[..], blocks, size);
      if p.Null? { return; }
      if p.off < 0 || p.off >= size + HDR { return; }
      var m := p.off - HDR;
      ghost var i := BlockOf(h, p.off);
      FreeAtKeeps(h, i);
      ReleaseKeeps(h, i);
      ReleaseCoalesced(h, i);
      PlugHolesKeeps(Release(h, i), i);
      Neighbours(hdr, blocks, size, i);
      UsedMagic(hdr, blocks, size, i);
      assert hdr[m].used == 1 && hdr[m].magic == MAGIC;
      MarkBlock(m, false, 0, i);
      Neighbours(hdr, blocks, size, i);
      if m < lfree { lfree := m; }
      usedMem := usedMem - (hdr[m].next - m);
      assert View() == Release(h, i);
      ghost var m1 := mem[..];
      PlugHoles(m, i);
      KeptSubset(m0, m1, Used(h.blocks), Used(blocks));
      KeptSubset(m1, mem[..], Used(Release(h, i).blocks), Used(blocks));
      KeptTransitive(m0, m1, mem[..], Used(blocks));
    }

    // ----- rt_realloc

    /** Shrinks the used block at ptr to a payload of n bytes. */
    method ShrinkBlock(ptr: nat, n: nat, ghost i: nat)
      requires Valid() && i < |blocks| && ptr == blocks[i].start && blocks[i].used
      requires n % ALIGN == 0 && Shrinks(blocks[i], n)
      modifies this, mem
      ensures Valid() && View() == Shrink(old(View()), i, n)
      ensures Kept(old(mem[..]), mem[..], Used(blocks))
    {
      hide Structured, Represents, Imaged, Kept, Tiles, Used, Coalesced, SmallHeap.PlugHoles, Cut;
      ghost var h, m0 := View(), mem[..];
      ShrinkKeeps(h, i, n);
      TrimKeeps(h, i, n);
      TrimCoalesced(h, i, n);
      PlugHolesKeeps(Trim(h, i, n), i + 1);
      Neighbours(hdr, blocks, size, i);
      Inside(blocks, 0, size + HDR, HDR, i);
      usedMem := usedMem - (hdr[ptr].next - ptr - HDR - n);
      SplitAt(ptr, ptr + HDR + n, MAGIC, i);
      assert View() == Trim(h, i, n);
      ghost var m1 := mem[..];
      PlugHoles(ptr + HDR + n, i + 1);
      KeptTransitive(m0, m1, mem[..], Used(blocks));
    }

    /** rt_memcpy between two stretches that do not overlap. */
    method Copy(dst: nat, src: nat, n: nat)
      requires dst + n <= mem.Length && src + n <= mem.Length && (dst + n <= src || src + n <= dst)
      modifies mem
      ensures mem[dst..dst + n] == old(mem[src..src + n])
      ensures SameOutside(old(mem[..]), mem[..], dst, dst + n)
    {
      for k := 0 to n
        invariant forall j :: 0 <= j < mem.Length ==>
          mem[j] == if dst <= j < dst + k then old(mem[src + (j - dst)]) else old(mem[j])
      {
        mem[dst + k] := mem[src + k];
      }
      ghost var moved := old(mem[src..src + n]);
      assert forall j :: 0 <= j < n ==> mem[dst..dst + n][j] == moved[j];
    }

    /** Copies n bytes from p to the start of the payload of block i. */
    method CopyInto(q: nat, p: nat, n: nat, ghost i: nat)
      requires Chained() && i < |blocks| && q == blocks[i].start + HDR && n <= Payload(blocks[i])
      requires p + n <= mem.Length && (q + n <= p || p + n <= q)
      modifies mem
      ensures Chained() && CopiedFront(old(mem[..]), mem[..], p, q, n)
      ensures Kept(old(mem[..]), mem[..], Used(blocks) - {blocks[i]})
    {
      hide Represents, Imaged, Kept, Tiles, Used;
      Inside(blocks, 0, size + HDR, HDR, i);
      ghost var m0 := mem[..];
      Copy(q, p, n);
      PayloadStores(m0, mem[..], hdr, blocks, size, i);
    }

    /** The expanding path: a new block, a copy of the old payload, and the old block is freed. */
    method MoveBlock(p: nat, oldSize: nat, newSize: nat) returns (q: Ptr)
      requires Valid() && Live(View(), p) && newSize < WORD && newSize % ALIGN == 0
      requires oldSize == Payload(blocks[BlockOf(View(), p)])
      modifies this, mem
      ensures Valid() && (View(), q) == Move(old(View()), p, newSize)
      ensures Kept(old(mem[..]), mem[..], Used(old(blocks)) - {old(blocks[BlockOf(View(), p)])})
      ensures q.At? ==> CopiedFront(old(mem[..]), mem[..], p, q.off, Min(oldSize, newSize))
    {
      hide Structured, Represents, Imaged, Tiles, Used, Coalesced, Kept, SmallHeap.Malloc, SmallHeap.Free, Live,
           Inv, CopiedFront;
      ghost var h, m0 := View(), mem[..];
      ghost var b := blocks[BlockOf(h, p)];
      ghost var others := Used(blocks) - {b};
      q := Malloc(newSize);
      KeptSubset(m0, mem[..], Used(h.blocks), others);
      if q.Null? { MallocFailure(h, newSize); return; }
      MallocAllocates(h, newSize);
      MallocKeepsLive(h, newSize, p);
      ghost var h1, m1 := View(), mem[..];
      var keep := Min(oldSize, newSize);
      MovedBlocks(h, h1, p, q.off, newSize);
      ghost var c := h1.blocks[BlockOf(h1, q.off)];
      CopyInto(q.off, p, keep, BlockOf(h1, q.off));
      ghost var m2 := mem[..];
      KeptSubset(m1, m2, Used(blocks) - {c}, others);
      KeptTransitive(m0, m1, m2, others);
      FreeReleases(h1, p);
      Free(At(p));
      KeptSubset(m2, mem[..], Used(blocks), others);
      KeptTransitive(m0, m2, mem[..], others);
      CopiedThrough(m0, m1, m2, mem[..], Used(h.blocks), b, Used(blocks), c, keep);
    }

    method Realloc(p: Ptr, n: nat) returns (q: Ptr)
      requires Valid() && Acceptable(View(), p) && n < WORD
      modifies this, mem
      ensures Valid() && (View(), q) == SmallHeap.Realloc(old(View()), p, n)
      ensures ReallocBytes(old(View()), old(mem[..]), mem[..], p, q, n)
    {
      hide Structured, Represents, Imaged, Kept, Tiles, Used, Coalesced, SmallHeap.Malloc, SmallHeap.Free, Shrink;
      KeptItself(mem[..], blocks, size);
      var newSize := Align32(n);
      if p.At? && Live(View(), p.off) { FreeReleases(View(), p.off); }
      if p.At? && InArena(View(), p.off) { KeptOthers(mem[..], blocks, size, BlockOf(View(), p.off)); }
      if newSize > size { return Null; }
      if p.Null? {
        q := Malloc(newSize);
        return;
      }
      if p.off < 0 || p.off >= size + HDR { return p; }
      var ptr := p.off - HDR;
      ghost var h, m0, i := View(), mem[..], BlockOf(View(), p.off);
      ghost var b := blocks[i];
      Neighbours(hdr, blocks, size, i);
      Inside(blocks, 0, size + HDR, HDR, i);
      var oldSize := hdr[ptr].next - ptr - HDR;
      if oldSize == newSize { return p; }
      if newSize + HDR + MIN_SIZE < oldSize {
        ShrinkKeeps(h, i, newSize);
        ShrinkBlock(ptr, newSize, i);
        TrimmedIn(Used(h.blocks), b, newSize);
        KeptBytes(m0, mem[..], Used(blocks), b.(end := b.start + HDR + newSize), newSize);
        KeptSubset(m0, mem[..], Used(blocks), Used(h.blocks) - {b});
        return p;
      }
      q := MoveBlock(p.off, oldSize, newSize);
    }

    /** A client write to a live payload disturbs nothing else. */
    method Write(p: nat, k: nat, v: byte)
      requires Valid() && Live(View(), p) && k < Payload(blocks[BlockOf(View(), p)])
      modifies mem
      ensures Valid() && p + k < mem.Length && mem[..] == old(mem[..])[p + k := v]
      ensures Kept(old(mem[..]), mem[..], Used(blocks) - {blocks[BlockOf(View(), p)]})
    {
      hide Structured, Represents, Imaged, Kept, Tiles, Used, Coalesced;
      Inside(blocks, 0, size + HDR, HDR, BlockOf(View(), p));
      ghost var m0 := mem[..];
      mem[p + k] := v;
      PayloadStores(m0, mem[..], hdr, blocks, size, BlockOf(View(), p));
    }

    /** rt_system_heap_init on an arena of the given size; below MIN_SIZE the search of rt_malloc does not
        end (SmallHeapLaws.SearchEndsIff), so only larger arenas are valid heaps. */
    constructor (size: nat)
      requires size % ALIGN == 0 && size + 2 * HDR < WORD
      ensures this.size == size && View() == Init(size) && Chained()
      ensures Valid() <==> MIN_SIZE <= size
    {
      this.size := size;
      mem := new byte[size + 2 * HDR];
      hdr := map[];
      lfree, usedMem, maxMem := 0, 0, 0;
      blocks := Init(size).blocks;
      new;
      var next := size + HDR;
      Store(0, Header(MAGIC, 0, next, 0));
      ghost var m1 := mem[..];
      Store(next, Header(MAGIC, 1, next, next));
      PutElsewhere(m1, next, Header(MAGIC, 1, next, next), 0, HDR);
      assert Linked(hdr, blocks, 0);
      assert blocks[1..] == [];
      if MIN_SIZE <= size { InitInv(size); }
    }
  }

  lemma TrimmedIn(live: set<Block>, b: Block, n: nat)
    ensures b.(end := b.start + HDR + n) in live - {b} + {b.(end := b.start + HDR + n)}
  {
  }

  lemma KeptOthers(m: seq<byte>, bs: seq<Block>, size: nat, i: nat)
    requires Tiles(bs, 0, size + HDR, HDR) && |m| == size + 2 * HDR && i < |bs|
    ensures Kept(m, m, Used(bs) - {bs[i]})
    ensures bs[i].end <= |m|
  {
    hide Tiles;
    KeptItself(m, bs, size);
    Inside(bs, 0, size + HDR, HDR, i);
  }

  function Min(a: int, b: int): int { if a < b then a else b }

  /** The first keep bytes at q in m' are the first keep bytes at p in m. */
  ghost predicate CopiedFront(m: seq<byte>, m': seq<byte>, p: int, q: int, keep: int) {
    && 0 <= keep && 0 <= p && p + keep <= |m| && 0 <= q && q + keep <= |m'|
    && m'[q..q + keep] == m[p..p + keep]
  }

  /** The copy of a move survives the surrounding malloc and free. */
  lemma CopiedThrough(m0: seq<byte>, m1: seq<byte>, m2: seq<byte>, m3: seq<byte>,
                      live: set<Block>, b: Block, live': set<Block>, c: Block, keep: int)
    requires Kept(m0, m1, live) && b in live && 0 <= keep <= Payload(b)
    requires CopiedFront(m1, m2, b.start + HDR, c.start + HDR, keep)
    requires Kept(m2, m3, live') && c in live' && keep <= Payload(c)
    ensures CopiedFront(m0, m3, b.start + HDR, c.start + HDR, keep)
  {
    KeptBytes(m0, m1, live, b, keep);
    KeptBytes(m2, m3, live', c, keep);
  }

  /** What rt_realloc does to bytes: no other payload changes, and a non-null result for a live p starts
      with the first min(old size, new size) bytes of p. */
  ghost predicate ReallocBytes(h: Heap, m: seq<byte>, m': seq<byte>, p: Ptr, q: Ptr, n: nat)
    requires n < WORD
  {
    if p.At? && Live(h, p.off) then
      var b := h.blocks[BlockOf(h, p.off)];
      && Kept(m, m', Used(h.blocks) - {b})
      && (q.At? ==> CopiedFront(m, m', p.off, q.off, Min(Payload(b), Align32(n))))
    else Kept(m, m', Used(h.blocks))
  }

  lemma KeptBytes(m: seq<byte>, m': seq<byte>, live: set<Block>, b: Block, keep: nat)
    requires Kept(m, m', live) && b in live && keep <= Payload(b)
    ensures b.start + HDR + keep <= |m|
    ensures m[b.start + HDR..b.start + HDR + keep] == m'[b.start + HDR..b.start + HDR + keep]
  {
    var lo, hi := b.start + HDR, b.start + HDR + keep;
    assert m[lo..b.end][..keep] == m[lo..hi];
    assert m'[lo..b.end][..keep] == m'[lo..hi];
  }

  /** After the allocation of a move: where the two blocks are, and which blocks stay in use. */
  lemma MovedBlocks(h: Heap, h1: Heap, p: int, q: int, newSize: nat)
    requires Inv(h) && Live(h, p) && newSize < WORD && newSize % ALIGN == 0
    requires Allocated(h, h1, q, Request(newSize)) && Live(h1, p)
    ensures var b, c := h.blocks[BlockOf(h, p)], h1.blocks[BlockOf(h1, q)];
            && h1.blocks[BlockOf(h1, p)] == b && b in Used(h.blocks) && b != c
            && c in Used(h1.blocks) && c !in Used(h.blocks)
            && newSize <= Payload(c) && (c.end <= b.start || b.end <= c.start)
            && c.start + HDR == q && b.start + HDR == p
            && 0 <= Payload(b) && b.end <= End(h) && c.end <= End(h)
  {
    hide Tiles, UsedBytes, LfreeOk;
    var b, c := h.blocks[BlockOf(h, p)], h1.blocks[BlockOf(h1, q)];
    Inside(h.blocks, 0, End(h), HDR, BlockOf(h, p));
    Inside(h1.blocks, 0, End(h), HDR, BlockOf(h1, q));
    LiveBlock(h1, b);
    if c in Used(h.blocks) { assert false; }
  }

  lemma UsedMagic(hdr: map<nat, Header>, bs: seq<Block>, size: nat, i: nat)
    requires Represents(hdr, bs, size) && i < |bs| && bs[i].used
    ensures bs[i].start in hdr && hdr[bs[i].start].magic == MAGIC
  {
    assert Linked(hdr, bs, i);
  }

  lemma LfreeStart(h: Heap)
    requires Inv(h)
    ensures var k := IndexOf(h.blocks, h.lfree);
            h.lfree == if k < |h.blocks| then h.blocks[k].start else End(h)
  {
  }

  lemma FitsIs(b: Block, size: nat)
    requires Fits(b, size)
    ensures Payload(b) >= size
  {
  }
}
