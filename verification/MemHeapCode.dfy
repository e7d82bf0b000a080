// The code of thread_pool/rt-thread/src/memheap.c: block headers linked in a ring
// by address, and the free ones in a second ring behind free_header.
module MemHeapCode {
  import opened Layout
  import opened Lists
  import opened CircularList
  import opened MemHeap

  /** The address of free_header, which lies outside the pool. */
  const FREE := -1

  /** The headers in address order, the last one of the pool included. */
  function Headers(bs: seq<Block>, end: nat): (r: seq<int>)
    ensures |r| == |bs| + 1 && r[|bs|] == end
    ensures forall i :: 0 <= i < |bs| ==> r[i] == bs[i].start
  {
    seq(|bs|, i requires 0 <= i < |bs| => bs[i].start) + [end]
  }

  /** Which headers have the used bit. */
  ghost predicate Marked(used: map<int, bool>, bs: seq<Block>, end: nat) {
    && end in used && used[end]
    && forall i :: 0 <= i < |bs| ==> bs[i].start in used && used[bs[i].start] == bs[i].used
  }

  lemma CutHeaders(bs: seq<Block>, i: nat, at: nat, end: nat)
    requires i < |bs|
    ensures Headers(Cut(bs, i, at), end) == Inserted(Headers(bs, end), i + 1, at)
  {
  }

  lemma JoinHeaders(bs: seq<Block>, i: nat, end: nat)
    requires i + 1 < |bs|
    ensures Headers(Join(bs, i), end) == Deleted(Headers(bs, end), i + 1)
  {
  }

  lemma MarkHeaders(bs: seq<Block>, i: nat, used: bool, end: nat)
    requires i < |bs|
    ensures Headers(Mark(bs, i, used), end) == Headers(bs, end)
  {
  }

  /** What the links of header i say. */
  lemma Neighbours(l: Links, used: map<int, bool>, bs: seq<Block>, end: nat, i: nat)
    requires Tiles(bs, 0, end, HDR) && Circle(l, Headers(bs, end)) && Marked(used, bs, end) && i < |bs|
    ensures var s := bs[i].start;
            && s in l.next && l.next[s] == bs[i].end
            && s in l.prev && l.prev[s] == (if i == 0 then end else bs[i - 1].start)
            && s in used && used[s] == bs[i].used
            && bs[i].end in used && used[bs[i].end] == (i + 1 == |bs| || bs[i + 1].used)
            && l.prev[s] in used && used[l.prev[s]] == (i == 0 || bs[i - 1].used)
  {
    hide Tiles, Headers;
    Inside(bs, 0, end, HDR, i);
    var r := Headers(bs, end);
    assert Follows(i, i + 1, |r|);
    assert Follows(if i == 0 then |bs| else i - 1, i, |r|);
    assert r[i + 1] == bs[i].end && r[i] == bs[i].start;
  }

  /** Both rings of a layout, and the used bits. */
  ghost predicate Shown(block: Links, free: Links, used: map<int, bool>, bs: seq<Block>, ring: seq<int>, end: nat) {
    Circle(block, Headers(bs, end)) && Circle(free, [FREE] + ring) && Marked(used, bs, end)
  }

  lemma SplitShows(block: Links, free: Links, used: map<int, bool>, bs: seq<Block>, ring: seq<int>, end: nat,
                   i: nat, at: nat)
    requires Tiles(bs, 0, end, HDR) && Shown(block, free, used, bs, ring, end) && i < |bs| && bs[i].used
    requires bs[i].start < at < bs[i].end
    ensures bs[i].start in block.next
    ensures Shown(InsertAfter(block, bs[i].start, at), free, used[at := false], Cut(bs, i, at), ring, end)
  {
    hide Tiles, Headers, Cut, Inserted;
    var r := Headers(bs, end);
    AtFresh(bs, end, i, at);
    assert r[i] == bs[i].start && Follows(i, i + 1, |r|);
    InsertAfterIs(block, r, i, at);
    CutHeaders(bs, i, at, end);
    var bs' := Cut(bs, i, at);
    forall j | 0 <= j < |bs'| ensures bs'[j].start in used[at := false]
        && used[at := false][bs'[j].start] == bs'[j].used {
      if j < i { assert bs'[j] == bs[j] == bs[j]; assert bs[j].start == r[j]; }
      if j > i + 1 { assert bs'[j] == bs[j - 1]; assert bs[j - 1].start == r[j - 1]; }
    }
  }

  lemma AtFresh(bs: seq<Block>, end: nat, i: nat, at: nat)
    requires Tiles(bs, 0, end, HDR) && i < |bs| && bs[i].start < at < bs[i].end
    ensures at !in Headers(bs, end)
  {
    hide Tiles, Headers;
    Inside(bs, 0, end, HDR, i);
    forall j | 0 <= j < |bs| ensures bs[j].start != at {
      Inside(bs, 0, end, HDR, j);
      if j < i { Ordered(bs, 0, end, HDR, j, i); } else if i < j { Ordered(bs, 0, end, HDR, i, j); }
    }
  }

  lemma JoinShows(block: Links, free: Links, used: map<int, bool>, bs: seq<Block>, ring: seq<int>, end: nat, i: nat)
    requires Shown(block, free, used, bs, ring, end) && i + 1 < |bs|
    requires !bs[i].used && !bs[i + 1].used
    ensures bs[i + 1].start in block.next && bs[i + 1].start in block.prev
    ensures Shown(Unlink(block, bs[i + 1].start), free, used, Join(bs, i), ring, end)
  {
    hide Headers, Join, Deleted;
    var r := Headers(bs, end);
    assert r[i + 1] == bs[i + 1].start;
    UnlinkIs(block, r, i + 1);
    JoinHeaders(bs, i, end);
    var bs' := Join(bs, i);
    forall j | 0 <= j < |bs'| ensures bs'[j].start in used && used[bs'[j].start] == bs'[j].used {
      var o := if j <= i then j else j + 1;
      assert bs'[j].start == bs[o].start && bs'[j].used == bs[o].used;
    }
  }

  lemma MarkShows(block: Links, free: Links, used: map<int, bool>, bs: seq<Block>, ring: seq<int>, end: nat,
                  i: nat, u: bool)
    requires Tiles(bs, 0, end, HDR) && Shown(block, free, used, bs, ring, end) && i < |bs|
    ensures Shown(block, free, used[bs[i].start := u], Mark(bs, i, u), ring, end)
  {
    hide Tiles, Headers, Mark;
    MarkHeaders(bs, i, u, end);
    var bs' := Mark(bs, i, u);
    StartBelow(bs, end, i);
    forall j | 0 <= j < |bs'| ensures bs'[j].start in used[bs[i].start := u]
                                      && used[bs[i].start := u][bs'[j].start] == bs'[j].used {
      if j != i { StartsDiffer(bs, 0, end, HDR, i, j); assert bs'[j] == bs[j]; }
    }
  }

  lemma StartBelow(bs: seq<Block>, end: nat, i: nat)
    requires Tiles(bs, 0, end, HDR) && i < |bs|
    ensures bs[i].start < end
  {
    Inside(bs, 0, end, HDR, i);
  }

  class Object {
    const pool: nat
    var next: map<int, int>
    var prev: map<int, int>
    var nextFree: map<int, int>
    var prevFree: map<int, int>
    var used: map<int, bool>
    var available: int
    var maxUsed: int
    ghost var blocks: seq<Block>
    ghost var ring: seq<int>

    ghost function View(): Heap
      reads this
    {
      Heap(pool, blocks, ring, available, maxUsed)
    }

    /** The links show the blocks and the ring. */
    ghost predicate Shows()
      reads this
    {
      Shown(Links(next, prev), Links(nextFree, prevFree), used, blocks, ring, End(View()))
    }

    ghost predicate Valid()
      reads this
    {
      Shows() && Inv(View())
    }

    /** rt_memheap_init on a pool with room for the two headers. */
    constructor (size: nat)
      requires 2 * HDR <= size / ALIGN * ALIGN && size < WORD
      ensures Valid() && View() == MemHeap.Init(size)
    {
      var aligned := size / ALIGN * ALIGN;
      var tail := aligned - HDR;
      pool := aligned;
      available, maxUsed := aligned - 2 * HDR, 2 * HDR;
      next, prev := map[0 := tail, tail := 0], map[0 := tail, tail := 0];
      nextFree, prevFree := map[FREE := 0, 0 := FREE], map[FREE := 0, 0 := FREE];
      used := map[0 := false, tail := true];
      blocks, ring := MemHeap.Init(size).blocks, [0];
      new;
      InitInv(size);
      assert Headers(blocks, tail) == [0, tail];
    }

    // ----- The two rings

    /** The header at n becomes the first one behind free_header. */
    method FreeInsert(n: int)
      requires Shows() && n != FREE && n !in ring
      modifies this`nextFree, this`prevFree, this`ring
      ensures Shows() && ring == [n] + old(ring)
    {
      hide Headers, Marked;
      ghost var l, r := Links(nextFree, prevFree), [FREE] + ring;
      assert Follows(0, if ring == [] then 0 else 1, |r|);
      InsertAfterIs(l, r, 0, n);
      assert Inserted(r, 1, n) == [FREE] + ([n] + ring);
      nextFree := nextFree[n := nextFree[FREE]];
      prevFree := prevFree[n := FREE];
      prevFree := prevFree[nextFree[FREE] := n];
      nextFree := nextFree[FREE := n];
      ring := [n] + ring;
      assert Links(nextFree, prevFree) == InsertAfter(l, FREE, n);
    }

    /** The header at position k of the free ring leaves it. */
    method FreeRemove(n: int, ghost k: nat)
      requires Shows() && k < |ring| && ring[k] == n
      modifies this`nextFree, this`prevFree, this`ring
      ensures Shows() && ring == Deleted(old(ring), k)
    {
      hide Headers, Marked, Deleted;
      ghost var l, r := Links(nextFree, prevFree), [FREE] + ring;
      assert r[k + 1] == n;
      UnlinkIs(l, r, k + 1);
      assert Deleted(r, k + 1) == [FREE] + Deleted(ring, k);
      assert Follows(k + 1, if k + 2 == |r| then 0 else k + 2, |r|) && Follows(k, k + 1, |r|);
      prevFree := prevFree[nextFree[n] := prevFree[n]];
      nextFree := nextFree[prevFree[n] := nextFree[n]];
      ring := Deleted(ring, k);
      assert Links(nextFree, prevFree) == Unlink(l, n);
    }

    /** A new free header at address at behind used block i. */
    method BlockInsert(header: int, at: nat, ghost i: nat)
      requires Shows() && Tiles(blocks, 0, End(View()), HDR)
      requires i < |blocks| && blocks[i].used && header == blocks[i].start < at < blocks[i].end
      modifies this`next, this`prev, this`used, this`blocks
      ensures Shows() && blocks == Cut(old(blocks), i, at)
    {
      hide Tiles, Headers, Circle, Marked, Cut;
      SplitShows(Links(next, prev), Links(nextFree, prevFree), used, blocks, ring, End(View()), i, at);
      Neighbours(Links(next, prev), used, blocks, End(View()), i);
      ghost var l := Links(next, prev);
      used := used[at := false];
      prev := prev[at := header];
      next := next[at := next[header]];
      prev := prev[next[header] := at];
      next := next[header := at];
      assert Links(next, prev) == InsertAfter(l, header, at);
      blocks := Cut(blocks, i, at);
    }

    /** The right neighbour of free block i leaves the block ring. */
    method BlockUnlink(n: int, ghost i: nat)
      requires Shows() && Tiles(blocks, 0, End(View()), HDR)
      requires i + 1 < |blocks| && !blocks[i].used && !blocks[i + 1].used && n == blocks[i + 1].start
      modifies this`next, this`prev, this`blocks
      ensures Shows() && blocks == Join(old(blocks), i)
    {
      hide Tiles, Headers, Circle, Marked, Join;
      JoinShows(Links(next, prev), Links(nextFree, prevFree), used, blocks, ring, End(View()), i);
      NextKnown(Links(next, prev), used, blocks, End(View()), i + 1);
      ghost var l := Links(next, prev);
      next := next[prev[n] := next[n]];
      prev := prev[next[n] := prev[n]];
      assert Links(next, prev) == Unlink(l, n);
      blocks := Join(blocks, i);
    }

    method SetUsed(n: int, u: bool, ghost i: nat)
      requires Shows() && Tiles(blocks, 0, End(View()), HDR) && i < |blocks| && n == blocks[i].start
      modifies this`used, this`blocks
      ensures Shows() && blocks == Mark(old(blocks), i, u)
    {
      hide Tiles, Headers, Circle, Marked, Mark;
      MarkShows(Links(next, prev), Links(nextFree, prevFree), used, blocks, ring, End(View()), i, u);
      used := used[n := u];
      blocks := Mark(blocks, i, u);
    }

    // ----- rt_memheap_alloc

    /** The search loop: the first header of the free ring that is large enough. */
    method Search(size: nat) returns (freeSize: int, item: int)
      requires Valid() && 0 < size
      ensures var k := FirstFit(blocks, ring, 0, size);
              if k < |ring| then item == ring[k] && freeSize == RoomAt(blocks, ring[k]) else freeSize < size
    {
      hide Tiles, Headers, FreeRoom, Coalesced, RoomAt;
      freeSize := 0;
      ghost var k := 0;
      FreeNext(Links(nextFree, prevFree), ring, 0);
      item := nextFree[FREE];
      while item != FREE && freeSize < size
        invariant k <= |ring| && item == if k < |ring| then ring[k] else FREE
        invariant if freeSize < size then FirstFit(blocks, ring, 0, size) == FirstFit(blocks, ring, k, size)
                  else k < |ring| && freeSize == RoomAt(blocks, ring[k]) && FirstFit(blocks, ring, 0, size) == k
        decreases |ring| - k, if freeSize < size then 1 else 0
      {
        ItemSize(View(), k);
        RingIndex(View(), k);
        Neighbours(Links(next, prev), used, blocks, End(View()), IndexOf(blocks, ring[k]));
        freeSize := next[item] - item - HDR;
        if freeSize < size {
          FreeNext(Links(nextFree, prevFree), ring, k + 1);
          item := nextFree[item];
          k := k + 1;
        }
      }
      if k < |ring| { RingIndex(View(), k); }
    }

    /** A used block, still listed at position k of the ring, is cut, and the rest is listed instead. */
    method SplitItem(item: nat, at: nat, ghost i: nat, ghost k: nat)
      requires Shows() && Tiles(blocks, 0, End(View()), HDR)
      requires i < |blocks| && blocks[i].used && item == blocks[i].start < at < blocks[i].end
      requires k < |ring| && item == ring[k] && at != FREE && at !in Deleted(ring, k)
      modifies this`next, this`prev, this`used, this`blocks, this`nextFree, this`prevFree, this`ring
      ensures Shows() && blocks == Cut(old(blocks), i, at) && ring == [at] + Deleted(old(ring), k)
    {
      hide Tiles, Shown, Cut, Deleted;
      BlockInsert(item, at, i);
      FreeRemove(item, k);
      FreeInsert(at);
    }

    /** Hands out the free block at position k of the ring. */
    method TakeItem(item: nat, freeSize: int, size: nat, ghost k: nat)
      requires Valid() && k < |ring| && item == ring[k] && freeSize == RoomAt(blocks, ring[k]) >= size
      requires size % ALIGN == 0 && MINIALLOC <= size
      modifies this
      ensures 0 <= old(ring)[k] && IndexOf(old(blocks), old(ring)[k]) < |old(blocks)|
      ensures Shows() && View() == Take(old(View()), k, size)
    {
      hide Tiles, Shown, RingOk, Mark, Cut, Deleted, FreeRoom, Coalesced, IndexOf, Take, RoomAt, FreeAt, UsedBytes,
           Used, Distinct;
      ghost var h := View();
      RingIndex(h, k);
      ItemSize(h, k);
      TakeIs(h, k, size);
      ghost var i := IndexOf(blocks, ring[k]);
      assert freeSize == Room(blocks[i], HDR) && blocks[i].start == item;
      Inside(blocks, 0, End(h), HDR, i);
      MarkTiles(blocks, 0, End(h), HDR, i, true);
      NotListed(h, i, k, item + HDR + size);
      SetUsed(item, true, i);
      if freeSize >= size + HDR + MINIALLOC {
        SplitItem(item, item + HDR + size, i, k);
        available := available - size - HDR;
      } else {
        available := available - freeSize;
        FreeRemove(item, k);
      }
      if pool - available > maxUsed { maxUsed := pool - available; }
    }

    method Alloc(n: nat) returns (p: Ptr)
      requires Valid() && n < WORD
      modifies this
      ensures Valid() && (View(), p) == MemHeap.Alloc(old(View()), n)
    {
      hide Tiles, Headers, Circle, Marked, FreeRoom, Coalesced, RoomAt, FreeAt, Distinct, Take, Allocated;
      AllocKeeps(View(), n);
      ghost var h := View();
      var size := (n + 3) % WORD / ALIGN * ALIGN;
      if size < MINIALLOC { size := MINIALLOC; }
      if size >= available { return Null; }
      var freeSize, item := Search(size);
      if freeSize < size { return Null; }
      RingIndex(h, FirstFit(blocks, ring, 0, size));
      TakeItem(item, freeSize, size, FirstFit(blocks, ring, 0, size));
      AllocatedInv(h, View(), item + HDR, size);
      p := At(item + HDR);
    }

    // ----- rt_memheap_free

    /** Merges the free block at n with its right neighbour when that is free. */
    method MergeNext(n: nat, ghost i: nat, ghost out: set<int>) returns (merged: bool)
      requires Shows() && Tiles(blocks, 0, End(View()), HDR) && RingBut(blocks, ring, out) && out <= {n}
      requires i < |blocks| && !blocks[i].used && n == blocks[i].start
      modifies this`next, this`prev, this`nextFree, this`prevFree, this`blocks, this`ring
      ensures Shows() && View() == MergeFree(old(View()), i).(available := old(available))
      ensures merged <==> i + 1 < |old(blocks)| && !old(blocks)[i + 1].used
    {
      hide Tiles, Headers, Circle, Marked, Join, Deleted, Distinct, Find;
      Neighbours(Links(next, prev), used, blocks, End(View()), i);
      var right := next[n];
      merged := !used[right];
      if merged {
        Inside(blocks, 0, End(View()), HDR, i);
        StartsDiffer(blocks, 0, End(View()), HDR, i, i + 1);
        FreeStarts(blocks, i + 1);
        ghost var k := Find(ring, right);
        assert right == blocks[i + 1].start && right in ring;
        BlockUnlink(right, i);
        FreeRemove(right, k);
      }
    }

    method Free(p: nat)
      requires Valid() && Live(View(), p)
      modifies this
      ensures Valid() && View() == MemHeap.Free(old(View()), p)
    {
      hide Tiles, Shown, Mark, Join, Deleted, Distinct, Find, FreeAt, FreeRoom, RingBut, RingOk, Coalesced,
          CoalescedBut,
           IndexOf, MergeFree;
      var item := p - HDR;
      ghost var h := View();
      ghost var i := IndexOf(blocks, item);
      FreeKeeps(h, i);
      HalfDoneNothing(h);
      ReleaseKeeps(h, i);
      Known(i);
      SetUsed(item, false, i);
      available := available + (next[item] - item - HDR);
      ghost var h1 := View();
      assert h1 == Release(h, i);
      Known(i);
      var insert := true;
      ghost var out, j := {h.blocks[i].start}, i;
      var left := prev[item];
      if !used[left] {
        MergeLeftKeeps(h1, i);
        available := available + HDR;
        BlockUnlink(item, i - 1);
        item := left;
        insert := false;
        out, j := {}, i - 1;
      }
      ghost var h2 := View();
      MergeFreeKeeps(h2, j, out);
      var merged := MergeNext(item, j, out);
      MergedAvailable(h2, j);
      if merged { available := available + HDR; }
      assert View() == MergeFree(h2, j);
      if insert {
        NotInRing(View(), item);
        FreeInsert(item);
      }
    }

    /** What the links of header i say, by Neighbours. */
    lemma Known(i: nat)
      requires Shows() && Tiles(blocks, 0, End(View()), HDR) && i < |blocks|
      ensures var s := blocks[i].start;
              && s in next && next[s] == blocks[i].end
              && s in prev && prev[s] in used
              && used[prev[s]] == (i == 0 || blocks[i - 1].used) && (i > 0 ==> prev[s] == blocks[i - 1].start)
    {
      Neighbours(Links(next, prev), used, blocks, End(View()), i);
    }

    // ----- The shrinking path of rt_memheap_realloc

    /** The room of a free right neighbour, which is about to be merged, is no longer counted. */
    method DiscountRight(at: nat, ghost i: nat)
      requires Shows() && Tiles(blocks, 0, End(View()), HDR) && i < |blocks| && at == blocks[i].start
      modifies this`available
      ensures Shows()
      ensures available == old(available)
                           - if i + 1 < |blocks| && !blocks[i + 1].used then Room(blocks[i + 1], HDR) else 0
    {
      hide Tiles, Shown;
      Inside(blocks, 0, End(View()), HDR, i);
      Known(i);
      var right := next[at];
      RightUsed(i);
      if !used[right] {
        Inside(blocks, 0, End(View()), HDR, i + 1);
        Known(i + 1);
        available := available - (next[right] - right - HDR);
      }
    }

    /** The shrinking path of rt_memheap_realloc. */
    method Shrink(p: nat, n: nat)
      requires Valid() && Live(View(), p) && n % ALIGN == 0
      requires n + HDR <= Room(blocks[IndexOf(blocks, p - HDR)], HDR)
      modifies this
      ensures Valid() && View() == MemHeap.Shrink(old(View()), IndexOf(old(blocks), p - HDR), n)
    {
      hide Inv, Tiles, Shown, Headers, Circle, Cut, Find, RingOk, IndexOf, MergeFree;
      ghost var h := View();
      ghost var i := IndexOf(blocks, p - HDR);
      MemHeap.ShrinkWorks(h, i, n);
      CutAndMerge(p - HDR, n, i);
    }

    method CutAndMerge(item: nat, n: nat, ghost i: nat)
      requires Valid() && n % ALIGN == 0 && i < |blocks| && blocks[i].used && blocks[i].start == item
      requires n + HDR <= Room(blocks[i], HDR)
      modifies this
      ensures Shows() && View() == MemHeap.Shrink(old(View()), i, n)
    {
      hide Tiles, Shown, Cut, Join, Deleted, Distinct, Find, FreeAt, FreeRoom, RingBut, RingOk, Coalesced, CoalescedBut,
           IndexOf, MergeFree;
      var at := item + n + HDR;
      ghost var h := View();
      CutOffKeeps(h, i, n);
      Inside(blocks, 0, End(h), HDR, i);
      ghost var h1 := CutOff(h, i, n);
      MergeFreeKeeps(h1, i + 1, {at});
      MergedAvailable(h1, i + 1);
      BlockInsert(item, at, i);
      DiscountRight(at, i + 1);
      SameMerge(h1, View(), i + 1);
      var merged := MergeNext(at, i + 1, {at});
      NotInRing(MergeFree(h1, i + 1), at);
      FreeInsert(at);
      Known(i + 1);
      available := available + (next[at] - at - HDR);
    }

    lemma RightUsed(i: nat)
      requires Shows() && Tiles(blocks, 0, End(View()), HDR) && i < |blocks|
      ensures blocks[i].end in used && used[blocks[i].end] == (i + 1 == |blocks| || blocks[i + 1].used)
    {
      Neighbours(Links(next, prev), used, blocks, End(View()), i);
    }
  }

  /** A merge does not look at the counters. */
  lemma SameMerge(h: Heap, h': Heap, i: nat)
    requires i < |h.blocks| && h.blocks == h'.blocks && h.ring == h'.ring
    ensures MergeFree(h, i).blocks == MergeFree(h', i).blocks && MergeFree(h, i).ring == MergeFree(h', i).ring
  {
  }

  /** A merge frees one header. */
  lemma MergedAvailable(h: Heap, i: nat)
    requires i < |h.blocks|
    ensures var h', merges := MergeFree(h, i), i + 1 < |h.blocks| && !h.blocks[i + 1].used;
            && h'.available == h.available + (if merges then HDR else 0)
            && i < |h'.blocks|
            && h'.blocks[i] == if merges then h.blocks[i].(end := h.blocks[i + 1].end) else h.blocks[i]
  {
    hide Join, Deleted, Find;
  }

  lemma NotInRing(h: Heap, s: int)
    requires HalfDone(h, {s}) && 0 <= s
    ensures s != FREE && s !in h.ring
  {
  }

  lemma TakeIs(h: Heap, k: nat, size: nat)
    requires k < |h.ring| && 0 <= h.ring[k] && IndexOf(h.blocks, h.ring[k]) < |h.blocks|
    ensures var i := IndexOf(h.blocks, h.ring[k]);
            var room, at, rest := Room(h.blocks[i], HDR), h.ring[k] + HDR + size, Deleted(h.ring, k);
            Take(h, k, size) ==
              if room >= size + HDR + MINIALLOC
              then Heap(h.pool, Cut(Mark(h.blocks, i, true), i, at), [at] + rest, h.available - size - HDR,
                        Max(h.maxUsed, h.pool - (h.available - size - HDR)))
              else Heap(h.pool, Mark(h.blocks, i, true), rest, h.available - room,
                        Max(h.maxUsed, h.pool - (h.available - room)))
  {
    hide Mark, Cut, Deleted;
  }

  lemma AllocatedInv(h: Heap, h': Heap, p: int, size: nat)
    requires Allocated(h, h', p, size)
    ensures Inv(h')
  {
  }

  lemma NextKnown(l: Links, used: map<int, bool>, bs: seq<Block>, end: nat, i: nat)
    requires Circle(l, Headers(bs, end)) && i < |bs|
    ensures bs[i].start in l.next && bs[i].start in l.prev
  {
    assert Headers(bs, end)[i] == bs[i].start;
  }

  lemma FreeNext(l: Links, ring: seq<int>, k: nat)
    requires Circle(l, [FREE] + ring) && k <= |ring|
    ensures var n := if k == 0 then FREE else ring[k - 1];
            n in l.next && l.next[n] == if k < |ring| then ring[k] else FREE
  {
    var r := [FREE] + ring;
    assert Follows(k, if k == |ring| then 0 else k + 1, |r|);
  }

  /** The size read from a free header is that of its block. */
  lemma ItemSize(h: Heap, k: nat)
    requires Inv(h) && k < |h.ring|
    ensures 0 <= h.ring[k] && IndexOf(h.blocks, h.ring[k]) < |h.blocks|
    ensures RoomAt(h.blocks, h.ring[k]) == h.blocks[IndexOf(h.blocks, h.ring[k])].end - h.ring[k] - HDR
  {
    RingIndex(h, k);
  }

  lemma NotListed(h: Heap, i: nat, k: nat, at: nat)
    requires Inv(h) && i < |h.blocks| && k < |h.ring|
    ensures at !in Deleted(h.ring, k) || !(h.blocks[i].start < at < h.blocks[i].end)
  {
    hide Tiles, FreeRoom, Coalesced;
    CircularList.DeletedMembers(h.ring, k);
    if h.blocks[i].start < at < h.blocks[i].end { NotInside(h, i, at); }
  }
}
