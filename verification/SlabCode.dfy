// The code of rt_malloc and rt_free of thread_pool/rt-thread/src/slab.c over the
// globals zone_array, zone_free and memusage, the links of the zones and the page list.
module SlabCode {
  import opened Lists
  import opened Pages
  import opened Zones
  import opened Slab
  import opened ZoneLists

  /** zone_free comes behind the lists of zone_array. */
  const FREE := NZONES

  class Allocator {
    const zoneSize: nat
    const limit: nat
    const pages: PageList
    const links: Heads               // zone_array and, behind it, zone_free, linked through z_next
    const usage: array<Usage>        // memusage
    var zones: map<nat, Zone>        // the in-band zone headers in use
    var spareCount: nat              // zone_free_cnt
    ghost var taken: set<Run>
    ghost var large: map<nat, nat>

    ghost function View(): State
      reads this, pages, links, usage
      requires |links.lists| == NZONES + 1
    {
      State(zoneSize, limit, Pool(0, usage.Length, pages.rs, taken), zones, links.lists[..NZONES], links.lists[FREE],
            large, usage[..])
    }

    /** The links and the count of spare zones are right. */
    ghost predicate Sound()
      reads this, pages, links, links.heads
    {
      pages.Shows() && links.Valid() && |links.lists| == NZONES + 1 && spareCount == |links.lists[FREE]|
    }

    ghost predicate Valid()
      reads this, pages, links, links.heads, usage
    {
      Sound() && Inv(View())
    }

    /** rt_system_heap_init for npages pages, the sizes of the zones already chosen. */
    constructor (npages: nat, zoneSize: nat, limit: nat)
      requires 0 < npages && Sizes(zoneSize, limit)
      ensures Valid() && zones == map[] && large == map[]
      ensures fresh(pages) && fresh(links) && fresh(links.heads) && fresh(usage)
    {
      this.zoneSize, this.limit := zoneSize, limit;
      pages := new PageList(npages);
      links := new Heads(NZONES + 1);
      usage := new Usage[npages](i => FreeType);
      zones, spareCount, taken, large := map[], 0, {}, map[];
      new;
      ReserveTable(npages);
    }

    /** The pages of the table itself. */
    method ReserveTable(npages: nat)
      requires 0 < npages == usage.Length && Sizes(zoneSize, limit) && Sound()
      requires pages.rs == [Run(0, npages)] && taken == {} && zones == map[] && large == map[]
      requires links.lists == seq(NZONES + 1, i => [])
      modifies this`taken, pages
      ensures Valid()
    {
      hide Conserved, Chained, Sorted, Inv, Obtain;
      AllFree(pages.rs, npages);
      ObtainFrame(View().pool, (4 * npages + PAGE - 1) / PAGE);
      var memusage := GetPages((4 * npages + PAGE - 1) / PAGE);
      InitInv(zoneSize, limit, View().pool, usage[..]);
      assert links.lists[..NZONES] == seq(NZONES, i => []) && links.lists[FREE] == [];
      assert View() == State(zoneSize, limit, View().pool, map[], seq(NZONES, i => []), [], map[], usage[..]);
    }

    /** Takes n pages from the page list. */
    method GetPages(n: nat) returns (found: Found)
      requires Sound() && Conserved(View().pool)
      modifies this`taken, pages
      ensures Sound() && (View().pool, found) == Obtain(old(View().pool), n)
    {
      hide Sorted, Pages.Alloc;
      AllocSorted(pages.rs, 0, n);
      AllocTakes(pages.rs, 0, n, 0);
      found := pages.PageAlloc(n, 0);
      if found.At? { taken := taken + {Run(found.page, n)}; }
    }

    /** Gives a run of pages back to the page list. */
    method PutPages(p: nat, n: nat)
      requires Sound() && Conserved(View().pool) && Run(p, n) in taken
      modifies this`taken, pages
      ensures Sound() && View().pool == Return(old(View().pool), Run(p, n))
    {
      hide Sorted, Pages.Free;
      pages.PageFree(p, n, 0);
      taken := taken - {Run(p, n)};
    }

    // ----- rt_malloc

    method MallocLarge(n: nat) returns (addr: Ptr)
      requires Valid() && limit <= n < WORD
      modifies this`taken, this`large, pages, usage
      ensures Valid() && (View(), addr) == Slab.Malloc(old(View()), n)
    {
      hide Obtain, Conserved, ZonesOk, ArrayOk, Distinct;
      MallocKeeps(View(), n);
      ObtainFrame(View().pool, PagesFor(n));
      LimitBound(View());
      var npages := (n + PAGE - 1) % WORD / PAGE;
      var found := GetPages(npages);
      if found.None? { return Null; }
      usage[found.page] := Large(npages);
      large := large[found.page := npages];
      addr := To(PAGE * found.page);
    }

    /** A chunk of the first zone in a list. */
    method MallocFrom(zi: nat) returns (addr: Ptr)
      requires Valid() && zi < NZONES && links.lists[zi] != []
      modifies this`zones, links`next, links`lists, links.heads
      ensures old(View()).lists[zi][0] in old(zones) && 0 < old(zones)[old(View()).lists[zi][0]].chunk
      ensures Valid() && (View(), addr) == Slab.MallocFrom(old(View()), zi)
    {
      hide Offset, ZoneOk, Out, Distinct, BlocksOk, UsageOk, Chained;
      LimitBound(View());
      ListHead(View(), zi);
      MallocFromKeeps(View(), zi);
      links.First(zi);
      var p := links.heads[zi];
      var z := zones[p];
      z := z.(nfree := z.nfree - 1);
      if z.nfree == 0 {
        links.Pop(zi);
        assert links.lists[..NZONES] == old(links.lists[..NZONES])[zi := old(links.lists[zi])[1..]];
      }
      var i;
      if z.uindex + 1 != z.nmax {
        z := z.(uindex := z.uindex + 1);
        i := z.uindex;
      } else {
        i := z.freed[0];
        z := z.(freed := z.freed[1..]);
      }
      zones := zones[p := z];
      addr := To(PAGE * p + Offset(z.chunk) + z.chunk * i);
    }

    /** A new zone: a spare one, or one of fresh pages that are entered into the table. */
    method GetZone() returns (found: Found)
      requires Valid()
      modifies this`taken, this`spareCount, links`next, links`lists, links.heads, pages, usage
      ensures Sound() && (View(), found) == Slab.GetZone(old(View()))
    {
      hide Obtain, Conserved, ZonesOk, ArrayOk, Distinct, Chained;
      ObtainFrame(View().pool, ZonePages(View()));
      links.First(FREE);
      if links.heads[FREE] != NIL {
        found := At(links.heads[FREE]);
        links.Pop(FREE);
        assert links.lists[..NZONES] == old(links.lists[..NZONES]);
        spareCount := spareCount - 1;
        return;
      }
      found := GetPages(zoneSize / PAGE);
      if found.None? { return; }
      ghost var pool := View().pool;
      for off := 0 to zoneSize / PAGE
        invariant Sound() && View().pool == pool && links.lists == old(links.lists)
        invariant forall q :: 0 <= q < usage.Length ==>
          usage[q] == if found.page <= q < found.page + off then Small(q - found.page) else old(usage[q])
      {
        usage[found.page + off] := Small(off);
      }
      assert usage[..] == Mark(old(usage[..]), found.page, zoneSize / PAGE);
    }

    method MallocNew(n: nat) returns (addr: Ptr)
      requires Valid() && 0 < n < limit && n < 16384 && links.lists[ZoneIndex(n).0] == []
      modifies this`zones, this`taken, this`spareCount, links`next, links`lists, links.heads, pages, usage
      ensures 0 < ZoneIndex(n).1
      ensures Valid() && (View(), addr) == Slab.MallocNew(old(View()), ZoneIndex(n).0, ZoneIndex(n).1)
    {
      hide Offset, ZoneIndex, Slab.GetZone, Inv, Chained;
      ZoneIndexIs(n);
      MallocNewKeeps(View(), n);
      GetZoneKeeps(View());
      var (zi, size) := ZoneIndex(n);
      ghost var s := View();
      var found := GetZone();
      if found.None? { return Null; }
      var off := Offset(size);
      var nmax := (zoneSize - off) / size;
      zones := zones[found.page := Zone(zi, size, nmax, 0, nmax - 1, [])];
      FreshZone(s, found.page, links.lists);
      PushFront(zi, found.page);
      addr := To(PAGE * found.page + off);
    }

    /** Links a zone into a list of zone_array. */
    method PushFront(zi: nat, p: nat)
      requires Sound() && zi < NZONES && Nowhere(links.lists, p)
      modifies links`next, links`lists, links.heads
      ensures Sound() && View() == old(View()).(lists := old(View()).lists[zi := [p] + old(View()).lists[zi]])
    {
      hide Chained;
      links.Push(zi, p);
      assert links.lists[..NZONES] == old(links.lists[..NZONES])[zi := [p] + old(links.lists[zi])];
    }

    method Malloc(n: nat) returns (addr: Ptr)
      requires Valid() && n < WORD
      modifies this, pages, links, links.heads, usage
      ensures Valid() && (View(), addr) == Slab.Malloc(old(View()), n)
    {
      hide Chained, ZoneIndex, Slab.MallocFrom, Slab.MallocNew, BlocksOk, UsageOk, ZonesOk, ArrayOk;
      LimitBound(View());
      if n == 0 { return Null; }
      if n >= limit {
        addr := MallocLarge(n);
        return;
      }
      ZoneIndexIs(n);
      var zi := ZoneIndex(n).0;
      links.First(zi);
      if links.heads[zi] != NIL {
        addr := MallocFrom(zi);
      } else {
        addr := MallocNew(n);
      }
    }

    // ----- rt_free

    method FreeLarge(p: nat)
      requires Valid() && p in large
      modifies this`taken, this`large, pages, usage
      ensures p < usage.Length && Valid() && View() == Slab.FreeLarge(old(View()), p)
    {
      hide Conserved, ZonesOk, ArrayOk, Distinct, Return;
      FreeLargeKeeps(View(), p);
      var size := usage[p].pages;
      usage[p] := Large(0);
      PutPages(p, size);
      large := large - {p};
    }

    method ReleaseSpare()
      requires Valid()
      modifies this`taken, this`spareCount, links`next, links`lists, links.heads, pages, usage
      ensures Valid() && View() == Slab.ReleaseSpare(old(View()))
    {
      hide Conserved, ZonesOk, ArrayOk, Distinct, Return, Chained;
      ReleaseSpareKeeps(View());
      links.First(FREE);
      if spareCount > ZONE_RELEASE_THRESH {
        var z := links.heads[FREE];
        assert IsZone(View(), z);
        TakenInside(View().pool, Run(z, zoneSize / PAGE));
        links.Pop(FREE);
        assert links.lists[..NZONES] == old(links.lists[..NZONES]);
        spareCount := spareCount - 1;
        ghost var lists := links.lists;
        for i := 0 to zoneSize / PAGE
          invariant Sound() && View().pool == old(View().pool) && links.lists == lists
          invariant forall q :: 0 <= q < usage.Length ==>
            usage[q] == if z <= q < z + i then FreeType else old(usage[q])
        {
          usage[z + i] := FreeType;
        }
        assert usage[..] == Clear(old(usage[..]), z, zoneSize / PAGE);
        PutPages(z, zoneSize / PAGE);
      }
    }

    method FreeChunk(p: nat, i: nat)
      requires Valid() && Holds(View(), p, i)
      modifies this, pages, links, links.heads, usage
      ensures p in old(zones) && old(zones)[p].zi < NZONES
      ensures Valid() && View() == Slab.FreeChunk(old(View()), p, i)
    {
      hide BlocksOk, UsageOk, ZonesOk, ArrayOk, Out, Drop, Slab.ReleaseSpare, Chained;
      GiveBackKeeps(View(), p, i);
      var z := zones[p];
      UnlistedZone(View(), p, links.lists);
      z := z.(freed := [i] + z.freed);
      z := z.(nfree := z.nfree + 1);
      zones := zones[p := z];
      if z.nfree - 1 == 0 {
        PushFront(z.zi, p);
      }
      assert View() == GiveBack(old(View()), p, i);
      ChunkPositive(View(), p);
      assert z.nfree > 0;
      ListedZone(View(), p);
      links.NotAlone(z.zi, p);
      if z.nfree == z.nmax && (links.next[p] != NIL || links.heads[z.zi] != p) {
        RetireKeeps(View(), p);
        RetireZone(p, z.zi);
        ReleaseSpare();
      }
    }

    /** The zone leaves its list and becomes a spare one. */
    method RetireZone(p: nat, zi: nat)
      requires Sound() && p in zones && zones[p].zi == zi < NZONES && p in links.lists[zi]
      modifies this`zones, this`spareCount, links`next, links`lists, links.heads
      ensures Sound() && View() == Retire(old(View()), p)
    {
      hide Chained, Drop;
      OnlyThere(links.next, links.heads[..], links.lists, zi, p);
      links.Unlist(zi, p);
      zones := zones - {p};
      links.Push(FREE, p);
      assert links.lists[..NZONES] == old(links.lists[..NZONES])[zi := Drop(old(links.lists[zi]), p)];
      spareCount := spareCount + 1;
    }

    method Free(addr: nat)
      requires Valid() && (LiveChunk(View(), addr) || LiveLarge(View(), addr))
      modifies this, pages, links, links.heads, usage
      ensures Valid() && View() == Slab.Free(old(View()), addr)
    {
      hide Inv, Out, Offset, Slab.FreeChunk, Slab.FreeLarge;
      if LiveLarge(View(), addr) { LargeKnown(View(), addr / PAGE); } else { LiveHolds(View(), addr); }
      var page := addr / PAGE;
      if usage[page].Large? {
        FreeLarge(page);
        return;
      }
      var p := page - usage[page].off;
      var i := (addr - PAGE * p - Offset(zones[p].chunk)) / zones[p].chunk;
      FreeChunk(p, i);
    }
  }

  /** A page list with all pages in one run conserves them. */
  lemma AllFree(rs: seq<Run>, n: nat)
    requires 0 < n && rs == [Run(0, n)]
    ensures Conserved(Pool(0, n, rs, {}))
  {
    assert rs[1..] == [];
    forall p: nat ensures FreePage(rs, p) <==> p < n { FreeTail(rs, p); }
  }

  lemma LargeKnown(s: State, p: nat)
    requires Inv(s) && p in s.large
    ensures p < |s.usage| && s.usage[p] == Large(s.large[p])
  {
  }

  lemma TakenInside(h: Pool, a: Run)
    requires Conserved(h) && a in h.taken
    ensures a.at + a.count <= h.hi
  {
  }

  /** A zone made of spare or fresh pages is in no list. */
  lemma FreshZone(s: State, p: nat, lists: seq<seq<nat>>)
    requires Inv(s) && Slab.GetZone(s).1 == At(p)
    requires |lists| == NZONES + 1 && lists[..NZONES] == s.lists && lists[FREE] == Slab.GetZone(s).0.spare
    ensures Nowhere(lists, p)
  {
    hide Conserved, ZonesOk, UsageOk, Slab.GetZone;
    GetZoneKeeps(s);
    forall k | 0 <= k < |lists| ensures p !in lists[k] {
      if k < NZONES { assert lists[k] == s.lists[k]; }
    }
  }

  /** A zone without free chunks is in no list. */
  lemma UnlistedZone(s: State, p: nat, lists: seq<seq<nat>>)
    requires Inv(s) && p in s.zones && |lists| == NZONES + 1 && lists[..NZONES] == s.lists && lists[FREE] == s.spare
    ensures s.zones[p].nfree == 0 ==> Nowhere(lists, p)
  {
    hide Conserved, ZonesOk, UsageOk;
    if s.zones[p].nfree == 0 {
      forall k | 0 <= k < |lists| ensures p !in lists[k] {
        if k < NZONES { assert lists[k] == s.lists[k]; }
      }
    }
  }

  /** Once it has left its list, a zone is in none. */
  lemma OnlyThere(next: map<nat, int>, heads: seq<int>, lists: seq<seq<nat>>, zi: nat, p: nat)
    requires Chained(next, heads, lists) && zi < |lists| && p in lists[zi]
    ensures Nowhere(lists[zi := Drop(lists[zi], p)], p)
  {
    hide Chain, Drop;
    DropOne(lists[zi], p);
  }

  /** A zone in use with free chunks is in the list of its index. */
  lemma ListedZone(s: State, p: nat)
    requires Inv(s) && p in s.zones && s.zones[p].nfree > 0
    ensures s.zones[p].zi < NZONES && p in s.lists[s.zones[p].zi]
  {
  }
}
