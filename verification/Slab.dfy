// The slab allocator of thread_pool/rt-thread/src/slab.c, as a function of its
// state: zones of equal chunks over the page allocator, and the memusage table that
// leads from an address back to its zone.
module Slab {
  import opened Lists
  import opened Pages
  import opened Zones

  const PAGE := 4096
  const WORD := 0x1_0000_0000
  const ZONE_RELEASE_THRESH := 2

  /** struct memusage: the type of a page, and its offset from its zone or the length of its block. */
  datatype Usage = FreeType | Small(off: nat) | Large(pages: nat)

  /** zones are the zones in use by first page, lists those of zone_array, spare the list zone_free;
      large is what the client holds in blocks of its own.  Addresses count from heap_start. */
  datatype State = State(zoneSize: nat, limit: nat, pool: Pool, zones: map<nat, Zone>, lists: seq<seq<nat>>,
                       spare: seq<nat>, large: map<nat, nat>, usage: seq<Usage>)

  datatype Ptr = Null | To(addr: nat)

  function ZonePages(s: State): nat { s.zoneSize / PAGE }

  // ----- The invariant

  predicate IsZone(s: State, p: nat) { p in s.zones || p in s.spare }

  /** Zones, spare zones and large blocks are runs of pages handed out by the page allocator. */
  ghost predicate BlocksOk(s: State) {
    && Sizes(s.zoneSize, s.limit)
    && Conserved(s.pool) && s.pool.lo == 0 && s.pool.hi == |s.usage|
    && Distinct(s.spare)
    && (forall p :: p in s.zones ==> p !in s.spare)
    && (forall p :: IsZone(s, p) ==> Run(p, ZonePages(s)) in s.pool.taken)
    && (forall p :: p in s.large ==> !IsZone(s, p) && Run(p, s.large[p]) in s.pool.taken)
  }

  ghost predicate ZonesOk(zones: map<nat, Zone>, zoneSize: nat) {
    forall p :: p in zones ==> ZoneOk(zones[p], zoneSize)
  }

  /** zone_array[i] holds exactly the zones of index i in use with free chunks. */
  ghost predicate ArrayOk(lists: seq<seq<nat>>, zones: map<nat, Zone>) {
    && |lists| == NZONES
    && (forall i :: 0 <= i < NZONES ==> Distinct(lists[i]))
    && (forall i, p :: 0 <= i < NZONES ==> (p in lists[i] <==> p in zones && zones[p].zi == i && zones[p].nfree > 0))
  }

  ghost predicate Marked(usage: seq<Usage>, p: nat, n: nat) {
    p + n <= |usage| && forall q :: p <= q < p + n ==> usage[q] == Small(q - p)
  }

  /** The table leads from every page of a zone to its first one, and knows the length of the large blocks. */
  ghost predicate UsageOk(s: State) {
    && (forall p :: IsZone(s, p) ==> Marked(s.usage, p, ZonePages(s)))
    && (forall p :: p in s.large ==> p < |s.usage| && s.usage[p] == Large(s.large[p]))
  }

  ghost predicate Inv(s: State) {
    BlocksOk(s) && ZonesOk(s.zones, s.zoneSize) && ArrayOk(s.lists, s.zones) && UsageOk(s)
  }

  /** A heap with no zone yet: rt_system_heap_init, whatever the fresh table holds; the pages of the table
      itself may be handed out already. */
  lemma InitInv(zoneSize: nat, limit: nat, pool: Pool, usage: seq<Usage>)
    requires Sizes(zoneSize, limit) && Conserved(pool) && pool.lo == 0 && pool.hi == |usage|
    ensures Inv(State(zoneSize, limit, pool, map[], seq(NZONES, i => []), [], map[], usage))
  {
    hide Conserved;
  }

  // ----- Addresses

  /** The address of chunk i of the zone at page p. */
  function ChunkAddr(s: State, p: nat, i: nat): nat
    requires p in s.zones && 0 < s.zones[p].chunk
  {
    PAGE * p + Offset(s.zones[p].chunk) + s.zones[p].chunk * i
  }

  predicate Holds(s: State, p: nat, i: nat) { p in s.zones && i in Out(s.zones[p]) }

  lemma ChunkPositive(s: State, p: nat)
    requires Inv(s) && p in s.zones
    ensures ZoneOk(s.zones[p], s.zoneSize) && 8 <= s.zones[p].chunk && s.zones[p].chunk % 8 == 0
  {
    hide Count, Out, BlocksOk, ArrayOk, UsageOk;
  }

  /** Every chunk lies inside the pages of its zone. */
  lemma ChunkInZone(s: State, p: nat, i: nat)
    requires Inv(s) && Holds(s, p, i)
    ensures 0 < s.zones[p].chunk
    ensures PAGE * p <= ChunkAddr(s, p, i) && ChunkAddr(s, p, i) + s.zones[p].chunk <= PAGE * (p + ZonePages(s))
  {
    hide Count, Offset, ChunkSize;
    ChunkPositive(s, p);
    ChunkInside(s.zoneSize, s.zones[p].chunk, i);
    assert s.zoneSize == PAGE * ZonePages(s) by { assert Sizes(s.zoneSize, s.limit); }
  }

  /** Chunks in the hands of the client never overlap each other. */
  lemma ChunksApart(s: State, p: nat, i: nat, q: nat, j: nat)
    requires Inv(s) && Holds(s, p, i) && Holds(s, q, j) && (p, i) != (q, j)
    ensures 0 < s.zones[p].chunk && 0 < s.zones[q].chunk
    ensures ChunkAddr(s, p, i) + s.zones[p].chunk <= ChunkAddr(s, q, j)
            || ChunkAddr(s, q, j) + s.zones[q].chunk <= ChunkAddr(s, p, i)
  {
    hide Offset, Out, ChunkSize, Count;
    ChunkInZone(s, p, i);
    ChunkInZone(s, q, j);
    if p != q {
      assert !Overlap(Run(p, ZonePages(s)), Run(q, ZonePages(s)));
    } else if i < j {
      LessTimes(s.zones[p].chunk, i, j);
    } else {
      LessTimes(s.zones[p].chunk, j, i);
    }
  }

  /** Nor a large block. */
  lemma ChunkApartFromLarge(s: State, p: nat, i: nat, q: nat)
    requires Inv(s) && Holds(s, p, i) && q in s.large
    ensures 0 < s.zones[p].chunk
    ensures ChunkAddr(s, p, i) + s.zones[p].chunk <= PAGE * q || PAGE * (q + s.large[q]) <= ChunkAddr(s, p, i)
  {
    hide Offset, Out, ChunkSize, Count;
    ChunkInZone(s, p, i);
    assert !Overlap(Run(p, ZonePages(s)), Run(q, s.large[q]));
  }

  /** For every chunk the table leads back to the zone and its number. */
  lemma LookupIs(s: State, p: nat, i: nat)
    requires Inv(s) && Holds(s, p, i)
    ensures 0 < s.zones[p].chunk
    ensures var q := ChunkAddr(s, p, i) / PAGE;
            && q < |s.usage| && s.usage[q].Small? && s.usage[q].off <= q && q - s.usage[q].off == p
            && (ChunkAddr(s, p, i) - PAGE * p - Offset(s.zones[p].chunk)) / s.zones[p].chunk == i
  {
    hide Offset, Out, ChunkSize, Count;
    ChunkInZone(s, p, i);
    var q := ChunkAddr(s, p, i) / PAGE;
    assert p <= q < p + ZonePages(s);
    assert IsZone(s, p);
    DivIs(s.zones[p].chunk * i, s.zones[p].chunk, i);
  }

  // ----- rt_malloc

  /** Pages of a large request, rounded up in 32-bit arithmetic. */
  function PagesFor(n: nat): nat { (n + PAGE - 1) % WORD / PAGE }

  function MallocLarge(s: State, n: nat): (State, Ptr)
    requires Conserved(s.pool) && s.pool.hi == |s.usage|
  {
    ObtainFrame(s.pool, PagesFor(n));
    var (pool, f) := Obtain(s.pool, PagesFor(n));
    if f.None? then (s, Null)
    else (s.(pool := pool, large := s.large[f.page := PagesFor(n)],
             usage := s.usage[f.page := Large(PagesFor(n))]), To(PAGE * f.page))
  }

  /** The first zone of a list hands out a chunk, and leaves the list with its last one. */
  function MallocFrom(s: State, zi: nat): (State, Ptr)
    requires zi < |s.lists| && s.lists[zi] != [] && s.lists[zi][0] in s.zones && 0 < s.zones[s.lists[zi][0]].chunk
  {
    var p := s.lists[zi][0];
    var z := s.zones[p];
    if z.uindex + 1 == z.nmax && z.freed == [] then (s, Null)
    else
      var (z', i) := TakeChunk(z);
      (s.(zones := s.zones[p := z'], lists := if z'.nfree == 0 then s.lists[zi := s.lists[zi][1..]] else s.lists),
       To(ChunkAddr(s, p, i)))
  }

  /** The table entries of a new zone. */
  function Mark(usage: seq<Usage>, p: nat, n: nat): (r: seq<Usage>)
    ensures |r| == |usage|
    ensures forall q :: 0 <= q < |r| ==> r[q] == if p <= q < p + n then Small(q - p) else usage[q]
  {
    seq(|usage|, q requires 0 <= q < |usage| => if p <= q < p + n then Small(q - p) else usage[q])
  }

  function Clear(usage: seq<Usage>, p: nat, n: nat): (r: seq<Usage>)
    ensures |r| == |usage|
    ensures forall q :: 0 <= q < |r| ==> r[q] == if p <= q < p + n then FreeType else usage[q]
  {
    seq(|usage|, q requires 0 <= q < |usage| => if p <= q < p + n then FreeType else usage[q])
  }

  /** A spare zone, or else one made of fresh pages. */
  function GetZone(s: State): (State, Found) {
    if s.spare != [] then (s.(spare := s.spare[1..]), At(s.spare[0]))
    else
      var (pool, f) := Obtain(s.pool, ZonePages(s));
      if f.None? then (s, None) else (s.(pool := pool, usage := Mark(s.usage, f.page, ZonePages(s))), f)
  }

  /** A new zone, the only one in its list, hands out its first chunk. */
  function MallocNew(s: State, zi: nat, chunk: nat): (State, Ptr)
    requires zi < |s.lists| && 0 < chunk
  {
    var (s1, f) := GetZone(s);
    if f.None? then (s, Null)
    else (s1.(zones := s1.zones[f.page := NewZone(zi, chunk, s.zoneSize)],
        lists := s1.lists[zi := [f.page] + s1.lists[zi]]),
          To(PAGE * f.page + Offset(chunk)))
  }

  function Malloc(s: State, n: nat): (State, Ptr)
    requires Inv(s) && n < WORD
  {
    if n == 0 then (s, Null)
    else if n >= s.limit then MallocLarge(s, n)
    else
      var (zi, chunk) := ZoneIndex(n);
      ZoneIndexIs(n);
      if s.lists[zi] != [] then ChunkPositive(s, s.lists[zi][0]); MallocFrom(s, zi) else MallocNew(s, zi, chunk)
  }

  // ----- rt_free

  predicate LiveChunk(s: State, addr: nat) {
    && addr / PAGE < |s.usage| && s.usage[addr / PAGE].Small? && s.usage[addr / PAGE].off <= addr / PAGE
    && var p := addr / PAGE - s.usage[addr / PAGE].off;
       && p in s.zones && 0 < s.zones[p].chunk
       && var d := addr - PAGE * p - Offset(s.zones[p].chunk);
          0 <= d && d % s.zones[p].chunk == 0 && d / s.zones[p].chunk in Out(s.zones[p])
  }

  predicate LiveLarge(s: State, addr: nat) { addr % PAGE == 0 && addr / PAGE in s.large }

  function FreeLarge(s: State, p: nat): State
    requires p in s.large && p < |s.usage|
  {
    s.(usage := s.usage[p := Large(0)], large := s.large - {p}, pool := Return(s.pool, Run(p, s.large[p])))
  }

  /** Chunk i goes back to its zone, which comes back into its list if it had left it. */
  function GiveBack(s: State, p: nat, i: nat): State
    requires p in s.zones && s.zones[p].zi < |s.lists|
  {
    var z := s.zones[p];
    s.(zones := s.zones[p := GiveChunk(z, i)],
       lists := if z.nfree == 0 then s.lists[z.zi := [p] + s.lists[z.zi]] else s.lists)
  }

  /** An all-free zone that is not the only one in its list becomes a spare zone. */
  function Retire(s: State, p: nat): State
    requires p in s.zones && s.zones[p].zi < |s.lists|
  {
    var zi := s.zones[p].zi;
    s.(zones := s.zones - {p}, lists := s.lists[zi := Drop(s.lists[zi], p)], spare := [p] + s.spare)
  }

  /** Above the threshold the first spare zone goes back to the page allocator. */
  function ReleaseSpare(s: State): State {
    if |s.spare| > ZONE_RELEASE_THRESH then
      var p := s.spare[0];
      s.(spare := s.spare[1..], usage := Clear(s.usage, p, ZonePages(s)), pool := Return(s.pool, Run(p, ZonePages(s))))
    else s
  }

  function FreeChunk(s: State, p: nat, i: nat): State
    requires p in s.zones && s.zones[p].zi < |s.lists|
  {
    var s1 := GiveBack(s, p, i);
    if s1.zones[p].nfree == s1.zones[p].nmax && |s1.lists[s1.zones[p].zi]| > 1
    then ReleaseSpare(Retire(s1, p)) else s1
  }

  function Free(s: State, addr: nat): State
    requires Inv(s) && (LiveChunk(s, addr) || LiveLarge(s, addr))
  {
    if LiveLarge(s, addr) then FreeLarge(s, addr / PAGE)
    else
      var p := addr / PAGE - s.usage[addr / PAGE].off;
      FreeChunk(s, p, (addr - PAGE * p - Offset(s.zones[p].chunk)) / s.zones[p].chunk)
  }

  // ----- Malloc keeps the invariant

  /** The first zone of a list has a free chunk. */
  lemma ListHead(s: State, zi: nat)
    requires Inv(s) && zi < NZONES && s.lists[zi] != []
    ensures var p := s.lists[zi][0];
            && p in s.zones && s.zones[p].zi == zi && s.zones[p].nfree > 0 && 0 < s.zones[p].chunk
            && ZoneOk(s.zones[p], s.zoneSize)
            && (s.zones[p].uindex + 1 == s.zones[p].nmax ==> s.zones[p].freed != [])
  {
    hide BlocksOk, UsageOk, Out;
    var p := s.lists[zi][0];
    assert p in s.lists[zi];
    ChunkPositive(s, p);
    TakeChunkOk(s.zones[p], s.zoneSize);
  }

  /** The same blocks, told by the same table. */
  lemma SameBlocks(s: State, s': State)
    requires BlocksOk(s) && UsageOk(s)
    requires s'.zoneSize == s.zoneSize && s'.limit == s.limit && s'.pool == s.pool && s'.spare == s.spare
    requires s'.large == s.large && s'.usage == s.usage && s'.zones.Keys == s.zones.Keys
    ensures BlocksOk(s') && UsageOk(s')
  {
    hide Conserved, Distinct;
    assert forall p :: IsZone(s', p) <==> IsZone(s, p);
  }

  lemma MallocFromKeeps(s: State, zi: nat)
    requires Inv(s) && zi < NZONES && s.lists[zi] != []
    ensures s.lists[zi][0] in s.zones && 0 < s.zones[s.lists[zi][0]].chunk
    ensures Inv(MallocFrom(s, zi).0)
  {
    hide Out, BlocksOk, UsageOk, ZoneOk, Distinct;
    ListHead(s, zi);
    var p := s.lists[zi][0];
    TakeChunkOk(s.zones[p], s.zoneSize);
    TailDistinct(s.lists[zi]);
    var s' := MallocFrom(s, zi).0;
    SameBlocks(s, s');
    NfreePositive(s'.zones[p], s.zoneSize);
  }

  predicate NfreeOk(z: Zone) { z.nfree >= 0 }

  lemma NfreePositive(z: Zone, zoneSize: nat)
    requires ZoneOk(z, zoneSize)
    ensures NfreeOk(z)
  {
  }

  lemma TailDistinct(list: seq<nat>)
    requires Distinct(list) && list != []
    ensures Distinct(list[1..]) && forall p :: p in list[1..] <==> p in list && p != list[0]
  {
    assert list == [list[0]] + list[1..];
  }

  /** The pages from p on are a zone of nobody yet, marked in the table. */
  ghost predicate Reserved(s: State, p: nat) {
    && !IsZone(s, p) && p !in s.large && Run(p, ZonePages(s)) in s.pool.taken
    && Marked(s.usage, p, ZonePages(s))
  }

  lemma GetSpareKeeps(s: State)
    requires Inv(s) && s.spare != []
    ensures var (s1, f) := GetZone(s); f.At? && Inv(s1) && Reserved(s1, f.page)
  {
    hide ZonesOk, ArrayOk, Conserved, Distinct;
    var s1, p := GetZone(s).0, s.spare[0];
    TailDistinct(s.spare);
    assert IsZone(s, p) && !IsZone(s1, p);
    assert forall q :: IsZone(s1, q) ==> IsZone(s, q);
  }

  lemma GetFreshKeeps(s: State)
    requires Inv(s) && s.spare == []
    ensures var (s1, f) := GetZone(s); Inv(s1) && (f.At? ==> Reserved(s1, f.page)) && (f.None? ==> s1 == s)
  {
    hide ZonesOk, ArrayOk, Conserved, Distinct, Obtain, Mark;
    ObtainFrame(s.pool, ZonePages(s));
    var (s1, f) := GetZone(s);
    if f.At? {
      FreshRun(s, Run(f.page, ZonePages(s)));
      assert forall q :: IsZone(s1, q) <==> IsZone(s, q);
      forall p | IsZone(s1, p) ensures Marked(s1.usage, p, ZonePages(s1)) {
        assert IsZone(s, p) && !Overlap(Run(p, ZonePages(s)), Run(f.page, ZonePages(s)));
      }
      forall p | p in s1.large ensures p < |s1.usage| && s1.usage[p] == Large(s1.large[p]) {
        assert !Covers(Run(f.page, ZonePages(s)), p);
      }
    }
  }

  lemma GetZoneKeeps(s: State)
    requires Inv(s)
    ensures var (s1, f) := GetZone(s);
            && Inv(s1) && s1.zoneSize == s.zoneSize && s1.limit == s.limit && s1.zones == s.zones && s1.lists == s.lists
            && (f.At? ==> Reserved(s1, f.page)) && (f.None? ==> s1 == s)
  {
    hide Inv, Obtain;
    if s.spare != [] { GetSpareKeeps(s); } else { GetFreshKeeps(s); }
  }

  /** What Obtain says, without its proof. */
  lemma ObtainFrame(h: Pool, n: nat)
    requires Conserved(h)
    ensures var (h', f) := Obtain(h, n);
            && Conserved(h') && h'.lo == h.lo && h'.hi == h.hi
            && (f.None? ==> h' == h)
            && (f.At? ==> 0 < n && h'.taken == h.taken + {Run(f.page, n)} && f.page + n <= h.hi
                          && forall a :: a in h.taken ==> !Overlap(a, Run(f.page, n)))
  {
    hide Pages.Alloc;
    ObtainKeeps(h, n);
  }

  /** A run that overlaps nothing handed out starts no block, and its pages are in no block. */
  lemma FreshRun(s: State, r: Run)
    requires Inv(s) && 0 < r.count && forall a :: a in s.pool.taken ==> !Overlap(a, r)
    ensures !IsZone(s, r.at) && r.at !in s.large
    ensures forall p :: IsZone(s, p) ==> !Overlap(Run(p, ZonePages(s)), r)
    ensures forall p: nat :: p in s.large ==> !Covers(r, p)
  {
    hide ZonesOk, ArrayOk;
    forall p | IsZone(s, p) ensures !Overlap(Run(p, ZonePages(s)), r) {
      assert Run(p, ZonePages(s)) in s.pool.taken;
    }
    forall p: nat | p in s.large ensures !Covers(r, p) {
      assert Run(p, s.large[p]) in s.pool.taken;
    }
    assert Covers(r, r.at);
  }

  /** A reserved run becomes the only zone of its list. */
  lemma AddZoneKeeps(s: State, p: nat, z: Zone)
    requires Inv(s) && Reserved(s, p) && ZoneOk(z, s.zoneSize) && 0 < z.nfree && s.lists[z.zi] == []
    ensures Inv(s.(zones := s.zones[p := z], lists := s.lists[z.zi := [p] + s.lists[z.zi]]))
  {
    hide Out, Conserved;
    var s' := s.(zones := s.zones[p := z], lists := s.lists[z.zi := [p] + s.lists[z.zi]]);
    assert forall q :: IsZone(s', q) <==> IsZone(s, q) || q == p;
  }

  lemma MallocNewKeeps(s: State, n: nat)
    requires Inv(s) && 0 < n < s.limit && s.lists[ZoneIndex(n).0] == []
    ensures ZoneIndex(n).0 < NZONES && 0 < ZoneIndex(n).1
    ensures Inv(MallocNew(s, ZoneIndex(n).0, ZoneIndex(n).1).0)
  {
    hide Inv, ZoneIndex, Out, GetZone;
    ZoneIndexIs(n) by { assert n < 16384 by { LimitBound(s); } }
    LimitBound(s);
    NewZoneOk(n, s.zoneSize, s.limit);
    GetZoneKeeps(s);
    var (s1, f) := GetZone(s);
    if f.At? { AddZoneKeeps(s1, f.page, NewZone(ZoneIndex(n).0, ZoneIndex(n).1, s.zoneSize)); }
  }

  lemma LimitBound(s: State)
    requires Inv(s)
    ensures s.limit <= 16384 && Sizes(s.zoneSize, s.limit) && |s.lists| == NZONES
  {
  }

  lemma MallocLargeKeeps(s: State, n: nat)
    requires Inv(s) && s.limit <= n
    ensures Inv(MallocLarge(s, n).0)
  {
    hide Conserved, ZonesOk, ArrayOk, Distinct, Obtain;
    ObtainFrame(s.pool, PagesFor(n));
    var (pool, f) := Obtain(s.pool, PagesFor(n));
    var s' := MallocLarge(s, n).0;
    assert forall p :: IsZone(s', p) <==> IsZone(s, p);
    if f.At? {
      FreshRun(s, Run(f.page, PagesFor(n)));
      assert Covers(Run(f.page, PagesFor(n)), f.page);
      forall p | IsZone(s', p) ensures Marked(s'.usage, p, ZonePages(s')) {
        assert IsZone(s, p) && !Overlap(Run(p, ZonePages(s)), Run(f.page, PagesFor(n)));
      }
    }
  }

  lemma MallocKeeps(s: State, n: nat)
    requires Inv(s) && n < WORD
    ensures Inv(Malloc(s, n).0)
  {
    hide Inv, ZoneIndex, MallocLarge, MallocFrom, MallocNew;
    LimitBound(s);
    if n >= s.limit {
      MallocLargeKeeps(s, n);
    } else if n > 0 {
      ZoneIndexIs(n);
      if s.lists[ZoneIndex(n).0] != [] { MallocFromKeeps(s, ZoneIndex(n).0); } else { MallocNewKeeps(s, n); }
    }
  }

  // ----- What malloc hands out

  /** s' is s with chunk i of the zone at p handed out, and nothing else. */
  ghost predicate HandedOut(s: State, s': State, p: nat, i: nat) {
    && !Holds(s, p, i) && s'.large == s.large
    && (forall q, j :: Holds(s', q, j) <==> Holds(s, q, j) || (q == p && j == i))
  }

  lemma MallocFromHandsOut(s: State, zi: nat) returns (p: nat, i: nat)
    requires Inv(s) && zi < NZONES && s.lists[zi] != []
    ensures s.lists[zi][0] in s.zones && 0 < s.zones[s.lists[zi][0]].chunk
    ensures var (s', addr) := MallocFrom(s, zi);
            && HandedOut(s, s', p, i) && p in s'.zones && s'.zones[p].chunk == ChunkSize(zi) && 0 < s'.zones[p].chunk
            && addr == To(ChunkAddr(s', p, i))
  {
    hide Out, BlocksOk, UsageOk, Distinct, ChunkSize, Count, Offset;
    ListHead(s, zi);
    p := s.lists[zi][0];
    TakeChunkOk(s.zones[p], s.zoneSize);
    i := TakeChunk(s.zones[p]).1;
  }

  lemma MallocNewHandsOut(s: State, n: nat) returns (p: nat)
    requires Inv(s) && 0 < n < s.limit && s.lists[ZoneIndex(n).0] == []
    ensures ZoneIndex(n).0 < NZONES && 0 < ZoneIndex(n).1
    ensures var (s', addr) := MallocNew(s, ZoneIndex(n).0, ZoneIndex(n).1);
            addr.To? ==>
              && HandedOut(s, s', p, 0) && p in s'.zones && s'.zones[p].chunk == ZoneIndex(n).1
              && addr == To(ChunkAddr(s', p, 0))
  {
    hide Inv, ZoneIndex, GetZone, Offset, Out;
    LimitBound(s);
    ZoneIndexIs(n);
    NewZoneOk(n, s.zoneSize, s.limit);
    GetZoneKeeps(s);
    GetZoneLarge(s);
    var (s1, f) := GetZone(s);
    p := if f.At? then f.page else 0;
  }

  lemma GetZoneLarge(s: State)
    ensures GetZone(s).0.large == s.large
  {
  }

  /** A small request gets a chunk that nobody holds, of the smallest chunk size that holds the request. */
  lemma MallocSmall(s: State, n: nat) returns (p: nat, i: nat)
    requires Inv(s) && 0 < n < s.limit && Malloc(s, n).1.To?
    ensures var (s', addr) := Malloc(s, n);
            && HandedOut(s, s', p, i) && p in s'.zones && 0 < s'.zones[p].chunk
            && n <= s'.zones[p].chunk && s'.zones[p].chunk == ZoneIndex(n).1 && addr == To(ChunkAddr(s', p, i))
  {
    hide Inv, ZoneIndex, MallocFrom, MallocNew, HandedOut;
    LimitBound(s);
    ZoneIndexIs(n);
    if s.lists[ZoneIndex(n).0] != [] {
      p, i := MallocFromHandsOut(s, ZoneIndex(n).0);
    } else {
      p := MallocNewHandsOut(s, n);
      i := 0;
    }
  }

  /** A large request gets pages of its own, and they cover it: a request whose rounding wraps round asks for no
      pages, and is never served. */
  lemma MallocLargeBlock(s: State, n: nat)
    requires Inv(s) && s.limit <= n < WORD && Malloc(s, n).1.To?
    ensures var (s', addr) := Malloc(s, n);
            && s'.zones == s.zones && addr.addr % PAGE == 0
            && var p := addr.addr / PAGE;
               p !in s.large && s'.large == s.large[p := PagesFor(n)]
               && n <= PAGE * PagesFor(n)
  {
    hide Inv, Obtain;
    LimitBound(s);
    ObtainFrame(s.pool, PagesFor(n)) by { assert Inv(s) ==> BlocksOk(s) by { InvBlocks(s); } }
    InvBlocks(s);
    var f := Obtain(s.pool, PagesFor(n)).1;
    FreshRun(s, Run(f.page, PagesFor(n)));
  }

  // ----- Alignment of requests for powers of two

  /** A chunk of a power of two is aligned to its size, for a heap that starts at any page, exactly when it is not
      larger than a page or its zone happens to be aligned. */
  lemma ChunkAlignedIff(s: State, p: nat, i: nat, heap: nat)
    requires Inv(s) && Holds(s, p, i) && PowerOfTwo(s.zones[p].chunk) && heap % PAGE == 0
    ensures 0 < s.zones[p].chunk
    ensures (heap + ChunkAddr(s, p, i)) % s.zones[p].chunk == 0 <==>
              s.zones[p].chunk <= PAGE || (heap + PAGE * p) % s.zones[p].chunk == 0
  {
    hide Offset, Out, ChunkSize, Count, PowerOfTwo;
    ChunkPositive(s, p);
    var chunk := s.zones[p].chunk;
    OffsetSmall(chunk);
    AddMultiple(heap + PAGE * p, Offset(chunk), i, chunk);
    if chunk <= PAGE { PageAligned(heap, p, chunk); }
  }

  lemma AddMultiple(a: nat, b: nat, i: nat, chunk: nat)
    requires 0 < chunk && b % chunk == 0
    ensures (a + b + chunk * i) % chunk == 0 <==> a % chunk == 0
  {
    var q, r := a / chunk, a % chunk;
    assert a == chunk * q + r && b == chunk * (b / chunk);
    assert a + b + chunk * i == chunk * (q + b / chunk + i) + r;
    Remainder(chunk, q + b / chunk + i, r);
  }

  /** Pages are aligned to all powers of two up to their size. */
  lemma PageAligned(heap: nat, p: nat, n: nat)
    requires PowerOfTwo(n) && 0 < n <= PAGE && heap % PAGE == 0
    ensures (heap + PAGE * p) % n == 0
  {
    hide PowerOfTwo;
    assert PowerOfTwo(PAGE) by { PageIsPower(); }
    PowerDivides(n, PAGE);
    var q, k := PAGE / n, heap / PAGE;
    assert PAGE == n * q;
    assert heap + PAGE * p == PAGE * (k + p);
    assert PAGE * (k + p) == n * (q * (k + p));
    MultipleOf(n, q * (k + p));
  }

  lemma PageIsPower()
    ensures PowerOfTwo(PAGE)
  {
    assert PowerOfTwo(64) by { assert PowerOfTwo(8); }
    assert PowerOfTwo(512) by { assert PowerOfTwo(128); }
  }

  /** What rt_malloc returns for a power of two is aligned to it exactly when it is not larger than a page or the zone
      or block of pages that serves it happens to be aligned. */
  lemma MallocAlignedIff(s: State, n: nat, heap: nat) returns (p: nat)
    requires Inv(s) && 0 < n < WORD && PowerOfTwo(n) && heap % PAGE == 0 && Malloc(s, n).1.To?
    ensures var (s', addr) := Malloc(s, n);
            && (if n < s.limit then p in s'.zones else p in s'.large)
            && PAGE * p <= addr.addr
            && ((heap + addr.addr) % n == 0 <==> n <= PAGE || (heap + PAGE * p) % n == 0)
  {
    hide Inv, PowerOfTwo, Malloc, ChunkAddr, Offset;
    var (s', addr) := Malloc(s, n);
    if n < s.limit {
      var i;
      p, i := MallocSmall(s, n);
      SmallKeeps(s, n);
      LimitBound(s);
      PowerChunk(n);
      ChunkInZone(s', p, i);
      if n < 8 {
        var chunk := s'.zones[p].chunk;
        EightIsPower();
        ChunkAlignedIff(s', p, i, heap);
        PowerDivides(n, 8);
        Divides(n, 8, heap + addr.addr);
      } else {
        ChunkAlignedIff(s', p, i, heap);
      }
    } else {
      MallocLargeBlock(s, n);
      LimitBound(s);
      p := addr.addr / PAGE;
    }
  }

  /** Wherever the heap starts, what rt_malloc returns for a power of two is aligned to it: that holds exactly up to the
      page size. */
  lemma AlignedAnywhereIff(s: State, n: nat)
    requires Inv(s) && 0 < n < WORD && PowerOfTwo(n) && Malloc(s, n).1.To?
    ensures (forall heap: nat :: heap % PAGE == 0 ==> (heap + Malloc(s, n).1.addr) % n == 0) <==> n <= PAGE
  {
    hide Inv, PowerOfTwo, Malloc;
    var addr := Malloc(s, n).1.addr;
    if n <= PAGE {
      forall heap: nat | heap % PAGE == 0 ensures (heap + addr) % n == 0 { var p := MallocAlignedIff(s, n, heap); }
    } else if addr % n == 0 {
      AddRemainder(addr, PAGE, n);
      assert PAGE % PAGE == 0 && (PAGE + addr) % n != 0;
    } else {
      assert 0 % PAGE == 0 && (0 + addr) % n != 0;
    }
  }

  lemma AddRemainder(a: nat, b: nat, n: nat)
    requires b < n && a % n == 0
    ensures (b + a) % n == b
  {
    assert b + a == n * (a / n) + b;
    Remainder(n, a / n, b);
  }

  lemma EightIsPower()
    ensures PowerOfTwo(8)
  {
  }

  lemma SmallKeeps(s: State, n: nat)
    requires Inv(s) && 0 < n < s.limit
    ensures n < WORD && Inv(Malloc(s, n).0)
  {
    hide Inv, Malloc;
    LimitBound(s);
    MallocKeeps(s, n);
  }

  /** The table is in page 0, and a block of 8192 bytes is aligned to 4096 only. */
  lemma UnalignedExample()
    ensures var pool := Pool(0, 32, [Run(1, 31)], {Run(0, 1)});
            var s := State(0x8000, 8192, pool, map[], seq(NZONES, i => []), [], map[], seq(32, i => FreeType));
            Inv(s) && Malloc(s, 8192).1 == To(PAGE) && PowerOfTwo(8192) && PAGE % 8192 != 0
  {
    var pool := Pool(0, 32, [Run(1, 31)], {Run(0, 1)});
    var usage := seq(32, i => FreeType);
    PoolOk(pool);
    InitInv(0x8000, 8192, pool, usage);
    PageIsPower();
    assert PagesFor(8192) == 2;
    assert Obtain(pool, 2).1 == At(1);
  }

  lemma PoolOk(pool: Pool)
    requires pool == Pool(0, 32, [Run(1, 31)], {Run(0, 1)})
    ensures Conserved(pool)
  {
    forall p: nat ensures FreePage(pool.free, p) <==> 1 <= p < 32 { assert pool.free[1..] == []; }
    forall p: nat ensures Taken(pool, p) <==> p == 0 { assert Run(0, 1) in pool.taken; }
  }

  lemma InvBlocks(s: State)
    requires Inv(s)
    ensures BlocksOk(s) && Conserved(s.pool)
  {
  }

  // ----- Free

  lemma ReturnTaken(h: Pool, a: Run)
    requires Conserved(h) && a in h.taken
    ensures var h' := Return(h, a); Conserved(h') && h'.lo == h.lo && h'.hi == h.hi && h'.taken == h.taken - {a}
  {
    hide Pages.Free, Conserved;
    ReturnKeeps(h, a);
  }

  /** Two different runs that are handed out do not overlap. */
  lemma TakenApart(h: Pool, a: Run, b: Run)
    requires Conserved(h) && a in h.taken && b in h.taken && a != b
    ensures !Overlap(a, b) && 0 < a.count && 0 < b.count && a.at + a.count <= h.hi
  {
  }

  lemma FreeLargeKeeps(s: State, p: nat)
    requires Inv(s) && p in s.large
    ensures p < |s.usage| && Inv(FreeLarge(s, p))
  {
    hide Conserved, ZonesOk, ArrayOk, Distinct, Return;
    var r := Run(p, s.large[p]);
    var s' := FreeLarge(s, p);
    ReturnTaken(s.pool, r);
    forall q | IsZone(s', q) ensures Marked(s'.usage, q, ZonePages(s')) && Run(q, ZonePages(s')) in s'.pool.taken {
      assert IsZone(s, q) && q != p;
      TakenApart(s.pool, Run(q, ZonePages(s)), r);
    }
  }

  lemma GiveBackKeeps(s: State, p: nat, i: nat)
    requires Inv(s) && Holds(s, p, i)
    ensures p in s.zones && s.zones[p].zi < NZONES && Inv(GiveBack(s, p, i))
    ensures forall q, j :: Holds(GiveBack(s, p, i), q, j) <==> Holds(s, q, j) && !(q == p && j == i)
  {
    hide Out, BlocksOk, UsageOk, Distinct, ChunkSize, Count;
    var z, s' := s.zones[p], GiveBack(s, p, i);
    GiveChunkOk(z, s.zoneSize, i);
    SameBlocks(s, s');
    NfreePositive(z, s.zoneSize);
    if z.nfree == 0 { AddOne(s.lists[z.zi], p); }
  }

  lemma RetireKeeps(s: State, p: nat)
    requires Inv(s) && p in s.zones && s.zones[p].nfree == s.zones[p].nmax
    ensures s.zones[p].zi < NZONES && Inv(Retire(s, p))
    ensures forall q, j :: Holds(Retire(s, p), q, j) <==> Holds(s, q, j)
  {
    hide Conserved, Drop, ChunkSize, Count, Out;
    var z, s' := s.zones[p], Retire(s, p);
    OutCount(z, s.zoneSize);
    DropOne(s.lists[z.zi], p);
    AddOne(s.spare, p);
    assert forall q :: IsZone(s', q) <==> IsZone(s, q);
  }

  lemma ReleaseSpareKeeps(s: State)
    requires Inv(s)
    ensures Inv(ReleaseSpare(s))
    ensures forall q, j :: Holds(ReleaseSpare(s), q, j) <==> Holds(s, q, j)
  {
    hide Conserved, ZonesOk, ArrayOk, Distinct, Return, Clear, Out;
    if |s.spare| > ZONE_RELEASE_THRESH {
      var p, s' := s.spare[0], ReleaseSpare(s);
      var r := Run(p, ZonePages(s));
      TailDistinct(s.spare);
      assert IsZone(s, p) && !IsZone(s', p);
      ReturnTaken(s.pool, r);
      forall q | IsZone(s', q) ensures Marked(s'.usage, q, ZonePages(s')) && Run(q, ZonePages(s')) in s'.pool.taken {
        assert IsZone(s, q) && q != p;
        TakenApart(s.pool, Run(q, ZonePages(s)), r);
      }
      forall q | q in s'.large ensures q < |s'.usage| && s'.usage[q] == Large(s'.large[q])
                                       && Run(q, s'.large[q]) in s'.pool.taken && !IsZone(s', q) {
        TakenApart(s.pool, Run(q, s.large[q]), r);
        assert !IsZone(s, q);
      }
    }
  }

  lemma FreeChunkKeeps(s: State, p: nat, i: nat)
    requires Inv(s) && Holds(s, p, i)
    ensures s.zones[p].zi < NZONES && Inv(FreeChunk(s, p, i)) && FreeChunk(s, p, i).large == s.large
    ensures forall q, j :: Holds(FreeChunk(s, p, i), q, j) <==> Holds(s, q, j) && !(q == p && j == i)
  {
    hide Inv, GiveBack, Retire, ReleaseSpare, Holds;
    LimitBound(s);
    GiveBackKeeps(s, p, i);
    GiveBackZone(s, p, i);
    LargeStays(s, p, i);
    var s1 := GiveBack(s, p, i);
    if s1.zones[p].nfree == s1.zones[p].nmax && |s1.lists[s1.zones[p].zi]| > 1 {
      RetireKeeps(s1, p);
      ReleaseSpareKeeps(Retire(s1, p));
    }
  }

  lemma GiveBackZone(s: State, p: nat, i: nat)
    requires p in s.zones && s.zones[p].zi < |s.lists|
    ensures var s1 := GiveBack(s, p, i); p in s1.zones && s1.zones[p].zi == s.zones[p].zi && |s1.lists| == |s.lists|
  {
  }

  lemma LargeStays(s: State, p: nat, i: nat)
    requires p in s.zones && s.zones[p].zi < |s.lists|
    ensures FreeChunk(s, p, i).large == s.large
  {
    hide Drop, Return, Clear;
  }

  /** Freeing the address of a chunk gives back exactly that chunk; freeing a large block, exactly that block. */
  lemma FreeChunkAt(s: State, p: nat, i: nat)
    requires Inv(s) && Holds(s, p, i)
    ensures 0 < s.zones[p].chunk && LiveChunk(s, ChunkAddr(s, p, i)) && !LiveLarge(s, ChunkAddr(s, p, i))
    ensures Free(s, ChunkAddr(s, p, i)) == FreeChunk(s, p, i)
  {
    hide FreeChunk, Offset, Out, ChunkSize, Count, BlocksOk, ZonesOk, ArrayOk, Marked;
    LookupIs(s, p, i);
    MultipleOf(s.zones[p].chunk, i);
    ChunkInZone(s, p, i);
  }

  // ----- Whole runs

  datatype Op = DoMalloc(n: nat) | DoFree(addr: nat)

  predicate Legal(s: State, op: Op) {
    match op
    case DoMalloc(n) => n < WORD
    case DoFree(addr) => LiveLarge(s, addr) || LiveChunk(s, addr)
  }

  /** An address that passes the lookup is the address of a chunk in the hands of the client. */
  lemma LiveHolds(s: State, addr: nat)
    requires Inv(s) && LiveChunk(s, addr)
    ensures Holds(s, addr / PAGE - s.usage[addr / PAGE].off,
                  (addr - PAGE * (addr / PAGE - s.usage[addr / PAGE].off)
                   - Offset(s.zones[addr / PAGE - s.usage[addr / PAGE].off].chunk))
                  / s.zones[addr / PAGE - s.usage[addr / PAGE].off].chunk)
  {
    hide Inv, Out, Offset;
  }

  function Step(s: State, op: Op): (s': State)
    requires Inv(s) && Legal(s, op)
  {
    match op
    case DoMalloc(n) => Malloc(s, n).0
    case DoFree(addr) => Free(s, addr)
  }

  lemma StepKeeps(s: State, op: Op)
    requires Inv(s) && Legal(s, op)
    ensures Inv(Step(s, op))
  {
    hide Inv, Malloc, FreeLarge, FreeChunk;
    match op
    case DoMalloc(n) => MallocKeeps(s, n);
    case DoFree(addr) =>
      if LiveLarge(s, addr) { FreeLargeKeeps(s, addr / PAGE); } else { LiveHolds(s, addr); FreeAddr(s, addr); }
  }

  lemma FreeAddr(s: State, addr: nat)
    requires Inv(s) && LiveChunk(s, addr) && !LiveLarge(s, addr)
    ensures Inv(Free(s, addr))
  {
    hide Inv, FreeChunk, Out, Offset;
    LiveHolds(s, addr);
    var p := addr / PAGE - s.usage[addr / PAGE].off;
    FreeChunkKeeps(s, p, (addr - PAGE * p - Offset(s.zones[p].chunk)) / s.zones[p].chunk);
  }

  predicate LegalRun(s: State, ops: seq<Op>)
    requires Inv(s)
    decreases |ops|
  {
    ops != [] ==> Legal(s, ops[0]) && (StepKeeps(s, ops[0]); LegalRun(Step(s, ops[0]), ops[1..]))
  }

  /** Every run keeps the invariant. */
  function RunOps(s: State, ops: seq<Op>): (s': State)
    requires Inv(s) && LegalRun(s, ops)
    ensures Inv(s')
    decreases |ops|
  {
    if ops == [] then s else (StepKeeps(s, ops[0]); RunOps(Step(s, ops[0]), ops[1..]))
  }

  /** In every reachable state each zone counts right: what the client holds and z_nfree make up z_nmax. */
  lemma RunCounts(s: State, ops: seq<Op>, p: nat)
    requires Inv(s) && LegalRun(s, ops) && p in RunOps(s, ops).zones
    ensures var z := RunOps(s, ops).zones[p]; |Out(z)| + z.nfree == z.nmax
  {
    hide LegalRun, Out;
    OutCount(RunOps(s, ops).zones[p], RunOps(s, ops).zoneSize);
  }
}
