// What the slab allocator promises about pages: none is lost, and a request fails
// only when the page allocator does.
module SlabLaws {
  import opened Lists
  import opened Pages
  import opened Zones
  import opened Slab

  // ----- No page is lost

  /** The run is a zone, a spare zone, or a block of the client. */
  predicate InUse(s: State, a: Run) {
    (IsZone(s, a.at) && a.count == ZonePages(s)) || (a.at in s.large && a.count == s.large[a.at])
  }

  /** Whatever the page allocator has handed out since base is in use, and few zones are kept in reserve. */
  ghost predicate NoLeak(s: State, base: set<Run>) {
    && (forall a :: a in s.pool.taken ==> a in base || InUse(s, a))
    && |s.spare| <= ZONE_RELEASE_THRESH
  }

  lemma LargeNoLeak(s: State, base: set<Run>, n: nat)
    requires Inv(s) && NoLeak(s, base) && s.limit <= n
    ensures NoLeak(MallocLarge(s, n).0, base)
  {
    hide Conserved, ZonesOk, ArrayOk, UsageOk, Distinct, Obtain;
    ObtainFrame(s.pool, PagesFor(n));
    var (pool, f) := Obtain(s.pool, PagesFor(n));
    var s' := MallocLarge(s, n).0;
    if f.At? {
      var r := Run(f.page, PagesFor(n));
      assert Covers(r, r.at);
      forall a | a in s.pool.taken && InUse(s, a) ensures InUse(s', a) {
        assert IsZone(s', a.at) <==> IsZone(s, a.at);
        TakenPositive(s.pool, a);
        assert !Overlap(a, r) && (a.at == r.at ==> Overlap(a, r));
      }
    }
  }

  lemma TakenPositive(h: Pool, a: Run)
    requires Conserved(h) && a in h.taken
    ensures 0 < a.count
  {
  }

  lemma FromNoLeak(s: State, base: set<Run>, zi: nat)
    requires Inv(s) && NoLeak(s, base) && zi < NZONES && s.lists[zi] != []
    ensures s.lists[zi][0] in s.zones && 0 < s.zones[s.lists[zi][0]].chunk
    ensures NoLeak(MallocFrom(s, zi).0, base)
  {
    hide BlocksOk, UsageOk, TakeChunk, Out;
    ListHead(s, zi);
    var s' := MallocFrom(s, zi).0;
    assert s'.zones.Keys == s.zones.Keys;
    forall a | InUse(s, a) ensures InUse(s', a) { assert IsZone(s', a.at) <==> IsZone(s, a.at); }
  }

  lemma NewNoLeak(s: State, base: set<Run>, zi: nat, chunk: nat)
    requires Inv(s) && NoLeak(s, base) && zi < NZONES && 0 < chunk
    ensures NoLeak(MallocNew(s, zi, chunk).0, base)
  {
    hide Conserved, ZonesOk, ArrayOk, UsageOk, Distinct, Obtain, Slab.Mark, NewZone;
    LimitBound(s);
    ObtainFrame(s.pool, ZonePages(s));
    var s' := MallocNew(s, zi, chunk).0;
    forall a | InUse(s, a) ensures InUse(s', a) {
      if a.at in s.spare && s.spare != [] && a.at != s.spare[0] { InRest(s.spare, a.at); }
    }
  }

  lemma InRest(list: seq<nat>, p: nat)
    requires list != [] && p in list && p != list[0]
    ensures p in list[1..]
  {
    assert list == [list[0]] + list[1..];
  }

  lemma FreeLargeNoLeak(s: State, base: set<Run>, p: nat)
    requires Inv(s) && NoLeak(s, base) && p in s.large
    ensures p < |s.usage| && NoLeak(FreeLarge(s, p), base)
    ensures Run(p, s.large[p]) !in FreeLarge(s, p).pool.taken && FreeLarge(s, p).large == s.large - {p}
  {
    hide Conserved, ZonesOk, ArrayOk, Distinct, Pages.Free;
    var s', r := FreeLarge(s, p), Run(p, s.large[p]);
    forall a | a in s'.pool.taken && InUse(s, a) ensures InUse(s', a) {
      assert IsZone(s', a.at) <==> IsZone(s, a.at);
      if a.at == p { SameStart(s.pool, a, r); }
    }
  }

  lemma SameStart(h: Pool, a: Run, b: Run)
    requires Conserved(h) && a in h.taken && b in h.taken && a.at == b.at
    ensures a == b
  {
    assert Overlap(a, b);
  }

  lemma GiveBackNoLeak(s: State, base: set<Run>, p: nat, i: nat)
    requires NoLeak(s, base) && p in s.zones && s.zones[p].zi < |s.lists|
    ensures NoLeak(GiveBack(s, p, i), base)
  {
    var s' := GiveBack(s, p, i);
    assert s'.zones.Keys == s.zones.Keys;
    forall a | InUse(s, a) ensures InUse(s', a) { assert IsZone(s', a.at) <==> IsZone(s, a.at); }
  }

  /** Retiring a zone and releasing one from the reserve when it is full. */
  lemma RetireNoLeak(s: State, base: set<Run>, p: nat)
    requires Inv(s) && NoLeak(s, base) && p in s.zones && s.zones[p].nfree == s.zones[p].nmax
    ensures s.zones[p].zi < NZONES && NoLeak(ReleaseSpare(Retire(s, p)), base)
  {
    hide Conserved, Distinct, Drop, Pages.Free, Slab.Clear, UsageOk, Out;
    RetireKeeps(s, p);
    var s1 := Retire(s, p);
    forall a | InUse(s, a) ensures InUse(s1, a) { assert IsZone(s1, a.at) <==> IsZone(s, a.at); }
    var s2 := ReleaseSpare(s1);
    if |s1.spare| > ZONE_RELEASE_THRESH {
      var q := s1.spare[0];
      assert IsZone(s1, q);
      forall a | a in s2.pool.taken && InUse(s1, a) ensures InUse(s2, a) {
        if a.at == q {
          SameStart(s1.pool, a, Run(q, ZonePages(s1)));
        } else if a.at in s1.spare {
          InRest(s1.spare, a.at);
        }
      }
    }
  }

  lemma MallocNoLeak(s: State, base: set<Run>, n: nat)
    requires Inv(s) && NoLeak(s, base) && n < WORD
    ensures NoLeak(Malloc(s, n).0, base)
  {
    hide Inv, NoLeak, ZoneIndex, MallocLarge, MallocFrom, MallocNew;
    LimitBound(s);
    if n >= s.limit {
      LargeNoLeak(s, base, n);
    } else if n > 0 {
      ZoneIndexIs(n);
      NewZoneOk(n, s.zoneSize, s.limit);
      var (zi, chunk) := ZoneIndex(n);
      if s.lists[zi] != [] { FromNoLeak(s, base, zi); } else { NewNoLeak(s, base, zi, chunk); }
    }
  }

  lemma FreeChunkNoLeak(s: State, base: set<Run>, p: nat, i: nat)
    requires Inv(s) && NoLeak(s, base) && Holds(s, p, i)
    ensures s.zones[p].zi < |s.lists| && NoLeak(FreeChunk(s, p, i), base)
  {
    hide Inv, NoLeak, GiveBack, Retire, ReleaseSpare, Holds;
    LimitBound(s);
    GiveBackKeeps(s, p, i);
    GiveBackZone(s, p, i);
    GiveBackNoLeak(s, base, p, i);
    var s1 := GiveBack(s, p, i);
    if s1.zones[p].nfree == s1.zones[p].nmax && |s1.lists[s1.zones[p].zi]| > 1 { RetireNoLeak(s1, base, p); }
  }

  lemma StepNoLeak(s: State, base: set<Run>, op: Op)
    requires Inv(s) && NoLeak(s, base) && Legal(s, op)
    ensures NoLeak(Step(s, op), base)
  {
    hide Inv, NoLeak, Malloc, FreeLarge, FreeChunk, Holds, Offset;
    match op
    case DoMalloc(n) => MallocNoLeak(s, base, n);
    case DoFree(addr) =>
      if LiveLarge(s, addr) {
        FreeLargeNoLeak(s, base, addr / PAGE);
      } else {
        LiveHolds(s, addr);
        var p := addr / PAGE - s.usage[addr / PAGE].off;
        FreeChunkNoLeak(s, base, p, (addr - PAGE * p - Offset(s.zones[p].chunk)) / s.zones[p].chunk);
      }
  }

  /** After every run each page that the page allocator has handed out belongs to a zone, to one of the few zones in
      reserve or to a block of the client: when the client has given everything back and no zone is left, all pages
      are free again. */
  lemma {:induction false} RunNoLeak(s: State, base: set<Run>, ops: seq<Op>)
    requires Inv(s) && NoLeak(s, base) && LegalRun(s, ops)
    ensures NoLeak(RunOps(s, ops), base)
    decreases |ops|
  {
    hide Inv, NoLeak, Step, Legal;
    if ops != [] {
      StepKeeps(s, ops[0]);
      StepNoLeak(s, base, ops[0]);
      RunNoLeak(Step(s, ops[0]), base, ops[1..]);
    }
  }

  // ----- When a request fails

  /** No run of n free pages. */
  predicate NoPages(s: State, n: nat) { n == 0 || forall i :: 0 <= i < |s.pool.free| ==> s.pool.free[i].count < n }

  /** rt_malloc fails exactly on an empty request, on a large one that finds no pages, and on a small one of an index
      without free chunks when there is no zone in reserve and no pages for a new one. */
  lemma MallocFailsIff(s: State, n: nat)
    requires Inv(s) && n < WORD
    ensures 0 < n < s.limit ==> ZoneIndex(n).0 < |s.lists|
    ensures Malloc(s, n).1.Null? <==>
              || n == 0
              || (n >= s.limit && NoPages(s, PagesFor(n)))
              || (0 < n < s.limit && s.lists[ZoneIndex(n).0] == [] && s.spare == [] && NoPages(s, ZonePages(s)))
  {
    hide Inv, ZoneIndex, ZoneOk, TakeChunk, Offset, NewZone, Pages.Alloc, Slab.Mark;
    LimitBound(s);
    if n >= s.limit {
      AllocFailsIff(s.pool.free, PagesFor(n));
    } else if n > 0 {
      ZoneIndexIs(n);
      var zi := ZoneIndex(n).0;
      if s.lists[zi] != [] { ListHead(s, zi); }
      AllocFailsIff(s.pool.free, ZonePages(s));
    }
  }
}
